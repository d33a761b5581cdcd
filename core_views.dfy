/**
 * The per-user scoping of the generic order and user endpoints: each
 * lists only the rows that belong to the authenticated user.
 */
module CoreViews {
  import opened Tables
  import opened Models
  import opened Database

  /** `Order.objects.filter(user=request.user)`: the user's orders, in key order. */
  function OwnOrders(db: DB, user: Id): (r: seq<Id>)
    ensures Increasing(r)
    ensures forall o :: o in r ==> o in db.sales.orders && db.sales.orders[o].user == user
    ensures Bounded(db.sales.orders, db.sales.nextOrder) ==>
      forall o :: o in db.sales.orders && db.sales.orders[o].user == user ==> o in r
  {
    Select(db.sales.nextOrder, o => o in db.sales.orders && db.sales.orders[o].user == user)
  }

  /** `User.objects.filter(id=request.user.id)`: the user's own row, or nothing. */
  function OwnProfile(db: DB, user: Id): (r: seq<Id>)
    ensures r == [] || r == [user]
    ensures r == [user] ==> user in db.accounts.users
    ensures Bounded(db.accounts.users, db.accounts.nextUser) && user in db.accounts.users ==> r == [user]
  {
    var r := Select(db.accounts.nextUser, u => u in db.accounts.users && u == user);
    assert r == [] || r == [user] by {
      if r != [] {
        assert r[0] in r;
        IncreasingSingle(r, user);
      }
    }
    assert Bounded(db.accounts.users, db.accounts.nextUser) && user in db.accounts.users ==> r != [] by {
      if Bounded(db.accounts.users, db.accounts.nextUser) && user in db.accounts.users {
        assert user in r;
      }
    }
    assert r == [user] ==> r[0] in r;
    r
  }

  /**
   * The order listings partition the orders: every order is listed for its
   * own user and for no other, so no user sees another user's order.
   */
  lemma OrdersPartitioned(db: DB, u: Id, v: Id)
    requires Bounded(db.sales.orders, db.sales.nextOrder)
    ensures forall o :: o in db.sales.orders ==> o in OwnOrders(db, db.sales.orders[o].user)
    ensures u != v ==> forall o :: o in OwnOrders(db, u) ==> o !in OwnOrders(db, v)
  {
  }
}
