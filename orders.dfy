/**
 * Checkout and confirmation.  Checkout turns the user's basket into an
 * order with status new, one order line per basket line, and a pending
 * confirmation code mailed to the user; stock is not touched.
 * Confirmation checks the code and then withdraws the ordered stock,
 * marks the order confirmed, drops the code and empties the basket.
 *
 * Each handler is a transition function (`Create`, `Confirm`) built from
 * a guard part and a write part (`Place`, `Commit`), and a store method
 * that performs the same writes one row at a time (`OrderCreateView`,
 * `ConfirmOrderView`).  Neither handler runs in a transaction: every write
 * is committed as it happens, so a failure part-way keeps the writes
 * before it.
 */
module Orders {
  import opened Wrappers
  import opened Values
  import opened Tables
  import opened Models
  import opened Database

  datatype CreateResponse =
    | OrderCreated(order: Id)                                    // 201
    | EmptyBasket                                                // 400
    | SupplierUnavailable(item: Id)                              // 400
    | NotEnoughStock(item: Id, requested: int, available: nat)   // 400
    | AddressMissing                                             // 400
    | AddressNotInteger                                          // 400
    | AddressNegative                                            // 400
    | AddressNotFound                                            // 400
    | LineRejected(item: Id)       // the order line insert raises (500)

  // ------------------------------------------------------------ checkout

  /** Every listed id is a basket line. */
  ghost predicate InCarts(k: Carts, lines: seq<Id>) {
    forall i :: i in lines ==> i in k.items
  }

  /** Checkout's check of one basket line: the supplier check, then the stock check. */
  function Unfit(db: DB, i: Id): Option<CreateResponse>
    requires Linked(db) && i in db.carts.items
  {
    var line := db.carts.items[i];
    var product := db.catalog.products[line.product];
    if !db.accounts.suppliers[product.supplier].acceptsOrders then Some(SupplierUnavailable(i))
    else if product.quantity < line.quantity then Some(NotEnoughStock(i, line.quantity, product.quantity))
    else None
  }

  /** Whether the line passes both checks: its supplier accepts orders and the stock covers it. */
  ghost predicate Fits(db: DB, i: Id)
    requires Linked(db) && i in db.carts.items
  {
    var line := db.carts.items[i];
    var product := db.catalog.products[line.product];
    db.accounts.suppliers[product.supplier].acceptsOrders && line.quantity <= product.quantity
  }

  /** The refusal of the first line, in order, that fails a check. */
  function FirstRejection(db: DB, lines: seq<Id>): (r: Option<CreateResponse>)
    requires Linked(db) && InCarts(db.carts, lines)
    ensures r.Some? ==> r.value.SupplierUnavailable? || r.value.NotEnoughStock?
    decreases |lines|
  {
    if lines == [] then None
    else if Unfit(db, lines[0]).Some? then Unfit(db, lines[0])
    else FirstRejection(db, lines[1..])
  }

  /**
   * No line is refused exactly when every line fits; otherwise the refusal
   * is that of the first line that does not fit.
   */
  lemma {:induction false} FirstRejectionFindsFirst(db: DB, lines: seq<Id>)
    requires Linked(db) && InCarts(db.carts, lines)
    ensures FirstRejection(db, lines).None? <==> forall i :: i in lines ==> Fits(db, i)
    ensures FirstRejection(db, lines).Some? ==>
      exists t :: 0 <= t < |lines| && FirstRejection(db, lines) == Unfit(db, lines[t])
        && !Fits(db, lines[t]) && forall u :: 0 <= u < t ==> Fits(db, lines[u])
    decreases |lines|
  {
    if lines != [] {
      FirstRejectionFindsFirst(db, lines[1..]);
      if Unfit(db, lines[0]).None? && FirstRejection(db, lines).Some? {
        var t :| 0 <= t < |lines[1..]| && FirstRejection(db, lines[1..]) == Unfit(db, lines[1..][t])
          && !Fits(db, lines[1..][t]) && forall u :: 0 <= u < t ==> Fits(db, lines[1..][u]);
        assert forall u :: 0 <= u < t + 1 ==> Fits(db, lines[u]) by {
          forall u | 0 <= u < t + 1 ensures Fits(db, lines[u]) {
            if u > 0 { assert lines[u] == lines[1..][u - 1]; }
          }
        }
        assert lines[t + 1] == lines[1..][t];
      }
      forall i | i in lines[1..] ensures i in lines { }
      assert forall i :: i in lines ==> i == lines[0] || i in lines[1..];
    }
  }

  /** Whether the order line under key `j` belongs to `order` and copies basket line `line`. */
  ghost predicate Copied(items: map<Id, OrderItem>, j: Id, order: Id, line: BasketItem) {
    j in items && items[j].order == order && items[j].product == line.product
    && items[j].quantity == line.quantity
  }

  /** Appends one order line under the next key. */
  function Insert(s: Sales, item: OrderItem): Sales {
    s.(orderItems := s.orderItems[s.nextOrderItem := item], nextOrderItem := s.nextOrderItem + 1)
  }

  /**
   * Inserts one order line per basket line, copying product and quantity,
   * and stops at the first line whose quantity the positive-integer column
   * refuses; the second component names that line.
   */
  function CopyLines(s: Sales, order: Id, k: Carts, lines: seq<Id>): (Sales, Option<Id>)
    requires InCarts(k, lines)
    decreases |lines|
  {
    if lines == [] then (s, None)
    else
      var line := k.items[lines[0]];
      if line.quantity < 0 then (s, Some(lines[0]))
      else CopyLines(Insert(s, OrderItem(order, line.product, line.quantity)), order, k, lines[1..])
  }

  /**
   * Copying writes only order lines: the `n` lines it inserts take the
   * next `n` keys and copy the first `n` basket lines; all of them are
   * copied unless line `n` has a negative quantity, which is then named.
   */
  lemma {:induction false} CopyLinesCopies(s: Sales, order: Id, k: Carts, lines: seq<Id>)
    requires InCarts(k, lines) && Bounded(s.orderItems, s.nextOrderItem)
    ensures var (s', failed) := CopyLines(s, order, k, lines);
      var n := s'.nextOrderItem - s.nextOrderItem;
      && s' == s.(orderItems := s'.orderItems, nextOrderItem := s'.nextOrderItem)
      && 0 <= n <= |lines|
      && Bounded(s'.orderItems, s'.nextOrderItem)
      && (failed.None? ==> n == |lines|)
      && (failed.Some? ==> n < |lines| && failed.value == lines[n] && k.items[lines[n]].quantity < 0)
      && (forall j :: j in s'.orderItems <==> j in s.orderItems || s.nextOrderItem <= j < s'.nextOrderItem)
      && (forall j :: j in s.orderItems ==> s'.orderItems[j] == s.orderItems[j])
      && (forall t :: 0 <= t < n ==> Copied(s'.orderItems, s.nextOrderItem + t, order, k.items[lines[t]]))
    decreases |lines|
  {
    if lines != [] && k.items[lines[0]].quantity >= 0 {
      var line := k.items[lines[0]];
      var s1 := Insert(s, OrderItem(order, line.product, line.quantity));
      assert InCarts(k, lines[1..]) by {
        forall i | i in lines[1..] ensures i in k.items { }
      }
      CopyLinesCopies(s1, order, k, lines[1..]);
      var (s', failed) := CopyLines(s, order, k, lines);
      assert (s', failed) == CopyLines(s1, order, k, lines[1..]);
      assert failed.Some? ==> failed.value == lines[1..][s'.nextOrderItem - s1.nextOrderItem];
      var n := s'.nextOrderItem - s.nextOrderItem;
      forall t | 0 <= t < n ensures Copied(s'.orderItems, s.nextOrderItem + t, order, k.items[lines[t]]) {
        if t > 0 {
          assert lines[t] == lines[1..][t - 1];
          assert s.nextOrderItem + t == s1.nextOrderItem + (t - 1);
        } else {
          assert s.nextOrderItem in s1.orderItems;
        }
      }
    }
  }

  /**
   * The writes of checkout once every check has passed: the order row
   * with status new, the order lines, the code record expiring 15 minutes
   * after `now`, and the mail carrying the code to the user.
   */
  function Place(db: DB, user: Id, address: Id, lines: seq<Id>, code: string, now: int): Step<CreateResponse>
    requires InCarts(db.carts, lines)
  {
    var o := db.sales.nextOrder;
    var (s2, failed) := CopyLines(OpenOrder(db.sales, user, address), o, db.carts, lines);
    if failed.Some? then Step(db.(sales := s2), LineRejected(failed.value))
    else Step(db.(sales := s2.(codes := s2.codes[o := IssueCode(code, now)]),
                  outbox := db.outbox + [Mail(user, o, code)]),
              OrderCreated(o))
  }

  /** Inserts the order row, with status new, under the next key. */
  function OpenOrder(s: Sales, user: Id, address: Id): Sales {
    s.(orders := s.orders[s.nextOrder := Order(user, Some(address), New)], nextOrder := s.nextOrder + 1)
  }

  /** The new order row keeps the sales tables valid, and no order line refers to it yet. */
  lemma OpenOrderValid(s: Sales, user: Id, address: Id, users: set<Id>, products: set<Id>)
    requires SalesValid(s, users, products) && user in users
    ensures var s1 := OpenOrder(s, user, address);
      && SalesValid(s1, users, products) && s.nextOrder in s1.orders
      && forall j :: j in s1.orderItems ==> s1.orderItems[j].order != s.nextOrder
  {
    forall j | j in s.orderItems ensures s.orderItems[j].order != s.nextOrder {
      assert s.orderItems[j].order in s.orders;
    }
  }

  /** Whether `a` is one of `user`'s delivery addresses. */
  predicate AddressOf(db: DB, user: Id, a: int) {
    a in db.accounts.addresses && db.accounts.addresses[a].user == user
  }

  /** The checkout handler: the basket checks, then the address checks, then the writes. */
  function Create(db: DB, user: Id, addressId: Value, code: string, now: int): Step<CreateResponse>
    requires Linked(db)
  {
    if user !in db.carts.baskets then Step(db, EmptyBasket)
    else
      var lines := BasketLines(db.carts, user);
      if lines == [] then Step(db, EmptyBasket)
      else match FirstRejection(db, lines)
        case Some(e) => Step(db, e)
        case None => Deliver(db, user, addressId, lines, code, now)
  }

  /** The address checks of checkout, then its writes for `lines`. */
  function Deliver(db: DB, user: Id, addressId: Value, lines: seq<Id>, code: string, now: int): (r: Step<CreateResponse>)
    requires InCarts(db.carts, lines)
    ensures r.response.AddressMissing? || r.response.AddressNotInteger? || r.response.AddressNegative?
      || r.response.AddressNotFound? || r.response.OrderCreated? || r.response.LineRejected?
  {
    if !Truthy(addressId) then Step(db, AddressMissing)
    else match ToInt(addressId)
      case None => Step(db, AddressNotInteger)
      case Some(a) =>
        if a < 0 then Step(db, AddressNegative)
        else if !AddressOf(db, user, a) then Step(db, AddressNotFound)
        else Place(db, user, a, lines, code, now)
  }

  /** Checkout answers EmptyBasket, writing nothing, exactly when the user has no basket or no line in it. */
  lemma CreateRefusesEmptyBasket(db: DB, user: Id, addressId: Value, code: string, now: int)
    requires Linked(db)
    ensures var st := Create(db, user, addressId, code, now);
      && (st.response == EmptyBasket <==>
            user !in db.carts.baskets || BasketLines(db.carts, user) == [])
      && (st.response == EmptyBasket ==> st.db == db)
  {
  }

  /**
   * With lines in the basket, checkout goes on to the address checks
   * exactly when every line fits, and otherwise refuses with nothing
   * written.
   */
  lemma CreateChecksLines(db: DB, user: Id, addressId: Value, code: string, now: int)
    requires Linked(db) && user in db.carts.baskets && BasketLines(db.carts, user) != []
    ensures var st := Create(db, user, addressId, code, now);
      if forall i :: i in BasketLines(db.carts, user) ==> Fits(db, i)
      then st == Deliver(db, user, addressId, BasketLines(db.carts, user), code, now)
      else st.db == db && (st.response.SupplierUnavailable? || st.response.NotEnoughStock?)
  {
    FirstRejectionFindsFirst(db, BasketLines(db.carts, user));
  }

  /**
   * The address is checked in order: missing (absent, null, 0 or empty),
   * not an integer, negative, not the user's; each refusal writes nothing,
   * and an address that passes leads to the writes.
   */
  lemma DeliverChecksAddress(db: DB, user: Id, addressId: Value, lines: seq<Id>, code: string, now: int)
    requires InCarts(db.carts, lines)
    ensures var st := Deliver(db, user, addressId, lines, code, now);
      && (st.response == AddressMissing <==> !Truthy(addressId))
      && (st.response == AddressNotInteger <==> Truthy(addressId) && ToInt(addressId).None?)
      && (st.response == AddressNegative <==>
            Truthy(addressId) && ToInt(addressId).Some? && ToInt(addressId).value < 0)
      && (st.response == AddressNotFound <==>
            Truthy(addressId) && ToInt(addressId).Some? && ToInt(addressId).value >= 0
            && !AddressOf(db, user, ToInt(addressId).value))
      && ((st.response.AddressMissing? || st.response.AddressNotInteger? || st.response.AddressNegative?
           || st.response.AddressNotFound?) ==> st.db == db)
      && (Truthy(addressId) && ToInt(addressId).Some? && ToInt(addressId).value >= 0
          && AddressOf(db, user, ToInt(addressId).value) ==>
            st == Place(db, user, ToInt(addressId).value, lines, code, now))
  {
  }

  /**
   * Checkout writes nothing unless every check passes: any answer other
   * than a created order, or a failure inside the writes, leaves the
   * database as it was.
   */
  lemma CreateChecksBeforeWriting(db: DB, user: Id, addressId: Value, code: string, now: int)
    requires Linked(db)
    ensures var st := Create(db, user, addressId, code, now);
      && (!st.response.OrderCreated? && !st.response.LineRejected? ==> st.db == db)
      && (st.response.OrderCreated? || st.response.LineRejected? ==>
            user in db.carts.baskets && ToInt(addressId).Some? && ToInt(addressId).value >= 0)
  {
    CreateRefusesEmptyBasket(db, user, addressId, code, now);
    if user in db.carts.baskets && BasketLines(db.carts, user) != [] {
      CreateChecksLines(db, user, addressId, code, now);
      DeliverChecksAddress(db, user, addressId, BasketLines(db.carts, user), code, now);
    }
  }

  /**
   * Checkout reaches its writes only when the basket has lines, every line
   * fits and the address is a non-negative integer naming one of the
   * user's addresses.
   */
  lemma CreateWritesAfterChecks(db: DB, user: Id, addressId: Value, code: string, now: int, a: Id)
    requires Linked(db) && ToInt(addressId) == Some(a)
    ensures var st := Create(db, user, addressId, code, now);
      st.response.OrderCreated? || st.response.LineRejected? ==>
        && user in db.carts.baskets && BasketLines(db.carts, user) != []
        && (forall i :: i in BasketLines(db.carts, user) ==> Fits(db, i))
        && Truthy(addressId) && AddressOf(db, user, a)
        && st == Place(db, user, a, BasketLines(db.carts, user), code, now)
  {
    CreateRefusesEmptyBasket(db, user, addressId, code, now);
    if user in db.carts.baskets && BasketLines(db.carts, user) != [] {
      CreateChecksLines(db, user, addressId, code, now);
      DeliverChecksAddress(db, user, addressId, BasketLines(db.carts, user), code, now);
    }
  }

  /**
   * A basket line whose supplier does not accept orders, or whose stock
   * is below its quantity, makes checkout refuse with nothing written; the
   * refusal names the first such line and states requested and available
   * amounts.
   */
  lemma CreateRefusesUnfitLine(db: DB, user: Id, addressId: Value, code: string, now: int, i: Id)
    requires Linked(db) && user in db.carts.baskets
    requires i in BasketLines(db.carts, user) && !Fits(db, i)
    ensures var st := Create(db, user, addressId, code, now);
      && st.db == db
      && (st.response.SupplierUnavailable? || st.response.NotEnoughStock?)
      && st.response.item in BasketLines(db.carts, user)
      && Unfit(db, st.response.item) == Some(st.response)
  {
    FirstRejectionFindsFirst(db, BasketLines(db.carts, user));
  }

  /**
   * The writes of checkout add exactly one order, with status new, for the
   * user and the given address; its lines are exactly one per given basket
   * line, in order, with the same product and quantity; the code record
   * expires 15 minutes after `now` and the code is mailed to the user.
   * Stock, baskets and accounts are untouched.
   */
  lemma PlaceWrites(db: DB, user: Id, address: Id, lines: seq<Id>, code: string, now: int)
    requires InCarts(db.carts, lines)
    requires Bounded(db.sales.orders, db.sales.nextOrder) && Bounded(db.sales.orderItems, db.sales.nextOrderItem)
    requires OrderItemsResolve(db.sales.orderItems, db.sales.orders.Keys, db.catalog.products.Keys)
    ensures var st := Place(db, user, address, lines, code, now);
      st.response.OrderCreated? ==>
        var o := st.response.order;
        var n0 := db.sales.nextOrderItem;
        && o == db.sales.nextOrder && o !in db.sales.orders
        && st.db.sales.orders == db.sales.orders[o := Order(user, Some(address), New)]
        && st.db.catalog == db.catalog && st.db.carts == db.carts && st.db.accounts == db.accounts
        && st.db.sales.codes == db.sales.codes[o := ConfirmationCode(code, now + CodeLifetime)]
        && st.db.outbox == db.outbox + [Mail(user, o, code)]
        && st.db.sales.nextOrderItem == n0 + |lines|
        && (forall t :: 0 <= t < |lines| ==> Copied(st.db.sales.orderItems, n0 + t, o, db.carts.items[lines[t]]))
        && (forall j :: j in st.db.sales.orderItems && st.db.sales.orderItems[j].order == o <==>
              n0 <= j < n0 + |lines|)
        && (forall j :: j in db.sales.orderItems ==>
              j in st.db.sales.orderItems && st.db.sales.orderItems[j] == db.sales.orderItems[j])
  {
    var st := Place(db, user, address, lines, code, now);
    var o := db.sales.nextOrder;
    var s1 := OpenOrder(db.sales, user, address);
    CopyLinesCopies(s1, o, db.carts, lines);
    var (s2, failed) := CopyLines(s1, o, db.carts, lines);
    if failed.None? {
      var n0 := db.sales.nextOrderItem;
      assert s2.nextOrderItem == n0 + |lines|;
      forall j | j in db.sales.orderItems
        ensures st.db.sales.orderItems[j].order != o
      {
        assert db.sales.orderItems[j].order in db.sales.orders;
      }
      forall j | n0 <= j < n0 + |lines|
        ensures j in st.db.sales.orderItems && st.db.sales.orderItems[j].order == o
      {
        assert Copied(s2.orderItems, n0 + (j - n0), o, db.carts.items[lines[j - n0]]);
      }
    }
  }

  /**
   * A successful checkout is the writes of `PlaceWrites` for the user's
   * basket lines and the requested address.
   */
  lemma CreatePlacesOrder(db: DB, user: Id, addressId: Value, code: string, now: int, a: Id)
    requires Valid(db) && ToInt(addressId) == Some(a)
    ensures var st := Create(db, user, addressId, code, now);
      st.response.OrderCreated? ==>
        var o := st.response.order;
        var lines := BasketLines(db.carts, user);
        && o == db.sales.nextOrder
        && st.db.sales.orders == db.sales.orders[o := Order(user, Some(a), New)]
        && st.db.catalog == db.catalog && st.db.carts == db.carts
        && st.db.sales.codes == db.sales.codes[o := ConfirmationCode(code, now + CodeLifetime)]
        && st.db.outbox == db.outbox + [Mail(user, o, code)]
        && (forall t :: 0 <= t < |lines| ==>
              Copied(st.db.sales.orderItems, db.sales.nextOrderItem + t, o, db.carts.items[lines[t]]))
        && (forall j :: j in st.db.sales.orderItems && st.db.sales.orderItems[j].order == o <==>
              db.sales.nextOrderItem <= j < db.sales.nextOrderItem + |lines|)
  {
    CreateWritesAfterChecks(db, user, addressId, code, now, a);
    PlaceWrites(db, user, a, BasketLines(db.carts, user), code, now);
  }

  /**
   * The minimum of 1 on quantities is a form validator that neither the
   * basket nor checkout runs: a basket line of quantity 0 passes the stock
   * check, and checkout stores an order line of quantity 0 for it.
   */
  lemma ZeroLineOrdered(db: DB, user: Id, addressId: Value, code: string, now: int, a: Id, i: Id)
    requires Valid(db) && user in db.carts.baskets
    requires i in BasketLines(db.carts, user) && db.carts.items[i].quantity == 0
    requires forall l :: l in BasketLines(db.carts, user) ==> Fits(db, l) && db.carts.items[l].quantity >= 0
    requires Truthy(addressId) && ToInt(addressId) == Some(a) && AddressOf(db, user, a)
    ensures var st := Create(db, user, addressId, code, now);
      && st.response == OrderCreated(db.sales.nextOrder)
      && exists j :: j in st.db.sales.orderItems && st.db.sales.orderItems[j].order == db.sales.nextOrder
           && st.db.sales.orderItems[j].product == db.carts.items[i].product
           && st.db.sales.orderItems[j].quantity == 0
  {
    var lines := BasketLines(db.carts, user);
    var st := Create(db, user, addressId, code, now);
    CreateChecksLines(db, user, addressId, code, now);
    DeliverChecksAddress(db, user, addressId, lines, code, now);
    assert st == Place(db, user, a, lines, code, now);
    var s1 := OpenOrder(db.sales, user, a);
    CopyLinesCopies(s1, db.sales.nextOrder, db.carts, lines);
    var (s2, failed) := CopyLines(s1, db.sales.nextOrder, db.carts, lines);
    assert forall t :: 0 <= t < |lines| ==> db.carts.items[lines[t]].quantity >= 0;
    assert failed.None?;
    CreatePlacesOrder(db, user, addressId, code, now, a);
    var t :| 0 <= t < |lines| && lines[t] == i;
    assert Copied(st.db.sales.orderItems, db.sales.nextOrderItem + t, db.sales.nextOrder, db.carts.items[i]);
  }

  /**
   * Checkout never writes the stock, the baskets or the accounts: every
   * outcome, refusal, created order or rejected line, leaves them as
   * they were.
   */
  lemma CreateKeepsStock(db: DB, user: Id, addressId: Value, code: string, now: int)
    requires Linked(db)
    ensures var st := Create(db, user, addressId, code, now);
      st.db.catalog == db.catalog && st.db.carts == db.carts && st.db.accounts == db.accounts
  {
    CreateChecksBeforeWriting(db, user, addressId, code, now);
    var st := Create(db, user, addressId, code, now);
    if st.response.OrderCreated? || st.response.LineRejected? {
      var a: Id := ToInt(addressId).value;
      CreateWritesAfterChecks(db, user, addressId, code, now, a);
      var (s2, failed) := CopyLines(OpenOrder(db.sales, user, a), db.sales.nextOrder, db.carts, BasketLines(db.carts, user));
      assert st.db.catalog == db.catalog;
    }
  }

  /**
   * With no transaction around checkout, an order line the positive-integer
   * column refuses ends it after the order row and the earlier lines are
   * stored: the order stays with status new, with no code and no mail, so
   * it can never be confirmed.
   */
  lemma CreateLineRejected(db: DB, user: Id, addressId: Value, code: string, now: int)
    requires Valid(db)
    ensures var st := Create(db, user, addressId, code, now);
      st.response.LineRejected? ==>
        && ToInt(addressId).Some? && ToInt(addressId).value >= 0
        && st.db.sales.orders == db.sales.orders[db.sales.nextOrder := Order(user, Some(ToInt(addressId).value), New)]
        && st.db.sales.codes == db.sales.codes
        && st.db.outbox == db.outbox
        && st.response.item in BasketLines(db.carts, user)
        && db.carts.items[st.response.item].quantity < 0
        && db.sales.nextOrder !in st.db.sales.codes
  {
    CreateChecksBeforeWriting(db, user, addressId, code, now);
    var st := Create(db, user, addressId, code, now);
    if st.response.LineRejected? {
      var a: Id := ToInt(addressId).value;
      CreateWritesAfterChecks(db, user, addressId, code, now, a);
      var lines := BasketLines(db.carts, user);
      var s1 := OpenOrder(db.sales, user, a);
      CopyLinesCopies(s1, db.sales.nextOrder, db.carts, lines);
      var (s2, failed) := CopyLines(s1, db.sales.nextOrder, db.carts, lines);
      assert failed.Some? && st.response.item == failed.value;
      assert lines[s2.nextOrderItem - s1.nextOrderItem] in lines;
      assert db.sales.nextOrder !in db.sales.codes;
    }
  }

  /**
   * Copying basket lines of pairwise distinct products into an existing
   * order that holds none of them keeps the sales tables valid.
   */
  lemma {:induction false} CopyLinesValid(s: Sales, order: Id, k: Carts, lines: seq<Id>, users: set<Id>, products: set<Id>)
    requires SalesValid(s, users, products) && order in s.orders && InCarts(k, lines)
    requires forall i :: i in lines ==> k.items[i].product in products
    requires forall t, u :: 0 <= t < u < |lines| ==> k.items[lines[t]].product != k.items[lines[u]].product
    requires forall j, i :: j in s.orderItems && s.orderItems[j].order == order && i in lines ==>
      s.orderItems[j].product != k.items[i].product
    ensures SalesValid(CopyLines(s, order, k, lines).0, users, products)
    decreases |lines|
  {
    if lines != [] && k.items[lines[0]].quantity >= 0 {
      var line := k.items[lines[0]];
      var s1 := Insert(s, OrderItem(order, line.product, line.quantity));
      assert UniqueOrderLines(s1.orderItems);
      var rest := lines[1..];
      assert InCarts(k, rest) by {
        forall i | i in rest ensures i in k.items { assert i in lines; }
      }
      forall t, u | 0 <= t < u < |rest| ensures k.items[rest[t]].product != k.items[rest[u]].product {
        assert rest[t] == lines[t + 1] && rest[u] == lines[u + 1];
      }
      forall j, i | j in s1.orderItems && s1.orderItems[j].order == order && i in rest
        ensures s1.orderItems[j].product != k.items[i].product
      {
        var u :| 0 <= u < |rest| && rest[u] == i;
        assert i == lines[u + 1];
        if j !in s.orderItems {
          assert s1.orderItems[j].product == k.items[lines[0]].product;
        }
      }
      CopyLinesValid(s1, order, k, rest, users, products);
    }
  }

  /** The lines of one basket name pairwise distinct products. */
  lemma BasketLinesDistinct(k: Carts, user: Id)
    requires UniqueBasketLines(k.items)
    ensures var lines := BasketLines(k, user);
      forall t, u :: 0 <= t < u < |lines| ==> k.items[lines[t]].product != k.items[lines[u]].product
  {
    var lines := BasketLines(k, user);
    forall t, u | 0 <= t < u < |lines| ensures k.items[lines[t]].product != k.items[lines[u]].product {
      assert lines[t] < lines[u];
      assert lines[t] in lines && lines[u] in lines;
    }
  }

  /** Copying the lines of the user's basket into a new order keeps the sales tables valid. */
  lemma CopyBasketValid(s: Sales, k: Carts, user: Id, address: Id, users: set<Id>, products: set<Id>)
    requires SalesValid(s, users, products) && CartsValid(k, users, products) && user in k.baskets
    ensures var s2 := CopyLines(OpenOrder(s, user, address), s.nextOrder, k, BasketLines(k, user)).0;
      SalesValid(s2, users, products) && s.nextOrder in s2.orders
  {
    var lines := BasketLines(k, user);
    var s1 := OpenOrder(s, user, address);
    OpenOrderValid(s, user, address, users, products);
    BasketLinesDistinct(k, user);
    CopyLinesValid(s1, s.nextOrder, k, lines, users, products);
    CopyLinesCopies(s1, s.nextOrder, k, lines);
  }

  /** The writes of checkout for the lines of the user's basket keep the database valid. */
  lemma PlaceKeepsValid(db: DB, user: Id, address: Id, code: string, now: int)
    requires Valid(db) && user in db.carts.baskets
    ensures var lines := BasketLines(db.carts, user);
      Valid(Place(db, user, address, lines, code, now).db)
  {
    var lines := BasketLines(db.carts, user);
    var st := Place(db, user, address, lines, code, now);
    var users := db.accounts.users.Keys;
    var products := db.catalog.products.Keys;
    CopyBasketValid(db.sales, db.carts, user, address, users, products);
    var (s2, failed) := CopyLines(OpenOrder(db.sales, user, address), db.sales.nextOrder, db.carts, lines);
    if failed.None? {
      SalesWithCode(s2, db.sales.nextOrder, IssueCode(code, now), users, products);
    }
    SalesOnly(db, st.db);
  }

  /** Every outcome of checkout keeps the database valid. */
  lemma CreateKeepsValid(db: DB, user: Id, addressId: Value, code: string, now: int)
    requires Valid(db)
    ensures Linked(db) && Valid(Create(db, user, addressId, code, now).db)
  {
    var st := Create(db, user, addressId, code, now);
    CreateChecksBeforeWriting(db, user, addressId, code, now);
    if st.response.OrderCreated? || st.response.LineRejected? {
      CreateWritesAfterChecks(db, user, addressId, code, now, ToInt(addressId).value);
      PlaceKeepsValid(db, user, ToInt(addressId).value, code, now);
    }
  }

  /** Adding the code of an existing order keeps the sales tables valid. */
  lemma SalesWithCode(s: Sales, o: Id, c: ConfirmationCode, users: set<Id>, products: set<Id>)
    requires SalesValid(s, users, products) && o in s.orders
    ensures SalesValid(s.(codes := s.codes[o := c]), users, products)
  {
  }

  /** A state that differs from a valid one only in valid sales tables and the outbox is valid. */
  lemma SalesOnly(db: DB, db': DB)
    requires Valid(db) && db' == db.(sales := db'.sales, outbox := db'.outbox)
    requires SalesValid(db'.sales, db.accounts.users.Keys, db.catalog.products.Keys)
    ensures Valid(db')
  {
  }

  method OrderCreateView(s: Store, user: Id, addressId: Value, code: string, now: int)
      returns (r: CreateResponse)
    requires Linked(s.db) && WellFormedCode(code)
    modifies s
    ensures Step(s.db, r) == Create(old(s.db), user, addressId, code, now)
  {
    if user !in s.db.carts.baskets {
      return EmptyBasket;
    }
    var lines := BasketLines(s.db.carts, user);
    if |lines| == 0 {
      return EmptyBasket;
    }
    var rejection := CheckLines(s.db, lines);
    if rejection.Some? {
      return rejection.value;
    }
    if !Truthy(addressId) {
      return AddressMissing;
    }
    var a := ToInt(addressId);
    if a.None? {
      return AddressNotInteger;
    }
    if a.value < 0 {
      return AddressNegative;
    }
    if !(a.value in s.db.accounts.addresses && s.db.accounts.addresses[a.value].user == user) {
      return AddressNotFound;
    }
    r := PlaceOrder(s, user, a.value, lines, code, now);
  }

  /** The loop over the basket lines that checks each supplier and each stock. */
  method CheckLines(db: DB, lines: seq<Id>) returns (r: Option<CreateResponse>)
    requires Linked(db) && InCarts(db.carts, lines)
    ensures r == FirstRejection(db, lines)
  {
    for k := 0 to |lines|
      invariant FirstRejection(db, lines) == FirstRejection(db, lines[k..])
    {
      assert lines[k..][1..] == lines[k + 1..];
      var line := db.carts.items[lines[k]];
      var product := db.catalog.products[line.product];
      if !db.accounts.suppliers[product.supplier].acceptsOrders {
        return Some(SupplierUnavailable(lines[k]));
      }
      if product.quantity < line.quantity {
        return Some(NotEnoughStock(lines[k], line.quantity, product.quantity));
      }
    }
    return None;
  }

  /** The writes of checkout, one row at a time. */
  method PlaceOrder(s: Store, user: Id, address: Id, lines: seq<Id>, code: string, now: int)
      returns (r: CreateResponse)
    requires InCarts(s.db.carts, lines)
    modifies s
    ensures Step(s.db, r) == Place(old(s.db), user, address, lines, code, now)
  {
    var o := s.db.sales.nextOrder;
    s.db := s.db.(sales := s.db.sales.(orders := s.db.sales.orders[o := Order(user, Some(address), New)],
                                       nextOrder := o + 1));
    ghost var s1 := s.db.sales;
    for k := 0 to |lines|
      invariant s.db == old(s.db).(sales := s.db.sales)
      invariant CopyLines(s1, o, s.db.carts, lines) == CopyLines(s.db.sales, o, s.db.carts, lines[k..])
    {
      assert lines[k..][1..] == lines[k + 1..];
      var line := s.db.carts.items[lines[k]];
      if line.quantity < 0 {
        return LineRejected(lines[k]);
      }
      var id := s.db.sales.nextOrderItem;
      s.db := s.db.(sales := s.db.sales.(orderItems := s.db.sales.orderItems[id := OrderItem(o, line.product, line.quantity)],
                                         nextOrderItem := id + 1));
    }
    s.db := s.db.(sales := s.db.sales.(codes := s.db.sales.codes[o := IssueCode(code, now)]),
                  outbox := s.db.outbox + [Mail(user, o, code)]);
    r := OrderCreated(o);
  }

  // -------------------------------------------------------- confirmation

  datatype ConfirmResponse =
    | OrderConfirmed(order: Id)      // 200
    | FieldsMissing                  // 400
    | OrderIdNotInteger              // 400
    | OrderIdNegative                // 400
    | OrderNotFound                  // 404
    | NoPendingCode                  // 400
    | CodeExpired                    // 400, the code record is deleted
    | CodeMismatch                   // 400
    | StockWentNegative(item: Id)    // a product save raises (500)
    | BasketMissing                  // the basket lookup raises (500)

  /** Whether order `n` exists and belongs to `user`: `get(id=n, user=user)` finds it. */
  predicate OrderOf(db: DB, user: Id, n: int) {
    n in db.sales.orders && db.sales.orders[n].user == user
  }

  /** Every listed order line exists and names an existing product. */
  ghost predicate Resolvable(products: map<Id, Product>, items: map<Id, OrderItem>, lines: seq<Id>) {
    forall i :: i in lines ==> i in items && items[i].product in products
  }

  /**
   * The stock loop of confirmation: each order line in turn lowers its
   * product's stock by its quantity and saves it; the positive-integer
   * column refuses a negative stock, which stops the loop at that line
   * with the earlier saves kept.  Only quantities change.
   */
  function Withdraw(products: map<Id, Product>, items: map<Id, OrderItem>, lines: seq<Id>): (r: (map<Id, Product>, Option<Id>))
    requires Resolvable(products, items, lines)
    ensures r.0.Keys == products.Keys
    ensures forall p :: p in r.0 ==> r.0[p] == products[p].(quantity := r.0[p].quantity)
    decreases |lines|
  {
    if lines == [] then (products, None)
    else
      var item := items[lines[0]];
      var left := products[item.product].quantity - item.quantity;
      if left < 0 then (products, Some(lines[0]))
      else Withdraw(products[item.product := products[item.product].(quantity := left)], items, lines[1..])
  }

  /** The total quantity the listed order lines ask of product `p`. */
  function Demand(items: map<Id, OrderItem>, lines: seq<Id>, p: Id): nat
    requires forall i :: i in lines ==> i in items
    decreases |lines|
  {
    if lines == [] then 0
    else (if items[lines[0]].product == p then items[lines[0]].quantity else 0) + Demand(items, lines[1..], p)
  }

  /** When the loop completes, each product's stock has dropped by exactly what the lines ask of it. */
  lemma {:induction false} WithdrawTakesDemand(products: map<Id, Product>, items: map<Id, OrderItem>, lines: seq<Id>)
    requires Resolvable(products, items, lines)
    ensures var (after, failed) := Withdraw(products, items, lines);
      failed.None? ==>
        forall p :: p in products ==> after[p].quantity == products[p].quantity - Demand(items, lines, p)
    decreases |lines|
  {
    if lines != [] {
      var item := items[lines[0]];
      var left := products[item.product].quantity - item.quantity;
      if left >= 0 {
        var p1 := products[item.product := products[item.product].(quantity := left)];
        WithdrawTakesDemand(p1, items, lines[1..]);
      }
    }
  }

  /**
   * The loop stopped at position `t`: the lines before it complete, leaving
   * `after`, and `after` lacks the stock line `t` asks for.
   */
  ghost predicate StoppedAt(products: map<Id, Product>, items: map<Id, OrderItem>, lines: seq<Id>, t: int, after: map<Id, Product>)
    requires Resolvable(products, items, lines)
  {
    && 0 <= t < |lines|
    && Withdraw(products, items, lines[..t]) == (after, None)
    && items[lines[t]].product in after
    && after[items[lines[t]].product].quantity < items[lines[t]].quantity
  }

  /**
   * When the loop stops at a line, that line's product has less stock than
   * the line asks, and the stock is exactly what completing the loop over
   * the lines before it leaves.
   */
  lemma {:induction false} WithdrawStopsAt(products: map<Id, Product>, items: map<Id, OrderItem>, lines: seq<Id>)
    requires Resolvable(products, items, lines)
    ensures var (after, failed) := Withdraw(products, items, lines);
      failed.Some? ==> exists t :: StoppedAt(products, items, lines, t, after) && lines[t] == failed.value
    decreases |lines|
  {
    var (after, failed) := Withdraw(products, items, lines);
    if lines != [] && failed.Some? {
      var item := items[lines[0]];
      var left := products[item.product].quantity - item.quantity;
      if left < 0 {
        assert lines[..0] == [];
        assert StoppedAt(products, items, lines, 0, after);
      } else {
        var p1 := products[item.product := products[item.product].(quantity := left)];
        var rest := lines[1..];
        assert Withdraw(p1, items, rest) == (after, failed);
        WithdrawStopsAt(p1, items, rest);
        var t :| StoppedAt(p1, items, rest, t, after) && rest[t] == failed.value;
        StoppedLater(products, items, lines, t, after);
      }
    }
  }

  /** A stop in the tail after a completed first line is a stop one position later. */
  lemma StoppedLater(products: map<Id, Product>, items: map<Id, OrderItem>, lines: seq<Id>, t: int, after: map<Id, Product>)
    requires Resolvable(products, items, lines) && lines != []
    requires items[lines[0]].quantity <= products[items[lines[0]].product].quantity
    requires var item := items[lines[0]];
      StoppedAt(products[item.product := products[item.product].(quantity := products[item.product].quantity - item.quantity)],
        items, lines[1..], t, after)
    ensures StoppedAt(products, items, lines, t + 1, after)
  {
    assert lines[..t + 1][1..] == lines[1..][..t];
    assert lines[t + 1] == lines[1..][t];
  }

  /**
   * The loop completes when the lines name pairwise distinct products and
   * each product's stock covers its line.
   */
  lemma {:induction false} WithdrawSucceeds(products: map<Id, Product>, items: map<Id, OrderItem>, lines: seq<Id>)
    requires Resolvable(products, items, lines)
    requires forall t, u :: 0 <= t < u < |lines| ==> items[lines[t]].product != items[lines[u]].product
    requires forall i :: i in lines ==> items[i].quantity <= products[items[i].product].quantity
    ensures Withdraw(products, items, lines).1.None?
    decreases |lines|
  {
    if lines != [] {
      var item := items[lines[0]];
      var left := products[item.product].quantity - item.quantity;
      var p1 := products[item.product := products[item.product].(quantity := left)];
      var rest := lines[1..];
      forall t, u | 0 <= t < u < |rest| ensures items[rest[t]].product != items[rest[u]].product {
        assert rest[t] == lines[t + 1] && rest[u] == lines[u + 1];
      }
      forall i | i in rest ensures items[i].quantity <= p1[items[i].product].quantity {
        var u :| 0 <= u < |rest| && rest[u] == i;
        assert i == lines[u + 1];
      }
      WithdrawSucceeds(p1, items, rest);
    }
  }

  /** What the lines of pairwise distinct products ask of the product of one of them is that line's quantity. */
  lemma {:induction false} DemandOfLine(items: map<Id, OrderItem>, lines: seq<Id>, t: nat)
    requires forall i :: i in lines ==> i in items
    requires forall t, u :: 0 <= t < u < |lines| ==> items[lines[t]].product != items[lines[u]].product
    requires t < |lines|
    ensures Demand(items, lines, items[lines[t]].product) == items[lines[t]].quantity
    decreases |lines|
  {
    var p := items[lines[t]].product;
    var rest := lines[1..];
    forall t', u | 0 <= t' < u < |rest| ensures items[rest[t']].product != items[rest[u]].product {
      assert rest[t'] == lines[t' + 1] && rest[u] == lines[u + 1];
    }
    if t == 0 {
      DemandOfAbsent(items, rest, p);
    } else {
      assert lines[t] == rest[t - 1];
      DemandOfLine(items, rest, t - 1);
    }
  }

  /** Lines that do not name `p` ask nothing of it. */
  lemma {:induction false} DemandOfAbsent(items: map<Id, OrderItem>, lines: seq<Id>, p: Id)
    requires forall i :: i in lines ==> i in items && items[i].product != p
    ensures Demand(items, lines, p) == 0
    decreases |lines|
  {
    if lines != [] {
      DemandOfAbsent(items, lines[1..], p);
    }
  }

  /** The lines of one order name pairwise distinct products. */
  lemma OrderLinesDistinct(s: Sales, order: Id)
    requires UniqueOrderLines(s.orderItems)
    ensures var lines := OrderLines(s, order);
      forall t, u :: 0 <= t < u < |lines| ==> s.orderItems[lines[t]].product != s.orderItems[lines[u]].product
  {
    var lines := OrderLines(s, order);
    forall t, u | 0 <= t < u < |lines| ensures s.orderItems[lines[t]].product != s.orderItems[lines[u]].product {
      assert lines[t] < lines[u];
      assert lines[t] in lines && lines[u] in lines;
    }
  }

  /** `basket.items.all().delete()`: every line of the user's basket is deleted. */
  function ClearBasket(items: map<Id, BasketItem>, user: Id): (r: map<Id, BasketItem>)
    ensures forall j :: j in r <==> j in items && items[j].basket != user
    ensures forall j :: j in r ==> r[j] == items[j]
  {
    map j | j in items && items[j].basket != user :: items[j]
  }

  /**
   * The writes of confirmation once the code is accepted: the stock loop,
   * then the order's status, the code record and the basket lines.
   */
  function Commit(db: DB, user: Id, order: Id): (r: Step<ConfirmResponse>)
    requires Linked(db) && order in db.sales.orders
    ensures r.response.OrderConfirmed? || r.response.StockWentNegative? || r.response.BasketMissing?
  {
    var lines := OrderLines(db.sales, order);
    assert Resolvable(db.catalog.products, db.sales.orderItems, lines);
    var (products, failed) := Withdraw(db.catalog.products, db.sales.orderItems, lines);
    var db1 := db.(catalog := db.catalog.(products := products));
    if failed.Some? then Step(db1, StockWentNegative(failed.value))
    else
      var db2 := db1.(sales := db.sales.(orders := db.sales.orders[order := db.sales.orders[order].(status := Confirmed)],
                                         codes := db.sales.codes - {order}));
      if user !in db.carts.baskets then Step(db2, BasketMissing)
      else Step(db2.(carts := db.carts.(items := ClearBasket(db.carts.items, user))), OrderConfirmed(order))
  }

  /** The code checks of confirmation: expired, then different from the submitted value. */
  function Redeem(db: DB, user: Id, n: Id, code: Value, now: int): (r: Step<ConfirmResponse>)
    requires Linked(db) && n in db.sales.orders && n in db.sales.codes
    ensures r.response.CodeExpired? || r.response.CodeMismatch? || r.response.OrderConfirmed?
      || r.response.StockWentNegative? || r.response.BasketMissing?
  {
    var c := db.sales.codes[n];
    if IsExpired(c, now) then Step(db.(sales := db.sales.(codes := db.sales.codes - {n})), CodeExpired)
    else if code != Str(c.code) then Step(db, CodeMismatch)
    else Commit(db, user, n)
  }

  /** The confirmation handler: the request checks, the order and code lookups, then `Redeem`. */
  function Confirm(db: DB, user: Id, orderId: Value, code: Value, now: int): Step<ConfirmResponse>
    requires Linked(db)
  {
    if !Truthy(orderId) || !Truthy(code) then Step(db, FieldsMissing)
    else match ToInt(orderId)
      case None => Step(db, OrderIdNotInteger)
      case Some(n) =>
        if n < 0 then Step(db, OrderIdNegative)
        else if !OrderOf(db, user, n) then Step(db, OrderNotFound)
        else if n !in db.sales.codes then Step(db, NoPendingCode)
        else Redeem(db, user, n, code, now)
  }

  /**
   * The request checks come first and write nothing: both fields present,
   * the id an integer, the id not negative.
   */
  lemma ConfirmChecksRequest(db: DB, user: Id, orderId: Value, code: Value, now: int)
    requires Linked(db)
    ensures var st := Confirm(db, user, orderId, code, now);
      && (st.response.FieldsMissing? <==> !Truthy(orderId) || !Truthy(code))
      && (Truthy(orderId) && Truthy(code) ==>
            && (st.response.OrderIdNotInteger? <==> ToInt(orderId).None?)
            && (st.response.OrderIdNegative? <==> ToInt(orderId).Some? && ToInt(orderId).value < 0))
      && (st.response.FieldsMissing? || st.response.OrderIdNotInteger? || st.response.OrderIdNegative? ==> st.db == db)
  {
  }

  /**
   * Then the order must be the user's (404 otherwise) and must have a
   * pending code; neither refusal writes anything.
   */
  lemma ConfirmChecksOrder(db: DB, user: Id, orderId: Value, code: Value, now: int, n: Id)
    requires Linked(db)
    requires Truthy(orderId) && Truthy(code) && ToInt(orderId) == Some(n)
    ensures var st := Confirm(db, user, orderId, code, now);
      && (st.response.OrderNotFound? <==> !OrderOf(db, user, n))
      && (OrderOf(db, user, n) ==> (st.response.NoPendingCode? <==> n !in db.sales.codes))
      && (st.response.OrderNotFound? || st.response.NoPendingCode? ==> st.db == db)
      && (OrderOf(db, user, n) && n in db.sales.codes ==> st == Redeem(db, user, n, code, now))
  {
  }

  /**
   * An expired code is deleted and refused; an unexpired code that differs
   * from the submitted value is refused and kept; a matching one commits.
   */
  lemma RedeemChecksCode(db: DB, user: Id, n: Id, code: Value, now: int)
    requires Linked(db) && n in db.sales.orders && n in db.sales.codes
    ensures var st := Redeem(db, user, n, code, now);
      var c := db.sales.codes[n];
      && (st.response.CodeExpired? <==> IsExpired(c, now))
      && (st.response.CodeExpired? ==>
            st.db == db.(sales := db.sales.(codes := db.sales.codes - {n})) && n !in st.db.sales.codes)
      && (!IsExpired(c, now) ==> (st.response.CodeMismatch? <==> code != Str(c.code)))
      && (st.response.CodeMismatch? ==> st.db == db && n in st.db.sales.codes)
      && (!IsExpired(c, now) && code == Str(c.code) ==> st == Commit(db, user, n))
  {
  }

  /**
   * A successful commit lowers each product's stock by what the order's
   * lines ask of it and changes no other product field, marks the order
   * confirmed, deletes its code and every line of the user's basket, and
   * leaves everything else as it was.
   */
  lemma CommitConfirms(db: DB, user: Id, n: Id)
    requires Linked(db) && n in db.sales.orders
    ensures var st := Commit(db, user, n);
      var before := db.catalog.products;
      var after := st.db.catalog.products;
      st.response.OrderConfirmed? ==>
        && st.response.order == n
        && after.Keys == before.Keys
        && (forall p :: p in after ==>
              after[p].quantity == before[p].quantity - Demand(db.sales.orderItems, OrderLines(db.sales, n), p)
              && after[p] == before[p].(quantity := after[p].quantity))
        && st.db.catalog == db.catalog.(products := after)
        && st.db.sales.orders == db.sales.orders[n := db.sales.orders[n].(status := Confirmed)]
        && st.db.sales.codes.Keys == db.sales.codes.Keys - {n}
        && st.db.sales == db.sales.(orders := st.db.sales.orders, codes := st.db.sales.codes)
        && (forall j :: j in st.db.carts.items <==> j in db.carts.items && db.carts.items[j].basket != user)
        && st.db.carts == db.carts.(items := st.db.carts.items)
        && st.db.accounts == db.accounts && st.db.outbox == db.outbox
  {
    var lines := OrderLines(db.sales, n);
    assert Resolvable(db.catalog.products, db.sales.orderItems, lines);
    WithdrawTakesDemand(db.catalog.products, db.sales.orderItems, lines);
  }

  /**
   * What each order's line asks of its product is that line's quantity,
   * so a confirmed order lowers each product's stock by exactly the
   * quantity ordered, and leaves products it does not name alone.
   */
  lemma OrderDemand(s: Sales, n: Id, j: Id, p: Id)
    requires UniqueOrderLines(s.orderItems) && Bounded(s.orderItems, s.nextOrderItem)
    ensures j in s.orderItems && s.orderItems[j].order == n ==>
      Demand(s.orderItems, OrderLines(s, n), s.orderItems[j].product) == s.orderItems[j].quantity
    ensures (forall i :: i in s.orderItems && s.orderItems[i].order == n ==> s.orderItems[i].product != p) ==>
      Demand(s.orderItems, OrderLines(s, n), p) == 0
  {
    var lines := OrderLines(s, n);
    OrderLinesDistinct(s, n);
    if j in s.orderItems && s.orderItems[j].order == n {
      var t :| 0 <= t < |lines| && lines[t] == j;
      DemandOfLine(s.orderItems, lines, t);
    }
    if forall i :: i in s.orderItems && s.orderItems[i].order == n ==> s.orderItems[i].product != p {
      DemandOfAbsent(s.orderItems, lines, p);
    }
  }

  /**
   * Confirmation has no transaction: when a product's stock would go
   * negative, the decrements saved for the lines before it stay, while the
   * order, its code and the basket are untouched.
   */
  lemma CommitStopsPartway(db: DB, user: Id, n: Id)
    requires Linked(db) && n in db.sales.orders
    ensures var st := Commit(db, user, n);
      var lines := OrderLines(db.sales, n);
      st.response.StockWentNegative? ==>
        && st.db == db.(catalog := db.catalog.(products := st.db.catalog.products))
        && exists t :: StoppedAt(db.catalog.products, db.sales.orderItems, lines, t, st.db.catalog.products)
             && lines[t] == st.response.item
  {
    var lines := OrderLines(db.sales, n);
    assert Resolvable(db.catalog.products, db.sales.orderItems, lines);
    WithdrawStopsAt(db.catalog.products, db.sales.orderItems, lines);
  }

  /** Changing product quantities and nothing else about products keeps the database valid. */
  lemma StockOnly(db: DB, products: map<Id, Product>)
    requires Valid(db) && products.Keys == db.catalog.products.Keys
    requires forall p :: p in products ==> products[p] == db.catalog.products[p].(quantity := products[p].quantity)
    ensures Valid(db.(catalog := db.catalog.(products := products)))
  {
    var c := db.catalog;
    assert UniqueExternalIds(products) by {
      forall i, j | i in products && j in products && products[i].externalId.Some?
        && products[i].supplier == products[j].supplier && products[i].externalId == products[j].externalId
        ensures i == j
      {
        assert c.products[i].externalId == products[i].externalId && c.products[j].externalId == products[j].externalId;
      }
    }
  }

  /** Confirming an order and deleting its code keeps the sales tables valid. */
  lemma SalesConfirmed(s: Sales, n: Id, users: set<Id>, products: set<Id>)
    requires SalesValid(s, users, products) && n in s.orders
    ensures SalesValid(s.(orders := s.orders[n := s.orders[n].(status := Confirmed)], codes := s.codes - {n}), users, products)
    ensures SalesValid(s.(codes := s.codes - {n}), users, products)
  {
  }

  /** Deleting the lines of one basket keeps the carts valid. */
  lemma CartsCleared(k: Carts, user: Id, users: set<Id>, products: set<Id>)
    requires CartsValid(k, users, products)
    ensures CartsValid(k.(items := ClearBasket(k.items, user)), users, products)
  {
  }

  /** A state that differs from a valid one only in valid carts is valid. */
  lemma CartsOnly(db: DB, k: Carts)
    requires Valid(db) && CartsValid(k, db.accounts.users.Keys, db.catalog.products.Keys)
    ensures Valid(db.(carts := k))
  {
  }

  /** Every outcome of the writes of confirmation keeps the database valid. */
  lemma CommitKeepsValid(db: DB, user: Id, n: Id)
    requires Valid(db) && n in db.sales.orders
    ensures Linked(db) && Valid(Commit(db, user, n).db)
  {
    var st := Commit(db, user, n);
    var lines := OrderLines(db.sales, n);
    assert Resolvable(db.catalog.products, db.sales.orderItems, lines);
    var (products, failed) := Withdraw(db.catalog.products, db.sales.orderItems, lines);
    StockOnly(db, products);
    var db1 := db.(catalog := db.catalog.(products := products));
    if failed.Some? {
      assert st.db == db1;
    } else {
      var s2 := db.sales.(orders := db.sales.orders[n := db.sales.orders[n].(status := Confirmed)], codes := db.sales.codes - {n});
      SalesConfirmed(db.sales, n, db.accounts.users.Keys, products.Keys);
      var db2 := db1.(sales := s2);
      SalesOnly(db1, db2);
      if user in db.carts.baskets {
        var k := db.carts.(items := ClearBasket(db.carts.items, user));
        CartsCleared(db.carts, user, db.accounts.users.Keys, products.Keys);
        CartsOnly(db2, k);
        assert st.db == db2.(carts := k);
      } else {
        assert st.db == db2;
      }
    }
  }

  /** Every outcome of confirmation keeps the database valid. */
  lemma ConfirmKeepsValid(db: DB, user: Id, orderId: Value, code: Value, now: int)
    requires Valid(db)
    ensures Linked(db) && Valid(Confirm(db, user, orderId, code, now).db)
  {
    if Truthy(orderId) && Truthy(code) && ToInt(orderId).Some? && ToInt(orderId).value >= 0 {
      var n: Id := ToInt(orderId).value;
      if OrderOf(db, user, n) && n in db.sales.codes {
        SalesConfirmed(db.sales, n, db.accounts.users.Keys, db.catalog.products.Keys);
        if !IsExpired(db.sales.codes[n], now) && code == Str(db.sales.codes[n].code) {
          CommitKeepsValid(db, user, n);
        }
      }
    }
  }

  /**
   * A confirmed order has no code left, so every later confirmation
   * request naming it, whatever code it carries, is refused at the
   * pending-code check with nothing written.
   */
  lemma ConfirmTwiceFails(db: DB, user: Id, orderId: Value, code: Value, now: int,
                          orderId': Value, code': Value, later: int)
    requires Valid(db)
    ensures var st := Confirm(db, user, orderId, code, now);
      st.response.OrderConfirmed? && Truthy(orderId') && Truthy(code') && ToInt(orderId') == Some(st.response.order) ==>
        Linked(st.db) && Confirm(st.db, user, orderId', code', later) == Step(st.db, NoPendingCode)
  {
    var st := Confirm(db, user, orderId, code, now);
    ConfirmKeepsValid(db, user, orderId, code, now);
    if st.response.OrderConfirmed? {
      ConfirmChecksRequest(db, user, orderId, code, now);
      var n: Id := ToInt(orderId).value;
      ConfirmChecksOrder(db, user, orderId, code, now, n);
      RedeemChecksCode(db, user, n, code, now);
      assert st == Commit(db, user, n);
      CommitConfirms(db, user, n);
      assert OrderOf(st.db, user, n) && n !in st.db.sales.codes;
      if Truthy(orderId') && Truthy(code') && ToInt(orderId') == Some(n) {
        ConfirmChecksOrder(st.db, user, orderId', code', later, n);
      }
    }
  }

  /**
   * The two handlers compose: after a successful checkout, confirming the
   * new order with the mailed code within its lifetime succeeds, because
   * checkout checked every line against the stock it leaves untouched.
   */
  lemma CheckoutThenConfirm(db: DB, user: Id, addressId: Value, code: string, now: int, later: int)
    requires Valid(db) && WellFormedCode(code) && later <= now + CodeLifetime
    ensures var st := Create(db, user, addressId, code, now);
      st.response.OrderCreated? ==>
        Linked(st.db) && Confirm(st.db, user, Int(st.response.order), Str(code), later).response
          == OrderConfirmed(st.response.order)
  {
    var st := Create(db, user, addressId, code, now);
    CreateKeepsValid(db, user, addressId, code, now);
    if st.response.OrderCreated? {
      CreateChecksBeforeWriting(db, user, addressId, code, now);
      var a: Id := ToInt(addressId).value;
      CreateWritesAfterChecks(db, user, addressId, code, now, a);
      CreatePlacesOrder(db, user, addressId, code, now, a);
      var o := st.response.order;
      PlacedLinesFit(db, st.db, user, o, BasketLines(db.carts, user));
      assert user in st.db.carts.baskets;
      ConfirmsPendingOrder(st.db, user, o, code, later);
    }
  }

  /**
   * Confirming the user's order with its pending, unexpired code succeeds
   * when the stock covers the order's lines and the user has a basket.
   */
  lemma ConfirmsPendingOrder(db: DB, user: Id, o: Id, code: string, now: int)
    requires Linked(db) && OrderOf(db, user, o) && o != 0 && code != ""
    requires o in db.sales.codes && db.sales.codes[o].code == code && !IsExpired(db.sales.codes[o], now)
    requires user in db.carts.baskets
    requires Withdraw(db.catalog.products, db.sales.orderItems, OrderLines(db.sales, o)).1.None?
    ensures Confirm(db, user, Int(o), Str(code), now).response == OrderConfirmed(o)
  {
    assert Truthy(Int(o)) && Truthy(Str(code));
    ConfirmChecksOrder(db, user, Int(o), Str(code), now, o);
    RedeemChecksCode(db, user, o, Str(code), now);
  }

  /**
   * The lines of an order placed from a basket whose lines all fit are
   * covered by the stock, which placing the order did not change, and
   * name pairwise distinct products, so the stock loop completes.
   */
  lemma PlacedLinesFit(db: DB, db': DB, user: Id, o: Id, lines: seq<Id>)
    requires Linked(db) && InCarts(db.carts, lines)
    requires UniqueOrderLines(db'.sales.orderItems)
    requires OrderItemsResolve(db'.sales.orderItems, db'.sales.orders.Keys, db'.catalog.products.Keys)
    requires db'.catalog == db.catalog && db'.carts == db.carts
    requires forall i :: i in lines ==> Fits(db, i)
    requires forall t :: 0 <= t < |lines| ==>
      Copied(db'.sales.orderItems, db.sales.nextOrderItem + t, o, db.carts.items[lines[t]])
    requires forall j :: j in db'.sales.orderItems && db'.sales.orderItems[j].order == o ==>
      db.sales.nextOrderItem <= j < db.sales.nextOrderItem + |lines|
    ensures Withdraw(db'.catalog.products, db'.sales.orderItems, OrderLines(db'.sales, o)).1.None?
  {
    var items := db'.sales.orderItems;
    var ordered := OrderLines(db'.sales, o);
    OrderLinesDistinct(db'.sales, o);
    assert Resolvable(db'.catalog.products, items, ordered);
    forall i | i in ordered ensures items[i].quantity <= db'.catalog.products[items[i].product].quantity {
      var t := i - db.sales.nextOrderItem;
      assert Copied(items, db.sales.nextOrderItem + t, o, db.carts.items[lines[t]]);
      assert lines[t] in lines;
    }
    WithdrawSucceeds(db'.catalog.products, items, ordered);
  }

  method ConfirmOrderView(s: Store, user: Id, orderId: Value, code: Value, now: int)
      returns (r: ConfirmResponse)
    requires Linked(s.db)
    modifies s
    ensures Step(s.db, r) == Confirm(old(s.db), user, orderId, code, now)
  {
    if !Truthy(orderId) || !Truthy(code) {
      return FieldsMissing;
    }
    var n := ToInt(orderId);
    if n.None? {
      return OrderIdNotInteger;
    }
    if n.value < 0 {
      return OrderIdNegative;
    }
    var order := n.value;
    if !(order in s.db.sales.orders && s.db.sales.orders[order].user == user) {
      return OrderNotFound;
    }
    if order !in s.db.sales.codes {
      return NoPendingCode;
    }
    var c := s.db.sales.codes[order];
    if now > c.expiresAt {
      s.db := s.db.(sales := s.db.sales.(codes := s.db.sales.codes - {order}));
      return CodeExpired;
    }
    if code != Str(c.code) {
      return CodeMismatch;
    }
    r := CommitOrder(s, user, order);
  }

  /** The writes of confirmation, one row at a time. */
  method CommitOrder(s: Store, user: Id, order: Id) returns (r: ConfirmResponse)
    requires Linked(s.db) && order in s.db.sales.orders
    modifies s
    ensures Step(s.db, r) == Commit(old(s.db), user, order)
  {
    var lines := OrderLines(s.db.sales, order);
    ghost var stock := s.db.catalog.products;
    for k := 0 to |lines|
      invariant s.db == old(s.db).(catalog := old(s.db).catalog.(products := s.db.catalog.products))
      invariant s.db.catalog.products.Keys == stock.Keys
      invariant Resolvable(s.db.catalog.products, s.db.sales.orderItems, lines[k..])
      invariant Withdraw(stock, s.db.sales.orderItems, lines)
        == Withdraw(s.db.catalog.products, s.db.sales.orderItems, lines[k..])
    {
      assert lines[k..][1..] == lines[k + 1..];
      var item := s.db.sales.orderItems[lines[k]];
      var product := s.db.catalog.products[item.product];
      var left := product.quantity - item.quantity;
      if left < 0 {
        return StockWentNegative(lines[k]);
      }
      s.db := s.db.(catalog := s.db.catalog.(products := s.db.catalog.products[item.product := product.(quantity := left)]));
    }
    var row := s.db.sales.orders[order];
    s.db := s.db.(sales := s.db.sales.(orders := s.db.sales.orders[order := row.(status := Confirmed)]));
    s.db := s.db.(sales := s.db.sales.(codes := s.db.sales.codes - {order}));
    if user !in s.db.carts.baskets {
      return BasketMissing;
    }
    s.db := s.db.(carts := s.db.carts.(items := ClearBasket(s.db.carts.items, user)));
    r := OrderConfirmed(order);
  }
}
