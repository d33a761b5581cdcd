/**
 * The basket handlers: show the basket (creating it on first use), add a
 * product to it, remove a line and change a line's quantity.  Each handler
 * is a transition function on the database (`View`, `Add`, `Remove`,
 * `Update`) and a method on the store that performs the same writes one
 * by one (`BasketView`, `AddView`, `RemoveView`, `UpdateQuantityView`).
 */
module Basket {
  import opened Wrappers
  import opened Values
  import opened Tables
  import opened Models
  import opened Database

  /** The user's basket with its lines, as the basket view returns it. */
  datatype ViewResponse = BasketShown(owner: Id, lines: seq<Id>)

  datatype AddResponse =
    | Added(item: Id)       // 201 with the line
    | ProductNotFound       // 404
    | ProductIdInvalid      // the product lookup raises (500)
    | QuantityInvalid       // `int(quantity)` or the insert raises (500)

  datatype RemoveResponse = Removed | RemoveNotFound

  datatype UpdateResponse =
    | Updated(item: Id)     // 200 with the line
    | Deleted               // 200, the line was deleted
    | UpdateNotFound        // 404
    | QuantityMissing       // 400
    | QuantityNotInteger    // 400
    | InsufficientStock(requested: int, available: nat)  // 400

  /** `Basket.objects.get_or_create(user=user)`. */
  function OpenBasket(db: DB, user: Id): (r: DB)
    ensures user in r.carts.baskets
  {
    db.(carts := db.carts.(baskets := db.carts.baskets + {user}))
  }

  /** Whether `item` is a line of `user`'s basket: `get(id=item, basket__user=user)` finds it. */
  predicate Owns(k: Carts, user: Id, item: Id) {
    item in k.items && k.items[item].basket == user
  }

  /** The line of `user`'s basket that holds `product`, if any. */
  function LineFor(k: Carts, user: Id, product: Id): (r: Option<Id>)
    ensures r.Some? ==> Owns(k, user, r.value) && k.items[r.value].product == product
    ensures r.None? ==> forall i: Id :: i < k.nextItem && Owns(k, user, i) ==>
      k.items[i].product != product
  {
    var holds := (i: Id) => Owns(k, user, i) && k.items[i].product == product;
    var r := Find(k.nextItem, holds);
    assert r.None? ==> forall i: Id :: i < k.nextItem && Owns(k, user, i) ==> !holds(i);
    r
  }

  /** How many of `product` the user's basket holds (0 without a line). */
  function Held(k: Carts, user: Id, product: Id): int {
    match LineFor(k, user, product)
    case Some(i) => k.items[i].quantity
    case None => 0
  }

  /** A line for `product` in `user`'s basket is the only one, so `LineFor` finds it. */
  lemma LineForUnique(k: Carts, user: Id, product: Id, i: Id)
    requires Bounded(k.items, k.nextItem) && UniqueBasketLines(k.items)
    requires Owns(k, user, i) && k.items[i].product == product
    ensures LineFor(k, user, product) == Some(i)
  {
  }

  // ---------------------------------------------------------------- view

  function View(db: DB, user: Id): Step<ViewResponse> {
    var db' := OpenBasket(db, user);
    Step(db', BasketShown(user, BasketLines(db'.carts, user)))
  }

  method BasketView(s: Store, user: Id) returns (r: ViewResponse)
    modifies s
    ensures Step(s.db, r) == View(old(s.db), user)
  {
    if user !in s.db.carts.baskets {
      s.db := s.db.(carts := s.db.carts.(baskets := s.db.carts.baskets + {user}));
    }
    r := BasketShown(user, BasketLines(s.db.carts, user));
  }

  /**
   * The view gives the user a basket, changes nothing else, and lists
   * exactly the user's lines in key order; a second view changes nothing.
   */
  lemma ViewGetsOrCreates(db: DB, user: Id)
    requires Valid(db) && user in db.accounts.users
    ensures var st := View(db, user);
      && st.db.carts.baskets == db.carts.baskets + {user}
      && st.db == db.(carts := db.carts.(baskets := st.db.carts.baskets))
      && Valid(st.db)
      && Increasing(st.response.lines)
      && (forall i :: i in st.response.lines <==> Owns(db.carts, user, i))
      && View(st.db, user) == st
  {
    var st := View(db, user);
    assert CartsValid(st.db.carts, db.accounts.users.Keys, db.catalog.products.Keys);
  }

  // ----------------------------------------------------------------- add

  /** The quantity an add request asks for: `request.data.get('quantity', 1)`. */
  function Requested(quantity: Value): Value {
    if quantity.Absent? then Int(1) else quantity
  }

  /**
   * `BasketItem.objects.get_or_create(basket, product)` followed, for an
   * existing line, by adding `q` to its quantity: the new carts and the line.
   */
  function Put(k: Carts, user: Id, p: Id, q: int): (r: (Carts, Id)) {
    match LineFor(k, user, p)
    case Some(i) =>
      (k.(items := k.items[i := k.items[i].(quantity := k.items[i].quantity + q)]), i)
    case None =>
      (k.(items := k.items[k.nextItem := BasketItem(user, p, q)], nextItem := k.nextItem + 1),
       k.nextItem)
  }

  function Add(db: DB, user: Id, productId: Value, quantity: Value): Step<AddResponse> {
    match IdLookup(productId)
    case Malformed => Step(db, ProductIdInvalid)
    case NoMatch => Step(db, ProductNotFound)
    case Key(p) =>
      if p !in db.catalog.products then Step(db, ProductNotFound)
      else
        var db1 := OpenBasket(db, user);
        match ToInt(Requested(quantity))
        case None => Step(db1, QuantityInvalid)
        case Some(q) =>
          var (k, i) := Put(db1.carts, user, p, q);
          Step(db1.(carts := k), Added(i))
  }

  method AddView(s: Store, user: Id, productId: Value, quantity: Value) returns (r: AddResponse)
    modifies s
    ensures Step(s.db, r) == Add(old(s.db), user, productId, quantity)
  {
    var quantity := Requested(quantity);
    var key := IdLookup(productId);
    if key.Malformed? {
      return ProductIdInvalid;
    }
    if key.NoMatch? || key.id !in s.db.catalog.products {
      return ProductNotFound;
    }
    s.db := s.db.(carts := s.db.carts.(baskets := s.db.carts.baskets + {user}));
    var q := ToInt(quantity);
    if q.None? {
      return QuantityInvalid;
    }
    var item := PutLine(s, user, key.id, q.value);
    r := Added(item);
  }

  /** The line get-or-create of the add handler, then the merge and save of an existing line. */
  method PutLine(s: Store, user: Id, product: Id, q: int) returns (item: Id)
    modifies s
    ensures (s.db.carts, item) == Put(old(s.db.carts), user, product, q)
    ensures s.db == old(s.db).(carts := s.db.carts)
  {
    var carts := s.db.carts;
    var line := LineFor(carts, user, product);
    if line.Some? {
      item := line.value;
      var row := carts.items[item];
      row := row.(quantity := row.quantity + q);
      carts := carts.(items := carts.items[item := row]);
    } else {
      item := carts.nextItem;
      carts := carts.(items := carts.items[item := BasketItem(user, product, q)], nextItem := item + 1);
    }
    s.db := s.db.(carts := carts);
  }

  /**
   * After a put the basket has exactly one line for the product, holding
   * what it held before plus `q`, and every other line is as it was.
   */
  lemma PutMerges(k: Carts, user: Id, p: Id, q: int)
    requires Bounded(k.items, k.nextItem) && UniqueBasketLines(k.items)
    ensures var (k', i) := Put(k, user, p, q);
      && k'.items[i] == BasketItem(user, p, Held(k, user, p) + q)
      && LineFor(k', user, p) == Some(i)
      && Held(k', user, p) == Held(k, user, p) + q
      && Bounded(k'.items, k'.nextItem) && UniqueBasketLines(k'.items)
      && k'.baskets == k.baskets
      && (forall j :: j != i ==>
            (j in k'.items <==> j in k.items) && (j in k.items ==> k'.items[j] == k.items[j]))
  {
    var (k', i) := Put(k, user, p, q);
    if LineFor(k, user, p).None? {
      assert forall j :: j in k.items && k.items[j].basket == user ==> k.items[j].product != p;
    }
    assert UniqueBasketLines(k'.items);
    LineForUnique(k', user, p, i);
  }

  /** A put keeps every line resolving, given that the basket and the product exist. */
  lemma PutResolves(k: Carts, user: Id, p: Id, q: int, products: set<Id>)
    requires Bounded(k.items, k.nextItem) && BasketItemsResolve(k.items, k.baskets, products)
    requires user in k.baskets && p in products
    ensures BasketItemsResolve(Put(k, user, p, q).0.items, k.baskets, products)
  {
  }

  /**
   * The add handler succeeds exactly when the product exists and the
   * quantity is an integer: there is no stock check and no sign check.
   * It fails 404 on an unknown product with nothing written, and writes
   * only baskets and basket lines.
   */
  lemma AddSucceedsIff(db: DB, user: Id, productId: Value, quantity: Value)
    ensures var st := Add(db, user, productId, quantity);
      && (st.response.Added? <==>
            IdLookup(productId).Key? && IdLookup(productId).id in db.catalog.products
            && ToInt(Requested(quantity)).Some?)
      && (st.response.ProductNotFound? <==>
            IdLookup(productId).NoMatch?
            || (IdLookup(productId).Key? && IdLookup(productId).id !in db.catalog.products))
      && (st.response.ProductNotFound? || st.response.ProductIdInvalid? ==> st.db == db)
      && st.db == db.(carts := st.db.carts)
  {
  }

  /**
   * On success the user's basket has exactly one line for the product,
   * holding what it held before plus the requested quantity (1 by
   * default), and every other line is untouched.
   */
  lemma AddMergesLine(db: DB, user: Id, productId: Value, quantity: Value)
    requires Bounded(db.carts.items, db.carts.nextItem) && UniqueBasketLines(db.carts.items)
    ensures var st := Add(db, user, productId, quantity);
      && Bounded(st.db.carts.items, st.db.carts.nextItem) && UniqueBasketLines(st.db.carts.items)
      && (st.response.Added? ==>
            var p := IdLookup(productId).id;
            var i := st.response.item;
            && st.db.carts.items[i] ==
                 BasketItem(user, p, Held(db.carts, user, p) + ToInt(Requested(quantity)).value)
            && LineFor(st.db.carts, user, p) == Some(i)
            && (forall j :: j != i ==>
                  (j in st.db.carts.items <==> j in db.carts.items)
                  && (j in db.carts.items ==> st.db.carts.items[j] == db.carts.items[j])))
  {
    var st := Add(db, user, productId, quantity);
    if st.response.Added? {
      var p := IdLookup(productId).id;
      var k1 := OpenBasket(db, user).carts;
      assert LineFor(k1, user, p) == LineFor(db.carts, user, p);
      PutMerges(k1, user, p, ToInt(Requested(quantity)).value);
    }
  }

  /** A state that differs from a valid one only in carts that are themselves valid is valid. */
  lemma WithCarts(db: DB, k: Carts)
    requires Valid(db) && CartsValid(k, db.accounts.users.Keys, db.catalog.products.Keys)
    ensures Valid(db.(carts := k))
  {
  }

  /** Every outcome of the add handler keeps the database valid. */
  lemma AddKeepsValid(db: DB, user: Id, productId: Value, quantity: Value)
    requires Valid(db) && user in db.accounts.users
    ensures Valid(Add(db, user, productId, quantity).db)
  {
    var st := Add(db, user, productId, quantity);
    var k1 := OpenBasket(db, user).carts;
    var users := db.accounts.users.Keys;
    var products := db.catalog.products.Keys;
    assert CartsValid(k1, users, products);
    if st.response.Added? {
      var p := IdLookup(productId).id;
      var q := ToInt(Requested(quantity)).value;
      PutMerges(k1, user, p, q);
      PutResolves(k1, user, p, q, products);
      assert CartsValid(st.db.carts, users, products);
    }
    WithCarts(db, st.db.carts);
  }

  /** Adding `a` and then `b` of one product leaves one line holding the earlier quantity plus `a + b`. */
  lemma AddTwiceAccumulates(db: DB, user: Id, p: Id, a: int, b: int)
    requires Bounded(db.carts.items, db.carts.nextItem) && UniqueBasketLines(db.carts.items)
    requires p in db.catalog.products
    ensures var first := Add(db, user, Int(p), Int(a));
      var second := Add(first.db, user, Int(p), Int(b));
      && first.response.Added? && second.response == first.response
      && second.db.carts.items[second.response.item] ==
           BasketItem(user, p, Held(db.carts, user, p) + a + b)
  {
    var first := Add(db, user, Int(p), Int(a));
    AddMergesLine(db, user, Int(p), Int(a));
    AddMergesLine(first.db, user, Int(p), Int(b));
    assert OpenBasket(first.db, user) == first.db;
  }

  // -------------------------------------------------------------- remove

  function Remove(db: DB, user: Id, item: Id): Step<RemoveResponse> {
    if Owns(db.carts, user, item) then Step(db.(carts := db.carts.(items := db.carts.items - {item})), Removed)
    else Step(db, RemoveNotFound)
  }

  method RemoveView(s: Store, user: Id, item: Id) returns (r: RemoveResponse)
    modifies s
    ensures Step(s.db, r) == Remove(old(s.db), user, item)
  {
    if !(item in s.db.carts.items && s.db.carts.items[item].basket == user) {
      return RemoveNotFound;
    }
    s.db := s.db.(carts := s.db.carts.(items := s.db.carts.items - {item}));
    r := Removed;
  }

  /**
   * Removing succeeds exactly for a line of the caller's own basket and
   * then deletes that line and no other row; otherwise it fails 404 with
   * nothing written.
   */
  lemma RemoveIsOwnerScoped(db: DB, user: Id, item: Id)
    requires Valid(db)
    ensures var st := Remove(db, user, item);
      && (st.response.Removed? <==> Owns(db.carts, user, item))
      && (st.response.RemoveNotFound? ==> st.db == db)
      && (st.response.Removed? ==>
            && st.db.carts.items.Keys == db.carts.items.Keys - {item}
            && (forall j :: j in st.db.carts.items ==> st.db.carts.items[j] == db.carts.items[j])
            && st.db == db.(carts := db.carts.(items := st.db.carts.items)))
      && Valid(st.db)
  {
    var st := Remove(db, user, item);
    DeleteLineValid(db.carts, item, db.accounts.users.Keys, db.catalog.products.Keys);
    WithCarts(db, st.db.carts);
  }

  // -------------------------------------------------------------- update

  /** Every line's product exists, so its stock can be read. */
  ghost predicate Stocked(db: DB) {
    BasketItemsResolve(db.carts.items, db.carts.baskets, db.catalog.products.Keys)
  }

  function Update(db: DB, user: Id, item: Id, quantity: Value): Step<UpdateResponse>
    requires Stocked(db)
  {
    if !Owns(db.carts, user, item) then Step(db, UpdateNotFound)
    else if IsNone(quantity) then Step(db, QuantityMissing)
    else match ToInt(quantity)
      case None => Step(db, QuantityNotInteger)
      case Some(n) =>
        if n <= 0 then Step(db.(carts := db.carts.(items := db.carts.items - {item})), Deleted)
        else
          var line := db.carts.items[item];
          var stock := db.catalog.products[line.product].quantity;
          if stock < n then Step(db, InsufficientStock(n, stock))
          else Step(db.(carts := db.carts.(items := db.carts.items[item := line.(quantity := n)])), Updated(item))
  }

  method UpdateQuantityView(s: Store, user: Id, item: Id, quantity: Value) returns (r: UpdateResponse)
    requires Stocked(s.db)
    modifies s
    ensures Step(s.db, r) == Update(old(s.db), user, item, quantity)
  {
    if !(item in s.db.carts.items && s.db.carts.items[item].basket == user) {
      return UpdateNotFound;
    }
    var line := s.db.carts.items[item];
    if quantity.Absent? || quantity.Null? {
      return QuantityMissing;
    }
    var n := ToInt(quantity);
    if n.None? {
      return QuantityNotInteger;
    }
    if n.value <= 0 {
      s.db := s.db.(carts := s.db.carts.(items := s.db.carts.items - {item}));
      return Deleted;
    }
    var stock := s.db.catalog.products[line.product].quantity;
    if stock < n.value {
      return InsufficientStock(n.value, stock);
    }
    line := line.(quantity := n.value);
    s.db := s.db.(carts := s.db.carts.(items := s.db.carts.items[item := line]));
    r := Updated(item);
  }

  /**
   * A line of another basket gives 404, a missing quantity or a
   * non-integer one 400, all with nothing written; only basket lines are
   * ever written, never a product's stock.
   */
  lemma UpdateGuards(db: DB, user: Id, item: Id, quantity: Value)
    requires Stocked(db)
    ensures var st := Update(db, user, item, quantity);
      && (st.response.UpdateNotFound? <==> !Owns(db.carts, user, item))
      && (Owns(db.carts, user, item) ==>
            && (st.response.QuantityMissing? <==> IsNone(quantity))
            && (st.response.QuantityNotInteger? <==> !IsNone(quantity) && ToInt(quantity).None?))
      && (!st.response.Deleted? && !st.response.Updated? ==> st.db == db)
      && st.db == db.(carts := db.carts.(items := st.db.carts.items))
  {
  }

  /**
   * On a line of the caller's basket with an integer quantity `n`: `n <= 0`
   * deletes the line; `n` above the product's stock fails 400 with the
   * requested and available amounts; otherwise the line holds exactly `n`.
   */
  lemma UpdateRespectsStock(db: DB, user: Id, item: Id, quantity: Value)
    requires Stocked(db)
    requires Owns(db.carts, user, item) && !IsNone(quantity) && ToInt(quantity).Some?
    ensures var st := Update(db, user, item, quantity);
      var n := ToInt(quantity).value;
      var stock := db.catalog.products[db.carts.items[item].product].quantity;
      && (n <= 0 ==> st.response == Deleted && st.db.carts.items == db.carts.items - {item})
      && (0 < n <= stock ==>
            st.response == Updated(item)
            && st.db.carts.items == db.carts.items[item := db.carts.items[item].(quantity := n)])
      && (n > stock ==> st.response == InsufficientStock(n, stock))
  {
  }

  /** Deleting a line keeps the carts valid. */
  lemma DeleteLineValid(k: Carts, item: Id, users: set<Id>, products: set<Id>)
    requires CartsValid(k, users, products)
    ensures CartsValid(k.(items := k.items - {item}), users, products)
  {
  }

  /** Changing a line's quantity keeps the carts valid. */
  lemma SetQuantityValid(k: Carts, item: Id, n: int, users: set<Id>, products: set<Id>)
    requires CartsValid(k, users, products) && item in k.items
    ensures CartsValid(k.(items := k.items[item := k.items[item].(quantity := n)]), users, products)
  {
    var k' := k.(items := k.items[item := k.items[item].(quantity := n)]);
    assert UniqueBasketLines(k'.items);
  }

  /** Every outcome of the update handler keeps the carts valid and writes nothing else. */
  lemma UpdateKeepsCartsValid(db: DB, user: Id, item: Id, quantity: Value, users: set<Id>)
    requires CartsValid(db.carts, users, db.catalog.products.Keys)
    ensures Stocked(db)
    ensures var st := Update(db, user, item, quantity);
      CartsValid(st.db.carts, users, db.catalog.products.Keys) && st.db == db.(carts := st.db.carts)
  {
    var st := Update(db, user, item, quantity);
    if st.response.Deleted? {
      DeleteLineValid(db.carts, item, users, db.catalog.products.Keys);
    } else if st.response.Updated? {
      SetQuantityValid(db.carts, item, ToInt(quantity).value, users, db.catalog.products.Keys);
    }
  }

  /** Every outcome of the update handler keeps the database valid. */
  lemma UpdateKeepsValid(db: DB, user: Id, item: Id, quantity: Value)
    requires Valid(db)
    ensures Stocked(db) && Valid(Update(db, user, item, quantity).db)
  {
    UpdateKeepsCartsValid(db, user, item, quantity, db.accounts.users.Keys);
    WithCarts(db, Update(db, user, item, quantity).db.carts);
  }
}
