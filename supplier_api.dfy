/**
 * The supplier endpoints: uploading a price list, switching whether the
 * supplier accepts orders, and listing the orders that contain the
 * supplier's products.  Every endpoint first resolves the caller's
 * supplier profile and refuses (403) a caller without one.
 *
 * The upload runs inside one transaction: an exception rolls every write
 * back, while an early error response leaves the transaction to commit
 * the writes made before it.  `Upload` describes it phase by phase
 * (categories, parameters, goods), each phase a fold that is going,
 * has returned a response or has raised.
 */
module SupplierApi {
  import opened Wrappers
  import opened Values
  import opened Tables
  import opened Models
  import opened Database
  import opened CatalogOps

  /** One entry of a price list's categories: its id as sent and its name. */
  datatype CategoryEntry = CategoryEntry(id: Value, name: string)

  /**
   * The outcome of `float(good["price"])`, in cents: no `price` key (a
   * KeyError), a value `float()` refuses, or a number; the parsing itself
   * is not modelled.
   */
  datatype Price = MissingPrice | NotNumeric | Numeric(cents: int)

  /** One good of a price list: `id` is the supplier's external id of the product. */
  datatype Good = Good(id: string, name: string, category: Value, quantity: Value, price: Price,
                       parameters: seq<(string, Value)>)

  /**
   * The request body: not a JSON object, or an object with its category
   * entries (none when the key is absent) and its goods, if that key is present.
   */
  datatype Payload = NotAnObject | Object(categories: seq<CategoryEntry>, goods: Option<seq<Good>>)

  datatype UploadResponse =
    | Uploaded(created: nat, updated: nat)   // 201
    | UploadForbidden                        // 403
    | BadFormat                              // 400
    | CategoryIdNotInteger(name: string)     // 400
    | CategoryNotFound(good: string)         // 400
    | QuantityNotInteger(good: string)       // 400
    | QuantityNegative(good: string)         // 400
    | PriceNotNumber(good: string)           // 400
    | PriceNegative(good: string)            // 400
    | UploadFailed                           // an exception: the transaction rolls back (500)

  /**
   * How far one loop of the upload got: still going with its accumulator,
   * returned an error response (the writes so far commit), or raised (the
   * transaction rolls back).
   */
  datatype Phase<T> = Going(catalog: Catalog, acc: T) | Returned(catalog: Catalog, response: UploadResponse) | Raised

  // ---------------------------------------------------------- categories

  /**
   * The category loop: each entry's id must convert with `int()` (an
   * absent id raises KeyError); its category is then got or created, and
   * its id recorded in the map of known categories.
   */
  function LoadCategories(c: Catalog, entries: seq<CategoryEntry>, known: set<int>): (r: Phase<set<int>>)
    ensures !r.Raised? ==> r.catalog == c.(categories := r.catalog.categories)
    ensures r.Returned? ==> r.response.CategoryIdNotInteger?
    decreases |entries|
  {
    if entries == [] then Going(c, known)
    else
      var e := entries[0];
      if e.id.Absent? then Raised
      else match ToInt(e.id)
        case None => Returned(c, CategoryIdNotInteger(e.name))
        case Some(id) =>
          match GetOrCreateCategory(c.categories, id, e.name)
          case None => Raised
          case Some(cats) => LoadCategories(c.(categories := cats), entries[1..], known + {id})
  }

  /** The ids of the entries whose id converts with `int()`. */
  function EntryIds(entries: seq<CategoryEntry>): set<int>
    decreases |entries|
  {
    if entries == [] then {}
    else (if ToInt(entries[0].id).Some? then {ToInt(entries[0].id).value} else {}) + EntryIds(entries[1..])
  }

  // ---------------------------------------------------------- parameters

  /** Every parameter name of every good has an entry in `pmap`. */
  ghost predicate Covers(goods: seq<Good>, pmap: map<string, Id>) {
    forall g, e :: g in goods && e in g.parameters ==> e.0 in pmap
  }

  /** The parameter loop: `get_or_create` of every parameter name of every good, in order. */
  function LoadParameters(c: Catalog, goods: seq<Good>, pmap: map<string, Id>): (r: (Catalog, map<string, Id>))
    requires Bounded(c.parameters, c.nextParameter)
    ensures Bounded(r.0.parameters, r.0.nextParameter)
    ensures r.0 == c.(parameters := r.0.parameters, nextParameter := r.0.nextParameter)
    ensures pmap.Keys <= r.1.Keys
    decreases |goods|
  {
    if goods == [] then (c, pmap)
    else
      var (c1, p1) := LoadNames(c, Names(goods[0].parameters), pmap);
      LoadParameters(c1, goods[1..], p1)
  }

  /** Every parameter entry's name occurs among its good's names. */
  lemma NamesCover(entries: seq<(string, Value)>)
    ensures forall e :: e in entries ==> e.0 in Names(entries)
  {
    forall e | e in entries ensures e.0 in Names(entries) {
      var t :| 0 <= t < |entries| && entries[t] == e;
      assert Names(entries)[t] == e.0;
    }
  }

  /** After the parameter loop every parameter name of every good has an entry. */
  lemma {:induction false} LoadParametersCovers(c: Catalog, goods: seq<Good>, pmap: map<string, Id>)
    requires Bounded(c.parameters, c.nextParameter)
    ensures Covers(goods, LoadParameters(c, goods, pmap).1)
    decreases |goods|
  {
    if goods != [] {
      var (c1, p1) := LoadNames(c, Names(goods[0].parameters), pmap);
      LoadParametersCovers(c1, goods[1..], p1);
      var pmap' := LoadParameters(c1, goods[1..], p1).1;
      NamesCover(goods[0].parameters);
      assert forall e :: e in goods[0].parameters ==> e.0 in p1;
      forall g, e | g in goods && e in g.parameters ensures e.0 in pmap' {
        if g != goods[0] {
          assert g in goods[1..];
        }
      }
    }
  }

  /**
   * After the parameter loop every recorded name maps to the row of that
   * name, and the rows that existed are unchanged.
   */
  lemma {:induction false} LoadParametersRows(c: Catalog, goods: seq<Good>, pmap: map<string, Id>)
    requires Bounded(c.parameters, c.nextParameter) && Rows(c, pmap)
    ensures Rows(LoadParameters(c, goods, pmap).0, LoadParameters(c, goods, pmap).1)
    ensures forall i :: i in c.parameters ==>
      i in LoadParameters(c, goods, pmap).0.parameters && LoadParameters(c, goods, pmap).0.parameters[i] == c.parameters[i]
    decreases |goods|
  {
    if goods != [] {
      var (c1, p1) := LoadNames(c, Names(goods[0].parameters), pmap);
      LoadNamesRows(c, Names(goods[0].parameters), pmap);
      LoadParametersRows(c1, goods[1..], p1);
    }
  }

  // --------------------------------------------------------------- goods

  /** The outcome of a good's checks: its validated fields, a refusal, or the KeyError of a missing field. */
  datatype Checked = Accepted(category: int, quantity: nat, price: int) | Refused(response: UploadResponse) | Fails

  /**
   * The key `category_map.get(v)` matches in a map keyed by integers:
   * an integer, or a boolean (Python's `True == 1`); anything else finds nothing.
   */
  function CategoryKey(v: Value): Option<int> {
    match v
    case Int(i) => Some(i)
    case Bool(b) => Some(if b then 1 else 0)
    case _ => None
  }

  /** Whether the good's category is one of this upload's category entries. */
  predicate CategoryFound(known: set<int>, g: Good) {
    CategoryKey(g.category).Some? && CategoryKey(g.category).value in known
  }

  /** A good's checks, in order: its category, then its quantity, then its price. */
  function CheckGood(known: set<int>, g: Good): (r: Checked)
    ensures r.Refused? ==>
      || r.response == CategoryNotFound(g.id) || r.response == QuantityNotInteger(g.id)
      || r.response == QuantityNegative(g.id) || r.response == PriceNotNumber(g.id)
      || r.response == PriceNegative(g.id)
    ensures r.Accepted? <==>
      && CategoryFound(known, g)
      && ToInt(g.quantity).Some? && ToInt(g.quantity).value >= 0
      && g.price.Numeric? && g.price.cents >= 0
    ensures r.Accepted? ==>
      && r.category in known && Some(r.category) == CategoryKey(g.category)
      && Some(r.quantity as int) == ToInt(g.quantity) && r.price == g.price.cents
    ensures r.Fails? <==>
      || g.category.Absent?
      || (CategoryFound(known, g) && g.quantity.Absent?)
      || (CategoryFound(known, g) && ToInt(g.quantity).Some? && ToInt(g.quantity).value >= 0 && g.price.MissingPrice?)
  {
    if g.category.Absent? then Fails
    else if !CategoryFound(known, g) then Refused(CategoryNotFound(g.id))
    else if g.quantity.Absent? then Fails
    else match ToInt(g.quantity)
      case None => Refused(QuantityNotInteger(g.id))
      case Some(q) =>
        if q < 0 then Refused(QuantityNegative(g.id))
        else match g.price
          case MissingPrice => Fails
          case NotNumeric => Refused(PriceNotNumber(g.id))
          case Numeric(p) =>
            if p < 0 then Refused(PriceNegative(g.id))
            else Accepted(CategoryKey(g.category).value, q, p)
  }

  /**
   * `get_or_create(external_id=g.id, supplier=s, defaults=...)` followed,
   * for an existing row, by the overwrite of its name, category, price and
   * quantity: the product's key and whether it was created.
   */
  function UpsertProduct(c: Catalog, s: Id, g: Good, category: int, quantity: nat, price: int): (r: (Catalog, Id, bool))
  {
    match FindProduct(c, s, g.id)
    case Some(p) =>
      (c.(products := c.products[p := c.products[p].(name := g.name, category := category, price := price, quantity := quantity)]),
       p, false)
    case None => (InsertProduct(c, Product(g.name, category, s, price, quantity, Some(g.id))), c.nextProduct, true)
  }

  /** `update_or_create` of the value `str(v)` of each parameter entry of a product, in order. */
  function SetValues(c: Catalog, product: Id, entries: seq<(string, Value)>, pmap: map<string, Id>): Catalog
    requires forall e :: e in entries ==> e.0 in pmap
    decreases |entries|
  {
    if entries == [] then c
    else SetValues(SetValue(c, product, pmap[entries[0].0], Show(entries[0].1)), product, entries[1..], pmap)
  }

  /** The counters after one more product: created or updated. */
  function Count(counts: (nat, nat), created: bool): (nat, nat) {
    if created then (counts.0 + 1, counts.1) else (counts.0, counts.1 + 1)
  }

  /**
   * The goods loop: a good is checked, then its product upserted and its
   * parameter values written; the first refusal or exception ends the loop.
   */
  function LoadGoods(c: Catalog, s: Id, goods: seq<Good>, known: set<int>, pmap: map<string, Id>, counts: (nat, nat)): (r: Phase<(nat, nat)>)
    requires Covers(goods, pmap)
    decreases |goods|
  {
    if goods == [] then Going(c, counts)
    else
      var g := goods[0];
      match CheckGood(known, g)
      case Fails => Raised
      case Refused(response) => Returned(c, response)
      case Accepted(category, quantity, price) =>
        var (c1, p, created) := UpsertProduct(c, s, g, category, quantity, price);
        assert forall e :: e in g.parameters ==> e.0 in pmap;
        LoadGoods(SetValues(c1, p, g.parameters, pmap), s, goods[1..], known, pmap, Count(counts, created))
  }

  /** One accepted good: the loop goes on from the state after its writes. */
  lemma LoadGoodsStep(c: Catalog, s: Id, goods: seq<Good>, known: set<int>, pmap: map<string, Id>, counts: (nat, nat),
                      c1: Catalog, p: Id, created: bool)
    requires Covers(goods, pmap) && goods != []
    requires CheckGood(known, goods[0]).Accepted?
    requires (c1, p, created) == UpsertProduct(c, s, goods[0], CheckGood(known, goods[0]).category,
                                                CheckGood(known, goods[0]).quantity, CheckGood(known, goods[0]).price)
    ensures forall e :: e in goods[0].parameters ==> e.0 in pmap
    ensures Covers(goods[1..], pmap)
    ensures LoadGoods(c, s, goods, known, pmap, counts)
      == LoadGoods(SetValues(c1, p, goods[0].parameters, pmap), s, goods[1..], known, pmap, Count(counts, created))
  {
    assert goods[0] in goods;
    forall g, e | g in goods[1..] && e in g.parameters ensures e.0 in pmap {
      assert g in goods;
    }
  }

  // -------------------------------------------------------------- upload

  /** The upload handler: the caller and payload checks, then the transaction. */
  function Upload(db: DB, user: Id, payload: Payload): Step<UploadResponse>
    requires Bounded(db.catalog.parameters, db.catalog.nextParameter)
  {
    match SupplierOf(db.accounts, user)
    case None => Step(db, UploadForbidden)
    case Some(s) =>
      if payload.NotAnObject? || payload.goods.None? then Step(db, BadFormat)
      else Ingest(db, s, payload.categories, payload.goods.value)
  }

  /**
   * The transaction of the upload: an exception in any phase restores
   * `db`; a response from any phase keeps the writes before it.
   */
  function Ingest(db: DB, s: Id, entries: seq<CategoryEntry>, goods: seq<Good>): Step<UploadResponse>
    requires Bounded(db.catalog.parameters, db.catalog.nextParameter)
  {
    match LoadCategories(db.catalog, entries, {})
    case Raised => Step(db, UploadFailed)
    case Returned(c1, response) => Step(db.(catalog := c1), response)
    case Going(c1, known) =>
      var (c2, pmap) := LoadParameters(c1, goods, map[]);
      LoadParametersCovers(c1, goods, map[]);
      match LoadGoods(c2, s, goods, known, pmap, (0, 0))
      case Raised => Step(db, UploadFailed)
      case Returned(c3, response) => Step(db.(catalog := c3), response)
      case Going(c3, counts) => Step(db.(catalog := c3), Uploaded(counts.0, counts.1))
  }

  method UploadView(s: Store, user: Id, payload: Payload) returns (r: UploadResponse)
    requires Bounded(s.db.catalog.parameters, s.db.catalog.nextParameter)
    modifies s
    ensures Step(s.db, r) == Upload(old(s.db), user, payload)
  {
    var supplier := SupplierOf(s.db.accounts, user);
    if supplier.None? {
      return UploadForbidden;
    }
    if payload.NotAnObject? || payload.goods.None? {
      return BadFormat;
    }
    r := IngestTransaction(s, supplier.value, payload.categories, payload.goods.value);
  }

  /** The transaction of the upload: its three loops, with the state at the start kept for a rollback. */
  method IngestTransaction(s: Store, supplier: Id, entries: seq<CategoryEntry>, goods: seq<Good>)
      returns (r: UploadResponse)
    requires Bounded(s.db.catalog.parameters, s.db.catalog.nextParameter)
    modifies s
    ensures Step(s.db, r) == Ingest(old(s.db), supplier, entries, goods)
  {
    var snapshot := s.db;
    var categories := CategoryLoop(s, entries);
    if categories.Raised? {
      s.db := snapshot;
      return UploadFailed;
    }
    if categories.Returned? {
      return categories.response;
    }
    ghost var c1 := s.db.catalog;
    var pmap := ParameterLoop(s, goods);
    LoadParametersCovers(c1, goods, map[]);
    var outcome := GoodsLoop(s, supplier, goods, categories.acc, pmap);
    if outcome.Raised? {
      s.db := snapshot;
      return UploadFailed;
    }
    if outcome.Returned? {
      return outcome.response;
    }
    r := Uploaded(outcome.acc.0, outcome.acc.1);
  }

  /** The category loop; on an exception the caller rolls back. */
  method CategoryLoop(s: Store, entries: seq<CategoryEntry>) returns (ph: Phase<set<int>>)
    modifies s
    ensures ph == LoadCategories(old(s.db.catalog), entries, {})
    ensures s.db == old(s.db).(catalog := s.db.catalog)
    ensures !ph.Raised? ==> s.db.catalog == ph.catalog
  {
    var known: set<int> := {};
    for k := 0 to |entries|
      invariant s.db == old(s.db).(catalog := s.db.catalog)
      invariant LoadCategories(old(s.db.catalog), entries, {}) == LoadCategories(s.db.catalog, entries[k..], known)
    {
      assert entries[k..][1..] == entries[k + 1..];
      var e := entries[k];
      if e.id.Absent? {
        return Raised;
      }
      var id := ToInt(e.id);
      if id.None? {
        return Returned(s.db.catalog, CategoryIdNotInteger(e.name));
      }
      var cats := GetOrCreateCategory(s.db.catalog.categories, id.value, e.name);
      if cats.None? {
        return Raised;
      }
      s.db := s.db.(catalog := s.db.catalog.(categories := cats.value));
      known := known + {id.value};
    }
    ph := Going(s.db.catalog, known);
  }

  /** The parameter loop, over the goods and then over each good's parameter names. */
  method ParameterLoop(s: Store, goods: seq<Good>) returns (pmap: map<string, Id>)
    requires Bounded(s.db.catalog.parameters, s.db.catalog.nextParameter)
    modifies s
    ensures (s.db.catalog, pmap) == LoadParameters(old(s.db.catalog), goods, map[])
    ensures s.db == old(s.db).(catalog := s.db.catalog)
  {
    pmap := map[];
    for k := 0 to |goods|
      invariant s.db == old(s.db).(catalog := s.db.catalog)
      invariant Bounded(s.db.catalog.parameters, s.db.catalog.nextParameter)
      invariant LoadParameters(old(s.db.catalog), goods, map[]) == LoadParameters(s.db.catalog, goods[k..], pmap)
    {
      assert goods[k..][1..] == goods[k + 1..];
      pmap := LoadNamesInto(s, Names(goods[k].parameters), pmap);
    }
  }

  /** The goods loop; on an exception the caller rolls back. */
  method GoodsLoop(s: Store, supplier: Id, goods: seq<Good>, known: set<int>, pmap: map<string, Id>)
      returns (ph: Phase<(nat, nat)>)
    requires Covers(goods, pmap)
    modifies s
    ensures ph == LoadGoods(old(s.db.catalog), supplier, goods, known, pmap, (0, 0))
    ensures s.db == old(s.db).(catalog := s.db.catalog)
    ensures !ph.Raised? ==> s.db.catalog == ph.catalog
  {
    var counts: (nat, nat) := (0, 0);
    for k := 0 to |goods|
      invariant s.db == old(s.db).(catalog := s.db.catalog)
      invariant Covers(goods[k..], pmap)
      invariant LoadGoods(old(s.db.catalog), supplier, goods, known, pmap, (0, 0))
        == LoadGoods(s.db.catalog, supplier, goods[k..], known, pmap, counts)
    {
      assert goods[k..][1..] == goods[k + 1..];
      var g := goods[k];
      var checked := CheckGoodFields(known, g);
      if checked.Fails? {
        return Raised;
      }
      if checked.Refused? {
        return Returned(s.db.catalog, checked.response);
      }
      var (c, p, isNew) := UpsertProduct(s.db.catalog, supplier, g, checked.category, checked.quantity, checked.price);
      assert goods[k..][0] == g;
      LoadGoodsStep(s.db.catalog, supplier, goods[k..], known, pmap, counts, c, p, isNew);
      s.db := s.db.(catalog := c);
      counts := Count(counts, isNew);
      WriteValues(s, p, g.parameters, pmap);
    }
    ph := Going(s.db.catalog, counts);
  }

  /** The checks of one good, in the order the handler makes them. */
  method CheckGoodFields(known: set<int>, g: Good) returns (r: Checked)
    ensures r == CheckGood(known, g)
  {
    if g.category.Absent? {
      return Fails;
    }
    var key := CategoryKey(g.category);
    if key.None? || key.value !in known {
      return Refused(CategoryNotFound(g.id));
    }
    if g.quantity.Absent? {
      return Fails;
    }
    var quantity := ToInt(g.quantity);
    if quantity.None? {
      return Refused(QuantityNotInteger(g.id));
    }
    if quantity.value < 0 {
      return Refused(QuantityNegative(g.id));
    }
    if g.price.MissingPrice? {
      return Fails;
    }
    if g.price.NotNumeric? {
      return Refused(PriceNotNumber(g.id));
    }
    if g.price.cents < 0 {
      return Refused(PriceNegative(g.id));
    }
    r := Accepted(key.value, quantity.value, g.price.cents);
  }

  /** The loop over one good's parameter entries. */
  method WriteValues(s: Store, product: Id, entries: seq<(string, Value)>, pmap: map<string, Id>)
    requires forall e :: e in entries ==> e.0 in pmap
    modifies s
    ensures s.db == old(s.db).(catalog := SetValues(old(s.db.catalog), product, entries, pmap))
  {
    for j := 0 to |entries|
      invariant s.db == old(s.db).(catalog := s.db.catalog)
      invariant SetValues(old(s.db.catalog), product, entries, pmap) == SetValues(s.db.catalog, product, entries[j..], pmap)
    {
      assert entries[j..][1..] == entries[j + 1..];
      var e := entries[j];
      s.db := s.db.(catalog := SetValue(s.db.catalog, product, pmap[e.0], Show(e.1)));
    }
  }

  // -------------------------------------------------------------- toggle

  datatype ToggleResponse = Toggled(acceptsOrders: bool) | ToggleForbidden | StatusMissing | StatusNotBoolean

  /**
   * The toggle handler: `request.data.get("accepts_orders")` must be
   * present and not null, then a boolean, and is stored on the caller's
   * supplier profile and echoed back.
   */
  function Toggle(db: DB, user: Id, v: Value): (r: Step<ToggleResponse>)
    ensures r.response == ToggleForbidden <==> SupplierOf(db.accounts, user).None?
    ensures r.response == StatusMissing <==> SupplierOf(db.accounts, user).Some? && IsNone(v)
    ensures r.response == StatusNotBoolean <==> SupplierOf(db.accounts, user).Some? && !IsNone(v) && !v.Bool?
    ensures !r.response.Toggled? ==> r.db == db
    ensures r.response.Toggled? ==>
      var s := SupplierOf(db.accounts, user).value;
      && v == Bool(r.response.acceptsOrders)
      && r.db == db.(accounts := r.db.accounts)
      && r.db.accounts == db.accounts.(suppliers := r.db.accounts.suppliers)
      && r.db.accounts.suppliers.Keys == db.accounts.suppliers.Keys
      && r.db.accounts.suppliers[s] == db.accounts.suppliers[s].(acceptsOrders := r.response.acceptsOrders)
      && forall t :: t in db.accounts.suppliers && t != s ==> r.db.accounts.suppliers[t] == db.accounts.suppliers[t]
  {
    match SupplierOf(db.accounts, user)
    case None => Step(db, ToggleForbidden)
    case Some(s) =>
      if IsNone(v) then Step(db, StatusMissing)
      else if !v.Bool? then Step(db, StatusNotBoolean)
      else
        var a := db.accounts;
        Step(db.(accounts := a.(suppliers := a.suppliers[s := a.suppliers[s].(acceptsOrders := v.b)])), Toggled(v.b))
  }

  method ToggleView(s: Store, user: Id, v: Value) returns (r: ToggleResponse)
    modifies s
    ensures Step(s.db, r) == Toggle(old(s.db), user, v)
  {
    var supplier := SupplierOf(s.db.accounts, user);
    if supplier.None? {
      return ToggleForbidden;
    }
    if IsNone(v) {
      return StatusMissing;
    }
    if !v.Bool? {
      return StatusNotBoolean;
    }
    var row := s.db.accounts.suppliers[supplier.value];
    s.db := s.db.(accounts := s.db.accounts.(suppliers := s.db.accounts.suppliers[supplier.value := row.(acceptsOrders := v.b)]));
    r := Toggled(s.db.accounts.suppliers[supplier.value].acceptsOrders);
  }

  // ------------------------------------------------------ supplier orders

  datatype OrdersResponse = SupplierOrderList(orders: seq<Id>) | OrdersForbidden

  /** Whether order `o` has a line of a product of supplier `s`. */
  predicate Supplies(db: DB, s: Id, o: Id) {
    exists i :: i in db.sales.orderItems && db.sales.orderItems[i].order == o
      && db.sales.orderItems[i].product in db.catalog.products
      && db.catalog.products[db.sales.orderItems[i].product].supplier == s
  }

  /**
   * `Order.objects.filter(items__product__supplier=s).distinct()`: each
   * order holding a line of one of the caller's products, once, in key order.
   */
  function SupplierOrders(db: DB, user: Id): (r: OrdersResponse)
    ensures r.OrdersForbidden? <==> SupplierOf(db.accounts, user).None?
    ensures r.SupplierOrderList? ==> Increasing(r.orders)
    ensures r.SupplierOrderList? && Bounded(db.sales.orders, db.sales.nextOrder) ==>
      forall o :: o in r.orders <==> o in db.sales.orders && Supplies(db, SupplierOf(db.accounts, user).value, o)
  {
    match SupplierOf(db.accounts, user)
    case None => OrdersForbidden
    case Some(s) => SupplierOrderList(Select(db.sales.nextOrder, o => o in db.sales.orders && Supplies(db, s, o)))
  }
}
