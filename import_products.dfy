/**
 * The offline price-list import command.  It get-or-creates the shop's
 * user and supplier profile, then, with no transaction, get-or-creates the
 * categories by id and the parameters by name, upserts the goods (an
 * existing product only gets its price and quantity replaced) and
 * get-or-creates their parameter values, never overwriting one.  An
 * exception ends the command and every write made before it stays.
 */
module ImportProducts {
  import opened Wrappers
  import opened Values
  import opened Tables
  import opened Models
  import opened Database
  import opened CatalogOps

  /** One category of the price list: an explicit key and a name. */
  datatype ImportCategory = ImportCategory(id: int, name: string)

  /** One good of the price list; `price` is in cents and `id` is the shop's external id. */
  datatype ImportGood = ImportGood(id: string, name: string, category: int, price: int, quantity: int,
                                   parameters: seq<(string, Value)>)

  /** The price-list data the command reads. */
  datatype PriceList = PriceList(shop: string, categories: seq<ImportCategory>, goods: seq<ImportGood>)

  /** The command finishes, or an exception (a KeyError or an IntegrityError) ends it. */
  datatype ImportOutcome = Imported | ImportCrashed

  /** How far one loop got: through, with its accumulator, or stopped by an exception. */
  datatype Run<T> = Finished(catalog: Catalog, acc: T) | Stopped(catalog: Catalog)

  // ------------------------------------------------------------ accounts

  /** The capitals `str.lower()` is modelled on: Latin A-Z, Cyrillic А-Я and Ё. */
  predicate Capital(ch: char) {
    'A' <= ch <= 'Z' || '\U{0410}' <= ch <= '\U{042F}' || ch == '\U{0401}'
  }

  /** The small letters of the same alphabets: Latin a-z, Cyrillic а-я and ё. */
  predicate Small(ch: char) {
    'a' <= ch <= 'z' || '\U{0430}' <= ch <= '\U{044F}' || ch == '\U{0451}'
  }

  /**
   * `str.lower()` on one character: a capital becomes a small letter,
   * every other character stays as it is.
   */
  function LowerChar(ch: char): (r: char)
    ensures !Capital(r)
    ensures Capital(ch) ==> Small(r)
    ensures !Capital(ch) ==> r == ch
    ensures 'A' <= ch <= 'Z' || '\U{0410}' <= ch <= '\U{042F}' ==> r as int == ch as int + 32
    ensures ch == '\U{0401}' ==> r == '\U{0451}'
  {
    if 'A' <= ch <= 'Z' || '\U{0410}' <= ch <= '\U{042F}' then (ch as int + 32) as char
    else if ch == '\U{0401}' then '\U{0451}'
    else ch
  }

  /** Two capitals never lower to the same letter. */
  lemma LowerCharInjective(a: char, b: char)
    requires Capital(a) && Capital(b) && a != b
    ensures LowerChar(a) != LowerChar(b)
  {
  }

  /**
   * `str.lower()` on a string: the same length, no capital left, and
   * every character that is not a capital kept in place.
   */
  function Lower(s: string): (r: string)
    ensures |r| == |s|
    ensures forall i :: 0 <= i < |r| ==> !Capital(r[i])
    ensures forall i :: 0 <= i < |s| && !Capital(s[i]) ==> r[i] == s[i]
    ensures forall i :: 0 <= i < |s| && Capital(s[i]) ==> Small(r[i])
  {
    seq(|s|, i requires 0 <= i < |s| => LowerChar(s[i]))
  }

  /** Lowering twice is lowering once. */
  lemma LowerIdempotent(s: string)
    ensures Lower(Lower(s)) == Lower(s)
  {
    var t := Lower(s);
    assert |Lower(t)| == |t|;
    forall i | 0 <= i < |t| ensures Lower(t)[i] == t[i] {
      assert !Capital(t[i]);
    }
  }

  /** The email a new shop user gets. */
  function ShopEmail(shop: string): string {
    Lower(shop) + "@example.com"
  }

  /** `User.objects.get(username=...)`: usernames are unique. */
  function FindUser(a: Accounts, username: string): (r: Option<Id>)
    ensures r.Some? ==> r.value in a.users && a.users[r.value].username == username
    ensures r.None? && Bounded(a.users, a.nextUser) ==> forall u :: u in a.users ==> a.users[u].username != username
  {
    var named := (u: Id) => u in a.users && a.users[u].username == username;
    var r := Find(a.nextUser, named);
    assert r.None? && Bounded(a.users, a.nextUser) ==> forall u :: u in a.users ==> a.users[u].username != username by {
      if r.None? && Bounded(a.users, a.nextUser) {
        forall u | u in a.users ensures a.users[u].username != username {
          assert u < a.nextUser && !named(u);
        }
      }
    }
    r
  }

  predicate EmailTaken(users: map<Id, User>, email: string) {
    exists u :: u in users && users[u].email == email
  }

  /**
   * `User.objects.get_or_create(username=shop, defaults=...)`: the user of
   * that name, or a new supplier-type user with the shop's email; None is
   * the IntegrityError of an email another user already has.
   */
  function GetOrCreateUser(a: Accounts, shop: string): Option<(Accounts, Id)> {
    match FindUser(a, shop)
    case Some(u) => Some((a, u))
    case None =>
      if EmailTaken(a.users, ShopEmail(shop)) then None
      else
        var u := User(shop, ShopEmail(shop), SupplierUser);
        Some((a.(users := a.users[a.nextUser := u], nextUser := a.nextUser + 1), a.nextUser))
  }

  /** `Supplier.objects.filter(name=...)`: supplier names are not unique. */
  function SuppliersNamed(a: Accounts, name: string): (r: seq<Id>)
    ensures forall i :: i in r ==> i in a.suppliers && a.suppliers[i].name == name
    ensures Bounded(a.suppliers, a.nextSupplier) ==>
      forall i :: i in a.suppliers && a.suppliers[i].name == name ==> i in r
  {
    Select(a.nextSupplier, s => s in a.suppliers && a.suppliers[s].name == name)
  }

  /**
   * `Supplier.objects.get_or_create(name=shop, defaults={"user": user, ...})`:
   * the one profile of that name, or a new profile of `user` accepting
   * orders.  None is an exception: several profiles of that name, or a
   * new profile for a user who already has one.
   */
  function GetOrCreateSupplier(a: Accounts, shop: string, user: Id): Option<(Accounts, Id)> {
    var named := SuppliersNamed(a, shop);
    if |named| > 1 then None
    else if |named| == 1 then Some((a, named[0]))
    else if SupplierOf(a, user).Some? then None
    else
      var s := Supplier(user, shop, true);
      Some((a.(suppliers := a.suppliers[a.nextSupplier := s], nextSupplier := a.nextSupplier + 1), a.nextSupplier))
  }

  // ---------------------------------------------------------- categories

  /**
   * The category loop: `get_or_create(id=..., defaults={"name": ...})` of
   * each category, recording its id; a name clash raises.
   */
  function ImportCategories(c: Catalog, cats: seq<ImportCategory>, known: set<int>): (r: Run<set<int>>)
    ensures r.catalog == c.(categories := r.catalog.categories)
    decreases |cats|
  {
    if cats == [] then Finished(c, known)
    else match GetOrCreateCategory(c.categories, cats[0].id, cats[0].name)
      case None => Stopped(c)
      case Some(m) => ImportCategories(c.(categories := m), cats[1..], known + {cats[0].id})
  }

  // ---------------------------------------------------------- parameters

  /** Every parameter name of every good has an entry in `pmap`. */
  ghost predicate Covered(goods: seq<ImportGood>, pmap: map<string, Id>) {
    forall g, e :: g in goods && e in g.parameters ==> e.0 in pmap
  }

  /** The parameter loop: `get_or_create(name=...)` of every parameter name of every good, in order. */
  function ImportParameters(c: Catalog, goods: seq<ImportGood>, pmap: map<string, Id>): (r: (Catalog, map<string, Id>))
    requires Bounded(c.parameters, c.nextParameter)
    ensures Bounded(r.0.parameters, r.0.nextParameter)
    ensures r.0 == c.(parameters := r.0.parameters, nextParameter := r.0.nextParameter)
    decreases |goods|
  {
    if goods == [] then (c, pmap)
    else
      var (c1, p1) := LoadNames(c, Names(goods[0].parameters), pmap);
      ImportParameters(c1, goods[1..], p1)
  }

  /** After the parameter loop every parameter name of every good has an entry. */
  lemma {:induction false} ImportParametersCovers(c: Catalog, goods: seq<ImportGood>, pmap: map<string, Id>)
    requires Bounded(c.parameters, c.nextParameter)
    ensures Covered(goods, ImportParameters(c, goods, pmap).1)
    ensures pmap.Keys <= ImportParameters(c, goods, pmap).1.Keys
    decreases |goods|
  {
    if goods != [] {
      var names := Names(goods[0].parameters);
      var (c1, p1) := LoadNames(c, names, pmap);
      ImportParametersCovers(c1, goods[1..], p1);
      var pmap' := ImportParameters(c1, goods[1..], p1).1;
      forall e | e in goods[0].parameters ensures e.0 in p1 {
        var t :| 0 <= t < |goods[0].parameters| && goods[0].parameters[t] == e;
        assert names[t] == e.0;
      }
      forall g, e | g in goods && e in g.parameters ensures e.0 in pmap' {
        if g != goods[0] {
          assert g in goods[1..];
        }
      }
    }
  }

  // --------------------------------------------------------------- goods

  /**
   * `Product.objects.get_or_create(external_id=..., supplier=..., defaults=...)`
   * after `category_map[good["category"]]`: None is the KeyError of an
   * unknown category, or the IntegrityError of a negative quantity in the
   * positive-integer column.  An existing product gets only its price and
   * quantity replaced.
   */
  function ImportProduct(c: Catalog, s: Id, g: ImportGood, known: set<int>): Option<(Catalog, Id)> {
    if g.category !in known || g.quantity < 0 then None
    else match FindProduct(c, s, g.id)
      case Some(p) =>
        Some((c.(products := c.products[p := c.products[p].(price := g.price, quantity := g.quantity)]), p))
      case None =>
        Some((InsertProduct(c, Product(g.name, g.category, s, g.price, g.quantity, Some(g.id))), c.nextProduct))
  }

  /** `ProductParameter.objects.get_or_create` of the value `str(v)` of each entry, in order. */
  function KeepValues(c: Catalog, product: Id, entries: seq<(string, Value)>, pmap: map<string, Id>): Catalog
    requires forall e :: e in entries ==> e.0 in pmap
    decreases |entries|
  {
    if entries == [] then c
    else KeepValues(KeepValue(c, product, pmap[entries[0].0], Show(entries[0].1)), product, entries[1..], pmap)
  }

  /** The goods loop: each good's product, then its values; the first exception ends it. */
  function ImportGoods(c: Catalog, s: Id, goods: seq<ImportGood>, known: set<int>, pmap: map<string, Id>): (r: Run<()>)
    requires Covered(goods, pmap)
    decreases |goods|
  {
    if goods == [] then Finished(c, ())
    else
      var g := goods[0];
      match ImportProduct(c, s, g, known)
      case None => Stopped(c)
      case Some((c1, p)) =>
        assert forall e :: e in g.parameters ==> e.0 in pmap;
        ImportGoods(KeepValues(c1, p, g.parameters, pmap), s, goods[1..], known, pmap)
  }

  /** One good that imports: the loop goes on from the state after its writes. */
  lemma ImportGoodsStep(c: Catalog, s: Id, goods: seq<ImportGood>, known: set<int>, pmap: map<string, Id>,
                        c1: Catalog, p: Id)
    requires Covered(goods, pmap) && goods != []
    requires ImportProduct(c, s, goods[0], known) == Some((c1, p))
    ensures forall e :: e in goods[0].parameters ==> e.0 in pmap
    ensures Covered(goods[1..], pmap)
    ensures ImportGoods(c, s, goods, known, pmap)
      == ImportGoods(KeepValues(c1, p, goods[0].parameters, pmap), s, goods[1..], known, pmap)
  {
    assert goods[0] in goods;
    forall g, e | g in goods[1..] && e in g.parameters ensures e.0 in pmap {
      assert g in goods;
    }
  }

  // ------------------------------------------------------------- command

  /** The command: accounts first, then the three loops; an exception keeps every earlier write. */
  function Import(db: DB, data: PriceList): Step<ImportOutcome>
    requires Bounded(db.catalog.parameters, db.catalog.nextParameter)
  {
    match GetOrCreateUser(db.accounts, data.shop)
    case None => Step(db, ImportCrashed)
    case Some((a1, user)) =>
      match GetOrCreateSupplier(a1, data.shop, user)
      case None => Step(db.(accounts := a1), ImportCrashed)
      case Some((a2, s)) =>
        match ImportCategories(db.catalog, data.categories, {})
        case Stopped(c1) => Step(db.(accounts := a2, catalog := c1), ImportCrashed)
        case Finished(c1, known) =>
          var (c2, pmap) := ImportParameters(c1, data.goods, map[]);
          ImportParametersCovers(c1, data.goods, map[]);
          match ImportGoods(c2, s, data.goods, known, pmap)
          case Stopped(c3) => Step(db.(accounts := a2, catalog := c3), ImportCrashed)
          case Finished(c3, _) => Step(db.(accounts := a2, catalog := c3), Imported)
  }

  method Handle(s: Store, data: PriceList) returns (r: ImportOutcome)
    requires Bounded(s.db.catalog.parameters, s.db.catalog.nextParameter)
    modifies s
    ensures Step(s.db, r) == Import(old(s.db), data)
  {
    var user := GetOrCreateUser(s.db.accounts, data.shop);
    if user.None? {
      return ImportCrashed;
    }
    s.db := s.db.(accounts := user.value.0);
    var supplier := GetOrCreateSupplier(s.db.accounts, data.shop, user.value.1);
    if supplier.None? {
      return ImportCrashed;
    }
    s.db := s.db.(accounts := supplier.value.0);
    var categories := CategoryLoop(s, data.categories);
    if categories.Stopped? {
      return ImportCrashed;
    }
    ghost var c1 := s.db.catalog;
    var pmap := ParameterLoop(s, data.goods);
    ImportParametersCovers(c1, data.goods, map[]);
    var goods := GoodsLoop(s, supplier.value.1, data.goods, categories.acc, pmap);
    r := if goods.Finished? then Imported else ImportCrashed;
  }

  method CategoryLoop(s: Store, cats: seq<ImportCategory>) returns (run: Run<set<int>>)
    modifies s
    ensures run == ImportCategories(old(s.db.catalog), cats, {})
    ensures s.db == old(s.db).(catalog := run.catalog)
  {
    var known: set<int> := {};
    for k := 0 to |cats|
      invariant s.db == old(s.db).(catalog := s.db.catalog)
      invariant ImportCategories(old(s.db.catalog), cats, {}) == ImportCategories(s.db.catalog, cats[k..], known)
    {
      assert cats[k..][1..] == cats[k + 1..];
      var m := GetOrCreateCategory(s.db.catalog.categories, cats[k].id, cats[k].name);
      if m.None? {
        return Stopped(s.db.catalog);
      }
      s.db := s.db.(catalog := s.db.catalog.(categories := m.value));
      known := known + {cats[k].id};
    }
    run := Finished(s.db.catalog, known);
  }

  method ParameterLoop(s: Store, goods: seq<ImportGood>) returns (pmap: map<string, Id>)
    requires Bounded(s.db.catalog.parameters, s.db.catalog.nextParameter)
    modifies s
    ensures (s.db.catalog, pmap) == ImportParameters(old(s.db.catalog), goods, map[])
    ensures s.db == old(s.db).(catalog := s.db.catalog)
  {
    pmap := map[];
    for k := 0 to |goods|
      invariant s.db == old(s.db).(catalog := s.db.catalog)
      invariant Bounded(s.db.catalog.parameters, s.db.catalog.nextParameter)
      invariant ImportParameters(old(s.db.catalog), goods, map[]) == ImportParameters(s.db.catalog, goods[k..], pmap)
    {
      assert goods[k..][1..] == goods[k + 1..];
      pmap := LoadNamesInto(s, Names(goods[k].parameters), pmap);
    }
  }

  method GoodsLoop(s: Store, supplier: Id, goods: seq<ImportGood>, known: set<int>, pmap: map<string, Id>)
      returns (run: Run<()>)
    requires Covered(goods, pmap)
    modifies s
    ensures run == ImportGoods(old(s.db.catalog), supplier, goods, known, pmap)
    ensures s.db == old(s.db).(catalog := run.catalog)
  {
    for k := 0 to |goods|
      invariant s.db == old(s.db).(catalog := s.db.catalog)
      invariant Covered(goods[k..], pmap)
      invariant ImportGoods(old(s.db.catalog), supplier, goods, known, pmap)
        == ImportGoods(s.db.catalog, supplier, goods[k..], known, pmap)
    {
      assert goods[k..][1..] == goods[k + 1..];
      var g := goods[k];
      var product := ImportProduct(s.db.catalog, supplier, g, known);
      if product.None? {
        return Stopped(s.db.catalog);
      }
      var (c, p) := product.value;
      assert goods[k..][0] == g;
      ImportGoodsStep(s.db.catalog, supplier, goods[k..], known, pmap, c, p);
      s.db := s.db.(catalog := c);
      WriteValues(s, p, g.parameters, pmap);
    }
    run := Finished(s.db.catalog, ());
  }

  /** The value writes of one product, each a `get_or_create`. */
  method WriteValues(s: Store, product: Id, entries: seq<(string, Value)>, pmap: map<string, Id>)
    requires forall e :: e in entries ==> e.0 in pmap
    modifies s
    ensures s.db == old(s.db).(catalog := KeepValues(old(s.db.catalog), product, entries, pmap))
  {
    for j := 0 to |entries|
      invariant s.db == old(s.db).(catalog := s.db.catalog)
      invariant KeepValues(old(s.db.catalog), product, entries, pmap) == KeepValues(s.db.catalog, product, entries[j..], pmap)
    {
      assert entries[j..][1..] == entries[j + 1..];
      var e := entries[j];
      s.db := s.db.(catalog := KeepValue(s.db.catalog, product, pmap[e.0], Show(e.1)));
    }
  }
}
