/**
 * Properties of the import command: existing users, profiles,
 * categories, products and parameter values are kept; one parameter row
 * per name; an existing product only gets a new price and quantity; the
 * first good that raises ends the command with every earlier write kept;
 * and the database constraints survive.
 */
module ImportProps {
  import opened Wrappers
  import opened Values
  import opened Tables
  import opened Models
  import opened Database
  import opened CatalogOps
  import opened ImportProducts

  // ------------------------------------------------------------ accounts

  /**
   * The shop's user: an existing user of that name is taken with nothing
   * written; otherwise a supplier-type user with the shop's lower-cased
   * email is added, unless another user has that email.
   */
  lemma GetOrCreateUserSpec(a: Accounts, shop: string)
    requires Bounded(a.users, a.nextUser) && UniqueUsernames(a.users)
    ensures var r := GetOrCreateUser(a, shop);
      r.Some? ==> r.value.1 in r.value.0.users && r.value.0.users[r.value.1].username == shop
    ensures forall u :: u in a.users && a.users[u].username == shop ==> GetOrCreateUser(a, shop) == Some((a, u))
    ensures var r := GetOrCreateUser(a, shop);
      (forall u :: u in a.users ==> a.users[u].username != shop) ==>
        && (r.None? <==> EmailTaken(a.users, ShopEmail(shop)))
        && (r.Some? ==>
              && r.value.1 !in a.users
              && r.value.0.users == a.users[r.value.1 := User(shop, ShopEmail(shop), SupplierUser)]
              && r.value.0 == a.(users := r.value.0.users, nextUser := r.value.0.nextUser))
  {
    if u :| u in a.users && a.users[u].username == shop {
      assert FindUser(a, shop) == Some(u);
    }
  }

  /** Getting or creating the shop's user keeps the account constraints. */
  lemma GetOrCreateUserKeepsValid(a: Accounts, shop: string)
    requires AccountsValid(a)
    ensures var r := GetOrCreateUser(a, shop);
      r.Some? ==> AccountsValid(r.value.0) && r.value.0.users.Keys >= a.users.Keys && r.value.0.suppliers == a.suppliers
  {
    if FindUser(a, shop).None? && !EmailTaken(a.users, ShopEmail(shop)) {
      var a' := GetOrCreateUser(a, shop).value.0;
      assert UniqueEmails(a'.users);
      assert UniqueUsernames(a'.users);
    }
  }

  /**
   * The shop's supplier profile: the one profile of that name is taken
   * with nothing written, even when it belongs to another user; with no
   * profile of that name a new one for the user, accepting orders, is
   * added unless the user already has one; several of that name raise.
   */
  lemma GetOrCreateSupplierSpec(a: Accounts, shop: string, user: Id)
    requires Bounded(a.suppliers, a.nextSupplier)
    ensures var r := GetOrCreateSupplier(a, shop, user);
      r.Some? ==> r.value.1 in r.value.0.suppliers && r.value.0.suppliers[r.value.1].name == shop
    ensures forall i :: (i in a.suppliers && a.suppliers[i].name == shop
                         && forall j :: j in a.suppliers && a.suppliers[j].name == shop ==> j == i) ==>
      GetOrCreateSupplier(a, shop, user) == Some((a, i))
    ensures forall i, j :: (i in a.suppliers && j in a.suppliers && i != j
                            && a.suppliers[i].name == shop && a.suppliers[j].name == shop) ==>
      GetOrCreateSupplier(a, shop, user).None?
    ensures var r := GetOrCreateSupplier(a, shop, user);
      (forall i :: i in a.suppliers ==> a.suppliers[i].name != shop) ==>
        && (r.None? <==> exists t :: t in a.suppliers && a.suppliers[t].user == user)
        && (r.Some? ==>
              && r.value.1 !in a.suppliers
              && r.value.0.suppliers == a.suppliers[r.value.1 := Supplier(user, shop, true)]
              && r.value.0 == a.(suppliers := r.value.0.suppliers, nextSupplier := r.value.0.nextSupplier))
  {
    var named := SuppliersNamed(a, shop);
    forall i | (i in a.suppliers && a.suppliers[i].name == shop
                && forall j :: j in a.suppliers && a.suppliers[j].name == shop ==> j == i)
      ensures GetOrCreateSupplier(a, shop, user) == Some((a, i))
    {
      assert i in named;
      IncreasingSingle(named, i);
    }
    forall i, j | (i in a.suppliers && j in a.suppliers && i != j
                   && a.suppliers[i].name == shop && a.suppliers[j].name == shop)
      ensures GetOrCreateSupplier(a, shop, user).None?
    {
      assert i in named && j in named;
      TwoMembers(named, i, j);
    }
    if forall i :: i in a.suppliers ==> a.suppliers[i].name != shop {
      FirstMember(named);
      if t :| t in a.suppliers && a.suppliers[t].user == user {
        assert SupplierOf(a, user).Some?;
      }
    }
  }

  /** Getting or creating the shop's supplier profile for an existing user keeps the account constraints. */
  lemma GetOrCreateSupplierKeepsValid(a: Accounts, shop: string, user: Id)
    requires AccountsValid(a) && user in a.users
    ensures var r := GetOrCreateSupplier(a, shop, user);
      r.Some? ==> AccountsValid(r.value.0) && r.value.0.suppliers.Keys >= a.suppliers.Keys && r.value.0.users == a.users
  {
    var named := SuppliersNamed(a, shop);
    if |named| == 0 && SupplierOf(a, user).None? {
      var a' := GetOrCreateSupplier(a, shop, user).value.0;
      assert forall t :: t in a.suppliers ==> a.suppliers[t].user != user;
      assert OneProfilePerUser(a'.suppliers);
    }
  }

  lemma TwoMembers(s: seq<Id>, i: Id, j: Id)
    requires i in s && j in s && i != j
    ensures |s| > 1
  {
  }

  lemma FirstMember(s: seq<Id>)
    ensures s != [] ==> s[0] in s
  {
  }

  // ---------------------------------------------------------- categories

  /** The ids of the price list's categories. */
  function CategoryIds(cats: seq<ImportCategory>): set<int> {
    set e | e in cats :: e.id
  }

  lemma CategoryIdsSplit(cats: seq<ImportCategory>)
    requires cats != []
    ensures CategoryIds(cats) == CategoryIds(cats[1..]) + {cats[0].id}
  {
    var ids := CategoryIds(cats);
    forall k | k in ids ensures k in CategoryIds(cats[1..]) + {cats[0].id} {
      var e' :| e' in cats && e'.id == k;
      if e' != cats[0] {
        assert e' in cats[1..];
      }
    }
  }

  /**
   * The category loop keeps every existing category as it was (its name
   * is never updated), keeps names unique, and adds each category under
   * its own id and name.
   */
  lemma {:induction false} ImportCategoriesKeeps(c: Catalog, cats: seq<ImportCategory>, known: set<int>)
    requires UniqueCategoryNames(c.categories)
    ensures var r := ImportCategories(c, cats, known);
      && UniqueCategoryNames(r.catalog.categories)
      && c.categories.Keys <= r.catalog.categories.Keys <= c.categories.Keys + CategoryIds(cats)
      && (forall k :: k in c.categories ==> r.catalog.categories[k] == c.categories[k])
      && (forall k :: k in r.catalog.categories && k !in c.categories ==>
            exists e :: e in cats && e.id == k && r.catalog.categories[k].name == e.name)
    decreases |cats|
  {
    if cats != [] {
      var e := cats[0];
      assert e in cats;
      CategoryIdsSplit(cats);
      var m := GetOrCreateCategory(c.categories, e.id, e.name);
      if m.Some? {
        CategoryKeepsNamesUnique(c.categories, e.id, e.name);
        var c1 := c.(categories := m.value);
        ImportCategoriesKeeps(c1, cats[1..], known + {e.id});
        var r := ImportCategories(c1, cats[1..], known + {e.id});
        forall k | k in r.catalog.categories && k !in c.categories
          ensures exists e' :: e' in cats && e'.id == k && r.catalog.categories[k].name == e'.name
        {
          if k in c1.categories {
            assert k == e.id && r.catalog.categories[k] == Category(e.name);
          } else {
            var e' :| e' in cats[1..] && e'.id == k && r.catalog.categories[k].name == e'.name;
            assert e' in cats;
          }
        }
      }
    }
  }

  /**
   * The category loop records every id of the price list when it gets
   * through; it stops only at a category whose id is new and whose name
   * another category already has.
   */
  lemma {:induction false} ImportCategoriesOutcome(c: Catalog, cats: seq<ImportCategory>, known: set<int>)
    ensures var r := ImportCategories(c, cats, known);
      r.Finished? ==> r.acc == known + CategoryIds(cats) && r.catalog.categories.Keys == c.categories.Keys + CategoryIds(cats)
    ensures var r := ImportCategories(c, cats, known);
      r.Stopped? ==> exists e :: e in cats && e.id !in r.catalog.categories && NameTaken(r.catalog.categories, e.name)
    decreases |cats|
  {
    if cats != [] {
      var e := cats[0];
      assert e in cats;
      CategoryIdsSplit(cats);
      var m := GetOrCreateCategory(c.categories, e.id, e.name);
      if m.Some? {
        var c1 := c.(categories := m.value);
        ImportCategoriesOutcome(c1, cats[1..], known + {e.id});
        var r := ImportCategories(c1, cats[1..], known + {e.id});
        if r.Stopped? {
          var e' :| e' in cats[1..] && e'.id !in r.catalog.categories && NameTaken(r.catalog.categories, e'.name);
          assert e' in cats;
        }
      }
    }
  }

  // ---------------------------------------------------------- parameters

  /** The parameter loop keeps the catalog valid. */
  lemma {:induction false} ImportParametersKeepsValid(c: Catalog, goods: seq<ImportGood>, pmap: map<string, Id>,
                                                     suppliers: set<Id>)
    requires CatalogValid(c, suppliers)
    ensures CatalogValid(ImportParameters(c, goods, pmap).0, suppliers)
    decreases |goods|
  {
    if goods != [] {
      LoadNamesKeepsValid(c, Names(goods[0].parameters), pmap, suppliers);
      var (c1, p1) := LoadNames(c, Names(goods[0].parameters), pmap);
      ImportParametersKeepsValid(c1, goods[1..], p1, suppliers);
    }
  }

  /** After the parameter loop every recorded name maps to the row of that name. */
  lemma {:induction false} ImportParametersRows(c: Catalog, goods: seq<ImportGood>, pmap: map<string, Id>)
    requires Bounded(c.parameters, c.nextParameter) && Rows(c, pmap)
    ensures Rows(ImportParameters(c, goods, pmap).0, ImportParameters(c, goods, pmap).1)
    decreases |goods|
  {
    if goods != [] {
      var (c1, p1) := LoadNames(c, Names(goods[0].parameters), pmap);
      LoadNamesRows(c, Names(goods[0].parameters), pmap);
      ImportParametersRows(c1, goods[1..], p1);
    }
  }

  /**
   * After the parameter loop there is exactly one parameter row for each
   * parameter name of each good, and it is the one the loop recorded.
   */
  lemma OneParameterPerName(c: Catalog, goods: seq<ImportGood>, suppliers: set<Id>)
    requires CatalogValid(c, suppliers)
    ensures var (c', pmap) := ImportParameters(c, goods, map[]);
      forall g, e :: g in goods && e in g.parameters ==>
        && e.0 in pmap && pmap[e.0] in c'.parameters && c'.parameters[pmap[e.0]].name == e.0
        && forall i :: i in c'.parameters && c'.parameters[i].name == e.0 ==> i == pmap[e.0]
  {
    ImportParametersCovers(c, goods, map[]);
    ImportParametersRows(c, goods, map[]);
    ImportParametersKeepsValid(c, goods, map[], suppliers);
  }

  // ------------------------------------------------------------ products

  /** Whether the command gets through a good's product write: its category is known and its quantity is not negative. */
  predicate Importable(g: ImportGood, known: set<int>) {
    g.category in known && g.quantity >= 0
  }

  /**
   * The product write of one good: it raises exactly when the category is
   * unknown or the quantity negative.  An existing product listed under
   * the good's external id for the supplier gets only the new price and
   * quantity, keeping its name and category; otherwise a new product takes
   * every field of the good.  Every other product is as it was.
   */
  lemma ImportProductSpec(c: Catalog, s: Id, g: ImportGood, known: set<int>)
    requires Bounded(c.products, c.nextProduct) && UniqueExternalIds(c.products)
    ensures ImportProduct(c, s, g, known).None? <==> !Importable(g, known)
    ensures forall i :: i in c.products && Listed(c.products[i], s, g.id) && Importable(g, known) ==>
      var r := ImportProduct(c, s, g, known).value;
      && r.1 == i
      && r.0.products == c.products[i := c.products[i].(price := g.price, quantity := g.quantity)]
    ensures var r := ImportProduct(c, s, g, known);
      (r.Some? && forall i :: i in c.products ==> !Listed(c.products[i], s, g.id)) ==>
        && r.value.1 !in c.products
        && r.value.0.products == c.products[r.value.1 := Product(g.name, g.category, s, g.price, g.quantity, Some(g.id))]
    ensures var r := ImportProduct(c, s, g, known);
      r.Some? ==> r.value.0 == c.(products := r.value.0.products, nextProduct := r.value.0.nextProduct)
  {
    forall i | i in c.products && Listed(c.products[i], s, g.id) && Importable(g, known)
      ensures ImportProduct(c, s, g, known).value.1 == i
    {
      FindProductUnique(c, s, g.id, i);
    }
  }

  /** The product write of one good keeps the catalog valid. */
  lemma ImportProductKeepsValid(c: Catalog, s: Id, g: ImportGood, known: set<int>, suppliers: set<Id>)
    requires CatalogValid(c, suppliers) && s in suppliers && known <= c.categories.Keys
    ensures var r := ImportProduct(c, s, g, known);
      r.Some? ==> CatalogValid(r.value.0, suppliers)
  {
    if Importable(g, known) {
      match FindProduct(c, s, g.id)
      case Some(p) =>
        var old_ := c.products[p];
        ProductUpdateKeepsValid(c, p, old_.name, old_.category, g.price, g.quantity, suppliers);
        assert c.products[p].(price := g.price, quantity := g.quantity)
          == old_.(name := old_.name, category := old_.category, price := g.price, quantity := g.quantity);
      case None =>
        var c' := ImportProduct(c, s, g, known).value.0;
        assert c'.products[c.nextProduct] == Product(g.name, g.category, s, g.price, g.quantity, Some(g.id));
        ProductWriteKeepsValid(c, c', s, g.id, suppliers);
    }
  }

  /** The product write of one good drops no product, keeps who lists each one and writes no value. */
  lemma ImportProductKeepsRows(c: Catalog, s: Id, g: ImportGood, known: set<int>)
    requires Bounded(c.products, c.nextProduct)
    ensures var r := ImportProduct(c, s, g, known);
      r.Some? ==> r.value.1 in r.value.0.products && SameRows(c, r.value.0)
  {
    if Importable(g, known) {
      var c' := ImportProduct(c, s, g, known).value.0;
      assert c'.productParameters == c.productParameters;
      assert forall i :: i in c.products ==>
        i in c'.products && c'.products[i].supplier == c.products[i].supplier
        && c'.products[i].externalId == c.products[i].externalId;
    }
  }

  // -------------------------------------------------------------- values

  /** No product disappears or changes who lists it, and no value row disappears or changes. */
  ghost predicate SameRows(c: Catalog, c': Catalog) {
    && (forall i :: i in c.products ==>
          i in c'.products && c'.products[i].supplier == c.products[i].supplier
          && c'.products[i].externalId == c.products[i].externalId)
    && (forall x :: x in c.productParameters ==>
          x in c'.productParameters && c'.productParameters[x] == c.productParameters[x])
  }

  /**
   * `get_or_create` of the values never overwrites: every value row is
   * kept as it was, and afterwards every entry's parameter has a row for
   * the product.
   */
  lemma {:induction false} KeepValuesKeeps(c: Catalog, product: Id, entries: seq<(string, Value)>, pmap: map<string, Id>)
    requires forall e :: e in entries ==> e.0 in pmap
    requires Bounded(c.productParameters, c.nextProductParameter) && UniqueProductParameters(c.productParameters)
    ensures var c' := KeepValues(c, product, entries, pmap);
      && Bounded(c'.productParameters, c'.nextProductParameter)
      && UniqueProductParameters(c'.productParameters)
      && c' == c.(productParameters := c'.productParameters, nextProductParameter := c'.nextProductParameter)
      && (forall x :: x in c.productParameters ==> x in c'.productParameters && c'.productParameters[x] == c.productParameters[x])
      && (forall e :: e in entries ==> exists x :: (x in c'.productParameters
            && c'.productParameters[x].product == product && c'.productParameters[x].parameter == pmap[e.0]))
    decreases |entries|
  {
    if entries != [] {
      var e := entries[0];
      assert e in entries;
      KeepValueKeeps(c, product, pmap[e.0], Show(e.1));
      var c1 := KeepValue(c, product, pmap[e.0], Show(e.1));
      forall e' | e' in entries[1..] ensures e'.0 in pmap {
        assert e' in entries;
      }
      KeepValuesKeeps(c1, product, entries[1..], pmap);
      var c' := KeepValues(c1, product, entries[1..], pmap);
      assert exists x :: (x in c1.productParameters
        && c1.productParameters[x].product == product && c1.productParameters[x].parameter == pmap[e.0]);
      forall e' | e' in entries ensures exists x :: (x in c'.productParameters
        && c'.productParameters[x].product == product && c'.productParameters[x].parameter == pmap[e'.0])
      {
        if e' == e {
          var x :| x in c1.productParameters
            && c1.productParameters[x].product == product && c1.productParameters[x].parameter == pmap[e.0];
          assert x in c'.productParameters && c'.productParameters[x] == c1.productParameters[x];
        } else {
          assert e' in entries[1..];
        }
      }
    }
  }

  /** The value `str(v)` of the first entry whose name maps to `parameter`, if any does. */
  function FirstValue(entries: seq<(string, Value)>, pmap: map<string, Id>, parameter: Id): Option<string>
    requires forall e :: e in entries ==> e.0 in pmap
    decreases |entries|
  {
    if entries == [] then None
    else if pmap[entries[0].0] == parameter then Some(Show(entries[0].1))
    else FirstValue(entries[1..], pmap, parameter)
  }

  /**
   * A value row the loop inserts is for the product and holds `str(v)` of
   * the first entry naming its parameter: later entries naming the same
   * parameter find that row and leave it as it is.
   */
  lemma {:induction false} KeepValuesFills(c: Catalog, product: Id, entries: seq<(string, Value)>, pmap: map<string, Id>)
    requires forall e :: e in entries ==> e.0 in pmap
    requires Bounded(c.productParameters, c.nextProductParameter) && UniqueProductParameters(c.productParameters)
    ensures var c' := KeepValues(c, product, entries, pmap);
      forall x :: x in c'.productParameters && x !in c.productParameters ==>
        && c'.productParameters[x].product == product
        && FirstValue(entries, pmap, c'.productParameters[x].parameter) == Some(c'.productParameters[x].value)
    decreases |entries|
  {
    if entries != [] {
      var e := entries[0];
      assert e in entries;
      var q := pmap[e.0];
      KeepValueKeeps(c, product, q, Show(e.1));
      KeepValueRow(c, product, q, Show(e.1));
      var c1 := KeepValue(c, product, q, Show(e.1));
      forall e' | e' in entries[1..] ensures e'.0 in pmap {
        assert e' in entries;
      }
      KeepValuesKeeps(c1, product, entries[1..], pmap);
      KeepValuesFills(c1, product, entries[1..], pmap);
      var c' := KeepValues(c1, product, entries[1..], pmap);
      var y :| y in c1.productParameters && c1.productParameters[y].product == product
        && c1.productParameters[y].parameter == q;
      forall x | x in c'.productParameters && x !in c.productParameters
        ensures c'.productParameters[x].product == product
        ensures FirstValue(entries, pmap, c'.productParameters[x].parameter) == Some(c'.productParameters[x].value)
      {
        if x in c1.productParameters {
          assert c'.productParameters[x] == c1.productParameters[x] == ProductParameter(product, q, Show(e.1));
        } else {
          assert c'.productParameters[y] == c1.productParameters[y];
          assert c'.productParameters[x].parameter != q;
        }
      }
    }
  }

  /** One keeping value write inserts at most the row it was given, and leaves a row for the pair. */
  lemma KeepValueRow(c: Catalog, product: Id, parameter: Id, value: string)
    ensures var c1 := KeepValue(c, product, parameter, value);
      && (forall x :: x in c1.productParameters && x !in c.productParameters ==>
            c1.productParameters[x] == ProductParameter(product, parameter, value))
      && (exists y :: y in c1.productParameters && c1.productParameters[y].product == product
            && c1.productParameters[y].parameter == parameter)
  {
    match FindValue(c, product, parameter)
    case Some(z) =>
      assert z in KeepValue(c, product, parameter, value).productParameters;
    case None =>
      assert c.nextProductParameter in KeepValue(c, product, parameter, value).productParameters;
  }

  /** Writing values for an existing product and existing parameters keeps the catalog valid. */
  lemma {:induction false} KeepValuesKeepsValid(c: Catalog, product: Id, entries: seq<(string, Value)>, pmap: map<string, Id>,
                                               suppliers: set<Id>)
    requires forall e :: e in entries ==> e.0 in pmap && pmap[e.0] in c.parameters
    requires CatalogValid(c, suppliers) && product in c.products
    ensures CatalogValid(KeepValues(c, product, entries, pmap), suppliers)
    decreases |entries|
  {
    if entries != [] {
      var e := entries[0];
      assert e in entries;
      KeepValueKeepsValid(c, product, pmap[e.0], Show(e.1), suppliers);
      KeepValueKeeps(c, product, pmap[e.0], Show(e.1));
      var c1 := KeepValue(c, product, pmap[e.0], Show(e.1));
      forall e' | e' in entries[1..] ensures e'.0 in pmap && pmap[e'.0] in c1.parameters {
        assert e' in entries;
      }
      KeepValuesKeepsValid(c1, product, entries[1..], pmap, suppliers);
    }
  }

  // --------------------------------------------------------------- goods

  /** What the goods loop needs of its catalog. */
  ghost predicate ImportReady(c: Catalog, s: Id, known: set<int>, pmap: map<string, Id>, suppliers: set<Id>) {
    && CatalogValid(c, suppliers)
    && s in suppliers
    && known <= c.categories.Keys
    && (forall n :: n in pmap ==> pmap[n] in c.parameters)
  }

  /** One good that imports keeps the loop ready and every row as it was. */
  lemma GoodKeepsReady(c: Catalog, s: Id, g: ImportGood, known: set<int>, pmap: map<string, Id>, suppliers: set<Id>,
                       c1: Catalog, p: Id)
    requires ImportReady(c, s, known, pmap, suppliers)
    requires ImportProduct(c, s, g, known) == Some((c1, p))
    requires forall e :: e in g.parameters ==> e.0 in pmap
    ensures var c2 := KeepValues(c1, p, g.parameters, pmap);
      && ImportReady(c2, s, known, pmap, suppliers)
      && SameRows(c, c2)
      && c2 == c.(products := c2.products, nextProduct := c2.nextProduct,
                  productParameters := c2.productParameters, nextProductParameter := c2.nextProductParameter)
  {
    ImportProductKeepsValid(c, s, g, known, suppliers);
    ImportProductKeepsRows(c, s, g, known);
    ImportProductSpec(c, s, g, known);
    assert c1.parameters == c.parameters && c1.categories == c.categories;
    assert forall e :: e in g.parameters ==> e.0 in pmap && pmap[e.0] in c1.parameters;
    KeepValuesKeepsValid(c1, p, g.parameters, pmap, suppliers);
    KeepValuesKeeps(c1, p, g.parameters, pmap);
    var c2 := KeepValues(c1, p, g.parameters, pmap);
    assert c2.products == c1.products && c2.parameters == c.parameters && c2.categories == c.categories;
    assert ImportReady(c2, s, known, pmap, suppliers);
  }

  /**
   * The goods loop keeps the catalog valid, writes only products and
   * values, never drops a product or changes who lists it, and never
   * changes a value row that was there, whether it finishes or raises.
   */
  lemma {:induction false} ImportGoodsKeepsValid(c: Catalog, s: Id, goods: seq<ImportGood>, known: set<int>,
                                                pmap: map<string, Id>, suppliers: set<Id>)
    requires Covered(goods, pmap) && ImportReady(c, s, known, pmap, suppliers)
    ensures var r := ImportGoods(c, s, goods, known, pmap);
      && CatalogValid(r.catalog, suppliers)
      && SameRows(c, r.catalog)
      && r.catalog == c.(products := r.catalog.products, nextProduct := r.catalog.nextProduct,
                         productParameters := r.catalog.productParameters,
                         nextProductParameter := r.catalog.nextProductParameter)
    decreases |goods|
  {
    if goods != [] && ImportProduct(c, s, goods[0], known).Some? {
      var (c1, p) := ImportProduct(c, s, goods[0], known).value;
      ImportGoodsStep(c, s, goods, known, pmap, c1, p);
      GoodKeepsReady(c, s, goods[0], known, pmap, suppliers, c1, p);
      var c2 := KeepValues(c1, p, goods[0].parameters, pmap);
      ImportGoodsKeepsValid(c2, s, goods[1..], known, pmap, suppliers);
    }
  }

  /** After a goods loop that goes through, every good is listed under its external id for the supplier. */
  lemma {:induction false} ImportGoodsLists(c: Catalog, s: Id, goods: seq<ImportGood>, known: set<int>,
                                           pmap: map<string, Id>, suppliers: set<Id>)
    requires Covered(goods, pmap) && ImportReady(c, s, known, pmap, suppliers)
    ensures var r := ImportGoods(c, s, goods, known, pmap);
      r.Finished? ==> forall g :: g in goods ==> exists p :: p in r.catalog.products && Listed(r.catalog.products[p], s, g.id)
    decreases |goods|
  {
    if goods != [] && ImportProduct(c, s, goods[0], known).Some? {
      var (c1, p) := ImportProduct(c, s, goods[0], known).value;
      ImportGoodsStep(c, s, goods, known, pmap, c1, p);
      ImportProductSpec(c, s, goods[0], known);
      assert p in c1.products && Listed(c1.products[p], s, goods[0].id);
      GoodKeepsReady(c, s, goods[0], known, pmap, suppliers, c1, p);
      var c2 := KeepValues(c1, p, goods[0].parameters, pmap);
      KeepValuesKeeps(c1, p, goods[0].parameters, pmap);
      assert c2.products == c1.products;
      ImportGoodsLists(c2, s, goods[1..], known, pmap, suppliers);
      ImportGoodsKeepsValid(c2, s, goods[1..], known, pmap, suppliers);
      var r := ImportGoods(c2, s, goods[1..], known, pmap);
      if r.Finished? {
        forall g | g in goods ensures exists q :: q in r.catalog.products && Listed(r.catalog.products[q], s, g.id) {
          if g == goods[0] {
            assert p in r.catalog.products && Listed(r.catalog.products[p], s, g.id);
          } else {
            assert g in goods[1..];
          }
        }
      }
    }
  }

  /**
   * The import runs no price validator: a good with a negative price that
   * imports is stored with that price, which the product model's validator
   * would refuse.
   */
  lemma ImportStoresNegativePrice(c: Catalog, s: Id, g: ImportGood, known: set<int>)
    requires Importable(g, known) && g.price < 0
    ensures var r := ImportProduct(c, s, g, known);
      && r.Some? && r.value.1 in r.value.0.products
      && r.value.0.products[r.value.1].price == g.price
      && !PricesNonNegative(r.value.0.products)
  {
    var r := ImportProduct(c, s, g, known);
    assert r.value.0.products[r.value.1].price == g.price;
  }

  /** Good `t` is the first whose product write raises. */
  ghost predicate FailsAt(known: set<int>, goods: seq<ImportGood>, t: int) {
    && 0 <= t < |goods|
    && !Importable(goods[t], known)
    && forall j :: 0 <= j < t ==> Importable(goods[j], known)
  }

  /**
   * No transaction: the first good whose category is unknown or whose
   * quantity is negative ends the loop with nothing of its own written and
   * with every write of the goods before it kept.
   */
  lemma {:induction false} ImportGoodsStopsAt(c: Catalog, s: Id, goods: seq<ImportGood>, known: set<int>,
                                             pmap: map<string, Id>, t: int)
    requires Covered(goods, pmap) && FailsAt(known, goods, t)
    ensures Covered(goods[..t], pmap)
    ensures ImportGoods(c, s, goods[..t], known, pmap).Finished?
    ensures ImportGoods(c, s, goods, known, pmap) == Stopped(ImportGoods(c, s, goods[..t], known, pmap).catalog)
    decreases t
  {
    forall g, e | g in goods[..t] && e in g.parameters ensures e.0 in pmap {
      assert g in goods;
    }
    if t > 0 {
      assert Importable(goods[0], known);
      var (c1, p) := ImportProduct(c, s, goods[0], known).value;
      ImportGoodsStep(c, s, goods, known, pmap, c1, p);
      var rest := goods[1..];
      forall j | 0 <= j < t - 1 ensures Importable(rest[j], known) {
        assert rest[j] == goods[j + 1];
      }
      assert rest[t - 1] == goods[t];
      var c2 := KeepValues(c1, p, goods[0].parameters, pmap);
      ImportGoodsStopsAt(c2, s, rest, known, pmap, t - 1);
      assert goods[..t][0] == goods[0] && goods[..t][1..] == rest[..t - 1];
      ImportGoodsStep(c, s, goods[..t], known, pmap, c1, p);
    }
  }

  /** The goods loop finishes exactly when every good is importable. */
  lemma {:induction false} ImportGoodsFinishes(c: Catalog, s: Id, goods: seq<ImportGood>, known: set<int>, pmap: map<string, Id>)
    requires Covered(goods, pmap)
    ensures ImportGoods(c, s, goods, known, pmap).Finished? <==> forall g :: g in goods ==> Importable(g, known)
    decreases |goods|
  {
    if goods != [] {
      assert goods[0] in goods;
      if Importable(goods[0], known) {
        var (c1, p) := ImportProduct(c, s, goods[0], known).value;
        ImportGoodsStep(c, s, goods, known, pmap, c1, p);
        var rest := goods[1..];
        ImportGoodsFinishes(KeepValues(c1, p, goods[0].parameters, pmap), s, rest, known, pmap);
        if forall g :: g in rest ==> Importable(g, known) {
          forall g | g in goods ensures Importable(g, known) {
            if g != goods[0] {
              assert g in rest;
            }
          }
        } else {
          var g :| g in rest && !Importable(g, known);
          assert g in goods;
        }
      }
    }
  }

  // ------------------------------------------------------------- command

  /** Growing the accounts and the catalog keeps the constraints of the other tables. */
  lemma Grow(db: DB, a: Accounts, c: Catalog)
    requires Valid(db) && AccountsValid(a) && CatalogValid(c, a.suppliers.Keys)
    requires db.accounts.users.Keys <= a.users.Keys && db.catalog.products.Keys <= c.products.Keys
    ensures Valid(db.(accounts := a, catalog := c))
  {
    var db' := db.(accounts := a, catalog := c);
    assert SalesValid(db'.sales, a.users.Keys, c.products.Keys);
    assert CartsValid(db'.carts, a.users.Keys, c.products.Keys);
  }

  /** A catalog stays valid when the supplier table only grows. */
  lemma SuppliersGrow(c: Catalog, suppliers: set<Id>, suppliers': set<Id>)
    requires CatalogValid(c, suppliers) && suppliers <= suppliers'
    ensures CatalogValid(c, suppliers')
  {
  }

  /** The accounts after the command's first two steps are valid and only grow. */
  lemma AccountsReady(db: DB, data: PriceList)
    requires Valid(db)
    ensures var r1 := GetOrCreateUser(db.accounts, data.shop);
      r1.Some? ==>
        && AccountsValid(r1.value.0) && r1.value.1 in r1.value.0.users
        && r1.value.0.users.Keys >= db.accounts.users.Keys
        && r1.value.0.suppliers == db.accounts.suppliers
        && var r2 := GetOrCreateSupplier(r1.value.0, data.shop, r1.value.1);
           r2.Some? ==>
             && AccountsValid(r2.value.0) && r2.value.1 in r2.value.0.suppliers
             && r2.value.0.users.Keys >= db.accounts.users.Keys
             && r2.value.0.suppliers.Keys >= db.accounts.suppliers.Keys
  {
    GetOrCreateUserKeepsValid(db.accounts, data.shop);
    GetOrCreateUserSpec(db.accounts, data.shop);
    var r1 := GetOrCreateUser(db.accounts, data.shop);
    if r1.Some? {
      GetOrCreateSupplierKeepsValid(r1.value.0, data.shop, r1.value.1);
      GetOrCreateSupplierSpec(r1.value.0, data.shop, r1.value.1);
    }
  }

  /** The three catalog loops keep the catalog valid, however far they get. */
  lemma LoopsKeepValid(c: Catalog, s: Id, data: PriceList, suppliers: set<Id>)
    requires CatalogValid(c, suppliers) && s in suppliers
    ensures var r := ImportCategories(c, data.categories, {});
      && CatalogValid(r.catalog, suppliers)
      && c.products.Keys <= r.catalog.products.Keys
      && (r.Finished? ==>
            && Bounded(r.catalog.parameters, r.catalog.nextParameter)
            && var (c2, pmap) := ImportParameters(r.catalog, data.goods, map[]);
               && Covered(data.goods, pmap)
               && CatalogValid(ImportGoods(c2, s, data.goods, r.acc, pmap).catalog, suppliers)
               && c.products.Keys <= ImportGoods(c2, s, data.goods, r.acc, pmap).catalog.products.Keys)
  {
    ImportCategoriesKeeps(c, data.categories, {});
    ImportCategoriesOutcome(c, data.categories, {});
    var r := ImportCategories(c, data.categories, {});
    if r.Finished? {
      var (c1, known) := (r.catalog, r.acc);
      var (c2, pmap) := ImportParameters(c1, data.goods, map[]);
      ImportParametersCovers(c1, data.goods, map[]);
      ImportParametersKeepsValid(c1, data.goods, map[], suppliers);
      ImportParametersRows(c1, data.goods, map[]);
      assert ImportReady(c2, s, known, pmap, suppliers);
      ImportGoodsKeepsValid(c2, s, data.goods, known, pmap, suppliers);
    }
  }

  /** The command keeps the database constraints, however far it gets. */
  lemma ImportKeepsValid(db: DB, data: PriceList)
    requires Valid(db)
    ensures Valid(Import(db, data).db)
  {
    AccountsReady(db, data);
    match GetOrCreateUser(db.accounts, data.shop)
    case None =>
    case Some((a1, user)) =>
      Grow(db, a1, db.catalog);
      match GetOrCreateSupplier(a1, data.shop, user)
      case None =>
      case Some((a2, s)) =>
        SuppliersGrow(db.catalog, db.accounts.suppliers.Keys, a2.suppliers.Keys);
        LoopsKeepValid(db.catalog, s, data, a2.suppliers.Keys);
        match ImportCategories(db.catalog, data.categories, {})
        case Stopped(c1) =>
          Grow(db, a2, c1);
        case Finished(c1, known) =>
          var (c2, pmap) := ImportParameters(c1, data.goods, map[]);
          Grow(db, a2, ImportGoods(c2, s, data.goods, known, pmap).catalog);
  }

  /** Every row the catalog already had survives the three loops: categories as they were and `SameRows`. */
  lemma LoopsKeepRows(c: Catalog, s: Id, data: PriceList, suppliers: set<Id>)
    requires CatalogValid(c, suppliers) && s in suppliers
    ensures var r := ImportCategories(c, data.categories, {});
      && (forall k :: k in c.categories ==> k in r.catalog.categories && r.catalog.categories[k] == c.categories[k])
      && SameRows(c, r.catalog)
      && (r.Finished? ==>
            && Bounded(r.catalog.parameters, r.catalog.nextParameter)
            && var (c2, pmap) := ImportParameters(r.catalog, data.goods, map[]);
               && Covered(data.goods, pmap)
               && var c3 := ImportGoods(c2, s, data.goods, r.acc, pmap).catalog;
                  && (forall k :: k in c.categories ==> k in c3.categories && c3.categories[k] == c.categories[k])
                  && SameRows(c, c3))
  {
    ImportCategoriesKeeps(c, data.categories, {});
    ImportCategoriesOutcome(c, data.categories, {});
    var r := ImportCategories(c, data.categories, {});
    if r.Finished? {
      var (c1, known) := (r.catalog, r.acc);
      var (c2, pmap) := ImportParameters(c1, data.goods, map[]);
      ImportParametersCovers(c1, data.goods, map[]);
      ImportParametersKeepsValid(c1, data.goods, map[], suppliers);
      ImportParametersRows(c1, data.goods, map[]);
      assert ImportReady(c2, s, known, pmap, suppliers);
      ImportGoodsKeepsValid(c2, s, data.goods, known, pmap, suppliers);
      var c3 := ImportGoods(c2, s, data.goods, known, pmap).catalog;
      assert c3.categories == c2.categories == c1.categories;
    }
  }

  /** Every user and supplier profile of `a` is in `a'` as it was. */
  ghost predicate KeepsAccounts(a: Accounts, a': Accounts) {
    && (forall u :: u in a.users ==> u in a'.users && a'.users[u] == a.users[u])
    && (forall i :: i in a.suppliers ==> i in a'.suppliers && a'.suppliers[i] == a.suppliers[i])
  }

  lemma UserStepKeeps(a: Accounts, shop: string)
    requires AccountsValid(a)
    ensures var r := GetOrCreateUser(a, shop);
      r.Some? ==> KeepsAccounts(a, r.value.0) && Bounded(r.value.0.suppliers, r.value.0.nextSupplier)
  {
    GetOrCreateUserSpec(a, shop);
  }

  lemma SupplierStepKeeps(a: Accounts, shop: string, user: Id)
    requires Bounded(a.suppliers, a.nextSupplier)
    ensures var r := GetOrCreateSupplier(a, shop, user);
      r.Some? ==> KeepsAccounts(a, r.value.0)
  {
    GetOrCreateSupplierSpec(a, shop, user);
  }

  /** Past the two account steps the command writes only the catalog. */
  lemma ImportAfterAccounts(db: DB, data: PriceList, a1: Accounts, user: Id, a2: Accounts, s: Id)
    requires Bounded(db.catalog.parameters, db.catalog.nextParameter)
    requires GetOrCreateUser(db.accounts, data.shop) == Some((a1, user))
    requires GetOrCreateSupplier(a1, data.shop, user) == Some((a2, s))
    ensures Import(db, data).db == db.(accounts := a2, catalog := Import(db, data).db.catalog)
  {
  }

  /**
   * After an import that goes through, every good of the price list is
   * listed under its external id for a supplier profile named after the
   * shop.
   */
  lemma ImportLists(db: DB, data: PriceList)
    requires Valid(db)
    ensures var r := Import(db, data);
      r.response == Imported ==>
        exists s :: s in r.db.accounts.suppliers && r.db.accounts.suppliers[s].name == data.shop
          && forall g :: g in data.goods ==>
               exists p :: p in r.db.catalog.products && Listed(r.db.catalog.products[p], s, g.id)
  {
    AccountsReady(db, data);
    match GetOrCreateUser(db.accounts, data.shop)
    case None =>
    case Some((a1, user)) =>
      GetOrCreateSupplierSpec(a1, data.shop, user);
      match GetOrCreateSupplier(a1, data.shop, user)
      case None =>
      case Some((a2, s)) =>
        SuppliersGrow(db.catalog, db.accounts.suppliers.Keys, a2.suppliers.Keys);
        LoopsList(db.catalog, s, data, a2.suppliers.Keys);
        ImportAfterAccounts(db, data, a1, user, a2, s);
  }

  /** The catalog part of a completed import lists every good for the supplier. */
  lemma LoopsList(c: Catalog, s: Id, data: PriceList, suppliers: set<Id>)
    requires CatalogValid(c, suppliers) && s in suppliers
    ensures var r := ImportCategories(c, data.categories, {});
      r.Finished? ==>
        && Bounded(r.catalog.parameters, r.catalog.nextParameter)
        && var (c2, pmap) := ImportParameters(r.catalog, data.goods, map[]);
           && Covered(data.goods, pmap)
           && var r3 := ImportGoods(c2, s, data.goods, r.acc, pmap);
              r3.Finished? ==>
                forall g :: g in data.goods ==> exists p :: p in r3.catalog.products && Listed(r3.catalog.products[p], s, g.id)
  {
    ImportCategoriesKeeps(c, data.categories, {});
    ImportCategoriesOutcome(c, data.categories, {});
    var r := ImportCategories(c, data.categories, {});
    if r.Finished? {
      var (c1, known) := (r.catalog, r.acc);
      LoopsKeepValid(c, s, data, suppliers);
      var (c2, pmap) := ImportParameters(c1, data.goods, map[]);
      ImportParametersCovers(c1, data.goods, map[]);
      ImportParametersKeepsValid(c1, data.goods, map[], suppliers);
      ImportParametersRows(c1, data.goods, map[]);
      assert ImportReady(c2, s, known, pmap, suppliers);
      ImportGoodsLists(c2, s, data.goods, known, pmap, suppliers);
    }
  }

  /**
   * Whatever the command gets through, every user and supplier profile
   * already stored is kept as it was, and orders, baskets and mail are not
   * touched.
   */
  lemma ImportKeepsAccounts(db: DB, data: PriceList)
    requires Valid(db)
    ensures KeepsAccounts(db.accounts, Import(db, data).db.accounts)
    ensures var db' := Import(db, data).db;
      db'.sales == db.sales && db'.carts == db.carts && db'.outbox == db.outbox
  {
    UserStepKeeps(db.accounts, data.shop);
    match GetOrCreateUser(db.accounts, data.shop)
    case None =>
    case Some((a1, user)) =>
      SupplierStepKeeps(a1, data.shop, user);
      match GetOrCreateSupplier(a1, data.shop, user)
      case None =>
      case Some((a2, s)) =>
        ImportAfterAccounts(db, data, a1, user, a2, s);
  }

  /**
   * Whatever the command gets through, every category and parameter value
   * already stored is kept as it was, and every product stays listed by
   * the same supplier under the same external id.
   */
  lemma ImportKeepsCatalogRows(db: DB, data: PriceList)
    requires Valid(db)
    ensures var db' := Import(db, data).db;
      && (forall k :: k in db.catalog.categories ==>
            k in db'.catalog.categories && db'.catalog.categories[k] == db.catalog.categories[k])
      && SameRows(db.catalog, db'.catalog)
  {
    AccountsReady(db, data);
    match GetOrCreateUser(db.accounts, data.shop)
    case None =>
    case Some((a1, user)) =>
      match GetOrCreateSupplier(a1, data.shop, user)
      case None =>
      case Some((a2, s)) =>
        SuppliersGrow(db.catalog, db.accounts.suppliers.Keys, a2.suppliers.Keys);
        LoopsKeepRows(db.catalog, s, data, a2.suppliers.Keys);
  }
}
