/**
 * Properties of the price-list upload and of the toggle: what each phase
 * of the upload writes, what it keeps, when it stops, and that the
 * database constraints survive every request.
 */
module SupplierProps {
  import opened Wrappers
  import opened Values
  import opened Tables
  import opened Models
  import opened Database
  import opened CatalogOps
  import opened SupplierApi

  // ---------------------------------------------------------- categories

  /**
   * The category loop keeps every existing category as it was (an
   * existing name is never updated), keeps names unique, and every new
   * category comes from an entry of the payload under that entry's name.
   */
  lemma {:induction false} LoadCategoriesKeeps(c: Catalog, entries: seq<CategoryEntry>, known: set<int>)
    requires UniqueCategoryNames(c.categories)
    ensures var r := LoadCategories(c, entries, known);
      !r.Raised? ==>
        && UniqueCategoryNames(r.catalog.categories)
        && c.categories.Keys <= r.catalog.categories.Keys
        && (forall k :: k in c.categories ==> r.catalog.categories[k] == c.categories[k])
        && (forall k :: k in r.catalog.categories && k !in c.categories ==>
              exists e :: e in entries && ToInt(e.id) == Some(k) && r.catalog.categories[k].name == e.name)
    decreases |entries|
  {
    if entries != [] {
      var e := entries[0];
      if !e.id.Absent? && ToInt(e.id).Some? {
        var id := ToInt(e.id).value;
        var cats := GetOrCreateCategory(c.categories, id, e.name);
        if cats.Some? {
          CategoryKeepsNamesUnique(c.categories, id, e.name);
          var c1 := c.(categories := cats.value);
          LoadCategoriesKeeps(c1, entries[1..], known + {id});
          var r := LoadCategories(c1, entries[1..], known + {id});
          assert LoadCategories(c, entries, known) == r;
          if !r.Raised? {
            forall k | k in r.catalog.categories && k !in c.categories
              ensures exists e' :: e' in entries && ToInt(e'.id) == Some(k) && r.catalog.categories[k].name == e'.name
            {
              if k in c1.categories {
                assert k == id && r.catalog.categories[k] == Category(e.name);
                assert e in entries;
              } else {
                var e' :| e' in entries[1..] && ToInt(e'.id) == Some(k) && r.catalog.categories[k].name == e'.name;
                assert e' in entries;
              }
            }
          }
        }
      }
    }
  }

  /**
   * A category loop that goes through has converted every entry's id: it
   * knows exactly those ids, and they are the keys that were added.  A
   * loop that returned names an entry whose id is not an integer.
   */
  lemma {:induction false} LoadCategoriesOutcome(c: Catalog, entries: seq<CategoryEntry>, known: set<int>)
    ensures var r := LoadCategories(c, entries, known);
      r.Going? ==>
        && (forall e :: e in entries ==> ToInt(e.id).Some?)
        && r.acc == known + EntryIds(entries)
        && r.catalog.categories.Keys == c.categories.Keys + EntryIds(entries)
    ensures var r := LoadCategories(c, entries, known);
      r.Returned? ==>
        exists e :: e in entries && !e.id.Absent? && ToInt(e.id).None? && r.response == CategoryIdNotInteger(e.name)
    decreases |entries|
  {
    if entries != [] {
      var e := entries[0];
      assert e in entries;
      if !e.id.Absent? && ToInt(e.id).Some? {
        var id := ToInt(e.id).value;
        var cats := GetOrCreateCategory(c.categories, id, e.name);
        if cats.Some? {
          var c1 := c.(categories := cats.value);
          LoadCategoriesOutcome(c1, entries[1..], known + {id});
          var r := LoadCategories(c1, entries[1..], known + {id});
          assert LoadCategories(c, entries, known) == r;
          if r.Going? {
            forall e' | e' in entries ensures ToInt(e'.id).Some? {
              if e' != e {
                assert e' in entries[1..];
              }
            }
          }
          if r.Returned? {
            var e' :| e' in entries[1..] && !e'.id.Absent? && ToInt(e'.id).None? && r.response == CategoryIdNotInteger(e'.name);
            assert e' in entries;
          }
        }
      }
    }
  }

  // ---------------------------------------------------------- parameters

  /** The parameter loop keeps the catalog valid. */
  lemma {:induction false} LoadParametersKeepsValid(c: Catalog, goods: seq<Good>, pmap: map<string, Id>, suppliers: set<Id>)
    requires CatalogValid(c, suppliers)
    ensures CatalogValid(LoadParameters(c, goods, pmap).0, suppliers)
    decreases |goods|
  {
    if goods != [] {
      LoadNamesKeepsValid(c, Names(goods[0].parameters), pmap, suppliers);
      var (c1, p1) := LoadNames(c, Names(goods[0].parameters), pmap);
      LoadParametersKeepsValid(c1, goods[1..], p1, suppliers);
    }
  }

  // ------------------------------------------------------------ products

  /**
   * `get_or_create` by (external id, supplier) and then the overwrite of
   * the four fields: afterwards the row holds exactly the good's fields,
   * it was created exactly when no row was listed under that external id
   * for the supplier, and every other product is as it was.
   */
  lemma UpsertProductUpserts(c: Catalog, s: Id, g: Good, category: int, quantity: nat, price: int)
    requires Bounded(c.products, c.nextProduct)
    ensures var (c', p, created) := UpsertProduct(c, s, g, category, quantity, price);
      && p in c'.products && c'.products[p] == Product(g.name, category, s, price, quantity, Some(g.id))
      && (created <==> forall i :: i in c.products ==> !Listed(c.products[i], s, g.id))
      && (!created ==> p in c.products && Listed(c.products[p], s, g.id))
      && (created ==> p !in c.products)
      && c'.products.Keys == c.products.Keys + {p}
      && (forall i :: i in c.products && i != p ==> c'.products[i] == c.products[i])
      && c' == c.(products := c'.products, nextProduct := c'.nextProduct)
  {
    match FindProduct(c, s, g.id)
    case Some(q) =>
      assert Listed(c.products[q], s, g.id);
    case None =>
  }

  /** The upsert keeps the catalog valid when the supplier and the category exist. */
  lemma UpsertProductKeepsValid(c: Catalog, s: Id, g: Good, category: int, quantity: nat, price: int, suppliers: set<Id>)
    requires CatalogValid(c, suppliers) && s in suppliers && category in c.categories
    ensures CatalogValid(UpsertProduct(c, s, g, category, quantity, price).0, suppliers)
  {
    match FindProduct(c, s, g.id)
    case Some(q) =>
      ProductUpdateKeepsValid(c, q, g.name, category, price, quantity, suppliers);
    case None =>
      var c' := UpsertProduct(c, s, g, category, quantity, price).0;
      assert c'.products[c.nextProduct] == Product(g.name, category, s, price, quantity, Some(g.id));
      ProductWriteKeepsValid(c, c', s, g.id, suppliers);
  }

  // -------------------------------------------------------------- values

  /** No entry of the list names a parameter whose key is `q`. */
  ghost predicate Untouched(q: Id, entries: seq<(string, Value)>, pmap: map<string, Id>) {
    forall e :: e in entries && e.0 in pmap ==> pmap[e.0] != q
  }

  /**
   * Writing a product's values touches only the value table: no row goes
   * away, and a row of another product or of a parameter the list does not
   * name keeps its content.
   */
  lemma {:induction false} SetValuesKeeps(c: Catalog, product: Id, entries: seq<(string, Value)>, pmap: map<string, Id>)
    requires forall e :: e in entries ==> e.0 in pmap
    requires Bounded(c.productParameters, c.nextProductParameter) && UniqueProductParameters(c.productParameters)
    ensures var c' := SetValues(c, product, entries, pmap);
      && Bounded(c'.productParameters, c'.nextProductParameter)
      && UniqueProductParameters(c'.productParameters)
      && c' == c.(productParameters := c'.productParameters, nextProductParameter := c'.nextProductParameter)
      && (forall x :: x in c.productParameters ==> x in c'.productParameters)
      && (forall x :: (x in c.productParameters
            && (c.productParameters[x].product != product || Untouched(c.productParameters[x].parameter, entries, pmap))) ==>
            c'.productParameters[x] == c.productParameters[x])
    decreases |entries|
  {
    if entries != [] {
      var e := entries[0];
      assert e in entries;
      SetValueOverwrites(c, product, pmap[e.0], Show(e.1));
      var c1 := SetValue(c, product, pmap[e.0], Show(e.1));
      SetValuesKeeps(c1, product, entries[1..], pmap);
      forall x | (x in c.productParameters
                  && (c.productParameters[x].product != product || Untouched(c.productParameters[x].parameter, entries, pmap)))
        ensures Untouched(c.productParameters[x].parameter, entries[1..], pmap) || c.productParameters[x].product != product
      {
        forall e' | e' in entries[1..] && e'.0 in pmap && c.productParameters[x].product == product
          ensures pmap[e'.0] != c.productParameters[x].parameter
        {
          assert e' in entries;
        }
      }
    }
  }

  /** The row the first write left is kept by the writes of later entries naming other parameters. */
  lemma LastWriteHolds(c1: Catalog, product: Id, entries: seq<(string, Value)>, pmap: map<string, Id>)
    requires forall e :: e in entries ==> e.0 in pmap
    requires entries != []
    requires Bounded(c1.productParameters, c1.nextProductParameter) && UniqueProductParameters(c1.productParameters)
    requires exists x :: Holds(c1, x, product, pmap[entries[0].0], Show(entries[0].1))
    requires forall j :: 0 < j < |entries| ==> pmap[entries[j].0] != pmap[entries[0].0]
    ensures exists x :: Holds(SetValues(c1, product, entries[1..], pmap), x, product, pmap[entries[0].0], Show(entries[0].1))
  {
    var e := entries[0];
    var rest := entries[1..];
    var x :| Holds(c1, x, product, pmap[e.0], Show(e.1));
    forall e' | e' in rest ensures e'.0 in pmap {
      assert e' in entries;
    }
    SetValuesKeeps(c1, product, rest, pmap);
    forall e' | e' in rest && e'.0 in pmap ensures pmap[e'.0] != pmap[e.0] {
      var j :| 0 <= j < |rest| && rest[j] == e';
      assert entries[j + 1] == e';
    }
    assert Untouched(pmap[e.0], rest, pmap);
    assert Holds(SetValues(c1, product, rest, pmap), x, product, pmap[e.0], Show(e.1));
  }

  /**
   * `update_or_create` stores `str(v)`: after the writes, the row of each
   * entry that no later entry overwrites holds that entry's value.
   */
  lemma {:induction false} SetValuesSets(c: Catalog, product: Id, entries: seq<(string, Value)>, pmap: map<string, Id>, i: int)
    requires forall e :: e in entries ==> e.0 in pmap
    requires Bounded(c.productParameters, c.nextProductParameter) && UniqueProductParameters(c.productParameters)
    requires 0 <= i < |entries|
    requires forall j :: i < j < |entries| ==> pmap[entries[j].0] != pmap[entries[i].0]
    ensures exists x :: Holds(SetValues(c, product, entries, pmap), x, product, pmap[entries[i].0], Show(entries[i].1))
    decreases |entries|
  {
    var e := entries[0];
    assert e in entries;
    SetValueOverwrites(c, product, pmap[e.0], Show(e.1));
    var c1 := SetValue(c, product, pmap[e.0], Show(e.1));
    var rest := entries[1..];
    assert SetValues(c, product, entries, pmap) == SetValues(c1, product, rest, pmap);
    forall e' | e' in rest ensures e'.0 in pmap {
      assert e' in entries;
    }
    if i == 0 {
      LastWriteHolds(c1, product, entries, pmap);
    } else {
      forall j | i - 1 < j < |rest| ensures pmap[rest[j].0] != pmap[rest[i - 1].0] {
        assert rest[j] == entries[j + 1];
      }
      SetValuesSets(c1, product, rest, pmap, i - 1);
      assert rest[i - 1] == entries[i];
    }
  }

  /** Writing values for an existing product and existing parameters keeps the catalog valid. */
  lemma {:induction false} SetValuesKeepsValid(c: Catalog, product: Id, entries: seq<(string, Value)>, pmap: map<string, Id>,
                                               suppliers: set<Id>)
    requires forall e :: e in entries ==> e.0 in pmap && pmap[e.0] in c.parameters
    requires CatalogValid(c, suppliers) && product in c.products
    ensures var c' := SetValues(c, product, entries, pmap);
      && CatalogValid(c', suppliers)
      && c' == c.(productParameters := c'.productParameters, nextProductParameter := c'.nextProductParameter)
    decreases |entries|
  {
    if entries != [] {
      var e := entries[0];
      assert e in entries;
      SetValueKeepsValid(c, product, pmap[e.0], Show(e.1), suppliers);
      SetValueOverwrites(c, product, pmap[e.0], Show(e.1));
      var c1 := SetValue(c, product, pmap[e.0], Show(e.1));
      forall e' | e' in entries[1..] ensures e'.0 in pmap && pmap[e'.0] in c1.parameters {
        assert e' in entries;
      }
      SetValuesKeepsValid(c1, product, entries[1..], pmap, suppliers);
    }
  }

  // --------------------------------------------------------------- goods

  /** What the goods loop needs of its catalog: valid, the supplier and the known categories exist, and every name's row exists. */
  ghost predicate Ready(c: Catalog, s: Id, known: set<int>, pmap: map<string, Id>, suppliers: set<Id>) {
    && CatalogValid(c, suppliers)
    && s in suppliers
    && known <= c.categories.Keys
    && (forall n :: n in pmap ==> pmap[n] in c.parameters)
  }

  /** A product pair of rows agrees on who lists it. */
  ghost predicate SameListing(c: Catalog, c': Catalog) {
    forall i :: i in c.products ==>
      i in c'.products && c'.products[i].supplier == c.products[i].supplier
      && c'.products[i].externalId == c.products[i].externalId
  }

  /** One accepted good keeps the loop ready, adds no product of another listing, and lists the good. */
  lemma AcceptKeepsReady(c: Catalog, s: Id, g: Good, known: set<int>, pmap: map<string, Id>, suppliers: set<Id>)
    requires Ready(c, s, known, pmap, suppliers)
    requires CheckGood(known, g).Accepted?
    requires forall e :: e in g.parameters ==> e.0 in pmap
    ensures var ok := CheckGood(known, g);
      var (c1, p, created) := UpsertProduct(c, s, g, ok.category, ok.quantity, ok.price);
      var c2 := SetValues(c1, p, g.parameters, pmap);
      && Ready(c2, s, known, pmap, suppliers)
      && c2 == c.(products := c2.products, nextProduct := c2.nextProduct,
                  productParameters := c2.productParameters, nextProductParameter := c2.nextProductParameter)
      && SameListing(c, c2)
      && p in c2.products && Listed(c2.products[p], s, g.id)
  {
    var ok := CheckGood(known, g);
    UpsertProductUpserts(c, s, g, ok.category, ok.quantity, ok.price);
    UpsertProductKeepsValid(c, s, g, ok.category, ok.quantity, ok.price, suppliers);
    var (c1, p, created) := UpsertProduct(c, s, g, ok.category, ok.quantity, ok.price);
    assert c1.parameters == c.parameters && c1.categories == c.categories;
    assert forall e :: e in g.parameters ==> e.0 in pmap && pmap[e.0] in c1.parameters;
    SetValuesKeepsValid(c1, p, g.parameters, pmap, suppliers);
    var c2 := SetValues(c1, p, g.parameters, pmap);
    assert c2.products == c1.products && c2.parameters == c.parameters && c2.categories == c.categories;
    assert Ready(c2, s, known, pmap, suppliers);
    forall i | i in c.products
      ensures i in c2.products && c2.products[i].supplier == c.products[i].supplier
      ensures c2.products[i].externalId == c.products[i].externalId
    {
      if i == p {
        assert Listed(c.products[i], s, g.id) && Listed(c2.products[i], s, g.id);
      }
    }
  }

  /**
   * The goods loop keeps the catalog valid, writes only products and
   * values, and never drops a product or changes who lists it.
   */
  lemma {:induction false} LoadGoodsKeepsValid(c: Catalog, s: Id, goods: seq<Good>, known: set<int>, pmap: map<string, Id>,
                                              counts: (nat, nat), suppliers: set<Id>)
    requires Covers(goods, pmap) && Ready(c, s, known, pmap, suppliers)
    ensures var r := LoadGoods(c, s, goods, known, pmap, counts);
      !r.Raised? ==>
        && CatalogValid(r.catalog, suppliers)
        && r.catalog == c.(products := r.catalog.products, nextProduct := r.catalog.nextProduct,
                           productParameters := r.catalog.productParameters,
                           nextProductParameter := r.catalog.nextProductParameter)
        && SameListing(c, r.catalog)
    decreases |goods|
  {
    if goods != [] && CheckGood(known, goods[0]).Accepted? {
      var ok := CheckGood(known, goods[0]);
      var (c1, p, created) := UpsertProduct(c, s, goods[0], ok.category, ok.quantity, ok.price);
      LoadGoodsStep(c, s, goods, known, pmap, counts, c1, p, created);
      AcceptKeepsReady(c, s, goods[0], known, pmap, suppliers);
      var c2 := SetValues(c1, p, goods[0].parameters, pmap);
      LoadGoodsKeepsValid(c2, s, goods[1..], known, pmap, Count(counts, created), suppliers);
    }
  }

  /** A goods loop that goes through counts every good once, as created or as updated. */
  lemma {:induction false} LoadGoodsCounts(c: Catalog, s: Id, goods: seq<Good>, known: set<int>, pmap: map<string, Id>,
                                          counts: (nat, nat))
    requires Covers(goods, pmap)
    ensures var r := LoadGoods(c, s, goods, known, pmap, counts);
      r.Going? ==> r.acc.0 + r.acc.1 == counts.0 + counts.1 + |goods|
    decreases |goods|
  {
    if goods != [] && CheckGood(known, goods[0]).Accepted? {
      var ok := CheckGood(known, goods[0]);
      var (c1, p, created) := UpsertProduct(c, s, goods[0], ok.category, ok.quantity, ok.price);
      LoadGoodsStep(c, s, goods, known, pmap, counts, c1, p, created);
      LoadGoodsCounts(SetValues(c1, p, goods[0].parameters, pmap), s, goods[1..], known, pmap, Count(counts, created));
    }
  }

  /** The value writes never touch the product table. */
  lemma {:induction false} SetValuesKeepProducts(c: Catalog, product: Id, entries: seq<(string, Value)>, pmap: map<string, Id>)
    requires forall e :: e in entries ==> e.0 in pmap
    ensures SetValues(c, product, entries, pmap).products == c.products
    decreases |entries|
  {
    if entries != [] {
      var e := entries[0];
      assert e in entries;
      forall e' | e' in entries[1..] ensures e'.0 in pmap {
        assert e' in entries;
      }
      SetValuesKeepProducts(SetValue(c, product, pmap[e.0], Show(e.1)), product, entries[1..], pmap);
    }
  }

  /** The goods loop stores only prices its checks accepted, and those are never negative. */
  lemma {:induction false} LoadGoodsKeepsPrices(c: Catalog, s: Id, goods: seq<Good>, known: set<int>, pmap: map<string, Id>,
                                               counts: (nat, nat))
    requires Covers(goods, pmap) && PricesNonNegative(c.products)
    ensures var r := LoadGoods(c, s, goods, known, pmap, counts);
      !r.Raised? ==> PricesNonNegative(r.catalog.products)
    decreases |goods|
  {
    if goods != [] && CheckGood(known, goods[0]).Accepted? {
      var ok := CheckGood(known, goods[0]);
      var (c1, p, created) := UpsertProduct(c, s, goods[0], ok.category, ok.quantity, ok.price);
      LoadGoodsStep(c, s, goods, known, pmap, counts, c1, p, created);
      assert PricesNonNegative(c1.products);
      SetValuesKeepProducts(c1, p, goods[0].parameters, pmap);
      var c2 := SetValues(c1, p, goods[0].parameters, pmap);
      LoadGoodsKeepsPrices(c2, s, goods[1..], known, pmap, Count(counts, created));
    }
  }

  /** After a goods loop that goes through, every good is listed under its external id for the supplier. */
  lemma {:induction false} LoadGoodsLists(c: Catalog, s: Id, goods: seq<Good>, known: set<int>, pmap: map<string, Id>,
                                         counts: (nat, nat), suppliers: set<Id>)
    requires Covers(goods, pmap) && Ready(c, s, known, pmap, suppliers)
    ensures var r := LoadGoods(c, s, goods, known, pmap, counts);
      r.Going? ==> forall g :: g in goods ==> exists p :: p in r.catalog.products && Listed(r.catalog.products[p], s, g.id)
    decreases |goods|
  {
    if goods != [] && CheckGood(known, goods[0]).Accepted? {
      var ok := CheckGood(known, goods[0]);
      var (c1, p, created) := UpsertProduct(c, s, goods[0], ok.category, ok.quantity, ok.price);
      LoadGoodsStep(c, s, goods, known, pmap, counts, c1, p, created);
      AcceptKeepsReady(c, s, goods[0], known, pmap, suppliers);
      var c2 := SetValues(c1, p, goods[0].parameters, pmap);
      LoadGoodsLists(c2, s, goods[1..], known, pmap, Count(counts, created), suppliers);
      LoadGoodsKeepsValid(c2, s, goods[1..], known, pmap, Count(counts, created), suppliers);
      var r := LoadGoods(c2, s, goods[1..], known, pmap, Count(counts, created));
      if r.Going? {
        forall g | g in goods ensures exists q :: q in r.catalog.products && Listed(r.catalog.products[q], s, g.id) {
          if g == goods[0] {
            assert p in r.catalog.products && Listed(r.catalog.products[p], s, g.id);
          } else {
            assert g in goods[1..];
          }
        }
      }
    }
  }

  /** Good `t` is the first one the checks refuse: every earlier good passed them. */
  ghost predicate RefusedAt(known: set<int>, goods: seq<Good>, t: int) {
    && 0 <= t < |goods|
    && CheckGood(known, goods[t]).Refused?
    && forall j :: 0 <= j < t ==> CheckGood(known, goods[j]).Accepted?
  }

  /** Good `t` is the first one whose checks raise: every earlier good passed them. */
  ghost predicate RaisedAt(known: set<int>, goods: seq<Good>, t: int) {
    && 0 <= t < |goods|
    && CheckGood(known, goods[t]).Fails?
    && forall j :: 0 <= j < t ==> CheckGood(known, goods[j]).Accepted?
  }

  /** Every good passes its checks. */
  ghost predicate AllAccepted(known: set<int>, goods: seq<Good>) {
    forall g :: g in goods ==> CheckGood(known, g).Accepted?
  }

  /** Behind an accepted first good, the first stop of the rest is the first stop of the whole list. */
  lemma StopShift(known: set<int>, goods: seq<Good>, t: int)
    requires goods != [] && CheckGood(known, goods[0]).Accepted?
    ensures AllAccepted(known, goods) <==> AllAccepted(known, goods[1..])
    ensures RefusedAt(known, goods[1..], t) ==> RefusedAt(known, goods, t + 1) && goods[1..][t] == goods[t + 1]
    ensures RaisedAt(known, goods[1..], t) ==> RaisedAt(known, goods, t + 1)
  {
    var rest := goods[1..];
    if AllAccepted(known, rest) {
      forall g | g in goods ensures CheckGood(known, g).Accepted? {
        if g != goods[0] {
          assert g in rest;
        }
      }
    }
    if AllAccepted(known, goods) {
      forall g | g in rest ensures CheckGood(known, g).Accepted? {
        assert g in goods;
      }
    }
    if 0 <= t < |rest| {
      forall j | 0 < j < t + 1 ensures goods[j] == rest[j - 1] {
      }
    }
  }

  /**
   * The goods loop goes through exactly when every good passes its checks;
   * otherwise it stops at the first good that does not, with that good's
   * refusal or exception.
   */
  lemma {:induction false} LoadGoodsOutcome(c: Catalog, s: Id, goods: seq<Good>, known: set<int>, pmap: map<string, Id>,
                                           counts: (nat, nat))
    requires Covers(goods, pmap)
    ensures var r := LoadGoods(c, s, goods, known, pmap, counts);
      r.Going? <==> AllAccepted(known, goods)
    ensures var r := LoadGoods(c, s, goods, known, pmap, counts);
      r.Returned? ==> exists t :: RefusedAt(known, goods, t) && r.response == CheckGood(known, goods[t]).response
    ensures var r := LoadGoods(c, s, goods, known, pmap, counts);
      r.Raised? ==> exists t :: RaisedAt(known, goods, t)
    decreases |goods|
  {
    if goods != [] {
      assert goods[0] in goods;
      var ok := CheckGood(known, goods[0]);
      if ok.Accepted? {
        var (c1, p, created) := UpsertProduct(c, s, goods[0], ok.category, ok.quantity, ok.price);
        LoadGoodsStep(c, s, goods, known, pmap, counts, c1, p, created);
        var rest := goods[1..];
        var c2 := SetValues(c1, p, goods[0].parameters, pmap);
        LoadGoodsOutcome(c2, s, rest, known, pmap, Count(counts, created));
        var r := LoadGoods(c2, s, rest, known, pmap, Count(counts, created));
        StopShift(known, goods, 0);
        if r.Returned? {
          var t :| RefusedAt(known, rest, t) && r.response == CheckGood(known, rest[t]).response;
          StopShift(known, goods, t);
        }
        if r.Raised? {
          var t :| RaisedAt(known, rest, t);
          StopShift(known, goods, t);
        }
      } else if ok.Refused? {
        assert RefusedAt(known, goods, 0);
      } else {
        assert RaisedAt(known, goods, 0);
      }
    }
  }

  /** A refused first good ends the loop with the catalog as it was. */
  lemma RefusedFirst(c: Catalog, s: Id, goods: seq<Good>, known: set<int>, pmap: map<string, Id>, counts: (nat, nat))
    requires Covers(goods, pmap) && goods != [] && CheckGood(known, goods[0]).Refused?
    ensures LoadGoods(c, s, goods, known, pmap, counts) == Returned(c, CheckGood(known, goods[0]).response)
    ensures goods[..0] == [] && Covers(goods[..0], pmap)
  {
  }

  /**
   * A refused good writes nothing, and the goods before it keep their
   * writes: the loop returns the refusal with the catalog the earlier
   * goods left.
   */
  lemma {:induction false} LoadGoodsRefusal(c: Catalog, s: Id, goods: seq<Good>, known: set<int>, pmap: map<string, Id>,
                                           counts: (nat, nat), t: int)
    requires Covers(goods, pmap) && RefusedAt(known, goods, t)
    ensures Covers(goods[..t], pmap)
    ensures LoadGoods(c, s, goods[..t], known, pmap, counts).Going?
    ensures LoadGoods(c, s, goods, known, pmap, counts)
      == Returned(LoadGoods(c, s, goods[..t], known, pmap, counts).catalog, CheckGood(known, goods[t]).response)
    decreases t
  {
    forall g, e | g in goods[..t] && e in g.parameters ensures e.0 in pmap {
      assert g in goods;
    }
    if t == 0 {
      RefusedFirst(c, s, goods, known, pmap, counts);
    } else {
      assert CheckGood(known, goods[0]).Accepted?;
      var ok := CheckGood(known, goods[0]);
      var (c1, p, created) := UpsertProduct(c, s, goods[0], ok.category, ok.quantity, ok.price);
      LoadGoodsStep(c, s, goods, known, pmap, counts, c1, p, created);
      var rest := goods[1..];
      forall j | 0 <= j < t - 1 ensures CheckGood(known, rest[j]).Accepted? {
        assert rest[j] == goods[j + 1];
      }
      assert rest[t - 1] == goods[t];
      var c2 := SetValues(c1, p, goods[0].parameters, pmap);
      LoadGoodsRefusal(c2, s, rest, known, pmap, Count(counts, created), t - 1);
      assert goods[..t][0] == goods[0] && goods[..t][1..] == rest[..t - 1];
      LoadGoodsStep(c, s, goods[..t], known, pmap, counts, c1, p, created);
    }
  }

  // -------------------------------------------------------------- upload

  /** Growing the product table keeps the order and basket lines resolving. */
  lemma ProductsGrow(db: DB, c: Catalog)
    requires Valid(db) && CatalogValid(c, db.accounts.suppliers.Keys)
    requires db.catalog.products.Keys <= c.products.Keys
    ensures Valid(db.(catalog := c))
  {
    var db' := db.(catalog := c);
    assert OrderItemsResolve(db'.sales.orderItems, db'.sales.orders.Keys, db'.catalog.products.Keys);
    assert BasketItemsResolve(db'.carts.items, db'.carts.baskets, db'.catalog.products.Keys);
  }

  /** The category loop keeps the catalog valid: it only adds categories, under unique names. */
  lemma LoadCategoriesKeepsValid(c: Catalog, entries: seq<CategoryEntry>, suppliers: set<Id>)
    requires CatalogValid(c, suppliers)
    ensures var r := LoadCategories(c, entries, {});
      !r.Raised? ==> CatalogValid(r.catalog, suppliers) && r.catalog.products == c.products
  {
    LoadCategoriesKeeps(c, entries, {});
  }

  /** The catalog the goods loop starts from, after the category and parameter loops, is ready for it. */
  lemma PhasesReady(c: Catalog, s: Id, entries: seq<CategoryEntry>, goods: seq<Good>, suppliers: set<Id>)
    requires CatalogValid(c, suppliers) && s in suppliers
    requires LoadCategories(c, entries, {}).Going?
    ensures var ph := LoadCategories(c, entries, {});
      var (c2, pmap) := LoadParameters(ph.catalog, goods, map[]);
      Covers(goods, pmap) && Ready(c2, s, ph.acc, pmap, suppliers)
  {
    var ph := LoadCategories(c, entries, {});
    LoadCategoriesKeepsValid(c, entries, suppliers);
    LoadCategoriesOutcome(c, entries, {});
    var (c2, pmap) := LoadParameters(ph.catalog, goods, map[]);
    LoadParametersCovers(ph.catalog, goods, map[]);
    LoadParametersKeepsValid(ph.catalog, goods, map[], suppliers);
    LoadParametersRows(ph.catalog, goods, map[]);
    assert c2.categories == ph.catalog.categories;
  }

  /** The transaction never answers 403 or 400-bad-format, and its exception leaves the database as it was. */
  lemma IngestResponds(db: DB, s: Id, entries: seq<CategoryEntry>, goods: seq<Good>)
    requires Bounded(db.catalog.parameters, db.catalog.nextParameter)
    ensures var r := Ingest(db, s, entries, goods);
      && r.response != UploadForbidden && r.response != BadFormat
      && (r.response == UploadFailed ==> r.db == db)
  {
    match LoadCategories(db.catalog, entries, {})
    case Raised =>
    case Returned(c1, response) =>
    case Going(c1, known) =>
      var (c2, pmap) := LoadParameters(c1, goods, map[]);
      LoadParametersCovers(c1, goods, map[]);
      LoadGoodsOutcome(c2, s, goods, known, pmap, (0, 0));
  }

  /**
   * The checks before the transaction: 403 exactly when the caller has no
   * supplier profile, then 400 exactly when the body is not an object or
   * has no goods; neither writes, and an exception rolls everything back.
   */
  lemma UploadChecksCaller(db: DB, user: Id, payload: Payload)
    requires Bounded(db.catalog.parameters, db.catalog.nextParameter)
    ensures var r := Upload(db, user, payload);
      r.response == UploadForbidden <==> SupplierOf(db.accounts, user).None?
    ensures var r := Upload(db, user, payload);
      SupplierOf(db.accounts, user).Some? ==>
        (r.response == BadFormat <==> payload.NotAnObject? || payload.goods.None?)
    ensures var r := Upload(db, user, payload);
      r.response == UploadForbidden || r.response == BadFormat || r.response == UploadFailed ==> r.db == db
  {
    if SupplierOf(db.accounts, user).Some? && !payload.NotAnObject? && payload.goods.Some? {
      IngestResponds(db, SupplierOf(db.accounts, user).value, payload.categories, payload.goods.value);
    }
  }

  /** Every upload keeps the database constraints. */
  lemma UploadKeepsValid(db: DB, user: Id, payload: Payload)
    requires Valid(db)
    ensures Valid(Upload(db, user, payload).db)
  {
    match SupplierOf(db.accounts, user)
    case None =>
    case Some(s) =>
      if !payload.NotAnObject? && payload.goods.Some? {
        var goods := payload.goods.value;
        var suppliers := db.accounts.suppliers.Keys;
        LoadCategoriesKeepsValid(db.catalog, payload.categories, suppliers);
        match LoadCategories(db.catalog, payload.categories, {})
        case Raised =>
        case Returned(c1, response) =>
          ProductsGrow(db, c1);
        case Going(c1, known) =>
          PhasesReady(db.catalog, s, payload.categories, goods, suppliers);
          var (c2, pmap) := LoadParameters(c1, goods, map[]);
          LoadGoodsKeepsValid(c2, s, goods, known, pmap, (0, 0), suppliers);
          var r := LoadGoods(c2, s, goods, known, pmap, (0, 0));
          if !r.Raised? {
            assert c2.products == db.catalog.products;
            ProductsGrow(db, r.catalog);
          }
      }
  }

  /** A successful upload reports every good once, as created or as updated. */
  lemma UploadCounts(db: DB, user: Id, payload: Payload)
    requires Bounded(db.catalog.parameters, db.catalog.nextParameter)
    ensures var r := Upload(db, user, payload);
      r.response.Uploaded? ==>
        && payload.Object? && payload.goods.Some?
        && r.response.created + r.response.updated == |payload.goods.value|
  {
    match SupplierOf(db.accounts, user)
    case None =>
    case Some(s) =>
      if !payload.NotAnObject? && payload.goods.Some? {
        var goods := payload.goods.value;
        match LoadCategories(db.catalog, payload.categories, {})
        case Raised =>
        case Returned(c1, response) =>
          LoadCategoriesOutcome(db.catalog, payload.categories, {});
        case Going(c1, known) =>
          var (c2, pmap) := LoadParameters(c1, goods, map[]);
          LoadParametersCovers(c1, goods, map[]);
          LoadGoodsCounts(c2, s, goods, known, pmap, (0, 0));
          LoadGoodsOutcome(c2, s, goods, known, pmap, (0, 0));
      }
  }

  /**
   * After a successful upload every good is listed under its external id
   * for the caller's supplier profile.
   */
  lemma UploadLists(db: DB, user: Id, payload: Payload)
    requires CatalogValid(db.catalog, db.accounts.suppliers.Keys)
    ensures var r := Upload(db, user, payload);
      r.response.Uploaded? ==>
        && SupplierOf(db.accounts, user).Some? && payload.Object? && payload.goods.Some?
        && forall g :: g in payload.goods.value ==>
             exists p :: p in r.db.catalog.products && Listed(r.db.catalog.products[p], SupplierOf(db.accounts, user).value, g.id)
  {
    UploadChecksCaller(db, user, payload);
    match SupplierOf(db.accounts, user)
    case None =>
    case Some(s) =>
      if !payload.NotAnObject? && payload.goods.Some? {
        var goods := payload.goods.value;
        var suppliers := db.accounts.suppliers.Keys;
        match LoadCategories(db.catalog, payload.categories, {})
        case Raised =>
        case Returned(c1, response) =>
          LoadCategoriesOutcome(db.catalog, payload.categories, {});
        case Going(c1, known) =>
          PhasesReady(db.catalog, s, payload.categories, goods, suppliers);
          var (c2, pmap) := LoadParameters(c1, goods, map[]);
          LoadGoodsLists(c2, s, goods, known, pmap, (0, 0), suppliers);
          LoadGoodsOutcome(c2, s, goods, known, pmap, (0, 0));
      }
  }

  /**
   * The upload keeps every price non-negative: a good's price is checked
   * before its product is written, and a rollback restores the old prices.
   */
  lemma UploadKeepsPrices(db: DB, user: Id, payload: Payload)
    requires Bounded(db.catalog.parameters, db.catalog.nextParameter) && PricesNonNegative(db.catalog.products)
    ensures PricesNonNegative(Upload(db, user, payload).db.catalog.products)
  {
    match SupplierOf(db.accounts, user)
    case None =>
    case Some(s) =>
      if !payload.NotAnObject? && payload.goods.Some? {
        IngestKeepsPrices(db, s, payload.categories, payload.goods.value);
      }
  }

  /** The transaction of the upload keeps every price non-negative. */
  lemma IngestKeepsPrices(db: DB, s: Id, entries: seq<CategoryEntry>, goods: seq<Good>)
    requires Bounded(db.catalog.parameters, db.catalog.nextParameter) && PricesNonNegative(db.catalog.products)
    ensures PricesNonNegative(Ingest(db, s, entries, goods).db.catalog.products)
  {
    match LoadCategories(db.catalog, entries, {})
    case Raised =>
    case Returned(c1, response) =>
    case Going(c1, known) =>
      var (c2, pmap) := LoadParameters(c1, goods, map[]);
      LoadParametersCovers(c1, goods, map[]);
      LoadGoodsKeepsPrices(c2, s, goods, known, pmap, (0, 0));
  }

  /**
   * An error response inside the transaction commits the writes made
   * before it: when good `t` is the first the checks refuse, the upload
   * answers with that refusal and keeps the categories, the parameters
   * and the writes of the goods before `t`.
   */
  lemma IngestCommitsPrefix(db: DB, s: Id, entries: seq<CategoryEntry>, goods: seq<Good>, t: int)
    requires Bounded(db.catalog.parameters, db.catalog.nextParameter)
    requires LoadCategories(db.catalog, entries, {}).Going?
    requires RefusedAt(LoadCategories(db.catalog, entries, {}).acc, goods, t)
    ensures var ph := LoadCategories(db.catalog, entries, {});
      var (c2, pmap) := LoadParameters(ph.catalog, goods, map[]);
      && Covers(goods[..t], pmap)
      && LoadGoods(c2, s, goods[..t], ph.acc, pmap, (0, 0)).Going?
      && Ingest(db, s, entries, goods)
         == Step(db.(catalog := LoadGoods(c2, s, goods[..t], ph.acc, pmap, (0, 0)).catalog), CheckGood(ph.acc, goods[t]).response)
  {
    var ph := LoadCategories(db.catalog, entries, {});
    var (c2, pmap) := LoadParameters(ph.catalog, goods, map[]);
    LoadParametersCovers(ph.catalog, goods, map[]);
    LoadGoodsRefusal(c2, s, goods, ph.acc, pmap, (0, 0), t);
  }

  // -------------------------------------------------------------- toggle

  /** Switching `accepts_orders` keeps the database constraints. */
  lemma ToggleKeepsValid(db: DB, user: Id, v: Value)
    requires Valid(db)
    ensures Valid(Toggle(db, user, v).db)
  {
    var r := Toggle(db, user, v);
    if r.response.Toggled? {
      var a := db.accounts;
      var a' := r.db.accounts;
      assert forall t :: t in a'.suppliers ==> a'.suppliers[t].user == a.suppliers[t].user;
      assert AccountsValid(a');
      assert a'.suppliers.Keys == a.suppliers.Keys;
    }
  }
}
