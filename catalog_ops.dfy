/**
 * The ORM calls that both price-list loaders (the supplier upload and the
 * offline import command) make on the catalog: `get_or_create` of
 * categories and parameters, the product lookup by (supplier, external
 * id), and the two ways of writing a product's parameter value
 * (`update_or_create`, which overwrites, and `get_or_create`, which keeps
 * an existing value).
 */
module CatalogOps {
  import opened Wrappers
  import opened Values
  import opened Tables
  import opened Models
  import opened Database

  // ---------------------------------------------------------- categories

  /** Whether some category row already has this name. */
  predicate NameTaken(cats: map<int, Category>, name: string) {
    exists k :: k in cats && cats[k].name == name
  }

  /**
   * `Category.objects.get_or_create(id=c, defaults={"name": name})`: an
   * existing row is returned unchanged; otherwise a row named `name` is
   * inserted under key `c`, which the unique name column refuses (None)
   * when another row already has that name.
   */
  function GetOrCreateCategory(cats: map<int, Category>, c: int, name: string): (r: Option<map<int, Category>>)
    ensures r.None? <==> c !in cats && NameTaken(cats, name)
    ensures r.Some? ==> r.value.Keys == cats.Keys + {c}
    ensures r.Some? ==> forall k :: k in cats ==> r.value[k] == cats[k]
    ensures r.Some? && c !in cats ==> r.value[c] == Category(name)
  {
    if c in cats then Some(cats)
    else if NameTaken(cats, name) then None
    else Some(cats[c := Category(name)])
  }

  /** A successful category `get_or_create` keeps category names unique. */
  lemma CategoryKeepsNamesUnique(cats: map<int, Category>, c: int, name: string)
    requires UniqueCategoryNames(cats)
    ensures var r := GetOrCreateCategory(cats, c, name);
      r.Some? ==> UniqueCategoryNames(r.value)
  {
  }

  // ---------------------------------------------------------- parameters

  /** `Parameter.objects.filter(name=name)`: the row with this name, if any. */
  function FindParameter(c: Catalog, name: string): (r: Option<Id>)
    ensures r.Some? ==> r.value in c.parameters && c.parameters[r.value].name == name
    ensures r.None? && Bounded(c.parameters, c.nextParameter) ==>
      forall i :: i in c.parameters ==> c.parameters[i].name != name
  {
    var named := (i: Id) => i in c.parameters && c.parameters[i].name == name;
    var r := Find(c.nextParameter, named);
    assert r.None? && Bounded(c.parameters, c.nextParameter) ==>
      forall i :: i in c.parameters ==> c.parameters[i].name != name
    by {
      if r.None? && Bounded(c.parameters, c.nextParameter) {
        forall i | i in c.parameters ensures c.parameters[i].name != name {
          assert i < c.nextParameter && !named(i);
        }
      }
    }
    r
  }

  /**
   * `Parameter.objects.get_or_create(name=name)`: the key of the row with
   * this name, inserting it under the next key when there is none.
   */
  function GetOrCreateParameter(c: Catalog, name: string): (r: (Catalog, Id))
    requires Bounded(c.parameters, c.nextParameter)
    ensures Bounded(r.0.parameters, r.0.nextParameter)
    ensures r.1 in r.0.parameters && r.0.parameters[r.1].name == name
    ensures r.0 == c.(parameters := r.0.parameters, nextParameter := r.0.nextParameter)
    ensures forall i :: i in c.parameters ==> i in r.0.parameters && r.0.parameters[i] == c.parameters[i]
    ensures r.0.parameters.Keys <= c.parameters.Keys + {c.nextParameter}
    ensures r.0.nextParameter >= c.nextParameter
  {
    match FindParameter(c, name)
    case Some(i) => (c, i)
    case None =>
      (c.(parameters := c.parameters[c.nextParameter := Parameter(name)], nextParameter := c.nextParameter + 1),
       c.nextParameter)
  }

  /** An existing parameter is reused, so there is only ever one row per name. */
  lemma ParameterKeepsValid(c: Catalog, name: string, suppliers: set<Id>)
    requires CatalogValid(c, suppliers)
    ensures CatalogValid(GetOrCreateParameter(c, name).0, suppliers)
    ensures (exists i :: i in c.parameters && c.parameters[i].name == name) ==>
      GetOrCreateParameter(c, name).0 == c
  {
  }

  /**
   * The first loop of both loaders: `get_or_create` of each listed
   * parameter name in turn, recording the row of each name in `pmap`.
   */
  function LoadNames(c: Catalog, names: seq<string>, pmap: map<string, Id>): (r: (Catalog, map<string, Id>))
    requires Bounded(c.parameters, c.nextParameter)
    ensures Bounded(r.0.parameters, r.0.nextParameter)
    ensures r.0 == c.(parameters := r.0.parameters, nextParameter := r.0.nextParameter)
    ensures forall i :: i in c.parameters ==> i in r.0.parameters && r.0.parameters[i] == c.parameters[i]
    ensures forall n :: n in r.1 <==> n in pmap || n in names
    ensures forall n :: n in r.1 && n !in names ==> r.1[n] == pmap[n]
    ensures forall n :: n in names ==> r.1[n] in r.0.parameters && r.0.parameters[r.1[n]].name == n
    decreases |names|
  {
    if names == [] then (c, pmap)
    else
      var (c1, p) := GetOrCreateParameter(c, names[0]);
      LoadNames(c1, names[1..], pmap[names[0] := p])
  }

  /** Loading parameter names keeps the catalog valid. */
  lemma {:induction false} LoadNamesKeepsValid(c: Catalog, names: seq<string>, pmap: map<string, Id>, suppliers: set<Id>)
    requires CatalogValid(c, suppliers)
    ensures CatalogValid(LoadNames(c, names, pmap).0, suppliers)
    decreases |names|
  {
    if names != [] {
      ParameterKeepsValid(c, names[0], suppliers);
      var (c1, p) := GetOrCreateParameter(c, names[0]);
      LoadNamesKeepsValid(c1, names[1..], pmap[names[0] := p], suppliers);
    }
  }

  /** Every name in `pmap` maps to the parameter row of that name. */
  ghost predicate Rows(c: Catalog, pmap: map<string, Id>) {
    forall n :: n in pmap ==> pmap[n] in c.parameters && c.parameters[pmap[n]].name == n
  }

  /** Loading names keeps every recorded name mapped to the row of that name. */
  lemma LoadNamesRows(c: Catalog, names: seq<string>, pmap: map<string, Id>)
    requires Bounded(c.parameters, c.nextParameter) && Rows(c, pmap)
    ensures Rows(LoadNames(c, names, pmap).0, LoadNames(c, names, pmap).1)
  {
    var (c', pmap') := LoadNames(c, names, pmap);
    forall n | n in pmap' ensures pmap'[n] in c'.parameters && c'.parameters[pmap'[n]].name == n {
      if n !in names {
        assert pmap'[n] == pmap[n] && pmap[n] in c.parameters;
      }
    }
  }

  /** The names of a product's parameter entries, in order. */
  function Names(entries: seq<(string, Value)>): (r: seq<string>)
    ensures |r| == |entries|
    ensures forall i :: 0 <= i < |r| ==> r[i] == entries[i].0
  {
    if entries == [] then [] else [entries[0].0] + Names(entries[1..])
  }

  // ------------------------------------------------------------ products

  /** Whether a product row is the one a price list names by `(supplier, external id)`. */
  predicate Listed(p: Product, s: Id, ext: string) {
    p.supplier == s && p.externalId == Some(ext)
  }

  /** `Product.objects.filter(external_id=ext, supplier=s)`: the row, if any. */
  function FindProduct(c: Catalog, s: Id, ext: string): (r: Option<Id>)
    ensures r.Some? ==> r.value in c.products && Listed(c.products[r.value], s, ext)
    ensures r.None? && Bounded(c.products, c.nextProduct) ==>
      forall i :: i in c.products ==> !Listed(c.products[i], s, ext)
  {
    var listed := (i: Id) => i in c.products && Listed(c.products[i], s, ext);
    var r := Find(c.nextProduct, listed);
    assert r.None? && Bounded(c.products, c.nextProduct) ==>
      forall i :: i in c.products ==> !Listed(c.products[i], s, ext)
    by {
      if r.None? && Bounded(c.products, c.nextProduct) {
        forall i | i in c.products ensures !Listed(c.products[i], s, ext) {
          assert i < c.nextProduct && !listed(i);
        }
      }
    }
    r
  }

  /** Under the uniqueness of `(supplier, external id)` the listed row is the one found. */
  lemma FindProductUnique(c: Catalog, s: Id, ext: string, i: Id)
    requires Bounded(c.products, c.nextProduct) && UniqueExternalIds(c.products)
    requires i in c.products && Listed(c.products[i], s, ext)
    ensures FindProduct(c, s, ext) == Some(i)
  {
  }

  /** Inserts a product row under the next key. */
  function InsertProduct(c: Catalog, p: Product): Catalog {
    c.(products := c.products[c.nextProduct := p], nextProduct := c.nextProduct + 1)
  }

  /**
   * A product write that keeps every row's supplier and external id and
   * adds at most rows with a fresh key and an external id not yet listed
   * for its supplier keeps the uniqueness of `(supplier, external id)`.
   */
  lemma ProductWriteKeepsValid(c: Catalog, c': Catalog, s: Id, ext: string, suppliers: set<Id>)
    requires CatalogValid(c, suppliers)
    requires c' == c.(products := c'.products, nextProduct := c'.nextProduct)
    requires c.nextProduct <= c'.nextProduct && (c.nextProduct in c'.products ==> c.nextProduct < c'.nextProduct)
    requires c.products.Keys <= c'.products.Keys <= c.products.Keys + {c.nextProduct}
    requires forall i :: i in c.products ==> c'.products[i].supplier == c.products[i].supplier && c'.products[i].externalId == c.products[i].externalId
    requires c.nextProduct in c'.products ==>
      Listed(c'.products[c.nextProduct], s, ext) && forall i :: i in c.products ==> !Listed(c.products[i], s, ext)
    requires forall i :: i in c'.products ==> c'.products[i].category in c.categories && c'.products[i].supplier in suppliers
    ensures CatalogValid(c', suppliers)
  {
  }

  // ------------------------------------------------------ product values

  /** `ProductParameter.objects.filter(product=p, parameter=q)`: the row, if any. */
  function FindValue(c: Catalog, product: Id, parameter: Id): (r: Option<Id>)
    ensures r.Some? ==>
      (r.value in c.productParameters
       && c.productParameters[r.value].product == product && c.productParameters[r.value].parameter == parameter)
    ensures r.None? && Bounded(c.productParameters, c.nextProductParameter) ==>
      forall x :: x in c.productParameters ==>
        c.productParameters[x].product != product || c.productParameters[x].parameter != parameter
  {
    var matches := (x: Id) => x in c.productParameters
      && c.productParameters[x].product == product && c.productParameters[x].parameter == parameter;
    var r := Find(c.nextProductParameter, matches);
    assert r.None? && Bounded(c.productParameters, c.nextProductParameter) ==>
      forall x :: x in c.productParameters ==>
        c.productParameters[x].product != product || c.productParameters[x].parameter != parameter
    by {
      if r.None? && Bounded(c.productParameters, c.nextProductParameter) {
        forall x | x in c.productParameters
          ensures c.productParameters[x].product != product || c.productParameters[x].parameter != parameter
        {
          assert x < c.nextProductParameter && !matches(x);
        }
      }
    }
    r
  }

  function InsertValue(c: Catalog, v: ProductParameter): Catalog {
    c.(productParameters := c.productParameters[c.nextProductParameter := v],
       nextProductParameter := c.nextProductParameter + 1)
  }

  /** Whether row `x` holds `value` as the value of `parameter` for `product`. */
  ghost predicate Holds(c: Catalog, x: Id, product: Id, parameter: Id, value: string) {
    x in c.productParameters && c.productParameters[x] == ProductParameter(product, parameter, value)
  }

  /**
   * `update_or_create(product=p, parameter=q, defaults={"value": v})`:
   * the row for `(p, q)` gets value `v`, inserted if there is none.
   */
  function SetValue(c: Catalog, product: Id, parameter: Id, value: string): Catalog {
    match FindValue(c, product, parameter)
    case Some(x) => c.(productParameters := c.productParameters[x := c.productParameters[x].(value := value)])
    case None => InsertValue(c, ProductParameter(product, parameter, value))
  }

  /**
   * `get_or_create(product=p, parameter=q, defaults={"value": v})`: a row
   * for `(p, q)` is kept with its old value; only a missing one is
   * inserted with value `v`.
   */
  function KeepValue(c: Catalog, product: Id, parameter: Id, value: string): Catalog {
    match FindValue(c, product, parameter)
    case Some(x) => c
    case None => InsertValue(c, ProductParameter(product, parameter, value))
  }

  /**
   * After `update_or_create` there is exactly one row for `(p, q)` and it
   * holds the new value; every other row is as it was.
   */
  lemma SetValueOverwrites(c: Catalog, product: Id, parameter: Id, value: string)
    requires Bounded(c.productParameters, c.nextProductParameter) && UniqueProductParameters(c.productParameters)
    ensures var c' := SetValue(c, product, parameter, value);
      && (exists x :: Holds(c', x, product, parameter, value))
      && UniqueProductParameters(c'.productParameters)
      && Bounded(c'.productParameters, c'.nextProductParameter)
      && c' == c.(productParameters := c'.productParameters, nextProductParameter := c'.nextProductParameter)
      && (forall x :: x in c.productParameters ==> x in c'.productParameters)
      && (forall x :: (x in c.productParameters
            && (c.productParameters[x].product != product || c.productParameters[x].parameter != parameter)) ==>
            c'.productParameters[x] == c.productParameters[x])
  {
    var c' := SetValue(c, product, parameter, value);
    match FindValue(c, product, parameter)
    case Some(x) =>
      assert Holds(c', x, product, parameter, value);
    case None =>
      assert Holds(c', c.nextProductParameter, product, parameter, value);
  }

  /**
   * After `get_or_create` there is exactly one row for `(p, q)`: the old
   * one, value unchanged, or else a new one holding `value`.
   */
  lemma KeepValueKeeps(c: Catalog, product: Id, parameter: Id, value: string)
    requires Bounded(c.productParameters, c.nextProductParameter) && UniqueProductParameters(c.productParameters)
    ensures var c' := KeepValue(c, product, parameter, value);
      && UniqueProductParameters(c'.productParameters)
      && Bounded(c'.productParameters, c'.nextProductParameter)
      && c' == c.(productParameters := c'.productParameters, nextProductParameter := c'.nextProductParameter)
      && (forall x :: x in c.productParameters ==> x in c'.productParameters && c'.productParameters[x] == c.productParameters[x])
      && ((exists x :: x in c.productParameters && c.productParameters[x].product == product
             && c.productParameters[x].parameter == parameter) ==> c' == c)
      && ((forall x :: x in c.productParameters ==>
             c.productParameters[x].product != product || c.productParameters[x].parameter != parameter) ==>
            Holds(c', c.nextProductParameter, product, parameter, value))
  {
  }

  /** The overwriting value write keeps the catalog valid when product and parameter exist. */
  lemma SetValueKeepsValid(c: Catalog, product: Id, parameter: Id, value: string, suppliers: set<Id>)
    requires CatalogValid(c, suppliers) && product in c.products && parameter in c.parameters
    ensures CatalogValid(SetValue(c, product, parameter, value), suppliers)
  {
    SetValueOverwrites(c, product, parameter, value);
  }

  /** The keeping value write keeps the catalog valid when product and parameter exist. */
  lemma KeepValueKeepsValid(c: Catalog, product: Id, parameter: Id, value: string, suppliers: set<Id>)
    requires CatalogValid(c, suppliers) && product in c.products && parameter in c.parameters
    ensures CatalogValid(KeepValue(c, product, parameter, value), suppliers)
  {
    KeepValueKeeps(c, product, parameter, value);
  }

  /** Overwriting the name, category, price and quantity of a product keeps the catalog valid. */
  lemma ProductUpdateKeepsValid(c: Catalog, q: Id, name: string, category: int, price: int, quantity: nat, suppliers: set<Id>)
    requires CatalogValid(c, suppliers) && q in c.products && category in c.categories
    ensures CatalogValid(c.(products := c.products[q := c.products[q].(name := name, category := category, price := price, quantity := quantity)]), suppliers)
  {
    var ps := c.products[q := c.products[q].(name := name, category := category, price := price, quantity := quantity)];
    assert ps.Keys == c.products.Keys;
    assert forall i :: i in ps ==> ps[i].supplier == c.products[i].supplier && ps[i].externalId == c.products[i].externalId;
  }

  /** The inner loop of both parameter loops: `get_or_create(name=...)` of each name, recorded in `pmap`. */
  method LoadNamesInto(s: Store, names: seq<string>, pmap0: map<string, Id>) returns (pmap: map<string, Id>)
    requires Bounded(s.db.catalog.parameters, s.db.catalog.nextParameter)
    modifies s
    ensures (s.db.catalog, pmap) == LoadNames(old(s.db.catalog), names, pmap0)
    ensures s.db == old(s.db).(catalog := s.db.catalog)
  {
    pmap := pmap0;
    for j := 0 to |names|
      invariant s.db == old(s.db).(catalog := s.db.catalog)
      invariant Bounded(s.db.catalog.parameters, s.db.catalog.nextParameter)
      invariant LoadNames(old(s.db.catalog), names, pmap0) == LoadNames(s.db.catalog, names[j..], pmap)
    {
      assert names[j..][1..] == names[j + 1..];
      var (c, p) := GetOrCreateParameter(s.db.catalog, names[j]);
      s.db := s.db.(catalog := c);
      pmap := pmap[names[j] := p];
    }
  }
}
