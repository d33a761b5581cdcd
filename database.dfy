/**
 * The store's tables as one value, the constraints the database keeps on
 * them, and the store object that holds them.  Tables are grouped by the
 * part of the system that writes them: accounts (users, supplier
 * profiles, delivery addresses), the catalog (categories, parameters,
 * products and their parameter values), sales (orders, order lines and
 * confirmation codes) and carts (baskets and basket lines).
 */
module Database {
  import opened Wrappers
  import opened Tables
  import opened Models

  /** A message handed to the mail notifier: the code of an order, for its user. */
  datatype Mail = Mail(recipient: Id, order: Id, code: string)

  /** Each `next*` counter is the key the next inserted row of that table gets. */
  datatype Accounts = Accounts(
    users: map<Id, User>, nextUser: nat,
    suppliers: map<Id, Supplier>, nextSupplier: nat,
    addresses: map<Id, DeliveryAddress>)

  /** Categories get explicit keys from price lists, so they have no counter. */
  datatype Catalog = Catalog(
    categories: map<int, Category>,
    parameters: map<Id, Parameter>, nextParameter: nat,
    products: map<Id, Product>, nextProduct: nat,
    productParameters: map<Id, ProductParameter>, nextProductParameter: nat)

  /** Confirmation codes are keyed by their order. */
  datatype Sales = Sales(
    orders: map<Id, Order>, nextOrder: nat,
    orderItems: map<Id, OrderItem>, nextOrderItem: nat,
    codes: map<Id, ConfirmationCode>)

  /** `baskets` holds the users that own a basket; a line's `basket` is such a user. */
  datatype Carts = Carts(
    baskets: set<Id>,
    items: map<Id, BasketItem>, nextItem: nat)

  datatype DB = DB(accounts: Accounts, catalog: Catalog, sales: Sales, carts: Carts, outbox: seq<Mail>)

  /** The state of a fresh database: autoincrement keys start at 1. */
  function Empty(): DB {
    DB(Accounts(map[], 1, map[], 1, map[]),
       Catalog(map[], map[], 1, map[], 1, map[], 1),
       Sales(map[], 1, map[], 1, map[]),
       Carts({}, map[], 1),
       [])
  }

  ghost predicate Bounded<T>(m: map<Id, T>, next: nat) {
    forall i :: i in m ==> i < next
  }

  // ------------------------------------------------------------ accounts

  ghost predicate UniqueUsernames(users: map<Id, User>) {
    forall i, j :: i in users && j in users && users[i].username == users[j].username ==> i == j
  }

  ghost predicate UniqueEmails(users: map<Id, User>) {
    forall i, j :: i in users && j in users && users[i].email == users[j].email ==> i == j
  }

  /** A user has at most one supplier profile. */
  ghost predicate OneProfilePerUser(suppliers: map<Id, Supplier>) {
    forall i, j :: i in suppliers && j in suppliers && suppliers[i].user == suppliers[j].user ==> i == j
  }

  ghost predicate AccountsValid(a: Accounts) {
    && Bounded(a.users, a.nextUser)
    && Bounded(a.suppliers, a.nextSupplier)
    && (forall s :: s in a.suppliers ==> a.suppliers[s].user in a.users)
    && (forall d :: d in a.addresses ==> 0 < d && a.addresses[d].user in a.users)
    && UniqueUsernames(a.users)
    && UniqueEmails(a.users)
    && OneProfilePerUser(a.suppliers)
  }

  // ------------------------------------------------------------- catalog

  ghost predicate UniqueCategoryNames(categories: map<int, Category>) {
    forall i, j :: i in categories && j in categories && categories[i].name == categories[j].name ==> i == j
  }

  ghost predicate UniqueParameterNames(parameters: map<Id, Parameter>) {
    forall i, j :: i in parameters && j in parameters && parameters[i].name == parameters[j].name ==> i == j
  }

  /** At most one product per (supplier, external id); rows without an external id never clash. */
  ghost predicate UniqueExternalIds(products: map<Id, Product>) {
    forall i, j ::
      (i in products && j in products && products[i].externalId.Some?
       && products[i].supplier == products[j].supplier
       && products[i].externalId == products[j].externalId) ==> i == j
  }

  /** At most one value per (product, parameter). */
  ghost predicate UniqueProductParameters(pps: map<Id, ProductParameter>) {
    forall i, j ::
      (i in pps && j in pps && pps[i].product == pps[j].product
       && pps[i].parameter == pps[j].parameter) ==> i == j
  }

  ghost predicate ProductsResolve(products: map<Id, Product>, categories: set<int>, suppliers: set<Id>) {
    forall p :: p in products ==> products[p].supplier in suppliers && products[p].category in categories
  }

  ghost predicate ProductParametersResolve(pps: map<Id, ProductParameter>, products: set<Id>, parameters: set<Id>) {
    forall x :: x in pps ==> pps[x].product in products && pps[x].parameter in parameters
  }

  ghost predicate CatalogValid(c: Catalog, suppliers: set<Id>) {
    && Bounded(c.parameters, c.nextParameter)
    && Bounded(c.products, c.nextProduct)
    && Bounded(c.productParameters, c.nextProductParameter)
    && ProductsResolve(c.products, c.categories.Keys, suppliers)
    && ProductParametersResolve(c.productParameters, c.products.Keys, c.parameters.Keys)
    && UniqueCategoryNames(c.categories)
    && UniqueParameterNames(c.parameters)
    && UniqueExternalIds(c.products)
    && UniqueProductParameters(c.productParameters)
  }

  // --------------------------------------------------------------- sales

  /** At most one line per (order, product). */
  ghost predicate UniqueOrderLines(items: map<Id, OrderItem>) {
    forall i, j ::
      (i in items && j in items && items[i].order == items[j].order
       && items[i].product == items[j].product) ==> i == j
  }

  ghost predicate OrderItemsResolve(items: map<Id, OrderItem>, orders: set<Id>, products: set<Id>) {
    forall i :: i in items ==> items[i].order in orders && items[i].product in products
  }

  ghost predicate SalesValid(s: Sales, users: set<Id>, products: set<Id>) {
    && 0 < s.nextOrder
    && Bounded(s.orders, s.nextOrder)
    && Bounded(s.orderItems, s.nextOrderItem)
    && (forall o :: o in s.orders ==> s.orders[o].user in users)
    && OrderItemsResolve(s.orderItems, s.orders.Keys, products)
    && s.codes.Keys <= s.orders.Keys
    && UniqueOrderLines(s.orderItems)
  }

  // --------------------------------------------------------------- carts

  /** At most one line per (basket, product). */
  ghost predicate UniqueBasketLines(items: map<Id, BasketItem>) {
    forall i, j ::
      (i in items && j in items && items[i].basket == items[j].basket
       && items[i].product == items[j].product) ==> i == j
  }

  ghost predicate BasketItemsResolve(items: map<Id, BasketItem>, baskets: set<Id>, products: set<Id>) {
    forall i :: i in items ==> items[i].basket in baskets && items[i].product in products
  }

  ghost predicate CartsValid(k: Carts, users: set<Id>, products: set<Id>) {
    && Bounded(k.items, k.nextItem)
    && k.baskets <= users
    && BasketItemsResolve(k.items, k.baskets, products)
    && UniqueBasketLines(k.items)
  }

  /** The constraints the database schema keeps: keys, foreign keys and uniqueness. */
  ghost predicate Valid(db: DB) {
    && AccountsValid(db.accounts)
    && CatalogValid(db.catalog, db.accounts.suppliers.Keys)
    && SalesValid(db.sales, db.accounts.users.Keys, db.catalog.products.Keys)
    && CartsValid(db.carts, db.accounts.users.Keys, db.catalog.products.Keys)
  }

  /** The foreign keys the checkout and confirmation handlers follow. */
  ghost predicate Linked(db: DB) {
    && BasketItemsResolve(db.carts.items, db.carts.baskets, db.catalog.products.Keys)
    && ProductsResolve(db.catalog.products, db.catalog.categories.Keys, db.accounts.suppliers.Keys)
    && OrderItemsResolve(db.sales.orderItems, db.sales.orders.Keys, db.catalog.products.Keys)
  }

  lemma EmptyValid()
    ensures Valid(Empty())
  {
  }

  /** The price validator of the product model, which the database itself does not enforce. */
  ghost predicate PricesNonNegative(products: map<Id, Product>) {
    forall p :: p in products ==> products[p].price >= 0
  }

  /** The owner's basket lines, in key order. */
  function BasketLines(k: Carts, owner: Id): (r: seq<Id>)
    ensures Increasing(r)
    ensures forall i :: i in r ==> i in k.items && k.items[i].basket == owner
    ensures Bounded(k.items, k.nextItem) ==>
      forall i :: i in k.items && k.items[i].basket == owner ==> i in r
  {
    Select(k.nextItem, i => i in k.items && k.items[i].basket == owner)
  }

  /** The lines of an order, in key order. */
  function OrderLines(s: Sales, order: Id): (r: seq<Id>)
    ensures Increasing(r)
    ensures forall i :: i in r ==> i in s.orderItems && s.orderItems[i].order == order
    ensures Bounded(s.orderItems, s.nextOrderItem) ==>
      forall i :: i in s.orderItems && s.orderItems[i].order == order ==> i in r
  {
    Select(s.nextOrderItem, i => i in s.orderItems && s.orderItems[i].order == order)
  }

  /** `request.user.supplier_profile`: the supplier row whose user is `user`, if any. */
  function SupplierOf(a: Accounts, user: Id): (r: Option<Id>)
    ensures r.Some? ==> r.value in a.suppliers && a.suppliers[r.value].user == user
    ensures r.None? ==>
      forall s: Id :: s in a.suppliers && s < a.nextSupplier ==> a.suppliers[s].user != user
  {
    var owned := (s: Id) => s in a.suppliers && a.suppliers[s].user == user;
    var r := Find(a.nextSupplier, owned);
    assert r.None? ==> forall s: Id :: s in a.suppliers && s < a.nextSupplier ==> !owned(s);
    r
  }

  /** A pair of the state after a handler and the response it gives. */
  datatype Step<R> = Step(db: DB, response: R)

  /** The store: the database every request handler reads and writes. */
  class Store {
    var db: DB

    constructor ()
      ensures db == Empty()
    {
      db := Empty();
    }
  }
}
