# My_first_store: a Dafny model of the shop's core handlers

This project models the core of a small Django online shop. It has
buyers' baskets, checkout with an emailed six-digit confirmation code,
order confirmation (which takes the stock), suppliers' price-list upload
and their order-acceptance switch, the orders a supplier has to fill,
the per-user scoping of the generic order and user endpoints, and the
offline price-list import command.

The whole database is one value, `Database.DB`. It holds every table as
a map from primary key to row, plus the autoincrement counters and an
outbox of sent mails. `Database.Valid` states the schema's constraints:
keys below their counters, foreign keys that resolve, and the unique
columns and unique pairs.

Each request handler is modelled twice:

- as a pure transition function from a database to a `Step` (new
  database and response), about which the lemmas are proved;
- as a method on the `Database.Store` class that makes the same writes
  one by one, with the source's loops, and whose `ensures` ties its
  final state and response to that function.

The import command is modelled the same way (`ImportProducts.Import`
and `ImportProducts.Handle`). The basket view, add and remove handlers
in `core/views.py` (lines 128-169) are identical to those in
`basket/views.py`, so the `Basket` members model both copies.

The model follows the source's branches and error cases:

- Python's truthiness, `int()` and `str()` on request fields
  (`Values`);
- Django's `get_or_create` and `update_or_create`;
- a positive-integer column, which refuses a negative value (an
  IntegrityError);
- `transaction.atomic()` in the upload: an early `return` commits the
  writes made before it, while an exception rolls them back;
- no transaction in checkout, in confirmation or in the import: the
  writes made before an exception stay. A basket line with a negative
  quantity ends checkout when its order line is refused, leaving an
  order with status new that has only the earlier lines, no code and no
  mail (`Orders.CreateLineRejected`).

Prices are whole cents. The clock, the random code and the mail are
inputs or records. The `now` parameter is the time in seconds, and the
code lifetime is 15 minutes (900 seconds).

## Model

| member | source | states |
|---|---|---|
| Database.EmptyValid | My_first_store/core/models.py:25-118 | the empty database satisfies every key, foreign-key and uniqueness constraint of the schema |
| Database.SupplierOf | My_first_store/supplier_api/views.py:26-32 | `request.user.supplier_profile` finds a supplier row owned by the user, or reports that none below the counter is |
| Database.BasketLines | My_first_store/orders/views.py:34 | the user's basket lines in key order: only the user's lines, and all of them when keys are bounded |
| Database.OrderLines | My_first_store/orders/views.py:183 | an order's lines in key order: only that order's lines, and all of them when keys are bounded |
| Models.ParseStatus | My_first_store/core/models.py:15-22 | the status is the one whose database value is the code, and none when the code is not a choice; round trip with `StatusCode` |
| Models.CodeValidForLifetime | My_first_store/orders/views.py:101 | a code issued at `t` is unexpired at `now` exactly when `now <= t + 900` |
| Values.ToInt | My_first_store/orders/views.py:66 | Python `int(v)`: booleans give 0/1, integers themselves, strings their signed decimal value; None and malformed strings fail |
| Values.IntShowRoundTrip | My_first_store/supplier_api/views.py:158 | `int(str(n)) == n` for every integer `n` |
| Values.IdLookup | My_first_store/basket/views.py:26 | `get(id=v)`: a key exactly when `int(v)` is a non-negative integer; the lookup raises exactly when `v` is not None and `int(v)` fails |
| Basket.OpenBasket | My_first_store/basket/views.py:16 | after `get_or_create` the user owns a basket |
| Basket.LineFor | My_first_store/basket/views.py:31-35 | the found line is the user's and holds the product; none means no line of the user's basket holds it |
| Basket.LineForUnique | My_first_store/basket/views.py:31-35 | with unique (basket, product) pairs, a line of the user's basket holding the product is the one found |
| Basket.BasketView | My_first_store/basket/views.py:13-18 | the store method makes the writes of `View` and returns its response |
| Basket.ViewGetsOrCreates | My_first_store/basket/views.py:13-18 | the view gives the user a basket, changes nothing else, lists exactly the user's lines in key order, and a second view changes nothing |
| Basket.AddView | My_first_store/basket/views.py:20-43 | the store method makes the writes of `Add` and returns its response |
| Basket.PutLine | My_first_store/basket/views.py:31-40 | the line get-or-create and merge step on the store equals `Put` |
| Basket.PutMerges | My_first_store/basket/views.py:31-40 | after a put the basket has exactly one line for the product, holding what it held before plus `q`; every other line is unchanged |
| Basket.PutResolves | My_first_store/basket/views.py:31-40 | a put keeps every basket line resolving when the basket and product exist |
| Basket.AddSucceedsIff | My_first_store/basket/views.py:20-43 | add succeeds exactly when the product exists and the quantity converts with `int()`; 404 on an unknown product with nothing written; only carts are written |
| Basket.AddMergesLine | My_first_store/basket/views.py:31-40 | after a success the basket has one line for the product, holding the old quantity plus the requested one (1 by default) |
| Basket.AddKeepsValid | My_first_store/basket/views.py:20-43 | every outcome of add keeps the database valid |
| Basket.AddTwiceAccumulates | My_first_store/basket/views.py:38-40 | adding `a` and then `b` of a product leaves one line holding the earlier quantity plus `a + b` |
| Basket.RemoveView | My_first_store/basket/views.py:45-54 | the store method makes the writes of `Remove` and returns its response |
| Basket.RemoveIsOwnerScoped | My_first_store/basket/views.py:45-54 | remove succeeds exactly for a line of the caller's own basket and deletes only that line; otherwise 404 with nothing written |
| Basket.UpdateQuantityView | My_first_store/basket/views.py:57-89 | the store method makes the writes of `Update` and returns its response |
| Basket.UpdateGuards | My_first_store/basket/views.py:60-75 | another user's line gives 404; a missing or non-integer quantity gives 400; none of these writes anything; stock is never written |
| Basket.UpdateRespectsStock | My_first_store/basket/views.py:69-89 | with integer `n`: `n <= 0` deletes the line; `n` above the stock gives 400 with both amounts; otherwise the line holds exactly `n` |
| Basket.DeleteLineValid | My_first_store/basket/views.py:72 | deleting a basket line keeps the carts valid |
| Basket.SetQuantityValid | My_first_store/basket/views.py:85-86 | changing a line's quantity keeps the carts valid |
| Basket.UpdateKeepsCartsValid | My_first_store/basket/views.py:57-89 | every outcome of update keeps the carts valid and writes nothing else |
| Basket.UpdateKeepsValid | My_first_store/basket/views.py:57-89 | every outcome of update keeps the database valid |
| Orders.FirstRejection | My_first_store/orders/views.py:40-56 | the checkout line loop refuses only for an unavailable supplier or short stock |
| Orders.FirstRejectionFindsFirst | My_first_store/orders/views.py:40-56 | no refusal exactly when every line fits; otherwise the refusal of the first line that does not fit |
| Orders.CopyLinesCopies | My_first_store/orders/views.py:94-97 | copying writes only order lines; the `n` lines inserted take the next keys and copy product and quantity in order; all are copied unless a negative quantity stops it, which is then named |
| Orders.OpenOrderValid | My_first_store/orders/views.py:88-90 | the new order row with status new keeps the sales tables valid, and no line refers to it yet |
| Orders.Deliver | My_first_store/orders/views.py:58-125 | the address part of checkout answers only with an address refusal, a created order or a rejected line |
| Orders.CreateRefusesEmptyBasket | My_first_store/orders/views.py:29-36 | checkout answers EmptyBasket with nothing written exactly when the user has no basket or no line in it |
| Orders.CreateChecksLines | My_first_store/orders/views.py:40-56 | with lines, checkout reaches the address checks exactly when every line fits, otherwise refuses with nothing written |
| Orders.DeliverChecksAddress | My_first_store/orders/views.py:58-85 | the address is checked in order: missing, not an integer, negative, not the user's; each refusal writes nothing |
| Orders.CreateChecksBeforeWriting | My_first_store/orders/views.py:24-125 | checkout writes nothing unless every check passes |
| Orders.CreateWritesAfterChecks | My_first_store/orders/views.py:24-87 | checkout reaches its writes only when the basket has lines, every line fits and the address is a non-negative integer naming one of the user's addresses |
| Orders.CreateRefusesUnfitLine | My_first_store/orders/views.py:40-56 | an unavailable supplier or short stock on a line makes checkout refuse with nothing written, naming the first such line and both amounts |
| Orders.PlaceWrites | My_first_store/orders/views.py:88-121 | one new order with status new, its lines exactly one per basket line in order, the code record expiring 900 s after `now`, and the code mailed to the user; stock, baskets and accounts unchanged |
| Orders.CreatePlacesOrder | My_first_store/orders/views.py:24-125 | a successful checkout makes exactly the writes of `PlaceWrites` for the user's basket lines and address |
| Orders.CreateKeepsStock | My_first_store/orders/views.py:24-125 | every checkout outcome leaves the stock, the baskets and the accounts as they were |
| Orders.CreateLineRejected | My_first_store/orders/views.py:88-97 | a refused order line leaves the new order row with status new, the code records and the outbox unchanged, and is caused by a negative basket line; the order has no code |
| Orders.CopyLinesValid | My_first_store/orders/views.py:94-97 | copying lines of distinct products into an order holding none keeps the sales tables valid |
| Orders.BasketLinesDistinct | My_first_store/orders/views.py:34 | the lines of one basket name pairwise distinct products |
| Orders.CopyBasketValid | My_first_store/orders/views.py:94-97 | copying the user's basket into a new order keeps the sales tables valid |
| Orders.PlaceKeepsValid | My_first_store/orders/views.py:88-121 | the checkout writes keep the database valid |
| Orders.CreateKeepsValid | My_first_store/orders/views.py:24-125 | every outcome of checkout keeps the database valid |
| Orders.OrderCreateView | My_first_store/orders/views.py:24-125 | the store method, with its two loops, makes the writes of `Create` and returns its response |
| Orders.CheckLines | My_first_store/orders/views.py:40-56 | the loop over the basket lines returns `FirstRejection` |
| Orders.PlaceOrder | My_first_store/orders/views.py:88-121 | the row-by-row writes on the store equal `Place` |
| Orders.Withdraw | My_first_store/orders/views.py:183-185 | the stock loop changes only product quantities and keeps the product keys |
| Orders.WithdrawTakesDemand | My_first_store/orders/views.py:183-185 | a completed stock loop lowers each product's stock by exactly what the lines ask of it |
| Orders.WithdrawStopsAt | My_first_store/orders/views.py:183-185 | a stopped loop stops at a line whose product lacks the stock, with the stock the earlier lines left |
| Orders.WithdrawSucceeds | My_first_store/orders/views.py:183-185 | the loop completes when the lines name distinct products each covered by its stock |
| Orders.DemandOfLine | My_first_store/orders/views.py:183-185 | over lines of distinct products, the demand on one line's product is that line's quantity |
| Orders.DemandOfAbsent | My_first_store/orders/views.py:183-185 | lines that do not name a product ask nothing of it |
| Orders.OrderLinesDistinct | My_first_store/core/models.py:114-115 | the lines of one order name pairwise distinct products |
| Orders.ClearBasket | My_first_store/orders/views.py:195-196 | exactly the lines of other baskets remain, unchanged |
| Orders.Commit | My_first_store/orders/views.py:181-200 | the confirmation writes answer confirmed, stock went negative, or basket missing |
| Orders.Redeem | My_first_store/orders/views.py:170-200 | the code step answers only expired, mismatch, or one of `Commit`'s answers |
| Orders.ConfirmChecksRequest | My_first_store/orders/views.py:132-152 | fields missing, id not an integer, id negative: each exactly under its condition, in order, and none writes |
| Orders.ConfirmChecksOrder | My_first_store/orders/views.py:154-168 | 404 exactly when the order is not the user's; then no pending code exactly when it has none; neither writes |
| Orders.RedeemChecksCode | My_first_store/orders/views.py:170-179 | an expired code is deleted and refused; an unexpired mismatch is refused and kept; a match commits |
| Orders.CommitConfirms | My_first_store/orders/views.py:181-200 | a successful commit lowers each stock by the order's demand, marks the order confirmed, deletes its code and the user's basket lines, and leaves the rest unchanged |
| Orders.OrderDemand | My_first_store/orders/views.py:183-185 | a confirmed order lowers each product it names by that line's quantity and leaves other products alone |
| Orders.CommitStopsPartway | My_first_store/orders/views.py:183-185 | with no transaction, a stock going negative keeps the earlier decrements; order, code and basket are untouched |
| Orders.StockOnly | My_first_store/orders/views.py:183-185 | changing only product quantities keeps the database valid |
| Orders.SalesConfirmed | My_first_store/orders/views.py:188-192 | confirming an order and deleting its code keeps the sales tables valid |
| Orders.CartsCleared | My_first_store/orders/views.py:195-196 | deleting one basket's lines keeps the carts valid |
| Orders.CommitKeepsValid | My_first_store/orders/views.py:181-200 | every outcome of the confirmation writes keeps the database valid |
| Orders.ConfirmKeepsValid | My_first_store/orders/views.py:128-200 | every outcome of confirmation keeps the database valid |
| Orders.ConfirmTwiceFails | My_first_store/orders/views.py:162-168 | after a confirmation, every later request by the user naming that order, with any code, is refused with no pending code and nothing written |
| Orders.ZeroLineOrdered | My_first_store/orders/views.py:40-97 | a basket line of quantity 0 with a supplier that accepts orders and an owned address passes checkout, which stores an order line of quantity 0 |
| Orders.CheckoutThenConfirm | My_first_store/orders/views.py:24-200 | after a successful checkout, confirming the new order with the mailed code within 15 minutes succeeds |
| Orders.ConfirmsPendingOrder | My_first_store/orders/views.py:154-200 | the user's order with its pending unexpired code, stock covering its lines and a basket is confirmed |
| Orders.PlacedLinesFit | My_first_store/orders/views.py:50-56 | an order placed from a basket whose lines all fit has its stock loop complete |
| Orders.ConfirmOrderView | My_first_store/orders/views.py:128-200 | the store method makes the writes of `Confirm` and returns its response |
| Orders.CommitOrder | My_first_store/orders/views.py:181-200 | the row-by-row confirmation writes, with the stock loop, equal `Commit` |
| CatalogOps.GetOrCreateCategory | My_first_store/supplier_api/views.py:61-64 | refused exactly when the id is new and the name is taken; otherwise keys grow by the id, existing rows are kept, and a new row takes the name |
| CatalogOps.CategoryKeepsNamesUnique | My_first_store/core/models.py:43 | a successful category get-or-create keeps category names unique |
| CatalogOps.FindParameter | My_first_store/supplier_api/views.py:71 | the found row has the name; none means no row below the counter has it |
| CatalogOps.GetOrCreateParameter | My_first_store/supplier_api/views.py:71 | the result is the row of that name: the existing one, else a new one under the next key |
| CatalogOps.ParameterKeepsValid | My_first_store/core/models.py:69 | parameter get-or-create keeps one row per name |
| CatalogOps.LoadNames | My_first_store/supplier_api/views.py:69-72 | every listed name is recorded with the row of that name; other entries and existing rows are kept |
| CatalogOps.LoadNamesKeepsValid | My_first_store/supplier_api/views.py:69-72 | loading names keeps the catalog valid |
| CatalogOps.LoadNamesRows | My_first_store/supplier_api/views.py:69-72 | every recorded name still maps to the row of that name |
| CatalogOps.LoadNamesInto | My_first_store/supplier_api/views.py:70-72 | the inner loop on the store equals `LoadNames` |
| CatalogOps.FindProduct | My_first_store/supplier_api/views.py:129-133 | the found product is listed by the supplier under the external id; none means no such product |
| CatalogOps.FindProductUnique | My_first_store/core/models.py:61-62 | with unique (supplier, external id) pairs, the listed product is the one found |
| CatalogOps.ProductWriteKeepsValid | My_first_store/core/models.py:61-62 | a product write that keeps listings and adds only an unlisted product keeps the catalog valid |
| CatalogOps.ProductUpdateKeepsValid | My_first_store/supplier_api/views.py:142-148 | overwriting a product's name, category, price and quantity keeps the catalog valid |
| CatalogOps.FindValue | My_first_store/supplier_api/views.py:155-159 | the found value row is for the product and parameter; none means there is no such row |
| CatalogOps.SetValueOverwrites | My_first_store/supplier_api/views.py:155-159 | after `update_or_create` there is exactly one row for the pair and it holds the new value; other rows are unchanged |
| CatalogOps.KeepValueKeeps | My_first_store/core/management/commands/import_products.py:93-97 | after `get_or_create` an existing row for the pair is unchanged; only a missing one is inserted with the value |
| CatalogOps.SetValueKeepsValid | My_first_store/supplier_api/views.py:155-159 | the overwriting value write keeps the catalog valid |
| CatalogOps.KeepValueKeepsValid | My_first_store/core/management/commands/import_products.py:93-97 | the keeping value write keeps the catalog valid |
| SupplierApi.LoadCategories | My_first_store/supplier_api/views.py:47-65 | the category loop writes only categories, and returns only the id-not-an-integer refusal |
| SupplierApi.LoadParameters | My_first_store/supplier_api/views.py:68-72 | the parameter loop writes only parameters and keeps every recorded name |
| SupplierApi.LoadParametersCovers | My_first_store/supplier_api/views.py:68-72 | after the loop every parameter name of every good is recorded |
| SupplierApi.LoadParametersRows | My_first_store/supplier_api/views.py:68-72 | every recorded name maps to the row of that name, and existing rows are unchanged |
| SupplierApi.CheckGood | My_first_store/supplier_api/views.py:78-125 | a good is accepted exactly when its category is found, its quantity converts and is not negative, and its price is a non-negative number; the accepted fields are those values; the checks raise exactly for a missing category or quantity key, or a missing price key once the quantity passed |
| SupplierApi.LoadGoodsStep | My_first_store/supplier_api/views.py:77-159 | after an accepted good the loop continues from the state its writes leave |
| SupplierApi.UploadView | My_first_store/supplier_api/views.py:21-168 | the store method makes the writes of `Upload` and returns its response |
| SupplierApi.IngestTransaction | My_first_store/supplier_api/views.py:45-159 | the three store loops equal `Ingest`, with the start state restored on an exception |
| SupplierApi.CategoryLoop | My_first_store/supplier_api/views.py:47-65 | the store's category loop equals `LoadCategories` |
| SupplierApi.ParameterLoop | My_first_store/supplier_api/views.py:68-72 | the store's nested parameter loop equals `LoadParameters` |
| SupplierApi.GoodsLoop | My_first_store/supplier_api/views.py:75-159 | the store's goods loop, with its two counters, equals `LoadGoods` |
| SupplierApi.CheckGoodFields | My_first_store/supplier_api/views.py:78-125 | the checks of one good, in the handler's order, return `CheckGood` |
| SupplierApi.WriteValues | My_first_store/supplier_api/views.py:153-159 | the store's value loop equals `SetValues` |
| SupplierApi.Toggle | My_first_store/supplier_api/views.py:174-203 | 403 exactly without a profile, 400 exactly for a missing or null value, then exactly for a non-boolean; each refusal writes nothing; a success stores and echoes the boolean on the caller's profile only |
| SupplierApi.ToggleView | My_first_store/supplier_api/views.py:174-203 | the store method makes the writes of `Toggle` and returns its response |
| SupplierApi.SupplierOrders | My_first_store/supplier_api/views.py:207-225 | 403 exactly without a profile; otherwise each order holding a line of a product of the caller's supplier, once, in key order |
| SupplierProps.LoadCategoriesKeeps | My_first_store/supplier_api/views.py:47-65 | existing categories keep their names, names stay unique, and every new category comes from an entry under its name |
| SupplierProps.LoadCategoriesOutcome | My_first_store/supplier_api/views.py:47-65 | a completed loop knows exactly the converted ids and added exactly them; a refusal names an entry whose id does not convert |
| SupplierProps.LoadParametersKeepsValid | My_first_store/supplier_api/views.py:68-72 | the parameter loop keeps the catalog valid |
| SupplierProps.UpsertProductUpserts | My_first_store/supplier_api/views.py:129-151 | afterwards the row holds exactly the good's fields; it was created exactly when none was listed under that external id; other products unchanged |
| SupplierProps.UpsertProductKeepsValid | My_first_store/supplier_api/views.py:129-148 | the upsert keeps the catalog valid |
| SupplierProps.SetValuesKeeps | My_first_store/supplier_api/views.py:153-159 | value writes touch only the value table; no row goes away, and rows of other products or unnamed parameters are unchanged |
| SupplierProps.LastWriteHolds | My_first_store/supplier_api/views.py:153-159 | a value written first is kept by later writes to other parameters |
| SupplierProps.SetValuesSets | My_first_store/supplier_api/views.py:153-159 | after the writes, each entry not overwritten later holds `str(v)` |
| SupplierProps.SetValuesKeepProducts | My_first_store/supplier_api/views.py:153-159 | the value writes leave the product table as it was |
| SupplierProps.LoadGoodsKeepsPrices | My_first_store/supplier_api/views.py:110-151 | the goods loop writes only prices its checks accepted, so no price becomes negative |
| SupplierProps.IngestKeepsPrices | My_first_store/supplier_api/views.py:45-159 | the upload transaction keeps every product price non-negative, on every outcome |
| SupplierProps.UploadKeepsPrices | My_first_store/supplier_api/views.py:21-168 | every upload keeps the product model's non-negative price rule |
| SupplierProps.SetValuesKeepsValid | My_first_store/supplier_api/views.py:153-159 | the value writes keep the catalog valid |
| SupplierProps.AcceptKeepsReady | My_first_store/supplier_api/views.py:77-159 | an accepted good keeps the loop's preconditions, disturbs no other listing, and lists the good |
| SupplierProps.LoadGoodsKeepsValid | My_first_store/supplier_api/views.py:77-159 | the goods loop keeps the catalog valid, writes only products and values, and never drops a product or changes its listing |
| SupplierProps.LoadGoodsCounts | My_first_store/supplier_api/views.py:75-151 | a completed loop counts every good once, as created or updated |
| SupplierProps.LoadGoodsLists | My_first_store/supplier_api/views.py:129-148 | after a completed loop every good is listed under its external id for the supplier |
| SupplierProps.StopShift | My_first_store/supplier_api/views.py:77-125 | behind an accepted first good, the first stop of the rest is the first stop of the whole list |
| SupplierProps.LoadGoodsOutcome | My_first_store/supplier_api/views.py:77-125 | the loop completes exactly when every good passes; otherwise it stops at the first good that does not, with its refusal or exception |
| SupplierProps.LoadGoodsRefusal | My_first_store/supplier_api/views.py:77-125 | a refused good writes nothing, and the earlier goods keep their writes |
| SupplierProps.ProductsGrow | My_first_store/core/models.py:111 | growing the product table keeps order and basket lines resolving |
| SupplierProps.LoadCategoriesKeepsValid | My_first_store/supplier_api/views.py:47-65 | the category loop keeps the catalog valid |
| SupplierProps.PhasesReady | My_first_store/supplier_api/views.py:47-72 | after the category and parameter loops the catalog is ready for the goods loop |
| SupplierProps.IngestResponds | My_first_store/supplier_api/views.py:45-168 | the transaction never answers 403 or bad-format, and an exception leaves the database as it was |
| SupplierProps.UploadChecksCaller | My_first_store/supplier_api/views.py:26-42 | 403 exactly without a profile, then 400 exactly for a body that is not an object or has no goods; neither writes |
| SupplierProps.UploadKeepsValid | My_first_store/supplier_api/views.py:21-168 | every upload keeps the database constraints |
| SupplierProps.UploadCounts | My_first_store/supplier_api/views.py:161-168 | a successful upload reports every good once, as created or updated |
| SupplierProps.UploadLists | My_first_store/supplier_api/views.py:129-168 | after a successful upload every good is listed under its external id for the caller's profile |
| SupplierProps.IngestCommitsPrefix | My_first_store/supplier_api/views.py:45-125 | a refusal inside the transaction keeps the categories, the parameters and the writes of the earlier goods |
| SupplierProps.ToggleKeepsValid | My_first_store/supplier_api/views.py:198-199 | switching `accepts_orders` keeps the database constraints |
| ImportProducts.LowerChar | My_first_store/core/management/commands/import_products.py:25 | `lower()` on one character: the result is never a capital; A-Z and А-Я move up by 32 code points and Ё becomes ё, each a small letter of its alphabet; every other character is unchanged |
| ImportProducts.LowerCharInjective | My_first_store/core/management/commands/import_products.py:25 | two different capitals never lower to the same letter |
| ImportProducts.Lower | My_first_store/core/management/commands/import_products.py:25 | `lower()` keeps the length, leaves no capital, keeps every other character in place, and turns each capital into a small letter |
| ImportProducts.LowerIdempotent | My_first_store/core/management/commands/import_products.py:25 | lowering twice is lowering once |
| ImportProducts.FindUser | My_first_store/core/management/commands/import_products.py:22-29 | the found user has the username; none means no user has it |
| ImportProducts.SuppliersNamed | My_first_store/core/management/commands/import_products.py:41-47 | exactly the supplier profiles with that name |
| ImportProducts.ImportCategories | My_first_store/core/management/commands/import_products.py:52-57 | the category loop writes only categories |
| ImportProducts.ImportParameters | My_first_store/core/management/commands/import_products.py:60-64 | the parameter loop writes only parameters |
| ImportProducts.ImportParametersCovers | My_first_store/core/management/commands/import_products.py:60-64 | after the loop every parameter name of every good is recorded |
| ImportProducts.ImportGoodsStep | My_first_store/core/management/commands/import_products.py:67-97 | after an imported good the loop continues from the state its writes leave |
| ImportProducts.Handle | My_first_store/core/management/commands/import_products.py:18-99 | the store method equals `Import` |
| ImportProducts.CategoryLoop | My_first_store/core/management/commands/import_products.py:52-57 | the store's category loop equals `ImportCategories` |
| ImportProducts.ParameterLoop | My_first_store/core/management/commands/import_products.py:60-64 | the store's parameter loop equals `ImportParameters` |
| ImportProducts.GoodsLoop | My_first_store/core/management/commands/import_products.py:67-97 | the store's goods loop equals `ImportGoods` |
| ImportProducts.WriteValues | My_first_store/core/management/commands/import_products.py:91-97 | the store's value loop equals `KeepValues` |
| ImportProps.GetOrCreateUserSpec | My_first_store/core/management/commands/import_products.py:22-29 | an existing user is taken with nothing written; otherwise a supplier-type user with the lower-cased email is added, refused exactly when the email is taken |
| ImportProps.GetOrCreateUserKeepsValid | My_first_store/core/models.py:25-27 | getting or creating the user keeps the account constraints |
| ImportProps.GetOrCreateSupplierSpec | My_first_store/core/management/commands/import_products.py:41-47 | the one profile of that name is taken, even another user's; two raise; with none, a new accepting profile is added, refused exactly when the user already has one |
| ImportProps.GetOrCreateSupplierKeepsValid | My_first_store/core/models.py:33-34 | getting or creating the profile keeps the account constraints |
| ImportProps.ImportCategoriesKeeps | My_first_store/core/management/commands/import_products.py:52-57 | existing categories keep their names, names stay unique, new categories come from entries under their names |
| ImportProps.ImportCategoriesOutcome | My_first_store/core/management/commands/import_products.py:52-57 | a completed loop knows and added exactly the listed ids; a stop names a new id whose name is taken |
| ImportProps.ImportParametersKeepsValid | My_first_store/core/management/commands/import_products.py:60-64 | the parameter loop keeps the catalog valid |
| ImportProps.ImportParametersRows | My_first_store/core/management/commands/import_products.py:60-64 | every recorded name maps to the row of that name |
| ImportProps.OneParameterPerName | My_first_store/core/management/commands/import_products.py:60-64 | afterwards each parameter name of each good has exactly one row, the one recorded |
| ImportProps.ImportProductSpec | My_first_store/core/management/commands/import_products.py:68-87 | raises exactly for an unknown category or negative quantity; an existing product gets only price and quantity; a new one takes every field; other products unchanged |
| ImportProps.ImportProductKeepsValid | My_first_store/core/management/commands/import_products.py:68-87 | the product write keeps the catalog valid |
| ImportProps.ImportProductKeepsRows | My_first_store/core/management/commands/import_products.py:68-87 | the product write drops no product, keeps each listing and writes no value |
| ImportProps.KeepValuesKeeps | My_first_store/core/management/commands/import_products.py:91-97 | value `get_or_create` never changes an existing row, and afterwards every entry has a row |
| ImportProps.KeepValuesFills | My_first_store/core/management/commands/import_products.py:91-97 | each row the loop inserts is for the product and holds `str(v)` of the first entry naming its parameter |
| ImportProps.KeepValuesKeepsValid | My_first_store/core/management/commands/import_products.py:91-97 | the value writes keep the catalog valid |
| ImportProps.GoodKeepsReady | My_first_store/core/management/commands/import_products.py:67-97 | an imported good keeps the loop's preconditions and every earlier row |
| ImportProps.ImportGoodsKeepsValid | My_first_store/core/management/commands/import_products.py:67-97 | the goods loop keeps the catalog valid, writes only products and values, and never changes an earlier listing or value |
| ImportProps.ImportGoodsStopsAt | My_first_store/core/management/commands/import_products.py:67-97 | with no transaction, the first failing good ends the loop with the writes of the goods before it kept |
| ImportProps.ImportGoodsLists | My_first_store/core/management/commands/import_products.py:67-97 | after a completed goods loop every good is listed under its external id for the supplier |
| ImportProps.ImportStoresNegativePrice | My_first_store/core/management/commands/import_products.py:68-87 | an importable good with a negative price is stored with that price, so the product table breaks the non-negative price rule |
| ImportProps.ImportGoodsFinishes | My_first_store/core/management/commands/import_products.py:67-97 | the goods loop completes exactly when every good has a known category and a non-negative quantity |
| ImportProps.Grow | My_first_store/core/models.py:25-118 | growing users and products, with valid accounts and catalog, keeps the database valid |
| ImportProps.AccountsReady | My_first_store/core/management/commands/import_products.py:22-47 | after the two account steps the accounts are valid and only grew |
| ImportProps.LoopsKeepValid | My_first_store/core/management/commands/import_products.py:51-97 | the three catalog loops keep the catalog valid however far they get |
| ImportProps.ImportKeepsValid | My_first_store/core/management/commands/import_products.py:18-99 | the command keeps the database constraints however far it gets |
| ImportProps.LoopsKeepRows | My_first_store/core/management/commands/import_products.py:51-97 | the loops keep every existing category, listing and value |
| ImportProps.ImportAfterAccounts | My_first_store/core/management/commands/import_products.py:51-99 | past the account steps the command writes only the catalog |
| ImportProps.ImportKeepsAccounts | My_first_store/core/management/commands/import_products.py:18-99 | every existing user and profile is kept; orders, baskets and mail are untouched |
| ImportProps.ImportLists | My_first_store/core/management/commands/import_products.py:18-99 | after a completed import every good is listed under its external id for a supplier profile named after the shop |
| ImportProps.LoopsList | My_first_store/core/management/commands/import_products.py:51-97 | when the three catalog loops complete, every good is listed under its external id for the supplier |
| ImportProps.ImportKeepsCatalogRows | My_first_store/core/management/commands/import_products.py:18-99 | every existing category and value is kept, and every product keeps its listing |
| CoreViews.OwnOrders | My_first_store/core/views.py:68-70 | the user's orders in key order: only the user's, and all of them when keys are bounded |
| CoreViews.OwnProfile | My_first_store/core/views.py:78-80 | the user's own row or nothing, and the row whenever the user exists |
| CoreViews.OrdersPartitioned | My_first_store/core/views.py:68-70 | every order is listed for its own user and for no other |

## Left out

- Email delivery: a sent mail is an outbox record (recipient, order, code). The message text, template rendering and SMTP are not modelled.
- Random codes: the confirmation code is an input. `WellFormedCode` states what `random.choices(string.digits, k=6)` can produce.
- The clock: `timezone.now()` is the `now` input, in whole seconds.
- Concurrency, locking and database isolation are not modelled. A transaction is only its commit and rollback effect on one database value.
- Floating point: the upload's `float(price)` becomes either a whole number of cents or "not a number". Rounding, `inf`, `nan`, exponents and `max_digits=10` are not modelled.
- `int()` on strings covers an optional sign and decimal digits. Surrounding whitespace, underscores, non-ASCII digits and `int()` on floats are not modelled.
- Serializers, response bodies and the exact message texts are not modelled. A response is a datatype holding the values the message reports.
- Authentication, permissions, the generic CRUD viewsets, URLs and registration are not modelled. The authenticated user is an `Id` parameter.
- The password and `is_active` fields that the import sets are not modelled, and neither are the timestamps.
- Query order is modelled as ascending primary key.
- Basket, BasketItem and OrderConfirmationCode are not defined in the models file the model follows. Their shape comes from how the handlers use them.
- DeliveryAddress rows exist in the model only so that lookups can find them. Creating addresses is not part of this model.
- Nested payloads are modelled as typed values. The upload models a missing `category`, `quantity` or `price` key of a good. A missing `id`, `name` or `parameters` key, and a category entry without `name`, are not modelled.
- The quantity minimum of 1 (`MinValueValidator(1)`, core/models.py:110) runs only in forms. Neither the basket handlers nor checkout enforce it for basket or order lines, and the model does not either. `Orders.ZeroLineOrdered` shows a zero-quantity order line being stored. A negative basket line, which `add` also accepts, passes the stock check and ends checkout with the orphan order described by `Orders.CreateLineRejected`.
- The price minimum of 0 (`MinValueValidator(0)`, core/models.py:57) runs only in forms as well. `Database.Valid` does not include it. `SupplierProps.UploadKeepsPrices` proves that the upload keeps it, and `ImportProps.ImportStoresNegativePrice` shows that the import does not.
- ImportProducts.Lower: covers ASCII and the basic Cyrillic capitals (including Ё) only, not all of Unicode's case mapping.
- ImportProducts.Import: the price-list data is a typed input value. A missing key, a null category id and string category ids are not modelled.
- ImportProducts.Import: the stdout messages are not modelled.
- ImportProducts.Import: requires the parameter keys to be below their counter, which every valid database satisfies.
- The Bounded-keys premise: several contracts (such as `Database.BasketLines`, `CoreViews.OwnOrders` and `CatalogOps.FindProduct`) give completeness only when keys are below their counter. `Database.Valid` implies this premise, and every handler keeps `Valid`.
