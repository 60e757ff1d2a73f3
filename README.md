# Logistics dashboard backend, modelled in Dafny

This project models the server core of a small delivery business's admin
dashboard. The backend is a set of Convex queries and mutations over one
document store:

- orders, with their line items, payment and delivery status;
- the product catalogue and its stock;
- drivers and their cash-on-delivery wallets;
- delivery routes;
- customers and their saved addresses;
- settings, users;
- an append-only audit log.

The project also models two pieces of client logic from the route builder:
- the nearest-neighbour ordering of stops;
- dragging a stop to a new place in the stop list.

Layout:

- **The store.** `Domain.Db` is a class whose fields are the tables. Each
  table is a map keyed by its business id (`orderId`, `productId`, ...).
  The orders, products and drivers tables also keep their keys in creation
  order, which is the order a full table read returns them in. `Db.Valid()`
  ties each key sequence to its map.
- **Mutations.** Each mutation is a `method` on the store. A mutation that
  throws returns `Err` and leaves every table as it was, which is the
  all-or-nothing behaviour of a Convex mutation.
- **Specifications.** Each mutation's new state is stated against a pure
  function, such as `Orders.AdjustStock`, `Routes.Renumber`,
  `Dispatch.AssignAll` or `Users.Upserted`. Lemmas about that function
  state what the mutation promises: what it preserves, what it undoes, and
  what happens when it runs twice.
- **Queries.** Each query is a `method` that filters and, where the source
  sorts, sorts in place (`Common.SortInPlace`, a stable insertion sort on an
  array) and applies the limit. It is proved equal to a listing function. The listing
  function's lemma states what is listed, the order, and what the limit
  keeps.
- **Parameters.** The clock (`now`), the random audit-log ids and the fresh
  document ids are parameters.
- **Money.** Amounts are `real`.
- **Route builder.** The distance between two orders is a parameter of
  type `(Order, Order) -> real`. The source's haversine formula is not
  modelled.

## Model

| member | source | states |
|---|---|---|
| Orders.AdjustStock | website/convex/orders.ts:94-104 | the product table keeps exactly its keys: no product is added or dropped |
| Orders.AdjustStockAt | website/convex/orders.ts:94-104 | a product's stock moves by sign times the total quantity all lines ask of it; an absent product stays absent; only `updatedAt` changes besides |
| Orders.StockShortfallNone | website/convex/orders.ts:58-71 | the availability check passes iff every line names an existing product whose stock covers that line alone |
| Orders.CheckStock | website/convex/orders.ts:58-71 | the loop returns the error of the first failing line (product not found, or insufficient stock), or none |
| Orders.ApplyStock | website/convex/orders.ts:94-104 | the patch loop computes the cumulative stock adjustment |
| Orders.DuplicateLinesOversell | website/convex/orders.ts:58-104 | two lines for one product, each covered alone but not together, pass the check and drive the stock below zero |
| Orders.DistinctLinesKeepStock | website/convex/orders.ts:58-104 | with one line per product, a passed check keeps every non-negative stock non-negative |
| Orders.RestoreUndoesDeduct | website/convex/orders.ts:94-104 | restoring the items after deducting them gives every product its stock back |
| Orders.RestoreTwice | website/convex/orders.ts:255-282 | restoring the same items twice adds their quantities twice (restoration is not idempotent) |
| Orders.Placed | website/convex/orders.ts:47-90 | a COD order starts PENDING_DISPATCH with payment VERIFIED; a bank transfer starts PENDING_VERIFICATION with payment PENDING; the items, total and customer are kept |
| Orders.Create | website/convex/orders.ts:39-117 | on a failed check nothing is written; otherwise the order is inserted, the stock deducted, and ORDER_STATUS_CHANGED logged by `system` with the initial status and payment method |
| Orders.Credit | website/convex/orders.ts:294-297 | only the named driver's wallet changes, by exactly the amount |
| Orders.UpdateStatus | website/convex/orders.ts:244-320 | missing order or missing driver on COD delivery are errors with no change; FAILED, RETURNED and CANCELLED restore stock; COD delivery credits the driver; the transition is logged |
| Orders.Cancel | website/convex/orders.ts:353-407 | only a PENDING_VERIFICATION, PENDING_DISPATCH or PROCESSING order is cancelled; the stock is restored, the reason kept, and ORDER_CANCELLED logged |
| Orders.MarkFailed | website/convex/orders.ts:419-459 | any existing order becomes FAILED with the reason and its stock is restored; only the status change and reason are logged |
| Orders.MarkReturned | website/convex/orders.ts:471-511 | any existing order becomes RETURNED with the reason and its stock is restored; only the status change and reason are logged |
| Orders.ListingSpec | website/convex/orders.ts:145-209 | every listed order matches all filters; the list is newest first; a positive limit keeps that many; without a limit nothing matching is left out |
| Orders.IndexThenFilters | website/convex/orders.ts:148-198 | reading through the chosen index then applying the other filters selects exactly the matching orders |
| Orders.ScanIndex | website/convex/orders.ts:146-177 | the index read yields the orders meeting the index's condition, in table order |
| Orders.PostFilters | website/convex/orders.ts:181-198 | the remaining filters keep exactly the orders matching the whole query |
| Orders.SortAndLimit | website/convex/orders.ts:200-208 | newest first, stable, then cut to a non-zero limit |
| Orders.GetAll | website/convex/orders.ts:145-209 | the query returns the listing function's result |
| Routes.Renumber | website/convex/routes.ts:145-155 | the orders table keeps exactly its keys: no order is added or dropped |
| Routes.RenumberAt | website/convex/routes.ts:219-228 | each listed order carries the stop number of its last occurrence; other orders are untouched |
| Routes.RenumberDistinct | website/convex/routes.ts:145-155 | with no repeated id, the order at index i is stop i + 1 |
| Routes.ApplyStops | website/convex/routes.ts:145-155 | the numbering loop computes the renumbered table |
| Routes.DuplicateReportedMissing | website/convex/routes.ts:102-110 | a repeated id fails the count check although every id exists, and the error lists no missing id |
| Routes.RestopPasses | website/convex/routes.ts:113-132 | an ASSIGNED order of the driver already placed in another route passes the checks and is renumbered |
| Routes.ManifestTable | website/convex/routes.ts:145-155 | each order of the manifest gets route position, driver and update time; others are untouched |
| Routes.CreateManifest | website/convex/routes.ts:88-171 | driver missing or off duty, unresolved ids, or a failing order are errors with no change; otherwise a DRAFT route is stored, the orders numbered, and ROUTE_CREATED logged |
| Routes.SameStopsSpec | website/convex/routes.ts:195-209 | the reordering check passes iff the new sequence holds the same set of ids as the old one |
| Routes.RepositionTable | website/convex/routes.ts:219-228 | each re-sequenced order takes the stop number of its last occurrence; the others are unchanged |
| Routes.OptimizeRoute | website/convex/routes.ts:183-241 | only an existing DRAFT route with the same ids is re-sequenced; the orders are renumbered and ROUTE_OPTIMIZED logged |
| Routes.Activation | website/convex/routes.ts:260-269 | a DRAFT route becomes ACTIVE, stamped with its start time; any other status is refused |
| Routes.Lifecycle | website/convex/routes.ts:247-346 | a route activates at most once and never after completion; completion keeps its stops |
| Routes.Activate | website/convex/routes.ts:252-272 | a missing or non-draft route is an error with no change; otherwise the route is activated |
| Routes.Complete | website/convex/routes.ts:332-346 | an existing route becomes COMPLETED, stamped; a missing route is an error |
| Routes.Resolve | website/convex/routes.ts:295-302 | the route's ids that have an order, looked up in sequence order |
| Routes.ProgressSpec | website/convex/routes.ts:304-319 | only the current stop changes, only from ASSIGNED to EN_ROUTE, and a repeat changes nothing |
| Routes.UpdateProgress | website/convex/routes.ts:283-322 | a missing route or an unresolved id is an error; otherwise only the current stop's order changes, from ASSIGNED to EN_ROUTE; the route itself is not written |
| Routes.GetDriverAssignedOrders | website/convex/routes.ts:61-74 | exactly the driver's ASSIGNED orders without a route position, in creation order |
| Dispatch.BatchResolves | website/convex/dispatch.ts:96-101 | the batch resolves to as many orders as ids iff no id repeats and every id exists |
| Dispatch.BatchCovers | website/convex/dispatch.ts:96-97 | the resolved batch holds exactly the orders the ids name |
| Dispatch.AssignmentLogs | website/convex/dispatch.ts:137-147 | exactly one log entry per order of the batch |
| Dispatch.AssignAllAt | website/convex/dispatch.ts:130-134 | every batch order becomes ASSIGNED to the driver, stamped; other orders are untouched |
| Dispatch.StageAssignments | website/convex/dispatch.ts:106-148 | the loop stops at the first failing order; otherwise every batch order is assigned and logged |
| Dispatch.AssignOrdersToDriver | website/convex/dispatch.ts:82-151 | driver missing or off duty, unresolved ids, or a failing order are errors with no change; otherwise the batch is assigned and its size returned |
| Dispatch.AwaitingDriverMembers | website/convex/dispatch.ts:231-245 | the selection holds exactly the PENDING_DISPATCH orders and the PROCESSING orders without a driver |
| Dispatch.UnassignedListingSpec | website/convex/dispatch.ts:230-251 | oldest first, and exactly the selected orders |
| Dispatch.GetUnassignedOrders | website/convex/dispatch.ts:230-251 | the query returns the listing function's result |
| Dispatch.GroupedSpec | website/convex/dispatch.ts:186-221 | one group per driver, named after the driver, holding exactly that driver's orders in their order; every order with a driver is grouped |
| Dispatch.GroupByDriver | website/convex/dispatch.ts:204-219 | the grouping loop computes the grouping function |
| Dispatch.GetAssignedOrders | website/convex/dispatch.ts:161-223 | with a driver id: that driver's ASSIGNED orders as one group, or none; without: all ASSIGNED orders with a driver, grouped |
| Domain.FirstErrorNone | website/convex/orders.ts:58-71 | a loop that throws at the first failure throws nothing iff every element passes |
| Domain.FirstErrorIsFirst | website/convex/dispatch.ts:106-128 | the error thrown is that of an element all of whose predecessors pass |
| Domain.FindFirstError | website/convex/routes.ts:113-132 | the checking loop throws the first failing element's error |
| Drivers.Create | website/convex/drivers.ts:69-100 | a taken driver id or Clerk id is an error; a new driver starts off duty with an empty wallet |
| Drivers.Update | website/convex/drivers.ts:112-126 | only name and phone change; a missing driver is an error |
| Drivers.UpdateDutyStatus | website/convex/drivers.ts:137-150 | only the on-duty flag changes |
| Drivers.UpdateLocation | website/convex/drivers.ts:165-185 | only the position and its time change |
| Drivers.Settle | website/convex/drivers.ts:238-243 | the new balance is the old one less the settled amount, or a refusal when that would be negative |
| Drivers.SettleSpec | website/convex/drivers.ts:238-243 | no amount or 0 empties the wallet; an amount up to the balance is taken off; a larger one is refused |
| Drivers.SettleWallet | website/convex/drivers.ts:230-262 | debits the wallet, logs DRIVER_SETTLED with amount and previous balance, returns the new balance |
| Drivers.SettlementsOf | website/convex/drivers.ts:196-204 | the settlement logs of a driver are exactly its DRIVER_SETTLED logs |
| Drivers.LastSettlementSpec | website/convex/drivers.ts:201-209 | last settlement is absent iff never settled, otherwise the newest such log's time |
| Drivers.Wallets | website/convex/drivers.ts:192-218 | one wallet row per driver, in creation order, with balance and last settlement |
| Products.Create | website/convex/products.ts:83-119 | a taken SKU is an error; otherwise the product is added and PRODUCT_CREATED logged |
| Products.Patched | website/convex/products.ts:143-153 | each supplied field is replaced, every other kept, and the product stamped |
| Products.PatchedSpec | website/convex/products.ts:143-153 | an empty patch only stamps; patching twice equals patching once |
| Products.Update | website/convex/products.ts:135-166 | a missing product is an error; otherwise the patch is applied and logged |
| Products.Remove | website/convex/products.ts:177-188 | the product leaves the table and the catalogue order |
| Products.RestoreAfterRemove | website/convex/orders.ts:262-271 | restoring stock after a product's removal skips it and does the same to every other product |
| Products.Restock | website/convex/products.ts:201-231 | stock moves by exactly the quantity; the new level is logged and returned |
| Products.GetLowStock | website/convex/products.ts:62-66 | exactly the products below the threshold, which is 10 when absent or 0, in creation order |
| Products.ShelfMembers | website/convex/products.ts:13-22 | the shelf holds exactly the products of the category, or all when none is given |
| Products.GetAll | website/convex/products.ts:12-30 | the result is exactly the category shelf cut to the limit: a positive limit keeps the first min(limit, shelf size) products, no limit or a zero limit keeps them all |
| Payments.ReviewError | website/convex/payments.ts:30-43 | the check passes iff the order exists and its payment may still be reviewed |
| Payments.ApprovePayment | website/convex/payments.ts:29-67 | a refused check changes nothing; otherwise the payment is VERIFIED, the order PROCESSING, and the approval logged |
| Payments.RejectPayment | website/convex/payments.ts:79-128 | a refused check changes nothing; otherwise the payment is REJECTED, the stock restored, and the rejection logged |
| Payments.ReviewedOnce | website/convex/payments.ts:37-39 | after either review neither check passes again |
| Payments.RejectThenCancel | website/convex/payments.ts:97-115 | a rejected order can still be cancelled, which restores its items a second time |
| Payments.GetPendingVerifications | website/convex/payments.ts:8-18 | exactly the bank-transfer orders whose payment is pending, in table order |
| Payments.ReviewHistorySpec | website/convex/payments.ts:138-155 | reviews only, newest first, none older than one left out; 50 by default, otherwise the limit |
| Payments.ReviewsMerged | website/convex/payments.ts:141-151 | approvals together with rejections are exactly the review logs |
| Payments.GetVerificationHistory | website/convex/auditLogs.ts:93-111 | the query returns the review-history function's result; the payments copy of this query at payments.ts:138-155 is the same |
| Customers.Create | website/convex/customers.ts:48-59 | a new customer with no saved addresses is added |
| Customers.WithAddress | website/convex/customers.ts:144-160 | the new address is appended; a new default clears every earlier default flag |
| Customers.WithAddressDefault | website/convex/customers.ts:150-156 | adding keeps at most one default address |
| Customers.AddAddress | website/convex/customers.ts:136-163 | a missing customer is an error; otherwise the list is replaced |
| Customers.WithUpdate | website/convex/customers.ts:196-208 | the matching entries are merged with the patch; setting the default clears every other flag |
| Customers.WithUpdateDefault | website/convex/customers.ts:196-208 | with unique address ids an update keeps at most one default |
| Customers.UpdateAddress | website/convex/customers.ts:188-215 | a missing customer is an error; otherwise the list is replaced |
| Customers.WithoutAddress | website/convex/customers.ts:234-236 | the entries with the id are gone, the others kept in order |
| Customers.KeptAddresses | website/convex/customers.ts:234-236 | deleting keeps exactly the entries with other ids, and an absent id changes nothing |
| Customers.WithoutAddressDefault | website/convex/customers.ts:234-236 | deleting keeps at most one default |
| Customers.DeleteAddress | website/convex/customers.ts:226-243 | a missing customer is an error; otherwise the list is replaced |
| Customers.Trim | website/convex/customers.ts:82-85 | the result is a slice of the input with only blanks before and after it, with no blank at either end; it is empty exactly when the input is all blanks |
| Customers.DerivedName | website/convex/customers.ts:80-89 | when the joined names hold a non-blank, the result is the joined names with the surrounding blanks removed; otherwise it is "Unknown Customer"; never empty |
| Customers.DerivedNameSpec | website/convex/customers.ts:80-89 | names without surrounding blanks are joined with one space; a first name alone is kept as is; no names give "Unknown Customer" |
| Customers.TrimUnpadded | website/convex/customers.ts:82-85 | a non-empty string with no blank at either end trims to itself |
| Customers.DerivedNamePadded | website/convex/customers.ts:80-89 | a name padded with one blank on each side gives the name without the blanks |
| Customers.DerivedNameBlank | website/convex/customers.ts:80-89 | a name of blanks only gives "Unknown Customer" |
| Customers.NormalisedSpec | website/convex/customers.ts:72-99 | every normalised field is present; present fields are kept; a document needing no patch is unchanged |
| Customers.RerunPatchesEmptyPhones | website/convex/customers.ts:91-105 | a second run patches a normalised document again iff its phone is empty |
| Customers.PendingPatches | website/convex/customers.ts:101-105 | at most the number of documents, and zero iff no document needs a patch |
| Customers.PatchIfNeeded | website/convex/customers.ts:72-105 | a document is replaced by its normalised form when, and only when, it needs a patch |
| Customers.MigrateExistingCustomers | website/convex/customers.ts:67-113 | every document becomes its normalised form; migrated counts those that needed it; total is the count |
| Settings.Get | website/convex/settings.ts:9-14 | the entry under the key, if any |
| Settings.Set | website/convex/settings.ts:35-61 | the key holds the value, time and author; the flag tells whether an entry was replaced |
| Settings.SetThenGet | website/convex/settings.ts:35-61 | after set, get returns what was set, and other keys read as before |
| Settings.Remove | website/convex/settings.ts:69-81 | the entry is gone, or its absence is reported |
| Settings.WithDefaults | website/convex/settings.ts:91-145 | the three default keys are present, existing entries untouched, nothing else changed |
| Settings.WithDefaultsIdempotent | website/convex/settings.ts:95-142 | running the initialisation again changes nothing |
| Settings.InitializeDefaults | website/convex/settings.ts:91-145 | the table becomes the defaults function's result |
| Users.GetUserByClerkId | website/convex/users.ts:25-32 | the record of the Clerk account, or none when there is none |
| Users.Upserted | website/convex/users.ts:55-88 | the account's record shows the profile; an existing record keeps id and creation time, otherwise one is added; the rest is untouched |
| Users.UpsertTwice | website/convex/users.ts:55-88 | a second upsert adds no record |
| Users.UpsertUser | website/convex/users.ts:55-88 | the table becomes the upsert function's result; the new record's id is returned after an insert, nothing after a patch |
| Users.UpdateLastSignIn | website/convex/users.ts:94-106 | the account's record is stamped; an unknown account changes nothing |
| Users.DeleteUser | website/convex/users.ts:112-114 | the record with the document id is removed |
| Users.WithoutClerk | website/convex/users.ts:120-129 | the table loses exactly the account's records |
| Users.DeleteUserByClerkId | website/convex/users.ts:120-129 | removes the account's record; an unknown account changes nothing |
| AuditLogs.ByTimestamp | website/convex/auditLogs.ts:47-50 | the index read is a permutation of the logs, oldest first |
| AuditLogs.SelectedPasses | website/convex/auditLogs.ts:31-51 | the index read holds exactly the logs passing the first supplied filter |
| AuditLogs.ListingSpec | website/convex/auditLogs.ts:28-65 | passing logs only, newest first, none older than one left out; no limit keeps all, a positive one that many |
| AuditLogs.Precedence | website/convex/auditLogs.ts:31-51 | only the first supplied filter among admin, target and action matters |
| AuditLogs.GetAll | website/convex/auditLogs.ts:28-65 | the query returns the listing function's result |
| AuditLogs.RecentSpec | website/convex/auditLogs.ts:73-83 | the newest logs first, ten by default or fewer when there are fewer |
| AuditLogs.GetRecent | website/convex/auditLogs.ts:73-83 | the query returns the recent-logs function's result |
| Finance.SettlementHistorySpec | website/convex/finance.ts:12-35 | the driver's DRIVER_SETTLED logs only, newest first, none older than one left out; no limit keeps all, a positive one that many |
| Finance.GetSettlementHistory | website/convex/finance.ts:12-35 | the query returns the settlement-history function's result |
| Inventory.StockHistorySpec | website/convex/inventory.ts:12-35 | the product's STOCK_RESTOCKED logs only, newest first, none older than one left out; no limit keeps all, a positive one that many |
| Inventory.RestorationsHidden | website/convex/inventory.ts:12-35 | stock put back by cancellation or return is logged under the order id and never shows in a product's history |
| Inventory.GetStockHistory | website/convex/inventory.ts:12-35 | the query returns the stock-history function's result |
| Migrations.Succeeded | website/convex/migrations.ts:46-50 | at most the number of documents are migrated |
| Migrations.Failed | website/convex/migrations.ts:51-54 | at most the number of documents fail |
| Migrations.OutcomesSplit | website/convex/migrations.ts:15-55 | every document needing a patch is counted once, as migrated or as an error; with no failure all are migrated |
| Migrations.OutcomeStep | website/convex/migrations.ts:46-54 | one document adds to exactly the count its outcome names |
| Migrations.TryPatch | website/convex/migrations.ts:16-54 | a document needing a patch is normalised unless the patch fails, which leaves it as it was |
| Migrations.MigrateCustomers | website/convex/migrations.ts:10-63 | migrated plus errors equals the documents needing a patch; failed documents keep their fields; total is the count |
| StopList.IndexOf | website/components/routes/StopList.tsx:56-57 | the first position of the id, or -1 exactly when it is absent |
| StopList.Moved | website/components/routes/StopList.tsx:60-62 | the dragged element lands at the target index; elements between shift by one; the rest stay |
| StopList.MovedSpec | website/components/routes/StopList.tsx:60-62 | the move is a permutation that keeps the others' relative order; a move onto itself changes nothing |
| StopList.MovedKeepsOthers | website/components/routes/StopList.tsx:60-62 | removing the moved element from the result gives the input without it |
| StopList.MovedPermutes | website/components/routes/StopList.tsx:60-62 | the result is a permutation of the input |
| StopList.MovedPointwise | website/components/routes/StopList.tsx:60-62 | a sequence meeting the pointwise description is the move |
| StopList.ShiftLeft | website/components/routes/StopList.tsx:61 | the elements after the removed one move left by one, in place |
| StopList.ShiftRight | website/components/routes/StopList.tsx:62 | the elements from the target onward move right by one, in place |
| StopList.MoveInPlace | website/components/routes/StopList.tsx:60-62 | the array after the two splices holds the move of its old contents |
| StopList.DragResultSpec | website/components/routes/StopList.tsx:52-65 | a new sequence is handed on iff both ids differ and are present; it is a permutation with the dragged id at the target's position |
| StopList.HandleDragEnd | website/components/routes/StopList.tsx:52-65 | the handler hands on the drag result |
| StopList.Find | website/components/routes/StopList.tsx:68 | the first order with the id, or none exactly when no order has it |
| StopList.OrderedOrdersSpec | website/components/routes/StopList.tsx:67-69 | the shown orders follow the sequence, dropping ids without an order, each the first order with its id |
| RouteBuilder.OrderMap | website/components/routes/RouteBuilder.tsx:211 | the map's keys are exactly the orders' ids, each mapped to an order with that id |
| RouteBuilder.Dedup | website/components/routes/RouteBuilder.tsx:213 | duplicate-free, holding exactly the sequence's ids |
| RouteBuilder.DedupDistinct | website/components/routes/RouteBuilder.tsx:213 | a duplicate-free sequence is its own set order |
| RouteBuilder.RemoveShrinks | website/components/routes/RouteBuilder.tsx:247 | deleting a present id shrinks the remaining set |
| RouteBuilder.Nearest | website/components/routes/RouteBuilder.tsx:225-243 | the candidate found has an order and is among the remaining ids |
| RouteBuilder.NearestSpec | website/components/routes/RouteBuilder.tsx:225-243 | none iff no remaining id has an order; otherwise none is nearer and every earlier one is strictly farther |
| RouteBuilder.TourGreedy | website/components/routes/RouteBuilder.tsx:221-252 | every appended stop is unvisited and nearest to the stop before it |
| RouteBuilder.TourDistinct | website/components/routes/RouteBuilder.tsx:221-252 | the loop appends no id twice and only remaining ids |
| RouteBuilder.TourCovers | website/components/routes/RouteBuilder.tsx:221-252 | when every id has an order and is non-empty, the loop visits every remaining id |
| RouteBuilder.OptimizeVisitsOnce | website/components/routes/RouteBuilder.tsx:211-254 | with orders present the result starts with the first id, repeats none, and holds only sequence ids |
| RouteBuilder.OptimizeCovers | website/components/routes/RouteBuilder.tsx:211-254 | a distinct sequence of non-empty ids with orders comes back reordered, none lost |
| RouteBuilder.OptimizeSpec | website/components/routes/RouteBuilder.tsx:203-255 | no orders returns the sequence; otherwise a duplicate-free tour led by the first id, covering all ids when they are distinct, non-empty and have orders |
| RouteBuilder.OptimizeRouteLocally | website/components/routes/RouteBuilder.tsx:203-255 | the function resolves to the optimisation function's result |
| RouteBuilder.VisitNearest | website/components/routes/RouteBuilder.tsx:221-252 | the while loop appends exactly the tour |
| RouteBuilder.NextStop | website/components/routes/RouteBuilder.tsx:222-251 | one loop turn: the nearest id, which the tour appends next, or none when the tour ends |
| RouteBuilder.FindNearest | website/components/routes/RouteBuilder.tsx:225-243 | the inner loop finds the nearest id with a strict comparison |
| Common.Take | website/convex/finance.ts:30-32 | the slice is a prefix, of length min(n, len) for non-negative n |
| Common.ApplyLimit | website/convex/finance.ts:29-34 | a prefix; an absent or zero limit keeps everything, a positive one keeps that many |
| Common.Filter | website/convex/finance.ts:22-24 | the kept elements satisfy the predicate, and every satisfying element is kept |
| Common.SortDescCorrect | website/convex/finance.ts:27 | the sorted list is newest first and a permutation of the input |
| Common.SortInPlace | website/convex/finance.ts:27 | the in-place sort leaves the array holding the stable newest-first sort |
| Common.SortedCopy | website/convex/inventory.ts:26-27 | the sorted copy is newest first and a permutation |
| Common.LimitedNewest | website/convex/orders.ts:200-208 | sort then limit keeps the newest, none older than one left out |

## Left out

- Text search and lookups by secondary key are not modelled: orders, products and customers search, `getById`, `getBySku`, `getByClerkId`, and the paginated user listing. Each is a single index read with nothing to prove beyond it.
- The remaining plain table reads are not modelled: routes `getAll` and `getActive`, `getWarehouseLocation`, settings `getAll` and customers `getAll`.
- `getAvailableDrivers` and the dispatch distance helper are not modelled. The haversine formula is floating-point arithmetic; in the route builder the distance is a parameter.
- The dashboard statistics, the Clerk webhook handler and the Google Maps routing endpoints are not modelled. They are I/O against external services.
- Mutations do not return Convex `_id` values. Documents are identified by their business ids.
- An insert under a business id that is already taken is modelled as the older record shadowing the new one, because every lookup by id finds the first. The shadowed second document is not represented.
- `Object.values` key order in the status counters is not modelled.
- Dispatch.GetAssignedOrders: the groups come in the order their drivers are first met. JavaScript's `Object.values` lists integer-like keys first, so driver ids that look like integers would be listed in a different order.
- Amounts are `real`. Floating-point rounding is not modelled.
- Routes.UpdateProgress: the stop index is an `int`. A non-integer index, which the source would read as a missing element, is not modelled.
- Migrations.MigrateCustomers: works on an array of documents. Whether a patch fails is a parameter, since the storage errors it catches are outside the model.
- Products.Update: the source reads the clock twice (`updatedAt` and the log time). The model uses one `now` for both.
- Users.UpdateLastSignIn: the source reads the clock twice. The model uses one `now`.
- Users.DeleteUser: deleting a document id that does not exist is modelled as a no-op rather than a storage error.
- Users.UpdateLastSignIn: requires `UniqueClerks`, the invariant `upsertUser` keeps, because the source patches only the first record of an account.
- Users.DeleteUserByClerkId: requires `UniqueClerks` for the same reason.
- Users.UpsertUser: requires `UniqueClerks`. It holds because `upsertUser` is the only mutation that inserts users, and it inserts only for an account that has no record.
- Products.GetLowStock, Products.GetAll, Products.Restock and the log queries: `threshold`, `limit` and `quantity` are `int`. In the source they are JavaScript numbers, which may be fractional.
- Customers.Trim: removes ASCII whitespace only. `String.prototype.trim` also removes Unicode spaces.
- The users table is keyed by document id, because `deleteUser` takes the document id.
- RouteBuilder.OptimizeRouteLocally: requires a non-empty sequence when there are orders. Unguarded, the source would push `undefined`; its only caller returns early on an empty sequence (RouteBuilder.tsx:43).
- RouteBuilder.Optimize: the same precondition as `OptimizeRouteLocally`, for the same reason.
- Random audit-log ids, random `customer_` ids and the clock are parameters.
- The React rendering of the stop list and route builder is not modelled. Only the drag handler, the ordered-orders computation and `optimizeRouteLocally` are.
