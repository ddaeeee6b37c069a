# PC-Shop core in Dafny

This project models the core of the PC-Shop storefront and proves properties of the model. PC-Shop is an Express and MySQL back end with a React front end. The model covers:

- the order engine: the line-item codec, the stock check, the receive transitions, the order queries and the monthly sales report;
- the cart and catalog tables;
- accounts: signup, signin and blocking;
- the homepage slides;
- the client-side checks that run before an order is posted.

The MySQL schema is one object, `Schema.Database`. It holds every table as a sequence of rows and every AUTO_INCREMENT counter as an integer. It also keeps a log of the statements the order engine sends over its single connection. The table constraints of `backend/config/db.js` are carried as invariants, one ghost predicate per table:

- primary keys;
- the unique email;
- the unique (user, product) cart pair;
- the foreign keys.

Model methods update the fields they name, and nothing else. Each one is proved against a pure function of the old tables. The lemmas then state what the source promises about that function. Money columns are `DECIMAL(10,2)` and are held as integer cents.

Several inputs of the source are outside the model, so they are parameters:

- **Store failures.** Each becomes an oracle input, such as the set of line items whose stock update fails, a failing lookup, or a failing flag write. A write the store refuses returns a `Schema.WriteError`, and then changes nothing. MySQL is taken to run in strict mode. A refusal is a NULL in a NOT NULL column, a string longer than its VARCHAR width, a number outside its INT, TINYINT or DECIMAL(10,2) column, a string an integer column cannot read, a taken unique key, a missing foreign-key parent, or a store failure. An `UPDATE ... WHERE id = ?` checks its values only against a row it writes, so when no row has that id nothing is refused and 0 rows are affected.
- **bcrypt and jsonwebtoken.** These become function parameters: `hash`, `matches` and `sign`.
- **The random fraction behind an order id.** It is a parameter too: a sequence of base-36 digits.
- **The `/api/auth/me` reply used by the checkout pages.** This becomes the `MeReply` value.

The model reproduces several behaviours of the source as written:

- A title that matches no product changes no stock.
- Stock can go below zero, and a duplicate title decrements twice. A decrement that would take a stock outside INT is refused like a failed one.
- `parseOrderItems` never returns an empty list.
- The "already received" guard of `updateOrderStatus` reads a column that its SELECT does not fetch, so the guard never fires and a second call decrements again (`OrderModel.AlreadyReceivedGuardNeverFires`, `OrderModel.RepeatedReceiveDecrementsTwice`).
- The client stock check compares against `availableQuantity`. Neither the cart rows of `getCartItems` (`backend/models/Cart.js:6-13`) nor the single item of the product page include that field. JavaScript's `quantity > undefined` is false, so for those items the check never blocks.

Modules follow the source files:

| module | source |
|---|---|
| `Common` | JavaScript string, number and array built-ins used by the core |
| `Schema` | `backend/config/db.js` tables |
| `LineItems` | `generateOrderId`, `createOrder`'s join, `parseOrderItems` |
| `OrderModel` | `backend/models/Order.js` |
| `OrderController` | `backend/controllers/orderController.js` |
| `SalesReport` | `getMonthlySalesReport` |
| `CartModel` | `backend/models/Cart.js` |
| `ProductModel` | `backend/models/Product.js` |
| `UserModel` | `backend/models/User.js` |
| `Auth` | `backend/controllers/authController.js` |
| `SlideModel` | `backend/models/Slide.js` |
| `SlideController` | `backend/controllers/slideController.js` |
| `Checkout` | `frontend/src/Pages/Checkout.jsx` |
| `Payment` | `frontend/src/Pages/Payment.jsx` |

## Model

| member | source | states |
|---|---|---|
| Common.Trim | backend/models/Order.js:70 | `String.prototype.trim`: the result has no leading or trailing JavaScript white space |
| Common.TrimPadded | backend/models/Order.js:70 | trimming white-space padding in front of a string without outer space returns that string |
| Common.Split | backend/models/Order.js:70 | `split(',')`: at least one piece, and no piece contains the separator |
| Common.SplitJoinPieces | backend/models/Order.js:16-22 | splitting a list joined with a separator followed by a tail gives one piece per element, each element prefixed by the tail except the first |
| Common.IntToDecimal | backend/models/Order.js:17-22 | how `join` writes an integer: digits only for non-negative values, a '-' and digits otherwise |
| Common.DecimalValue | backend/models/Order.js:71 | the digits written for n read back as n |
| Common.DigitPrefix | backend/models/Order.js:71 | the longest prefix of digits: all digits, followed by a non-digit or the end |
| Common.ParseIntOfDecimal | backend/models/Order.js:71 | `parseInt(s, 10)` of the decimal text of any integer is that integer |
| Common.FilterMembers | backend/models/Order.js:47-66 | `Array.prototype.filter` and a SQL `WHERE` keep exactly the elements that satisfy the predicate |
| Common.FilterSubsequence | backend/models/Order.js:47-66 | a filtered sequence is a subsequence of its input, in input order |
| Schema.Database.constructor | backend/config/db.js:29-98 | an empty schema: every table empty, every counter at 1, and every table invariant established |
| LineItems.Base36Upper | backend/models/Order.js:5 | `toString(36)` followed by `toUpperCase()` sends each base-36 digit to a character in 0-9 or A-Z |
| LineItems.GenerateOrderId | backend/models/Order.js:4-6 | the id has min(6, number of digits) characters, each in 0-9 or A-Z |
| LineItems.Base36Injective | backend/models/Order.js:5 | distinct digits give distinct characters |
| LineItems.OrderIdCollision | backend/models/Order.js:4-6 | two ids are equal exactly when the first six random digits agree; nothing else prevents a collision |
| LineItems.ParseOrderItems | backend/models/Order.js:69-77 | `parseOrderItems` never returns an empty list |
| LineItems.EncodeTitles | backend/models/Order.js:16-18 | an empty title list is stored as the empty string, and a single title as itself |
| LineItems.EncodeQuantities | backend/models/Order.js:20-22 | an empty quantity list is stored as the empty string, and a single quantity as its own text |
| LineItems.ItemCount | backend/models/Order.js:69-77 | there is one item more than there are commas in the title column, whatever the quantity column holds |
| LineItems.DecimalHasNoComma | backend/models/Order.js:20-22 | a written quantity contains no comma and no outer space |
| LineItems.TitlesRoundTrip | backend/models/Order.js:16-18 | the title column splits into as many pieces as there were titles, and piece k trims to title k |
| LineItems.QuantitiesRoundTrip | backend/models/Order.js:20-22 | the quantity column splits into one piece per quantity, and piece k reads back as quantity k |
| LineItems.QuantityPieceReads | backend/models/Order.js:71-75 | a piece written after ", " parses back to its integer through trim, `parseInt` and `|| 0` |
| LineItems.TitlesColumn | backend/models/Order.js:16-18 | the pieces of the title column are the titles, each after the first preceded by one space |
| LineItems.QuantitiesColumn | backend/models/Order.js:20-22 | the pieces of the quantity column are the quantity texts, with the same spacing, and text k is the decimal of quantity k |
| LineItems.RoundTrip | backend/models/Order.js:16-22 | for titles without commas or outer space, and integer quantities, parsing the two columns `createOrder` writes returns the original (title, quantity) pairs in order |
| LineItems.ParseFromPieces | backend/models/Order.js:69-77 | `parseOrderItems` pairs trimmed title piece k with the quantity read at position k |
| OrderModel.ColumnValue | backend/models/Order.js:119 | for a boolean or a number, the value the BOOLEAN column gets is non-zero exactly when the JavaScript value is truthy; a string gets the integer it spells, and none when it is not an integer text |
| OrderModel.TextColumnValue | backend/models/Order.js:119 | a string is read as an integer exactly when it is an optional sign followed by decimal digits |
| OrderModel.TextColumnOfDecimal | backend/models/Order.js:119 | the decimal text of any integer reads back as that integer |
| OrderModel.StringFlagExamples | backend/models/Order.js:95 | "0" is truthy yet stores 0; "yes" is truthy and cannot be stored |
| OrderModel.ErrorMessage | backend/models/Order.js:85-92 | every error except a driver error has its own fixed message, "Order not found" or the failed-titles message |
| OrderModel.FindOrder | backend/models/Order.js:82-92 | the lookup by id finds the first row with that id, or reports that no row has it |
| OrderModel.DecrementStatements | backend/models/Order.js:103-107 | one `availableQuantity - ?` statement per item, in item order, with that item's title and quantity |
| OrderModel.StockAfterAt | backend/models/Order.js:103-113 | after the decrements, each product's stock is its old stock minus the sum of the quantities of the non-failing items with its exact title; every other column is unchanged |
| OrderModel.UnnamedTitleUntouched | backend/models/Order.js:105 | a title named by no item is decremented by 0 |
| OrderModel.AllFailingLeavesStock | backend/models/Order.js:107-113 | when every decrement fails, the products table is unchanged |
| OrderModel.FailedTitlesEmpty | backend/models/Order.js:110-113 | the error list is empty exactly when no decrement failed |
| OrderModel.DuplicateTitleGoesNegative | backend/models/Order.js:103-107 | two items for one product decrement it twice, and stock 4 minus 2 minus 3 is stored as -1 |
| OrderModel.StockAfterKeepsIds | backend/models/Order.js:105 | the decrements keep the product ids and the products invariant |
| OrderModel.FailingItems | backend/models/Order.js:103-113 | the failing positions are positions of items |
| OrderModel.SameFailingPrefix | backend/models/Order.js:103-113 | the stock and the error list depend only on which of the items' own positions fail |
| OrderModel.FailingStep | backend/models/Order.js:103-113 | one more item fails exactly when the oracle fails it or strict mode refuses it on the stock the earlier items left; otherwise its decrement is applied to that stock, and only a failing item adds its title to the error list |
| OrderModel.FailingItemsExact | backend/models/Order.js:103-113 | an item fails exactly when the oracle fails it or its decrement would take some row of its title outside INT |
| OrderModel.StockStaysInInt | backend/models/Order.js:105 | stocks that start within INT stay within INT after any receive |
| OrderModel.DecrementBelowIntRefused | backend/models/Order.js:105-112 | taking 1 off the lowest INT stock is refused: the stock stays and the title is listed as failed |
| OrderModel.DecrementItems | backend/models/Order.js:99-113 | the imperative loop issues the decrement statements in order; an item fails when the oracle fails it or its result would leave INT; the loop leaves the stock of `StockAfterReceive` and collects the failed titles in order |
| OrderModel.ReceiveItems | backend/models/Order.js:95-96 | `updateReceivedToSupplier` decrements the parsed items of the order, one per comma plus one, when the flag is truthy, and no items otherwise |
| OrderModel.StatusItems | backend/models/Order.js:194-196 | `updateOrderStatus` decrements only when the status is exactly the number 1 |
| OrderModel.FlagWritten | backend/models/Order.js:118-123 | the flag write changes only the selected order's flag column, to the value the column gets; nothing changes when the write fails or the value cannot be stored |
| OrderModel.Outcome | backend/models/Order.js:119-129 | the result is an error when the flag write fails or any decrement failed, and that error carries the failed titles; success otherwise |
| OrderModel.SetFlagKeepsValid | backend/models/Order.js:118 | writing the flag keeps the orders invariant |
| OrderModel.DecrementThenWriteFlag | backend/models/Order.js:103-131 | every decrement is sent before the flag write, and the flag is written even when a decrement failed |
| OrderModel.ReceiveStopsAtLookup | backend/models/Order.js:82-92 | a failing lookup or an unknown id ends the call after the SELECT, with nothing changed |
| OrderModel.ReceiveFound | backend/models/Order.js:95-154 | for a found order: stock as `StockAfterReceive`, the flag written, the statements SELECT, then the decrements, then the flag write, and the outcome of `Outcome` over the failed titles |
| OrderModel.Receive | backend/models/Order.js:80-257 | both transitions send the SELECT first; an unknown id is reported after the SELECT alone, with no product and no order changed |
| OrderModel.UpdateReceivedToSupplier | backend/models/Order.js:80-156 | the method's new tables, statement log and result are those of the supplier transition of `Receive` |
| OrderModel.UpdateOrderStatus | backend/models/Order.js:171-257 | the method's new tables, statement log and result are those of the customer transition of `Receive` |
| OrderModel.UnknownOrderChangesNothing | backend/models/Order.js:82-92 | an unknown order id, or a failing lookup, changes no product and no order, and sends only the SELECT |
| OrderModel.AlreadyReceivedGuardNeverFires | backend/models/Order.js:174-191 | the fetched row has no flag column, so the "already received" branch is never taken |
| OrderModel.FoundOrderStock | backend/models/Order.js:103-113 | for a found order, each product loses exactly the quantities of the items with its title that the oracle did not fail and strict mode did not refuse |
| OrderModel.FoundOrderStatements | backend/models/Order.js:82-130 | statement order for a found order: the SELECT, one decrement per item in order, then the flag write last |
| OrderModel.StatementLayout | backend/models/Order.js:82-130 | the concatenated log has the SELECT first, decrement i at position i + 1, and the flag write last |
| OrderModel.FoundOrderFlagAndResult | backend/models/Order.js:116-130 | the flag is stored as its column value unless its write fails; success holds exactly when the write succeeds and no decrement failed |
| OrderModel.NoDecrementWithoutReceiveFlag | backend/models/Order.js:145-154 | with a falsy flag (with a status other than 1 for `updateOrderStatus`), no stock changes and only the SELECT and the flag write are sent |
| OrderModel.StringFlagReceive | backend/models/Order.js:95-123 | the supplier side with "0" decrements every item and stores 0, so the order stays in `getAllOrders`; with "yes" it decrements every item and the flag write is refused, leaving the orders unchanged |
| OrderModel.ReceiveKeepsInvariants | backend/models/Order.js:80-257 | both transitions keep the product ids and the products, carts and orders invariants |
| OrderModel.RepeatedReceiveDecrementsTwice | backend/models/Order.js:186-196 | marking the same order received twice subtracts what each call's succeeding decrements take; with none failing, its quantities twice |
| OrderModel.ReceiveTwiceStock | backend/models/Order.js:186-196 | the second call finds the same order with the same items and applies `StockAfterReceive` again, to the stock the first call left |
| OrderModel.FlagWrittenFinds | backend/models/Order.js:118 | the flag write keeps the order findable by the same id, with the same line columns |
| OrderModel.TitleColumn | backend/models/Order.js:16-18 | a title list is stored joined with ", ", and a scalar title unchanged |
| OrderModel.QuantityColumn | backend/models/Order.js:20-22 | a quantity list is stored joined with ", ", and a scalar quantity unchanged |
| OrderModel.NewOrderRow | backend/models/Order.js:24-36 | the inserted row has every scalar field as given, the joined columns, and the column value of the bound flag; for a boolean or number flag it is non-zero exactly when `receivedToSupplier` is truthy |
| OrderModel.BoundFlag | backend/models/Order.js:35 | `|| false` keeps a truthy flag and binds false for any other |
| OrderModel.ZeroTextOrderCreatedOpen | backend/models/Order.js:35 | an order created with the string "0" can be stored and is stored with flag 0, as an open order |
| OrderModel.CreatedOrderReadsBack | backend/models/Order.js:16-22 | a new order's line items parse back to the titles and quantities it was created with |
| OrderModel.CreateOrder | backend/models/Order.js:9-44 | one INSERT with the generated id; an insert rejected by key, foreign key, width, range or an unstorable flag changes nothing, otherwise the row is appended and its id returned |
| OrderModel.GetAllOrders | backend/models/Order.js:47-55 | exactly the orders whose flag column is 0 |
| OrderModel.GetAllReceivedOrders | backend/models/Order.js:58-66 | exactly the orders whose flag column is 1 |
| OrderModel.GetUserOrders | backend/models/Order.js:160-168 | exactly the orders of that user |
| OrderModel.GetUserPreviousOrders | backend/models/Order.js:271-279 | exactly that user's orders whose flag is 1 |
| OrderModel.FlagQueriesPartition | backend/models/Order.js:47-66 | when every flag is 0 or 1, the two lists split the orders table between them |
| OrderModel.OtherFlagValueIsInNeitherList | backend/models/Order.js:47-66 | an order whose flag column holds another value, such as 2, is in neither list |
| OrderModel.RemoveOrder | backend/models/Order.js:260-268 | `deleteOrder` keeps exactly the orders with another id |
| OrderModel.RemoveOrderCount | backend/models/Order.js:260-268 | with unique ids, exactly one row is removed when the id exists, and none otherwise |
| OrderModel.RemoveOrderKeepsValid | backend/models/Order.js:260-268 | deleting keeps the orders invariant |
| OrderModel.DeleteOrder | backend/models/Order.js:260-268 | a failing statement changes nothing and reports the error; otherwise the rows with that id are removed, and no other table changes |
| OrderModel.GetDeliveryDetails | backend/models/Order.js:282-290 | exactly the delivery details of that user |
| OrderModel.GetDeliveryDetailById | backend/models/Order.js:292-300 | the first row with that id, or nothing when no row has it |
| OrderModel.AddDeliveryDetail | backend/models/Order.js:302-314 | checked in order: a store failure, a NULL in a NOT NULL column (every field but the apartment), a value wider than its column (`AddressFits`: 255, phone 20, email 100) and an unknown user are each refused with nothing changed; otherwise the row with the bound values is appended and its new id returned |
| OrderModel.UpdateAddress | backend/models/Order.js:316-329 | the rows with that id take the six bound address fields and keep their id and user; every other row is unchanged |
| OrderModel.UpdateDeliveryDetail | backend/models/Order.js:316-329 | a store failure is refused with nothing changed; when a row has that id, a NULL in a NOT NULL column or an over-wide value is refused with nothing changed; when none has it, such a body succeeds and changes nothing; a body that fits applies `UpdateAddress` and keeps the invariant |
| OrderModel.RemoveAddress | backend/models/Order.js:331-339 | exactly the rows with another id remain |
| OrderModel.DeleteDeliveryDetail | backend/models/Order.js:331-339 | a store failure changes nothing; otherwise `RemoveAddress` is applied and the invariant kept |
| OrderController.Titles | backend/controllers/orderController.js:43 | a scalar title is wrapped into a one-element list, and a list is kept |
| OrderController.Quantities | backend/controllers/orderController.js:44 | a scalar quantity is wrapped into a one-element list, and a list is kept |
| OrderController.QuantityFor | backend/controllers/orderController.js:72-74 | title i is paired with quantity i, or with undefined past the end of the quantities |
| OrderController.FindProduct | backend/controllers/orderController.js:52-59 | the first product with exactly that title, or none |
| OrderController.Shortfall | backend/controllers/orderController.js:59-64 | a shortfall exactly when no product has the title, or the first match's stock is below the quantity; an undefined quantity never falls short, and a null one falls short exactly when the stock is negative; the record carries the title, the requested quantity and the stock or 0 |
| OrderController.StockIssuesComplete | backend/controllers/orderController.js:47-82 | the issue list holds a shortfall for every short item and nothing else, and it is empty exactly when no item is short |
| OrderController.StockIssues | backend/controllers/orderController.js:47-82 | at most one issue per title |
| OrderController.IssuesSound | backend/controllers/orderController.js:59-64 | every collected issue is a real shortfall of a listed title |
| OrderController.IssuesCover | backend/controllers/orderController.js:72-74 | every short item's issue is collected; there is no early stop |
| OrderController.IssuesEmpty | backend/controllers/orderController.js:80 | no issues exactly when no item is short |
| OrderController.StockLookups | backend/controllers/orderController.js:52-53 | one availability SELECT per title, in order |
| OrderController.FlagOrZero | backend/controllers/orderController.js:95 | `receivedToSupplier || 0` is truthy exactly when the given flag is, and is then that flag |
| OrderController.Details | backend/controllers/orderController.js:85-96 | the order passed to `createOrder` carries the wrapped lists, the request's scalar fields and the defaulted flag |
| OrderController.AddOrderStatus | backend/controllers/orderController.js:38-114 | 201 exactly for a created order, and 400 exactly for missing fields or insufficient stock |
| OrderController.CheckAvailability | backend/controllers/orderController.js:47-77 | the lookup loop sends one SELECT per title; without a failing lookup it collects exactly `StockIssues` |
| OrderController.AddOrder | backend/controllers/orderController.js:22-116 | the method's new orders table, statement log and reply are those of `AddOrderSpec` |
| OrderController.AddOrderSpec | backend/controllers/orderController.js:22-116 | without a 201 reply the orders table is unchanged; with one, exactly one row is appended and it carries the reported id; an insufficient-stock reply carries at least one issue |
| OrderController.MissingFieldSendsNothing | backend/controllers/orderController.js:37-40 | a falsy required field answers 400 before any lookup or insert |
| OrderController.ShortfallBlocksOrder | backend/controllers/orderController.js:77-82 | any short item answers 400 with the complete issue list, after all the lookups, and inserts nothing |
| OrderController.CreatedOnlyWithoutShortfall | backend/controllers/orderController.js:84-110 | an order is created only when no field is missing, no lookup failed and no item is short, and it is the row built from the same lists; stock is not changed |
| OrderController.LookupFailureBlocksOrder | backend/controllers/orderController.js:112-115 | a failing lookup answers 500 and inserts nothing |
| OrderController.ScalarFieldsWrap | backend/controllers/orderController.js:43-44 | with a scalar title and quantity, the title list is that title and item 0 takes that quantity |
| OrderController.ErrorText | backend/controllers/orderController.js:153 | the 500 message carries the error's own message |
| OrderController.UpdateOrderStatusA | backend/controllers/orderController.js:141-157 | a null or undefined id or flag answers 400 and changes nothing (`false` passes); otherwise it is the supplier transition, answered 200 or 500 with the error message |
| OrderController.MarkOrderAsReceived | backend/controllers/orderController.js:172-187 | the customer transition with status 1, answered with affectedRows or the error message |
| OrderController.MarkReportsOneRow | backend/controllers/orderController.js:182-185 | a successful mark reports one affected row |
| OrderController.UserOrderHistory | backend/controllers/orderController.js:202-213 | exactly that user's orders whose flag is 1 |
| OrderController.HistoryFilterKeepsAll | backend/controllers/orderController.js:210 | the controller's truthiness filter keeps every order the query returned |
| OrderController.CancelOrder | backend/controllers/orderController.js:189-198 | `deleteOrder`, answered 500 "Failed to cancel order" with nothing changed, or 200 "Order cancelled successfully" after removing the rows with that id |
| OrderController.AddDeliveryDetailController | backend/controllers/orderController.js:237-264 | a falsy field other than the apartment answers 400 before the insert; a refused insert (a failure, an over-wide field, an unknown user) answers 500 with nothing changed; otherwise 201 with the new id, the signed-in user and the bound values, which is the appended row |
| OrderController.UpdateDeliveryDetailController | backend/controllers/orderController.js:266-276 | the body goes to the update unchecked: a failure, or a missing or over-wide field when a row has that id, answers 500 with nothing changed; a bad body for an id no row has answers 200 with nothing changed; a body that fits answers 200 after `UpdateAddress` |
| OrderController.DeleteDeliveryDetailController | backend/controllers/orderController.js:278-287 | 500 with nothing changed, or 200 after `RemoveAddress`, whether or not a row had that id |
| SalesReport.SegmentIsPiece | backend/controllers/orderController.js:341-342 | the nested SUBSTRING_INDEX of segment n is split piece min(n, count) |
| SalesReport.SqlTrim | backend/controllers/orderController.js:363 | SQL `TRIM` removes spaces only, at both ends |
| SalesReport.SqlTrimPadded | backend/controllers/orderController.js:363 | trimming one leading space off a clean title gives the title back |
| SalesReport.CastOfDecimal | backend/controllers/orderController.js:358 | `CAST(... AS UNSIGNED)` of a written non-negative quantity, with or without a leading space, is that quantity |
| SalesReport.CastUnsigned | backend/controllers/orderController.js:358 | a string of digits casts to its value, and a string whose trimmed start is not a digit casts to 0 |
| SalesReport.ParameterOfDecimal | backend/controllers/orderController.js:351-352 | the decimal text of an integer, as a parameter, equals that month or year and no other |
| SalesReport.FractionMatchesNothing | backend/controllers/orderController.js:351-352 | a parameter with a non-zero fraction, such as "3.5", equals no month and no year |
| SalesReport.ParameterExamples | backend/controllers/orderController.js:351-352 | "+3" and "\t3" match exactly month 3, and "3.5" matches nothing |
| SalesReport.GroupedRows | backend/controllers/orderController.js:355-365 | at most one row per product |
| SalesReport.SortByTotal | backend/controllers/orderController.js:366-367 | sorting keeps the number of rows |
| SalesReport.SegmentCount | backend/controllers/orderController.js:345-350 | an order contributes min(10, number of title pieces) segments, and at least one |
| SalesReport.CreatedTitleSegment | backend/controllers/orderController.js:341-363 | for a title column `createOrder` wrote, trimmed segment k + 1 is title k |
| SalesReport.CreatedQuantitySegment | backend/controllers/orderController.js:342-358 | for a quantity column `createOrder` wrote, segment k + 1 casts to quantity k |
| SalesReport.CreatedOrderSegmentCount | backend/controllers/orderController.js:350 | a written order has min(10, number of titles) segments |
| SalesReport.CreatedTitleAt | backend/controllers/orderController.js:341-363 | segment title k of a written order is title k |
| SalesReport.CreatedOrderTitles | backend/controllers/orderController.js:341-363 | the segment titles of a written order are its first min(10, n) titles |
| SalesReport.CreatedQuantityAt | backend/controllers/orderController.js:342-358 | segment quantity k of a written order is quantity k |
| SalesReport.CreatedOrderQuantities | backend/controllers/orderController.js:342-358 | the segment quantities of a written order are its first min(10, n) quantities |
| SalesReport.CreatedOrderCounted | backend/controllers/orderController.js:337-363 | for an order written by `createOrder`, the report joins and counts exactly its first ten lines, with their own quantities |
| SalesReport.SortByTotalCorrect | backend/controllers/orderController.js:366-367 | the rows are a permutation of the grouped rows, sorted by total, largest first |
| SalesReport.ReportStatus | backend/controllers/orderController.js:331-379 | 200 exactly when rows are returned |
| SalesReport.MonthlySalesReport | backend/controllers/orderController.js:328-390 | 400 exactly when the month or the year is missing or empty; otherwise 500 exactly when the query fails |
| SalesReport.PeriodIsRequired | backend/controllers/orderController.js:331-333 | a missing or empty month or year answers 400 |
| SalesReport.TotalIsPriceTimesQuantity | backend/controllers/orderController.js:358-359 | a product's total is its current retail price times its summed quantity |
| SalesReport.GroupedRowsExact | backend/controllers/orderController.js:355-365 | one row for every product with a matching line, and every row holds its product's price, summed quantity and total |
| SalesReport.ReportRowsExact | backend/controllers/orderController.js:328-390 | with a month and a year, read as MySQL reads a number, the reply is a permutation of the grouped rows sorted by total, each total being price times quantity |
| SalesReport.OnlyPeriodCounts | backend/controllers/orderController.js:351-352 | the joins and quantities of one title come only from orders created in that month and year |
| SalesReport.OnlyPeriodRows | backend/controllers/orderController.js:351-352 | orders outside the period do not change the report |
| SalesReport.EmptyPeriodNoRows | backend/controllers/orderController.js:376-380 | a period without orders yields no rows |
| CartModel.FindPair | backend/models/Cart.js:36-39 | the row of the (user, product) pair, which is the first such row, or none |
| CartModel.Upsert | backend/models/Cart.js:36-40 | a known pair keeps the number of rows; a new pair appends one row with the next id, the user, the product and the quantity |
| CartModel.UpsertQuantity | backend/models/Cart.js:36-40 | after `addToCart`, the pair's quantity is its old quantity plus the new one, or the new one for a new pair; every other pair is unchanged |
| CartModel.SamePairsSameFind | backend/models/Cart.js:39 | tables with the same pairs at the same positions find a pair at the same row |
| CartModel.UpsertKeepsValid | backend/models/Cart.js:39 | the upsert keeps the (user, product) pair unique and the foreign keys satisfied |
| CartModel.AddToCart | backend/models/Cart.js:34-47 | checked in order: a store failure, a NULL user id, product id or quantity, a quantity outside INT, an unknown user or product, and a summed quantity outside INT are each refused with nothing changed; otherwise the table becomes the upsert |
| CartModel.SetCartQuantityExact | backend/models/Cart.js:52 | only the row with that id takes the new quantity, whoever owns it; the id, user and product stay |
| CartModel.SetCartQuantityKeepsValid | backend/models/Cart.js:52 | the quantity update keeps the carts invariant |
| CartModel.RowsWithUniqueId | backend/models/Cart.js:52-56 | with unique ids, the update affects one row or none |
| CartModel.UpdateCartItem | backend/models/Cart.js:50-59 | a store failure changes nothing; a NULL quantity or one outside INT is refused when a row has that id and reports 0 affected rows, changing nothing, when none has; a quantity that fits is set on the row with that id and 1 or 0 affected rows are reported, exactly as a row matches |
| CartModel.RemoveCartRow | backend/models/Cart.js:64 | every row except the one with that id remains |
| CartModel.DeleteCartItem | backend/models/Cart.js:62-71 | a store failure changes nothing; otherwise only that row is removed and the invariant kept |
| CartModel.RemoveUserRows | backend/models/Cart.js:76 | every row of other users remains, and none of that user |
| CartModel.EmptyCart | backend/models/Cart.js:74-83 | a store failure changes nothing; otherwise exactly that user's rows are removed |
| CartModel.ItemFor | backend/models/Cart.js:11-12 | a cart row joins to an item exactly when its product exists |
| CartModel.CartItems | backend/models/Cart.js:6-13 | at most one item per cart row |
| CartModel.CartItemsExact | backend/models/Cart.js:6-13 | every listed item is one of that user's rows joined to its product, with `totalPrice = quantity × retailPrice`; every such row is listed |
| CartModel.EmptiedCartListsNothing | backend/models/Cart.js:74-83 | after `emptyCart` the user's cart lists nothing |
| CartModel.NoRowsNoItems | backend/models/Cart.js:13 | a user without rows has no items |
| ProductModel.ProductById | backend/models/Product.js:117-130 | the matching row's selected columns, or null when no row has that id |
| ProductModel.ProductByIdIsTheRow | backend/models/Product.js:117-130 | with unique ids, looking up a row's id returns that row |
| ProductModel.BoundUpdate | backend/models/Product.js:34-73 | the bound values make an update exactly when none of the six NOT NULL columns is NULL, and then each column takes its bound value |
| ProductModel.UpdateProductRows | backend/models/Product.js:53 | the update keeps the number of rows and every id, and rows with another id are unchanged |
| ProductModel.UpdateProductExact | backend/models/Product.js:48-54 | the row with that id takes title, category, both prices, stock and supplier; each image slot keeps its old value when the new one is null; other rows are unchanged |
| ProductModel.UpdateKeepsIds | backend/models/Product.js:53 | the update keeps the set of ids |
| ProductModel.MatchingRowsOfUniqueIds | backend/models/Product.js:53 | with unique ids, one row or none matches |
| ProductModel.UpdateRefusal | backend/config/db.js:44-50 | no refusal exactly when title, category and supplier fit VARCHAR(255), both prices fit DECIMAL(10,2) and the stock fits INT; a refusal is a too-long string or an out-of-range number |
| ProductModel.UpdateProduct | backend/models/Product.js:34-78 | a store failure changes nothing; when a row has that id, a NULL in a NOT NULL column or a value `UpdateRefusal` finds too wide or out of range is refused with nothing changed; when none has, such a body reports 0 rows and changes nothing; otherwise the update is applied, the products and carts invariants are kept, and 1 or 0 affected rows are reported |
| ProductModel.RemoveProductFromCarts | backend/models/Product.js:84 | exactly the cart rows of other products remain |
| ProductModel.RemoveProductRow | backend/models/Product.js:87 | exactly the rows with another id remain |
| ProductModel.RemoveProductIds | backend/models/Product.js:87 | the ids afterwards are the old ids less that one |
| ProductModel.RemoveProductKeepsValid | backend/models/Product.js:87 | deleting keeps the products invariant |
| ProductModel.RemoveFromCartsKeepsValid | backend/models/Product.js:84-87 | removing the cart rows first keeps the cart foreign keys valid once the product is gone |
| ProductModel.DeleteProduct | backend/models/Product.js:81-93 | a failing cart delete changes nothing; otherwise the cart rows go first, even when the product delete then fails; otherwise the product goes too and 1 or 0 rows are reported |
| ProductModel.DeletedProductLeavesNoCartRow | backend/models/Product.js:84 | no cart row references the deleted product |
| ProductModel.OtherProductsBounds | backend/models/Product.js:175-196 | a negative limit is refused; otherwise at most `limit` rows, none with the excluded id, each a summary of a product |
| ProductModel.OtherProducts | backend/models/Product.js:175-196 | an answer has at most `limit` rows and no more than the shuffled table |
| ProductModel.GroupIndex | backend/models/Product.js:149 | the position of the category's group, or none |
| ProductModel.AddToGroupDistinct | backend/models/Product.js:148-159 | one reduce step keeps one group per category and adds the product's category |
| ProductModel.GroupedCategories | backend/models/Product.js:148-159 | the fold yields one group per category, and exactly the categories of the rows |
| ProductModel.AddToGroupItems | backend/models/Product.js:152-157 | one reduce step appends the product to its own group only |
| ProductModel.GroupedItems | backend/models/Product.js:148-159 | each group lists its category's products in row order |
| ProductModel.SortByIndexCorrect | backend/models/Product.js:162 | the integer-like keys come out as a permutation in ascending numeric order |
| ProductModel.KeysOrderIsPermutation | backend/models/Product.js:162-165 | `Object.keys` order is a permutation of the groups |
| ProductModel.KeysOrderLayout | backend/models/Product.js:162-165 | `Object.keys` order puts the integer-like categories first, ascending, then the others in insertion order |
| ProductModel.FilterPartition | backend/models/Product.js:162 | the integer-like and the other keys together are all the groups |
| ProductModel.ConstructorCategoryThrows | backend/models/Product.js:148-152 | as written, a product in the category "constructor" makes the reduce throw |
| ProductModel.GroupedByCategoryAsWritten | backend/models/Product.js:137-165 | the reduce throws exactly when the query succeeds and some row's category is an inherited member name; every other outcome equals that of `GroupedByCategory` |
| ProductModel.GroupedByCategory | backend/models/Product.js:141-146 | a failed query and an empty table are refused, with "Product not found" for the empty table; every other call returns groups |
| ProductModel.GroupingExact | backend/models/Product.js:137-165 | every product appears in exactly one group, that of its own category, and each group keeps the query's row order |
| ProductModel.DistinctHasNoDuplicates | backend/models/Product.js:162-165 | groups with distinct categories are distinct groups |
| UserModel.FindUserByEmail | backend/models/User.js:19-26 | a row with that email, or undefined exactly when no row has it |
| UserModel.FoundUserIsTheAccount | backend/models/User.js:19-26 | with unique emails, the lookup returns exactly that account |
| UserModel.CreateUser | backend/models/User.js:7-15 | refused with nothing changed for a NULL email or role, an email, hash or role wider than its column (100, 255, 255), or a taken email; otherwise appends the email, the hash and the role (default 'user') with the next id, not blocked |
| UserModel.SetBlocked | backend/models/User.js:29-46 | the flag of the rows with that id is set, their id and email stay, and every other row is unchanged |
| UserModel.SetBlockedExact | backend/models/User.js:29-46 | the flag is set on the row with that id only, and nothing else changes |
| UserModel.SetBlockedIdempotent | backend/models/User.js:29-46 | blocking or unblocking twice is the same as once |
| UserModel.SetBlockedOverrides | backend/models/User.js:29-46 | the later of two flag writes wins |
| UserModel.SetBlockedKeepsValid | backend/models/User.js:31 | the flag write keeps the users invariant and the ids |
| UserModel.BlockUser | backend/models/User.js:29-36 | the method sets `isBlocked = TRUE` on that id |
| UserModel.UnblockUser | backend/models/User.js:39-46 | the method sets `isBlocked = FALSE` on that id |
| UserModel.BlockedUsers | backend/models/User.js:59-66 | exactly the users whose flag is set |
| UserModel.BlockThenListed | backend/models/User.js:29-66 | a blocked user is listed, and an unblocked one is not |
| UserModel.GetUserById | backend/models/User.js:69-80 | a driver error, "User not found" exactly for a missing id, or the id and email of that user |
| Auth.PasswordRegexIsPolicy | backend/controllers/authController.js:10 | the regex accepts exactly the passwords of at least 8 characters from [A-Za-z0-9@$!%*?&] with a lowercase letter, an uppercase letter, a digit and a special character |
| Auth.LookaheadWithoutTerminators | backend/controllers/authController.js:10 | a `(?=.*[x])` lookahead over a string without line terminators succeeds exactly when some character is in the class |
| Auth.PasswordRegexTest | backend/controllers/authController.js:10 | a password the regex accepts has at least 8 characters, all from [A-Za-z0-9@$!%*?&] |
| Auth.LowercaseHasNoUpper | backend/controllers/authController.js:10 | a password of lowercase letters only fails the uppercase lookahead |
| Auth.MissingPasswordRejected | backend/controllers/authController.js:8-13 | a missing password ("undefined" to the regex) is rejected |
| Auth.Signup | backend/controllers/authController.js:7-31 | the method's new users table and reply are those of `SignupSpec` |
| Auth.SignupSpec | backend/controllers/authController.js:7-31 | the users table is unchanged or grows by one row; a 200 reply means the password conformed and the new row, with the next id, carries the request's email, which no old row had, fits its columns, and is not blocked |
| Auth.WeakPasswordRefusedFirst | backend/controllers/authController.js:13-17 | a non-conforming password answers 400 before any lookup, whatever the store would do |
| Auth.TakenEmailCreatesNothing | backend/controllers/authController.js:20-23 | a taken email answers 400 and creates nothing |
| Auth.SuccessfulSignupStoresRole | backend/controllers/authController.js:8-26 | success holds exactly when the password conforms, the store works, the email is new, the role is not null and the email, hash and role fit their columns; the account then stores the hash and the given role or 'user'; otherwise nothing is stored |
| Auth.Signin | backend/controllers/authController.js:34-58 | lookup error 500; unknown email and wrong password get the same message; the blocked flag is checked before the password; success issues a token for {id, role} and returns the role |
| Auth.BlockUserEndpoint | backend/controllers/authController.js:61-70 | 200 after blocking that id, or 500 with nothing changed |
| Auth.UnblockUserEndpoint | backend/controllers/authController.js:73-82 | 200 after unblocking that id, or 500 with nothing changed |
| Auth.BlockedAccountCannotSignIn | backend/controllers/authController.js:37-44 | after blocking, the account is still found by its email and carries the flag that signin refuses |
| SlideModel.AddSlide | backend/models/Slide.js:4-17 | a NULL in a NOT NULL column, a title or alt wider than 255, or a store failure, inserts nothing; otherwise the row is appended with the next id, which is returned |
| SlideModel.UpdateSlideExact | backend/models/Slide.js:32-53 | with an image, the row with that id takes all five values; without one it takes the other four and keeps its image; other rows are unchanged |
| SlideModel.UpdateWithoutImageKeepsImages | backend/models/Slide.js:42-46 | without an image, no stored image changes |
| SlideModel.UpdateSlideKeepsIds | backend/models/Slide.js:40-45 | the update keeps every id |
| SlideModel.MatchingSlidesOfUniqueIds | backend/models/Slide.js:27-45 | with unique ids, one row or none matches the id |
| SlideModel.UpdateSlides | backend/models/Slide.js:32-53 | a title or alt wider than 255 for an existing id is refused with nothing changed; otherwise the method applies the update and reports 1 affected row when the id exists, 0 otherwise |
| SlideModel.RemoveSlideRow | backend/models/Slide.js:26-29 | exactly the rows with another id remain |
| SlideModel.RemoveSlideIds | backend/models/Slide.js:26-29 | the ids afterwards are the old ids less that one |
| SlideModel.RemoveSlideKeepsValid | backend/models/Slide.js:26-29 | deleting keeps the slides invariant |
| SlideModel.DeleteSlides | backend/models/Slide.js:26-29 | the method removes that row and reports 1 or 0 affected rows |
| SlideController.AddSlide | backend/controllers/slideController.js:10-41 | a missing title, description or file answers 400 and inserts nothing; the icon is not checked, and a missing one fails the insert with 500, as does a title or alt wider than 255; otherwise 201 with the new id |
| SlideController.AltOrNull | backend/controllers/slideController.js:82-88 | an absent or empty alt becomes NULL; any other alt is kept |
| SlideController.UpdateKeepsImageWithoutFile | backend/controllers/slideController.js:82-88 | without a file the update keeps the stored image; with one it writes it; the alt is stored as `alt || null` |
| SlideController.ByIdReply | backend/controllers/slideController.js:92-101 | 500 on failure, 404 when no row was affected, 200 otherwise |
| SlideController.UpdateSlide | backend/controllers/slideController.js:71-103 | a missing icon, title or description answers 400; otherwise 404 exactly for an unknown id, 500 for a known one whose title or alt is wider than 255, and 200 for a known one that fits |
| SlideController.DeleteSlide | backend/controllers/slideController.js:106-121 | 500 on failure; otherwise the row is removed, with 404 exactly for an unknown id and 200 for a known one |
| Checkout.ValidEmailIsShape | frontend/src/Pages/Checkout.jsx:127-131 | the email regex accepts exactly the strings without white space that have one '@' with text before it, and a '.' after the '@' that is neither first nor last |
| Checkout.EmailRegexGivesShape | frontend/src/Pages/Checkout.jsx:127 | a match of the regex has the shape above |
| Checkout.EmailShapeGivesRegex | frontend/src/Pages/Checkout.jsx:127 | a string of that shape matches the regex |
| Checkout.ValidEmail | frontend/src/Pages/Checkout.jsx:127 | an accepted email has at least five characters, an '@' and a '.' |
| Checkout.ValidPhone | frontend/src/Pages/Checkout.jsx:120-121 | an accepted phone number has exactly 10 characters |
| Checkout.FirstBlocked | frontend/src/Pages/Checkout.jsx:134-139 | the first item whose quantity exceeds its available quantity, or none when no item does |
| Checkout.StockCheck | frontend/src/Pages/Checkout.jsx:134-139 | the `for…of` loop stops at exactly that first blocking item |
| Checkout.FormAlert | frontend/src/Pages/Checkout.jsx:114-131 | the required fields first (the apartment is optional), then the 10-digit phone, then the email; no alert exactly when all pass |
| Checkout.CheckoutPayload | frontend/src/Pages/Checkout.jsx:161-171 | title i and quantity i come from the same cart item, and the address is `street, apartment, city` |
| Checkout.HandleCheckout | frontend/src/Pages/Checkout.jsx:107-220 | checks authentication, then the form, then stock; an order is posted exactly for cash on delivery when all pass and the user lookup answers; a 401 asks for a new login; bank payment opens the payment page; any other lookup failure or payment method sends nothing |
| Checkout.CheckoutOrderPassesServerCheck | frontend/src/Pages/Checkout.jsx:161-171 | a posted cash order with a non-zero user id and total passes the server's required-field check |
| Payment.ValidExpiryIsMonthSlashYear | frontend/src/Pages/Payment.jsx:33-36 | the expiry regex accepts exactly "MM/YY" with MM from 01 to 12, two digits after the slash and nothing else |
| Payment.ValidExpiry | frontend/src/Pages/Payment.jsx:33-36 | an accepted expiry has five characters with '/' in the middle |
| Payment.ValidCardNumber | frontend/src/Pages/Payment.jsx:27-30 | an accepted card number has exactly 16 characters |
| Payment.ValidCvc | frontend/src/Pages/Payment.jsx:39-42 | an accepted CVC has exactly 3 characters |
| Payment.TwoDigits | frontend/src/Pages/Payment.jsx:33-36 | the zero-padded text of a number below 100 is two digits with that value |
| Payment.EveryMonthAccepted | frontend/src/Pages/Payment.jsx:33-36 | every month of every two-digit year written MM/YY is accepted |
| Payment.PlaceholderRejected | frontend/src/Pages/Payment.jsx:33-36 | the form's own placeholder "03 / 25" is rejected |
| Payment.CardAlert | frontend/src/Pages/Payment.jsx:50-71 | all four fields non-empty, then 16 digits, then the expiry, then 3 digits; the first failure names its message, and no alert exactly when all pass |
| Payment.BillingField | frontend/src/Pages/Payment.jsx:118-119 | `billingDetails?.field || 'N/A'` is never empty and is the field when that is non-empty |
| Payment.PaymentPayload | frontend/src/Pages/Payment.jsx:109-121 | the lines pair item titles with item quantities, the name is the cardholder's, and the method is always 'bank' |
| Payment.HandleSubmit | frontend/src/Pages/Payment.jsx:45-121 | the card checks first, then the user lookup, then the stock loop; an order is posted exactly when all pass |
| Payment.PaymentOrderPassesServerCheck | frontend/src/Pages/Payment.jsx:109-121 | a posted bank order with a non-zero user id and total passes the server's required-field check |

## Left out

- Promise and callback scheduling. The `forEach` of callbacks in `updateReceivedToSupplier` and `updateOrderStatus`, and `Promise.all` in `addOrder`, run over a single MySQL connection. They are modelled as sequential loops in list order. Races between concurrent requests are not modelled.
- The cause of a store error. Each failure is an oracle input, and the driver's message is a parameter (`driverMessage`).
- bcrypt hashing and comparison, and jsonwebtoken signing and verifying. They are the parameters `hash`, `matches` and `sign`. `getUserDetails`, which verifies a token, is modelled only through `UserModel.GetUserById`.
- `Math.random`. The digits of the fraction are an input of `generateOrderId`. A colliding id is a rejected insert.
- MySQL collation. The model compares titles, emails and order ids exactly. MySQL's default collation ignores case and trailing spaces. That applies to `WHERE title = ?`, the report's join and the unique email key. It also applies to the CHAR(6) order id (`backend/config/db.js:74`), so `WHERE id = ?` in `OrderModel.FindOrder`, `deleteOrder`, `markOrderAsReceived` and `updateOrderStatusA` also finds an id that differs only in case.
- Floating point. `total` is an integer parameter standing for `calculateTotal()`. The `parseFloat` of the report rows is not modelled.
- Image conversion. Base64 and `Buffer` conversion is left out, where it appears in `getCartItems`, `getProductsForDisplay`, `getOtherProducts`, the category listing and `getSlides`. Images are opaque strings.
- SalesReport.CastUnsigned: models `CAST(op.quantity AS UNSIGNED)` on the quantity segments as leading spaces then a digit prefix. It does not model MySQL's wrap-around of a negative text, because the quantities that `createOrder` writes from the pages are never negative.
- SalesReport.SqlNumberOf: models MySQL's reading of the month and year parameters as a number. It covers leading spaces and tabs, a sign, digits and a fraction. It does not model exponents ("3e0"), other leading white space, or digits beyond what a double holds exactly.
- OrderController.Shortfall: a quantity is undefined, null or an integer. A string quantity (`avail < "3"` converts the string) and a fractional JSON number are not modelled.
- SlideModel.AddSlide, SlideModel.UpdateSlides, ProductModel.UpdateProduct and OrderModel.CreateOrder: the byte limits of the TEXT and MEDIUMTEXT columns (slide icon, description and image, product images, order address) are not checked. They count encoded bytes, and images are opaque strings in the model.
- JavaScript strings are UTF-16, and the model's strings are sequences of Unicode scalar values. A lone surrogate in a request string is not expressible. The VARCHAR widths count characters, as MySQL does.
- OrderModel.FlagValue: a flag is a boolean, an integer or a string. A fractional JSON number, which MySQL would round into the TINYINT column, and an array or object flag are not modelled.
- OrderModel.TextColumnValue: only an optional sign followed by digits is read as an integer. Other strings MySQL may accept in an integer column, with surrounding spaces, a fraction or an exponent, are treated as refused.
- OrderModel.DecrementItems: a refused statement changes no row, as an InnoDB statement is atomic.
- LineItems.ParseOrderItems: `parseInt` is taken as exact. Above 2^53 a JavaScript number loses precision, so a larger quantity would not read back as written.
- SalesReport.SortByTotalCorrect: ties in `ORDER BY total DESC` keep product-table order. MySQL leaves the order of ties unspecified.
- `getTopSellingProducts`. Its result depends on `FIND_IN_SET` against a ", "-joined column and on `SUM` over a string column.
- `ORDER BY RAND()` in `getOtherProducts`. The shuffled rows are an input.
- Operations outside the core: `addProduct`, `getProducts`, `getProductsForDisplay`, `getAllUsers`, `getSlides`, the `getOrders`, `getReceivedOrders`, `getUserOrdersA`, `getDeliveryDetailsController` and `getDeliveryDetailByIdController` controllers (which only wrap the modelled queries in a 500 reply), and the routes and middleware.
- A failing query in `getCartItems` and in the other read queries. The reads are modelled as pure functions of the tables.
- The gaps a failed insert leaves in an AUTO_INCREMENT counter.
- Route ids that are not numbers, or outside INT. Ids are integers in the model and are not checked against the INT range.
- The `try`/`catch` 500 of the slide `addSlide` controller. In the model nothing in the controller throws.
- Front-end effects: navigation, `alert` text beyond the returned outcome, and `localStorage`. Also the empty-cart request after a cash order, the failure of the final order POST, and a missing `location.state` (for which the `for…of` loop would throw).

## Findings

| source | as written | input that shows it | evidently intended | confidence | as-written member | corrected member |
|---|---|---|---|---|---|---|
| backend/models/Product.js:148-152 | `acc[product.category]` on a plain `{}` finds inherited Object.prototype members, so for such a category no array is created and `.push` throws a TypeError inside the query callback | one product whose category is "constructor" (likewise "toString", "__proto__", "valueOf") | every category, whatever its name, becomes a group of its own | not executed | ProductModel.ConstructorCategoryThrows | ProductModel.GroupingExact |
