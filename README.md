# Restaurant order store, receipts and statistics — a Dafny model

This project models the core of a restaurant point-of-sale backend written
with Django: the order and order-item records, the API operations that open
an order, add and remove meals, move an order to another table, change its
waitress and close it; the receipt printing gate with its
`is_check_printed` flag; the statistics roll-ups (per waitress, daily,
monthly, yearly) and the end-of-day deletion of paid orders; and two
offline scripts, the SQLite-to-PostgreSQL dump and the build script's edit
of the PyInstaller `.spec` file.

The database is one `Store.Database` object whose fields are the tables the
code touches (`tables`, `meals`, `users`, `orders`, `items`, `stats`, and
the next primary keys). Every view or manager method is a method on it that
changes only the fields its `modifies` clause names and states its whole new
state in terms of specification functions; the properties the code promises
are lemmas about those functions. Rows are kept in primary-key order, so
Django's `.first()` is the first matching element. Money is integer cents
(`DecimalField` with two places). A calendar date stands for the day of
`created_at`.

Members of `Table` that the code calls but does not define are parameters
constrained by the little the code relies on: `current_order` is `cur`,
absent or an unpaid order of the table (`Store.IsCurrentOrder`);
`current_orders` is `curs`, distinct unpaid orders of the table
(`Store.AreCurrentOrders`); `can_print_check()` is `canPrint`;
`assignable_table` is `assignable`. The printer's answer is a parameter
`reply` (a status code, or an exception), and so are the clock (`today`)
and the script's own directory (`base`).

Files: `common.dfy` (Option, Result), `calendar.dfy` (Gregorian dates),
`order_model.dfy` (records, stored totals, cascade), `store.dfy` (the
database, saving, `update_total_price`, flag updates), `order_api.dfy`
(create order, add one item, add a batch), `managers.dfy` (remove item,
change table, change waitress, close), `close.dfy` (close with a print
attempt), `receipts.dfy` (receipt contents and totals), `printer.dfy` and
`printer_service.dfy` (the two printer services and the reset views),
`statistics.dfy` and `statistics_manager.dfy` (roll-ups), `text.dfy`,
`sqlite_dump.dfy`, `spec_file.dfy`.

Where the design description of the system and the code differ, the model
follows the code:

- An item's stored `price` is never written by the add and remove paths, so
  `total_price` is the sum of stored prices (0 for new lines), while
  receipts use the live `quantity × meal.price`.
- The batch add is not all-or-nothing: an invalid meal id returns from inside
  the transaction, which commits the entries before it; only an exception
  rolls the batch back.
- Removing the last item leaves the (empty) order in place.
- The daily row is first-write-wins; monthly and yearly rows are overwritten.
- Changing the table relies on `assignable_table` alone, and changing the
  waitress checks only that the new user is a waitress; neither looks at
  other orders of the tables involved.
- The close view of `apps/orders/apis/orders/close.py` saves the order object
  it loaded before printing, so a successful print's `is_check_printed` is
  written back to its old value when `is_paid` is saved.

## Model

| member | source | states |
|---|---|---|
| Calendar.DaysInMonth | apps/orders/models/statistics.py:64-65 | a month has 28 to 31 days, as `calendar.monthrange` gives them |
| Calendar.DaysInMonthSpec | apps/orders/models/statistics.py:65 | February has 29 days exactly in Gregorian leap years and 28 otherwise; April, June, September and November have 30 |
| Calendar.PreviousDay | apps/orders/models/statistics.py:16-17 | yesterday is a valid date whose next day is today |
| Calendar.PreviousOfNext | apps/orders/models/statistics.py:16-17 | going a day forward and a day back returns the same date |
| Calendar.NextDayStaysInMonth | apps/orders/models/statistics.py:67 | stepping a day stays in the month exactly until its last day |
| Calendar.DayOfMonthValid | apps/orders/models/statistics.py:67 | every day from 1 to the month's length is a valid date |
| OrderModel.FindItem | apps/orders/apis/managers.py:44-45 | the first row of the order for the meal, or none when the order has no line for it |
| OrderModel.StoredTotalWithoutItems | apps/orders/models/order.py:43-45 | an order without items totals 0 |
| OrderModel.StoredTotalOfItemsOf | apps/orders/models/order.py:43-45 | the total counts the order's own items and nothing else |
| OrderModel.StoredTotalConcat | apps/orders/models/order.py:43-45 | the stored total of a table split in two is the sum of the totals of the parts |
| OrderModel.StoredTotalUpdate | apps/orders/models/order.py:43-45 | changing one item row changes an order's total by the difference of that row's stored price |
| OrderModel.StoredTotalRemove | apps/orders/models/order.py:43-45 | deleting one item row lowers an order's total by that row's stored price |
| OrderModel.KeepItemsMembers | apps/orders/models/order.py:53-57 | after deleting orders, exactly the items of the surviving orders survive |
| OrderModel.KeepItemsValid | apps/orders/models/order.py:53-58 | the cascade leaves every item pointing at an existing order and meal |
| OrderModel.ReplaceOrderValid | apps/orders/models/order.py:47 | saving an order with a known id and an existing table keeps the order table valid |
| OrderModel.ReplaceOrderTwice | apps/orders/apis/orders/close.py:37-43 | saving a row twice leaves only the second save |
| Store.SaveOrder | apps/orders/models/order.py:47 | the row with the order's id is replaced and the database stays valid |
| Store.UpdateTotalPrice | apps/orders/models/order.py:42-47 | only that order's `total_price` changes, to the sum of its items' stored prices; items and other orders are untouched |
| Store.MarkPrintedSpec | apps/orders/apis/printer.py:281 | the listed orders get the flag value, every other order is unchanged, ids keep their order |
| Store.MarkOrdersPrinted | apps/orders/apis/printer.py:281 | `orders.update(is_check_printed=v)` on the database |
| OrderApi.CreateOrder | apps/orders/apis/orders.py:30-53 | an unpaid order for the table refuses with no change; an unknown table is invalid; otherwise one order is appended with the table, the caller as waitress and every other field at its default |
| OrderApi.CreatedOrderIsOnlyOpenOne | apps/orders/apis/orders.py:39-52 | after a successful create the new order is the table's only unpaid one, unprinted, with total 0 |
| OrderApi.OwnOpenOrder | apps/orders/apis/orders.py:119-122 | the caller's first unpaid order of the table, or none when there is none |
| OrderApi.TargetOrderSpec | apps/orders/apis/orders.py:119-132 | a plain user reaches only their own first unpaid order of the table; admins and captains get the table's current order; the result is always an unpaid order of the table |
| OrderApi.AddToLineQuantity | apps/orders/apis/orders.py:83-98 | the meal's line grows by the quantity, created when missing; no other line and no other row changes; a second row is never created |
| OrderApi.AddToLineStoredTotal | apps/orders/apis/orders.py:89-98 | adding to a line leaves every stored total as it was, since the stored price is not written |
| OrderApi.AddToLineValid | apps/orders/apis/orders.py:89-93 | adding to a line keeps one line per meal and valid foreign keys |
| OrderApi.AddLine | apps/orders/apis/orders.py:85-101 | the item table becomes the add-to-line of the old one and stays valid; the returned line is the refreshed row |
| OrderApi.CreateOrderItem | apps/orders/apis/orders.py:78-105 | the item table becomes the add-to-line of the old one, then only that order's total changes, to the sum of its stored item prices; the returned line is the refreshed row |
| OrderApi.AddOrderItem | apps/orders/apis/orders.py:117-145 | no order gives 404, a missing or unknown meal gives 400, each with no change; otherwise the line is added to (quantity default 1) and the order total recomputed |
| OrderApi.ValidateMeal | apps/orders/apis/orders.py:247-255 | a missing or zero id is required, an id with no meal is not found, any other id is accepted |
| OrderApi.BatchAllValid | apps/orders/apis/orders.py:221-240 | a batch of valid entries does not stop, has one summary per entry, and raises each line by the sum of its entries' quantities |
| OrderApi.StepSummary | apps/orders/apis/orders.py:233-240 | a valid entry raises its meal's line by its quantity (one by default) and appends that meal with the new quantity to the summaries |
| OrderApi.BatchLastSummary | apps/orders/apis/orders.py:219-240 | a batch of valid entries ends with the summary of its last entry |
| OrderApi.BatchSummaries | apps/orders/apis/orders.py:237-240 | the i-th summary is the entry's meal and its line's quantity just after that entry |
| OrderApi.StopIsFinal | apps/orders/apis/orders.py:222-224 | once the batch stops, later entries change nothing |
| OrderApi.StopsBeforeRaise | apps/orders/apis/orders.py:219-245 | an invalid entry before the point where the save would raise ends the batch with that entry's error and the effect of the entries before it, and the exception is never reached |
| OrderApi.BatchStopsAtFirstInvalid | apps/orders/apis/orders.py:219-224 | the batch keeps the effect of the entries before the first invalid one and reports that entry's error |
| OrderApi.AtomicBatch | apps/orders/apis/orders.py:219-240 | the loop inside the transaction reports the exception exactly when the batch reaches the entry that raises; otherwise it leaves the batch's item table and result |
| OrderApi.ProcessItems | apps/orders/apis/orders.py:215-245 | the batch's item table and result, or, when an entry raises, the error with the item rows and the next item id restored |
| OrderApi.AddMultipleOrderItems | apps/orders/apis/orders.py:180-213 | no order gives 404 with no change to items, next item id or orders; otherwise the batch runs and the order total is recomputed only when it succeeds |
| Managers.RemoveFromLine | apps/orders/apis/managers.py:44-55 | removal fails exactly when the order has no line for the meal |
| Managers.RemoveFromLineQuantity | apps/orders/apis/managers.py:49-55 | a positive remainder becomes the line's quantity, otherwise the line is deleted; other lines and rows are kept |
| Managers.RemoveFromLineValid | apps/orders/apis/managers.py:50-55 | removal keeps the item table valid |
| Managers.RemoveFromLineStoredTotal | apps/orders/apis/managers.py:50-57 | the stored total drops by the line's stored price only when the line is deleted |
| Managers.RemoveOrderItem | apps/orders/apis/managers.py:24-86 | no current order gives 404; a missing or unknown meal, a quantity below 1 (default 1) or a missing line give 400 with no change; otherwise the line is lowered or deleted and the total recomputed; the order itself stays |
| Managers.ChangeOrderTable | apps/orders/apis/managers.py:106-143 | the four 404 checks in source order, each with no change; otherwise only the order's table changes |
| Managers.MoveKeepsOneOpenPerTable | apps/orders/apis/managers.py:131-138 | moving an unpaid order to a table without one keeps one unpaid order per table and frees the old table |
| Managers.ChangeWaitress | apps/orders/apis/managers.py:187-218 | the new waitress is checked before the order; on success only the order's waitress changes |
| Managers.CloseTableOrder | apps/orders/apis/managers.py:224-248 | a missing table or order gives 404 with no change; otherwise only `is_paid` becomes true |
| Managers.CloseFreesTable | apps/orders/apis/managers.py:243-244 | closing the table's unpaid order leaves the table with no unpaid order |
| Close.CloseTableOrder | apps/orders/apis/orders/close.py:16-48 | a missing table or order gives 404 with no change; otherwise a print is attempted first and the order ends paid whatever the printer does |
| Receipts.LineTotalsMatchReceiptTotal | apps/orders/apis/printer.py:36-44 | the receipt total equals the sum of the line totals `quantity × meal.price` |
| Receipts.ReceiptTotalConcat | apps/orders/apis/printer.py:44 | the receipt total of two item lists is the sum of their totals |
| Receipts.ReceiptForSpec | apps/orders/apis/printer.py:57-67 | one line per item of the order, line i being item i numbered i + 1 at the live meal price, and the total is the sum of the line totals |
| Receipts.SectionSpec | apps/orders/apis/printer.py:197-215 | one order's section lists its lines numbered from the running index and carries the order's total |
| Receipts.NumberedLinesConcat | apps/orders/apis/printer.py:195-213 | numbering two item lists one after the other continues the index |
| Receipts.BodyForOrdersSpec | apps/orders/apis/printer.py:190-217 | the body's lines are all items numbered from 1, the order totals add up to the grand total, which is the receipt total of all items |
| Receipts.BodyIndexContinuous | apps/orders/apis/printer.py:195-213 | the item index runs 1..n across orders without gaps |
| Receipts.OrderDataSpec | apps/printers/utils/service.py:15-34 | one item entry per order item, and the order total is the sum of the line totals |
| Printer.GenerateBody | apps/orders/apis/printer.py:32-44 | the loop yields the numbered lines, and the separate sum over the items yields the receipt total |
| Printer.GenerateReceiptText | apps/orders/apis/printer.py:57-67 | the receipt of the order |
| Printer.PrintOrderForTable | apps/orders/apis/printer.py:113-133 | the gate refuses when printing is not allowed and not forced, then when there is no order; only a 200 reply sets the order's flag; every other outcome changes nothing |
| Printer.ResetCheck | apps/orders/apis/printer.py:154-172 | the reset is refused while printing is allowed; otherwise it clears the current order's flag |
| Printer.GenerateOrderLines | apps/orders/apis/printer.py:203-213 | the inner loop yields one order's numbered lines and its total |
| Printer.GenerateBodyForOrders | apps/orders/apis/printer.py:190-217 | the loop yields the body and the grand total |
| Printer.GenerateReceiptTextForOrders | apps/orders/apis/printer.py:230-243 | no orders give the empty text; otherwise the header waitress, the body and the grand total |
| Printer.PrintOrdersForTable | apps/orders/apis/printer.py:270-286 | the gate, then a 200 reply marks every current order printed; anything else changes nothing |
| Printer.ResetChecks | apps/orders/apis/printer.py:307-323 | the reset is refused while printing is allowed or with no current orders; otherwise it clears all current orders' flags |
| PrinterService.GenerateOrderData | apps/printers/utils/service.py:15-34 | the loop yields the order's data |
| PrinterService.GenerateReceiptDataForOrders | apps/printers/utils/service.py:36-59 | no orders give the empty result; otherwise one entry per order in input order |
| PrinterService.ReceiptDataSpec | apps/printers/utils/service.py:41-57 | one entry per order carrying its id, and the order totals sum to the grand total of the text receipt |
| PrinterService.SumsAgree | apps/printers/utils/service.py:28-34 | the per-order totals add up to the grand total |
| PrinterService.PrintOrdersForTable | apps/printers/utils/service.py:86-106 | the same gate; a 200 reply marks all current orders printed, a 500 or an exception changes nothing |
| Statistics.Lookup | apps/orders/models/statistics.py:43 | the row found has the key asked for, and none is found exactly when no row has it |
| Statistics.UpsertLookup | apps/orders/models/statistics.py:28-35 | after `update_or_create` the key finds the new row, every other key what it found before |
| Statistics.UpsertPresent | apps/orders/models/statistics.py:28-35 | upserting a row already stored changes nothing |
| Statistics.UpsertValid | apps/orders/models/statistics.py:28-35 | an upsert keeps one row per key |
| Statistics.UpsertAllIdempotent | apps/orders/models/statistics.py:25-35 | running the same batch of upserts twice leaves what running it once does |
| Statistics.PaidOnMembers | apps/orders/models/statistics.py:19-23 | the day's paid orders are exactly the paid orders created that day |
| Statistics.WaitressesSpec | apps/orders/models/statistics.py:19-23 | the grouped waitresses are distinct and are exactly the non-null waitresses of the orders |
| Statistics.PerWaitressRowsSpec | apps/orders/models/statistics.py:19-35 | one per-waitress row per waitress with a paid order that day, carrying the sum of those orders' totals |
| Statistics.PerWaitressIdempotent | apps/orders/models/statistics.py:28-35 | re-running the per-waitress calculation changes nothing |
| Statistics.PerWaitressLookupOther | apps/orders/models/statistics.py:28-35 | the per-waitress calculation touches no other key |
| Statistics.DailyResult | apps/orders/models/statistics.py:43-59 | the returned row is the day's daily row after the run |
| Statistics.DailyRowAfterRun | apps/orders/models/statistics.py:43-59 | an existing daily row is kept; otherwise the day's paid total is written unless it is zero |
| Statistics.DailyLookupOther | apps/orders/models/statistics.py:37-59 | the daily calculation touches only that day's daily and per-waitress keys |
| Statistics.DailyIdempotent | apps/orders/models/statistics.py:37-59 | running the daily calculation twice leaves what running it once does |
| Statistics.DailySumAfterDaily | apps/orders/models/statistics.py:43-57 | a daily run adds to the month's daily sum exactly the day's total when it had no row |
| Statistics.DaysLookupOther | apps/orders/models/statistics.py:67-68 | the month's day loop leaves other titles and later days alone |
| Statistics.DailySumAfterDays | apps/orders/models/statistics.py:67-70 | after the day loop, the month's daily sum is the old one plus the totals of the days that had no row |
| Statistics.FreshDaysAreAllDays | apps/orders/models/statistics.py:67-70 | with no daily rows beforehand, that is the month's paid total day by day |
| Statistics.MonthlyRollUp | apps/orders/models/statistics.py:61-80 | the monthly total is that sum; a zero total leaves the monthly row alone, otherwise it is overwritten on the first of the month |
| Statistics.MonthlyLookupYearly | apps/orders/models/statistics.py:75-79 | the monthly calculation never touches a yearly row |
| Statistics.MonthsLookupYearly | apps/orders/models/statistics.py:88-90 | the month loop never touches a yearly row |
| Statistics.YearlyRow | apps/orders/models/statistics.py:82-102 | the yearly row is overwritten with the year's monthly sum on January 1st, or left alone when it is zero |
| Statistics.KeepOrdersSplit | apps/orders/models/statistics.py:112-115 | exactly the paid orders of the day go, the rest stay, and the count deleted is the number of those paid orders |
| Statistics.KeepOrdersValid | apps/orders/models/statistics.py:112-114 | deleting orders keeps the order table valid |
| Statistics.ZReportArchivesDeleted | apps/orders/models/statistics.py:104-115 | with no daily row beforehand, the row written before deleting carries the sum of exactly the deleted orders' totals |
| Statistics.DailyRowSurvivesDelete | apps/orders/models/statistics.py:104-115 | after the deletion, a new daily run for that day leaves its daily row as it was |
| StatisticsManager.ResolveDate | apps/orders/models/statistics.py:16-17 | the given date, or the day before today |
| StatisticsManager.CalculatePerWaitress | apps/orders/models/statistics.py:15-35 | the upsert loop leaves the per-waitress table of the day and a valid database |
| StatisticsManager.CalculateDaily | apps/orders/models/statistics.py:37-59 | the daily table and the returned row, which is the day's daily row afterwards |
| StatisticsManager.RunDays | apps/orders/models/statistics.py:64-68 | the day loop leaves the daily table as the daily calculation for each day of the month in order |
| StatisticsManager.CalculateMonthly | apps/orders/models/statistics.py:61-80 | the day loop then the monthly upsert; a row is returned exactly when the total is not zero, and it is the stored monthly row |
| StatisticsManager.RunMonths | apps/orders/models/statistics.py:85-90 | the month loop leaves the tables as the monthly calculation for each month from January on, in order |
| StatisticsManager.CalculateYearly | apps/orders/models/statistics.py:82-102 | the month loop then the yearly upsert; a row is returned exactly when the total is not zero, and it is the stored yearly row |
| StatisticsManager.DeleteOrdersForStatisticsDay | apps/orders/models/statistics.py:104-115 | the daily calculation first, then the day's paid orders and their items are deleted; the count is the number of orders removed |
| SqliteDump.ReplaceAbsent | dumb_sqlite.py:18-21 | replacing a word that does not occur leaves the text unchanged |
| SqliteDump.ConvertSchemaUnchanged | dumb_sqlite.py:16-22 | a schema with none of the four SQLite keywords comes back unchanged |
| SqliteDump.Escape | dumb_sqlite.py:53 | doubling quotes never shortens the text |
| SqliteDump.Quote | dumb_sqlite.py:53 | a text literal starts and ends with a single quote |
| SqliteDump.QuoteRoundTrip | dumb_sqlite.py:52-53 | dropping the outer quotes and collapsing each doubled quote gives the text back |
| SqliteDump.QuoteInjective | dumb_sqlite.py:52-53 | different texts give different literals |
| SqliteDump.NatText | dumb_sqlite.py:56-57 | `str` of a natural number is a non-empty string of digits |
| SqliteDump.ParseIntText | dumb_sqlite.py:56-57 | the decimal text of an integer reads back to the integer |
| SqliteDump.LiteralHead | dumb_sqlite.py:51-57 | a text literal starts with a quote, NULL with `N`, an integer with a digit or a minus sign |
| SqliteDump.LiteralInjective | dumb_sqlite.py:51-57 | text, NULL and integer values with the same literal are the same value |
| SqliteDump.Literals | dumb_sqlite.py:50-57 | one literal per column, in column order |
| SqliteDump.RenderInsert | dumb_sqlite.py:49-59 | the row loop yields `INSERT INTO t VALUES (...);` over the row's literals joined by `, ` |
| SqliteDump.DumpTable | dumb_sqlite.py:36-60 | the table loop writes the converted schema line, then one statement line per row in order |
| SqliteDump.TableDumpPrefix | dumb_sqlite.py:42-60 | the dump of the first k rows is a prefix of the dump of all rows |
| SpecFile.FirstIndex | build_exe.py:35-41 | the first index at or after the start whose line satisfies the test, with no earlier one satisfying it, or none exactly when no line from the start on does |
| SpecFile.Search | build_exe.py:58-63 | the for/else loop stops at the first matching line at or after the start, or runs to the end exactly when there is none |
| SpecFile.ModifySpecFile | build_exe.py:27-66 | the two for/else search loops and the assignment or insert yield the edited lines, or the error |
| SpecFile.AnalysisIsNotDatas | build_exe.py:36-59 | no line is both an Analysis line and a `datas=` line |
| SpecFile.DatasLineIsDatas | build_exe.py:52-55 | the new line, stripped, starts with `datas=`, so a later run finds it |
| SpecFile.EditedSpecSpec | build_exe.py:35-63 | the edit fails exactly when no Analysis line exists; lines up to the Analysis line are kept; the first later `datas=` line is replaced keeping the length, or the new line is inserted after the Analysis line growing it by one, every other line kept in order |
| SpecFile.EditedSpecIdempotent | build_exe.py:57-63 | with a replacement line that is itself a `datas=` line, editing an edited file again changes nothing |
| SpecFile.ModifiedSpecIdempotent | build_exe.py:57-63 | editing an edited file again changes nothing |

## Left out

- HTTP and framework plumbing: responses, serializers' output, swagger, URL routing. Each view returns its outcome as a `Result` or a print result; the comments on `Store.Error` give the HTTP status.
- Printer transport: the temporary file, the HTTP post and the socket send are replaced by the `reply` parameter (a status code, or an exception such as the missing main printer). `PrintCheckAPIView.post` and `PrintCheckAPIViewV2.post` only wrap the services and are not modelled.
- Receipt text cosmetics: the header's date, room and name, the number formatting and the footer. Receipts are modelled as their lines, numbering and totals.
- Access control and authentication: the caller's role is an input.
- Concurrency, `F()` expressions and lost updates: operations run one at a time. `transaction.atomic` is modelled only as "an exception rolls the batch back".
- Time zones and `localdate`: each order has a creation day; the clock is the `today` parameter.
- Decimal `max_digits` overflow: money is unbounded integer cents.
- Admin classes, listing views, migrations, and the file and cursor I/O of the two scripts.
- `Statistics.orders`, `is_z_checked` and `Table.waitress` are referenced but not defined by the models and are not part of this model.
- `Table.current_order`, `current_orders`, `can_print_check()` and `assignable_table` are not defined in the code shown; they are parameters constrained only as described above.
- Statistics.Statistic: `waitress_info` ("username - first last") is modelled by the waitress's user id, which the unique username determines.
- Managers.RemoveOrderItem: when both the meal id and the quantity are invalid, the serializer reports both errors; the model reports the meal error.
- OrderApi.AddMultipleOrderItems: the exception that rolls the batch back is chosen by the `raiseAt` parameter (the entry at which the database raises); which exceptions the database can raise is not modelled.
- SqliteDump.Literals: floats and blobs are `Other` values carrying the text `str` gives them; their rendering is not modelled.
- SpecFile.ModifySpecFile: the paths are joined with `/`, as on POSIX systems; the script's `Path` uses the platform's separator.
- StatisticsManager.ResolveDate: requires a clock date after 1 January of year 1, where `date - timedelta(days=1)` would overflow.
- Calendar dates are plain year, month and day; `created_at` times within the day are not modelled.
