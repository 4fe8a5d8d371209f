# Office inventory: local store, reports and restock rules

A Dafny model of the data core of an office-inventory application.

- **The browser-side local database.** An IndexedDB database `office_inventory`,
  version 1, holds three object stores:
  - `inventory` keyed by `id`, with indexes on `name` and `category`;
  - `purchaseOrders` keyed by `id`, with an index on `orderDate`;
  - `settings` keyed by `key`.

  Over those stores it keeps a repository:
  - inventory items with a sequence counter (`inventory_seq`) and zero-padded
    display ids (`pad4`);
  - purchase orders with a date-range filter;
  - settings;
  - the serial repair `ensureInventorySerials`;
  - JSON backup (`exportAll`) and restore (`importAll`).
- **The server's purchase-order reports.** This covers the SQL text and the
  parameters of `getOrders` for an optional date range, the decoding of the
  stored `items` JSON column, the row of the orders spreadsheet, and the
  projection that picks one item's line out of each order.
- **The restock rules of the purchases screen.** These are which items are low
  on stock, the suggested reorder quantity, and the item a new order form
  starts with.

Modules, in dependency order:

| file | module | what it holds |
|---|---|---|
| common.dfy | `Common` | `Option`, the patch field `Spread`, `Max`, subsequences |
| text.dfy | `Text` | `trim`, `String(n)`, `padStart`, `pad4` and its round trip through base-10 parsing |
| key_order.dfy | `KeyOrder` | the ascending key order `getAll` lists a store in |
| inventory_records.dfy | `InventoryRecords` | the item record, what `Inventory.create` and `Inventory.update` build |
| order_records.dfy | `OrderRecords` | the order record, what `PurchaseOrders.create` and `update` build, the date filter |
| keyed_stores.dfy | `KeyedStores` | stores as maps keyed by their key path; sequences of `put` |
| serials.dfy | `Serials` | what `ensureInventorySerials` computes, and what holds after it |
| store.dfy | `LocalStore` | the class `LocalDb` with the three stores as fields and every repository operation as a method |
| indexed_db.dfy | `IndexedDb` | the class `Database`: `getDB`'s `openDB` call and its `upgrade` callback |
| orders_query.dfy | `OrdersQuery` | `getOrders`'s SQL text and parameter list |
| reports.dfy | `Reports` | row decoding, the export row and the per-item report row |
| purchases.dfy | `Purchases` | `lowStockItems`, `suggestedQty`, the default item of `openModal` |

The model makes these representation choices:
- The store operations are methods of a class whose fields are the three
  stores, each a `map` from key to record. `getAll` is the map's values in
  ascending key order (`KeyOrder.InKeyOrder`).
- Fresh ids (`uuid()`) and the current time (`new Date()`, `Date.now()`) are
  parameters.
- A date string is represented by the instant it parses to, in milliseconds.
- The JSON parser of the reports is a parameter.
- A patch tells a missing key from a key that holds `null` or `undefined`
  (`Common.Spread`): the object spread writes the latter over the record too,
  so a record's optional fields can be null after an update.

In a few places the code does something other than the application's documented
design; the model follows the code:
- `Inventory.update` spreads the whole patch over the record, so a patch can
  overwrite `id`, `serial` and `display_id`. The record is `put` under the
  patched `id`. `InventoryRecords.PatchKeepsIdentity` states when the identity
  is kept.
- `Inventory.update` does not check the name again: a patch whose name trims
  to the empty string is stored, though `Inventory.create` refuses such a name.
  `InventoryRecords.PatchItem` states the trimmed patch name without that check.
- Removing an id that is not present deletes nothing and reports no error,
  because IndexedDB's `delete` is silent there.
- `Inventory.create` bumps the counter before `add`. When `add` is refused
  because the key is taken, the counter stays bumped.
- The local `listByDateRange` compares instants. The server's `getOrders`
  compares calendar dates (`date(...)` in SQL).

## Model

| member | source | states |
|---|---|---|
| Text.Pad4Shape | client/src/localdb/store.js:5 | the display id is the decimal text of `n` preceded by zeros up to four characters, and never shorter than that text |
| Text.Pad4RoundTrip | client/src/localdb/store.js:5 | the display id of a non-negative serial is all digits and reads back in base 10 as that serial |
| Text.Pad4Injective | client/src/localdb/store.js:5 | distinct non-negative serials get distinct display ids |
| Text.Pad4Successive | client/src/localdb/store.js:5 | consecutive non-negative serials get different display ids |
| Text.ParseNatToString | client/src/localdb/store.js:5 | the decimal text of a natural number reads back as that number |
| Text.ParseLeadingZeros | client/src/localdb/store.js:5 | leading zeros do not change the value a digit string reads as |
| Text.IntToStringChars | server/routes/reports.js:54 | the text of an integer is digits after an optional leading minus, so it holds no comma |
| Text.Trim | client/src/localdb/store.js:20 | the trimmed string has no whitespace at either end and is no longer than the input |
| Text.TrimIsInfix | client/src/localdb/store.js:20 | the input is whitespace, then the trimmed string, then whitespace |
| Text.TrimEmptyIff | client/src/localdb/store.js:20-21 | trimming gives the empty string exactly when the input is all whitespace |
| Text.TrimIdempotent | client/src/localdb/store.js:49 | trimming a trimmed string changes nothing |
| Text.PadStart | client/src/localdb/store.js:5 | the result is `width` long or as long as `s` if longer, ends with `s` and is `fill` before it |
| Text.Pad4 | client/src/localdb/store.js:5 | `pad4(n)` pads `String(n)` at the start with zeros to four characters; `Text.Pad4Shape` states its shape |
| Text.IntToString | client/src/localdb/store.js:5 | `String(n)` has at least one character, and for a non-negative `n` it is the decimal digits of `n` |
| Text.NatToString | client/src/localdb/store.js:5 | the decimal text of a natural number is at least one digit, all digits, and has no leading zero |
| KeyOrder.AscendingKeysSorted | client/src/localdb/store.js:16 | `getAll` visits the keys strictly ascending, so no key twice |
| KeyOrder.AscendingKeys | client/src/localdb/store.js:16 | the listing holds exactly the keys of the store, each once |
| KeyOrder.InKeyOrder | client/src/localdb/store.js:16 | `getAll` returns one record per key, position i holding the record under the i-th key |
| KeyOrder.AscendingKeysDistinct | client/src/localdb/store.js:104 | two positions of the listing hold different keys |
| KeyedStores.PutAllFacts | client/src/localdb/store.js:141-143 | after a run of `put`s the store holds the old keys plus the records' keys; each of those keys holds the last record put under it, whatever was stored before; untouched keys keep their records; each record sits under its own key |
| KeyedStores.PutAll | client/src/localdb/store.js:141-143 | the store after `put`-ting each record in turn; `KeyedStores.PutAllFacts` states what it holds |
| KeyedStores.RestoreListing | client/src/localdb/store.js:123-145 | `put`-ing everything `getAll` returned into an empty store rebuilds the store exactly |
| InventoryRecords.ItemName | client/src/localdb/store.js:20-21 | the validated name is the given name (empty when absent) trimmed, so it has no whitespace at either end, and it is empty exactly when the given name is absent or all whitespace |
| InventoryRecords.TrimmedOrEmpty | client/src/localdb/store.js:29 | an optional text field becomes the given text trimmed, and the empty string when absent |
| InventoryRecords.PriceOrNull | client/src/localdb/store.js:36 | the price is kept exactly when an amount was given, else null |
| InventoryRecords.NewItem | client/src/localdb/store.js:24-37 | a new item has the fresh id, serial `next` with display id `pad4(next)`, the trimmed given name (never empty), each text field the trimmed given text (empty when absent), quantity and threshold the given ones or 0, and the price the given amount, null when absent or empty |
| InventoryRecords.NewItemDisplayId | client/src/localdb/store.js:26-27 | a created item's display id reads back as its serial |
| InventoryRecords.PatchItem | client/src/localdb/store.js:46-53 | every key the patch holds is written over the current record, `null` included, and a missing key keeps the current field; `name` is trimmed; `name`, `quantity` and `restock_threshold` keep their value for null; `last_price` keeps its value for null or empty |
| InventoryRecords.PatchNothing | client/src/localdb/store.js:46-53 | an empty patch leaves the item as it is |
| InventoryRecords.PatchIdempotent | client/src/localdb/store.js:46-53 | applying a patch twice equals applying it once |
| InventoryRecords.PatchKeepsIdentity | client/src/localdb/store.js:46-48 | a patch without `id`, `serial` and `display_id` keeps all three |
| Serials.ClearedSerialNeedsRepair | client/src/localdb/store.js:48 | a patch that writes `null` over the serial or the display id leaves the item for the next repair to stamp |
| OrderRecords.OrElse | client/src/localdb/store.js:76-80 | a falsy (absent or empty) string falls back to the default, any other is kept |
| OrderRecords.InitialItems | client/src/localdb/store.js:79 | the lines are `items` when it is an array, else `orderItems` when given, else none |
| OrderRecords.NewOrder | client/src/localdb/store.js:74-82 | a new order has the fresh id, the given date or now, `last_modified` now, the given supplier and notes (empty when falsy), status the given one or `final` when falsy, and the given lines |
| OrderRecords.PatchOrder | client/src/localdb/store.js:90 | every key the patch holds is written over the current order, `null` included (an emptied order date reads as none), a missing key keeps the current field, and `last_modified` becomes now |
| OrderRecords.PatchOrderNothing | client/src/localdb/store.js:90 | an empty patch only refreshes `last_modified` |
| OrderRecords.PatchOrderTwice | client/src/localdb/store.js:90 | patching twice equals patching once at the later time |
| OrderRecords.ClearedDateFilesAtUpdate | client/src/localdb/store.js:67 | once a patch clears the order date, the date filter files the order under the time of that update |
| OrderRecords.OrderTime | client/src/localdb/store.js:67 | the instant an order is filed under is its order date, else its last change, else the current time |
| OrderRecords.InRange | client/src/localdb/store.js:64-68 | an instant passes the filter when it is at or after the start and at or before the end, a missing bound not limiting |
| OrderRecords.FilterByDate | client/src/localdb/store.js:63-69 | every order kept is one of the listed orders and lies within both bounds |
| OrderRecords.FilterIsSubsequence | client/src/localdb/store.js:66-69 | the filter keeps the listed order of the orders |
| OrderRecords.FilterCounts | client/src/localdb/store.js:66-69 | an order in range occurs as often as in the listing, any other not at all |
| OrderRecords.FilterMembership | client/src/localdb/store.js:64-68 | an order is returned exactly when it is listed and its instant (order date, else last change, else now) lies within both bounds, inclusive |
| OrderRecords.FilterUnbounded | client/src/localdb/store.js:64-65 | with neither bound every listed order is returned |
| Serials.MaxSerial | client/src/localdb/store.js:105-108 | the result is at least 0, at least every numeric serial, and is either 0 or one of the serials |
| Serials.NeedsSerial | client/src/localdb/store.js:114 | an item is stamped exactly when its serial or its display id is null or undefined |
| Serials.CountNeeding | client/src/localdb/store.js:113-120 | the number of items the second loop stamps, at most the number of items |
| Serials.Stamp | client/src/localdb/store.js:116-117 | the item with serial `n` and display id `pad(n)`; `Serials.RepairStamp` states what a stamp changes in the store |
| Serials.Backfill | client/src/localdb/store.js:113-120 | the listing after the second loop, as long as before; `Serials.BackfillAt` states each position |
| Serials.BackfillAt | client/src/localdb/store.js:113-120 | the j-th item, when it lacks a serial or display id, gets counter + (earlier such items) + 1 and its formatted display id, and is otherwise unchanged |
| Serials.BackfillComplete | client/src/localdb/store.js:113-120 | after back-filling every item keeps its id and has a serial and a display id |
| Serials.BackfillKeepsComplete | client/src/localdb/store.js:114 | an item that had both a serial and a display id is left exactly as it was |
| Serials.BackfillFresh | client/src/localdb/store.js:105-120 | newly assigned serials are pairwise distinct, above every serial present before, and at most the final counter |
| Serials.BackfillBounded | client/src/localdb/store.js:105-120 | after back-filling no serial exceeds the final counter |
| Serials.BackfillAboveCounter | client/src/localdb/store.js:115 | a newly assigned serial exceeds the counter value the second loop started from |
| Serials.RepairCompletes | client/src/localdb/store.js:102-121 | after the repair every stored item has a serial and a display id, none above the final counter, and complete items are untouched |
| Serials.RepairSerialIsNew | client/src/localdb/store.js:105-120 | a newly assigned serial exceeds every serial stored before the repair |
| Serials.RepairSerialsDistinct | client/src/localdb/store.js:113-120 | two items repaired together receive different serials |
| Serials.RepairStamp | client/src/localdb/store.js:114-118 | a turn of the second loop that stamps an item extends the repaired prefix by one |
| Serials.RepairSkip | client/src/localdb/store.js:114 | a turn that passes over a complete item extends the repaired prefix by one |
| LocalStore.LargestSerial | client/src/localdb/store.js:105-108 | the first loop computes the largest numeric serial, or 0, bounding every serial |
| LocalStore.CounterOf | client/src/localdb/store.js:10 | the counter is the value of the `inventory_seq` setting, or 0 without one |
| LocalStore.MovedCounterOnlyTwice | client/src/localdb/store.js:111 | two rounds of counter writes leave the other settings alone |
| LocalStore.AsPayload | client/src/localdb/store.js:128-143 | a snapshot's three arrays are what an import reads |
| LocalStore.LocalDb.NextInventorySeq | client/src/localdb/store.js:7-13 | the counter (0 when unset) goes up by one, is written back under `inventory_seq` and returned; no other store changes |
| LocalStore.LocalDb.ListInventory | client/src/localdb/store.js:16 | every item, in key order |
| LocalStore.LocalDb.GetItem | client/src/localdb/store.js:17 | the item under `id` exactly when there is one |
| LocalStore.LocalDb.CreateItem | client/src/localdb/store.js:18-41 | an empty name fails before any write; otherwise the counter is bumped, and the new item is added under its id or refused when the id is taken |
| LocalStore.LocalDb.AddItem | client/src/localdb/store.js:39 | `add` refuses a taken key and otherwise inserts the record under its id |
| LocalStore.LocalDb.UpdateItem | client/src/localdb/store.js:42-56 | `Not found` without a current item; otherwise the patched item is `put` under its own id |
| LocalStore.LocalDb.RemoveItem | client/src/localdb/store.js:57 | the key is gone and nothing else changes, the counter included |
| LocalStore.LocalDb.ListOrders | client/src/localdb/store.js:61 | every order, in key order |
| LocalStore.LocalDb.ListOrdersByDateRange | client/src/localdb/store.js:62-70 | the listed orders within both bounds, inclusive, in listing order; all of them without bounds |
| LocalStore.LocalDb.GetOrder | client/src/localdb/store.js:71 | the order under `id` exactly when there is one |
| LocalStore.LocalDb.CreateOrder | client/src/localdb/store.js:72-85 | the defaulted order is added under its id, or refused when the id is taken |
| LocalStore.LocalDb.UpdateOrder | client/src/localdb/store.js:86-93 | `Not found` without a current order; otherwise the merged order, stamped now, is `put` under its own id |
| LocalStore.LocalDb.RemoveOrder | client/src/localdb/store.js:94 | the key is gone and nothing else changes |
| LocalStore.LocalDb.GetSetting | client/src/localdb/store.js:98 | the setting under `key` exactly when there is one |
| LocalStore.LocalDb.SetSetting | client/src/localdb/store.js:99 | the setting `{ key, value }` is upserted and nothing else changes |
| LocalStore.LocalDb.EnsureInventorySerials | client/src/localdb/store.js:102-121 | the counter is raised to the largest serial, each listed item lacking a serial or display id gets the next value and `pad4` of it, every item ends with both and none above the counter, and only the counter setting changes |
| LocalStore.LocalDb.RaiseCounterTo | client/src/localdb/store.js:109-112 | the counter becomes the larger of itself and the largest serial |
| LocalStore.LocalDb.BackfillListed | client/src/localdb/store.js:113-120 | the second loop back-fills every listed item and advances the counter once per item it stamps |
| LocalStore.LocalDb.BackfillTurn | client/src/localdb/store.js:114-119 | one turn extends the back-filled prefix by one item |
| LocalStore.LocalDb.BackfillOne | client/src/localdb/store.js:114-119 | an incomplete item is stamped with the next counter value and `put`; a complete one changes nothing |
| LocalStore.LocalDb.ExportAll | client/src/localdb/store.js:123-129 | version 1, the export time, and each store listed in key order |
| LocalStore.LocalDb.ImportAll | client/src/localdb/store.js:131-145 | with `replace` the stores are cleared first; then each payload array (empty when missing) is `put` in turn; without `replace` no key is lost |
| LocalStore.LocalDb.PutItems | client/src/localdb/store.js:141 | the inventory store after `put`-ting each item in turn |
| LocalStore.LocalDb.PutOrders | client/src/localdb/store.js:142 | the order store after `put`-ting each order in turn |
| LocalStore.LocalDb.PutSettings | client/src/localdb/store.js:143 | the settings store after `put`-ting each setting in turn |
| LocalStore.BackupRestore | client/src/localdb/store.js:123-145 | importing an export with `replace` into any database reproduces all three stores |
| LocalStore.CreateRemoveCreate | client/src/localdb/store.js:18-57 | create, remove, create: the second serial is the first plus one, and their display ids differ, because removal never rewinds the counter |
| IndexedDb.Upgraded | client/src/localdb/indexedDb.js:5-18 | every missing store is created with its key path and indexes; existing stores are kept as they are |
| IndexedDb.UpgradeIdempotent | client/src/localdb/indexedDb.js:5-18 | running `upgrade` twice equals running it once |
| IndexedDb.UpgradedFromEmpty | client/src/localdb/indexedDb.js:6-17 | a fresh database gets exactly the three stores, keyed by `id`, `id` and `key` |
| IndexedDb.Database.CreateObjectStore | client/src/localdb/indexedDb.js:7 | a store is created with its key path and no index, unless the name is taken |
| IndexedDb.Database.CreateIndex | client/src/localdb/indexedDb.js:8-9 | an index is added to an existing store, unless it already has one by that name |
| IndexedDb.Database.Upgrade | client/src/localdb/indexedDb.js:5-18 | the callback leaves exactly the upgraded schema and the version alone |
| IndexedDb.Database.Open | client/src/localdb/indexedDb.js:3-20 | below version 1 the database is upgraded and moved to version 1; above it, opening fails; at it, nothing changes; after a successful open all three stores exist |
| IndexedDb.OpenTwice | client/src/localdb/indexedDb.js:3-20 | opening again, as every operation does, changes nothing |
| OrdersQuery.BuildOrdersQuery | server/routes/reports.js:18-32 | the SQL text renders the query's clauses in order, and the parameters are the given bounds |
| OrdersQuery.QueryShape | server/routes/reports.js:19-32 | the query selects from `purchaseOrders` and ends ordering newest first; it has `WHERE 1=1` right after the SELECT exactly when a bound is given, and each date comparison exactly when its bound is given |
| OrdersQuery.QueryBindings | server/routes/reports.js:21-31 | there are as many placeholders as parameters, and each placeholder is bound to the bound its comparison is about: `>=` to the start, `<=` to the end |
| OrdersQuery.QueryPlaceholders | server/routes/reports.js:21-31 | the placeholders are the lower bound's, then the upper bound's, each only when given |
| OrdersQuery.QueryUnbounded | server/routes/reports.js:19-32 | without bounds the query is the SELECT then the ORDER BY, with no parameters |
| OrdersQuery.QueryFrame | server/routes/reports.js:19-32 | as text, every query starts with the SELECT and ends with the ORDER BY |
| OrdersQuery.RenderQuery | server/routes/reports.js:19-32 | the text of the query's clauses is the concatenation of their texts in the order they are appended |
| OrdersQuery.RenderFrame | server/routes/reports.js:19-32 | the text of a clause list starts with its first clause's text and ends with its last one's |
| OrdersQuery.Placeholders | server/routes/reports.js:24-29 | only clauses that carry a placeholder are listed, no more than there are clauses |
| OrdersQuery.QueryClauses | server/routes/reports.js:19-32 | the clauses in the order they are appended; `OrdersQuery.QueryShape` states which occur |
| OrdersQuery.QueryParams | server/routes/reports.js:20-30 | the start then the end, each only when given; `OrdersQuery.QueryBindings` ties them to the placeholders |
| OrdersQuery.Given | server/routes/reports.js:21-27 | a bound counts as given when it is present and not the empty string, as `if (start)` and `if (end)` test it |
| OrdersQuery.Render | server/routes/reports.js:19-32 | the SQL text of a clause list, its clause texts in order; `OrdersQuery.RenderQuery` and `OrdersQuery.RenderFrame` state it |
| OrdersQuery.ClauseText | server/routes/reports.js:19-32 | the SQL text each clause appends |
| Reports.DecodeRow | server/routes/reports.js:34 | `items` is null exactly when the column is null or empty, and is otherwise the parsed column; every other column is kept |
| Reports.DecodeRows | server/routes/reports.js:34 | every row is decoded, in order |
| Reports.ExportRowOf | server/routes/reports.js:50-56 | date, supplier and total are copied; with line items, the Items and Quantity cells join the lines' names and quantities with `", "`; without, they are the order's own item name and quantity |
| Reports.JoinRoundTrip | server/routes/reports.js:53-54 | a `", "`-joined list of comma-free parts splits back into the same parts |
| Reports.SplitJoin | server/routes/reports.js:53-54 | splitting a `", "`-joined list at commas gives the first part, then each further part behind one blank |
| Reports.ExportItemsListed | server/routes/reports.js:53 | the Items cell lists the lines' names in order when none holds a comma |
| Reports.ExportQuantitiesListed | server/routes/reports.js:54 | the Quantity cell lists each line's quantity in order, and a non-negative one reads back as itself |
| Reports.NumberText | server/routes/reports.js:54 | a number written by `join` holds no comma |
| Reports.Join | server/routes/reports.js:53-54 | the parts with the separator between each two, a single part being itself; `Reports.SplitJoin` and `Reports.JoinRoundTrip` state the inverse |
| Reports.Names | server/routes/reports.js:53 | one name per line, in the lines' order |
| Reports.NameText | server/routes/reports.js:53 | `join` writes a missing (null or undefined) item name as the empty string and any other name as itself |
| Reports.Quantities | server/routes/reports.js:54 | one quantity text per line, in the lines' order |
| Reports.FindByName | server/routes/reports.js:125 | the first line whose item name is exactly the given name, or none when no line has it |
| Reports.FindIgnoresLaterLines | server/routes/reports.js:125 | lines after the item's first line do not change which line is found |
| Reports.ItemRowOf | server/routes/reports.js:120-131 | the date is the order's; with line items, supplier, price and quantity come from the first line for the item, all undefined without one; without line items, they are the order's own |
| Reports.ItemRowFromFirstLine | server/routes/reports.js:163-171 | when line i is the first for the item, the report row shows line i's supplier, price and quantity |
| Purchases.LowStockItems | client/src/Purchases.js:34-38 | the low-stock list is no longer than the items and holds only low-stock items |
| Purchases.IsLowStock | client/src/Purchases.js:36-37 | an item is low on stock when it has a threshold and its quantity does not exceed it |
| Purchases.LowStockIsSubsequence | client/src/Purchases.js:34-38 | the low-stock list keeps the items' order |
| Purchases.LowStockCounts | client/src/Purchases.js:34-38 | a low-stock item occurs as often as among the items, any other not at all |
| Purchases.LowStockMembership | client/src/Purchases.js:34-38 | an item is listed exactly when it has a threshold and its quantity does not exceed it |
| Purchases.SuggestedQty | client/src/Purchases.js:40-45 | a suggestion is given exactly when twice the threshold exceeds the quantity; it is positive and tops the quantity up to twice the threshold |
| Purchases.LowStockSuggestion | client/src/Purchases.js:34-45 | a low-stock item with a positive threshold always gets a suggestion of at least the threshold |
| Purchases.DefaultItemId | client/src/Purchases.js:49 | the form's default item id, when there is one, is never 0 |
| Purchases.FirstLowStock | client/src/Purchases.js:34-38 | the first low-stock item heads the low-stock list |
| Purchases.DefaultIsFirstLowStock | client/src/Purchases.js:49 | the form starts with the first low-stock item's id, or blank when that id is 0 |
| Purchases.DefaultBlankWhenNoneLow | client/src/Purchases.js:49 | with no low-stock item the list is empty and the form starts blank |

## Left out

- Number coercion (`Number(...)`, `String(...)` of arbitrary values) is left out. Quantities, thresholds, prices and serials are integers; floating-point prices, `NaN` and non-numeric strings are not modelled.
- Dates are instants in milliseconds. Parsing of ISO strings, invalid dates (`NaN`, which fails both comparisons) and the local time zone are not modelled.
- The server compares calendar dates in SQL (`date(orderDate)`). The model produces the SQL text and parameters; executing the query, its filtering and its `ORDER BY` belong to the database and are not modelled.
- `JSON.parse` is a parameter of `Reports.DecodeRow`. Malformed JSON (which throws) and JSON that parses to something other than an array of lines are not modelled.
- The per-item report's database lookups are not modelled. This covers the item-name query, the `LIKE` pattern query and the 404 for a missing item; the model starts from the decoded rows and the item's name.
- The PDF and XLSX encodings, HTTP responses and headers, and the error logging are I/O and not modelled. So are `fetch`, React state and rendering of the purchases screen.
- String keys are ordered by Unicode scalar value. IndexedDB orders by UTF-16 code unit, which differs only for characters outside the Basic Multilingual Plane.
- Transactions, `await` interleavings and concurrent tabs are not modelled. `importAll` with `replace` clears the stores in one transaction and writes in a second; the model runs both as one sequence.
- `uuid()` and the clock are parameters. Collisions of `uuid()` are reachable in the model (`KeyExists`), not ruled out.
- Records hold exactly the fields of the schema above. Extra properties a caller puts in a patch or an import are not modelled.
- `Purchases.SuggestedQty`: a threshold of `undefined`, which makes the JavaScript suggestion `NaN` and hence blank, is treated like `null` (counted as 0).
- `OrdersQuery.BuildOrdersQuery`: the placeholder count is stated per clause (`OrdersQuery.Placeholders`); that each comparison's text holds exactly one `?` is a fact about its constant, not proved character by character.
- `LocalStore.CreateRemoveCreate`: the display ids are proved to differ only when the counter started non-negative, because `Text.Pad4Injective` is proved for non-negative serials only.
- The settings value is modelled as an integer, the only kind the core itself writes and reads (the `inventory_seq` counter); other settings values are not modelled.
- `LocalStore.LocalDb.ImportAll`: the option `replace` defaults to `true` in the source, so a call without options replaces everything; the model has no default, and its callers pass `replace` explicitly.
- `InventoryRecords.PatchItem`: a patch whose `id` holds `null` or `undefined` is read as one without `id`; the source would `put` a record without a valid key, which IndexedDB refuses.
- `OrderRecords.PatchOrder`: likewise, a patch whose `id` holds `null` or `undefined` is read as one without `id`.
