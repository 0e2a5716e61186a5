# Spreadsheet ledger: a verified model of its bookkeeping core

The application takes daily sales sheets uploaded as spreadsheets and works through them in stages:

- it normalises each sheet into rows;
- it converts the rows into dated transactions of three types (`customer`, `expense`, `cash_in_office`);
- it keeps the transactions in an in-memory store that rebuilds one ledger per customer after every change;
- it derives the dashboard figures from the transactions and the ledgers.

This project models those stages in Dafny and proves what they promise.

- `text.dfy` (module `Text`) covers the string primitives the code relies on:
  - `toLowerCase` and `trim`;
  - substring search and string order;
  - number printing, and a `parseFloat` that falls back to 0.
- `sequences.dfy` (module `Sequences`) is generic list machinery:
  - a stable insertion sort `SortBy`, proved sorted, a permutation and stable, with its first element characterised;
  - `Filter`;
  - `SumOf`, proved independent of order.
- `types.dfy` (module `Types`) holds the records of the application:
  - transactions, ledgers, the dashboard summary, and spreadsheet cells and rows;
  - sums over a payment-method map, and the credit, debit and net effect of a transaction.
- `excel_parser.dfy` (module `ExcelParser`) covers two things:
  - the array-shaping half of `parseExcelFile`: header row, payment-method columns, blanked cells, dropped empty rows;
  - `convertToTransactions`: parsed amounts, positive payment methods only, the three-way classification, ids.
- `ledger.dfy` (module `Ledger`) is the specification of the customer ledgers:
  - grouping of the `customer` rows by lower-cased, trimmed particulars;
  - the stable date sort of each group;
  - the running balance;
  - the totals;
  - the ledger map.
- `database.dfy` (module `Database`) models the `DatabaseManager` store.
  - It is a class with fields:
    - `transactions`, `particularsHistory` and `customerLedgers`;
    - `ledgerOrder`, the insertion order of the ledger `Map`.
  - Its mutators are proved to keep the ledgers equal to the ones the specification builds from the current list.
  - Its mutators are also proved to keep every non-empty particulars in the history.
  - Its queries are proved against the filters and sort orders they implement.
- `calculations.dfy` (module `Calculations`) covers `calculateDashboardSummary`, written as the loops the source uses.
  - Each loop is proved equal to a sum over the transactions or the ledgers.
  - On a consistent store, outstanding less advances is exactly the net effect of every customer row.
- `editable_table.dfy` (module `EditableTable`) covers two parts of the preview table:
  - the row classifier `getCellType`, related to the conversion's classification;
  - `handleSave`, as a class over the editing state.
- `export.dfy` (module `Export`) covers the record shaping shared by the Excel and CSV exports.
  - A record reads back as its transaction exactly when no payment method is named like a fixed column.

Amounts are exact reals, and dates are `YYYY-MM-DD` strings compared as strings.

**Customer display name.** One might expect a ledger's display name to be the particulars of its first transaction in insertion order. The code does otherwise. `transactions.sort` at `src/utils/database.ts:46` sorts the group array in place, so `transactions[0]` at line 70 is the earliest-dated row, and among rows with the same date it is the first one inserted. This model follows the code: see `Ledger.LedgerOrder`.

## Model

| member | source | states |
|---|---|---|
| ExcelParser.ParseSheet | src/utils/excelParser.ts:18-41 | Fails with the "at least 2 rows" message exactly when the sheet has fewer than two rows. On success, the columns are the header row as decoded. The payment methods are the names of the present header cells other than `Particulars`, `SALES` and `PAYMENT`, in header order; a hole in the header row gives none. Every kept row has a filled value. |
| ExcelParser.ParseSheetRows | src/utils/excelParser.ts:23-39 | A shaped data row is kept exactly when some value is neither `''` nor undefined. The rows kept are the shaped rows in sheet order. |
| ExcelParser.PresentNamesSpec | src/utils/excelParser.ts:25-33 | A name is listed exactly when some present header cell carries it; the holes of a sparse header row are passed over, as `forEach` and `filter` do. |
| ExcelParser.FillCell | src/utils/excelParser.ts:26 | A missing or falsy cell becomes `''`; a truthy cell is kept as it is. |
| ExcelParser.ShapeRowKeys | src/utils/excelParser.ts:23-29 | A shaped row has exactly the names of the present header cells as keys; a hole in the header row adds no key. |
| ExcelParser.ShapeRowValues | src/utils/excelParser.ts:25-27 | Each key holds the cell under the last present header of that name, blanked when falsy. |
| ExcelParser.ShapeRowBlanked | src/utils/excelParser.ts:26 | Every value of a shaped row is `''` or a truthy cell. |
| ExcelParser.FillRow | src/utils/excelParser.ts:24-28 | The `headers.forEach` fill loop, which passes over header holes, builds the shaped row. |
| ExcelParser.RowPaymentMethodsSnoc | src/utils/excelParser.ts:60-65 | Proof step, not a promise of the source: one more payment-method column adds it exactly when its amount is positive. |
| ExcelParser.ConvertRow | src/utils/excelParser.ts:53-83 | The per-row conversion loop (payment methods collected one by one, `let type` reassigned) computes `ToTransaction`. |
| ExcelParser.Classify | src/utils/excelParser.ts:67-73 | `cash_in_office` exactly when the lower-cased particulars contain "cash in office". A `customer` row has a positive sale or a retained method; an `expense` row has neither. |
| ExcelParser.ConvertToTransactions | src/utils/excelParser.ts:52-85 | One transaction per row, in row order. Each has the given date, the trimmed particulars, `sales` and `payment` parsed with a fallback to 0, the row's positive payment methods, the type its own particulars, sales and methods classify to, an id made of the date, the row index and that row's clock reading, and no ledger annotations. |
| ExcelParser.ConvertedPaymentMethods | src/utils/excelParser.ts:59-65 | Retained methods are payment-method columns with a strictly positive amount. Every such column is retained with its amount. Their total is therefore non-negative, and positive when any method is retained. |
| ExcelParser.ConvertedType | src/utils/excelParser.ts:54-73 | `cash_in_office` iff the lower-cased particulars contain "cash in office". Otherwise `customer` iff sales > 0 or some method column is positive. Otherwise `expense`. The particulars carry no surrounding spaces. |
| Text.TrimSpec | src/utils/excelParser.ts:54 | `trim` returns a contiguous slice of its input whose ends are not whitespace; every character it drops is whitespace. |
| ExcelParser.BatchIdsDistinct | src/utils/excelParser.ts:76 | The ids of one converted batch are pairwise distinct, whatever `Date.now()` returns for each row. |
| Types.CellText | src/utils/excelParser.ts:54 | `String(c \|\| '')`: falsy cells read as `''`, text cells as their text. |
| Types.ParseAmount | src/utils/excelParser.ts:55-56 | Falsy cells parse to 0; number cells keep their value. |
| Types.SumValuesPick | src/utils/database.ts:53 | The sum of a payment-method map can start from any key, so the `reduce` order does not matter. |
| Types.SumValuesPositive | src/utils/excelParser.ts:62-63 | A map of positive amounts has a non-negative sum, positive unless the map is empty. |
| Types.SumPaymentMethods | src/utils/calculations.ts:27 | The `Object.values(...).reduce` loop computes the sum of the map's values. |
| Ledger.GroupMembers | src/utils/database.ts:34-42 | Every row of a group is a `customer` row whose lower-cased, trimmed particulars are the key. |
| Ledger.GroupKeysSnoc | src/utils/database.ts:34-40 | Proof step, not a promise of the source: one more row adds its key to the key order exactly when it is a customer row whose key is not yet listed. |
| Ledger.GroupKeysSpec | src/utils/database.ts:32-42 | The grouping keys are exactly the keys with a non-empty group, each listed once. |
| Ledger.GroupCount | src/utils/database.ts:34-42 | A group holds each customer row of its key as often as the store does, and nothing else. |
| Ledger.BuildLedger | src/utils/database.ts:45-77 | A ledger counts and lists every row of its group, and its balance is its total sales less its total payments. |
| Ledger.BuildLedgers | src/utils/database.ts:28-80 | Every ledger of the map belongs to a key with a non-empty group and is the ledger built from that group. |
| Ledger.DateLeTotalPreorder | src/utils/database.ts:46-48 | Ascending date order is a total preorder, so the sort is well defined. |
| Ledger.LedgerKeys | src/utils/database.ts:34-79 | There is a ledger for a key exactly when some customer row has that key. |
| Ledger.LedgerPartition | src/utils/database.ts:34-48 | A ledger's sorted rows are exactly its key's customer rows, with multiplicity. Expense and cash-in-office rows are in no ledger. |
| Ledger.AnnotateAt | src/utils/database.ts:50-62 | Entry i carries the running balance over entries 0..i. |
| Ledger.LedgerEntry | src/utils/database.ts:50-62 | Each entry keeps the row's fields. It has credit = sales and debit = payment plus all payment methods. Its balance is the previous balance (0 for the first) plus credit minus debit. |
| Ledger.LedgerOrder | src/utils/database.ts:46-70 | The entries are in non-decreasing date order, and equal dates keep insertion order. The display name is the earliest-dated row's; among equally early rows it is the first inserted. |
| Ledger.LedgerTotals | src/utils/database.ts:64-75 | currentBalance = totalSales − totalPayments, which equals the last entry's balance. The totals are the group's sums. The count is the group size. The last date is a date of the group and its maximum. |
| Ledger.NetSum | src/utils/database.ts:50-54 | The running balance is total credits minus total debits. |
| Ledger.LedgersDomain | src/utils/database.ts:45-80 | The ledger map is keyed by exactly the grouping keys, which are distinct. |
| Ledger.LedgerOf | src/utils/database.ts:45-79 | The ledger stored under a key is the one built from that key's group. |
| Ledger.LedgerNameFromGroup | src/utils/database.ts:70 | A display name is the particulars of one of the ledger's rows. |
| Ledger.LedgerNameKey | src/utils/database.ts:37-70 | A ledger's display name normalises back to its own key. |
| Ledger.GroupSnoc | src/utils/database.ts:41 | Proof step, not a promise of the source: appending a row extends exactly the group of its key. |
| Ledger.GroupNetsSnoc | src/utils/database.ts:34-42 | Appending a row adds its net effect to the group sums once if its key is listed, and not at all otherwise. |
| Ledger.GroupNetsAll | src/utils/database.ts:34-42 | Summed over all keys, the groups' net effects equal the net effect of all customer rows: no row is lost or counted twice. |
| Ledger.LedgerBalanceNet | src/utils/database.ts:64-73 | A ledger's balance is its group's net effect, and a key without a ledger has no rows. |
| Ledger.LedgersForSnoc | src/utils/database.ts:45-79 | Proof step, not a promise of the source: setting the ledger of one more key adds that key's ledger when its group is non-empty. |
| Ledger.AnnotateStep | src/utils/database.ts:50-62 | One more entry moves the running balance by its net effect and appends its annotation. |
| Database.ComputeLedger | src/utils/database.ts:45-77 | The per-group callback (sort, annotate, total) builds the specified ledger. |
| Database.AnnotateEntries | src/utils/database.ts:50-62 | The `map` with its `runningBalance` accumulator annotates every entry as specified. |
| Database.TotalSales | src/utils/database.ts:64 | The sales `reduce` is the sum of the credits. |
| Database.TotalPayments | src/utils/database.ts:65-67 | The payments `reduce` is the sum of the debits, payment methods included. |
| Database.MergeLaws | src/utils/database.ts:91 | The shallow merge with an empty update is the identity, and merging the same update twice is merging it once. |
| Database.Merge | src/utils/database.ts:91 | An update without an id keeps the id, so the row stays findable. One without `sales` keeps the credit, and one without `payment` and `paymentMethods` keeps the debit. |
| Database.MergeFields | src/utils/database.ts:91 | For each of the ten fields, the merged transaction holds the update's value when the update gives one and the old value otherwise. |
| Database.FirstIndexOf | src/utils/database.ts:89 | The index found holds the id and no earlier index does. None means no index holds it. |
| Database.FindIndex | src/utils/database.ts:89 | The `findIndex` loop returns −1 exactly when the id is absent, and otherwise the first index holding it. |
| Database.FilterTransactions | src/utils/database.ts:102-112 | A transaction is listed exactly when the store holds it and it meets every given filter. The list is never longer than the store. |
| Database.FilterTransactionsCount | src/utils/database.ts:99-112 | The filtered list keeps each transaction satisfying every given filter, as often as the store holds it, and nothing else. Empty filter strings are ignored. |
| Database.DateGeTotalPreorder | src/utils/database.ts:114 | Descending date order is a total preorder. |
| Database.AbsGeTotalPreorder | src/utils/database.ts:118-119 | Descending absolute balance is a total preorder. |
| Database.ValuesInOrderMember | src/utils/database.ts:118 | `Array.from(map.values())` lists exactly the values of the listed keys. |
| Database.ValuesInOrderDistinct | src/utils/database.ts:118 | With distinct keys and distinct values, each value is listed once. |
| Database.GroupCustomers | src/utils/database.ts:32-42 | The grouping loop's key order is the first-appearance order of the keys, its domain is those keys, and each value is that key's group. |
| Database.GroupStep | src/utils/database.ts:36-41 | Pushing a customer row onto its key's list, creating the list and listing the key when new, keeps the grouping equal to the specified groups of the longer list. |
| Database.GroupSkip | src/utils/database.ts:34 | A row of another type leaves the grouping of the longer list unchanged. |
| Database.LedgersOfGroups | src/utils/database.ts:45-80 | Building one ledger per grouped key, in key order, gives each key the ledger of its group. |
| Database.CoversEach | src/utils/database.ts:84 | The history covers the store exactly when every row's non-empty particulars is in it. |
| Database.CoversAppend | src/utils/database.ts:83-84 | Appending a batch and recording its particulars keeps the history covering the store. |
| Database.CoversUpdate | src/utils/database.ts:91-94 | Merging an update and recording its particulars when given keeps the history covering the store. |
| Database.DatabaseManager.constructor | src/utils/database.ts:10-21 | Starting from a stored list, the history holds its particulars and the ledgers are built. |
| Database.DatabaseManager.AddToHistory | src/utils/database.ts:84 | Every particulars of the batch is added to the history, and nothing else is. |
| Database.DatabaseManager.UpdateCustomerLedgers | src/utils/database.ts:28-81 | The ledger map and its insertion order are rebuilt from the current list. Transactions and history are untouched. |
| Database.DatabaseManager.AddTransactions | src/utils/database.ts:82-86 | The old list is a prefix and the batch follows in order. Every added particulars joins the history. The ledgers stay current. |
| Database.DatabaseManager.UpdateTransaction | src/utils/database.ts:88-97 | An unknown id changes nothing. Otherwise only the first index with that id is merged, a given non-empty particulars joins the history, and the ledgers stay current. |
| Database.DatabaseManager.ClearAllData | src/utils/database.ts:133-138 | All fields are emptied, which is again a consistent store. |
| Database.DatabaseManager.GetTransactions | src/utils/database.ts:99-115 | The result is sorted by date, latest first. It holds exactly the stored transactions that satisfy every given filter, with multiplicity. Equal dates keep store order. |
| Database.DatabaseManager.GetCustomerLedgers | src/utils/database.ts:117-120 | The result is sorted by non-increasing absolute balance. It is a permutation of the map's values in insertion order, and ties keep that order. |
| Database.DatabaseManager.GetCustomersWithOutstanding | src/utils/database.ts:126-128 | The `filter` of the sorted listing: each ledger with a non-zero balance occurs as often as in `GetCustomerLedgers`, and no other does. The result stays sorted, and ledgers of equal absolute balance keep their relative order from that listing. |
| Database.DatabaseManager.GetParticularsHistory | src/utils/database.ts:129-131 | Exactly the history's members, each once, in string order. |
| Database.SortedListingUnique | src/utils/database.ts:129-131 | Two sorted listings without repeats of the same names are equal, so the history listing depends only on the set, not on the order it is walked in. |
| Database.DatabaseManager.LedgersListedOnce | src/utils/database.ts:117-120 | Every ledger of the map is listed, and listed once. |
| Database.DatabaseManager.LookupFindsGroup | src/utils/database.ts:122-124 | A lookup finds a ledger iff some customer row has the same normalised name. The ledger found is built from all such rows. |
| Database.DatabaseManager.LookupByDisplayName | src/utils/database.ts:122-124 | Looking a ledger up by its own display name returns it. |
| Database.DatabaseManager.GetCustomerLedger | src/utils/database.ts:122-124 | The lookup is by the lower-cased, trimmed name: it finds a ledger exactly when one is stored under that key, and returns that ledger. |
| Calculations.AddMethods | src/utils/calculations.ts:21-23 | Adding one transaction's methods gives a map keyed by the union of the two key sets. |
| Calculations.AddMethodTotals | src/utils/calculations.ts:21-23 | The inner `forEach` adds each method's amount to its running total, starting missing totals at 0. |
| Calculations.SumTransactions | src/utils/calculations.ts:16-30 | The transaction pass computes the sales sum, the payment sum, the per-method totals and the cash-in-office sum. |
| Calculations.SplitBalances | src/utils/calculations.ts:37-43 | The ledger pass sums positive balances as outstanding and the magnitudes of negative ones as advances. |
| Calculations.CalculateDashboardSummary | src/utils/calculations.ts:4-46 | The summary has the sums above. It also has runningBalance = totalSales − totalPayment and transactionCount = the input length. |
| Calculations.Summarize | src/utils/calculations.ts:4-46 | The count is the number of transactions, and the running balance is sales less payment. Outstanding and advances are both non-negative, and their difference is the sum of the ledger balances. |
| Calculations.DashboardSummaryFrom | src/utils/calculations.ts:36 | The split is taken over the store's ledger list, whatever transactions are passed. |
| Calculations.MethodTotalsSpec | src/utils/calculations.ts:21-23 | A method has a total iff some transaction records it. Its total is the sum of its amounts over all transactions. |
| Calculations.OutstandingSplit | src/utils/calculations.ts:37-43 | Outstanding and advances are both ≥ 0, and outstanding − advances is the sum of all balances. |
| Calculations.CashFromCashRowsOnly | src/utils/calculations.ts:26-29 | The cash in office is summed over the `cash_in_office` rows alone. |
| Calculations.SummaryPermutation | src/utils/calculations.ts:16-33 | The summary depends only on the multiset of transactions, not their order. |
| Calculations.LedgerBalances | src/utils/calculations.ts:36-43 | Listed in key order, the ledgers' balances add up to their groups' net effects. |
| Calculations.DashboardBalance | src/utils/calculations.ts:36-43 | On a consistent store, outstanding − advances is the net effect of every customer row, whatever transactions are passed. |
| EditableTable.PreviewAgreesWithConversion | src/components/EditableTable.tsx:69-85 | The preview type equals the converted transaction's type. The one exception is a row converted as `expense` whose payment is not positive, which the preview shows as unknown. |
| EditableTable.GetCellType | src/components/EditableTable.tsx:69-85 | A row shown as an expense has a positive payment. A row shown as unknown has no positive sale, payment or payment-method amount. |
| EditableTable.SaveCell | src/components/EditableTable.tsx:29-37 | Writing one cell keeps the row count, every other row and every other cell of the row. |
| EditableTable.EditedCell | src/components/EditableTable.tsx:33-37 | `SALES`, `PAYMENT` and payment-method columns store the number `parseFloat(editValue) \|\| 0`; other columns store the text as typed. |
| EditableTable.EditedAmount | src/components/EditableTable.tsx:33-34 | In an amount column, a typed string of digits is stored as its value and a string without any digit as 0. |
| EditableTable.EditThenConvert | src/components/EditableTable.tsx:33-37 | After an edit, converting the upload changes no other row's transaction. The edited row reads back the parsed amount (sales, payment) or the trimmed text (particulars). |
| EditableTable.TableEditor.constructor | src/components/EditableTable.tsx:13-14 | The editing state is the one given. |
| EditableTable.TableEditor.HandleSave | src/components/EditableTable.tsx:26-46 | Without a cell being edited nothing changes. Otherwise only the edited cell changes, and the editing state is reset. |
| Export.ShapeRecords | src/utils/export.ts:6-13 | One record per transaction, in input order. |
| Export.ShapeRecordFields | src/utils/export.ts:6-13 | A record has the fixed columns and every payment method. A payment method holds its amount, and an unshadowed fixed column holds the transaction's field. |
| Export.ExportRoundTrip | src/utils/export.ts:7-12 | A record reads back as its transaction's content iff no payment method is named like a fixed column; a colliding method overwrites that column. |
| Export.NoCollisionReadsBack | src/utils/export.ts:6-13 | Without a payment method named like a fixed column, the record reads back as the transaction's content. |
| Export.CollisionLosesMethod | src/utils/export.ts:11-12 | A payment method named like a fixed column overwrites it and does not read back as a payment method. |
| Export.ExportRecordsRoundTrip | src/utils/export.ts:25-32 | Without colliding names, every transaction of an export can be read back from its record, in order. |

## Left out

- `parseExcelFile`'s `FileReader` and `XLSX.read`/`sheet_to_json` decoding (src/utils/excelParser.ts:4-16,47-48) are foreign and asynchronous. The decoded sheet, a list of cell rows, is the input of `ParseSheet`.
- The XLSX writers and `saveAs` (src/utils/export.ts:15-21,34-37) are foreign libraries. So the model does not prove that the Excel file and the CSV file hold the same data; it proves only that both paths shape the records with the same function, `ShapeRecords`.
- Export.ShapeRecord: a JavaScript object keeps its key order, but the record is modelled as a map. The column order of the written sheet, fixed columns first and then the payment methods, is therefore not modelled.
- `localStorage` and JSON persistence (src/utils/database.ts:15-25,137) are I/O. The constructor takes the stored list instead, and saving after a change is not modelled.
- `Date.now()` (src/utils/excelParser.ts:76) is read once per row. The readings are the parameter `clock`, with `clock(i)` the reading taken for row `i`, and nothing is assumed about them. `new Date(...).getTime()` comparisons (src/utils/database.ts:47,114) are modelled as string order, which agrees with them on well-formed `YYYY-MM-DD` dates only.
- Amounts are exact reals. IEEE rounding of the sums is not modelled, and neither are `parseFloat`'s `Infinity` and `NaN` (an unparsable text reads as 0, as `|| 0` makes it). With floating point, the running-balance and reconciliation equalities hold only approximately.
- Text.ParseFloatOrZero: accepts an optional sign, digits, a fraction and an exponent after leading spaces. It does not accept `Infinity` or hexadecimal forms.
- Text.NumberToString: renders integers exactly and writes other numbers with at most 20 fraction digits. It does not reproduce JavaScript's shortest round-trip form; it is used only for header names and for text shown from numeric cells.
- Text.Lower: lower-cases ASCII letters only. Strings are sequences of characters rather than UTF-16 code units.
- A header cell that holds an explicit `undefined` value, rather than a hole, is not distinguished: `Blank` in the header row stands for the hole `sheet_to_json` leaves for an empty cell.
- `formatCurrency` and the `toLocaleString` display formatting are presentation.
- JavaScript's `Array.prototype.sort` is in place and its algorithm is unspecified. The model uses the stable insertion sort `Sequences.SortBy`, which it proves sorted, a permutation and stable. Those three properties are what ECMAScript guarantees for `sort`, and they determine the result.
- The insertion order of the ledger `Map` is the field `ledgerOrder`, kept equal to the first-appearance order of the keys. The order of a `Set` (`particularsHistory`) does not matter, because `getParticularsHistory` sorts it.
- Database.DatabaseManager.UpdateTransaction: a `Partial<Transaction>` whose key is present with the value `undefined` is not modelled. Each field of `TransactionUpdate` is either given or absent.
- Database.DatabaseManager.GetTransactions: an absent filters object is modelled as all three filters absent. The property that the stored list is unchanged holds because the query is a function.
- EditableTable.TableEditor.HandleSave: the source writes into a row object shared with the previous `data`, so the edit is visible through the old object too. The model treats rows as values and does not capture that aliasing. It requires the edited row to exist; the source would throw otherwise, and the editing state only ever points at a rendered row. `onDataChange` is modelled as the new `data`.
- Calculations.CalculateDashboardSummary: the source reads the ledgers from the global store. Here they are a parameter; `DashboardSummaryFrom` passes the store's list.
- The dashboard's `runningBalance` is sales minus the `payment` column only, while ledger balances also subtract the payment methods. This asymmetry is in the source and is kept.
- React rendering, hooks, `handleCellClick`, `handleCancel`, `formatCellValue` and the other components are user interface and are not part of this model.
