# Kerosene delivery: record store, past-data view and master converter

This project models two parts of the kerosene delivery system and proves
properties of them in Dafny.

The first part is the delivery-record side of the browser app
(data-manager.js). Each fill-up is saved as a record in the IndexedDB
object store `records`, under an auto-increment key. The app can:

- show the stored records grouped by day, newest day first, with
  per-day totals, counts of exported and unexported records, and a
  warning border on days that still hold unexported records;
- filter the rendered rows by export state and by customer name;
- write all records to a JSON backup file, and restore such a file,
  replacing the store's contents;
- delete every record after a double confirmation.

The second part is the master-data converter (convert_customers_v2.py).
It turns the customer and tank CSV files into the JSON the app imports:

- customers are reduced to four fields, with an integer unit price;
- tank rows are passed through unchanged;
- the run ends with a tank count per customer.

Modules:

- `Common`: `Option` and `Result`, and grouping a sequence by a key. Grouping gives the buckets in order and the keys in order of first appearance. The lemmas say that grouping is a partition.
- `Records`: the delivery record, and a record together with its store key.
- `DataView`: `showDataViewModal` (grouping by date, the date sort, the per-day summaries and the panels) and `filterDataView`.
- `RecordStore`: the object store as a class with a key map and a key generator, plus `viewPastData`, `backupData`, `restoreData` and `clearAllData`.
- `MasterConvert`: Python's `int()` on text, `convert_customers`, `convert_tanks`, the tank count and report in `main`, and `main` itself.

Inputs that come from outside the program are parameters:

- Each dialog's answer is a boolean.
- Whether the database is open is a boolean.
- A transaction's failure is a boolean saying that it aborted.
- The chosen backup file is a `BackupFile`: no file, unreadable, not an array, or an array of records.
- The platform's date parsing is a function `dayOf` from date text to a day number.
- Each of the converter's CSV reads is an optional list of rows (none if the read failed).
- Each JSON write is a success flag.

## Model

| member | source | states |
|---|---|---|
| DataView.GroupByDate | data-manager.js:39-45 | The per-date buckets hold, for each date, exactly the records with that date in scan order. The dates are the keys of the records in first-appearance order. A date has a bucket iff some record carries it. |
| DataView.GroupingFacts | data-manager.js:39-45 | Grouping by date is a partition. The date list has no repeats and holds exactly the dates of the records. Every record is in its own date's bucket, and a bucket holds only records of its date. The bucket sizes add up to the number of records. |
| DataView.SortNewestFirst | data-manager.js:48-50 | The sorted date list runs newest day first and is a permutation of the keys: same multiset, same members. |
| DataView.InsertStable | data-manager.js:48-50 | Inserting a date puts it after the dates of its own day that were already there. The dates of every other day keep their order. |
| DataView.SortStable | data-manager.js:48-50 | The sort is stable: the dates of any one day come out in the order they went in. |
| DataView.InsertByDay | data-manager.js:48-50 | Inserting one date into a newest-first list keeps it newest first, and adds that date and nothing else. |
| DataView.SortedDates | data-manager.js:39-50 | The sorted date list names every date of the records exactly once. Date texts of the same day stay in order of first appearance. Its buckets add up to all the records. |
| DataView.ShowDataViewModal | data-manager.js:37-131 | The view's header count is the number of records. It has one panel per distinct date, newest first. Distinct date texts of the same day appear in the order the scan first met them, given that no date text is an array index. Each panel holds exactly that date's records and their summary. |
| DataView.ViewFromSortedKeys | data-manager.js:126-127 | Building one panel per sorted date from the buckets gives the view of the records. |
| DataView.ExportStateSplit | data-manager.js:130-131 | The unexported count and the exported count of a day add up to the day's number of records. |
| DataView.Summarise | data-manager.js:127-131 | The unexported count is the number of the day's records that are not exported, and the exported count the number that are. The two counts add up to the day's record count. The unexported count is positive iff some record is unexported, and likewise for exported. The totals are the sums of `qty` and `total`. |
| DataView.Panel | data-manager.js:139-173 | A day's border is the danger colour iff the day has an unexported record. Each count badge appears iff the day has a record in that state. |
| DataView.ContainsIff | data-manager.js:275 | `includes` holds iff the search text occurs at some position of the name. |
| DataView.SearchMissIff | data-manager.js:275 | A row fails the name test iff the lower-cased search text occurs nowhere in the lower-cased name. An empty search text fails no row. |
| DataView.TallyStep | data-manager.js:279-289 | Filtering one more day block adds its shown rows to `visibleCount`, and adds one to `visibleDays` iff it has a shown row. |
| DataView.DaysDecided | data-manager.js:287-292 | A day block is shown iff one of its rows is shown. |
| DataView.ShownInPositive | data-manager.js:277-291 | A day has a visible row iff its count of visible rows is positive. |
| DataView.FilterDay | data-manager.js:261-284 | Each row of a day is shown iff it passes both the export-state test and the name test. The day's count is the number of such rows. `dayHasVisible` is set iff that count is positive. |
| DataView.FilterDataView | data-manager.js:252-300 | Every row is decided by both tests. A day block is shown iff it has a shown row. `visibleCount` is the number of shown rows, and `visibleDays` the number of shown days. |
| DataView.AllRowsShown | data-manager.js:268-275 | With filter `all` and an empty search, every row of a day is shown. |
| DataView.NoFilterShowsAll | data-manager.js:257-293 | With filter `all` and an empty search, the counts are all rows and all non-empty days. |
| DataView.ViewRowsCount | data-manager.js:206-212 | The rendered rows of the view add up to the number of records, and no day block is empty. |
| DataView.RowsMatchGroups | data-manager.js:206-212 | The rows rendered for the panels add up to the sizes of the date buckets. |
| DataView.ViewInitiallyShowsAll | data-manager.js:257-298 | With filter `all` and an empty search, the result line's counts equal the header's record count and day count. |
| DataView.UnexportedRows | data-manager.js:271 | Under filter `unexported` with no search, a day shows exactly its unexported records. |
| DataView.UnexportedFilterMatchesBorder | data-manager.js:130-139 | Under filter `unexported` with no search, a day shows as many rows as its unexported count. It stays visible iff its border is the danger colour. |
| Common.KeysInOrderComplete | data-manager.js:39-48 | The key list of a grouping has no repeats. It holds the key of every element and only such keys. |
| Common.GroupSizesSum | data-manager.js:39-45 | For any repeat-free key list that covers every element's key, the bucket sizes add up to the number of elements. |
| Common.GroupsCoverAll | data-manager.js:39-45 | The buckets of the first-appearance key list add up to all elements. |
| Common.WithKeyNonEmpty | data-manager.js:41-44 | A key's bucket is non-empty iff some element carries that key. |
| Common.WithKeyMembers | data-manager.js:41-44 | A bucket holds only elements of the input that carry its key. |
| Common.InOwnBucket | data-manager.js:41-44 | Every element lands in the bucket of its own key. |
| Common.DistinctMultiplicity | data-manager.js:48 | A sequence has no repeats iff no element occurs twice in its multiset. |
| RecordStore.ListingSound | data-manager.js:18-23 | A cursor listing is strictly ascending in its keys. It holds exactly the stored entries whose key is below the bound. |
| RecordStore.ListingLength | data-manager.js:18-23 | A cursor listing has one entry per stored key below the bound. |
| RecordStore.FillEntries | data-manager.js:378-382 | Adding records one by one uses exactly the consecutive keys from the generator's number onward. Each key holds the record at its position. |
| RecordStore.FillListing | data-manager.js:378-382 | Scanning freshly added records gives them back in the order they were added. |
| RecordStore.BackupRestoreRoundTrip | data-manager.js:345-382 | Restoring a backup of the store, with ids removed, gives back the same records in the same order, under new keys. |
| RecordStore.Store.Scan | data-manager.js:14-23 | The scan yields every stored record once, with its key, in ascending key order. |
| RecordStore.Store.Clear | data-manager.js:369-371 | The store is empty afterwards and the key generator is unchanged. |
| RecordStore.Store.Add | data-manager.js:381 | The record is stored under the generator's current number, which was free. The generator advances by one. |
| RecordStore.Store.AddAll | data-manager.js:375-382 | Adding records stores each one under the next consecutive key, in order, and leaves the other entries unchanged. |
| RecordStore.Store.ViewPastData | data-manager.js:8-32 | Without a database it refuses. An empty store shows nothing. Otherwise it shows the view of the stored records in key order. |
| RecordStore.Store.BackupData | data-manager.js:305-340 | Without a database it refuses. An empty store gives no file. Otherwise the file lists every stored record with its `id`, in key order. |
| RecordStore.Store.RestoreData | data-manager.js:345-403 | The store is unchanged when: no file is chosen, the file cannot be read, it is not an array, it is empty, the user declines, the database is missing, or the clearing transaction aborts. If adding aborts, the store is left empty. Otherwise the store holds exactly the file's records, without ids, in file order, under fresh keys. |
| RecordStore.Store.ClearAllData | data-manager.js:408-434 | The store is emptied only with a database, both confirmations and a committed transaction. Otherwise it is unchanged. The key generator is never reset. |
| MasterConvert.DropLeadingSpaces | convert_customers_v2.py:56 | The result does not start with whitespace. |
| MasterConvert.LeadingSpacesDropped | convert_customers_v2.py:56 | What stripping the front leaves is a suffix of the text, and everything dropped is whitespace. |
| MasterConvert.DropTrailingSpaces | convert_customers_v2.py:56 | The result does not end with whitespace. |
| MasterConvert.TrailingSpacesDropped | convert_customers_v2.py:56 | What stripping the end leaves is a prefix of the text, and everything dropped is whitespace. |
| MasterConvert.FormatParses | convert_customers_v2.py:56 | The sign and digits that `str(n)` writes read back as `n`, for any `n` that `str` can write (at most 4300 digits). |
| MasterConvert.DigitCountAll | convert_customers_v2.py:56 | In a text of digits only, every character counts towards the digit limit. |
| MasterConvert.SeparatorRefused | convert_customers_v2.py:56 | Text holding an ASCII separator 0x1C-0x1F anywhere is refused. `int()` does not strip them, unlike `str.strip()`. |
| MasterConvert.TooManyDigitsRefused | convert_customers_v2.py:56 | A numeral of more than 4300 digits is refused, however it is signed or padded. |
| MasterConvert.StripIdempotent | convert_customers_v2.py:56 | Stripping whitespace a second time changes nothing. |
| MasterConvert.ParseFormat | convert_customers_v2.py:56 | `int()` reads back every integer written by `str()`. `str()` itself refuses integers of more than 4300 digits. |
| MasterConvert.ParseIgnoresPadding | convert_customers_v2.py:56 | Surrounding whitespace makes no difference to `int()`. |
| MasterConvert.ParseAccepts | convert_customers_v2.py:56 | Text `int()` accepts is non-blank and, once stripped, consists of an optional leading sign, digits and underscores. The digits may be ASCII or full-width. |
| MasterConvert.BlankRefused | convert_customers_v2.py:56 | `int()` refuses empty or all-blank text. Non-empty blank price text passes `or 0` unchanged, so it reaches `int()` and fails the row. |
| MasterConvert.DigitsValue | convert_customers_v2.py:56 | The decimal digits of a number read back as that number. |
| MasterConvert.ConvertRowSpec | convert_customers_v2.py:52-57 | A missing text column gives "", and a missing cell stays null. A missing, null or empty price gives 0. Any other price is what `int()` reads, and text it refuses fails the row. |
| MasterConvert.PriceRoundTrip | convert_customers_v2.py:56 | A price cell holding `str(n)`, even with trailing blanks (ideographic spaces included), converts to `n`. |
| MasterConvert.ConvertCustomers | convert_customers_v2.py:43-58 | On success there is one output object per row, in order, each being that row's conversion. Success happens iff every row converts. Otherwise the error is that of the first row that fails. |
| MasterConvert.ConvertTanks | convert_customers_v2.py:61-63 | The tank rows come back unchanged and in order. |
| MasterConvert.CountTanks | convert_customers_v2.py:148-151 | A code is counted iff some tank carries it. Its count is the number of tanks that carry it. The keys follow first appearance. |
| MasterConvert.CountStep | convert_customers_v2.py:150-151 | One increment keeps the dictionary equal to the tally of the tanks seen so far. |
| MasterConvert.CountsTotal | convert_customers_v2.py:148-151 | The per-code counts add up to the number of tanks. |
| MasterConvert.TotalIsSumSizes | convert_customers_v2.py:148-151 | Summing the dictionary over a key list equals summing the bucket sizes of those keys. |
| MasterConvert.TankReport | convert_customers_v2.py:153-156 | One line per customer, in order, with the customer's code and name. |
| MasterConvert.ReportCounts | convert_customers_v2.py:148-156 | Each customer is reported with the number of tanks carrying its code. The count is 0 exactly when no tank carries the code. |
| MasterConvert.RunConversion | convert_customers_v2.py:77-170 | An unreadable file ends the run. If both files are read and a row's price is refused, the run fails with the first failing row's error and writes nothing. If every row converts, a failed customers.json write ends the run with nothing written. A failed tanks.json write ends it with only customers.json written, holding the converted rows. A run completes iff both reads and both writes succeed and every row converts. It then has written customers.json and then tanks.json, holding the converted customers and the unchanged tanks, and it reports, for each customer in order, its code, its name and its true tank count. |

## Left out

- The IndexedDB callbacks, cursors and asynchrony are left out. A scan is a loop over the keys in ascending order, and a transaction either commits or aborts as a whole.
- HTML building, styles, the modal's DOM, and reading `row.dataset` are left out. The filter works on rows of (exported, customer name) per day block, as the page renders them. HTML escaping of the customer name in the `data-customer` attribute is not modelled.
- `alert`, `confirm` and the file picker are boolean inputs and a `BackupFile` value. `file.text()`, `JSON.parse`, `JSON.stringify`, `Blob` and the download link are left out: a backup is the array of records with ids, and a restore takes the parsed array.
- `getTimestamp` and `updateSummary` are defined in files that are not part of this model.
- A record other than a plain object, and an `add` rejected synchronously inside the completion callback, are not modelled.
- DataView.GroupByDate: `groupedByDate` is a plain object. For a record whose `date` names an inherited `Object.prototype` property (`"constructor"`, `"toString"`, `"valueOf"`, `"__proto__"`, ...), line 41 finds a truthy value, no bucket is made, and line 44's `push` throws a TypeError, so `viewPastData` shows nothing. The model treats every date text as an ordinary key and shows the view.
- DataView.ShowDataViewModal: the order of same-day date texts assumes `Object.keys` lists keys in insertion order. Line 48 lists array-index keys first: canonical integer strings below 2^32 - 1, such as "2024", in ascending numeric order. Take a scan that meets "2024-01-01" and then "2024", both parsed by `new Date` as the same instant. The source shows the "2024" panel first, and the model shows "2024-01-01" first. Date texts of different days are ordered the same way in both.
- `new Date(...)` parsing is the `dayOf` parameter. Date texts that do not parse (NaN) are not modelled: `dayOf` is total.
- DataView.LowerChar: `toLowerCase` is modelled on ASCII and full-width Latin capitals only, because full Unicode case mapping is a platform table.
- DataView.Summarise: `qty` and `total` are JavaScript numbers, and the model sums them as unbounded integers, because floating point is not modelled.
- app.js is not part of this model. It holds UI glue only: fetching the JSON and building select options.
- Python I/O is left out: `read_csv_shiftjis` (cp932 decoding and `csv.DictReader`), `save_json`, `mkdir`, printing, `sys.exit` and the `KeyboardInterrupt` handler. A failed read or write is an input.
- `csv.DictReader` puts the extra cells of a long line in a list under the key `None`, and that key is not modelled. `convert_customers` never reads it. But `convert_tanks` passes long tank rows through unchanged, so in the source that list reaches tanks.json under the key `"null"`, and the model's tank rows do not carry it.
- A `save_json` that fails part-way can leave a partial file. `RunConversion` lists only the writes that completed.
- MasterConvert.ParseInt: `int()` is modelled on the digits and spaces cp932 text can carry: ASCII digits, full-width digits U+FF10-FF19, the ASCII whitespace `int()` skips (space, and tab to carriage return), and the ideographic space U+3000. The ASCII separators 0x1C-0x1F are not skipped; `int()` refuses them. Other Unicode digits and spaces are not modelled, because cp932 decoding does not produce them.
- MasterConvert.ParseInt: the 4300-digit limit is that of Python 3.11 and later (and of the security releases of 3.7-3.10). Interpreters without the limit accept longer numerals. A limit changed through `PYTHONINTMAXSTRDIGITS` or `sys.set_int_max_str_digits` is not modelled.
- RecordStore.Store.constructor: opening the database and creating the store happen in files that are not part of this model. The constructor only gives an empty store whose generator starts at 1.
