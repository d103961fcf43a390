# openpeople-dash ingestion pipelines, in Dafny

This project models the two spreadsheet-to-record pipelines behind the
dashboard's API routes and proves what they promise.

- **Finance route** (`src/app/api/finance/route.ts`). It turns the finance
  workbook into typed records:
  - `numberFormatter` normalises numeric cells;
  - `collectMetrics` reads the `Burn_Dashboard` label/value rows into nine
    metrics that default to 0;
  - `buildAttachments` projects the `Attachments_Log` sheet by header names,
    finds each row's link and sorts newest first;
  - `buildTransactions` indexes the attachments by email id and thread id,
    builds one transaction per dated ledger row with its de-duplicated
    attachments and an optional folder record, and sorts newest first;
  - `buildVendorRules` filters and projects the vendor rules;
  - `buildBurnTrend` sums expenses per calendar day inside a 30-day window;
  - `buildRecentExpenses` keeps the first five expenses.
- **Upcoming-tasks route** (`src/app/api/upcoming/route.ts`). It maps the
  task sheet's CSV records to `UpcomingTask` (`parseBool`, the `|`-separated
  dependencies, `dueInDays`, the ISO `dueDate`), drops records without an id
  or a task title, and sorts by days until due (tasks without one last), ties
  broken by due date.

Where the source updates state step by step, the model is imperative and each
method is proved against a specification function:
- `collectMetrics` fills a `Map` (`Metrics.CollectMetrics`);
- the two attachment indexes are filled with `push` (`Transactions.IndexAttachments`);
- the per-row `derivedAttachments` map is filled with `set` (`Transactions.PutEach`);
- the attachment row loop and its column scan with `break` (`Attachments.ReadRows`, `Attachments.FindLink`);
- the burn-trend accumulation (`DerivedSeries.AccumulateDays`).

The expression-only parts are functions: `numberFormatter`, `buildVendorRules`,
`buildRecentExpenses` and the whole upcoming-tasks pipeline.

Modules and files:

| file | module | what |
|---|---|---|
| `text.dfy` | `Text` | `trim`, ASCII `toLowerCase`, the two `http` tests, `split`/`join`, decimal rendering |
| `cells.dfy` | `Cells` | JavaScript cell values, truthiness, `??`, `String(...)` |
| `numbers.dfy` | `Numbers` | `numberFormatter` (with `parseFloat`), `parseInt` |
| `seqs.dfy` | `Seqs` | `filter`, `map`, `map` with index, last match, `slice` |
| `stable_sort.dfy` | `StableSort` | `Array.prototype.sort` as a stable sort |
| `ordered_map.dfy` | `OrderedMap` | a JavaScript `Map` with insertion order |
| `finance_types.dfy` | `FinanceTypes` | the record types, `normaliseDate`, the newest-first comparator |
| `metrics.dfy` | `Metrics` | `collectMetrics` |
| `attachments.dfy` | `Attachments` | `buildAttachments` |
| `transactions.dfy` | `Transactions` | `buildTransactions` |
| `vendor_rules.dfy` | `VendorRules` | `buildVendorRules` |
| `derived_series.dfy` | `DerivedSeries` | the expense predicate, `buildBurnTrend`, `buildRecentExpenses` |
| `finance_route.dfy` | `FinanceRoute` | the finance `GET`, composed from the stages |
| `upcoming.dfy` | `Upcoming` | the upcoming-tasks `GET` |

Representation of the inputs:
- A workbook row read with `sheet_to_json` is a `map<string, Cell>`. An absent
  key is `undefined`.
- An attachment-sheet row is a sequence of cells. Each cell carries its value
  and its optional hyperlink target.
- A dashboard row is a sequence of cells.
- A CSV record is a `map<string, string>`.
- Timestamps are integers (milliseconds). Amounts are exact reals.
- Date parsing is a parameter: `normaliseDate`'s reading of a truthy cell,
  and `new Date(text).toISOString()` for task due dates.
- The label formatter and the burn window `[start, end]` are parameters.

## Behaviour kept as written

The code is followed where it differs from what its types or names suggest:
- A transaction's `id` is `String(row.EmailId ?? row.ThreadId ?? ...)` of the
  raw, untrimmed cells. `??` does not fall through on `""`, so an empty
  `EmailId` cell gives the id `""` (`Transactions.TransactionIdChain`).
- `total` is `numberFormatter(row.Total ?? row.Amount)`. A `Total` cell holding
  `""` gives a `null` total, even when `Amount` holds a number
  (`Transactions.TransactionFields`).
- `Vendor_Contains` is tested before it is trimmed. A cell of white space only
  gives a rule with an empty `vendorContains` (`VendorRules.BlankVendorKept`).
- `workstream` and `status` fall back to "General" and "Not Started" only when
  the column is missing. A blank cell gives "" (`Upcoming.DefaultsOnlyForMissingColumns`).
- Ties in `dueInDays` compare `dueDate ?? ""`. A task without a due date
  therefore comes BEFORE a dated task due in the same number of days
  (`Upcoming.MissingDueDateSortsFirst`).
- Every record is mapped before any is filtered. An invalid `DueDate` fails
  the whole request with the 500 answer, even on a record that would have been
  dropped for lacking an id (`Upcoming.InvalidDateFailsRequest`).
- The attachment de-duplication key is the plain string
  `${link ?? drivePath}-${fileName}`. Two different attachments can share it,
  and the later one then replaces the earlier (`Transactions.KeysCanCollide`).
  The folder record is set last, so it is always present, but it is stored
  under `${folder}-folder` while its own key is `${folder}-${folder}`. A
  selected attachment whose link (or drive path) and file name are both the
  folder therefore stays beside the folder record with the same key
  (`Transactions.FolderKeyCollides`); `Transactions.DerivedAttachmentsMeaning`
  states uniqueness for the non-folder attachments only.
- Folder links use `/^https?:\/\//i`, attachment links the looser `/^https?:/i`
  (`Text.UrlTestStricterThanSchemeTest`, `Text.SchemeWithoutSlashes`).
- The test `total === null` in the expense filter can never succeed, because
  `total ?? amount ?? 0` is never `null`. The model has no such branch.

## Model

| member | source | states |
|---|---|---|
| `Text.Trim` | src/app/api/finance/route.ts:117 | the result is a contiguous slice of the input with only white space cut from either side, and it neither starts nor ends with white space |
| `Text.TrimIdempotent` | src/app/api/finance/route.ts:117 | trimming a trimmed string changes nothing |
| `Text.TrimPadded` | src/app/api/finance/route.ts:117 | white space around a string whose ends are not white space is removed exactly |
| `Text.TrimLower` | src/app/api/finance/route.ts:117-120 | trimming and lower-casing commute |
| `Text.TrimBlank` | src/app/api/upcoming/route.ts:56 | a string trims to nothing exactly when `trimStart` leaves nothing of it |
| `Text.UrlTestStricterThanSchemeTest` | src/app/api/finance/route.ts:193 | every folder passing `/^https?:\/\//i` passes `/^https?:/i` |
| `Text.SchemeWithoutSlashes` | src/app/api/finance/route.ts:193 | "http:x" passes the attachment-link test but not the folder test |
| `Text.NatToStringInjective` | src/app/api/finance/route.ts:210 | different indices render to different decimal strings, so fallback ids `tx-<index>` differ |
| `Text.Split` | src/app/api/upcoming/route.ts:72 | `split` on the pipe gives at least one segment and no segment contains the separator |
| `Text.SplitJoin` | src/app/api/upcoming/route.ts:72 | joining the segments of a split gives back the string |
| `Text.JoinSplit` | src/app/api/upcoming/route.ts:72 | splitting joined separator-free parts gives back the parts |
| `Numbers.Clean` | src/app/api/finance/route.ts:79 | the cleaned string holds only digits, `.` and `-`, and is no longer than the input |
| `Numbers.CleanAddsNoDigit` | src/app/api/finance/route.ts:79 | cleaning introduces no digit |
| `Numbers.CleanOfCleaned` | src/app/api/finance/route.ts:79 | a string of kept characters only is left unchanged |
| `Numbers.CleanAppend` | src/app/api/finance/route.ts:79 | cleaning works character by character: the cleaning of a concatenation is the concatenation of the cleanings |
| `Numbers.DigitRun` | src/app/api/finance/route.ts:81 | the longest digit prefix is all digits and is followed by a non-digit or by nothing |
| `Numbers.ParseFloatPrefix` | src/app/api/finance/route.ts:81 | `parseFloat` on a cleaned string gives a number only when the string holds a digit |
| `Numbers.UnsignedPrefix` | src/app/api/finance/route.ts:81 | the unsigned number syntax yields a value only when a digit is present |
| `Numbers.NumberFormatter` | src/app/api/finance/route.ts:76-85 | a value comes only from a number cell or from a string holding a digit; every other cell type is `null` |
| `Numbers.NumberFormatterIgnoresNoise` | src/app/api/finance/route.ts:79-81 | characters other than digits, `.` and `-` before or after a value never change the result |
| `Numbers.SameCleanSameNumber` | src/app/api/finance/route.ts:79-81 | two strings with the same cleaned form give the same result |
| `Numbers.NothingKept` | src/app/api/finance/route.ts:79-80 | a string with no kept character cleans to the empty string, hence `null` |
| `Numbers.UnsignedDigits` | src/app/api/finance/route.ts:81 | a run of digits reads as the number it spells |
| `Numbers.NumberFormatterReadsNaturals` | src/app/api/finance/route.ts:78-82 | round trip: the decimal rendering of a natural number reads back as that number |
| `Numbers.NumberFormatterReadsNegatives` | src/app/api/finance/route.ts:78-82 | a leading minus negates the value |
| `Numbers.NumberFormatterReadsCurrency` | src/app/api/finance/route.ts:78-82 | a currency symbol, a thousands comma and a fraction read as the number the digits spell |
| `Numbers.NumberFormatterReadsDollarAmount` | src/app/api/finance/route.ts:78-82 | "$1,234.56" reads as 1234.56 |
| `Numbers.DecimalValueExample` | src/app/api/finance/route.ts:81 | the digits "1234" and "56" denote 1234.56 |
| `Numbers.ParseFloatDecimal` | src/app/api/finance/route.ts:81 | "digits.digits" reads as its whole part plus the scaled fraction |
| `Numbers.NumberFormatterRejectsText` | src/app/api/finance/route.ts:78-80 | "N/A" is `null` |
| `Numbers.ParseIntReadsLeadingInteger` | src/app/api/upcoming/route.ts:57 | `parseInt(String(i) + rest, 10) == i` when `rest` does not start with a digit |
| `Numbers.ParseIntSkipsLeadingSpace` | src/app/api/upcoming/route.ts:57 | leading white space does not change `parseInt` |
| `Numbers.ParseIntRejectsText` | src/app/api/upcoming/route.ts:57 | "soon" is `NaN` |
| `Numbers.ParseIntNone` | src/app/api/upcoming/route.ts:57 | `parseInt` is `NaN` exactly when the text past its leading white space starts with neither a digit nor a sign followed by a digit |
| `Seqs.Filter` | src/app/api/finance/route.ts:166 | `filter` keeps exactly the elements satisfying the test |
| `Seqs.FilterAppend` | src/app/api/finance/route.ts:308-310 | filtering distributes over concatenation |
| `Seqs.MapSeq` | src/app/api/finance/route.ts:311 | `map` keeps the length and maps each element at its position |
| `Seqs.MapFilterExactly` | src/app/api/finance/route.ts:308-316 | `filter(p).map(f)` holds the images of exactly the elements satisfying `p` |
| `Seqs.MapIndexed` | src/app/api/finance/route.ts:167 | `map((x, index) => ...)` maps the element at each position with that position |
| `Seqs.LastMatch` | src/app/api/finance/route.ts:114-121 | the position of the last element satisfying the test, or -1 exactly when there is none |
| `Seqs.LastMatchSkips` | src/app/api/finance/route.ts:116-119 | an element failing the test can be removed without changing which element is last found |
| `StableSort.SortPermutes` | src/app/api/finance/route.ts:233-238 | `sort` returns a permutation of its input, of the same length |
| `StableSort.SortSorted` | src/app/api/finance/route.ts:233-238 | under a consistent comparator the result is ordered by it |
| `StableSort.SortStable` | src/app/api/finance/route.ts:300-305 | elements the comparator treats as equal keep their input order |
| `StableSort.SortMembers` | src/app/api/upcoming/route.ts:82 | sorting neither adds nor loses an element |
| `OrderedMap.Put` | src/app/api/finance/route.ts:182 | `set` keeps keys unique, stores the value under its key and keeps every other entry |
| `OrderedMap.PutReplacesInPlace` | src/app/api/finance/route.ts:182 | `set` on a present key overwrites that entry where it stands and leaves every other entry in place |
| `OrderedMap.PutAppends` | src/app/api/finance/route.ts:182 | `set` on a new key appends its entry after all the others |
| `OrderedMap.Values` | src/app/api/finance/route.ts:207 | `Array.from(map.values())` lists the values in entry order |
| `FinanceTypes.NormaliseDate` | src/app/api/finance/route.ts:87-88 | a falsy cell has no date |
| `FinanceTypes.NewestFirstMeaning` | src/app/api/finance/route.ts:300-305 | the comparator puts dated records newest first and undated ones after every dated one |
| `FinanceTypes.AttachmentOrderConsistent` | src/app/api/finance/route.ts:300-305 | the attachment comparator is a total preorder |
| `FinanceTypes.TransactionOrderConsistent` | src/app/api/finance/route.ts:233-238 | the transaction comparator is a total preorder |
| `Metrics.CollectMetrics` | src/app/api/finance/route.ts:112-137 | the loop over the rows yields exactly `MetricsOf(rows)`; its invariant is that the lookup holds, for every key, the value of the last contributing row so far |
| `Metrics.LastValueMeaning` | src/app/api/finance/route.ts:114-124 | a key has a value iff some contributing row is stored under it, and the value is that of the last such row |
| `Metrics.LastValueSkips` | src/app/api/finance/route.ts:116-119 | a row without a truthy label, a non-blank label or a readable value changes no stored value |
| `Metrics.LastValueHits` | src/app/api/finance/route.ts:119-121 | a contributing row replaces the value under its own key and no other |
| `Metrics.NonContributingIgnored` | src/app/api/finance/route.ts:114-122 | removing a non-contributing row from anywhere changes no metric |
| `Metrics.LabelKeyIgnoresPadding` | src/app/api/finance/route.ts:117-120 | white space around a label does not change its key |
| `Metrics.LabelKeyIgnoresCase` | src/app/api/finance/route.ts:120-124 | the letter case of a label does not change its key |
| `Metrics.RunwayExample` | src/app/api/finance/route.ts:124-135 | a row "Runway (Days)" / "45" gives 45 under "runway (days)" |
| `Metrics.RunwayUnreadable` | src/app/api/finance/route.ts:124-135 | a row "Runway (Days)" / "N/A" leaves the metric at its default 0 |
| `Metrics.RunwayKey` | src/app/api/finance/route.ts:135 | the label "Runway (Days)" is stored under the key that `get("runway (days)")` looks up |
| `Attachments.HeaderNames` | src/app/api/finance/route.ts:252 | one trimmed, lower-cased name per header cell |
| `Attachments.IndexOf` | src/app/api/finance/route.ts:253 | `findIndex`: the first column with that name, or -1 exactly when none has it |
| `Attachments.FirstLinkAt` | src/app/api/finance/route.ts:275-281 | the scan stops at the leftmost link-bearing cell and returns its candidate, which passes `/^https?:/i` |
| `Attachments.FirstLinkNone` | src/app/api/finance/route.ts:275-282 | without a link-bearing cell the scan finds nothing |
| `Attachments.FindLink` | src/app/api/finance/route.ts:274-282 | the column loop with `break` returns the leftmost link |
| `Attachments.ReadRows` | src/app/api/finance/route.ts:267-298 | the row loop with `continue` and `push` yields the emitted records in sheet order |
| `Attachments.BuildAttachments` | src/app/api/finance/route.ts:241-306 | a missing or empty sheet gives no records; otherwise the emitted records sorted newest first |
| `Attachments.EmittedSnoc` | src/app/api/finance/route.ts:269-297 | one more data row adds its record exactly when it names a file or a drive path |
| `Attachments.EmittedExactlyNamed` | src/app/api/finance/route.ts:270-272 | one record per data row with a non-empty trimmed `fileName` or `drivePath`, and no other |
| `Attachments.EmittedLinksAreHttp` | src/app/api/finance/route.ts:274-285 | every link that is set passes `/^https?:/i` |
| `Attachments.LinkResolution` | src/app/api/finance/route.ts:274-285 | the link is the leftmost link-bearing cell's candidate; failing that, the drive path if it passes the test; otherwise `null` |
| `Attachments.FirstLinkCell` | src/app/api/finance/route.ts:275-281 | a row with a link-bearing cell has a leftmost one |
| `Attachments.AttachmentsNewestFirst` | src/app/api/finance/route.ts:300-305 | the output is a permutation of the emitted records, newest first, undated last and in sheet order |
| `Attachments.AttachmentsCount` | src/app/api/finance/route.ts:265-298 | the record count equals the number of named data rows, each record has a file name or a drive path, and every link is http |
| `Transactions.Positions` | src/app/api/finance/route.ts:146-163 | the ascending positions of exactly the attachments carrying a given id |
| `Transactions.Pick` | src/app/api/finance/route.ts:180 | the attachments at the listed positions, in that order |
| `Transactions.IndexAttachments` | src/app/api/finance/route.ts:143-163 | afterwards each non-empty email id and thread id lists the attachments carrying it, in list order, each once; the empty id is not indexed |
| `Transactions.AddToIndex` | src/app/api/finance/route.ts:147-154 | one `push` unless already `includes`d keeps the index exact for one more attachment |
| `Transactions.IndexSkips` | src/app/api/finance/route.ts:147 | an attachment with an empty id leaves the index exact |
| `Transactions.FolderRecord` | src/app/api/finance/route.ts:192-205 | the folder record's link is set iff the folder passes `/^https?:\/\//i`, and it then equals the folder; file name and drive path are the folder; no `savedAt` |
| `Transactions.PutAll` | src/app/api/finance/route.ts:180-189 | setting a list of attachments keeps the map's keys unique |
| `Transactions.PutEach` | src/app/api/finance/route.ts:180-183 | the `forEach` of `set`s over one looked-up list gives `PutAll` |
| `Transactions.SelectedEntries` | src/app/api/finance/route.ts:178-190 | after the email list and the thread list the keys are unique |
| `Transactions.DerivedEntries` | src/app/api/finance/route.ts:178-205 | after the folder record as well the keys are unique |
| `Transactions.PutKeys` | src/app/api/finance/route.ts:182 | `set` adds its key to the key set and no other |
| `Transactions.PutAllKeys` | src/app/api/finance/route.ts:180-189 | setting the listed attachments adds exactly their keys |
| `Transactions.PutAllEntries` | src/app/api/finance/route.ts:180-189 | after setting the listed attachments every entry is an old one or a listed attachment under its own key |
| `Transactions.DerivedEntriesKeys` | src/app/api/finance/route.ts:178-205 | the keys are unique and are exactly those of the attachments the email id and the thread id select, plus the folder key when a folder is named |
| `Transactions.DerivedEntriesProvenance` | src/app/api/finance/route.ts:178-205 | every entry is the folder record or a selected attachment under its own key, and the folder record is there whenever a folder is named |
| `Transactions.SelectedEntriesMeaning` | src/app/api/finance/route.ts:178-190 | before the folder: the keys of the selected attachments, each entry under its own key |
| `Transactions.PickedSelected` | src/app/api/finance/route.ts:179-190 | the attachments an index lists for a non-empty id are selected by that id |
| `Transactions.DerivedAttachmentsMeaning` | src/app/api/finance/route.ts:178-207 | no two non-folder attachments of a transaction share a key; each attachment is the folder record or came from the email or thread index; the folder record is present when a folder is named |
| `Transactions.KeysCanCollide` | src/app/api/finance/route.ts:181 | two different attachments can share a key, and the later then replaces the earlier |
| `Transactions.FolderRecordBesideSameKey` | src/app/api/finance/route.ts:178-205 | an attachment keyed `${folder}-${folder}` is kept beside the folder record, which is stored under `${folder}-folder` but has that same key of its own |
| `Transactions.FolderKeyCollides` | src/app/api/finance/route.ts:178-205 | an attachment with drive path and file name `"X"` and the folder record of folder `"X"` are both kept, both with key `"X-X"` |
| `Transactions.LaterSameKeyReplaces` | src/app/api/finance/route.ts:179-183 | of two attachments of one email sharing a key, only the later one is in the list |
| `Transactions.DeriveAttachments` | src/app/api/finance/route.ts:178-207 | filling the per-row map from the two indexes and the folder gives `DerivedAttachments` |
| `Transactions.BuildTransaction` | src/app/api/finance/route.ts:167-231 | one kept row's transaction, built from the indexes, is `TransactionOf(row, index)` |
| `Transactions.BuildTransactions` | src/app/api/finance/route.ts:139-239 | the index, filter, map and sort give `TransactionsOf(rows, atts)` |
| `Transactions.TransactionsFromDatedRows` | src/app/api/finance/route.ts:165-167 | one transaction per row with a truthy `Date` and no other: a permutation of the kept rows' transactions, the k-th built with index k |
| `Transactions.TransactionsNewestFirst` | src/app/api/finance/route.ts:233-238 | newest first, every undated transaction after every dated one, undated ones in row order |
| `Transactions.TransactionIdChain` | src/app/api/finance/route.ts:210 | the id is the raw `EmailId` unless nullish, else the raw `ThreadId` unless nullish, else `tx-<index>`; fallback ids of different kept rows differ |
| `Transactions.TransactionFields` | src/app/api/finance/route.ts:168-226 | `total` reads `Total` unless nullish, else `Amount`; `attachmentCount` is the parsed count or 0; `date` is the reading of `Date`, `null` when unreadable; the attachments are `DerivedAttachments` |
| `VendorRules.VendorRulesAppend` | src/app/api/finance/route.ts:308-316 | the rules of consecutive row runs are the rules of the first run followed by those of the second, so input order is kept |
| `VendorRules.VendorRuleOfOneRow` | src/app/api/finance/route.ts:308-316 | a row gives its rule iff its `Vendor_Contains` is truthy |
| `VendorRules.VendorRulesExactlyNamed` | src/app/api/finance/route.ts:308-316 | every rule comes from a row with a truthy `Vendor_Contains`, and every such row gives its rule |
| `VendorRules.BlankVendorKept` | src/app/api/finance/route.ts:310-312 | a white-space-only `Vendor_Contains` is kept and gives an empty `vendorContains` |
| `DerivedSeries.Abs` | src/app/api/finance/route.ts:340 | `Math.abs` is non-negative and equals the value or its negation |
| `DerivedSeries.IsExpenseMeaning` | src/app/api/finance/route.ts:319-324 | a type mentioning income is never an expense; otherwise an expense iff the amount is negative, the type is empty, or the type mentions expense |
| `DerivedSeries.DaySum` | src/app/api/finance/route.ts:340-341 | a day's sum of absolute amounts is non-negative |
| `DerivedSeries.AccumulateDays` | src/app/api/finance/route.ts:332-342 | the map's keys are exactly the days holding an expense in the window, each with that day's sum, and the key order lists each key once |
| `DerivedSeries.DaysSnoc` | src/app/api/finance/route.ts:334-341 | one more expense adds its day if it is in the window, and adds its amount to that day only |
| `DerivedSeries.DayOrderConsistent` | src/app/api/finance/route.ts:345 | the day order is a total preorder |
| `DerivedSeries.BuildBurnTrend` | src/app/api/finance/route.ts:318-351 | the points have strictly ascending, hence unique, days; they are exactly the days holding an expense in the window; each carries that day's sum and the label of its midnight |
| `DerivedSeries.AscendingDays` | src/app/api/finance/route.ts:344-345 | sorting the distinct keys gives each key once, in strictly ascending order |
| `DerivedSeries.IncomeNeverCounted` | src/app/api/finance/route.ts:322 | removing a transaction whose type mentions income changes neither the days nor any day's sum |
| `DerivedSeries.DaySumOutsideDays` | src/app/api/finance/route.ts:341 | a day with no expense in the window has sum 0 |
| `DerivedSeries.RecentExpensesFirstFive` | src/app/api/finance/route.ts:353-361 | the output has min(5, number of expenses) entries and the k-th is built from the k-th expense |
| `DerivedSeries.RecentExpenseFields` | src/app/api/finance/route.ts:362-367 | `total` is the magnitude of `total ?? amount ?? 0`, so it is non-negative; `payee` falls back through memo and category to "Unknown", so it is never empty; `category` falls back to `subcategory`; the date is kept |
| `StableSort.FilterSorted` | src/app/api/finance/route.ts:354-360 | filtering a sorted sequence, such as the newest-first transactions, keeps it sorted |
| `DerivedSeries.RecentExpensesNewestFirst` | src/app/api/finance/route.ts:353-368 | over the route's sorted transactions the recent expenses are newest first |
| `FinanceRoute.FinanceGet` | src/app/api/finance/route.ts:370-425 | a failed download is the 502 answer; otherwise each part of the body is its stage's result over the stages' actual inputs: burn points ascending by day, one per expense day with that day's sum, and recent expenses newest first |
| `Upcoming.ParseBoolMeaning` | src/app/api/upcoming/route.ts:20-24 | true iff the trimmed, lower-cased value is "true", "y" or "yes"; `null`, `undefined` and "" give false |
| `Upcoming.ParseBoolAcceptsPadded` | src/app/api/upcoming/route.ts:20-24 | an accepted word in any letter case, with white space around it, reads as true |
| `Upcoming.ParseBoolIgnoresCase` | src/app/api/upcoming/route.ts:22 | lower-casing the value does not change the result |
| `Upcoming.ParseBoolRejects` | src/app/api/upcoming/route.ts:21-23 | a missing value, "" and "1" read as false |
| `Upcoming.ParseBoolRejectsNo` | src/app/api/upcoming/route.ts:22-23 | "no" reads as false |
| `Upcoming.ParseBoolRejectsWord` | src/app/api/upcoming/route.ts:22-23 | a lower-case word with no surrounding white space that is not an accepted spelling reads as false |
| `Upcoming.Dependencies` | src/app/api/upcoming/route.ts:72 | a missing column gives `[]`; every dependency is non-empty, trimmed and free of the pipe separator |
| `Upcoming.SegmentsClean` | src/app/api/upcoming/route.ts:72 | every trimmed segment is free of the pipe separator and has nothing left to trim |
| `Upcoming.DependenciesOfJoin` | src/app/api/upcoming/route.ts:72 | the dependencies of pipe-joined text are the trimmed, non-empty parts, in order |
| `Upcoming.DependenciesRoundTrip` | src/app/api/upcoming/route.ts:72 | joining clean names with pipes and reading them back gives the names |
| `Upcoming.DueInDaysReads` | src/app/api/upcoming/route.ts:56-58 | an integer written with white space around it is read back |
| `Upcoming.ParseIntPadded` | src/app/api/upcoming/route.ts:57 | `parseInt` reads an integer rendering surrounded by white space |
| `Upcoming.DueInDaysBlank` | src/app/api/upcoming/route.ts:56-58 | a missing or blank cell, or the word "soon", gives `null` |
| `Upcoming.DueInDaysNull` | src/app/api/upcoming/route.ts:56-58 | a present cell gives `null` exactly when its text, past leading white space, starts with neither a digit nor a sign followed by a digit |
| `Upcoming.DefaultsOnlyForMissingColumns` | src/app/api/upcoming/route.ts:64-77 | "General" and "Not Started" only for missing columns; a blank cell gives "" |
| `Upcoming.MapRows` | src/app/api/upcoming/route.ts:54-78 | the `map` succeeds iff every record maps, and then gives one task per record in order |
| `Upcoming.LexLeReflexive` | src/app/api/upcoming/route.ts:86 | a due date compares equal to itself |
| `Upcoming.LexLeTotal` | src/app/api/upcoming/route.ts:86 | any two due dates are ordered one way or the other |
| `Upcoming.LexLeTransitive` | src/app/api/upcoming/route.ts:86 | the due-date order is transitive |
| `Upcoming.TaskOrderConsistent` | src/app/api/upcoming/route.ts:82-89 | the comparator is a total preorder |
| `Upcoming.MissingDueDateSortsFirst` | src/app/api/upcoming/route.ts:83-86 | among tasks due in the same number of days, one with no due date strictly precedes one with a due date |
| `Upcoming.RespondMeaning` | src/app/api/upcoming/route.ts:26-97 | the answer carries tasks iff the download succeeded, the CSV parsed cleanly and every record's due date is valid; otherwise 502, or 500 for a parse error |
| `Upcoming.InvalidDateFailsRequest` | src/app/api/upcoming/route.ts:60-62 | one invalid non-blank `DueDate`, on any record, makes the whole request the 500 answer |
| `Upcoming.TasksAreKeptRecords` | src/app/api/upcoming/route.ts:54-79 | the tasks are a permutation of the mapped records with an id and a task title; a task is present iff it is such a record's task |
| `Upcoming.KeptMeaning` | src/app/api/upcoming/route.ts:79 | a task survives the filter iff it has an id and a task title and some record maps to it |
| `Upcoming.TasksOrdered` | src/app/api/upcoming/route.ts:82-89 | ascending by `dueInDays`, every task without it after every task with it, ties ordered by `dueDate ?? ""` |
| `Upcoming.TiesKeepSheetOrder` | src/app/api/upcoming/route.ts:82-89 | tasks with the same days until due and the same due date keep their sheet order |

## Left out

- HTTP and the runtime. `fetch`, the revalidate option and `NextResponse` are
  not modelled. The download's success and the CSV parse-error count are
  parameters of the two `GET` models. An exception escaping the finance
  handler (its 500 answer) is not modelled.
- Spreadsheet parsing. `XLSX.read`, `sheet_to_json`, `decode_range`,
  `encode_cell` and `Papa.parse` belong to foreign libraries. Sheets and CSV
  records are given as sequences of rows. A missing finance sheet is taken to
  give no rows.
- Attachments.FindLink: scans the data row's own cells. It does not model the
  source's use of the loop index as a sheet address, which points at a
  different row once `blankrows: false` has dropped a blank row.
- Dates and clocks. `normaliseDate`'s reading of a truthy cell (a `Date`, a
  spreadsheet serial or free text) is a parameter. So are
  `new Date(text).toISOString()`, the `Intl` label formatter and the window
  built from `new Date()`.
- DerivedSeries.BuildBurnTrend: a point's `date` is the UTC day number,
  whereas the source uses the `YYYY-MM-DD` text. Both orders agree for years
  0000-9999.
- DerivedSeries.BuildBurnTrend: amounts are exact sums, not rounded with
  `toFixed(2)`.
- Upcoming.TaskBefore: `localeCompare` is modelled as code-point order. The
  two agree on strings of the single shape `toISOString` produces, and on
  `""` against them.
- Floating point. Amounts are exact reals. `parseFloat` is modelled on
  cleaned strings, and a finite number cell is taken as given, `String(...)`
  text included. Overflow to `Infinity` is not modelled.
- Upcoming.DueInDays: `parseInt` of a digit string too long to be finite
  (giving `Infinity` and therefore `null`) is read as its exact integer.
- Case mapping. `toLowerCase` and the regex `i` flag are modelled for ASCII
  letters only. Every comparison in these routes is against ASCII text.
- Object identity. The `includes` check in the index compares attachment
  objects by identity, which the model represents by position in the list.
- The `bytesize` column lookup is never used by the source, so it is not
  modelled.
- `src/lib/finance.ts` and `src/lib/upcoming.ts` choose the sheet URLs from
  the environment. They are not part of this model, except that the
  `UpcomingTask` type is mirrored as a datatype.
