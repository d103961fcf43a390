/**
 * The records of the finance route (`FinanceMetrics`, `FinanceAttachment`,
 * `FinanceTransaction`, `VendorRule`, `BurnTrendPoint`, `RecentExpense`),
 * its date normalisation and the comparator shared by its two sorts.
 *
 * A date is kept as its timestamp in milliseconds: `normaliseDate` returns an
 * ISO 8601 string of a valid date, which `new Date(...)` reads back to the
 * same timestamp, so the string and the number carry the same information.
 */
module FinanceTypes {
  import opened Cells
  import opened StableSort

  datatype FinanceMetrics = FinanceMetrics(
    openingCapital: real,
    currentSpendToDate: real,
    incomeToDate: real,
    netCashOut: real,
    capitalRemaining: real,
    monthBurn: real,
    last30Burn: real,
    avgDailyBurn: real,
    runwayDays: real)

  datatype FinanceAttachment = FinanceAttachment(
    savedAt: Option<int>,
    emailId: string,
    threadId: string,
    fileName: string,
    drivePath: string,
    link: Option<string>,
    vendorGuess: string,
    parsedAmount: Option<real>,
    notes: string)

  /** A ledger entry; `txType` is the `type` field. */
  datatype FinanceTransaction = FinanceTransaction(
    id: string,
    date: Option<int>,
    account: string,
    txType: string,
    payee: string,
    memo: string,
    category: string,
    subcategory: string,
    amount: Option<real>,
    gstHst: Option<real>,
    tip: Option<real>,
    total: Option<real>,
    source: string,
    emailId: string,
    threadId: string,
    attachmentFolder: string,
    attachmentCount: real,
    status: string,
    notes: string,
    month: string,
    attachments: seq<FinanceAttachment>)

  datatype VendorRule = VendorRule(
    vendorContains: string,
    assignCategory: string,
    assignSubcategory: string,
    tag: string)

  /** One day of the burn trend; `day` is the UTC calendar day (days since 1970-01-01), `labelText` the `label` field. */
  datatype BurnTrendPoint = BurnTrendPoint(day: int, labelText: string, amount: real)

  datatype RecentExpense = RecentExpense(
    date: Option<int>,
    labelText: string,
    payee: string,
    total: real,
    category: string)

  /**
   * How the host reads a truthy date cell (a `Date`, a spreadsheet serial
   * number or free text) into a timestamp; `None` when it is not a valid date.
   */
  type DateReader = Cell -> Option<int>

  /** `normaliseDate`: a falsy cell is `null`, anything else is read by the host. */
  function NormaliseDate(c: Cell, readDate: DateReader): (r: Option<int>)
    ensures !Truthy(c) ==> r == None
  {
    if !Truthy(c) then None else readDate(c)
  }

  /**
   * The comparator of both finance sorts: two undated records are equal, an
   * undated record goes after a dated one, and dated records compare by
   * `b - a` on their timestamps.
   */
  function CompareNewestFirst(a: Option<int>, b: Option<int>): int {
    if a.None? && b.None? then 0
    else if a.None? then 1
    else if b.None? then -1
    else b.value - a.value
  }

  /** `compare(a, b) <= 0`: `a` may stand before `b`. */
  predicate NewestFirst(a: Option<int>, b: Option<int>) {
    CompareNewestFirst(a, b) <= 0
  }

  /** The order the comparator sorts by: dated records newest first, then the undated ones. */
  lemma NewestFirstMeaning(a: Option<int>, b: Option<int>)
    ensures NewestFirst(a, b) <==> b.None? || (a.Some? && a.value >= b.value)
  {
  }

  predicate AttachmentBefore(a: FinanceAttachment, b: FinanceAttachment) {
    NewestFirst(a.savedAt, b.savedAt)
  }

  predicate TransactionBefore(a: FinanceTransaction, b: FinanceTransaction) {
    NewestFirst(a.date, b.date)
  }

  lemma AttachmentOrderConsistent()
    ensures TotalPreorder(AttachmentBefore)
  {
  }

  lemma TransactionOrderConsistent()
    ensures TotalPreorder(TransactionBefore)
  {
  }
}
