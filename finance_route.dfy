/**
 * The finance route's `GET`: reads the five sheets of the finance workbook
 * and answers with the metrics, the transactions with their attachments, the
 * attachment log, the vendor rules, the 30-day burn trend and the five most
 * recent expenses.
 */
module FinanceRoute {
  import opened Cells
  import opened StableSort
  import opened FinanceTypes
  import Metrics
  import Attachments
  import Transactions
  import VendorRules
  import DerivedSeries
  import Seqs

  /** The JSON body of a successful answer, or the 502 for a failed download. */
  datatype FinanceResponse =
    | FinanceData(
        metrics: FinanceMetrics,
        transactions: seq<FinanceTransaction>,
        attachments: seq<FinanceAttachment>,
        vendorRules: seq<VendorRule>,
        burnTrend: seq<BurnTrendPoint>,
        recentExpenses: seq<RecentExpense>)
    | FetchFailed

  /**
   * `GET`, once the workbook has been read. `fetchOk` is `response.ok`;
   * `dashboard`, `transactionRows` and `ruleRows` are the rows of the
   * `Burn_Dashboard`, `Transactions` and `Rules_Vendors` sheets (no rows when
   * a sheet is missing); `attachmentSheet` is the `Attachments_Log` sheet's
   * rows, `None` when it is missing. The clock and the date formatting are
   * parameters: `[start, end]` is the burn window and `labelOf` the label
   * formatter.
   */
  method FinanceGet(
    fetchOk: bool,
    dashboard: seq<Metrics.DashboardRow>,
    attachmentSheet: Option<seq<Attachments.SheetRow>>,
    transactionRows: seq<Row>,
    ruleRows: seq<Row>,
    readDate: DateReader,
    start: int,
    end: int,
    labelOf: int -> string)
    returns (response: FinanceResponse)
    ensures !fetchOk <==> response == FetchFailed
    ensures response.FinanceData? ==>
      var txs := Transactions.TransactionsOf(transactionRows, Attachments.AttachmentsOf(attachmentSheet, readDate), readDate);
      && response.metrics == Metrics.MetricsOf(dashboard)
      && response.attachments == Attachments.AttachmentsOf(attachmentSheet, readDate)
      && response.transactions == txs
      && response.vendorRules == VendorRules.VendorRulesOf(ruleRows)
      && (forall i, j :: 0 <= i < j < |response.burnTrend| ==> response.burnTrend[i].day < response.burnTrend[j].day)
      && (set i | 0 <= i < |response.burnTrend| :: response.burnTrend[i].day)
         == DerivedSeries.Days(Seqs.Filter(DerivedSeries.IsExpense, txs), start, end)
      && (forall i :: 0 <= i < |response.burnTrend| ==>
            response.burnTrend[i].amount
              == DerivedSeries.DaySum(Seqs.Filter(DerivedSeries.IsExpense, txs), start, end, response.burnTrend[i].day)
            && response.burnTrend[i].labelText == labelOf(response.burnTrend[i].day * DerivedSeries.DayMs))
      && response.recentExpenses == DerivedSeries.RecentExpenses(txs, labelOf)
      && (forall i, j :: 0 <= i < j < |response.recentExpenses| ==>
            NewestFirst(response.recentExpenses[i].date, response.recentExpenses[j].date))
  {
    if !fetchOk {
      return FetchFailed;
    }
    var metrics := Metrics.CollectMetrics(dashboard);
    var attachments := Attachments.BuildAttachments(attachmentSheet, readDate);
    var transactions := Transactions.BuildTransactions(transactionRows, attachments, readDate);
    var vendorRules := VendorRules.VendorRulesOf(ruleRows);
    var burnTrend := DerivedSeries.BuildBurnTrend(transactions, start, end, labelOf);
    var recentExpenses := DerivedSeries.RecentExpenses(transactions, labelOf);
    TransactionOrderConsistent();
    SortSorted(Transactions.Projected(Seqs.Filter(Transactions.HasDate, transactionRows), attachments, readDate), TransactionBefore);
    DerivedSeries.RecentExpensesNewestFirst(transactions, labelOf);
    response := FinanceData(metrics, transactions, attachments, vendorRules, burnTrend, recentExpenses);
  }
}
