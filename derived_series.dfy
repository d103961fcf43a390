/**
 * The two series derived from the transactions: the daily burn trend
 * (`buildBurnTrend`) and the five most recent expenses
 * (`buildRecentExpenses`), both over the expense predicate they share.
 */
module DerivedSeries {
  import opened Text
  import opened Cells
  import opened Seqs
  import opened StableSort
  import opened FinanceTypes

  // ---------------------------------------------------------------------
  // The expense predicate
  // ---------------------------------------------------------------------

  /** `tx.total ?? tx.amount ?? 0`. */
  function Effective(tx: FinanceTransaction): real {
    if tx.total.Some? then tx.total.value
    else if tx.amount.Some? then tx.amount.value
    else 0.0
  }

  /** `Math.abs`. */
  function Abs(x: real): (r: real)
    ensures r >= 0.0 && (r == x || r == -x)
  {
    if x < 0.0 then -x else x
  }

  /** `tx.type.toLowerCase().includes(word)`. */
  predicate TypeMentions(tx: FinanceTransaction, word: string) {
    Contains(Lower(tx.txType), word)
  }

  /**
   * The filter both series apply. Its first test, `total === null`, can never
   * hold because the chain ends in 0, so it is not modelled.
   */
  predicate IsExpense(tx: FinanceTransaction) {
    if tx.txType != "" && TypeMentions(tx, "income") then false
    else Effective(tx) < 0.0 || tx.txType == "" || TypeMentions(tx, "expense")
  }

  /** The filter in words: never a transaction whose type mentions income; otherwise a negative amount, an untyped row or a type mentioning expense. */
  lemma IsExpenseMeaning(tx: FinanceTransaction)
    ensures TypeMentions(tx, "income") ==> !IsExpense(tx)
    ensures !TypeMentions(tx, "income") ==>
      (IsExpense(tx) <==> Effective(tx) < 0.0 || tx.txType == "" || TypeMentions(tx, "expense"))
  {
  }

  // ---------------------------------------------------------------------
  // The burn trend
  // ---------------------------------------------------------------------

  /** Milliseconds in a day. */
  const DayMs: int := 86400000

  /** The UTC calendar day of a timestamp: `toISOString().slice(0, 10)` as a day number. */
  function DayOf(ts: int): int {
    ts / DayMs
  }

  /** A transaction the `forEach` adds: dated, and inside the window `[start, end]`. */
  predicate InWindow(tx: FinanceTransaction, start: int, end: int) {
    tx.date.Some? && start <= tx.date.value <= end
  }

  /** A transaction that lands on `day`. */
  predicate CountsOn(tx: FinanceTransaction, start: int, end: int, day: int) {
    InWindow(tx, start, end) && DayOf(tx.date.value) == day
  }

  /** The reference sum: `|total ?? amount ?? 0|` over the expenses in the window on `day`. */
  function DaySum(expenses: seq<FinanceTransaction>, start: int, end: int, day: int): (r: real)
    ensures r >= 0.0
  {
    if expenses == [] then 0.0
    else
      var tx := expenses[|expenses| - 1];
      DaySum(expenses[..|expenses| - 1], start, end, day) + if CountsOn(tx, start, end, day) then Abs(Effective(tx)) else 0.0
  }

  /** The days holding at least one expense in the window. */
  ghost function Days(expenses: seq<FinanceTransaction>, start: int, end: int): set<int> {
    set i | 0 <= i < |expenses| && InWindow(expenses[i], start, end) :: DayOf(expenses[i].date.value)
  }

  /** What the accumulating map holds after the first `n` expenses, with the keys in insertion order. */
  ghost predicate Accumulated(expenses: seq<FinanceTransaction>, start: int, end: int,
                              sums: map<int, real>, order: seq<int>)
  {
    && sums.Keys == Days(expenses, start, end)
    && (forall day :: day in sums ==> sums[day] == DaySum(expenses, start, end, day))
    && Distinct(order)
    && (forall i :: 0 <= i < |order| ==> order[i] in sums)
    && (forall day :: day in sums ==> day in order)
  }

  /** The `forEach` that fills the map, one day per key. */
  method AccumulateDays(expenses: seq<FinanceTransaction>, start: int, end: int)
    returns (sums: map<int, real>, order: seq<int>)
    ensures Accumulated(expenses, start, end, sums, order)
  {
    sums := map[];
    order := [];
    for i := 0 to |expenses|
      invariant Accumulated(expenses[..i], start, end, sums, order)
    {
      var tx := expenses[i];
      PrefixSnoc(expenses, i);
      if tx.date.None? {
        AccumulateSkips(expenses[..i], tx, start, end, sums, order);
        continue;
      }
      var date := tx.date.value;
      if date < start || date > end {
        AccumulateSkips(expenses[..i], tx, start, end, sums, order);
        continue;
      }
      var key := DayOf(date);
      var value := Abs(Effective(tx));
      var previous := if key in sums then sums[key] else 0.0;
      AccumulateAdds(expenses[..i], tx, start, end, sums, order);
      if key !in sums {
        order := order + [key];
      }
      sums := sums[key := previous + value];
    }
    assert expenses[..|expenses|] == expenses;
  }

  /** An expense outside the window leaves the map and the key order as they are. */
  lemma AccumulateSkips(expenses: seq<FinanceTransaction>, tx: FinanceTransaction, start: int, end: int,
                        sums: map<int, real>, order: seq<int>)
    requires Accumulated(expenses, start, end, sums, order)
    requires !InWindow(tx, start, end)
    ensures Accumulated(expenses + [tx], start, end, sums, order)
  {
    DaysSnoc(expenses, tx, start, end);
  }

  /** An expense in the window adds its amount under its day, appending the day when it is new. */
  lemma AccumulateAdds(expenses: seq<FinanceTransaction>, tx: FinanceTransaction, start: int, end: int,
                       sums: map<int, real>, order: seq<int>)
    requires Accumulated(expenses, start, end, sums, order)
    requires InWindow(tx, start, end)
    ensures var key := DayOf(tx.date.value);
      var previous := if key in sums then sums[key] else 0.0;
      Accumulated(expenses + [tx], start, end, sums[key := previous + Abs(Effective(tx))],
                  if key in sums then order else order + [key])
  {
    var key := DayOf(tx.date.value);
    DaysSnoc(expenses, tx, start, end);
    if key !in sums {
      DaySumOutsideDays(expenses, start, end, key);
    }
  }

  /** One more expense adds its day when it is in the window, and its amount to that day only. */
  lemma DaysSnoc(expenses: seq<FinanceTransaction>, tx: FinanceTransaction, start: int, end: int)
    ensures Days(expenses + [tx], start, end)
      == Days(expenses, start, end) + (if InWindow(tx, start, end) then {DayOf(tx.date.value)} else {})
    ensures forall day :: (DaySum(expenses + [tx], start, end, day)
      == DaySum(expenses, start, end, day) + (if CountsOn(tx, start, end, day) then Abs(Effective(tx)) else 0.0))
  {
    var s := expenses + [tx];
    assert s[..|expenses|] == expenses;
    forall day | day in Days(s, start, end)
      ensures day in Days(expenses, start, end) + if InWindow(tx, start, end) then {DayOf(tx.date.value)} else {}
    {
      var i :| 0 <= i < |s| && InWindow(s[i], start, end) && DayOf(s[i].date.value) == day;
      if i < |expenses| {
        assert s[i] == expenses[i];
      }
    }
    forall day | day in Days(expenses, start, end)
      ensures day in Days(s, start, end)
    {
      var i :| 0 <= i < |expenses| && InWindow(expenses[i], start, end) && DayOf(expenses[i].date.value) == day;
      assert s[i] == expenses[i];
    }
    if InWindow(tx, start, end) {
      assert s[|expenses|] == tx;
    }
  }

  /** `(a, b) => a[0].localeCompare(b[0]) <= 0` on day keys. */
  predicate DayBefore(a: int, b: int) {
    a <= b
  }

  lemma DayOrderConsistent()
    ensures TotalPreorder(DayBefore)
  {
  }

  /**
   * `buildBurnTrend` with its window `[start, end]` and its label formatter
   * passed in: one point per day holding an expense in the window, in
   * strictly ascending day order, each carrying that day's sum of absolute
   * amounts and the label of the day's midnight.
   */
  method BuildBurnTrend(txs: seq<FinanceTransaction>, start: int, end: int, labelOf: int -> string)
    returns (points: seq<BurnTrendPoint>)
    ensures forall i, j :: 0 <= i < j < |points| ==> points[i].day < points[j].day
    ensures (set i | 0 <= i < |points| :: points[i].day) == Days(Filter(IsExpense, txs), start, end)
    ensures forall i :: 0 <= i < |points| ==>
      points[i].amount == DaySum(Filter(IsExpense, txs), start, end, points[i].day)
      && points[i].labelText == labelOf(points[i].day * DayMs)
  {
    var expenses := Filter(IsExpense, txs);
    var sums, order := AccumulateDays(expenses, start, end);
    var days := Sort(order, DayBefore);
    AscendingDays(order, days, sums);
    points := seq(|days|, i requires 0 <= i < |days| => BurnTrendPoint(days[i], labelOf(days[i] * DayMs), sums[days[i]]));
    forall i | 0 <= i < |points|
      ensures points[i].day == days[i]
      ensures points[i].amount == DaySum(expenses, start, end, points[i].day)
      ensures points[i].labelText == labelOf(points[i].day * DayMs)
    {
      assert points[i] == BurnTrendPoint(days[i], labelOf(days[i] * DayMs), sums[days[i]]);
    }
    PointDays(points, days, sums);
  }

  /** Points laid out day by day over the sorted keys of the map cover exactly its keys. */
  lemma PointDays(points: seq<BurnTrendPoint>, days: seq<int>, sums: map<int, real>)
    requires |points| == |days|
    requires forall i :: 0 <= i < |points| ==> points[i].day == days[i]
    requires forall i :: 0 <= i < |days| ==> days[i] in sums
    requires forall day :: day in sums ==> exists i :: 0 <= i < |days| && days[i] == day
    ensures (set i | 0 <= i < |points| :: points[i].day) == sums.Keys
  {
    forall day | day in sums
      ensures day in (set i | 0 <= i < |points| :: points[i].day)
    {
      var i :| 0 <= i < |days| && days[i] == day;
      assert points[i].day == day;
    }
  }

  /**
   * Sorting the distinct keys of the map gives them in strictly ascending
   * order, and gives every key once (sorting the entries by key, as the
   * route does, orders them the same way since keys are distinct).
   */
  lemma AscendingDays(order: seq<int>, days: seq<int>, sums: map<int, real>)
    requires days == Sort(order, DayBefore)
    requires Distinct(order)
    requires forall i :: 0 <= i < |order| ==> order[i] in sums
    requires forall day :: day in sums ==> day in order
    ensures forall i, j :: 0 <= i < j < |days| ==> days[i] < days[j]
    ensures forall i :: 0 <= i < |days| ==> days[i] in sums
    ensures forall day :: day in sums ==> exists i :: 0 <= i < |days| && days[i] == day
  {
    DayOrderConsistent();
    SortSorted(order, DayBefore);
    SortPermutes(order, DayBefore);
    DistinctPermutation(order, days);
    forall i, j | 0 <= i < j < |days|
      ensures days[i] < days[j]
    {
      assert DayBefore(days[i], days[j]);
    }
    forall i | 0 <= i < |days|
      ensures days[i] in sums
    {
      assert days[i] in multiset(order);
    }
    forall day | day in sums
      ensures exists i :: 0 <= i < |days| && days[i] == day
    {
      assert day in multiset(order);
      assert day in days;
    }
  }

  /**
   * A transaction whose type mentions income never reaches the trend:
   * removing it changes neither the days nor any day's sum.
   */
  lemma IncomeNeverCounted(before: seq<FinanceTransaction>, tx: FinanceTransaction, after: seq<FinanceTransaction>,
                           start: int, end: int, day: int)
    requires TypeMentions(tx, "income")
    ensures Filter(IsExpense, before + [tx] + after) == Filter(IsExpense, before + after)
    ensures Days(Filter(IsExpense, before + [tx] + after), start, end) == Days(Filter(IsExpense, before + after), start, end)
    ensures DaySum(Filter(IsExpense, before + [tx] + after), start, end, day)
      == DaySum(Filter(IsExpense, before + after), start, end, day)
  {
    IsExpenseMeaning(tx);
    FilterAppend(IsExpense, before + [tx], after);
    FilterAppend(IsExpense, before, [tx]);
    FilterAppend(IsExpense, before, after);
    assert [tx][1..] == [];
    assert Filter(IsExpense, before + [tx]) == Filter(IsExpense, before);
  }

  /** A day's sum is positive only if some expense lands on it; a day outside the days has sum 0. */
  lemma {:induction false} DaySumOutsideDays(expenses: seq<FinanceTransaction>, start: int, end: int, day: int)
    requires day !in Days(expenses, start, end)
    ensures DaySum(expenses, start, end, day) == 0.0
  {
    if expenses != [] {
      var init := expenses[..|expenses| - 1];
      var tx := expenses[|expenses| - 1];
      assert expenses == init + [tx];
      DaysSnoc(init, tx, start, end);
      DaySumOutsideDays(init, start, end, day);
    }
  }

  // ---------------------------------------------------------------------
  // The recent expenses
  // ---------------------------------------------------------------------

  /** `formatLabelDate(tx.date)` with the formatter passed in: no date, no label. */
  function DateLabel(date: Option<int>, labelOf: int -> string): string {
    if date.None? then "" else labelOf(date.value)
  }

  /** `a || b`: the first non-empty string, else the fallback. */
  function OrElse(a: string, b: string): string {
    if a != "" then a else b
  }

  /** The record the `map` builds from one expense. */
  function RecentOf(labelOf: int -> string): FinanceTransaction -> RecentExpense {
    (tx: FinanceTransaction) => RecentExpense(
      date := tx.date,
      labelText := DateLabel(tx.date, labelOf),
      payee := OrElse(tx.payee, OrElse(tx.memo, OrElse(tx.category, "Unknown"))),
      total := Abs(Effective(tx)),
      category := OrElse(tx.category, tx.subcategory))
  }

  /** `buildRecentExpenses(transactions)`. */
  function RecentExpenses(txs: seq<FinanceTransaction>, labelOf: int -> string): seq<RecentExpense> {
    MapSeq(RecentOf(labelOf), Take(Filter(IsExpense, txs), 5))
  }

  /**
   * The recent expenses are the first five expenses, in input order: their
   * number is the smaller of five and the number of expenses, and the `k`-th
   * is built from the `k`-th expense.
   */
  lemma RecentExpensesFirstFive(txs: seq<FinanceTransaction>, labelOf: int -> string)
    ensures var expenses := Filter(IsExpense, txs);
      var out := RecentExpenses(txs, labelOf);
      && |out| == (if |expenses| < 5 then |expenses| else 5)
      && forall k :: 0 <= k < |out| ==> out[k] == RecentOf(labelOf)(expenses[k])
  {
  }

  /**
   * Each recent expense: a non-negative total equal to the magnitude of
   * `total ?? amount ?? 0`, a payee from the chain payee, memo, category,
   * `Unknown` (never empty), and a category from category, subcategory.
   */
  lemma RecentExpenseFields(tx: FinanceTransaction, labelOf: int -> string)
    ensures var r := RecentOf(labelOf)(tx);
      && r.total >= 0.0 && (r.total == Effective(tx) || r.total == -Effective(tx))
      && r.payee != ""
      && r.payee == (if tx.payee != "" then tx.payee else if tx.memo != "" then tx.memo
                     else if tx.category != "" then tx.category else "Unknown")
      && r.category == (if tx.category != "" then tx.category else tx.subcategory)
      && r.date == tx.date
      && (r.labelText == "" <== tx.date.None?)
  {
  }

  /** Over transactions sorted newest first, as the route passes them, the recent expenses are newest first too. */
  lemma RecentExpensesNewestFirst(txs: seq<FinanceTransaction>, labelOf: int -> string)
    requires SortedBy(txs, TransactionBefore)
    ensures var out := RecentExpenses(txs, labelOf);
      forall i, j :: 0 <= i < j < |out| ==> NewestFirst(out[i].date, out[j].date)
  {
    FilterSorted(txs, TransactionBefore, IsExpense);
  }
}
