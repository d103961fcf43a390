/**
 * `collectMetrics`: reads the dashboard sheet as label/value rows into a
 * lookup keyed by the trimmed, lower-cased label, and answers each of the
 * nine metrics from it with a default of 0.
 */
module Metrics {
  import opened Text
  import opened Cells
  import opened Numbers
  import opened Seqs
  import opened FinanceTypes

  /** A dashboard row read with `header: 1`: its cells, left to right. */
  type DashboardRow = seq<Cell>

  /** `row[index]`: `undefined` past the end of the row. */
  function CellAt(row: DashboardRow, index: nat): Cell {
    if index < |row| then row[index] else Undefined
  }

  /** `String(labelCell).trim()`. */
  function Label(row: DashboardRow): string {
    Trim(Show(CellAt(row, 0)))
  }

  /** A row that reaches `lookup.set`: a truthy label cell, a non-blank label, and a value `numberFormatter` reads. */
  predicate Contributes(row: DashboardRow) {
    Truthy(CellAt(row, 0)) && Label(row) != "" && NumberFormatter(CellAt(row, 1)).Some?
  }

  /** The key a contributing row is stored under. */
  function LabelKey(row: DashboardRow): string {
    Lower(Label(row))
  }

  /** A row that `lookup.set`s `key`. */
  function StoresUnder(key: string): DashboardRow -> bool {
    (row: DashboardRow) => Contributes(row) && LabelKey(row) == key
  }

  /** What `lookup.get(key)` holds after the `forEach` over `rows`. */
  function LastValue(rows: seq<DashboardRow>, key: string): Option<real> {
    var i := LastMatch(rows, StoresUnder(key));
    if i < 0 then None else NumberFormatter(CellAt(rows[i], 1))
  }

  /**
   * The value stored under `key` is that of the last contributing row stored
   * under `key`, and there is none (so the metric is 0) when no row is.
   */
  lemma LastValueMeaning(rows: seq<DashboardRow>, key: string)
    ensures LastValue(rows, key).Some? <==> exists i :: 0 <= i < |rows| && StoresUnder(key)(rows[i])
    ensures LastValue(rows, key).Some? ==> exists i :: (0 <= i < |rows| && StoresUnder(key)(rows[i])
      && LastValue(rows, key) == NumberFormatter(CellAt(rows[i], 1))
      && forall j :: i < j < |rows| ==> !StoresUnder(key)(rows[j]))
  {
    var i := LastMatch(rows, StoresUnder(key));
    if i >= 0 {
      assert StoresUnder(key)(rows[i]);
    }
  }

  /** `get(key)`: the stored value under the lower-cased key, or 0. */
  function Get(rows: seq<DashboardRow>, key: string): real {
    var found := LastValue(rows, Lower(key));
    if found.Some? then found.value else 0.0
  }

  /** The record `collectMetrics` returns. */
  function MetricsOf(rows: seq<DashboardRow>): FinanceMetrics {
    FinanceMetrics(
      openingCapital := Get(rows, "opening capital"),
      currentSpendToDate := Get(rows, "current spend to date (all)"),
      incomeToDate := Get(rows, "income to date (all)"),
      netCashOut := Get(rows, "net cash out"),
      capitalRemaining := Get(rows, "current capital remaining"),
      monthBurn := Get(rows, "this month burn (expenses)"),
      last30Burn := Get(rows, "last 30 days burn"),
      avgDailyBurn := Get(rows, "avg daily burn (30d)"),
      runwayDays := Get(rows, "runway (days)"))
  }

  /** `lookup.get(key)`. */
  function Find(lookup: map<string, real>, key: string): Option<real> {
    if key in lookup then Some(lookup[key]) else None
  }

  /** `lookup.get(key.toLowerCase()) ?? 0`. */
  function GetFrom(lookup: map<string, real>, key: string): real {
    var found := Find(lookup, Lower(key));
    if found.Some? then found.value else 0.0
  }

  /** `collectMetrics`: the `forEach` that fills `lookup`, then the nine lookups. */
  method CollectMetrics(rows: seq<DashboardRow>) returns (metrics: FinanceMetrics)
    ensures metrics == MetricsOf(rows)
  {
    var lookup: map<string, real> := map[];
    for i := 0 to |rows|
      invariant forall key :: Find(lookup, key) == LastValue(rows[..i], key)
    {
      var row := rows[i];
      var labelCell := CellAt(row, 0);
      if !Truthy(labelCell) {
        LastValueSkips(rows, i);
        continue;
      }
      var labelText := Trim(Show(labelCell));
      var value := NumberFormatter(CellAt(row, 1));
      if labelText != "" && value.Some? {
        assert Contributes(row) && LabelKey(row) == Lower(labelText);
        LastValueHits(rows, i);
        ghost var before := lookup;
        lookup := lookup[Lower(labelText) := value.value];
        forall key
          ensures Find(lookup, key) == LastValue(rows[..i + 1], key)
        {
          if key != Lower(labelText) {
            assert Find(lookup, key) == Find(before, key);
          }
        }
      } else {
        LastValueSkips(rows, i);
      }
    }
    assert rows[..|rows|] == rows;
    metrics := FinanceMetrics(
      openingCapital := GetFrom(lookup, "opening capital"),
      currentSpendToDate := GetFrom(lookup, "current spend to date (all)"),
      incomeToDate := GetFrom(lookup, "income to date (all)"),
      netCashOut := GetFrom(lookup, "net cash out"),
      capitalRemaining := GetFrom(lookup, "current capital remaining"),
      monthBurn := GetFrom(lookup, "this month burn (expenses)"),
      last30Burn := GetFrom(lookup, "last 30 days burn"),
      avgDailyBurn := GetFrom(lookup, "avg daily burn (30d)"),
      runwayDays := GetFrom(lookup, "runway (days)"));
  }

  /** A row that does not contribute leaves every stored value as it was. */
  lemma LastValueSkips(rows: seq<DashboardRow>, i: nat)
    requires i < |rows| && !Contributes(rows[i])
    ensures forall key :: LastValue(rows[..i + 1], key) == LastValue(rows[..i], key)
  {
    PrefixSnoc(rows, i);
    forall key
      ensures LastValue(rows[..i + 1], key) == LastValue(rows[..i], key)
    {
      LastMatchSnoc(rows[..i], rows[i], StoresUnder(key));
    }
  }

  /** A contributing row replaces the value stored under its own key and no other. */
  lemma LastValueHits(rows: seq<DashboardRow>, i: nat)
    requires i < |rows| && Contributes(rows[i])
    ensures LastValue(rows[..i + 1], LabelKey(rows[i])) == NumberFormatter(CellAt(rows[i], 1))
    ensures forall key :: key != LabelKey(rows[i]) ==> LastValue(rows[..i + 1], key) == LastValue(rows[..i], key)
  {
    PrefixSnoc(rows, i);
    forall key
      ensures LastMatch(rows[..i + 1], StoresUnder(key))
        == if key == LabelKey(rows[i]) then i else LastMatch(rows[..i], StoresUnder(key))
    {
      LastMatchSnoc(rows[..i], rows[i], StoresUnder(key));
    }
  }

  /** A row that does not contribute can be removed from anywhere without changing any metric. */
  lemma NonContributingIgnored(before: seq<DashboardRow>, row: DashboardRow, after: seq<DashboardRow>, key: string)
    requires !Contributes(row)
    ensures LastValue(before + [row] + after, key) == LastValue(before + after, key)
  {
    LastMatchSkips(before, row, after, StoresUnder(key));
  }

  /** White space around a label does not change the key it is stored under. */
  lemma LabelKeyIgnoresPadding(padded: DashboardRow, plain: DashboardRow, pre: string, name: string, post: string)
    requires AllSpace(pre) && AllSpace(post)
    requires name == [] || (!IsSpace(name[0]) && !IsSpace(name[|name| - 1]))
    requires CellAt(padded, 0) == Str(pre + name + post) && CellAt(plain, 0) == Str(name)
    ensures LabelKey(padded) == LabelKey(plain)
  {
    TrimPadded(pre, name, post);
    TrimPadded([], name, []);
    assert [] + name + [] == name;
  }

  /** The letter case of a label does not change the key it is stored under. */
  lemma LabelKeyIgnoresCase(lowered: DashboardRow, plain: DashboardRow, name: string)
    requires CellAt(lowered, 0) == Str(Lower(name)) && CellAt(plain, 0) == Str(name)
    ensures LabelKey(lowered) == LabelKey(plain)
  {
    TrimLower(name);
    LowerIdempotent(Trim(name));
  }

  /** A row labelled `Runway (Days)` with value `45` sets `runwayDays`. */
  lemma RunwayExample()
    ensures Get([[Str("Runway (Days)"), Str("45")]], "runway (days)") == 45.0
  {
    var key := "runway (days)";
    RunwayKey();
    NumberFormatterReadsFortyFive();
    var row: DashboardRow := [Str("Runway (Days)"), Str("45")];
    assert CellAt(row, 0) == Str("Runway (Days)") && CellAt(row, 1) == Str("45");
    assert |Label(row)| == |LabelKey(row)| == 13;
    assert Contributes(row);
    assert LastMatch([row], StoresUnder(key)) == 0;
  }

  /** A row labelled `Runway (Days)` whose value does not read as a number leaves `runwayDays` 0. */
  lemma RunwayUnreadable()
    ensures Get([[Str("Runway (Days)"), Str("N/A")]], "runway (days)") == 0.0
  {
    var key := "runway (days)";
    RunwayKey();
    NumberFormatterRejectsText();
    var miss: seq<DashboardRow> := [[Str("Runway (Days)"), Str("N/A")]];
    assert CellAt(miss[0], 1) == Str("N/A");
    assert !Contributes(miss[0]);
    assert LastMatch(miss, StoresUnder(key)) == -1;
  }

  /** The label `Runway (Days)` is stored under the key `get("runway (days)")` looks up. */
  lemma RunwayKey()
    ensures Lower("runway (days)") == "runway (days)"
    ensures forall v :: LabelKey([Str("Runway (Days)"), v]) == "runway (days)"
  {
    TrimPadded([], "Runway (Days)", []);
    assert [] + "Runway (Days)" + [] == "Runway (Days)";
    LowerRunwayLabel();
    LowerIdempotent("Runway (Days)");
  }
}
