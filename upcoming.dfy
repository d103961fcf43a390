/**
 * The upcoming-tasks route: the rows of the task sheet's CSV export become
 * `UpcomingTask` records; rows without an id or a task title are dropped and
 * the rest are ordered by days until due (tasks without one last), ties
 * broken by the ISO due date.
 */
module Upcoming {
  import opened Text
  import opened Cells
  import opened Numbers
  import opened Seqs
  import opened StableSort

  /**
   * A CSV record read with `header: true`: column name to raw text. A column
   * the record does not have is absent from the map (`undefined`).
   */
  type CsvRow = map<string, string>

  /**
   * `new Date(text).toISOString()`: the ISO rendering of the date the text
   * denotes, or `None` when the date is invalid and `toISOString` throws.
   */
  type IsoReader = string -> Option<string>

  /** The shape the dashboard consumes. */
  datatype UpcomingTask = UpcomingTask(
    id: string,
    workstream: string,
    task: string,
    mandatoryCategory: string,
    urgency: string,
    criticalPath: bool,
    owner: string,
    dependencies: seq<string>,
    dueDate: Option<string>,
    dueInDays: Option<int>,
    status: string,
    pressing: bool)

  /** A value computed inside the `try` block, or the exception that escaped it. */
  datatype Outcome<T> = Done(value: T) | Thrown

  /** The HTTP answers of the handler: 200 with the tasks, 502, or one of the two 500s. */
  datatype Response =
    | Tasks(tasks: seq<UpcomingTask>)
    | FetchFailed
    | ParseFailed
    | Unexpected

  /** `row.Column`: `undefined` when the record has no such column. */
  function Column(row: CsvRow, name: string): Option<string> {
    if name in row then Some(row[name]) else None
  }

  /** `value?.trim() ?? fallback`: the fallback only for a missing column, never for blank text. */
  function TrimmedOr(value: Option<string>, fallback: string): string {
    if value.Some? then Trim(value.value) else fallback
  }

  // ---------------------------------------------------------------- parseBool

  /** The spellings `parseBool` accepts, after trimming and lower-casing. */
  const TrueWords: set<string> := {"true", "y", "yes"}

  /** `parseBool`. */
  function ParseBool(value: Option<string>): bool {
    if value.None? || value.value == "" then false
    else Lower(Trim(value.value)) in TrueWords
  }

  /**
   * `parseBool` is true exactly for the accepted spellings once trimmed and
   * lower-cased; the early return on an empty value changes nothing, as the
   * empty string is not one of them.
   */
  lemma ParseBoolMeaning(value: Option<string>)
    ensures ParseBool(value) <==> value.Some? && Lower(Trim(value.value)) in TrueWords
  {
    if value.Some? && value.value == "" {
      TrimEmpty();
      assert Lower("") == "";
    }
  }

  /** An accepted word is read as true whatever its letter case and the white space around it. */
  lemma ParseBoolAcceptsPadded(pre: string, word: string, post: string)
    requires AllSpace(pre) && AllSpace(post)
    requires Lower(word) in TrueWords
    ensures ParseBool(Some(pre + word + post))
  {
    assert word != [];
    assert Lower(word)[0] == LowerChar(word[0]);
    assert Lower(word)[|word| - 1] == LowerChar(word[|word| - 1]);
    TrimPadded(pre, word, post);
  }

  /** Letter case never matters. */
  lemma ParseBoolIgnoresCase(s: string)
    ensures ParseBool(Some(Lower(s))) == ParseBool(Some(s))
  {
    TrimLower(s);
    LowerIdempotent(Trim(s));
  }

  /** A missing cell, an empty one and a word outside the accepted ones, such as "1", read as false. */
  lemma ParseBoolRejects()
    ensures !ParseBool(None) && !ParseBool(Some(""))
    ensures !ParseBool(Some("1"))
  {
    ParseBoolRejectsWord("1");
  }

  /** "no" reads as false. */
  lemma ParseBoolRejectsNo()
    ensures !ParseBool(Some("no"))
  {
    var no := "no";
    assert no[0] == 'n' && no[1] == 'o' && |no| == 2;
    assert no != "true" && no != "y" && no != "yes";
    ParseBoolRejectsWord(no);
  }

  /** A word with no white space at its ends that is not an accepted spelling reads as false. */
  lemma ParseBoolRejectsWord(w: string)
    requires w != [] && !IsSpace(w[0]) && !IsSpace(w[|w| - 1])
    requires forall k :: 0 <= k < |w| ==> !('A' <= w[k] <= 'Z')
    requires w !in TrueWords
    ensures !ParseBool(Some(w))
  {
    TrimPadded([], w, []);
    assert [] + w + [] == w;
    LowerNoCapitals(w);
    assert Lower(Trim(w)) == w;
  }

  // ------------------------------------------------------------- dependencies

  predicate NonEmpty(s: string) {
    s != ""
  }

  /** `text.split("|").map((d) => d.trim())`. */
  function Segments(text: string): seq<string> {
    MapSeq(Trim, Split(text, '|'))
  }

  /**
   * `row.Dependencies?.split("|").map(trim).filter(Boolean) ?? []`: every
   * dependency is non-empty, trimmed and free of the separator.
   */
  function Dependencies(value: Option<string>): (r: seq<string>)
    ensures value.None? ==> r == []
    ensures forall k :: 0 <= k < |r| ==> r[k] != "" && '|' !in r[k] && Trim(r[k]) == r[k]
  {
    if value.None? then []
    else
      SegmentsClean(value.value);
      Filter(NonEmpty, Segments(value.value))
  }

  lemma SegmentsClean(text: string)
    ensures forall k :: 0 <= k < |Segments(text)| ==>
      '|' !in Segments(text)[k] && Trim(Segments(text)[k]) == Segments(text)[k]
  {
    var parts := Split(text, '|');
    forall k | 0 <= k < |parts|
      ensures '|' !in Trim(parts[k]) && Trim(Trim(parts[k])) == Trim(parts[k])
    {
      TrimKeepsOut(parts[k], '|');
      TrimIdempotent(parts[k]);
    }
  }

  /** Trimming adds no character. */
  lemma TrimKeepsOut(s: string, c: char)
    requires c !in s
    ensures c !in Trim(s)
  {
    var r := Trim(s);
    var i :| 0 <= i <= |s| - |r| && r == s[i..i + |r|] && AllSpace(s[..i]) && AllSpace(s[i + |r|..]);
  }

  /** The dependency list of `a|b|c` is the trimmed, non-empty ones of `a`, `b` and `c`, in order. */
  lemma DependenciesOfJoin(parts: seq<string>)
    requires |parts| >= 1
    requires forall k :: 0 <= k < |parts| ==> '|' !in parts[k]
    ensures Dependencies(Some(Join(parts, '|'))) == Filter(NonEmpty, MapSeq(Trim, parts))
  {
    JoinSplit(parts, '|');
  }

  /** Writing a list of clean dependency names joined by `|` and reading it back gives the list. */
  lemma DependenciesRoundTrip(deps: seq<string>)
    requires |deps| >= 1
    requires forall k :: 0 <= k < |deps| ==> deps[k] != "" && '|' !in deps[k] && Trim(deps[k]) == deps[k]
    ensures Dependencies(Some(Join(deps, '|'))) == deps
  {
    DependenciesOfJoin(deps);
    TrimAllTrimmed(deps);
    FilterAll(NonEmpty, deps);
  }

  lemma TrimAllTrimmed(names: seq<string>)
    requires forall k :: 0 <= k < |names| ==> Trim(names[k]) == names[k]
    ensures MapSeq(Trim, names) == names
  {
  }

  // ------------------------------------------------------ dueInDays / dueDate

  /**
   * `row.DueInDays?.trim() ? Number.parseInt(row.DueInDays, 10) : null`,
   * then `Number.isFinite(dueInDays) ? dueInDays : null`.
   */
  function DueInDays(value: Option<string>): Option<int> {
    if value.Some? && Trim(value.value) != "" then ParseInt(value.value) else None
  }

  /** An integer written with white space around it is read back. */
  lemma DueInDaysReads(pre: string, days: int, post: string)
    requires AllSpace(pre) && AllSpace(post)
    ensures DueInDays(Some(pre + IntToString(days) + post)) == Some(days)
  {
    var d := IntToString(days);
    IntToStringEdges(days);
    TrimPadded(pre, d, post);
    ParseIntPadded(pre, days, post);
  }

  /** The rendering of an integer starts with a sign or a digit and ends with a digit. */
  lemma IntToStringEdges(days: int)
    ensures IntToString(days) != [] && !IsSpace(IntToString(days)[0])
    ensures IsDigit(IntToString(days)[|IntToString(days)| - 1])
  {
    var d := IntToString(days);
    var digits := if days < 0 then NatToString(-days) else NatToString(days);
    assert d[|d| - 1] == digits[|digits| - 1];
    assert d[0] == '-' || d[0] == digits[0];
    assert IsDigit(digits[0]);
  }

  lemma ParseIntPadded(pre: string, days: int, post: string)
    requires AllSpace(pre) && AllSpace(post)
    ensures ParseInt(pre + IntToString(days) + post) == Some(days)
  {
    var d := IntToString(days);
    assert pre + d + post == pre + (d + post);
    ParseIntSkipsLeadingSpace(pre, d + post);
    assert post == [] || IsSpace(post[0]);
    ParseIntReadsLeadingInteger(days, post);
  }

  /**
   * A present cell gives no days until due exactly when its text, past the
   * leading white space, does not start with a digit or a sign and a digit.
   */
  lemma DueInDaysNull(v: string)
    ensures DueInDays(Some(v)) == None <==> !StartsInteger(TrimStart(v))
  {
    TrimBlank(v);
    ParseIntNone(v);
  }

  /** A missing or blank cell, or one such as "soon", has no days until due. */
  lemma DueInDaysBlank(blank: string)
    requires AllSpace(blank)
    ensures DueInDays(None) == None
    ensures DueInDays(Some(blank)) == None
    ensures DueInDays(Some("soon")) == None
  {
    TrimPadded(blank, [], []);
    assert blank + [] + [] == blank;
    ParseIntRejectsText();
  }

  /**
   * `row.DueDate?.trim() ? new Date(row.DueDate).toISOString() : null`: the
   * untrimmed text is handed to the date reader, and an invalid date throws.
   */
  function DueDate(value: Option<string>, toIso: IsoReader): Outcome<Option<string>> {
    if value.Some? && Trim(value.value) != "" then
      var iso := toIso(value.value);
      if iso.None? then Thrown else Done(Some(iso.value))
    else Done(None)
  }

  // ------------------------------------------------------------- row to task

  /** The `map` callback: one CSV record as a task, or the exception it throws. */
  function TaskOf(row: CsvRow, toIso: IsoReader): Outcome<UpcomingTask> {
    var due := DueDate(Column(row, "DueDate"), toIso);
    if due.Thrown? then Thrown
    else Done(UpcomingTask(
      id := TrimmedOr(Column(row, "ID"), ""),
      workstream := TrimmedOr(Column(row, "Workstream"), "General"),
      task := TrimmedOr(Column(row, "Task"), ""),
      mandatoryCategory := TrimmedOr(Column(row, "MandatoryCategory"), ""),
      urgency := TrimmedOr(Column(row, "Urgency"), ""),
      criticalPath := ParseBool(Column(row, "CriticalPath")),
      owner := TrimmedOr(Column(row, "Owner"), ""),
      dependencies := Dependencies(Column(row, "Dependencies")),
      dueDate := due.value,
      dueInDays := DueInDays(Column(row, "DueInDays")),
      status := TrimmedOr(Column(row, "Status"), "Not Started"),
      pressing := ParseBool(Column(row, "Pressing"))))
  }

  /**
   * The defaults apply to missing columns only: a blank `Workstream` or
   * `Status` cell gives an empty string, a missing one "General" or
   * "Not Started".
   */
  lemma DefaultsOnlyForMissingColumns(row: CsvRow, toIso: IsoReader, blank: string)
    requires TaskOf(row, toIso).Done?
    requires AllSpace(blank)
    ensures "Workstream" !in row ==> TaskOf(row, toIso).value.workstream == "General"
    ensures "Status" !in row ==> TaskOf(row, toIso).value.status == "Not Started"
    ensures TaskOf(row["Workstream" := blank], toIso).value.workstream == ""
    ensures TaskOf(row["Status" := blank], toIso).value.status == ""
  {
    TrimPadded(blank, [], []);
    assert blank + [] + [] == blank;
    assert Column(row["Workstream" := blank], "DueDate") == Column(row, "DueDate");
    assert Column(row["Status" := blank], "DueDate") == Column(row, "DueDate");
  }

  /**
   * `parsed.data.map(...)`: every record as a task, in order; an exception in
   * any record escapes the whole `map`.
   */
  function MapRows(rows: seq<CsvRow>, toIso: IsoReader): (r: Outcome<seq<UpcomingTask>>)
    ensures r.Done? <==> forall i :: 0 <= i < |rows| ==> TaskOf(rows[i], toIso).Done?
    ensures r.Done? ==> (|r.value| == |rows|
      && forall i :: 0 <= i < |rows| ==> r.value[i] == TaskOf(rows[i], toIso).value)
  {
    if rows == [] then Done([])
    else
      var first := TaskOf(rows[0], toIso);
      var rest := MapRows(rows[1..], toIso);
      if first.Thrown? || rest.Thrown? then Thrown
      else Done([first.value] + rest.value)
  }

  /** `filter((task) => task.id && task.task)`. */
  predicate Keep(t: UpcomingTask) {
    t.id != "" && t.task != ""
  }

  // ----------------------------------------------------------------- ordering

  /** `(a ?? "").localeCompare(b ?? "") <= 0`, read as code-point order (see README). */
  predicate LexLe(a: string, b: string) {
    a == [] || (b != [] && (a[0] < b[0] || (a[0] == b[0] && LexLe(a[1..], b[1..]))))
  }

  /** `task.dueDate ?? ""`. */
  function DateKey(t: UpcomingTask): string {
    if t.dueDate.Some? then t.dueDate.value else ""
  }

  /**
   * `compare(a, b) <= 0` for the route's comparator: a missing `dueInDays`
   * counts as positive infinity, equal days fall back to the due dates.
   */
  predicate TaskBefore(a: UpcomingTask, b: UpcomingTask) {
    if a.dueInDays == b.dueInDays then LexLe(DateKey(a), DateKey(b))
    else a.dueInDays.Some? && (b.dueInDays.None? || a.dueInDays.value < b.dueInDays.value)
  }

  lemma {:induction false} LexLeReflexive(a: string)
    ensures LexLe(a, a)
  {
    if a != [] {
      LexLeReflexive(a[1..]);
    }
  }

  lemma {:induction false} LexLeTotal(a: string, b: string)
    ensures LexLe(a, b) || LexLe(b, a)
  {
    if a != [] && b != [] && a[0] == b[0] {
      LexLeTotal(a[1..], b[1..]);
    }
  }

  lemma {:induction false} LexLeTransitive(a: string, b: string, c: string)
    requires LexLe(a, b) && LexLe(b, c)
    ensures LexLe(a, c)
  {
    if a != [] && a[0] == b[0] && b[0] == c[0] {
      LexLeTransitive(a[1..], b[1..], c[1..]);
    }
  }

  /** The comparator is consistent, so the stable sort's result is well defined. */
  lemma TaskOrderConsistent()
    ensures TotalPreorder(TaskBefore)
  {
    forall a, b
      ensures TaskBefore(a, b) || TaskBefore(b, a)
    {
      LexLeTotal(DateKey(a), DateKey(b));
    }
    forall a, b, c | TaskBefore(a, b) && TaskBefore(b, c)
      ensures TaskBefore(a, c)
    {
      if a.dueInDays == b.dueInDays && b.dueInDays == c.dueInDays {
        LexLeTransitive(DateKey(a), DateKey(b), DateKey(c));
      }
    }
  }

  /**
   * Among tasks due in the same number of days, one without a due date comes
   * before one with a non-empty due date: `""` precedes every other string.
   */
  lemma MissingDueDateSortsFirst(a: UpcomingTask, b: UpcomingTask)
    requires a.dueInDays == b.dueInDays
    requires a.dueDate.None? && b.dueDate.Some? && b.dueDate.value != ""
    ensures TaskBefore(a, b) && !TaskBefore(b, a)
  {
  }

  // ------------------------------------------------------------ the pipeline

  /** The tasks of the `try` block: mapped, filtered, then sorted. */
  function LoadTasks(rows: seq<CsvRow>, toIso: IsoReader): Outcome<seq<UpcomingTask>> {
    var mapped := MapRows(rows, toIso);
    if mapped.Thrown? then Thrown
    else Done(Sort(Filter(Keep, mapped.value), TaskBefore))
  }

  /**
   * `GET`: `fetchOk` is `response.ok`, `parseErrors` the length of
   * `parsed.errors`, and `rows` is `parsed.data`.
   */
  function Respond(fetchOk: bool, parseErrors: nat, rows: seq<CsvRow>, toIso: IsoReader): Response {
    if !fetchOk then FetchFailed
    else if parseErrors > 0 then ParseFailed
    else
      var loaded := LoadTasks(rows, toIso);
      if loaded.Thrown? then Unexpected else Tasks(loaded.value)
  }

  /**
   * The handler answers with tasks exactly when the fetch succeeded, the CSV
   * parsed cleanly and every record's due date, if any, is a valid date.
   */
  lemma RespondMeaning(fetchOk: bool, parseErrors: nat, rows: seq<CsvRow>, toIso: IsoReader)
    ensures Respond(fetchOk, parseErrors, rows, toIso).Tasks? <==>
      fetchOk && parseErrors == 0 && forall i :: 0 <= i < |rows| ==> TaskOf(rows[i], toIso).Done?
    ensures !fetchOk ==> Respond(fetchOk, parseErrors, rows, toIso) == FetchFailed
    ensures fetchOk && parseErrors > 0 ==> Respond(fetchOk, parseErrors, rows, toIso) == ParseFailed
  {
  }

  /**
   * A record whose non-blank `DueDate` is not a valid date fails the whole
   * request with the 500 answer, even when that record has no id or task and
   * would have been dropped: the `map` runs before the `filter`.
   */
  lemma InvalidDateFailsRequest(rows: seq<CsvRow>, toIso: IsoReader, i: nat)
    requires i < |rows| && "DueDate" in rows[i]
    requires Trim(rows[i]["DueDate"]) != "" && toIso(rows[i]["DueDate"]).None?
    ensures LoadTasks(rows, toIso).Thrown?
    ensures Respond(true, 0, rows, toIso) == Unexpected
  {
    assert TaskOf(rows[i], toIso).Thrown?;
  }

  /**
   * The answer holds exactly the mapped records that have both an id and a
   * task title, each as many times as it was mapped.
   */
  lemma TasksAreKeptRecords(rows: seq<CsvRow>, toIso: IsoReader)
    requires LoadTasks(rows, toIso).Done?
    ensures multiset(LoadTasks(rows, toIso).value) == multiset(Filter(Keep, MapRows(rows, toIso).value))
    ensures forall t :: t in LoadTasks(rows, toIso).value <==>
      Keep(t) && exists i :: 0 <= i < |rows| && TaskOf(rows[i], toIso).Done? && t == TaskOf(rows[i], toIso).value
  {
    var mapped := MapRows(rows, toIso).value;
    var kept := Filter(Keep, mapped);
    var out := LoadTasks(rows, toIso).value;
    SortPermutes(kept, TaskBefore);
    forall t
      ensures t in out <==> Keep(t) && exists i :: 0 <= i < |rows| && TaskOf(rows[i], toIso).Done? && t == TaskOf(rows[i], toIso).value
    {
      SortMembers(kept, TaskBefore, t);
      KeptMeaning(rows, toIso, t);
    }
  }

  lemma KeptMeaning(rows: seq<CsvRow>, toIso: IsoReader, t: UpcomingTask)
    requires MapRows(rows, toIso).Done?
    ensures t in Filter(Keep, MapRows(rows, toIso).value) <==>
      Keep(t) && exists i :: 0 <= i < |rows| && TaskOf(rows[i], toIso).Done? && t == TaskOf(rows[i], toIso).value
  {
    var mapped := MapRows(rows, toIso).value;
    FilterMembers(Keep, mapped, t);
    if t in mapped {
      var i :| 0 <= i < |mapped| && mapped[i] == t;
      assert TaskOf(rows[i], toIso).Done? && t == TaskOf(rows[i], toIso).value;
    }
    if exists i :: 0 <= i < |rows| && TaskOf(rows[i], toIso).Done? && t == TaskOf(rows[i], toIso).value {
      var i :| 0 <= i < |rows| && TaskOf(rows[i], toIso).Done? && t == TaskOf(rows[i], toIso).value;
      assert mapped[i] == t;
    }
  }

  /**
   * The answer is ordered by days until due, tasks without a number last,
   * and tasks due in the same number of days by their ISO due date, a
   * missing date counting as the empty string.
   */
  lemma TasksOrdered(rows: seq<CsvRow>, toIso: IsoReader)
    requires LoadTasks(rows, toIso).Done?
    ensures forall i, j :: 0 <= i < j < |LoadTasks(rows, toIso).value| ==>
      var a := LoadTasks(rows, toIso).value[i];
      var b := LoadTasks(rows, toIso).value[j];
      && (b.dueInDays.Some? ==> a.dueInDays.Some? && a.dueInDays.value <= b.dueInDays.value)
      && (a.dueInDays == b.dueInDays ==> LexLe(DateKey(a), DateKey(b)))
  {
    TaskOrderConsistent();
    SortSorted(Filter(Keep, MapRows(rows, toIso).value), TaskBefore);
  }

  /** The tasks with the given days until due and due date. */
  function SameSchedule(days: Option<int>, date: Option<string>): UpcomingTask -> bool {
    (t: UpcomingTask) => t.dueInDays == days && t.dueDate == date
  }

  /**
   * The sort is stable: tasks with the same days until due and the same due
   * date keep the order of their records in the sheet.
   */
  lemma TiesKeepSheetOrder(rows: seq<CsvRow>, toIso: IsoReader, days: Option<int>, date: Option<string>)
    requires LoadTasks(rows, toIso).Done?
    ensures Filter(SameSchedule(days, date), LoadTasks(rows, toIso).value)
      == Filter(SameSchedule(days, date), Filter(Keep, MapRows(rows, toIso).value))
  {
    forall a, b | SameSchedule(days, date)(a) && SameSchedule(days, date)(b)
      ensures TaskBefore(a, b)
    {
      LexLeReflexive(DateKey(a));
    }
    SortStable(Filter(Keep, MapRows(rows, toIso).value), TaskBefore, SameSchedule(days, date));
  }
}
