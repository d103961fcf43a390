/**
 * `buildAttachments`: reads the attachment log sheet (header row first) into
 * attachment records, tolerating missing columns, resolving a link from the
 * cells of each row, and sorting the records newest first.
 */
module Attachments {
  import opened Text
  import opened Cells
  import opened Numbers
  import opened Seqs
  import opened StableSort
  import opened FinanceTypes

  /** A cell of the sheet: its value and the target of its hyperlink (`cell.l.Target`), if any. */
  datatype SheetCell = SheetCell(value: Cell, target: Option<string>)

  /** A row of the sheet, one cell per column of the sheet's range, left to right. */
  type SheetRow = seq<SheetCell>

  /** `row[index]`: `undefined` for a column that is not there. */
  function CellAt(row: SheetRow, index: int): Cell {
    if 0 <= index < |row| then row[index].value else Undefined
  }

  /** `rows[0].map((value) => String(value).trim().toLowerCase())`. */
  function HeaderNames(row: SheetRow): (names: seq<string>)
    ensures |names| == |row|
  {
    seq(|row|, i requires 0 <= i < |row| => Lower(Trim(Show(row[i].value))))
  }

  /** `header.findIndex((value) => value === name)`: the first column with that name, or -1. */
  function IndexOf(header: seq<string>, name: string): (r: int)
    ensures -1 <= r < |header|
    ensures r >= 0 ==> header[r] == name && forall j :: 0 <= j < r ==> header[j] != name
    ensures r == -1 ==> forall j :: 0 <= j < |header| ==> header[j] != name
  {
    if header == [] then -1
    else if header[0] == name then 0
    else
      var rest := IndexOf(header[1..], name);
      if rest == -1 then -1 else rest + 1
  }

  /** The column positions the builder looks up, -1 for a column the header lacks. */
  datatype Columns = Columns(
    savedAt: int, emailId: int, threadId: int, fileName: int,
    drivePath: int, vendorGuess: int, parsedAmount: int, notes: int)

  function ColumnsOf(header: seq<string>): Columns {
    Columns(
      IndexOf(header, "savedat"), IndexOf(header, "emailid"), IndexOf(header, "threadid"),
      IndexOf(header, "filename"), IndexOf(header, "drivepath"), IndexOf(header, "vendorguess"),
      IndexOf(header, "parsedamount"), IndexOf(header, "notes"))
  }

  /** `idx >= 0 ? String(row[idx] ?? "").trim() : ""`. */
  function TextAt(row: SheetRow, index: int): string {
    if index >= 0 then Trim(Show(Coalesce(CellAt(row, index), Str("")))) else ""
  }

  /** `cell?.l?.Target || (typeof cell?.v === "string" ? cell.v : undefined)`. */
  function Candidate(cell: SheetCell): Option<string> {
    if cell.target.Some? && cell.target.value != "" then cell.target
    else if cell.value.Str? then Some(cell.value.s)
    else None
  }

  /** `candidate && /^https?:/i.test(candidate)`. */
  predicate IsLinkCell(cell: SheetCell) {
    var candidate := Candidate(cell);
    candidate.Some? && candidate.value != "" && IsHttpScheme(candidate.value)
  }

  /** The candidate of the leftmost link-bearing cell. */
  function FirstLink(row: SheetRow): Option<string> {
    if row == [] then None
    else if IsLinkCell(row[0]) then Candidate(row[0])
    else FirstLink(row[1..])
  }

  /** The scan stops at the first link-bearing cell and takes its candidate. */
  lemma {:induction false} FirstLinkAt(row: SheetRow, k: int)
    requires 0 <= k < |row| && IsLinkCell(row[k])
    requires forall j :: 0 <= j < k ==> !IsLinkCell(row[j])
    ensures FirstLink(row) == Candidate(row[k])
    ensures FirstLink(row).Some? && IsHttpScheme(FirstLink(row).value)
  {
    if k > 0 {
      FirstLinkAt(row[1..], k - 1);
    }
  }

  /** Without a link-bearing cell the scan finds nothing. */
  lemma {:induction false} FirstLinkNone(row: SheetRow)
    requires forall j :: 0 <= j < |row| ==> !IsLinkCell(row[j])
    ensures FirstLink(row) == None
  {
    if row != [] {
      FirstLinkNone(row[1..]);
    }
  }

  /** The column scan of one row, left to right, stopping at the first link. */
  method FindLink(row: SheetRow) returns (link: Option<string>)
    ensures link == FirstLink(row)
  {
    link := None;
    for c := 0 to |row|
      invariant link == None
      invariant forall j :: 0 <= j < c ==> !IsLinkCell(row[j])
    {
      var candidate := Candidate(row[c]);
      if candidate.Some? && candidate.value != "" && IsHttpScheme(candidate.value) {
        link := candidate;
        FirstLinkAt(row, c);
        return;
      }
    }
    FirstLinkNone(row);
  }

  /** The link of an emitted record: the first link in the row, else the drive path if it is one. */
  function ResolveLink(row: SheetRow, drivePath: string): Option<string> {
    var found := FirstLink(row);
    if found.None? && drivePath != "" && IsHttpScheme(drivePath) then Some(drivePath) else found
  }

  /** The record pushed for a row, given its resolved link. */
  function Record(cols: Columns, row: SheetRow, link: Option<string>, readDate: DateReader): FinanceAttachment {
    FinanceAttachment(
      savedAt := if cols.savedAt >= 0 then NormaliseDate(CellAt(row, cols.savedAt), readDate) else None,
      emailId := TextAt(row, cols.emailId),
      threadId := TextAt(row, cols.threadId),
      fileName := TextAt(row, cols.fileName),
      drivePath := TextAt(row, cols.drivePath),
      link := link,
      vendorGuess := TextAt(row, cols.vendorGuess),
      parsedAmount := if cols.parsedAmount >= 0 then NumberFormatter(CellAt(row, cols.parsedAmount)) else None,
      notes := TextAt(row, cols.notes))
  }

  /** A data row is kept when it names a file or a drive path. */
  predicate IsNamed(cols: Columns, row: SheetRow) {
    TextAt(row, cols.fileName) != "" || TextAt(row, cols.drivePath) != ""
  }

  /** The record pushed for a data row that names a file or a drive path. */
  function AttachmentOf(cols: Columns, row: SheetRow, readDate: DateReader): FinanceAttachment {
    Record(cols, row, ResolveLink(row, TextAt(row, cols.drivePath)), readDate)
  }

  /** The records of the data rows, in sheet order, before sorting. */
  function Emitted(cols: Columns, rows: seq<SheetRow>, readDate: DateReader): seq<FinanceAttachment> {
    if rows == [] then []
    else
      var before := Emitted(cols, rows[..|rows| - 1], readDate);
      var row := rows[|rows| - 1];
      if IsNamed(cols, row) then before + [AttachmentOf(cols, row, readDate)] else before
  }

  /** One more data row adds its record exactly when it is named. */
  lemma EmittedSnoc(cols: Columns, rows: seq<SheetRow>, row: SheetRow, readDate: DateReader)
    ensures Emitted(cols, rows + [row], readDate)
      == Emitted(cols, rows, readDate) + if IsNamed(cols, row) then [AttachmentOf(cols, row, readDate)] else []
  {
    assert (rows + [row])[..|rows|] == rows;
  }

  /** `buildAttachments(sheet)`: a missing or empty sheet gives no records. */
  function AttachmentsOf(sheet: Option<seq<SheetRow>>, readDate: DateReader): seq<FinanceAttachment> {
    match sheet
    case None => []
    case Some(rows) =>
      if rows == [] then []
      else Sort(Emitted(ColumnsOf(HeaderNames(rows[0])), rows[1..], readDate), AttachmentBefore)
  }

  /** `buildAttachments`: read the header, run the row loop, sort newest first. */
  method BuildAttachments(sheet: Option<seq<SheetRow>>, readDate: DateReader)
    returns (results: seq<FinanceAttachment>)
    ensures results == AttachmentsOf(sheet, readDate)
  {
    if sheet.None? {
      return [];
    }
    var rows := sheet.value;
    if |rows| == 0 {
      return [];
    }
    var cols := ColumnsOf(HeaderNames(rows[0]));
    results := ReadRows(cols, rows[1..], readDate);
    results := Sort(results, AttachmentBefore);
  }

  /** The row loop of `buildAttachments` over the data rows, with its column scan. */
  method ReadRows(cols: Columns, rows: seq<SheetRow>, readDate: DateReader)
    returns (results: seq<FinanceAttachment>)
    ensures results == Emitted(cols, rows, readDate)
  {
    results := [];
    for r := 0 to |rows|
      invariant results == Emitted(cols, rows[..r], readDate)
    {
      var row := rows[r];
      assert rows[..r + 1] == rows[..r] + [row];
      EmittedSnoc(cols, rows[..r], row, readDate);
      var fileName := TextAt(row, cols.fileName);
      var drivePath := TextAt(row, cols.drivePath);
      if fileName == "" && drivePath == "" {
        continue;
      }
      var link := FindLink(row);
      if link.None? && drivePath != "" && IsHttpScheme(drivePath) {
        link := Some(drivePath);
      }
      results := results + [Record(cols, row, link, readDate)];
    }
    assert rows[..|rows|] == rows;
  }

  /** One record per data row that names a file or a drive path, and no other. */
  lemma {:induction false} EmittedExactlyNamed(cols: Columns, rows: seq<SheetRow>, readDate: DateReader)
    ensures |Emitted(cols, rows, readDate)| == |Filter((row: SheetRow) => IsNamed(cols, row), rows)|
    ensures forall i :: 0 <= i < |Emitted(cols, rows, readDate)| ==>
      var a := Emitted(cols, rows, readDate)[i]; a.fileName != "" || a.drivePath != ""
  {
    if rows != [] {
      var init := rows[..|rows| - 1];
      EmittedExactlyNamed(cols, init, readDate);
      assert rows == init + [rows[|rows| - 1]];
      EmittedSnoc(cols, init, rows[|rows| - 1], readDate);
      FilterSnoc((row: SheetRow) => IsNamed(cols, row), init, rows[|rows| - 1]);
    }
  }

  /** A record's link, when set, passes `/^https?:/i`. */
  lemma {:induction false} EmittedLinksAreHttp(cols: Columns, rows: seq<SheetRow>, readDate: DateReader)
    ensures forall a :: a in Emitted(cols, rows, readDate) && a.link.Some? ==> IsHttpScheme(a.link.value)
  {
    if rows != [] {
      var row := rows[|rows| - 1];
      EmittedLinksAreHttp(cols, rows[..|rows| - 1], readDate);
      if IsNamed(cols, row) {
        LinkResolution(row, TextAt(row, cols.drivePath));
      }
    }
  }

  /**
   * How a link is chosen: the candidate of the leftmost link-bearing cell;
   * failing that the drive path when it passes the test; otherwise none.
   */
  lemma LinkResolution(row: SheetRow, drivePath: string)
    ensures (exists k :: 0 <= k < |row| && IsLinkCell(row[k])) ==>
      exists k :: 0 <= k < |row| && IsLinkCell(row[k]) && (forall j :: 0 <= j < k ==> !IsLinkCell(row[j]))
        && ResolveLink(row, drivePath) == Candidate(row[k])
    ensures (forall k :: 0 <= k < |row| ==> !IsLinkCell(row[k])) ==>
      ResolveLink(row, drivePath) == if IsHttpScheme(drivePath) then Some(drivePath) else None
    ensures ResolveLink(row, drivePath).Some? ==> IsHttpScheme(ResolveLink(row, drivePath).value)
  {
    if exists k :: 0 <= k < |row| && IsLinkCell(row[k]) {
      var k := FirstLinkCell(row);
      FirstLinkAt(row, k);
    } else {
      FirstLinkNone(row);
      assert IsHttpScheme(drivePath) ==> drivePath != "" by {
        if drivePath == "" { assert Lower(drivePath) == ""; }
      }
    }
  }

  /** The index of the leftmost link-bearing cell of a row that has one. */
  lemma {:induction false} FirstLinkCell(row: SheetRow) returns (k: int)
    requires exists k :: 0 <= k < |row| && IsLinkCell(row[k])
    ensures 0 <= k < |row| && IsLinkCell(row[k])
    ensures forall j :: 0 <= j < k ==> !IsLinkCell(row[j])
  {
    if IsLinkCell(row[0]) {
      k := 0;
    } else {
      var w :| 0 <= w < |row| && IsLinkCell(row[w]);
      assert IsLinkCell(row[1..][w - 1]);
      var k' := FirstLinkCell(row[1..]);
      k := k' + 1;
    }
  }

  /**
   * The output of `buildAttachments` is a permutation of the emitted records,
   * ordered newest first with every undated record after every dated one,
   * and the undated records keep their sheet order.
   */
  lemma AttachmentsNewestFirst(rows: seq<SheetRow>, readDate: DateReader)
    requires rows != []
    ensures var out := AttachmentsOf(Some(rows), readDate);
      var emitted := Emitted(ColumnsOf(HeaderNames(rows[0])), rows[1..], readDate);
      && multiset(out) == multiset(emitted)
      && (forall i, j :: 0 <= i < j < |out| && out[j].savedAt.Some? ==>
            out[i].savedAt.Some? && out[i].savedAt.value >= out[j].savedAt.value)
      && Filter((a: FinanceAttachment) => a.savedAt.None?, out)
         == Filter((a: FinanceAttachment) => a.savedAt.None?, emitted)
  {
    var out := AttachmentsOf(Some(rows), readDate);
    var emitted := Emitted(ColumnsOf(HeaderNames(rows[0])), rows[1..], readDate);
    AttachmentOrderConsistent();
    SortSorted(emitted, AttachmentBefore);
    SortPermutes(emitted, AttachmentBefore);
    forall i, j | 0 <= i < j < |out| && out[j].savedAt.Some?
      ensures out[i].savedAt.Some? && out[i].savedAt.value >= out[j].savedAt.value
    {
      NewestFirstMeaning(out[i].savedAt, out[j].savedAt);
    }
    SortStable(emitted, AttachmentBefore, (a: FinanceAttachment) => a.savedAt.None?);
  }

  /**
   * The record count of `buildAttachments` equals the number of data rows
   * that name a file or a drive path, and every record has one of the two.
   */
  lemma AttachmentsCount(rows: seq<SheetRow>, readDate: DateReader)
    requires rows != []
    ensures var cols := ColumnsOf(HeaderNames(rows[0]));
      var out := AttachmentsOf(Some(rows), readDate);
      && |out| == |Filter((row: SheetRow) => IsNamed(cols, row), rows[1..])|
      && (forall a :: a in out ==> a.fileName != "" || a.drivePath != "")
      && (forall a :: a in out && a.link.Some? ==> IsHttpScheme(a.link.value))
  {
    var cols := ColumnsOf(HeaderNames(rows[0]));
    var emitted := Emitted(cols, rows[1..], readDate);
    var out := AttachmentsOf(Some(rows), readDate);
    EmittedExactlyNamed(cols, rows[1..], readDate);
    EmittedLinksAreHttp(cols, rows[1..], readDate);
    SortPermutes(emitted, AttachmentBefore);
    forall a | a in out
      ensures a in emitted
    {
      SortMembers(emitted, AttachmentBefore, a);
    }
  }
}
