/**
 * Spreadsheet cells as the route handlers receive them: loosely typed
 * JavaScript values, read through `??`, `String(...)` and truthiness tests.
 */
module Cells {
  import opened Text

  datatype Option<T> = None | Some(value: T)

  /**
   * A JavaScript value found in a workbook row. `Num` is a finite number;
   * its `text` is what `String(value)` prints for it (number formatting is
   * floating-point behaviour and is taken as given).
   */
  datatype Cell =
    | Undefined
    | Null
    | Bool(b: bool)
    | Num(value: real, text: string)
    | NaN
    | Infinity(negative: bool)
    | Str(s: string)

  /** JavaScript truthiness (`if (value)`, `filter((row) => row.Date)`). */
  predicate Truthy(c: Cell) {
    match c
    case Undefined => false
    case Null => false
    case Bool(b) => b
    case Num(v, _) => v != 0.0
    case NaN => false
    case Infinity(_) => true
    case Str(s) => s != ""
  }

  predicate Nullish(c: Cell) {
    c.Undefined? || c.Null?
  }

  /** `a ?? b`: falls through on `undefined` and `null` only, never on `""`. */
  function Coalesce(a: Cell, b: Cell): Cell {
    if Nullish(a) then b else a
  }

  /** `String(value)`. */
  function Show(c: Cell): string {
    match c
    case Undefined => "undefined"
    case Null => "null"
    case Bool(b) => if b then "true" else "false"
    case Num(_, text) => text
    case NaN => "NaN"
    case Infinity(negative) => if negative then "-Infinity" else "Infinity"
    case Str(s) => s
  }

  /** A sheet row read with `sheet_to_json`: column name to value; an absent column is `undefined`. */
  type Row = map<string, Cell>

  /** `row[key]`. */
  function Field(row: Row, key: string): Cell {
    if key in row then row[key] else Undefined
  }

  /** `String(row[key] ?? "").trim()`. */
  function TextField(row: Row, key: string): string {
    Trim(Show(Coalesce(Field(row, key), Str(""))))
  }
}
