/**
 * The scan the three built-in locators share: `for row in sheet.iter_rows():
 * for cell in row: if <test>: ...`, which stops at the first cell, in
 * row-major order, whose value passes the test.
 */
module SheetScan {
  import opened Base
  import opened Grid

  /**
   * A compiled regular expression: its source text and its `fullmatch`,
   * which the model takes as given.
   */
  datatype Regex = Regex(pattern: string, fullMatch: string -> bool)

  /** `compiled_regex.fullmatch(str(cell.value)) is not None`. */
  function FullMatchTest(regex: Regex): (test: Option<CellValue> -> bool)
  {
    (v: Option<CellValue>) => regex.fullMatch(Render(v))
  }

  /** No cell of the sheet passes `test`. */
  ghost predicate NoMatch(sheet: Sheet, test: Option<CellValue> -> bool)
  {
    forall c :: InSheet(sheet, c) ==> !test(Get(sheet, c))
  }

  /** `c` passes `test` and no cell before it in row-major order does. */
  ghost predicate IsFirstMatch(sheet: Sheet, test: Option<CellValue> -> bool, c: Coord)
  {
    && InSheet(sheet, c)
    && test(Get(sheet, c))
    && forall d :: InSheet(sheet, d) && Before(d, c) ==> !test(Get(sheet, d))
  }

  /** There is at most one first match. */
  lemma FirstMatchUnique(sheet: Sheet, test: Option<CellValue> -> bool, c: Coord, d: Coord)
    requires IsFirstMatch(sheet, test, c) && IsFirstMatch(sheet, test, d)
    ensures c == d
  {
  }

  /** Rows `1..maxRow`, and in each row columns `1..maxCol`, until a cell passes `test`. */
  method FindFirst(sheet: Sheet, test: Option<CellValue> -> bool) returns (found: Option<Coord>)
    ensures found.None? <==> NoMatch(sheet, test)
    ensures found.Some? ==> IsFirstMatch(sheet, test, found.value)
  {
    var row := 1;
    while row <= sheet.maxRow
      invariant 1 <= row <= sheet.maxRow + 1
      invariant forall d :: InSheet(sheet, d) && d.row < row ==> !test(Get(sheet, d))
    {
      var col := 1;
      while col <= sheet.maxCol
        invariant 1 <= col <= sheet.maxCol + 1
        invariant forall d :: InSheet(sheet, d) && (d.row < row || (d.row == row && d.col < col)) ==> !test(Get(sheet, d))
      {
        if test(Get(sheet, Coord(row, col))) {
          return Some(Coord(row, col));
        }
        col := col + 1;
      }
      row := row + 1;
    }
    return None;
  }
}
