/**
 * The part of a workbook the locators look at: the cells of a sheet on
 * 1-based (row, column) coordinates, its merged ranges, and `str()` of a
 * cell's value.
 *
 * The spreadsheet library and the helpers built on it (`iter_rows`,
 * `shift_coord`, `is_merged_cell`, `get_rightmost_coordinate`,
 * `get_bottommost_coordinate`) are not part of this model; the functions here
 * state what the locators take them to do.
 */
module Grid {
  import opened Base

  /** A cell position: 1-based row and column. Shifting may leave the sheet, so both are plain integers. */
  datatype Coord = Coord(row: int, col: int)

  /** The cell values the model distinguishes: text, whole numbers and booleans. */
  datatype CellValue = Text(s: string) | Number(n: int) | Boolean(b: bool)

  /** A merged range, corners included. */
  datatype Range = Range(minRow: int, minCol: int, maxRow: int, maxCol: int)
  {
    predicate Contains(c: Coord)
    {
      minRow <= c.row <= maxRow && minCol <= c.col <= maxCol
    }
  }

  /**
   * A worksheet: the used area (rows `1..maxRow`, columns `1..maxCol`, which
   * `iter_rows` visits), the non-empty cells, and the merged ranges in the
   * order the sheet lists them.
   */
  datatype Sheet = Sheet(maxRow: nat, maxCol: nat, cells: map<Coord, CellValue>, merged: seq<Range>)

  /** A workbook maps sheet names to sheets. */
  type Workbook = map<string, Sheet>

  /** `CellLocation`: a sheet name and a coordinate on it. */
  datatype CellLocation = CellLocation(sheetName: string, coord: Coord)

  /** `sheet[coord].value`: the value of a cell, `None` when it is empty. */
  function Get(sheet: Sheet, c: Coord): Option<CellValue>
  {
    if c in sheet.cells then Some(sheet.cells[c]) else None
  }

  /** The cells `iter_rows` visits. */
  predicate InSheet(sheet: Sheet, c: Coord)
  {
    1 <= c.row <= sheet.maxRow && 1 <= c.col <= sheet.maxCol
  }

  /** `a` comes before `b` in row-major order, the order of `iter_rows`. */
  predicate Before(a: Coord, b: Coord)
  {
    a.row < b.row || (a.row == b.row && a.col < b.col)
  }

  /** `shift_coord(c, (dr, dc))`. */
  function Shift(c: Coord, dr: int, dc: int): Coord
  {
    Coord(c.row + dr, c.col + dc)
  }

  /** The first of `ranges` that contains `c`. */
  function FirstContaining(ranges: seq<Range>, c: Coord): (r: Option<Range>)
    ensures r.Some? ==> r.value in ranges && r.value.Contains(c)
    ensures r.None? <==> forall g :: g in ranges ==> !g.Contains(c)
  {
    if ranges == [] then None
    else if ranges[0].Contains(c) then Some(ranges[0])
    else FirstContaining(ranges[1..], c)
  }

  /** The merged range `c` belongs to, if any. */
  function Region(sheet: Sheet, c: Coord): Option<Range>
  {
    FirstContaining(sheet.merged, c)
  }

  /** `is_merged_cell`. */
  predicate IsMerged(sheet: Sheet, c: Coord)
  {
    Region(sheet, c).Some?
  }

  /** `get_rightmost_coordinate`: the last cell of `c`'s row inside its merged range; `c` itself when unmerged. */
  function Rightmost(sheet: Sheet, c: Coord): (r: Coord)
    ensures r.row == c.row && c.col <= r.col
    ensures IsMerged(sheet, c) ==> Region(sheet, c).value.Contains(r)
    ensures IsMerged(sheet, c) ==> forall d :: Region(sheet, c).value.Contains(d) && d.row == c.row ==> d.col <= r.col
    ensures !IsMerged(sheet, c) ==> r == c
  {
    match Region(sheet, c)
    case None => c
    case Some(g) => Coord(c.row, g.maxCol)
  }

  /** `get_bottommost_coordinate`: the last cell of `c`'s column inside its merged range; `c` itself when unmerged. */
  function Bottommost(sheet: Sheet, c: Coord): (r: Coord)
    ensures r.col == c.col && c.row <= r.row
    ensures IsMerged(sheet, c) ==> Region(sheet, c).value.Contains(r)
    ensures IsMerged(sheet, c) ==> forall d :: Region(sheet, c).value.Contains(d) && d.col == c.col ==> d.row <= r.row
    ensures !IsMerged(sheet, c) ==> r == c
  {
    match Region(sheet, c)
    case None => c
    case Some(g) => Coord(g.maxRow, c.col)
  }

  // ---------------------------------------------------------------------------
  // str(cell.value)

  function DigitChar(d: nat): char
    requires d < 10
  {
    "0123456789"[d]
  }

  predicate IsDigit(ch: char)
  {
    '0' <= ch <= '9'
  }

  /** The decimal digits of `n`, most significant first, without leading zeros. */
  function NatToString(n: nat): (s: string)
    ensures |s| > 0 && forall i :: 0 <= i < |s| ==> IsDigit(s[i])
    decreases n
  {
    if n < 10 then [DigitChar(n)] else NatToString(n / 10) + [DigitChar(n % 10)]
  }

  /** `str(n)` for an integer. */
  function IntToString(n: int): string
  {
    if n < 0 then "-" + NatToString(-n) else NatToString(n)
  }

  /** `str(cell.value)`: `None` for an empty cell, the text itself, decimal digits, `True` or `False`. */
  function Render(v: Option<CellValue>): string
  {
    match v
    case None => "None"
    case Some(Text(s)) => s
    case Some(Number(n)) => IntToString(n)
    case Some(Boolean(b)) => if b then "True" else "False"
  }

  /**
   * Matching on `str(cell.value)` cannot tell an empty cell from a cell that
   * holds the text `None`, and from nothing else.
   */
  lemma RenderNone(v: Option<CellValue>)
    ensures Render(v) == "None" <==> v == None || v == Some(Text("None"))
  {
    if v.Some? && v.value.Number? {
      var n := v.value.n;
      var digits := NatToString(if n < 0 then -n else n);
      assert IsDigit(digits[0]);
      assert Render(v)[0] == (if n < 0 then '-' else digits[0]);
    }
  }
}
