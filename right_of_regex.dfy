/** `RightOfRegexLocator`: `n` columns right of the first cell whose text fully matches a regular expression. */
module RightOfRegex {
  import opened Base
  import opened Grid
  import opened Results
  import opened SheetScan

  /** The shift `n` when none is given. */
  const DefaultShift: int := 1

  datatype RightOfRegexLocator = RightOfRegexLocator(regex: Regex, n: int)
  {
    /**
     * `locate`: the first cell whose `str()` fully matches (an empty cell is
     * tested as `None`), moved to the right edge of its merged range, then `n`
     * columns further right.
     */
    method Locate(anchor: CellLocation, book: Workbook) returns (r: LocatingResult)
      requires anchor.sheetName in book
      ensures r.Bad? <==> NoMatch(book[anchor.sheetName], FullMatchTest(regex))
      ensures r.Bad? ==> r.msg == "Unable to find cell to the right of " + regex.pattern
      ensures r.Good? ==> exists c ::
        && IsFirstMatch(book[anchor.sheetName], FullMatchTest(regex), c)
        && r.location == CellLocation(anchor.sheetName, Coord(c.row, Rightmost(book[anchor.sheetName], c).col + n))
    {
      var sheet := book[anchor.sheetName];
      var found := FindFirst(sheet, FullMatchTest(regex));
      if found.None? {
        return Bad("Unable to find cell to the right of " + regex.pattern);
      }
      var coord := Rightmost(sheet, found.value);
      r := Good(CellLocation(anchor.sheetName, Shift(coord, 0, n)));
    }
  }

  /** The locator built without an explicit `n`. */
  function WithDefaultShift(regex: Regex): (loc: RightOfRegexLocator)
    ensures loc.regex == regex && loc.n == 1
  {
    RightOfRegexLocator(regex, DefaultShift)
  }
}
