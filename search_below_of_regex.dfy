/**
 * `SearchBelowOfRegexLocator`: from the bottom of the first cell whose text
 * fully matches a regular expression, walk down to the first non-empty cell,
 * giving up after `maxEmptyRowSearch` rows.
 */
module SearchBelowOfRegex {
  import opened Base
  import opened Grid
  import opened Results
  import opened SheetScan

  /**
   * Where the walk down from `start` stops: in the same column; nowhere when
   * `max <= 0`; otherwise at most `max` rows down, past empty cells only, at a
   * non-empty cell or, when every stepped-to cell is empty, exactly `max` rows
   * down.
   */
  ghost predicate StopsBelow(sheet: Sheet, start: Coord, max: int, r: Coord)
  {
    && r.col == start.col
    && (max <= 0 ==> r == start)
    && (max > 0 ==>
          && start.row + 1 <= r.row <= start.row + max
          && (forall k :: start.row < k < r.row ==> Get(sheet, Coord(k, start.col)).None?)
          && (Get(sheet, r).Some? || r.row == start.row + max))
  }

  /** The walk has one possible end. */
  lemma {:induction false} StopsBelowUnique(sheet: Sheet, start: Coord, max: int, r: Coord, q: Coord)
    requires StopsBelow(sheet, start, max, r) && StopsBelow(sheet, start, max, q)
    ensures r == q
  {
    if max > 0 {
      assert r == Coord(r.row, start.col) && q == Coord(q.row, start.col);
    }
  }

  datatype SearchBelowOfRegexLocator = SearchBelowOfRegexLocator(regex: Regex, maxEmptyRowSearch: int)
  {
    /** `_search_empty_row`: step down one row at a time, at most `maxEmptyRowSearch` times, stopping at a non-empty cell. */
    method SearchEmptyRow(start: Coord, sheet: Sheet) returns (c: Coord)
      ensures StopsBelow(sheet, start, maxEmptyRowSearch, c)
    {
      c := start;
      var step := 0;
      while step < maxEmptyRowSearch
        invariant 0 <= step <= (if maxEmptyRowSearch > 0 then maxEmptyRowSearch else 0)
        invariant c == Coord(start.row + step, start.col)
        invariant forall k :: start.row < k <= c.row ==> Get(sheet, Coord(k, start.col)).None?
      {
        c := Shift(c, 1, 0);
        step := step + 1;
        if Get(sheet, c).Some? {
          return c;
        }
      }
    }

    /** `locate`: the walk starts at the bottom of the first match's merged range. */
    method Locate(anchor: CellLocation, book: Workbook) returns (r: LocatingResult)
      requires anchor.sheetName in book
      ensures r.Bad? <==> NoMatch(book[anchor.sheetName], FullMatchTest(regex))
      ensures r.Bad? ==> r.msg == "Unable to find cell below of " + regex.pattern
      ensures r.Good? ==> r.location.sheetName == anchor.sheetName && exists c ::
        && IsFirstMatch(book[anchor.sheetName], FullMatchTest(regex), c)
        && StopsBelow(book[anchor.sheetName], Bottommost(book[anchor.sheetName], c), maxEmptyRowSearch, r.location.coord)
    {
      var sheet := book[anchor.sheetName];
      var found := FindFirst(sheet, FullMatchTest(regex));
      if found.None? {
        return Bad("Unable to find cell below of " + regex.pattern);
      }
      var coord := Bottommost(sheet, found.value);
      var below := SearchEmptyRow(coord, sheet);
      r := Good(CellLocation(anchor.sheetName, below));
    }
  }
}
