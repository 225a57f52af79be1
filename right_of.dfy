/** `RightOfLocator`: the cell to the right of the first cell holding a given label (`labelText`, since `label` is reserved in Dafny). */
module RightOf {
  import opened Base
  import opened Grid
  import opened Results
  import opened SheetScan

  /** `cell.value == label`: only a text cell with exactly that text. */
  function LabelTest(labelText: string): (test: Option<CellValue> -> bool)
  {
    (v: Option<CellValue>) => v == Some(Text(labelText))
  }

  datatype RightOfLocator = RightOfLocator(labelText: string)
  {
    /** `locate`: search the anchor's sheet; the anchor's own coordinate plays no part. */
    method Locate(anchor: CellLocation, book: Workbook) returns (r: LocatingResult)
      requires anchor.sheetName in book
      ensures r.Bad? <==> NoMatch(book[anchor.sheetName], LabelTest(labelText))
      ensures r.Bad? ==> r.msg == "Unable to find cell to the right of " + labelText
      ensures r.Good? ==> exists c ::
        && IsFirstMatch(book[anchor.sheetName], LabelTest(labelText), c)
        && r.location.sheetName == anchor.sheetName
        && r.location.coord.row == c.row
        && r.location.coord.col == (if IsMerged(book[anchor.sheetName], c)
                                    then Region(book[anchor.sheetName], c).value.maxCol + 1
                                    else c.col + 1)
    {
      var sheet := book[anchor.sheetName];
      var found := FindFirst(sheet, LabelTest(labelText));
      if found.None? {
        return Bad("Unable to find cell to the right of " + labelText);
      }
      var coord := found.value;
      if IsMerged(sheet, coord) {
        coord := Rightmost(sheet, coord);
      }
      r := Good(CellLocation(anchor.sheetName, Shift(coord, 0, 1)));
    }
  }
}
