/**
 * The grid-building loop of `parse_xlsx` in main.py: every cell of the active
 * sheet, row by row and column by column, becomes a text entry and a colour
 * entry. Opening the workbook is not modelled; the sheet is given as its rows
 * of cells.
 */
module GridExtractor {
  import opened Opt
  import opened PyStr
  import opened ColorResolver

  /** A spreadsheet cell: its value (possibly absent) and its fill. */
  datatype Cell = Cell(value: Option<CellValue>, fill: Fill)

  /** Two grids with the same number of rows and, row by row, the same number of columns. */
  predicate SameShape<A, B>(a: seq<seq<A>>, b: seq<seq<B>>) {
    |a| == |b| && forall i :: 0 <= i < |a| ==> |a[i]| == |b[i]|
  }

  /** The text grid a sheet yields. */
  function TextGrid(sheet: seq<seq<Cell>>): seq<seq<string>> {
    seq(|sheet|, i requires 0 <= i < |sheet| =>
      seq(|sheet[i]|, j requires 0 <= j < |sheet[i]| => CellText(sheet[i][j].value)))
  }

  /** The colour grid a sheet yields. */
  function ColorGrid(sheet: seq<seq<Cell>>): seq<seq<Option<string>>> {
    seq(|sheet|, i requires 0 <= i < |sheet| =>
      seq(|sheet[i]|, j requires 0 <= j < |sheet[i]| => GetCellColor(sheet[i][j].fill)))
  }

  /**
   * Walks the sheet and returns the text grid and the colour grid: both have
   * the sheet's shape, and entry (i, j) of each comes from cell (i, j).
   */
  method ParseSheet(sheet: seq<seq<Cell>>) returns (data: seq<seq<string>>, dataColor: seq<seq<Option<string>>>)
    ensures SameShape(data, sheet) && SameShape(dataColor, sheet)
    ensures forall i, j :: 0 <= i < |sheet| && 0 <= j < |sheet[i]| ==>
      data[i][j] == CellText(sheet[i][j].value) && dataColor[i][j] == GetCellColor(sheet[i][j].fill)
  {
    data := [];
    dataColor := [];
    for i := 0 to |sheet|
      invariant |data| == i && |dataColor| == i
      invariant forall k :: 0 <= k < i ==> |data[k]| == |sheet[k]| && |dataColor[k]| == |sheet[k]|
      invariant forall k, j :: 0 <= k < i && 0 <= j < |sheet[k]| ==>
        data[k][j] == CellText(sheet[k][j].value) && dataColor[k][j] == GetCellColor(sheet[k][j].fill)
    {
      var rowData := [];
      var rowDataColor := [];
      for j := 0 to |sheet[i]|
        invariant |rowData| == j && |rowDataColor| == j
        invariant forall k :: 0 <= k < j ==>
          rowData[k] == CellText(sheet[i][k].value) && rowDataColor[k] == GetCellColor(sheet[i][k].fill)
      {
        var cell := sheet[i][j];
        rowData := rowData + [CellText(cell.value)];
        rowDataColor := rowDataColor + [GetCellColor(cell.fill)];
      }
      dataColor := dataColor + [rowDataColor];
      data := data + [rowData];
    }
  }

  /** The grids of `ParseSheet` are exactly the sheet's text and colour grids. */
  lemma GridsOfSheet(sheet: seq<seq<Cell>>, data: seq<seq<string>>, dataColor: seq<seq<Option<string>>>)
    requires SameShape(data, sheet) && SameShape(dataColor, sheet)
    requires forall i, j :: 0 <= i < |sheet| && 0 <= j < |sheet[i]| ==>
      data[i][j] == CellText(sheet[i][j].value) && dataColor[i][j] == GetCellColor(sheet[i][j].fill)
    ensures data == TextGrid(sheet) && dataColor == ColorGrid(sheet)
  {
    forall i | 0 <= i < |sheet|
      ensures data[i] == TextGrid(sheet)[i] && dataColor[i] == ColorGrid(sheet)[i]
    {
    }
  }
}
