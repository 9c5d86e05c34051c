/**
 * The conversion as the bot's document handler runs it in main.py: the
 * sheet's grids are extracted, then the table is built from them.
 */
module Pipeline {
  import opened Opt
  import opened ColorResolver
  import opened HexColor
  import opened PyStr
  import opened GridExtractor
  import opened TableRenderer

  /**
   * Extracts the grids of a sheet and builds its table: the sheet's texts, the
   * whole-table commands, and the backgrounds of its colour grid.
   */
  method Convert(sheet: seq<seq<Cell>>) returns (doc: TableDoc, colorsApplied: nat)
    ensures doc.cells == TextGrid(sheet)
    ensures doc.style == BaseStyle + Backgrounds(ColorGrid(sheet), |sheet|)
    ensures colorsApplied == |Backgrounds(ColorGrid(sheet), |sheet|)|
  {
    var data, dataColor := ParseSheet(sheet);
    GridsOfSheet(sheet, data, dataColor);
    doc, colorsApplied := MakePdf(data, dataColor);
    StyleLayout(dataColor);
  }

  /**
   * Cell (row, col) of a sheet gets a background of colour c exactly when its
   * fill resolves to a colour string that decodes to c.
   */
  lemma CellBackgroundIff(sheet: seq<seq<Cell>>, row: nat, col: nat, c: Color)
    requires row < |sheet| && col < |sheet[row]|
    ensures CellBackground(col, row, c) in Backgrounds(ColorGrid(sheet), |sheet|) <==>
      HexToColor(GetCellColor(sheet[row][col].fill)) == Some(c)
  {
    var grid := ColorGrid(sheet);
    assert grid[row][col] == GetCellColor(sheet[row][col].fill);
    if HexToColor(grid[row][col]) == Some(c) {
      BackgroundsComplete(grid, |grid|, row, col);
    }
    if CellBackground(col, row, c) in Backgrounds(grid, |grid|) {
      BackgroundsSound(grid, |grid|);
      var k :| 0 <= k < |Backgrounds(grid, |grid|)| && Backgrounds(grid, |grid|)[k] == CellBackground(col, row, c);
      assert BackgroundOfCell(grid, Backgrounds(grid, |grid|)[k]);
    }
  }

  /** Every theme table entry decodes to a colour; accent1 (index 4) is 4F 81 BD. */
  lemma ThemeColorsDecode(t: int)
    requires 0 <= t < |ThemeTable|
    ensures HexToColor(Some(ThemeTable[t])).Some?
    ensures t == 4 ==> HexToColor(Some(ThemeTable[t])) == Some(Color(Channel(0x4F), Channel(0x81), Channel(0xBD)))
  {
    var s := ThemeTable[t];
    ThemeTableEntries(t);
    AlphaIgnored(s);
    SixDigitChannels(s[2..]);
    assert forall i :: 0 <= i < 6 ==> IsHexDigit(s[2..][i]);
  }

  /**
   * A cell whose fill carries a usable but malformed direct code gets no
   * background, whatever theme the fill also names: the code wins resolution
   * and then fails to decode.
   */
  lemma MalformedCodeHidesTheme(sheet: seq<seq<Cell>>, row: nat, col: nat, spec: ColorSpec, c: Color)
    requires row < |sheet| && col < |sheet[row]| && sheet[row][col].fill == PatternFill(Some(spec))
    requires UsableRgb(spec.rgb) && HexToColor(spec.rgb).None?
    ensures CellBackground(col, row, c) !in Backgrounds(ColorGrid(sheet), |sheet|)
  {
    DirectCodeWins(spec);
    CellBackgroundIff(sheet, row, col, c);
  }

  /** For instance, the code "ZZZZZZ" beside theme 4 resolves to itself and does not decode. */
  lemma MalformedCodeExample()
    ensures GetCellColor(PatternFill(Some(ColorSpec(Some("ZZZZZZ"), Some(4), None, None)))) == Some("ZZZZZZ")
    ensures HexToColor(Some("ZZZZZZ")) == None
  {
    SixDigitChannels("ZZZZZZ");
  }

  /**
   * A two-by-two sheet: "Name" filled with opaque red, "Age" unfilled, "Alice"
   * with theme colour 4 (tint 0) and the number 30 unfilled.
   */
  function ExampleSheet(): seq<seq<Cell>> {
    [
      [Cell(Some(Text("Name")), PatternFill(Some(ColorSpec(Some("FFFF0000"), None, None, None)))),
       Cell(Some(Text("Age")), NoFill)],
      [Cell(Some(Text("Alice")), PatternFill(Some(ColorSpec(None, Some(4), Some(0.0), None)))),
       Cell(Some(Integer(30)), NoFill)]
    ]
  }

  /** The example sheet's colour grid: the red code and accent1's code, nothing else. */
  lemma ExampleColorGrid()
    ensures ColorGrid(ExampleSheet()) == [[Some("FFFF0000"), None], [Some("FF4F81BD"), None]]
  {
    var grid := ColorGrid(ExampleSheet());
    assert "FFFF0000"[0] != TransparentRgb[0];
    assert grid[0] == [Some("FFFF0000"), None];
    assert grid[1] == [Some("FF4F81BD"), None];
  }

  /** The example sheet's text grid. */
  lemma ExampleTextGrid()
    ensures TextGrid(ExampleSheet()) == [["Name", "Age"], ["Alice", "30"]]
  {
    var grid := TextGrid(ExampleSheet());
    assert IntToString(30) == "30";
    assert grid[0] == ["Name", "Age"];
    assert grid[1] == ["Alice", "30"];
  }

  /** The backgrounds of the example's colour grid: red at (0, 0), accent1 at column 0 of row 1. */
  lemma ExampleBackgrounds()
    ensures Backgrounds([[Some("FFFF0000"), None], [Some("FF4F81BD"), None]], 2) == [
      CellBackground(0, 0, Color(1.0, 0.0, 0.0)),
      CellBackground(0, 1, Color(Channel(0x4F), Channel(0x81), Channel(0xBD)))]
  {
    var grid := [[Some("FFFF0000"), None], [Some("FF4F81BD"), None]];
    EncodeDecode(0xFF, 0xFF, 0, 0);
    assert ByteToHex(0xFF) + ByteToHex(0xFF) + ByteToHex(0) + ByteToHex(0) == "FFFF0000";
    assert CellBackgroundIfDecodable(Some("FFFF0000"), 0, 0) == [CellBackground(0, 0, Color(1.0, 0.0, 0.0))];
    ThemeColorsDecode(4);
    assert CellBackgroundIfDecodable(Some("FF4F81BD"), 0, 1) ==
      [CellBackground(0, 1, Color(Channel(0x4F), Channel(0x81), Channel(0xBD)))];
    assert RowBackgrounds(grid[0], 0, 2) == [CellBackground(0, 0, Color(1.0, 0.0, 0.0))];
    assert RowBackgrounds(grid[1], 1, 2) ==
      [CellBackground(0, 1, Color(Channel(0x4F), Channel(0x81), Channel(0xBD)))];
  }

  /**
   * Converting the example sheet gives a table with its four texts and
   * backgrounds for the two filled cells only, in row-major order.
   */
  method ConvertExample() returns (doc: TableDoc, colorsApplied: nat)
    ensures doc.cells == [["Name", "Age"], ["Alice", "30"]]
    ensures doc.style == BaseStyle + [
      CellBackground(0, 0, Color(1.0, 0.0, 0.0)),
      CellBackground(0, 1, Color(Channel(0x4F), Channel(0x81), Channel(0xBD)))]
    ensures colorsApplied == 2
  {
    doc, colorsApplied := Convert(ExampleSheet());
    ExampleTextGrid();
    ExampleColorGrid();
    ExampleBackgrounds();
  }
}
