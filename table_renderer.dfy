/**
 * The style-command construction of `make_pdf` in main.py: three whole-table
 * commands, then one single-cell background command per cell whose colour
 * decodes, in row-major order, with a count of the backgrounds applied.
 * Laying the table out and writing the document are not modelled.
 */
module TableRenderer {
  import opened Opt
  import opened HexColor

  /** A ReportLab table coordinate, column first; negative values count from the end. */
  datatype Coord = Coord(col: int, row: int)

  /** A ReportLab table style command over the cell range start..stop. */
  datatype StyleCommand =
    | GridLines(start: Coord, stop: Coord, weight: nat, lineColor: Color)
    | VAlign(start: Coord, stop: Coord, vertical: string)
    | Align(start: Coord, stop: Coord, horizontal: string)
    | Background(start: Coord, stop: Coord, fill: Color)

  /** The table a document is built from: its cell texts and its style commands. */
  datatype TableDoc = TableDoc(cells: seq<seq<string>>, style: seq<StyleCommand>)

  const Black: Color := Color(0.0, 0.0, 0.0)
  const TopLeft: Coord := Coord(0, 0)
  const BottomRight: Coord := Coord(-1, -1)

  /** The whole-table commands every document starts with. */
  const BaseStyle: seq<StyleCommand> := [
    GridLines(TopLeft, BottomRight, 1, Black),
    VAlign(TopLeft, BottomRight, "MIDDLE"),
    Align(TopLeft, BottomRight, "CENTER")
  ]

  /** A background command covering the single cell at column `col` of row `row`. */
  function CellBackground(col: int, row: int, fill: Color): StyleCommand {
    Background(Coord(col, row), Coord(col, row), fill)
  }

  /** The background command of one cell, if its colour value decodes. */
  function CellBackgroundIfDecodable(colorValue: Option<string>, col: int, row: int): seq<StyleCommand> {
    match HexToColor(colorValue)
    case Some(c) => [CellBackground(col, row, c)]
    case None => []
  }

  /** The background commands of the first `n` cells of row `row`. */
  function RowBackgrounds(colors: seq<Option<string>>, row: nat, n: nat): seq<StyleCommand>
    requires n <= |colors|
  {
    if n == 0 then [] else RowBackgrounds(colors, row, n - 1) + CellBackgroundIfDecodable(colors[n - 1], n - 1, row)
  }

  /** The background commands of the first `m` rows of a colour grid. */
  function Backgrounds(grid: seq<seq<Option<string>>>, m: nat): seq<StyleCommand>
    requires m <= |grid|
  {
    if m == 0 then [] else Backgrounds(grid, m - 1) + RowBackgrounds(grid[m - 1], m - 1, |grid[m - 1]|)
  }

  /** The number of background commands in a command list. */
  function CountBackgrounds(style: seq<StyleCommand>): nat {
    if style == [] then 0
    else CountBackgrounds(style[..|style| - 1]) + (if style[|style| - 1].Background? then 1 else 0)
  }

  /** Entry (row, col) of a colour grid exists and decodes to a colour. */
  predicate Convertible(grid: seq<seq<Option<string>>>, row: int, col: int) {
    0 <= row < |grid| && 0 <= col < |grid[row]| && HexToColor(grid[row][col]).Some?
  }

  /** Command `cmd` is the background of a single cell that exists and decodes to its colour. */
  predicate BackgroundOfCell(grid: seq<seq<Option<string>>>, cmd: StyleCommand) {
    cmd.Background? && cmd.start == cmd.stop &&
    Convertible(grid, cmd.start.row, cmd.start.col) &&
    HexToColor(grid[cmd.start.row][cmd.start.col]) == Some(cmd.fill)
  }

  /** Coordinate a comes strictly before b in row-major order. */
  predicate RowMajorBefore(a: Coord, b: Coord) {
    a.row < b.row || (a.row == b.row && a.col < b.col)
  }

  /**
   * Builds the table: the given texts, the three whole-table commands, then a
   * background per convertible colour in row-major order; the count returned
   * is the number of background commands.
   */
  method MakePdf(data: seq<seq<string>>, dataColor: seq<seq<Option<string>>>) returns (doc: TableDoc, colorsApplied: nat)
    ensures doc.cells == data
    ensures doc.style == BaseStyle + Backgrounds(dataColor, |dataColor|)
    ensures colorsApplied == CountBackgrounds(doc.style)
  {
    var style := BaseStyle;
    colorsApplied := 0;
    for row := 0 to |dataColor|
      invariant style == BaseStyle + Backgrounds(dataColor, row)
      invariant colorsApplied == |style| - |BaseStyle|
    {
      ghost var done := style;
      for col := 0 to |dataColor[row]|
        invariant style == done + RowBackgrounds(dataColor[row], row, col)
        invariant colorsApplied == |style| - |BaseStyle|
      {
        var bgColor := HexToColor(dataColor[row][col]);
        if bgColor.Some? {
          var cmd := CellBackground(col, row, bgColor.value);
          style := style + [cmd];
          colorsApplied := colorsApplied + 1;
        }
      }
      assert Backgrounds(dataColor, row + 1) == Backgrounds(dataColor, row) + RowBackgrounds(dataColor[row], row, |dataColor[row]|);
    }
    StyleLayout(dataColor);
    doc := TableDoc(data, style);
  }

  /** Every command of a row's backgrounds covers one convertible cell of that row, left to right. */
  lemma {:induction false} RowBackgroundsSound(grid: seq<seq<Option<string>>>, row: nat, n: nat)
    requires row < |grid| && n <= |grid[row]|
    ensures forall k :: 0 <= k < |RowBackgrounds(grid[row], row, n)| ==>
      var cmd := RowBackgrounds(grid[row], row, n)[k];
      BackgroundOfCell(grid, cmd) && cmd.start.row == row && cmd.start.col < n
    ensures forall k1, k2 :: 0 <= k1 < k2 < |RowBackgrounds(grid[row], row, n)| ==>
      RowBackgrounds(grid[row], row, n)[k1].start.col < RowBackgrounds(grid[row], row, n)[k2].start.col
  {
    if n > 0 {
      RowBackgroundsSound(grid, row, n - 1);
    }
  }

  /** Every background command covers one convertible cell, with the cell's own colour. */
  lemma {:induction false} BackgroundsSound(grid: seq<seq<Option<string>>>, m: nat)
    requires m <= |grid|
    ensures forall k :: 0 <= k < |Backgrounds(grid, m)| ==>
      BackgroundOfCell(grid, Backgrounds(grid, m)[k]) && Backgrounds(grid, m)[k].start.row < m
  {
    if m > 0 {
      BackgroundsSound(grid, m - 1);
      RowBackgroundsSound(grid, m - 1, |grid[m - 1]|);
    }
  }

  /** Background commands follow strict row-major order of their cells. */
  lemma {:induction false} BackgroundsOrdered(grid: seq<seq<Option<string>>>, m: nat)
    requires m <= |grid|
    ensures forall k1, k2 :: 0 <= k1 < k2 < |Backgrounds(grid, m)| ==>
      RowMajorBefore(Backgrounds(grid, m)[k1].start, Backgrounds(grid, m)[k2].start)
  {
    if m > 0 {
      BackgroundsOrdered(grid, m - 1);
      BackgroundsSound(grid, m - 1);
      RowBackgroundsSound(grid, m - 1, |grid[m - 1]|);
    }
  }

  /** No cell gets two background commands. */
  lemma OneBackgroundPerCell(grid: seq<seq<Option<string>>>, m: nat, k1: nat, k2: nat)
    requires m <= |grid| && k1 < |Backgrounds(grid, m)| && k2 < |Backgrounds(grid, m)|
    requires Backgrounds(grid, m)[k1].start == Backgrounds(grid, m)[k2].start
    ensures k1 == k2
  {
    BackgroundsOrdered(grid, m);
  }

  /** Every convertible cell in the first `n` columns of a row has its background command. */
  lemma {:induction false} RowBackgroundsComplete(grid: seq<seq<Option<string>>>, row: nat, n: nat, col: nat)
    requires row < |grid| && col < n <= |grid[row]| && Convertible(grid, row, col)
    ensures CellBackground(col, row, HexToColor(grid[row][col]).value) in RowBackgrounds(grid[row], row, n)
  {
    if col < n - 1 {
      RowBackgroundsComplete(grid, row, n - 1, col);
    }
  }

  /** Every convertible cell in the first `m` rows has its background command. */
  lemma {:induction false} BackgroundsComplete(grid: seq<seq<Option<string>>>, m: nat, row: nat, col: nat)
    requires m <= |grid| && row < m && Convertible(grid, row, col)
    ensures CellBackground(col, row, HexToColor(grid[row][col]).value) in Backgrounds(grid, m)
  {
    if row < m - 1 {
      BackgroundsComplete(grid, m - 1, row, col);
    } else {
      RowBackgroundsComplete(grid, row, |grid[row]|, col);
    }
  }

  /** A command list made only of background commands counts all of them. */
  lemma {:induction false} CountAllBackgrounds(cmds: seq<StyleCommand>)
    requires forall k :: 0 <= k < |cmds| ==> cmds[k].Background?
    ensures CountBackgrounds(cmds) == |cmds|
  {
    if cmds != [] {
      CountAllBackgrounds(cmds[..|cmds| - 1]);
    }
  }

  /** The whole-table commands include no background command. */
  lemma BaseStyleHasNoBackground()
    ensures CountBackgrounds(BaseStyle) == 0
  {
    var s := BaseStyle;
    assert s[..1][..0] == [];
    assert CountBackgrounds(s[..1]) == 0;
    assert s[..2][..1] == s[..1];
    assert CountBackgrounds(s[..2]) == 0;
    assert s[..3] == s && s[..3][..2] == s[..2];
  }

  /** Prefixing whole-table commands leaves the background count unchanged. */
  lemma {:induction false} CountAfterBase(cmds: seq<StyleCommand>)
    ensures CountBackgrounds(BaseStyle + cmds) == CountBackgrounds(cmds)
  {
    if cmds == [] {
      assert BaseStyle + cmds == BaseStyle;
      BaseStyleHasNoBackground();
    } else {
      CountAfterBase(cmds[..|cmds| - 1]);
      assert (BaseStyle + cmds)[..|BaseStyle + cmds| - 1] == BaseStyle + cmds[..|cmds| - 1];
    }
  }

  /**
   * The commands of a colour grid: the three whole-table commands, in order,
   * then only background commands, as many as the count says.
   */
  lemma StyleLayout(grid: seq<seq<Option<string>>>)
    ensures |BaseStyle + Backgrounds(grid, |grid|)| >= 3
    ensures (BaseStyle + Backgrounds(grid, |grid|))[0] == GridLines(Coord(0, 0), Coord(-1, -1), 1, Black)
    ensures (BaseStyle + Backgrounds(grid, |grid|))[1] == VAlign(Coord(0, 0), Coord(-1, -1), "MIDDLE")
    ensures (BaseStyle + Backgrounds(grid, |grid|))[2] == Align(Coord(0, 0), Coord(-1, -1), "CENTER")
    ensures CountBackgrounds(BaseStyle + Backgrounds(grid, |grid|)) == |Backgrounds(grid, |grid|)|
  {
    BackgroundsSound(grid, |grid|);
    CountAllBackgrounds(Backgrounds(grid, |grid|));
    CountAfterBase(Backgrounds(grid, |grid|));
  }
}
