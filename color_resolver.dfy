/**
 * Resolution of a cell's fill to a colour string (`get_cell_color` in main.py).
 *
 * The source inspects the raw attribute dictionary of openpyxl's colour object;
 * here that dictionary is an explicit record whose fields are the keys it may
 * hold. Every field may be missing, which the source treats like a `None` value.
 */
module ColorResolver {
  import opened Opt

  /** The raw fields of a cell's foreground colour. */
  datatype ColorSpec = ColorSpec(
    rgb: Option<string>,    // direct ARGB/RGB code, unvalidated
    theme: Option<int>,     // index into the workbook theme
    tint: Option<real>,     // lightening/darkening factor, read but never applied
    indexed: Option<int>)   // legacy palette index, never resolved

  /**
   * A cell's fill: no fill at all (or a fill object without a foreground
   * colour attribute), or a pattern fill whose foreground colour may be absent.
   */
  datatype Fill = NoFill | PatternFill(fgColor: Option<ColorSpec>)

  /** The rgb code that means "no colour" in the source. */
  const TransparentRgb: string := "00000000"

  /** The standard Excel theme colours, by theme index. */
  const ThemeTable: seq<string> := [
    "FF000000",  // dk1
    "FFFFFFFF",  // lt1
    "FF1F497D",  // dk2
    "FFEEECE1",  // lt2
    "FF4F81BD",  // accent1
    "FFC0504D",  // accent2
    "FF9BBB59",  // accent3
    "FF8064A2",  // accent4
    "FF4BACC6",  // accent5
    "FFF79646"   // accent6
  ]

  /** A direct code the source returns as it is: present, non-empty and not the transparent code. */
  predicate UsableRgb(rgb: Option<string>) {
    rgb.Some? && rgb.value != "" && rgb.value != TransparentRgb
  }

  /** Every theme table entry is an 8-character code other than the transparent one. */
  lemma ThemeTableEntries(t: int)
    requires 0 <= t < |ThemeTable|
    ensures |ThemeTable[t]| == 8 && UsableRgb(Some(ThemeTable[t]))
  {
    assert ThemeTable[t][0] == 'F';
  }

  /** The colour string for a fill, or `None` when no colour is resolved. */
  function GetCellColor(fill: Fill): (r: Option<string>)
    ensures r.Some? ==> fill.PatternFill? && fill.fgColor.Some?
    ensures r.Some? ==> UsableRgb(r)
    ensures r.Some? ==> r == fill.fgColor.value.rgb || r.value in ThemeTable
  {
    match fill
    case NoFill => None
    case PatternFill(fg) =>
      if fg.None? then None
      else if UsableRgb(fg.value.rgb) then fg.value.rgb
      else if fg.value.theme.Some? && 0 <= fg.value.theme.value < |ThemeTable| then
        ThemeTableEntries(fg.value.theme.value);
        Some(ThemeTable[fg.value.theme.value])
      else
        // an out-of-table theme, an indexed colour and a bare descriptor all give no colour
        None
  }

  /**
   * A usable direct code wins, whatever it contains and whatever theme is also
   * present: a malformed code does not fall through to the theme.
   */
  lemma DirectCodeWins(spec: ColorSpec)
    requires UsableRgb(spec.rgb)
    ensures GetCellColor(PatternFill(Some(spec))) == spec.rgb
  {
  }

  /** Without a usable direct code, a theme index 0..9 gives its table entry, whatever the tint. */
  lemma ThemeFallback(spec: ColorSpec)
    requires !UsableRgb(spec.rgb)
    ensures spec.theme.Some? && 0 <= spec.theme.value < 10 ==>
      GetCellColor(PatternFill(Some(spec))) == Some(ThemeTable[spec.theme.value])
    ensures spec.theme.None? || spec.theme.value < 0 || 10 <= spec.theme.value ==>
      GetCellColor(PatternFill(Some(spec))) == None
  {
  }

  /** The tint and the indexed-palette reference never change the result. */
  lemma TintAndIndexedIgnored(spec: ColorSpec, tint: Option<real>, indexed: Option<int>)
    ensures GetCellColor(PatternFill(Some(spec.(tint := tint, indexed := indexed))))
         == GetCellColor(PatternFill(Some(spec)))
  {
  }

  /** The cases with no colour: no fill, no foreground colour, nothing usable in the descriptor. */
  lemma NoColorCases(fill: Fill)
    ensures GetCellColor(fill) == None <==>
      fill.NoFill? || fill.fgColor.None? ||
      (!UsableRgb(fill.fgColor.value.rgb) &&
       (fill.fgColor.value.theme.None? || !(0 <= fill.fgColor.value.theme.value < 10)))
  {
  }
}
