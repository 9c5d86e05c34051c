/**
 * Python's `str()` of a spreadsheet cell value, as the grid loop of
 * `parse_xlsx` in main.py applies it.
 */
module PyStr {
  import opened Opt

  /**
   * A cell value as openpyxl reads it: text, an integer, a boolean, or a value
   * (float, date, time) whose `str()` form is taken as given.
   */
  datatype CellValue = Text(s: string) | Integer(n: int) | Boolean(b: bool) | Rendered(shown: string)

  predicate IsDigit(ch: char) {
    '0' <= ch <= '9'
  }

  predicate AllDigits(s: string) {
    forall i :: 0 <= i < |s| ==> IsDigit(s[i])
  }

  function DigitChar(d: nat): (ch: char)
    requires d < 10
    ensures IsDigit(ch) && ch as int - '0' as int == d
  {
    ('0' as int + d) as char
  }

  /** The decimal digits of a natural number, without leading zeros. */
  function NatToDecimal(n: nat): (s: string)
    ensures 1 <= |s| && AllDigits(s)
    ensures s[0] == '0' ==> n == 0
  {
    if n < 10 then [DigitChar(n)] else NatToDecimal(n / 10) + [DigitChar(n % 10)]
  }

  /** The value of a string of decimal digits. */
  function DecimalValue(s: string): nat
    requires AllDigits(s)
  {
    if s == [] then 0 else 10 * DecimalValue(s[..|s| - 1]) + (s[|s| - 1] as int - '0' as int)
  }

  /** Reading the decimal digits of n gives n back. */
  lemma {:induction false} DecimalRoundTrip(n: nat)
    ensures DecimalValue(NatToDecimal(n)) == n
  {
    var s := NatToDecimal(n);
    if n >= 10 {
      DecimalRoundTrip(n / 10);
      assert s[..|s| - 1] == NatToDecimal(n / 10);
    }
  }

  /** Python's `str(n)` of an integer: a minus sign for negatives, then the decimal digits. */
  function IntToString(n: int): string {
    if n < 0 then "-" + NatToDecimal(-n) else NatToDecimal(n)
  }

  /** Python's `int(s)` restricted to what `str` of an integer produces. */
  function ParseInt(s: string): Option<int> {
    if |s| >= 2 && s[0] == '-' && AllDigits(s[1..]) then Option<int>.Some(-(DecimalValue(s[1..]) as int))
    else if |s| >= 1 && AllDigits(s) then Some(DecimalValue(s))
    else None
  }

  /** `str` of an integer reads back as that integer, so distinct integers give distinct text. */
  lemma IntStringRoundTrip(n: int)
    ensures ParseInt(IntToString(n)) == Some(n)
  {
    var s := IntToString(n);
    if n < 0 {
      var digits := NatToDecimal(-n);
      DecimalRoundTrip(-n);
      assert s == "-" + digits;
      assert s[0] == '-' && s[1..] == digits;
    } else {
      DecimalRoundTrip(n);
      assert s == NatToDecimal(n);
      assert !(|s| >= 2 && s[0] == '-');
    }
  }

  /** Python's `str()` of a cell value. */
  function Str(v: CellValue): (s: string)
    ensures v.Integer? ==> ParseInt(s) == Some(v.n)
    ensures v.Boolean? ==> s == (if v.b then "True" else "False")
    ensures v.Text? ==> s == v.s
  {
    match v
    case Text(t) => t
    case Integer(n) => IntStringRoundTrip(n); IntToString(n)
    case Boolean(b) => if b then "True" else "False"
    case Rendered(shown) => shown
  }

  /** The text of a cell: empty for an absent value, otherwise `str` of the value. */
  function CellText(value: Option<CellValue>): (s: string)
    ensures value.None? ==> s == ""
  {
    match value
    case None => ""
    case Some(v) => Str(v)
  }
}
