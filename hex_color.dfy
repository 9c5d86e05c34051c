/**
 * Decoding of a colour string into a ReportLab RGB colour
 * (`hex_to_reportlab_color` in main.py).
 *
 * Channels are kept exact: a channel is a byte value divided by 255 as a
 * `real`, where the source divides by 255.0 in floating point.
 */
module HexColor {
  import opened Opt

  /** A ReportLab colour: red, green and blue channels. */
  datatype Color = Color(red: real, green: real, blue: real)

  /** The channel value of an integer read from a hex pair. */
  function Channel(n: int): real {
    n as real / 255.0
  }

  predicate InUnitRange(c: Color) {
    0.0 <= c.red <= 1.0 && 0.0 <= c.green <= 1.0 && 0.0 <= c.blue <= 1.0
  }

  predicate IsHexDigit(ch: char) {
    '0' <= ch <= '9' || 'a' <= ch <= 'f' || 'A' <= ch <= 'F'
  }

  function HexDigitValue(ch: char): (v: nat)
    requires IsHexDigit(ch)
    ensures v < 16
  {
    if '0' <= ch <= '9' then ch as int - '0' as int
    else if 'a' <= ch <= 'f' then ch as int - 'a' as int + 10
    else ch as int - 'A' as int + 10
  }

  /** The upper-case hex digit of a value below 16. */
  function HexDigitChar(v: nat): (ch: char)
    requires v < 16
    ensures IsHexDigit(ch) && HexDigitValue(ch) == v
  {
    if v < 10 then ('0' as int + v) as char else ('A' as int + v - 10) as char
  }

  /** The strings rejected as "no colour" before their length is looked at. */
  predicate IsSentinel(s: string) {
    s == "00000000" || s == "00" || s == "None"
  }

  /**
   * The six RGB hex characters of a colour value: none for an absent or empty
   * value, a sentinel, or a length other than 6 or 8; for 8 characters the
   * two-character alpha prefix is dropped.
   */
  function RgbDigits(colorValue: Option<string>): (r: Option<string>)
    ensures r.Some? <==>
      colorValue.Some? && !IsSentinel(colorValue.value) && |colorValue.value| in {6, 8}
    ensures r.Some? ==>
      |r.value| == 6 && r.value == colorValue.value[|colorValue.value| - 6..]
  {
    match colorValue
    case None => None
    case Some(s) =>
      if s == "" then None
      else if IsSentinel(s) then None
      else if |s| == 8 then Some(s[2..])
      else if |s| == 6 then Some(s)
      else None
  }

  /** A pair of hex digits read as a byte; none unless both characters are hex digits. */
  function ParseHexByte(p: string): (r: Option<nat>)
    requires |p| == 2
    ensures r.Some? <==> IsHexDigit(p[0]) && IsHexDigit(p[1])
    ensures r.Some? ==> r.value < 256
  {
    if IsHexDigit(p[0]) && IsHexDigit(p[1]) then
      Some(16 * HexDigitValue(p[0]) + HexDigitValue(p[1]))
    else
      None
  }

  /** The two upper-case hex digits of a byte. */
  function ByteToHex(b: nat): (s: string)
    requires b < 256
    ensures |s| == 2 && ParseHexByte(s) == Some(b)
  {
    [HexDigitChar(b / 16), HexDigitChar(b % 16)]
  }

  /**
   * The colour of a colour value: the three hex pairs of its RGB digits, each
   * divided by 255; none when any pair is not two hex digits, so a colour is
   * never built from part of the input.
   */
  function HexToColor(colorValue: Option<string>): (r: Option<Color>)
    ensures r.Some? ==> RgbDigits(colorValue).Some? && InUnitRange(r.value)
  {
    match RgbDigits(colorValue)
    case None => None
    case Some(h) =>
      match (ParseHexByte(h[0..2]), ParseHexByte(h[2..4]), ParseHexByte(h[4..6]))
      case (Some(red), Some(green), Some(blue)) => Some(Color(Channel(red), Channel(green), Channel(blue)))
      case _ => None
  }

  /**
   * On six characters the result is a colour exactly when all six are hex
   * digits, and its channels are then the three pairs' byte values over 255.
   */
  lemma {:induction false} SixDigitChannels(h: string)
    requires |h| == 6
    ensures HexToColor(Some(h)).Some? <==> forall i :: 0 <= i < 6 ==> IsHexDigit(h[i])
    ensures HexToColor(Some(h)).Some? ==>
      HexToColor(Some(h)).value == Color(
        Channel(16 * HexDigitValue(h[0]) + HexDigitValue(h[1])),
        Channel(16 * HexDigitValue(h[2]) + HexDigitValue(h[3])),
        Channel(16 * HexDigitValue(h[4]) + HexDigitValue(h[5])))
  {
    assert !IsSentinel(h);
    assert RgbDigits(Some(h)) == Some(h);
    assert h[0..2] == [h[0], h[1]] && h[2..4] == [h[2], h[3]] && h[4..6] == [h[4], h[5]];
  }

  /** An 8-character value decodes like its last six characters, except the transparent sentinel. */
  lemma AlphaIgnored(s: string)
    requires |s| == 8 && s != "00000000"
    ensures HexToColor(Some(s)) == HexToColor(Some(s[2..]))
  {
    var h := s[2..];
    assert !IsSentinel(h);
    assert RgbDigits(Some(s)) == Some(h);
    assert RgbDigits(Some(h)) == Some(h);
  }

  /** The transparent sentinel gives no colour, while opaque black decodes to black. */
  lemma TransparentIsNoColor()
    ensures HexToColor(Some("00000000")) == None
    ensures HexToColor(Some("FF000000")) == Some(Color(0.0, 0.0, 0.0))
  {
    assert IsSentinel("00000000");
    assert RgbDigits(Some("00000000")) == None;
    var s := "FF000000";
    assert !IsSentinel(s);
    assert RgbDigits(Some(s)) == Some("000000");
    var h := "000000";
    assert h[0..2] == "00" && h[2..4] == "00" && h[4..6] == "00";
    assert ParseHexByte("00") == Some(0);
  }

  /** The pair "00" reads as zero. */
  lemma ZeroPair(p: string)
    requires |p| == 2 && p[0] == '0' && p[1] == '0'
    ensures ParseHexByte(p) == Some(0)
  {
  }

  /** Encoding three bytes as hex, with or without an alpha prefix, decodes back to those bytes. */
  lemma {:induction false} EncodeDecode(alpha: nat, red: nat, green: nat, blue: nat)
    requires alpha < 256 && red < 256 && green < 256 && blue < 256
    ensures HexToColor(Some(ByteToHex(red) + ByteToHex(green) + ByteToHex(blue)))
         == Some(Color(Channel(red), Channel(green), Channel(blue)))
    ensures alpha != 0 || red != 0 || green != 0 || blue != 0 ==>
      HexToColor(Some(ByteToHex(alpha) + ByteToHex(red) + ByteToHex(green) + ByteToHex(blue)))
         == Some(Color(Channel(red), Channel(green), Channel(blue)))
  {
    var a, r, g, b := ByteToHex(alpha), ByteToHex(red), ByteToHex(green), ByteToHex(blue);
    var h := r + g + b;
    assert h[0..2] == r && h[2..4] == g && h[4..6] == b;
    assert !IsSentinel(h);
    assert RgbDigits(Some(h)) == Some(h);
    var s := a + h;
    assert s[2..] == h;
    assert s == a + r + g + b;
    if s == "00000000" {
      // then every byte is zero
      assert a[0] == s[0] && a[1] == s[1] && s[0] == '0' && s[1] == '0';
      ZeroPair(a);
      assert r[0] == s[2] && r[1] == s[3] && s[2] == '0' && s[3] == '0';
      ZeroPair(r);
      assert g[0] == s[4] && g[1] == s[5] && s[4] == '0' && s[5] == '0';
      ZeroPair(g);
      assert b[0] == s[6] && b[1] == s[7] && s[6] == '0' && s[7] == '0';
      ZeroPair(b);
    } else {
      AlphaIgnored(s);
    }
  }

  // ---------------------------------------------------------------------
  // The decoder as written: Python's int(pair, 16)
  // ---------------------------------------------------------------------

  /**
   * The whitespace Python's `int` skips around the digits: the ASCII space,
   * tab, line feed, vertical tab, form feed and carriage return, and the
   * non-ASCII Unicode whitespace characters.
   */
  predicate IsIntSpace(ch: char) {
    var n := ch as int;
    n == 32 || 9 <= n <= 13 || n == 0x85 || n == 0xA0 || n == 0x1680 ||
    0x2000 <= n <= 0x200A || n == 0x2028 || n == 0x2029 || n == 0x202F ||
    n == 0x205F || n == 0x3000
  }

  /**
   * `int(p, 16)` on a two-character string: two hex digits, or one hex digit
   * with a leading sign or with whitespace before or after it.
   */
  function PyIntBase16(p: string): (r: Option<int>)
    requires |p| == 2
    ensures r.Some? ==> -15 <= r.value < 256
    ensures IsHexDigit(p[0]) && IsHexDigit(p[1]) ==> r.Some? && r.value == ParseHexByte(p).value
    ensures r.Some? && r.value < 0 ==> p[0] == '-'
  {
    if IsHexDigit(p[0]) && IsHexDigit(p[1]) then Some(16 * HexDigitValue(p[0]) + HexDigitValue(p[1]))
    else if p[0] == '+' && IsHexDigit(p[1]) then Some(HexDigitValue(p[1]))
    else if p[0] == '-' && IsHexDigit(p[1]) then Option<int>.Some(-(HexDigitValue(p[1]) as int))
    else if IsIntSpace(p[0]) && IsHexDigit(p[1]) then Some(HexDigitValue(p[1]))
    else if IsHexDigit(p[0]) && IsIntSpace(p[1]) then Some(HexDigitValue(p[0]))
    else None
  }

  /** `hex_to_reportlab_color` as written, reading each pair with Python's `int(pair, 16)`. */
  function HexToColorAsWritten(colorValue: Option<string>): (r: Option<Color>)
    ensures HexToColor(colorValue).Some? ==> r == HexToColor(colorValue)
    ensures r.Some? ==> RgbDigits(colorValue).Some?
  {
    match RgbDigits(colorValue)
    case None => None
    case Some(h) =>
      match (PyIntBase16(h[0..2]), PyIntBase16(h[2..4]), PyIntBase16(h[4..6]))
      case (Some(red), Some(green), Some(blue)) => Some(Color(Channel(red), Channel(green), Channel(blue)))
      case _ => None
  }

  /**
   * A signed pair passes the decoder as written and yields a negative channel,
   * outside [0, 1]; the corrected decoder rejects the value.
   */
  lemma SignedPairLeavesUnitRange()
    ensures HexToColorAsWritten(Some("-F0000")) == Some(Color(Channel(-15), 0.0, 0.0))
    ensures !InUnitRange(HexToColorAsWritten(Some("-F0000")).value)
    ensures HexToColor(Some("-F0000")) == None
  {
    var h := "-F0000";
    assert !IsSentinel(h);
    assert RgbDigits(Some(h)) == Some(h);
    assert h[0..2] == "-F" && h[2..4] == "00" && h[4..6] == "00";
  }

  /** A space-padded pair passes the decoder as written too, read as a single digit. */
  lemma PaddedPairAccepted()
    ensures HexToColorAsWritten(Some("FF F0000")) == Some(Color(Channel(15), 0.0, 0.0))
    ensures HexToColor(Some("FF F0000")) == None
  {
    var s := "FF F0000";
    assert !IsSentinel(s);
    assert RgbDigits(Some(s)) == Some(" F0000");
    var h := " F0000";
    assert h[0..2] == " F" && h[2..4] == "00" && h[4..6] == "00";
  }
}
