/**
 * Colours as the tools handle them: an RGB triple of 8-bit channels, written
 * as `"#RRGGBB"` with `"#{:02x}{:02x}{:02x}".format(r, g, b).upper()` and read
 * back with `int(color[1:3], 16)`, `int(color[3:5], 16)`, `int(color[5:7], 16)`.
 */
module HexColor {
  import opened Wrappers
  import opened Text

  type Channel = c: int | 0 <= c < 256

  datatype Rgb = Rgb(r: Channel, g: Channel, b: Channel)

  /** The upper-case hexadecimal digit for `0 <= d < 16`. */
  function UpperDigit(d: nat): (c: char)
    requires d < 16
    ensures IsUpperHexDigit(c) && HexDigitValue(c) == Some(d)
  {
    if d < 10 then ('0' as int + d) as char else ('A' as int + d - 10) as char
  }

  predicate IsUpperHexDigit(c: char) {
    ('0' <= c <= '9') || ('A' <= c <= 'F')
  }

  /** The value of one hexadecimal digit of either case. */
  function HexDigitValue(c: char): Option<nat> {
    if '0' <= c <= '9' then Some(c as int - '0' as int)
    else if 'a' <= c <= 'f' then Some(c as int - 'a' as int + 10)
    else if 'A' <= c <= 'F' then Some(c as int - 'A' as int + 10)
    else None
  }

  /** `"{:02x}".format(c).upper()`: exactly two upper-case digits for a channel. */
  function Hex2(c: Channel): (s: string)
    ensures |s| == 2 && IsUpperHexDigit(s[0]) && IsUpperHexDigit(s[1])
    ensures HexDigitValue(s[0]) == Some(c / 16) && HexDigitValue(s[1]) == Some(c % 16)
  {
    [UpperDigit(c / 16), UpperDigit(c % 16)]
  }

  /** `get_pixel_color`'s formatting of the first three channels. */
  function FormatHex(p: Rgb): (s: string)
    ensures |s| == 7 && s[0] == '#'
    ensures forall i :: 1 <= i < 7 ==> IsUpperHexDigit(s[i])
  {
    "#" + Hex2(p.r) + Hex2(p.g) + Hex2(p.b)
  }

  /** Python's `s[i:j]` for `0 <= i <= j`: indices past the end are cut to `|s|`. */
  function PySlice(s: string, i: nat, j: nat): (t: string)
    requires i <= j
    ensures |t| <= j - i
  {
    var a := if i < |s| then i else |s|;
    var b := if j < |s| then j else |s|;
    s[a..b]
  }

  /**
   * `int(t, 16)` for a slice of at most two characters: one or two
   * hexadecimal digits, one digit with a whitespace character on either side
   * (which `int` strips), or `+` and one digit; `-0` is zero. A minus sign
   * before a non-zero digit gives a negative number, which is no channel
   * value, and is read here like the strings that raise (`None`).
   */
  function ParseHexSlice(t: string): (r: Option<Channel>)
    requires |t| <= 2
    ensures r.Some? ==> exists i :: 0 <= i < |t| && HexDigitValue(t[i]).Some?
    ensures |t| == 2 && !IsSpace(t[0]) && !IsSpace(t[1]) && t[0] != '+' && t[0] != '-' ==>
      (r.Some? <==> HexDigitValue(t[0]).Some? && HexDigitValue(t[1]).Some?)
  {
    if |t| == 1 && HexDigitValue(t[0]).Some? then
      Some(HexDigitValue(t[0]).value)
    else if |t| == 2 && HexDigitValue(t[0]).Some? && HexDigitValue(t[1]).Some? then
      Some(16 * HexDigitValue(t[0]).value + HexDigitValue(t[1]).value)
    else if |t| == 2 && IsSpace(t[0]) && HexDigitValue(t[1]).Some? then
      Some(HexDigitValue(t[1]).value)
    else if |t| == 2 && HexDigitValue(t[0]).Some? && IsSpace(t[1]) then
      Some(HexDigitValue(t[0]).value)
    else if |t| == 2 && t[0] == '+' && HexDigitValue(t[1]).Some? then
      Some(HexDigitValue(t[1]).value)
    else if |t| == 2 && t[0] == '-' && HexDigitValue(t[1]) == Some(0) then
      Some(0)
    else None
  }

  /** The expected colour of a pattern entry, or `None` where parsing it raises. */
  function ParseHexColor(s: string): (r: Option<Rgb>)
  {
    var r := ParseHexSlice(PySlice(s, 1, 3));
    var g := ParseHexSlice(PySlice(s, 3, 5));
    var b := ParseHexSlice(PySlice(s, 5, 7));
    if r.Some? && g.Some? && b.Some? then Some(Rgb(r.value, g.value, b.value)) else None
  }

  /** The form `FormatHex` produces: `#` and six upper-case hexadecimal digits. */
  predicate IsCanonicalHex(s: string) {
    |s| == 7 && s[0] == '#' && forall i :: 1 <= i < 7 ==> IsUpperHexDigit(s[i])
  }

  lemma {:induction false} Hex2RoundTrip(c: Channel)
    ensures ParseHexSlice(Hex2(c)) == Some(c)
  {
    var t := Hex2(c);
    assert 16 * (c / 16) + c % 16 == c;
  }

  /** Parsing what `get_pixel_color` printed recovers the three channels. */
  lemma {:induction false} ParseFormatHex(p: Rgb)
    ensures ParseHexColor(FormatHex(p)) == Some(p)
  {
    var s := FormatHex(p);
    assert PySlice(s, 1, 3) == Hex2(p.r);
    assert PySlice(s, 3, 5) == Hex2(p.g);
    assert PySlice(s, 5, 7) == Hex2(p.b);
    Hex2RoundTrip(p.r);
    Hex2RoundTrip(p.g);
    Hex2RoundTrip(p.b);
  }

  lemma UpperDigitOfValue(c: char)
    requires IsUpperHexDigit(c)
    ensures HexDigitValue(c).Some? && HexDigitValue(c).value < 16
    ensures UpperDigit(HexDigitValue(c).value) == c
  {
  }

  lemma {:induction false} Hex2OfParsedPair(t: string)
    requires |t| == 2 && IsUpperHexDigit(t[0]) && IsUpperHexDigit(t[1])
    ensures ParseHexSlice(t).Some? && Hex2(ParseHexSlice(t).value) == t
  {
    var hi := HexDigitValue(t[0]).value;
    var lo := HexDigitValue(t[1]).value;
    var c := 16 * hi + lo;
    assert c / 16 == hi && c % 16 == lo;
    UpperDigitOfValue(t[0]);
    UpperDigitOfValue(t[1]);
  }

  /** Conversely, a canonical colour string is exactly what formatting its value prints. */
  lemma {:induction false} FormatParseHex(s: string)
    requires IsCanonicalHex(s)
    ensures ParseHexColor(s).Some? && FormatHex(ParseHexColor(s).value) == s
  {
    assert PySlice(s, 1, 3) == s[1..3];
    assert PySlice(s, 3, 5) == s[3..5];
    assert PySlice(s, 5, 7) == s[5..7];
    Hex2OfParsedPair(s[1..3]);
    Hex2OfParsedPair(s[3..5]);
    Hex2OfParsedPair(s[5..7]);
    assert s == "#" + s[1..3] + s[3..5] + s[5..7];
  }
}
