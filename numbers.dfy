/**
 * Python's numeric conversions as the model needs them: `int()` applied to a
 * float (truncation toward zero), and `int(s)` / `float(s)` applied to a
 * string, with the underscores, exponents and special names they accept.
 */
module Numbers {
  import opened Wrappers
  import opened Text

  /** `int(x)` for a float `x`: truncation toward zero. */
  function Trunc(x: real): (r: int)
    ensures x >= 0.0 ==> r >= 0 && r as real <= x < r as real + 1.0
    ensures x < 0.0 ==> r <= 0 && r as real - 1.0 < x <= r as real
  {
    if x >= 0.0 then x.Floor else -((-x).Floor)
  }

  predicate IsDigit(c: char) {
    '0' <= c <= '9'
  }

  predicate AllDigits(s: string) {
    forall i :: 0 <= i < |s| ==> IsDigit(s[i])
  }

  function DigitChar(d: nat): (c: char)
    requires d < 10
    ensures IsDigit(c) && c as int - '0' as int == d
  {
    ('0' as int + d) as char
  }

  /** The value of a string of decimal digits, most significant first. */
  function DigitsValue(s: string): nat
    requires AllDigits(s)
  {
    if s == [] then 0 else 10 * DigitsValue(s[..|s| - 1]) + (s[|s| - 1] as int - '0' as int)
  }

  /** `10 ** k`. */
  function Pow10(k: nat): (r: nat)
    ensures r >= 1
  {
    if k == 0 then 1 else 10 * Pow10(k - 1)
  }

  /** Splits off a leading `+` or `-`: (is negative, the rest). */
  function SplitSign(u: string): (bool, string) {
    if |u| > 0 && (u[0] == '+' || u[0] == '-') then (u[0] == '-', u[1..]) else (false, u)
  }

  /** Only digits and underscores. */
  predicate DigitsOrUnderscores(s: string) {
    forall i :: 0 <= i < |s| ==> IsDigit(s[i]) || s[i] == '_'
  }

  /**
   * A run of digits as `int()` and `float()` accept it: at least one digit,
   * with single underscores allowed between two digits (`"1_470"`).
   */
  predicate IsDigitPart(s: string) {
    DigitsOrUnderscores(s) && DigitRun(s)
  }

  /** Starts with a digit, and every underscore sits between two digits. */
  predicate DigitRun(s: string)
    decreases |s|
  {
    && |s| > 0 && IsDigit(s[0])
    && (|s| == 1 || DigitRun(s[1..]) || (s[1] == '_' && DigitRun(s[2..])))
  }

  /** The digits of `s` with its underscores dropped. */
  function DropUnderscores(s: string): (d: string)
    ensures |d| <= |s|
    ensures DigitsOrUnderscores(s) ==> AllDigits(d)
  {
    if s == [] then [] else (if s[0] == '_' then [] else [s[0]]) + DropUnderscores(s[1..])
  }

  lemma {:induction false} DropUnderscoresOfDigits(s: string)
    requires AllDigits(s)
    ensures DropUnderscores(s) == s
  {
    if s != [] {
      DropUnderscoresOfDigits(s[1..]);
    }
  }

  /** The value of a possibly empty run of digits and underscores. */
  function GroupValue(s: string): nat
    requires DigitsOrUnderscores(s)
  {
    DigitsValue(DropUnderscores(s))
  }

  /**
   * `int(s)` on a string: surrounding whitespace, an optional sign and a digit
   * part; anything else raises `ValueError` (here `None`). A result is negative
   * only after a leading `-`; `IntStringIsFloatString` shows that `float()`
   * accepts the same string with the same value.
   */
  function ParseInt(s: string): (r: Option<int>)
    ensures r.Some? ==> IsDigitPart(SplitSign(Strip(s)).1)
    ensures r.Some? && r.value < 0 ==> SplitSign(Strip(s)).0
  {
    var (neg, body) := SplitSign(Strip(s));
    if IsDigitPart(body) then
      var v: int := GroupValue(body);
      Some(if neg then -v else v)
    else None
  }

  /** A Python float: a finite value (read exactly), an infinity with its sign, or NaN. */
  datatype PyFloat = Finite(v: real) | Infinity(negative: bool) | NaN

  /** `u` spells the lower-case word `w`, ASCII letters compared without case. */
  predicate SameIgnoringCase(u: string, w: string)
    decreases |u|
  {
    |u| == |w| && (u == [] || (LowerChar(u[0]) == w[0] && SameIgnoringCase(u[1..], w[1..])))
  }

  /** The index of the first `e` or `E`, or `|u|` when there is none. */
  function ExponentAt(u: string): (r: nat)
    ensures r <= |u|
    ensures r < |u| ==> u[r] == 'e' || u[r] == 'E'
    ensures forall i :: 0 <= i < r ==> u[i] != 'e' && u[i] != 'E'
  {
    if u == [] || u[0] == 'e' || u[0] == 'E' then 0 else 1 + ExponentAt(u[1..])
  }

  /** `m * 10 ** k` for a possibly negative exponent `k`. */
  function Scale(m: real, k: int): (r: real)
    ensures m >= 0.0 ==> r >= 0.0
    decreases if k >= 0 then k else -k
  {
    if k == 0 then m
    else if k > 0 then 10.0 * Scale(m, k - 1)
    else Scale(m, k + 1) / 10.0
  }

  /** The value `0.d1d2…` of the digits after a decimal point, underscores skipped. */
  function FractionValue(s: string): (r: real)
    requires DigitsOrUnderscores(s)
    ensures 0.0 <= r <= 1.0
  {
    if s == [] then 0.0
    else if s[0] == '_' then FractionValue(s[1..])
    else ((s[0] as int - '0' as int) as real + FractionValue(s[1..])) / 10.0
  }

  /** The exponent after `e`: an optional sign and a digit part. */
  function ParseExponent(x: string): Option<int> {
    var (neg, digits) := SplitSign(x);
    if IsDigitPart(digits) then
      var k: int := GroupValue(digits);
      Some(if neg then -k else k)
    else None
  }

  /** `digits [. [digits]]` or `. digits`, without sign or exponent. */
  function ParseMantissa(m: string): (r: Option<real>)
    ensures r.Some? ==> r.value >= 0.0
  {
    var dot := IndexOf(m, '.');
    var whole := m[..dot];
    var frac := if dot < |m| then m[dot + 1..] else "";
    if (whole == [] || IsDigitPart(whole)) && (frac == [] || IsDigitPart(frac)) && (whole != [] || frac != []) then
      Some(GroupValue(whole) as real + FractionValue(frac))
    else None
  }

  /** An unsigned decimal literal: a mantissa and an optional `e` or `E` exponent. */
  function ParseDecimal(u: string): (r: Option<real>)
    ensures r.Some? ==> r.value >= 0.0
  {
    var e := ExponentAt(u);
    match ParseMantissa(u[..e])
    case None => None
    case Some(m) =>
      if e == |u| then Some(m)
      else
        match ParseExponent(u[e + 1..])
        case None => None
        case Some(k) => Some(Scale(m, k))
  }

  lemma {:induction false} DigitPartEnd(s: string)
    requires DigitRun(s)
    ensures IsDigit(s[|s| - 1])
  {
    if |s| > 1 {
      if DigitRun(s[1..]) {
        DigitPartEnd(s[1..]);
      } else {
        DigitPartEnd(s[2..]);
      }
    }
  }

  /** A decimal literal ends in a digit or in its decimal point. */
  lemma DecimalEnd(u: string)
    requires ParseDecimal(u).Some?
    ensures |u| > 0 && (IsDigit(u[|u| - 1]) || u[|u| - 1] == '.')
  {
    var e := ExponentAt(u);
    if e == |u| {
      assert u[..e] == u;
      var dot := IndexOf(u, '.');
      var frac := if dot < |u| then u[dot + 1..] else "";
      if frac != [] {
        DigitPartEnd(frac);
      } else if dot == |u| {
        assert u[..dot] == u;
        DigitPartEnd(u);
      }
    } else {
      var x := u[e + 1..];
      var digits := SplitSign(x).1;
      DigitPartEnd(digits);
      assert digits[|digits| - 1] == u[|u| - 1];
    }
  }

  /**
   * `float(s)` on a string: surrounding whitespace, an optional sign, then
   * `inf`, `infinity` or `nan` in any case, or a decimal literal with
   * underscores between digits and an optional exponent; anything else raises
   * `ValueError` (here `None`). The sign of the result is the sign written.
   */
  function ParseFloat(s: string): (r: Option<PyFloat>)
    ensures r.Some? ==> Strip(s) != []
    ensures r.Some? && r.value.Finite? && r.value.v < 0.0 ==> SplitSign(Strip(s)).0
    ensures r.Some? && r.value.Finite? && SplitSign(Strip(s)).0 ==> r.value.v <= 0.0
  {
    var (neg, body) := SplitSign(Strip(s));
    if SameIgnoringCase(body, "inf") || SameIgnoringCase(body, "infinity") then Some(Infinity(neg))
    else if SameIgnoringCase(body, "nan") then Some(NaN)
    else
      match ParseDecimal(body)
      case None => None
      case Some(m) => Some(Finite(if neg then -m else m))
  }

  /** A word spelled without case ends in the same letter, up to case. */
  lemma {:induction false} SameLast(u: string, w: string)
    requires SameIgnoringCase(u, w) && |u| > 0
    ensures LowerChar(u[|u| - 1]) == w[|w| - 1]
  {
    if |u| > 1 {
      SameLast(u[1..], w[1..]);
    }
  }

  /** A string starting with a digit is none of `inf`, `infinity`, `nan`. */
  lemma NotSpecialName(u: string)
    requires |u| > 0 && IsDigit(u[0])
    ensures !SameIgnoringCase(u, "inf") && !SameIgnoringCase(u, "infinity") && !SameIgnoringCase(u, "nan")
  {
    assert LowerChar(u[0]) == u[0];
  }

  /** Nor is a string ending in `%`. */
  lemma PercentNotSpecialName(u: string)
    requires |u| > 0 && u[|u| - 1] == '%'
    ensures !SameIgnoringCase(u, "inf") && !SameIgnoringCase(u, "infinity") && !SameIgnoringCase(u, "nan")
  {
    if SameIgnoringCase(u, "inf") { SameLast(u, "inf"); }
    if SameIgnoringCase(u, "infinity") { SameLast(u, "infinity"); }
    if SameIgnoringCase(u, "nan") { SameLast(u, "nan"); }
  }

  /** With no `e` or `E` in `u`, there is no exponent. */
  lemma ExponentAtAbsent(u: string)
    requires 'e' !in u && 'E' !in u
    ensures ExponentAt(u) == |u|
  {
  }

  lemma IndexOfAbsent(s: string, c: char)
    requires c !in s
    ensures IndexOf(s, c) == |s|
  {
  }

  /** A digit part read as a mantissa has the value `int()` gives it. */
  lemma MantissaOfDigitPart(body: string)
    requires IsDigitPart(body)
    ensures ParseMantissa(body) == Some(GroupValue(body) as real)
  {
    assert '.' !in body by {
      forall i | 0 <= i < |body| ensures body[i] != '.' { }
    }
    IndexOfAbsent(body, '.');
    assert body[..|body|] == body;
    assert GroupValue("") == 0 by { assert DropUnderscores("") == []; }
    assert FractionValue("") == 0.0;
  }

  /** A digit part read by `float()` has the value `int()` gives it. */
  lemma IntBodyIsFloatBody(body: string)
    requires IsDigitPart(body)
    ensures ParseDecimal(body) == Some(GroupValue(body) as real)
  {
    assert 'e' !in body && 'E' !in body by {
      forall i | 0 <= i < |body| ensures body[i] != 'e' && body[i] != 'E' { }
    }
    ExponentAtAbsent(body);
    assert body[..|body|] == body;
    MantissaOfDigitPart(body);
  }

  /** Every string `int()` accepts, `float()` accepts with the same value. */
  lemma IntStringIsFloatString(s: string)
    requires ParseInt(s).Some?
    ensures ParseFloat(s) == Some(Finite(ParseInt(s).value as real))
  {
    var (neg, body) := SplitSign(Strip(s));
    IntBodyIsFloatBody(body);
    NotSpecialName(body);
    var v: int := GroupValue(body);
    assert ParseInt(s) == Some(if neg then -v else v);
    assert ParseFloat(s) == Some(Finite(if neg then -(v as real) else v as real));
  }

  /** `str(n)` for a natural number. */
  function NatToString(n: nat): (s: string)
    ensures |s| > 0 && AllDigits(s)
  {
    if n < 10 then [DigitChar(n)] else NatToString(n / 10) + [DigitChar(n % 10)]
  }

  lemma {:induction false} DigitsValueOfNatToString(n: nat)
    ensures DigitsValue(NatToString(n)) == n
  {
    if n >= 10 {
      var s := NatToString(n);
      assert s[..|s| - 1] == NatToString(n / 10);
      DigitsValueOfNatToString(n / 10);
    }
  }

  lemma DigitsStrip(s: string)
    requires |s| > 0 && AllDigits(s)
    ensures Strip(s) == s
  {
    assert !IsSpace(s[0]) && !IsSpace(s[|s| - 1]);
    StripUnchanged(s);
  }

  /** A non-empty run of digits is a digit part worth its decimal value. */
  lemma DigitsArePart(s: string)
    requires |s| > 0 && AllDigits(s)
    ensures IsDigitPart(s) && GroupValue(s) == DigitsValue(s)
  {
    DigitsAreRun(s);
    DropUnderscoresOfDigits(s);
  }

  lemma {:induction false} DigitsAreRun(s: string)
    requires |s| > 0 && AllDigits(s)
    ensures DigitRun(s)
  {
    if |s| > 1 {
      DigitsAreRun(s[1..]);
    }
  }

  /** `int(str(n)) == n`. */
  lemma ParseIntOfNatToString(n: nat)
    ensures ParseInt(NatToString(n)) == Some(n)
  {
    var s := NatToString(n);
    DigitsStrip(s);
    DigitsArePart(s);
    DigitsValueOfNatToString(n);
  }

  /** `float(str(n)) == n`. */
  lemma ParseFloatOfNatToString(n: nat)
    ensures ParseFloat(NatToString(n)) == Some(Finite(n as real))
  {
    ParseIntOfNatToString(n);
    IntStringIsFloatString(NatToString(n));
  }

  lemma {:induction false} DropUnderscoresAppend(a: string, b: string)
    ensures DropUnderscores(a + b) == DropUnderscores(a) + DropUnderscores(b)
  {
    if a != [] {
      assert (a + b)[0] == a[0];
      assert (a + b)[1..] == a[1..] + b;
      DropUnderscoresAppend(a[1..], b);
    } else {
      assert a + b == b;
    }
  }

  lemma UnderscoredIsPart(x: string, y: string)
    requires |x| > 0 && AllDigits(x) && |y| > 0 && AllDigits(y)
    ensures IsDigitPart(x + "_" + y)
  {
    var s := x + "_" + y;
    forall i | 0 <= i < |s| ensures IsDigit(s[i]) || s[i] == '_' {
      if i < |x| { assert s[i] == x[i]; }
      else if i > |x| { assert s[i] == y[i - |x| - 1]; }
    }
    UnderscoredRun(x, y);
  }

  lemma {:induction false} UnderscoredRun(x: string, y: string)
    requires |x| > 0 && AllDigits(x) && |y| > 0 && AllDigits(y)
    ensures DigitRun(x + "_" + y)
  {
    var s := x + "_" + y;
    assert s[0] == x[0];
    if |x| == 1 {
      assert s[1] == '_' && s[2..] == y;
      DigitsAreRun(y);
    } else {
      assert s[1..] == x[1..] + "_" + y;
      UnderscoredRun(x[1..], y);
    }
  }

  lemma UnderscoredDrop(x: string, y: string)
    requires AllDigits(x) && AllDigits(y)
    ensures DropUnderscores(x + "_" + y) == x + y
  {
    DropUnderscoresAppend(x + "_", y);
    DropUnderscoresAppend(x, "_");
    assert DropUnderscores("_") == [] by { assert "_"[1..] == []; }
    DropUnderscoresOfDigits(x);
    DropUnderscoresOfDigits(y);
    assert DropUnderscores(x + "_") == x;
  }

  /** An underscore between two runs of digits changes nothing: `int("1_470") == int("1470")`. */
  lemma UnderscoreBetweenDigits(x: string, y: string)
    requires |x| > 0 && AllDigits(x) && |y| > 0 && AllDigits(y)
    ensures ParseInt(x + "_" + y).Some?
    ensures ParseInt(x + "_" + y) == ParseInt(x + y)
  {
    var s, t := x + "_" + y, x + y;
    assert !IsSpace(s[0]) && !IsSpace(s[|s| - 1]) && SplitSign(s) == (false, s) by {
      assert s[0] == x[0] && s[|s| - 1] == y[|y| - 1];
    }
    StripUnchanged(s);
    assert AllDigits(t) by {
      forall i | 0 <= i < |t| ensures IsDigit(t[i]) { if i >= |x| { assert t[i] == y[i - |x|]; } }
    }
    DigitsStrip(t);
    assert SplitSign(t) == (false, t) by { assert IsDigit(t[0]); }
    UnderscoredIsPart(x, y);
    UnderscoredDrop(x, y);
    DigitsArePart(t);
  }

  /** Without sign or blanks, `float(s)` is the decimal literal `s` spells. */
  lemma PlainFloat(s: string)
    requires |s| > 0 && IsDigit(s[0]) && IsDigit(s[|s| - 1])
    requires ParseDecimal(s).Some?
    ensures ParseFloat(s) == Some(Finite(ParseDecimal(s).value))
  {
    StripUnchanged(s);
    assert SplitSign(s) == (false, s);
    NotSpecialName(s);
  }

  /** The exponent of `a + "e" + b`, with no `e` or `E` in `a`, starts after `a`. */
  lemma ExponentAtJoin(a: string, b: string)
    requires 'e' !in a && 'E' !in a
    ensures ExponentAt(a + "e" + b) == |a|
  {
    var s := a + "e" + b;
    assert s[|a|] == 'e';
    assert forall i :: 0 <= i < |a| ==> s[i] == a[i];
  }

  lemma ExponentOfDigits(sk: string)
    requires |sk| > 0 && AllDigits(sk)
    ensures ParseExponent(sk) == Some(DigitsValue(sk) as int)
  {
    DigitsArePart(sk);
    assert SplitSign(sk) == (false, sk) by { assert IsDigit(sk[0]); }
  }

  lemma DecimalWithExponent(sm: string, sk: string)
    requires |sm| > 0 && AllDigits(sm) && |sk| > 0 && AllDigits(sk)
    ensures ParseDecimal(sm + "e" + sk) == Some(Scale(DigitsValue(sm) as real, DigitsValue(sk)))
  {
    var s := sm + "e" + sk;
    assert 'e' !in sm && 'E' !in sm by {
      forall i | 0 <= i < |sm| ensures sm[i] != 'e' && sm[i] != 'E' { }
    }
    ExponentAtJoin(sm, sk);
    assert s[..|sm|] == sm && s[|sm| + 1..] == sk;
    DigitsArePart(sm);
    MantissaOfDigitPart(sm);
    ExponentOfDigits(sk);
  }

  lemma DigitsJoinedByE(sm: string, sk: string)
    requires |sm| > 0 && AllDigits(sm) && |sk| > 0 && AllDigits(sk)
    ensures var s := sm + "e" + sk; IsDigit(s[0]) && IsDigit(s[|s| - 1])
  {
    var s := sm + "e" + sk;
    assert s[0] == sm[0] && s[|s| - 1] == sk[|sk| - 1];
  }

  lemma {:induction false} ScaleNat(m: nat, k: nat)
    ensures Scale(m as real, k) == (m * Pow10(k)) as real
  {
    if k > 0 {
      ScaleNat(m, k - 1);
      assert m * Pow10(k) == 10 * (m * Pow10(k - 1));
    }
  }

  /** `float("<m>e<k>") == m * 10 ** k`. */
  lemma ExponentForm(m: nat, k: nat)
    ensures ParseFloat(NatToString(m) + "e" + NatToString(k)) == Some(Finite((m * Pow10(k)) as real))
  {
    var sm, sk := NatToString(m), NatToString(k);
    DecimalWithExponent(sm, sk);
    DigitsValueOfNatToString(m);
    DigitsValueOfNatToString(k);
    ScaleNat(m, k);
    DigitsJoinedByE(sm, sk);
    PlainFloat(sm + "e" + sk);
  }
}
