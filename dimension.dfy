/**
 * `GameMonitor.parse_dimension` (identical in both builds): turns one value
 * of the OCR-region dictionary into pixels, reading a number in `[0, 1]` or a
 * string ending in `%` as a share of the total and anything else as pixels.
 */
module Dimension {
  import opened Wrappers
  import opened Text
  import opened Numbers

  /** A value of the region dictionary: missing or `None`, a Python number, or a string. */
  datatype DimValue = Absent | Number(v: real) | Str(s: string)

  /**
   * `None`, an `int` number of pixels, or an exception that escapes: the
   * `ValueError` of a malformed percentage, or `int()` of an infinity or NaN
   * outside the `except ValueError` that covers the plain strings.
   */
  datatype DimResult = NoValue | Pixels(n: int) | Raises

  /** A number in `[0, 1]` is a fraction of `total`; any other number is a pixel count. */
  function FromNumber(v: real, total: int): int {
    if 0.0 <= v <= 1.0 then Trunc(v * total as real) else Trunc(v)
  }

  /** `int(float(p) / 100 * total)`: `p` percent of `total`. */
  function FromPercent(p: real, total: int): int {
    Trunc(p / 100.0 * total as real)
  }

  function ParseDimension(value: DimValue, total: int): (r: DimResult)
    ensures r.Raises? ==> value.Str? && (EndsWith(Strip(value.s), "%") || ParseFloat(Strip(value.s)) == Some(Infinity(true)) || ParseFloat(Strip(value.s)) == Some(Infinity(false)))
    ensures value.Absent? <==> r.NoValue? && !value.Str?
    ensures value.Number? ==> r.Pixels?
  {
    match value
    case Absent => NoValue
    case Number(v) => Pixels(FromNumber(v, total))
    case Str(s) =>
      var t := Strip(s);
      if EndsWith(t, "%") then
        match ParseFloat(t[..|t| - 1])
        case Some(Finite(p)) => Pixels(FromPercent(p, total))
        case _ => Raises
      else
        match ParseFloat(t)
        case None => NoValue
        case Some(Finite(num)) => Pixels(FromNumber(num, total))
        case Some(NaN) => NoValue
        case Some(Infinity(_)) => Raises
  }

  /** A fraction never exceeds the total it is taken of. */
  lemma FractionWithinTotal(v: real, total: int)
    requires 0.0 <= v <= 1.0 && total >= 0
    ensures ParseDimension(Number(v), total).Pixels?
    ensures 0 <= ParseDimension(Number(v), total).n <= total
  {
    FractionBound(v, total as real);
  }

  lemma FractionBound(v: real, t: real)
    requires 0.0 <= v <= 1.0 && t >= 0.0
    ensures 0.0 <= v * t <= t
  {
    assert t - v * t == (1.0 - v) * t;
  }

  /** A string that `float()` accepts and that has no `%` behaves exactly like the number it spells. */
  lemma NumericString(s: string, total: int)
    requires !EndsWith(Strip(s), "%") && ParseFloat(Strip(s)).Some? && ParseFloat(Strip(s)).value.Finite?
    ensures ParseDimension(Str(s), total) == ParseDimension(Number(ParseFloat(Strip(s)).value.v), total)
  {
  }

  lemma DigitsStringStrip(t: string, suffix: string)
    requires |t| > 0 && AllDigits(t)
    requires suffix == [] || suffix == "%"
    ensures Strip(t + suffix) == t + suffix
  {
    var u := t + suffix;
    assert !IsSpace(u[0]) && !IsSpace(u[|u| - 1]);
    StripUnchanged(u);
  }

  lemma TruncOfInt(k: int)
    ensures Trunc(k as real) == k
  {
    if k < 0 {
      assert -(k as real) == (-k) as real;
    }
  }

  /**
   * The string of a whole number `n` gives `n` pixels, except `"1"`, which is
   * read as the fraction 1 and so gives the whole `total`.
   */
  lemma WholeNumberString(n: nat, total: int)
    ensures n != 1 ==> ParseDimension(Str(NatToString(n)), total) == Pixels(n)
    ensures n == 1 ==> ParseDimension(Str(NatToString(n)), total) == Pixels(total)
  {
    var t := NatToString(n);
    DigitsStringStrip(t, []);
    assert t + [] == t;
    assert !EndsWith(t, "%") by { assert IsDigit(t[|t| - 1]); }
    ParseFloatOfNatToString(n);
    assert ParseDimension(Str(t), total) == Pixels(FromNumber(n as real, total));
    if n == 0 {
      assert 0.0 * total as real == 0.0;
      TruncOfInt(0);
    } else if n == 1 {
      assert 1.0 * total as real == total as real;
      TruncOfInt(total);
    } else {
      TruncOfInt(n);
    }
  }

  lemma PercentOfFraction(p: real, total: int)
    requires 0.0 <= p <= 100.0
    ensures FromPercent(p, total) == FromNumber(p / 100.0, total)
  {
  }

  /** `"p%"` with `p <= 100` is the same share of the total as the fraction `p / 100`. */
  lemma PercentIsFraction(p: nat, total: int)
    requires p <= 100
    ensures ParseDimension(Str(NatToString(p) + "%"), total) == ParseDimension(Number(p as real / 100.0), total)
  {
    var t := NatToString(p);
    DigitsStringStrip(t, "%");
    var u := t + "%";
    assert EndsWith(u, "%");
    assert u[..|u| - 1] == t;
    ParseFloatOfNatToString(p);
    assert ParseDimension(Str(u), total) == Pixels(FromPercent(p as real, total));
    PercentOfFraction(p as real, total);
  }

  /**
   * Above 100 the two readings part: `"p%"` still scales the total, while the
   * number `p / 100` is more than 1 and so is read as a pixel count.
   */
  lemma PercentAboveHundred(p: nat, total: int)
    requires p > 100 && total >= 2
    ensures ParseDimension(Str(NatToString(p) + "%"), total) != ParseDimension(Number(p as real / 100.0), total)
  {
    var t := NatToString(p);
    DigitsStringStrip(t, "%");
    var u := t + "%";
    assert EndsWith(u, "%");
    assert u[..|u| - 1] == t;
    ParseFloatOfNatToString(p);
    assert ParseDimension(Str(u), total) == Pixels(FromPercent(p as real, total));
    ScaledPastOne(p as real / 100.0, total);
  }

  lemma ScaledPastOne(x: real, total: int)
    requires x > 1.0 && total >= 2
    ensures FromPercent(x * 100.0, total) > FromNumber(x, total)
  {
    var f := Trunc(x);
    assert x * 100.0 / 100.0 == x;
    assert x * total as real >= 2.0 * x;
    assert Trunc(x * total as real) as real > x * total as real - 1.0;
  }

  /**
   * A `%` string whose number part `float()` rejects raises: that conversion
   * sits outside the `try` that turns other bad strings into `None`.
   */
  lemma MalformedPercentRaises(t: string, total: int)
    requires t == [] || !IsSpace(t[0])
    requires ParseFloat(t).None?
    ensures ParseDimension(Str(t + "%"), total) == Raises
  {
    var u := t + "%";
    assert !IsSpace(u[0]) && !IsSpace(u[|u| - 1]);
    StripUnchanged(u);
    assert EndsWith(u, "%");
    assert u[..|u| - 1] == t;
    assert ParseFloat(u[..|u| - 1]).None?;
  }

  /** A string without `%` that `float()` rejects gives `None`. */
  lemma NonNumericString(t: string, total: int)
    requires t == [] || (!IsSpace(t[0]) && !IsSpace(t[|t| - 1]))
    requires !EndsWith(t, "%") && ParseFloat(t).None?
    ensures ParseDimension(Str(t), total) == NoValue
  {
    StripUnchanged(t);
  }

  /**
   * A plain string `float()` reads as NaN gives `None` (`int(nan)` raises the
   * `ValueError` the `except` catches); one it reads as an infinity raises
   * (`int(inf)` raises `OverflowError`, which escapes).
   */
  lemma NonFiniteString(s: string, total: int)
    requires ParseFloat(Strip(s)).Some? && !ParseFloat(Strip(s)).value.Finite?
    ensures ParseFloat(Strip(s)).value.NaN? ==> ParseDimension(Str(s), total) == NoValue
    ensures ParseFloat(Strip(s)).value.Infinity? ==> ParseDimension(Str(s), total) == Raises
  {
    var t := Strip(s);
    assert !EndsWith(t, "%") by {
      if EndsWith(t, "%") { PercentNotFloat(t); }
    }
  }

  /** `float()` accepts no string ending in `%`. */
  lemma PercentNotFloat(t: string)
    requires EndsWith(t, "%")
    ensures ParseFloat(t).None?
  {
    StripKeepsLast(t);
    var body := SplitSign(Strip(t)).1;
    assert |body| > 0 && body[|body| - 1] == '%';
    PercentNotDecimal(body);
  }

  lemma PercentNotDecimal(body: string)
    requires |body| > 0 && body[|body| - 1] == '%'
    ensures ParseDecimal(body).None?
    ensures !SameIgnoringCase(body, "inf") && !SameIgnoringCase(body, "infinity") && !SameIgnoringCase(body, "nan")
  {
    PercentNotSpecialName(body);
    if ParseDecimal(body).Some? {
      DecimalEnd(body);
    }
  }

  /** Every percentage `float()` reads as an infinity or NaN raises, whatever the total. */
  lemma NonFinitePercentRaises(s: string, total: int)
    requires EndsWith(Strip(s), "%")
    requires var t := Strip(s); ParseFloat(t[..|t| - 1]).Some? && !ParseFloat(t[..|t| - 1]).value.Finite?
    ensures ParseDimension(Str(s), total) == Raises
  {
  }
}
