/**
 * The pixel-pattern rule shared by both builds and by the step-5 tester:
 * a pattern is a list of samples (a coordinate and an expected `#RRGGBB`
 * colour); a sample matches when the summed absolute channel difference is
 * at most `3 * tolerance`; the pattern matches when the fraction of
 * matching samples reaches the configured ratio.
 *
 * A screenshot is a `Frame`: the colour at each coordinate, or `None` when
 * reading that pixel raises (outside the image, a truncated file, ...).
 */
module Pixels {
  import opened Wrappers
  import opened Numbers
  import opened HexColor
  import opened Geometry

  type Frame = Point -> Option<Rgb>

  /** One entry of a pattern table: `{"coord": (x, y), "color": "#RRGGBB"}`. */
  datatype Sample = Sample(coord: Point, color: string)

  /** A sample whose colour has been parsed. */
  datatype Expected = Expected(coord: Point, rgb: Rgb)

  function Abs(x: int): (r: nat)
    ensures r == x || r == -x
  {
    if x < 0 then -x else x
  }

  /** `abs(dr) + abs(dg) + abs(db)`. */
  function ColorDiff(actual: Rgb, expected: Rgb): (d: nat)
    ensures d == 0 <==> actual == expected
    ensures d <= 3 * 255
  {
    Abs(actual.r - expected.r) + Abs(actual.g - expected.g) + Abs(actual.b - expected.b)
  }

  /** `diff <= tolerance * 3`. */
  predicate PixelMatches(actual: Rgb, expected: Rgb, tolerance: int) {
    ColorDiff(actual, expected) <= tolerance * 3
  }

  /** Every channel within `tolerance` is enough for a match; a negative tolerance matches nothing. */
  lemma ChannelwiseTolerance(actual: Rgb, expected: Rgb, tolerance: int)
    ensures (Abs(actual.r - expected.r) <= tolerance && Abs(actual.g - expected.g) <= tolerance
             && Abs(actual.b - expected.b) <= tolerance) ==> PixelMatches(actual, expected, tolerance)
    ensures tolerance < 0 ==> !PixelMatches(actual, expected, tolerance)
    ensures tolerance >= 0 ==> PixelMatches(expected, expected, tolerance)
  {
  }

  /** Parses every sample's colour, as the list comprehension does before any pixel is read; `None` when one raises. */
  function ParseSamples(samples: seq<Sample>): (r: Option<seq<Expected>>)
    ensures r.Some? ==> |r.value| == |samples|
    ensures r.Some? ==> forall i :: 0 <= i < |samples| ==>
      r.value[i].coord == samples[i].coord && ParseHexColor(samples[i].color) == Some(r.value[i].rgb)
    ensures r.None? <==> exists i :: 0 <= i < |samples| && ParseHexColor(samples[i].color).None?
  {
    Collect(samples, seq(|samples|, i requires 0 <= i < |samples| => ParseHexColor(samples[i].color)))
  }

  /** Pairs each sample's position with its parsed colour; `None` as soon as one colour is missing. */
  function Collect(samples: seq<Sample>, colors: seq<Option<Rgb>>): (r: Option<seq<Expected>>)
    requires |colors| == |samples|
    ensures r.Some? ==> |r.value| == |samples|
    ensures r.Some? ==> forall i :: 0 <= i < |samples| ==>
      r.value[i].coord == samples[i].coord && colors[i] == Some(r.value[i].rgb)
    ensures r.None? <==> exists i :: 0 <= i < |samples| && colors[i].None?
  {
    if samples == [] then Some([])
    else
      match colors[0]
      case None => None
      case Some(c) =>
        match Collect(samples[1..], colors[1..])
        case None =>
          ghost var i :| 0 <= i < |colors[1..]| && colors[1..][i].None?;
          assert colors[i + 1].None?;
          None
        case Some(rest) => Some([Expected(samples[0].coord, c)] + rest)
  }

  /** Whether one parsed sample matches the frame; a pixel that cannot be read does not. */
  predicate Hit(frame: Frame, e: Expected, tolerance: int) {
    match frame(e.coord)
    case None => false
    case Some(actual) => PixelMatches(actual, e.rgb, tolerance)
  }

  function Hits(frame: Frame, expected: seq<Expected>, tolerance: int): (h: seq<bool>)
    ensures |h| == |expected|
    ensures forall i :: 0 <= i < |expected| ==> (h[i] <==> Hit(frame, expected[i], tolerance))
  {
    seq(|expected|, i requires 0 <= i < |expected| => Hit(frame, expected[i], tolerance))
  }

  /** The number of `true` entries. */
  function CountTrue(h: seq<bool>): (n: nat)
    ensures n <= |h|
  {
    if h == [] then 0 else CountTrue(h[..|h| - 1]) + (if h[|h| - 1] then 1 else 0)
  }

  /** All entries are counted exactly when all are `true`, none exactly when all are `false`. */
  lemma {:induction false} CountTrueExtremes(h: seq<bool>)
    ensures CountTrue(h) == |h| <==> forall i :: 0 <= i < |h| ==> h[i]
    ensures CountTrue(h) == 0 <==> forall i :: 0 <= i < |h| ==> !h[i]
  {
    if h != [] {
      var h' := h[..|h| - 1];
      CountTrueExtremes(h');
      assert forall i :: 0 <= i < |h'| ==> h'[i] == h[i];
    }
  }

  /** The number of `false` entries. */
  function Failed(h: seq<bool>): nat {
    |h| - CountTrue(h)
  }

  lemma {:induction false} CountTrueAppend(a: seq<bool>, b: seq<bool>)
    ensures CountTrue(a + b) == CountTrue(a) + CountTrue(b)
    decreases |b|
  {
    if b != [] {
      var b' := b[..|b| - 1];
      assert (a + b)[..|a + b| - 1] == a + b';
      CountTrueAppend(a, b');
    } else {
      assert a + b == a;
    }
  }

  lemma CountTruePrefix(h: seq<bool>, n: nat)
    requires n <= |h|
    ensures CountTrue(h[..n]) <= CountTrue(h) <= CountTrue(h[..n]) + (|h| - n)
  {
    assert h == h[..n] + h[n..];
    CountTrueAppend(h[..n], h[n..]);
  }

  /** `max_allowed_failures = total - int(total * pattern_match_ratio)`. */
  function MaxFailures(total: nat, ratio: real): int {
    total - Trunc(total as real * ratio)
  }

  /**
   * Where the early-stopping scan ends: the first index at whose top the
   * failures so far exceed `maxFail`, or the end of the pattern.
   */
  function StopIndex(h: seq<bool>, maxFail: int): (n: nat)
    ensures n <= |h|
    ensures forall j :: 0 <= j < n ==> Failed(h[..j]) <= maxFail
    ensures n < |h| ==> Failed(h[..n]) > maxFail
  {
    StopFrom(h, maxFail, 0)
  }

  function StopFrom(h: seq<bool>, maxFail: int, i: nat): (n: nat)
    requires i <= |h|
    requires forall j :: 0 <= j < i ==> Failed(h[..j]) <= maxFail
    ensures i <= n <= |h|
    ensures forall j :: 0 <= j < n ==> Failed(h[..j]) <= maxFail
    ensures n < |h| ==> Failed(h[..n]) > maxFail
    decreases |h| - i
  {
    if i == |h| then i
    else if Failed(h[..i]) > maxFail then i
    else StopFrom(h, maxFail, i + 1)
  }

  /** `matched_pixels / total_pixels >= pattern_match_ratio`. */
  predicate IsMatch(matched: nat, total: nat, ratio: real)
    requires total > 0
  {
    matched as real / total as real >= ratio
  }

  /** The reported match ratio lies between 0 and 1. */
  function MatchRatio(matched: nat, total: nat): (r: real)
    requires 0 < total && matched <= total
    ensures 0.0 <= r <= 1.0
  {
    matched as real / total as real
  }

  lemma FractionBelow(m: nat, t: nat, ratio: real)
    requires t > 0 && (m as real) < t as real * ratio
    ensures m as real / t as real < ratio
  {
    var q := m as real / t as real;
    assert q * t as real == m as real;
    if q >= ratio {
      assert q * t as real >= ratio * t as real;
    }
  }

  /**
   * The `_internal` scan: samples in order, stopping at the top of an
   * iteration once the failures exceed `maxFail`; a read error or a
   * colour too far off is a failure.
   */
  method ScanEarlyStop(frame: Frame, expected: seq<Expected>, tolerance: int, maxFail: int)
    returns (matched: nat, failed: nat)
    ensures var h := Hits(frame, expected, tolerance);
      var n := StopIndex(h, maxFail);
      matched == CountTrue(h[..n]) && failed == Failed(h[..n])
    ensures matched + failed <= |expected|
  {
    ghost var h := Hits(frame, expected, tolerance);
    matched, failed := 0, 0;
    var i := 0;
    while i < |expected| && failed <= maxFail
      invariant 0 <= i <= |expected|
      invariant matched == CountTrue(h[..i]) && failed == Failed(h[..i])
      invariant NoStopBefore(h, maxFail, i)
    {
      CountTrueStep(h, i);
      NoStopExtend(h, maxFail, i);
      assert h[i] == Hit(frame, expected[i], tolerance);
      if Hit(frame, expected[i], tolerance) {
        matched := matched + 1;
      } else {
        failed := failed + 1;
      }
      i := i + 1;
    }
    StopIndexUnique(h, maxFail, i);
  }

  /** No prefix shorter than `i` has more than `maxFail` failures. */
  predicate NoStopBefore(h: seq<bool>, maxFail: int, i: nat) {
    i <= |h| && forall j :: 0 <= j < i ==> Failed(h[..j]) <= maxFail
  }

  lemma NoStopExtend(h: seq<bool>, maxFail: int, i: nat)
    requires i < |h| && NoStopBefore(h, maxFail, i) && Failed(h[..i]) <= maxFail
    ensures NoStopBefore(h, maxFail, i + 1)
  {
  }

  lemma CountTrueStep(h: seq<bool>, i: nat)
    requires i < |h|
    ensures CountTrue(h[..i + 1]) == CountTrue(h[..i]) + (if h[i] then 1 else 0)
  {
    assert h[..i + 1][..i] == h[..i];
  }

  /** The characterisation of `StopIndex` fixes it. */
  lemma StopIndexUnique(h: seq<bool>, maxFail: int, i: nat)
    requires i <= |h|
    requires NoStopBefore(h, maxFail, i)
    requires i < |h| ==> Failed(h[..i]) > maxFail
    ensures StopIndex(h, maxFail) == i
  {

  }

  /**
   * The early stop never changes the verdict: when the scan stops early
   * neither the partial count nor a full scan reaches the ratio, and when
   * it does not stop early it has counted everything.
   */
  lemma EarlyStopVerdict(h: seq<bool>, ratio: real)
    requires |h| > 0
    ensures var n := StopIndex(h, MaxFailures(|h|, ratio));
      IsMatch(CountTrue(h[..n]), |h|, ratio) <==> IsMatch(CountTrue(h), |h|, ratio)
    ensures var n := StopIndex(h, MaxFailures(|h|, ratio));
      n < |h| ==> !IsMatch(CountTrue(h), |h|, ratio)
  {
    var t := |h|;
    var n := StopIndex(h, MaxFailures(t, ratio));
    if n < t {
      StoppedEarlyFails(h, n, ratio);
    } else {
      assert h[..n] == h;
    }
  }

  lemma StoppedEarlyFails(h: seq<bool>, n: nat, ratio: real)
    requires n <= |h| && 0 < |h|
    requires Failed(h[..n]) > MaxFailures(|h|, ratio)
    ensures !IsMatch(CountTrue(h[..n]), |h|, ratio) && !IsMatch(CountTrue(h), |h|, ratio)
  {
    var t, f := |h|, Failed(h[..n]);
    var m, k := CountTrue(h), CountTrue(h[..n]);
    CountTruePrefix(h, n);
    BelowRatio(m, f, t, ratio);
    BelowRatio(k, f, t, ratio);
    FractionBelow(m, t, ratio);
    FractionBelow(k, t, ratio);
  }

  /** Once the failures exceed `total - int(total * ratio)`, the matches left are fewer than `total * ratio`. */
  lemma BelowRatio(matched: nat, failed: nat, total: nat, ratio: real)
    requires matched + failed <= total && failed > MaxFailures(total, ratio)
    ensures matched as real < total as real * ratio
  {
    var x := total as real * ratio;
    assert matched < Trunc(x);
  }

  /** A ratio of at most 1 needs at least one failure before anything is cut short. */
  lemma NoStopWithoutFailure(h: seq<bool>, ratio: real)
    requires ratio <= 1.0 && forall i :: 0 <= i < |h| ==> h[i]
    ensures StopIndex(h, MaxFailures(|h|, ratio)) == |h|
  {
    var n := StopIndex(h, MaxFailures(|h|, ratio));
    assert forall i :: 0 <= i < n ==> h[..n][i];
    CountTrueExtremes(h[..n]);
    TruncAtMost(|h|, ratio);
  }

  lemma TruncAtMost(t: nat, ratio: real)
    requires ratio <= 1.0
    ensures Trunc(t as real * ratio) <= t
  {
    assert t as real * ratio <= t as real;
  }

  /** The `.app` rule for one raw sample: a read error or a malformed colour is simply not a match. */
  predicate AppHit(frame: Frame, s: Sample, tolerance: int) {
    match ParseHexColor(s.color)
    case None => false
    case Some(e) => Hit(frame, Expected(s.coord, e), tolerance)
  }

  function AppHits(frame: Frame, samples: seq<Sample>, tolerance: int): (h: seq<bool>)
    ensures |h| == |samples|
    ensures forall i :: 0 <= i < |samples| ==> (h[i] <==> AppHit(frame, samples[i], tolerance))
  {
    seq(|samples|, i requires 0 <= i < |samples| => AppHit(frame, samples[i], tolerance))
  }

  /** The `.app` scan: every sample, no early stop; returns the number of matches. */
  method ScanFull(frame: Frame, samples: seq<Sample>, tolerance: int) returns (matched: nat)
    ensures matched == CountTrue(AppHits(frame, samples, tolerance))
    ensures matched <= |samples|
  {
    ghost var h := AppHits(frame, samples, tolerance);
    matched := 0;
    for i := 0 to |samples|
      invariant matched == CountTrue(h[..i])
    {
      CountTrueStep(h, i);
      if AppHit(frame, samples[i], tolerance) {
        matched := matched + 1;
      }
    }
    assert h[..|samples|] == h;
  }

  /** When every colour parses, the two builds judge each sample alike. */
  lemma AppHitsAgree(frame: Frame, samples: seq<Sample>, tolerance: int)
    requires ParseSamples(samples).Some?
    ensures AppHits(frame, samples, tolerance) == Hits(frame, ParseSamples(samples).value, tolerance)
  {
  }

  /**
   * The two builds reach the same verdict on a non-empty pattern whose
   * colours all parse: the `_internal` early stop and the `.app` full scan agree.
   */
  lemma BuildsAgree(frame: Frame, samples: seq<Sample>, tolerance: int, ratio: real)
    requires |samples| > 0 && ParseSamples(samples).Some?
    ensures var h := Hits(frame, ParseSamples(samples).value, tolerance);
      var n := StopIndex(h, MaxFailures(|h|, ratio));
      IsMatch(CountTrue(h[..n]), |samples|, ratio) <==> IsMatch(CountTrue(AppHits(frame, samples, tolerance)), |samples|, ratio)
  {
    AppHitsAgree(frame, samples, tolerance);
    EarlyStopVerdict(Hits(frame, ParseSamples(samples).value, tolerance), ratio);
  }
}
