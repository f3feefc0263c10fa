/**
 * The step-5 test tool: `Step5Tester.check_pixel_pattern`, which checks a
 * pattern against one screenshot and reports a detail record per pixel,
 * and the gating of `run_test` (device listed, screenshot taken, then the
 * 10-second auto-click only on a pass).
 */
module Step5Test {
  import opened Wrappers
  import opened Text
  import opened Geometry
  import opened HexColor
  import opened Pixels
  import AppSpec
  import Device

  /** One entry of the `details` list. */
  datatype Detail = Detail(coord: Point, expected: string, actual: string, diff: int, isMatch: bool)

  /** The `actual` the tool records for a pixel it could not judge. */
  const ErrorMark: string := "ERROR"

  /** The detail record for one pattern pixel. */
  function DetailFor(frame: Frame, s: Sample, tolerance: int): Detail {
    match (frame(s.coord), ParseHexColor(s.color))
    case (Some(actual), Some(expected)) =>
      var diff := ColorDiff(actual, expected);
      Detail(s.coord, s.color, FormatHex(actual), diff, diff <= tolerance * 3)
    case _ => Detail(s.coord, s.color, ErrorMark, 999, false)
  }

  /**
   * What a detail record says: the pixel's coordinate and expected colour;
   * when reading the pixel or parsing the colour raises, `"ERROR"`, a
   * difference of 999 and no match; otherwise the pixel's colour in the
   * form the pattern tables use, the channel difference, and a match
   * exactly when the `.app` monitor would count one.
   */
  lemma DetailRecord(frame: Frame, s: Sample, tolerance: int)
    ensures var d := DetailFor(frame, s, tolerance);
      && d.coord == s.coord && d.expected == s.color
      && (d.isMatch <==> AppHit(frame, s, tolerance))
      && (d.actual == ErrorMark <==> frame(s.coord).None? || ParseHexColor(s.color).None?)
      && (d.actual == ErrorMark ==> d.diff == 999 && !d.isMatch)
      && (d.actual != ErrorMark ==>
            && ParseHexColor(d.actual) == frame(s.coord)
            && 0 <= d.diff <= 765
            && (d.isMatch <==> d.diff <= 3 * tolerance))
  {
    if frame(s.coord).Some? {
      ParseFormatHex(frame(s.coord).value);
    }
  }

  /** The `match` flags of a details list. */
  function Matches(details: seq<Detail>): (m: seq<bool>)
    ensures |m| == |details| && forall i :: 0 <= i < |details| ==> m[i] == details[i].isMatch
  {
    seq(|details|, i requires 0 <= i < |details| => details[i].isMatch)
  }

  /** Appending a record adds one to the count of matches exactly when the record matches. */
  lemma CountMatchesAppend(details: seq<Detail>, d: Detail)
    ensures CountTrue(Matches(details + [d])) == CountTrue(Matches(details)) + (if d.isMatch then 1 else 0)
  {
    var m := Matches(details + [d]);
    assert m[..|m| - 1] == Matches(details);
  }

  /** `(is_match, matched_pixels, total_pixels, details)`, or the `ZeroDivisionError` of an empty pattern. */
  datatype TesterCheck =
    | TesterChecked(isPass: bool, matched: nat, total: nat, details: seq<Detail>)
    | TesterRaised

  /**
   * `check_pixel_pattern` on the image `img` (`None`: no screenshot). The
   * details list has one record per pattern pixel, in order; `matched` is
   * the number of records that match, and the pattern passes when their
   * fraction reaches `ratio`.
   */
  function TesterSpec(img: Option<Frame>, pattern: seq<Sample>, tolerance: int, ratio: real): (r: TesterCheck)
    ensures img.None? ==> r == TesterChecked(false, 0, 0, [])
    ensures r.TesterRaised? <==> img.Some? && |pattern| == 0
    ensures img.Some? && r.TesterChecked? ==>
      && r.total == |pattern| == |r.details|
      && (forall i :: 0 <= i < |pattern| ==> r.details[i] == DetailFor(img.value, pattern[i], tolerance))
      && r.matched == CountTrue(Matches(r.details))
      && (r.isPass <==> r.matched as real / r.total as real >= ratio)
  {
    match img
    case None => TesterChecked(false, 0, 0, [])
    case Some(frame) =>
      if |pattern| == 0 then TesterRaised
      else
        var details := seq(|pattern|, i requires 0 <= i < |pattern| => DetailFor(frame, pattern[i], tolerance));
        var matched := CountTrue(Matches(details));
        TesterChecked(IsMatch(matched, |pattern|, ratio), matched, |pattern|, details)
  }

  /** The details of the first `i` pattern pixels, one record per pixel, in order. */
  predicate DetailsUpTo(frame: Frame, pattern: seq<Sample>, tolerance: int, details: seq<Detail>, i: nat) {
    && i <= |pattern| && |details| == i
    && forall j :: 0 <= j < i ==> details[j] == DetailFor(frame, pattern[j], tolerance)
  }

  lemma DetailsExtend(frame: Frame, pattern: seq<Sample>, tolerance: int, details: seq<Detail>, i: nat, d: Detail)
    requires DetailsUpTo(frame, pattern, tolerance, details, i) && i < |pattern|
    requires d == DetailFor(frame, pattern[i], tolerance)
    ensures DetailsUpTo(frame, pattern, tolerance, details + [d], i + 1)
  {
    var ds := details + [d];
    forall j | 0 <= j < i + 1
      ensures ds[j] == DetailFor(frame, pattern[j], tolerance)
    {
      if j < i {
        assert ds[j] == details[j];
      }
    }
  }

  /** A details list built pixel by pixel is the one the check reports. */
  lemma TesterSpecOfDetails(frame: Frame, pattern: seq<Sample>, tolerance: int, ratio: real, details: seq<Detail>)
    requires |pattern| > 0 && DetailsUpTo(frame, pattern, tolerance, details, |pattern|)
    ensures var matched := CountTrue(Matches(details));
      TesterSpec(Some(frame), pattern, tolerance, ratio)
        == TesterChecked(matched as real / |pattern| as real >= ratio, matched, |pattern|, details)
  {
    var spec := seq(|pattern|, i requires 0 <= i < |pattern| => DetailFor(frame, pattern[i], tolerance));
    assert spec == details;
  }

  /**
   * The tool judges a pattern as the `.app` monitor does: the same
   * samples, tolerance and ratio give the same verdict.
   */
  lemma TesterAgreesWithApp(env: Device.Env, frame: Frame, name: string)
    requires name in env.patterns && |env.patterns[name]| > 0
    ensures var c := TesterSpec(Some(frame), env.patterns[name], env.tolerance, env.ratio);
      && c.matched == CountTrue(AppHits(frame, env.patterns[name], env.tolerance))
      && c.isPass == AppSpec.AppFrameCheck(env, frame, name).isMatch
  {
    var pattern := env.patterns[name];
    var c := TesterSpec(Some(frame), pattern, env.tolerance, env.ratio);
    forall i | 0 <= i < |pattern|
      ensures Matches(c.details)[i] == AppHits(frame, pattern, env.tolerance)[i]
    {
      DetailRecord(frame, pattern[i], env.tolerance);
    }
    assert Matches(c.details) == AppHits(frame, pattern, env.tolerance);
  }

  /** What `run_test` returns, or the exception escaping from the check. */
  datatype TestRun = Returned(isPass: bool) | CheckRaised

  class Step5Tester {
    const pattern: seq<Sample>
    const clickCoords: Point
    const tolerance: int
    const matchRatio: real

    var cachedScreenshot: Option<Frame>
    /** The taps sent to the device. */
    var taps: seq<Point>

    constructor(pattern: seq<Sample>, clickCoords: Point, tolerance: int, matchRatio: real)
      ensures this.pattern == pattern && this.clickCoords == clickCoords
      ensures this.tolerance == tolerance && this.matchRatio == matchRatio
      ensures cachedScreenshot == None && taps == []
    {
      this.pattern := pattern;
      this.clickCoords := clickCoords;
      this.tolerance := tolerance;
      this.matchRatio := matchRatio;
      cachedScreenshot := None;
      taps := [];
    }

    /** The body of the pixel loop: one detail record. */
    method JudgePixel(frame: Frame, s: Sample) returns (d: Detail)
      ensures d == DetailFor(frame, s, tolerance)
    {
      var actual := frame(s.coord);
      var expected := ParseHexColor(s.color);
      if actual.None? || expected.None? {
        return Detail(s.coord, s.color, ErrorMark, 999, false);
      }
      var diff := ColorDiff(actual.value, expected.value);
      var isMatch := diff <= tolerance * 3;
      return Detail(s.coord, s.color, FormatHex(actual.value), diff, isMatch);
    }

    /** `check_pixel_pattern(img)`: the given image, or the cached screenshot when none is given. */
    method CheckPixelPattern(img: Option<Frame>) returns (r: TesterCheck)
      ensures r == TesterSpec(if img.Some? then img else cachedScreenshot, pattern, tolerance, matchRatio)
    {
      var shot := if img.Some? then img else cachedScreenshot;
      if shot.None? {
        return TesterChecked(false, 0, 0, []);
      }
      var frame := shot.value;
      var matched := 0;
      var details := [];
      for i := 0 to |pattern|
        invariant DetailsUpTo(frame, pattern, tolerance, details, i)
        invariant matched == CountTrue(Matches(details))
      {
        var d := JudgePixel(frame, pattern[i]);
        if d.isMatch {
          matched := matched + 1;
        }
        CountMatchesAppend(details, d);
        DetailsExtend(frame, pattern, tolerance, details, i, d);
        details := details + [d];
      }
      var total := |pattern|;
      if total == 0 {
        return TesterRaised;
      }
      var ratio := matched as real / total as real;
      TesterSpecOfDetails(frame, pattern, tolerance, matchRatio, details);
      return TesterChecked(ratio >= matchRatio, matched, total, details);
    }

    /** `auto_click_10s`: `clicks` taps (as many as the 10 seconds allow) at the click coordinates. */
    method AutoClick(clicks: nat)
      modifies this
      ensures taps == old(taps) + Device.Repeat(clickCoords, clicks)
      ensures cachedScreenshot == old(cachedScreenshot)
    {
      for i := 0 to clicks
        invariant taps == old(taps) + Device.Repeat(clickCoords, i)
        invariant cachedScreenshot == old(cachedScreenshot)
      {
        taps := taps + [clickCoords];
        assert Device.Repeat(clickCoords, i) + [clickCoords] == Device.Repeat(clickCoords, i + 1);
      }
    }

    /**
     * `run_test`, given the `adb devices` output, the screenshot the capture
     * yields (`None` when it cannot be opened), whether to auto-click and how
     * many taps the 10 seconds allow.
     */
    method RunTest(devices: string, shot: Option<Frame>, autoClick: bool, clicks: nat) returns (r: TestRun)
      modifies this
      ensures !Device.DevicesListed(devices) ==> r == Returned(false) && cachedScreenshot == old(cachedScreenshot)
      ensures Device.DevicesListed(devices) && shot.None? ==> r == Returned(false) && cachedScreenshot == old(cachedScreenshot)
      ensures Device.DevicesListed(devices) && shot.Some? ==> cachedScreenshot == shot
      ensures var c := TesterSpec(shot, pattern, tolerance, matchRatio);
        && (r.CheckRaised? <==> Device.DevicesListed(devices) && c.TesterRaised?)
        && (r == Returned(true) <==> Device.DevicesListed(devices) && c.TesterChecked? && c.isPass)
      ensures var c := TesterSpec(shot, pattern, tolerance, matchRatio);
        taps == old(taps) + (if r == Returned(true) && autoClick then Device.Repeat(clickCoords, clicks) else [])
    {
      if !Device.DevicesListed(devices) {
        return Returned(false);
      }
      if shot.None? {
        return Returned(false);
      }
      cachedScreenshot := shot;
      var c := CheckPixelPattern(shot);
      if c.TesterRaised? {
        return CheckRaised;
      }
      if c.isPass && autoClick {
        AutoClick(clicks);
      }
      return Returned(c.isPass);
    }
  }
}
