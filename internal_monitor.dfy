/**
 * The `GameMonitor` class of the `_internal` build: its fields, and each
 * method proved to change them as the functions of `InternalSpec` (and of
 * `ScreenSearch`) say.
 */
module InternalMonitor {
  import opened Wrappers
  import opened Text
  import opened Geometry
  import opened Pixels
  import opened OcrRegion
  import opened OcrLocator
  import opened ScreenSearch
  import opened Device
  import opened InternalSpec

  class GameMonitor {
    const targetTexts: seq<string>
    const useOcr: bool
    /** Whether the OCR libraries could be imported. */
    const ocrAvailable: bool
    const region: Option<Region>
    const env: Env

    var targetText: Option<string>
    var lastFoundCoords: Option<Point>
    var taps: seq<Point>
    var captures: nat
    var cache: Option<nat>
    var polls: nat
    var stopRequested: bool

    /** The device-facing part of the state. */
    function State(): World
      reads this
    {
      World(taps, captures, cache, polls, stopRequested)
    }

    /** Coordinates are only ever stored together with (after) the target they belong to. */
    predicate Valid()
      reads this
    {
      lastFoundCoords.Some? ==> targetText.Some?
    }

    constructor(target: TargetArg, useOcr: bool, ocrAvailable: bool, region: Option<Region>, env: Env)
      ensures Valid()
      ensures targetTexts == TargetTexts(target) && this.useOcr == useOcr && this.ocrAvailable == ocrAvailable
      ensures this.region == region && this.env == env
      ensures targetText == None && lastFoundCoords == None
      ensures State() == World([], 0, None, 0, false)
    {
      targetTexts := TargetTexts(target);
      this.useOcr := useOcr;
      this.ocrAvailable := ocrAvailable;
      this.region := region;
      this.env := env;
      targetText := None;
      lastFoundCoords := None;
      taps := [];
      captures := 0;
      cache := None;
      polls := 0;
      stopRequested := false;
    }

    /** `screencap`, pull and `Image.open` into `cached_screenshot`. */
    method TakeScreenshot()
      modifies this
      ensures State() == Capture(old(State()))
      ensures targetText == old(targetText) && lastFoundCoords == old(lastFoundCoords)
    {
      cache := Some(captures);
      captures := captures + 1;
    }

    /** `click_at_coordinates`. */
    method ClickAt(p: Point)
      modifies this
      ensures State() == Tap(old(State()), p)
      ensures targetText == old(targetText) && lastFoundCoords == old(lastFoundCoords)
    {
      taps := taps + [p];
    }

    /** A read of `stop_requested`, which another thread may have set meanwhile. */
    method ReadStop() returns (stop: bool)
      modifies this
      ensures State() == Poll(env.stopAt, old(State())) && stop == stopRequested
      ensures targetText == old(targetText) && lastFoundCoords == old(lastFoundCoords)
    {
      stopRequested := stopRequested || env.stopAt(polls);
      polls := polls + 1;
      stop := stopRequested;
    }

    /** `stop`. */
    method Stop()
      modifies this
      ensures stopRequested
      ensures taps == old(taps) && captures == old(captures) && cache == old(cache) && polls == old(polls)
      ensures targetText == old(targetText) && lastFoundCoords == old(lastFoundCoords)
    {
      stopRequested := true;
    }

    /** `get_screen_content_ocr`: capture, crop, run the target loop. */
    method GetScreenContentOcr(rec: Recognised, width: nat, height: nat) returns (content: string)
      requires WellFormed(rec.data) && Valid()
      modifies this
      ensures var p := OcrPassSpec(targetTexts, region, width, height, rec, 1, old(targetText), old(lastFoundCoords));
        content == p.content && targetText == p.targetText && lastFoundCoords == p.coords
        && cache == (if p.keepShot then Some(old(captures)) else None)
      ensures captures == old(captures) + 1 && taps == old(taps) && polls == old(polls) && stopRequested == old(stopRequested)
      ensures Valid()
    {
      TakeScreenshot();
      var box := CropBox(region, width, height);
      content := RecogniseCrop(box, rec);
    }

    /** The steps of `get_screen_content_ocr` after the crop box is known. */
    method RecogniseCrop(box: Option<Box>, rec: Recognised) returns (content: string)
      requires WellFormed(rec.data) && Valid()
      modifies this
      ensures var p := CropPass(targetTexts, box, rec, 1, old(targetText), old(lastFoundCoords));
        content == p.content && targetText == p.targetText && lastFoundCoords == p.coords
        && cache == (if p.keepShot then old(cache) else None)
      ensures captures == old(captures) && taps == old(taps) && polls == old(polls) && stopRequested == old(stopRequested)
      ensures Valid()
    {
      if box.None? {
        cache := None;
        return "";
      }
      LocateKeepsPairing(targetTexts, rec, box.value, 1, 0, targetText, lastFoundCoords);
      var r := LocateTargets(targetTexts, rec, box.value, 1, targetText, lastFoundCoords);
      targetText, lastFoundCoords := r.targetText, r.coords;
      if r.raised {
        cache := None;
        return "";
      }
      return rec.text;
    }

    /**
     * `search_text_in_screen`: OCR when it is asked for and available, the
     * UI dump `ui` otherwise; then the first target the content contains.
     */
    method SearchTextInScreen(ui: string, rec: Recognised, width: nat, height: nat) returns (found: bool)
      requires WellFormed(rec.data) && Valid()
      modifies this
      ensures useOcr && ocrAvailable ==>
        var p := OcrPassSpec(targetTexts, region, width, height, rec, 1, old(targetText), old(lastFoundCoords));
        Search(found, targetText, lastFoundCoords) == SearchSpec(targetTexts, p.content, true, p.targetText, p.coords)
      ensures !(useOcr && ocrAvailable) ==>
        Search(found, targetText, lastFoundCoords) == SearchSpec(targetTexts, ui, useOcr, old(targetText), old(lastFoundCoords))
      ensures taps == old(taps) && polls == old(polls) && stopRequested == old(stopRequested)
      ensures Valid()
    {
      var content := ui;
      if useOcr && ocrAvailable {
        content := GetScreenContentOcr(rec, width, height);
      }
      var s := SearchTargets(targetTexts, content, useOcr, targetText, lastFoundCoords);
      found, targetText, lastFoundCoords := s.found, s.targetText, s.coords;
    }

    /** `check_pixel_pattern`, scanning with the early stop. */
    method CheckPixelPattern(name: string) returns (r: CheckResult)
      modifies this
      ensures (r, State()) == CheckSpec(env, old(State()), name)
      ensures targetText == old(targetText) && lastFoundCoords == old(lastFoundCoords)
    {
      if name !in env.patterns {
        return Checked(false, 0.0);
      }
      if cache.None? {
        TakeScreenshot();
      }
      var frame := env.screens(cache.value);
      var parsed := ParseSamples(env.patterns[name]);
      if parsed.None? {
        return Raised;
      }
      var expected := parsed.value;
      var total := |expected|;
      var matched, failed := ScanEarlyStop(frame, expected, env.tolerance, MaxFailures(total, env.ratio));
      if total == 0 {
        return Raised;
      }
      var ratio := matched as real / total as real;
      return Checked(ratio >= env.ratio, ratio);
    }

    /** A fresh screenshot, then `check_pixel_pattern` on it. */
    method FreshCheck(name: string) returns (r: CheckResult)
      modifies this
      ensures r == Verdicts(env, name)(old(captures)) && State() == Capture(old(State()))
      ensures targetText == old(targetText) && lastFoundCoords == old(lastFoundCoords)
    {
      cache := None;
      TakeScreenshot();
      r := CheckPixelPattern(name);
    }

    /** `smart_verify_pattern`. */
    method SmartVerifyPattern(name: string) returns (v: Verify)
      modifies this
      ensures (v, State()) == SmartVerifySpec(env, old(State()), name)
      ensures targetText == old(targetText) && lastFoundCoords == old(lastFoundCoords)
    {
      var c := FreshCheck(name);
      if c.Raised? {
        return VerifyRaised;
      }
      if !c.isMatch {
        return Verify(false, 1);
      }
      if c.ratio >= 0.95 {
        return Verify(true, 1);
      }
      var n := if c.ratio >= 0.80 then 2 else 3;
      for i := 1 to n
        invariant Rechecks(Verdicts(env, name), State(), n, i) == SmartVerifySpec(env, old(State()), name)
        invariant targetText == old(targetText) && lastFoundCoords == old(lastFoundCoords)
      {
        c := FreshCheck(name);
        if c.Raised? {
          return VerifyRaised;
        }
        if !c.isMatch {
          return Verify(false, i + 1);
        }
      }
      return Verify(true, n);
    }

    /** `click_back_and_restart`: four taps at the back button. */
    method ClickBackAndRestart()
      modifies this
      ensures State() == Reset(old(State()))
      ensures targetText == old(targetText) && lastFoundCoords == old(lastFoundCoords)
    {
      ClickAt(ResetPoint);
      ClickAt(ResetPoint);
      ClickAt(ResetPoint);
      ClickAt(ResetPoint);
    }

    /** `step1_click_treasure`: tap the found coordinates, when there are any. */
    method Step1() returns (ok: bool)
      modifies this
      ensures ok <==> old(lastFoundCoords).Some?
      ensures State() == if ok then Tap(old(State()), old(lastFoundCoords).value) else old(State())
      ensures targetText == old(targetText) && lastFoundCoords == old(lastFoundCoords)
    {
      if lastFoundCoords.Some? {
        ClickAt(lastFoundCoords.value);
        return true;
      }
      return false;
    }

    /** `step2_click_center`. */
    method Step2() returns (ok: bool)
      modifies this
      ensures ok && State() == Tap(old(State()), CenterPoint)
      ensures targetText == old(targetText) && lastFoundCoords == old(lastFoundCoords)
    {
      ClickAt(CenterPoint);
      return true;
    }

    /** `step3_verify_and_click`. */
    method Step3() returns (r: StepResult)
      requires targetText.Some?
      modifies this
      ensures (r, State()) == Step3Spec(env, old(State()), old(targetText).value)
      ensures targetText == old(targetText) && lastFoundCoords == old(lastFoundCoords)
    {
      var text := targetText.value;
      var name;
      if Contains(text, "Test Flight") {
        name := "step3_test";
      } else if Contains(text, "Wondrous") || Contains(text, "Christmas") || Contains(text, "Party") {
        name := "step3_tiec";
      } else {
        name := "step3_dig";
      }
      if name !in env.patterns {
        var fallback := if name == "step3_test" then "step3_dig" else "step3_test";
        if fallback in env.patterns {
          name := fallback;
        } else {
          return Failed;
        }
      }
      var v := SmartVerifyPattern(name);
      if v.VerifyRaised? {
        return StepRaised;
      }
      if v.ok {
        ClickAt(Step3Point);
        return Passed;
      }
      return Failed;
    }

    /** `step4_verify_and_click`: two attempts, each after a look at the stop flag. */
    method Step4() returns (r: StepResult)
      modifies this
      ensures (r, State()) == Step4Spec(env, old(State()))
      ensures targetText == old(targetText) && lastFoundCoords == old(lastFoundCoords)
    {
      for attempt := 0 to 2
        invariant Step4From(env, State(), attempt) == Step4Spec(env, old(State()))
        invariant targetText == old(targetText) && lastFoundCoords == old(lastFoundCoords)
      {
        var stop := ReadStop();
        if stop {
          return Failed;
        }
        var v := SmartVerifyPattern("step4");
        if v.VerifyRaised? {
          return StepRaised;
        }
        if v.ok {
          ClickAt(Step4Point);
          return Passed;
        }
      }
      return Failed;
    }

    /**
     * `step5_auto_click`, whose click and check threads race against the
     * clock: what they did is given as `rep` and applied to the state.
     */
    method Step5(rep: Step5Report) returns (raised: bool)
      modifies this
      ensures State() == Step5Apply(old(State()), rep) && raised == rep.raised
      ensures targetText == old(targetText) && lastFoundCoords == old(lastFoundCoords)
    {
      taps := taps + Repeat(CenterPoint, rep.clicks);
      if rep.captures > 0 {
        cache := Some(captures + rep.captures - 1);
      }
      captures := captures + rep.captures;
      polls := polls + rep.polls;
      stopRequested := stopRequested || rep.stopSeen;
      raised := rep.raised;
    }

    /** `execute_click_sequence`. */
    method ExecuteClickSequence(rep: Step5Report) returns (out: SeqOutcome)
      requires Valid()
      modifies this
      ensures (out, State()) == SequenceSpec(env, old(State()), old(lastFoundCoords), old(targetText), rep)
      ensures targetText == old(targetText) && lastFoundCoords == old(lastFoundCoords)
    {
      var ok := Step1();
      if !ok {
        return NoCoordinates;
      }
      var stop := ReadStop();
      if stop {
        return StoppedAfter(1);
      }
      ok := Step2();
      stop := ReadStop();
      if stop {
        return StoppedAfter(2);
      }
      var s3 := Step3();
      if s3.StepRaised? {
        return Crashed(3);
      }
      if s3.Failed? {
        ClickBackAndRestart();
        return Step3Failed;
      }
      stop := ReadStop();
      if stop {
        return StoppedAfter(3);
      }
      var s4 := Step4();
      if s4.StepRaised? {
        return Crashed(4);
      }
      if s4.Failed? {
        ClickBackAndRestart();
        return Step4Failed;
      }
      stop := ReadStop();
      if stop {
        return StoppedAfter(4);
      }
      var raised := Step5(rep);
      if raised {
        return Crashed(5);
      }
      ClickBackAndRestart();
      return Step5Done;
    }
  }
}
