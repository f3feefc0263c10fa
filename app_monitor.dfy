/**
 * The `GameMonitor` class of the `.app` build: its fields, and each method
 * proved to change them as the functions of `AppSpec` (and of
 * `ScreenSearch`) say. The wall clock of step 5 is given to the sequence
 * as the number of polling rounds and of burst taps it allows.
 */
module AppMonitor {
  import opened Wrappers
  import opened Geometry
  import opened Pixels
  import opened OcrRegion
  import opened OcrLocator
  import opened ScreenSearch
  import opened Device
  import opened AppSpec

  class GameMonitor {
    const targetTexts: seq<string>
    const useOcr: bool
    /** Whether the OCR libraries could be imported. */
    const ocrAvailable: bool
    const region: Option<Region>
    const env: Env

    var targetText: Option<string>
    var lastFoundCoords: Option<Point>
    var taps: seq<Point>
    var captures: nat
    var cache: Option<nat>
    var polls: nat
    var stopRequested: bool

    /** The device-facing part of the state. */
    function State(): World
      reads this
    {
      World(taps, captures, cache, polls, stopRequested)
    }

    constructor(target: TargetArg, useOcr: bool, ocrAvailable: bool, region: Option<Region>, env: Env)
      ensures targetTexts == TargetTexts(target) && this.useOcr == useOcr && this.ocrAvailable == ocrAvailable
      ensures this.region == region && this.env == env
      ensures targetText == None && lastFoundCoords == None
      ensures State() == World([], 0, None, 0, false)
    {
      targetTexts := TargetTexts(target);
      this.useOcr := useOcr;
      this.ocrAvailable := ocrAvailable;
      this.region := region;
      this.env := env;
      targetText := None;
      lastFoundCoords := None;
      taps := [];
      captures := 0;
      cache := None;
      polls := 0;
      stopRequested := false;
    }

    /** `screencap`, pull and `Image.open` into `cached_screenshot`. */
    method TakeScreenshot()
      modifies this
      ensures State() == Capture(old(State()))
      ensures targetText == old(targetText) && lastFoundCoords == old(lastFoundCoords)
    {
      cache := Some(captures);
      captures := captures + 1;
    }

    /** `click_at_coordinates`. */
    method ClickAt(p: Point)
      modifies this
      ensures State() == Tap(old(State()), p)
      ensures targetText == old(targetText) && lastFoundCoords == old(lastFoundCoords)
    {
      taps := taps + [p];
    }

    /** A read of `stop_requested`, which another thread may have set meanwhile. */
    method ReadStop() returns (stop: bool)
      modifies this
      ensures State() == Poll(env.stopAt, old(State())) && stop == stopRequested
      ensures targetText == old(targetText) && lastFoundCoords == old(lastFoundCoords)
    {
      stopRequested := stopRequested || env.stopAt(polls);
      polls := polls + 1;
      stop := stopRequested;
    }

    /** `stop`. */
    method Stop()
      modifies this
      ensures stopRequested
      ensures taps == old(taps) && captures == old(captures) && cache == old(cache) && polls == old(polls)
      ensures targetText == old(targetText) && lastFoundCoords == old(lastFoundCoords)
    {
      stopRequested := true;
    }

    /**
     * `get_screen_content_ocr`: capture, crop, halve the image, run the
     * target loop with coordinates doubled back.
     */
    method GetScreenContentOcr(rec: Recognised, width: nat, height: nat) returns (content: string)
      requires WellFormed(rec.data)
      modifies this
      ensures var p := OcrPassSpec(targetTexts, region, width, height, rec, 2, old(targetText), old(lastFoundCoords));
        content == p.content && targetText == p.targetText && lastFoundCoords == p.coords
        && cache == (if p.keepShot then Some(old(captures)) else None)
      ensures captures == old(captures) + 1 && taps == old(taps) && polls == old(polls) && stopRequested == old(stopRequested)
    {
      TakeScreenshot();
      var box := CropBox(region, width, height);
      content := RecogniseCrop(box, rec);
    }

    /** The steps of `get_screen_content_ocr` after the crop box is known. */
    method RecogniseCrop(box: Option<Box>, rec: Recognised) returns (content: string)
      requires WellFormed(rec.data)
      modifies this
      ensures var p := CropPass(targetTexts, box, rec, 2, old(targetText), old(lastFoundCoords));
        content == p.content && targetText == p.targetText && lastFoundCoords == p.coords
        && cache == (if p.keepShot then old(cache) else None)
      ensures captures == old(captures) && taps == old(taps) && polls == old(polls) && stopRequested == old(stopRequested)
    {
      if box.None? {
        cache := None;
        return "";
      }
      var size := ScaledSize(box.value, 2);
      if size.0 == 0 || size.1 == 0 {
        cache := None;
        return "";
      }
      var r := LocateTargets(targetTexts, rec, box.value, 2, targetText, lastFoundCoords);
      targetText, lastFoundCoords := r.targetText, r.coords;
      if r.raised {
        cache := None;
        return "";
      }
      return rec.text;
    }

    /**
     * `search_text_in_screen`: OCR when it is asked for and available, the
     * UI dump `ui` otherwise; then the first target the content contains.
     */
    method SearchTextInScreen(ui: string, rec: Recognised, width: nat, height: nat) returns (found: bool)
      requires WellFormed(rec.data)
      modifies this
      ensures useOcr && ocrAvailable ==>
        var p := OcrPassSpec(targetTexts, region, width, height, rec, 2, old(targetText), old(lastFoundCoords));
        Search(found, targetText, lastFoundCoords) == SearchSpec(targetTexts, p.content, true, p.targetText, p.coords)
      ensures !(useOcr && ocrAvailable) ==>
        Search(found, targetText, lastFoundCoords) == SearchSpec(targetTexts, ui, useOcr, old(targetText), old(lastFoundCoords))
      ensures taps == old(taps) && polls == old(polls) && stopRequested == old(stopRequested)
    {
      var content := ui;
      if useOcr && ocrAvailable {
        content := GetScreenContentOcr(rec, width, height);
      }
      var s := SearchTargets(targetTexts, content, useOcr, targetText, lastFoundCoords);
      found, targetText, lastFoundCoords := s.found, s.targetText, s.coords;
    }

    /** `check_pixel_pattern`, scanning every sample. */
    method CheckPixelPattern(name: string) returns (r: AppCheck)
      modifies this
      ensures (r, State()) == AppCheckSpec(env, old(State()), name)
      ensures targetText == old(targetText) && lastFoundCoords == old(lastFoundCoords)
    {
      if name !in env.patterns {
        return AppChecked(true);
      }
      var pattern := env.patterns[name];
      if cache.None? {
        TakeScreenshot();
      }
      var frame := env.screens(cache.value);
      var total := |pattern|;
      var matched := ScanFull(frame, pattern, env.tolerance);
      if total == 0 {
        return AppRaised;
      }
      var ratio := matched as real / total as real;
      return AppChecked(ratio >= env.ratio);
    }

    /** Clearing the cache, a fresh screenshot, then `check_pixel_pattern`. */
    method FreshCheck(name: string) returns (r: AppCheck)
      modifies this
      ensures (r, State()) == FreshAppCheck(env, old(State()), name)
      ensures targetText == old(targetText) && lastFoundCoords == old(lastFoundCoords)
    {
      cache := None;
      TakeScreenshot();
      r := CheckPixelPattern(name);
    }

    /** `click_back_and_restart`: four taps at the back button. */
    method ClickBackAndRestart()
      modifies this
      ensures State() == Reset(old(State()))
      ensures targetText == old(targetText) && lastFoundCoords == old(lastFoundCoords)
    {
      ClickAt(ResetPoint);
      ClickAt(ResetPoint);
      ClickAt(ResetPoint);
      ClickAt(ResetPoint);
    }

    /** The step-4 retry loop of `execute_click_sequence`; `None` when step 4 passed. */
    method Step4Attempts() returns (out: Option<AppOutcome>)
      modifies this
      ensures (out, State()) == AppStep4From(env, old(State()), 0)
      ensures targetText == old(targetText) && lastFoundCoords == old(lastFoundCoords)
    {
      for attempt := 0 to 2
        invariant AppStep4From(env, State(), attempt) == AppStep4From(env, old(State()), 0)
        invariant targetText == old(targetText) && lastFoundCoords == old(lastFoundCoords)
      {
        var stop := ReadStop();
        if stop {
          return Some(StoppedInStep4);
        }
        var c := FreshCheck("step4");
        if c.AppRaised? {
          return Some(Crashed(4));
        }
        if c.isMatch {
          ClickAt(Step4Point);
          return None;
        }
      }
      return Some(Step4Failed);
    }

    /**
     * The step-5 click burst: `burst` taps at (544, 876), each after a look
     * at the stop flag. Returns whether it ran to the end and how many taps
     * it made.
     */
    method BurstClicks(burst: nat) returns (done: bool, clicks: nat)
      modifies this
      ensures (done, clicks, State()) == Burst(env, old(State()), burst, 0)
      ensures targetText == old(targetText) && lastFoundCoords == old(lastFoundCoords)
    {
      clicks := 0;
      var i := 0;
      while i < burst
        invariant 0 <= i <= burst
        invariant var r := Burst(env, State(), burst, i);
          (r.0, clicks + r.1, r.2) == Burst(env, old(State()), burst, 0)
        invariant targetText == old(targetText) && lastFoundCoords == old(lastFoundCoords)
      {
        ghost var before := State();
        var stop := ReadStop();
        if stop {
          assert Burst(env, before, burst, i) == (false, 0, State());
          return false, clicks;
        }
        ClickAt(BurstPoint);
        ghost var r := Burst(env, State(), burst, i + 1);
        assert Burst(env, before, burst, i) == (r.0, r.1 + 1, r.2);
        clicks := clicks + 1;
        i := i + 1;
      }
      return true, clicks;
    }

    /** The step-5 polling loop of `execute_click_sequence`. */
    method Step5Rounds(rounds: nat, burst: nat) returns (out: AppOutcome)
      modifies this
      ensures (out, State()) == AppStep5From(env, old(State()), rounds, burst, 0)
      ensures targetText == old(targetText) && lastFoundCoords == old(lastFoundCoords)
    {
      var round := 0;
      while round < rounds
        invariant 0 <= round <= rounds
        invariant AppStep5From(env, State(), rounds, burst, round) == AppStep5From(env, old(State()), rounds, burst, 0)
        invariant targetText == old(targetText) && lastFoundCoords == old(lastFoundCoords)
      {
        var stop := ReadStop();
        if stop {
          return StoppedInStep5(0);
        }
        var c := FreshCheck("step5");
        if c.AppRaised? {
          return Crashed(5);
        }
        if c.isMatch {
          var done, clicks := BurstClicks(burst);
          if !done {
            return StoppedInStep5(clicks);
          }
          ClickBackAndRestart();
          return Step5Clicked;
        }
        round := round + 1;
      }
      ClickBackAndRestart();
      return Step5TimedOut;
    }

    /**
     * `execute_click_sequence`, with `rounds` the step-5 checks and `burst`
     * the burst taps that the clock allows.
     */
    method ExecuteClickSequence(rounds: nat, burst: nat) returns (out: AppOutcome)
      modifies this
      ensures (out, State()) == AppSequenceSpec(env, old(State()), old(lastFoundCoords), rounds, burst)
      ensures targetText == old(targetText) && lastFoundCoords == old(lastFoundCoords)
    {
      if lastFoundCoords.Some? {
        ClickAt(lastFoundCoords.value);
      }
      var stop := ReadStop();
      if stop {
        return StoppedAfter(1);
      }
      ClickAt(AppCenterPoint);
      stop := ReadStop();
      if stop {
        return StoppedAfter(2);
      }
      var c := FreshCheck("step3");
      if c.AppRaised? {
        return Crashed(3);
      }
      if !c.isMatch {
        ClickBackAndRestart();
        return Step3Failed;
      }
      ClickAt(Step3Point);
      stop := ReadStop();
      if stop {
        return StoppedAfter(3);
      }
      var s4 := Step4Attempts();
      if s4.Some? {
        if s4.value.Step4Failed? {
          ClickBackAndRestart();
        }
        return s4.value;
      }
      out := Step5Rounds(rounds, burst);
    }
  }
}
