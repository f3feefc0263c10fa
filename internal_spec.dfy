/**
 * The `_internal` build of `GameMonitor` as functions of the device state:
 * the early-stopping pixel check, the adaptive re-verification, the step-3
 * pattern choice, steps 1 to 4 and the click sequence, with the step-5
 * thread race taken as a given report.
 */
module InternalSpec {
  import opened Wrappers
  import opened Text
  import opened Geometry
  import opened HexColor
  import opened Pixels
  import opened Device

  /** `check_pixel_pattern`'s `(is_match, match_ratio)`, or an exception it lets escape. */
  datatype CheckResult = Checked(isMatch: bool, ratio: real) | Raised

  /**
   * `check_pixel_pattern` against one frame. A missing pattern gives
   * `(False, 0.0)`; a colour that does not parse (parsed outside any `try`)
   * and an empty pattern (`matched / 0`) raise; otherwise the samples are
   * scanned with the early stop and the ratio is over the whole pattern.
   */
  function FrameCheck(env: Env, frame: Frame, name: string): (r: CheckResult)
    ensures name !in env.patterns ==> r == Checked(false, 0.0)
    ensures r.Raised? <==> (name in env.patterns &&
      (|env.patterns[name]| == 0 || exists i :: 0 <= i < |env.patterns[name]| && ParseHexColor(env.patterns[name][i].color).None?))
    ensures r.Checked? ==> 0.0 <= r.ratio <= 1.0
    ensures r.Checked? && name in env.patterns ==> (r.isMatch <==> r.ratio >= env.ratio)
  {
    if name !in env.patterns then Checked(false, 0.0)
    else match ParseSamples(env.patterns[name])
      case None => Raised
      case Some(exp) =>
        if |exp| == 0 then Raised
        else
          var h := Hits(frame, exp, env.tolerance);
          var m := CountTrue(h[..StopIndex(h, MaxFailures(|exp|, env.ratio))]);
          Checked(IsMatch(m, |exp|, env.ratio), MatchRatio(m, |exp|))
  }

  /**
   * The early stop never changes the verdict: the check passes exactly when
   * a scan of every sample would reach the ratio.
   */
  lemma FrameCheckIsFullScan(env: Env, frame: Frame, name: string)
    requires name in env.patterns && FrameCheck(env, frame, name).Checked?
    ensures var exp := ParseSamples(env.patterns[name]).value;
      FrameCheck(env, frame, name).isMatch <==>
      IsMatch(CountTrue(Hits(frame, exp, env.tolerance)), |exp|, env.ratio)
  {
    var exp := ParseSamples(env.patterns[name]).value;
    EarlyStopVerdict(Hits(frame, exp, env.tolerance), env.ratio);
  }

  /** The check made on screenshot number `k`. */
  function CheckOn(env: Env, k: nat, name: string): CheckResult {
    FrameCheck(env, env.screens(k), name)
  }

  /** The verdict of the check on each screenshot, by number. */
  function Verdicts(env: Env, name: string): nat -> CheckResult {
    (k: nat) => CheckOn(env, k, name)
  }

  /** Screenshot number `k` passes. */
  predicate Passes(res: nat -> CheckResult, k: nat) {
    res(k).Checked? && res(k).isMatch
  }

  /**
   * `check_pixel_pattern` on the device: a missing pattern touches nothing;
   * otherwise a screenshot is taken when none is cached and that one is
   * checked. Neither taps nor the stop flag are involved.
   */
  function CheckSpec(env: Env, w: World, name: string): (r: (CheckResult, World))
    ensures r.1.taps == w.taps && r.1.polls == w.polls && r.1.stop == w.stop
    ensures name !in env.patterns ==> r == (Checked(false, 0.0), w)
    ensures name in env.patterns ==> r.1.cache.Some? && r.0 == FrameCheck(env, Cached(env, r.1), name)
    ensures r.1.captures == w.captures + (if name in env.patterns && w.cache.None? then 1 else 0)
  {
    if name !in env.patterns then (Checked(false, 0.0), w)
    else
      var w1 := if w.cache.None? then Capture(w) else w;
      (FrameCheck(env, Cached(env, w1), name), w1)
  }

  /** `smart_verify_pattern`'s verdict and the number of checks it made, or an escaping exception. */
  datatype Verify = Verify(ok: bool, checks: nat) | VerifyRaised

  /**
   * Re-checks `i + 1 .. n` of `smart_verify_pattern`, each on a fresh
   * screenshot whose verdict `res` gives; the first that fails ends the
   * verification.
   */
  function Rechecks(res: nat -> CheckResult, w: World, n: nat, i: nat): (r: (Verify, World))
    requires 1 <= i <= n
    ensures r.1.taps == w.taps && r.1.polls == w.polls && r.1.stop == w.stop
    ensures r.1.cache.Some? || r.1 == w
    ensures r.0.Verify? ==> i <= r.0.checks <= n && r.1.captures == w.captures + (r.0.checks - i)
    ensures r.0.Verify? ==> forall k :: w.captures <= k < w.captures + (r.0.checks - i) - 1 ==> Passes(res, k)
    ensures r.0.Verify? && r.0.checks > i ==> (r.0.ok <==> Passes(res, w.captures + (r.0.checks - i) - 1))
    ensures r.0.Verify? && r.0.ok ==> r.0.checks == n
    ensures r.0.Verify? && !r.0.ok ==> r.0.checks > i
    decreases n - i
  {
    if i == n then (Verify(true, n), w)
    else match res(w.captures)
      case Raised => (VerifyRaised, Capture(w))
      case Checked(m, _) =>
        if !m then (Verify(false, i + 1), Capture(w))
        else Rechecks(res, Capture(w), n, i + 1)
  }

  /**
   * `smart_verify_pattern`: a first check on a fresh screenshot; a fail
   * ends it, a ratio of at least 0.95 is trusted at once, a ratio of at
   * least 0.80 asks for 2 checks in all and a lower one for 3.
   */
  function SmartVerifyWith(res: nat -> CheckResult, w: World): (r: (Verify, World))
    ensures r.1.taps == w.taps && r.1.polls == w.polls && r.1.stop == w.stop && r.1.cache.Some?
    ensures r.0.Verify? ==> 1 <= r.0.checks <= 3 && r.1.captures == w.captures + r.0.checks
    ensures r.0.Verify? ==> forall k :: w.captures <= k < w.captures + r.0.checks - 1 ==> Passes(res, k)
    ensures r.0.Verify? ==> (r.0.ok <==> Passes(res, w.captures + r.0.checks - 1))
  {
    match res(w.captures)
    case Raised => (VerifyRaised, Capture(w))
    case Checked(m, ratio) =>
      if !m then (Verify(false, 1), Capture(w))
      else if ratio >= 0.95 then (Verify(true, 1), Capture(w))
      else Rechecks(res, Capture(w), if ratio >= 0.80 then 2 else 3, 1)
  }

  /** `smart_verify_pattern` on the pattern called `name`. */
  function SmartVerifySpec(env: Env, w: World, name: string): (Verify, World) {
    SmartVerifyWith(Verdicts(env, name), w)
  }

  /**
   * How many checks `smart_verify_pattern` makes, by the first ratio: one
   * when the first check fails or reaches 0.95, exactly two from 0.80, and
   * up to three below that, all three when it succeeds.
   */
  lemma SmartVerifyCounts(res: nat -> CheckResult, w: World)
    requires SmartVerifyWith(res, w).0.Verify?
    ensures var v := SmartVerifyWith(res, w).0;
      var first := res(w.captures);
      && (!Passes(res, w.captures) ==> v == Verify(false, 1))
      && (Passes(res, w.captures) && first.ratio >= 0.95 ==> v == Verify(true, 1))
      && (Passes(res, w.captures) && 0.80 <= first.ratio < 0.95 ==> v.checks == 2)
      && (Passes(res, w.captures) && first.ratio < 0.80 ==> 2 <= v.checks <= 3 && (v.ok ==> v.checks == 3))
  {
  }

  /** A missing pattern never verifies: one screenshot is taken, and the answer is no. */
  lemma MissingPatternFails(env: Env, w: World, name: string)
    requires name !in env.patterns
    ensures SmartVerifySpec(env, w, name) == (Verify(false, 1), Capture(w))
  {
  }

  /** The pattern step 3 looks for, chosen from the found target text. */
  function Step3Choice(targetText: string): (name: string)
    ensures name == "step3_test" <==> Contains(targetText, "Test Flight")
    ensures name == "step3_tiec" <==> (!Contains(targetText, "Test Flight") &&
      (Contains(targetText, "Wondrous") || Contains(targetText, "Christmas") || Contains(targetText, "Party")))
    ensures name == "step3_dig" <==> (!Contains(targetText, "Test Flight") &&
      !Contains(targetText, "Wondrous") && !Contains(targetText, "Christmas") && !Contains(targetText, "Party"))
  {
    if Contains(targetText, "Test Flight") then "step3_test"
    else if Contains(targetText, "Wondrous") || Contains(targetText, "Christmas") || Contains(targetText, "Party") then "step3_tiec"
    else "step3_dig"
  }

  /** The pattern tried when the chosen one is not configured. */
  function Fallback(name: string): string {
    if name == "step3_test" then "step3_dig" else "step3_test"
  }

  /**
   * The pattern step 3 verifies: the chosen one when configured, else its
   * fallback when that is configured, else none.
   */
  function Step3Pattern(patterns: map<string, seq<Sample>>, targetText: string): (r: Option<string>)
    ensures r.Some? ==> r.value in patterns
    ensures Step3Choice(targetText) in patterns ==> r == Some(Step3Choice(targetText))
    ensures Step3Choice(targetText) !in patterns && r.Some? ==> r.value == Fallback(Step3Choice(targetText))
    ensures r.None? <==> Step3Choice(targetText) !in patterns && Fallback(Step3Choice(targetText)) !in patterns
  {
    var name := Step3Choice(targetText);
    if name in patterns then Some(name)
    else if Fallback(name) in patterns then Some(Fallback(name))
    else None
  }

  /**
   * Only the three known patterns are ever verified in step 3, the fallback
   * is never the pattern that was missing, and a test-flight target falls
   * back to the dig pattern while every other target falls back to the
   * test-flight one.
   */
  lemma Step3PatternKnown(patterns: map<string, seq<Sample>>, targetText: string)
    ensures var r := Step3Pattern(patterns, targetText);
      r.Some? ==> r.value in {"step3_test", "step3_tiec", "step3_dig"}
    ensures Fallback(Step3Choice(targetText)) != Step3Choice(targetText)
    ensures Contains(targetText, "Test Flight") <==> Fallback(Step3Choice(targetText)) == "step3_dig"
  {
  }

  /** What a step reports: its boolean, or an exception that escapes it. */
  datatype StepResult = Passed | Failed | StepRaised

  /** `step3_verify_and_click`: verify the chosen pattern, tap (550, 1136) only when it holds. */
  function Step3Spec(env: Env, w: World, targetText: string): (r: (StepResult, World))
    ensures r.1.polls == w.polls && r.1.stop == w.stop
    ensures r.1.taps == w.taps + (if r.0.Passed? then [Step3Point] else [])
    ensures r.0.Passed? ==> var name := Step3Pattern(env.patterns, targetText);
      name.Some? && SmartVerifySpec(env, w, name.value).0.Verify? && SmartVerifySpec(env, w, name.value).0.ok
    ensures Step3Pattern(env.patterns, targetText).None? ==> r == (Failed, w)
  {
    match Step3Pattern(env.patterns, targetText)
    case None => (Failed, w)
    case Some(name) =>
      var (v, w1) := SmartVerifySpec(env, w, name);
      if v.VerifyRaised? then (StepRaised, w1)
      else if v.ok then (Passed, Tap(w1, Step3Point))
      else (Failed, w1)
  }

  /**
   * `step4_verify_and_click` from attempt `attempt` (of 2): each attempt
   * first reads the stop flag and gives up when it is raised, then verifies
   * `"step4"` and taps (538, 1470) on success.
   */
  function Step4From(env: Env, w: World, attempt: nat): (r: (StepResult, World))
    requires attempt <= 2
    ensures r.1.taps == w.taps + (if r.0.Passed? then [Step4Point] else [])
    ensures w.polls <= r.1.polls <= w.polls + (2 - attempt)
    ensures w.stop ==> r.1.stop
    ensures attempt < 2 && w.stop ==> r == (Failed, Poll(env.stopAt, w))
    decreases 2 - attempt
  {
    if attempt == 2 then (Failed, w)
    else
      var w1 := Poll(env.stopAt, w);
      if w1.stop then (Failed, w1)
      else
        var (v, w2) := SmartVerifySpec(env, w1, "step4");
        if v.VerifyRaised? then (StepRaised, w2)
        else if v.ok then (Passed, Tap(w2, Step4Point))
        else Step4From(env, w2, attempt + 1)
  }

  function Step4Spec(env: Env, w: World): (StepResult, World) {
    Step4From(env, w, 0)
  }

  /**
   * Step 4 passes on the first attempt exactly when the stop flag is down
   * and `"step4"` verifies; otherwise a second attempt is made only when the
   * first verification failed and the flag is still down.
   */
  lemma Step4Attempts(env: Env, w: World)
    requires !Poll(env.stopAt, w).stop
    ensures var (v, w1) := SmartVerifySpec(env, Poll(env.stopAt, w), "step4");
      && (v.Verify? && v.ok ==> Step4Spec(env, w) == (Passed, Tap(w1, Step4Point)))
      && (v.Verify? && !v.ok ==> Step4Spec(env, w) == Step4From(env, w1, 1))
      && (v.VerifyRaised? ==> Step4Spec(env, w).0.StepRaised?)
  {
  }

  /**
   * What the step-5 race left behind: how many taps at (514, 819) it sent,
   * how many screenshots and stop-flag reads it made, whether it saw the
   * flag raised, and whether an exception escaped it.
   */
  datatype Step5Report = Step5Report(clicks: nat, captures: nat, polls: nat, stopSeen: bool, raised: bool)

  /**
   * The reports the race can produce: the clicker starts only after a stop
   * check and a passing verification (so after a poll and a capture), and
   * an exception can escape only from that verification, before any click,
   * since the threads swallow their own.  No lemma depends on it.
   */
  predicate ValidReport(rep: Step5Report) {
    (rep.clicks > 0 ==> rep.polls > 0 && rep.captures > 0) && (rep.raised ==> rep.clicks == 0)
  }

  /** The centre of the screen, tapped in step 2 and by the step-5 clicker. */
  const CenterPoint := Point(514, 819)

  function Step5Apply(w: World, rep: Step5Report): World {
    w.(taps := w.taps + Repeat(CenterPoint, rep.clicks),
       captures := w.captures + rep.captures,
       cache := if rep.captures > 0 then Some(w.captures + rep.captures - 1) else w.cache,
       polls := w.polls + rep.polls,
       stop := w.stop || rep.stopSeen)
  }

  /** How `execute_click_sequence` ends. */
  datatype SeqOutcome =
    | NoCoordinates
    | StoppedAfter(step: nat)
    | Step3Failed
    | Step4Failed
    | Step5Done
    | Crashed(step: nat)

  /**
   * The sequence from the stop check after step 4 on: step 5 runs unless the
   * flag is raised, and a reset follows it unless it raised.
   */
  function SeqFrom5(env: Env, w: World, rep: Step5Report): (r: (SeqOutcome, World))
    ensures r.0 == StoppedAfter(4) || r.0 == Crashed(5) || r.0 == Step5Done
    ensures r.0.StoppedAfter? ==> r.1.taps == w.taps
    ensures r.0.Crashed? ==> r.1.taps == w.taps + Repeat(CenterPoint, rep.clicks)
    ensures r.0.Step5Done? ==> r.1.taps == w.taps + Repeat(CenterPoint, rep.clicks) + ResetTaps()
  {
    var w1 := Poll(env.stopAt, w);
    if w1.stop then (StoppedAfter(4), w1)
    else
      var w2 := Step5Apply(w1, rep);
      if rep.raised then (Crashed(5), w2)
      else (Step5Done, Reset(w2))
  }

  /** The sequence from the stop check after step 3 on. */
  function SeqFrom4(env: Env, w: World, rep: Step5Report): (r: (SeqOutcome, World))
    ensures r.0 in {StoppedAfter(3), Crashed(4), Step4Failed, StoppedAfter(4), Crashed(5), Step5Done}
    ensures r.0 in {StoppedAfter(3), Crashed(4)} ==> r.1.taps == w.taps
    ensures r.0.Step4Failed? ==> r.1.taps == w.taps + ResetTaps()
    ensures r.0 == StoppedAfter(4) ==> r.1.taps == w.taps + [Step4Point]
    ensures r.0 == Crashed(5) ==> r.1.taps == w.taps + [Step4Point] + Repeat(CenterPoint, rep.clicks)
    ensures r.0.Step5Done? ==> r.1.taps == w.taps + [Step4Point] + Repeat(CenterPoint, rep.clicks) + ResetTaps()
  {
    var w1 := Poll(env.stopAt, w);
    if w1.stop then (StoppedAfter(3), w1)
    else
      var (s4, w2) := Step4Spec(env, w1);
      if s4.StepRaised? then (Crashed(4), w2)
      else if s4.Failed? then (Step4Failed, Reset(w2))
      else SeqFrom5(env, w2, rep)
  }

  /** The sequence from step 3 on. */
  function SeqFrom3(env: Env, w: World, targetText: string, rep: Step5Report): (r: (SeqOutcome, World))
    ensures r.0 in {Crashed(3), Step3Failed, StoppedAfter(3), Crashed(4), Step4Failed, StoppedAfter(4), Crashed(5), Step5Done}
    ensures r.0 == Crashed(3) ==> r.1.taps == w.taps
    ensures r.0.Step3Failed? ==> r.1.taps == w.taps + ResetTaps()
    ensures r.0 in {StoppedAfter(3), Crashed(4)} ==> r.1.taps == w.taps + [Step3Point]
    ensures r.0.Step4Failed? ==> r.1.taps == w.taps + [Step3Point] + ResetTaps()
    ensures r.0 == StoppedAfter(4) ==> r.1.taps == w.taps + [Step3Point, Step4Point]
    ensures r.0 == Crashed(5) ==> r.1.taps == w.taps + [Step3Point, Step4Point] + Repeat(CenterPoint, rep.clicks)
    ensures r.0.Step5Done? ==>
      r.1.taps == w.taps + [Step3Point, Step4Point] + Repeat(CenterPoint, rep.clicks) + ResetTaps()
  {
    var (s3, w1) := Step3Spec(env, w, targetText);
    if s3.StepRaised? then (Crashed(3), w1)
    else if s3.Failed? then (Step3Failed, Reset(w1))
    else
      var r := SeqFrom4(env, w1, rep);
      TapsAfterStep3(w.taps, r.1.taps, w1.taps, Repeat(CenterPoint, rep.clicks), ResetTaps());
      r
  }

  lemma TapsAfterStep3(t: seq<Point>, t': seq<Point>, t1: seq<Point>, clicks: seq<Point>, reset: seq<Point>)
    requires t1 == t + [Step3Point]
    ensures t' == t1 + [Step4Point] ==> t' == t + [Step3Point, Step4Point]
    ensures t' == t1 + [Step4Point] + clicks ==> t' == t + [Step3Point, Step4Point] + clicks
    ensures t' == t1 + [Step4Point] + clicks + reset ==> t' == t + [Step3Point, Step4Point] + clicks + reset
  {
  }

  /**
   * `execute_click_sequence`: step 1 taps the found coordinates (or ends
   * the sequence when there are none), step 2 taps the centre, steps 3 and
   * 4 verify and tap, step 5 runs; the stop flag is read after each of
   * steps 1 to 4. A failed step 3 or step 4 and the end of step 5 reset the
   * game once (four taps at (537, 1910)); a stop returns without a reset,
   * and so does an exception, which escapes. These are exactly the taps
   * issued.
   */
  function SequenceSpec(env: Env, w: World, coords: Option<Point>, targetText: Option<string>,
                        rep: Step5Report): (r: (SeqOutcome, World))
    requires coords.Some? ==> targetText.Some?
    ensures r.0.NoCoordinates? <==> coords.None?
    ensures r.0.NoCoordinates? ==> r.1 == w
    ensures r.0 == StoppedAfter(1) ==> r.1.taps == w.taps + [coords.value]
    ensures r.0 == StoppedAfter(2) ==> r.1.taps == w.taps + [coords.value, CenterPoint]
    ensures r.0 == Crashed(3) ==> r.1.taps == w.taps + [coords.value, CenterPoint]
    ensures r.0.Step3Failed? ==> r.1.taps == w.taps + [coords.value, CenterPoint] + ResetTaps()
    ensures r.0 in {StoppedAfter(3), Crashed(4)} ==> r.1.taps == w.taps + [coords.value, CenterPoint, Step3Point]
    ensures r.0.Step4Failed? ==> r.1.taps == w.taps + [coords.value, CenterPoint, Step3Point] + ResetTaps()
    ensures r.0 == StoppedAfter(4) ==> r.1.taps == w.taps + [coords.value, CenterPoint, Step3Point, Step4Point]
    ensures r.0 == Crashed(5) ==>
      r.1.taps == w.taps + [coords.value, CenterPoint, Step3Point, Step4Point] + Repeat(CenterPoint, rep.clicks)
    ensures r.0.Step5Done? ==>
      r.1.taps == w.taps + [coords.value, CenterPoint, Step3Point, Step4Point] + Repeat(CenterPoint, rep.clicks) + ResetTaps()
  {
    match coords
    case None => (NoCoordinates, w)
    case Some(c) =>
      var w1 := Poll(env.stopAt, Tap(w, c));
      if w1.stop then (StoppedAfter(1), w1)
      else
        var w2 := Poll(env.stopAt, Tap(w1, CenterPoint));
        if w2.stop then (StoppedAfter(2), w2)
        else
          var r := SeqFrom3(env, w2, targetText.value, rep);
          assert w2.taps == w.taps + [c, CenterPoint];
          TapsAfter(w.taps, c, r.1.taps, w2.taps, Repeat(CenterPoint, rep.clicks), ResetTaps());
          r
  }

  /** Regrouping of the tap log across the stages of the sequence. */
  lemma TapsAfter(t: seq<Point>, c: Point, t': seq<Point>, t2: seq<Point>, clicks: seq<Point>, reset: seq<Point>)
    requires t2 == t + [c, CenterPoint]
    ensures t' == t2 + reset ==> t' == t + [c, CenterPoint] + reset
    ensures t' == t2 + [Step3Point] ==> t' == t + [c, CenterPoint, Step3Point]
    ensures t' == t2 + [Step3Point] + reset ==> t' == t + [c, CenterPoint, Step3Point] + reset
    ensures t' == t2 + [Step3Point, Step4Point] ==> t' == t + [c, CenterPoint, Step3Point, Step4Point]
    ensures t' == t2 + [Step3Point, Step4Point] + clicks ==> t' == t + [c, CenterPoint, Step3Point, Step4Point] + clicks
    ensures t' == t2 + [Step3Point, Step4Point] + clicks + reset ==>
      t' == t + [c, CenterPoint, Step3Point, Step4Point] + clicks + reset
  {
  }

  /**
   * A stop flag already raised when the sequence starts stops it right
   * after the step-1 tap, with no reset.
   */
  lemma StopBeforeStart(env: Env, w: World, c: Point, targetText: string, rep: Step5Report)
    requires w.stop
    ensures SequenceSpec(env, w, Some(c), Some(targetText), rep).0 == StoppedAfter(1)
  {
  }

  /** Without a stop request, a sequence with coordinates never ends by stopping. */
  lemma NoStopNoEarlyReturn(env: Env, w: World, c: Point, targetText: string, rep: Step5Report)
    requires !w.stop && forall k :: w.polls <= k ==> !env.stopAt(k)
    ensures !SequenceSpec(env, w, Some(c), Some(targetText), rep).0.StoppedAfter?
  {
    var w1 := Poll(env.stopAt, Tap(w, c));
    var w2 := Poll(env.stopAt, Tap(w1, CenterPoint));
    assert !w1.stop && !w2.stop;
    var (s3, w3) := Step3Spec(env, w2, targetText);
    if s3.Passed? {
      NoStopFrom4(env, w3, rep);
    }
  }

  lemma NoStopFrom4(env: Env, w: World, rep: Step5Report)
    requires !w.stop && forall k :: w.polls <= k ==> !env.stopAt(k)
    ensures !SeqFrom4(env, w, rep).0.StoppedAfter?
  {
    var w1 := Poll(env.stopAt, w);
    assert !w1.stop;
    NoStopInStep4(env, w1, 0);
  }

  lemma {:induction false} NoStopInStep4(env: Env, w: World, attempt: nat)
    requires attempt <= 2
    requires !w.stop && forall k :: w.polls <= k ==> !env.stopAt(k)
    ensures !Step4From(env, w, attempt).1.stop
    ensures forall k :: Step4From(env, w, attempt).1.polls <= k ==> !env.stopAt(k)
    decreases 2 - attempt
  {
    if attempt < 2 {
      var w1 := Poll(env.stopAt, w);
      var (v, w2) := SmartVerifySpec(env, w1, "step4");
      if v.Verify? && !v.ok {
        NoStopInStep4(env, w2, attempt + 1);
      }
    }
  }
}
