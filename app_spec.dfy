/**
 * The `.app` build of `GameMonitor` as functions of the device state: the
 * full-scan pixel check that passes a missing pattern, and the
 * single-threaded click sequence with its own step-4 retry and step-5
 * polling and click burst. The wall clock that bounds step 5 is given as
 * the number of polling rounds and of burst taps it allows.
 */
module AppSpec {
  import opened Wrappers
  import opened Geometry
  import opened HexColor
  import opened Pixels
  import opened Device
  import InternalSpec

  /** `check_pixel_pattern`'s boolean, or the exception an empty pattern raises (`matched / 0`). */
  datatype AppCheck = AppChecked(isMatch: bool) | AppRaised

  /**
   * `check_pixel_pattern` against one frame: a missing pattern passes;
   * every sample is read, and a sample whose pixel or colour raises is
   * simply not counted.
   */
  function AppFrameCheck(env: Env, frame: Frame, name: string): (r: AppCheck)
    ensures name !in env.patterns ==> r == AppChecked(true)
    ensures r.AppRaised? <==> name in env.patterns && |env.patterns[name]| == 0
    ensures r.AppChecked? && name in env.patterns ==>
      (r.isMatch <==> IsMatch(CountTrue(AppHits(frame, env.patterns[name], env.tolerance)), |env.patterns[name]|, env.ratio))
  {
    if name !in env.patterns then AppChecked(true)
    else
      var samples := env.patterns[name];
      if |samples| == 0 then AppRaised
      else AppChecked(IsMatch(CountTrue(AppHits(frame, samples, env.tolerance)), |samples|, env.ratio))
  }

  /**
   * The two builds judge a configured pattern whose colours all parse
   * alike, although only `_internal` stops early; they disagree on a
   * missing pattern, which `.app` passes and `_internal` fails, and on a
   * malformed colour, which `.app` skips and `_internal` raises on.
   */
  lemma BuildsJudgeAlike(env: Env, frame: Frame, name: string)
    ensures name in env.patterns && |env.patterns[name]| > 0 && ParseSamples(env.patterns[name]).Some? ==>
      AppFrameCheck(env, frame, name) == AppChecked(InternalSpec.FrameCheck(env, frame, name).isMatch)
    ensures name !in env.patterns ==>
      AppFrameCheck(env, frame, name).isMatch && !InternalSpec.FrameCheck(env, frame, name).isMatch
    ensures name in env.patterns && |env.patterns[name]| > 0 && ParseSamples(env.patterns[name]).None? ==>
      AppFrameCheck(env, frame, name).AppChecked? && InternalSpec.FrameCheck(env, frame, name).Raised?
  {
    if name in env.patterns && |env.patterns[name]| > 0 && ParseSamples(env.patterns[name]).Some? {
      var samples := env.patterns[name];
      BuildsAgree(frame, samples, env.tolerance, env.ratio);
      InternalSpec.FrameCheckIsFullScan(env, frame, name);
      AppHitsAgree(frame, samples, env.tolerance);
    }
  }

  /** The check on screenshot number `k`. */
  function AppVerdict(env: Env, k: nat, name: string): AppCheck {
    AppFrameCheck(env, env.screens(k), name)
  }

  /**
   * `check_pixel_pattern` on the device: a missing pattern passes without a
   * screenshot; otherwise one is taken when none is cached.
   */
  function AppCheckSpec(env: Env, w: World, name: string): (r: (AppCheck, World))
    ensures r.1.taps == w.taps && r.1.polls == w.polls && r.1.stop == w.stop
    ensures name !in env.patterns ==> r == (AppChecked(true), w)
    ensures name in env.patterns ==> r.1.cache.Some? && r.0 == AppFrameCheck(env, Cached(env, r.1), name)
  {
    if name !in env.patterns then (AppChecked(true), w)
    else
      var w1 := if w.cache.None? then Capture(w) else w;
      (AppFrameCheck(env, Cached(env, w1), name), w1)
  }

  /** Clearing the cache, taking a screenshot and checking it, as each verifying step does. */
  function FreshAppCheck(env: Env, w: World, name: string): (r: (AppCheck, World))
    ensures r == (AppVerdict(env, w.captures, name), Capture(w))
  {
    var w1 := Capture(w.(cache := None));
    (AppCheckSpec(env, w1, name).0, w1)
  }

  /** Screenshot number `k` passes the check of `name`. */
  predicate AppPasses(env: Env, k: nat, name: string) {
    AppVerdict(env, k, name).AppChecked? && AppVerdict(env, k, name).isMatch
  }

  /** The step-2 tap in this build. */
  const AppCenterPoint := Point(536, 976)

  /** Where the step-5 burst taps. */
  const BurstPoint := Point(544, 876)

  /**
   * How the `.app` `execute_click_sequence` ends: stopped at the check after
   * step 1, 2 or 3, stopped before a step-4 attempt, stopped in step 5 after
   * `clicks` burst taps, a failed step, the burst finished, step 5 timed
   * out, or an exception escaping from the check of step 3, 4 or 5.
   */
  datatype AppOutcome =
    | StoppedAfter(step: nat)
    | StoppedInStep4
    | StoppedInStep5(clicks: nat)
    | Step3Failed
    | Step4Failed
    | Step5Clicked
    | Step5TimedOut
    | Crashed(step: nat)

  /**
   * The step-4 loop from attempt `attempt` (of 2): each attempt reads the
   * stop flag and returns (without a reset) when it is raised, then checks
   * `"step4"` on a fresh screenshot and taps (538, 1470) on a pass.
   */
  function AppStep4From(env: Env, w: World, attempt: nat): (r: (Option<AppOutcome>, World))
    requires attempt <= 2
    ensures r.0 == None || r.0 == Some(StoppedInStep4) || r.0 == Some(Crashed(4)) || r.0 == Some(Step4Failed)
    ensures r.1.taps == w.taps + (if r.0.None? then [Step4Point] else [])
    ensures r.0 == Some(Step4Failed) ==>
      (&& r.1.captures == w.captures + (2 - attempt)
       && forall k :: w.captures <= k < r.1.captures ==> !AppPasses(env, k, "step4"))
    decreases 2 - attempt
  {
    if attempt == 2 then (Some(Step4Failed), w)
    else
      var w1 := Poll(env.stopAt, w);
      if w1.stop then (Some(StoppedInStep4), w1)
      else
        var (c, w2) := FreshAppCheck(env, w1, "step4");
        if c.AppRaised? then (Some(Crashed(4)), w2)
        else if c.isMatch then (None, Tap(w2, Step4Point))
        else AppStep4From(env, w2, attempt + 1)
  }

  /**
   * The step-5 burst from tap `i` of `burst` (the taps the 10 seconds
   * allow): before each tap the stop flag is read and a raised flag ends
   * the sequence at once. Returns whether the burst ran out its time and
   * the number of taps it made.
   */
  function Burst(env: Env, w: World, burst: nat, i: nat): (r: (bool, nat, World))
    requires i <= burst
    ensures r.1 <= burst - i && (r.0 ==> r.1 == burst - i)
    ensures !r.0 ==> r.2.stop
    ensures r.2.taps == w.taps + Repeat(BurstPoint, r.1)
    ensures r.2.captures == w.captures
    decreases burst - i
  {
    if i == burst then (true, 0, w)
    else
      var w1 := Poll(env.stopAt, w);
      if w1.stop then (false, 0, w1)
      else
        var (done, n, w2) := Burst(env, Tap(w1, BurstPoint), burst, i + 1);
        assert [BurstPoint] + Repeat(BurstPoint, n) == Repeat(BurstPoint, n + 1);
        (done, n + 1, w2)
  }

  /**
   * Step 5 from polling round `round` of `rounds` (the rounds the 10
   * minutes allow): each round reads the stop flag, then checks `"step5"`
   * on a fresh screenshot; on a pass the burst runs and the game is reset.
   * When the rounds run out the game is reset too.
   */
  function AppStep5From(env: Env, w: World, rounds: nat, burst: nat, round: nat): (r: (AppOutcome, World))
    requires round <= rounds
    ensures r.0.StoppedInStep5? || r.0 == Crashed(5) || r.0 == Step5Clicked || r.0 == Step5TimedOut
    ensures r.0.Step5TimedOut? ==> r.1.taps == w.taps + ResetTaps()
    ensures r.0.Crashed? ==> r.1.taps == w.taps
    ensures r.0.Step5Clicked? ==> r.1.taps == w.taps + Repeat(BurstPoint, burst) + ResetTaps()
    ensures r.0.StoppedInStep5? ==> r.0.clicks <= burst && r.1.taps == w.taps + Repeat(BurstPoint, r.0.clicks)
    decreases rounds - round
  {
    if round == rounds then (Step5TimedOut, Reset(w))
    else
      var w1 := Poll(env.stopAt, w);
      if w1.stop then
        assert w1.taps == w.taps + Repeat(BurstPoint, 0);
        (StoppedInStep5(0), w1)
      else
        var (c, w2) := FreshAppCheck(env, w1, "step5");
        if c.AppRaised? then (Crashed(5), w2)
        else if c.isMatch then
          var (done, n, w3) := Burst(env, w2, burst, 0);
          if done then (Step5Clicked, Reset(w3)) else (StoppedInStep5(n), w3)
        else AppStep5From(env, w2, rounds, burst, round + 1)
  }

  /** The step-1 taps: the found coordinates, when there are any. */
  function FirstTaps(coords: Option<Point>): seq<Point> {
    if coords.Some? then [coords.value] else []
  }

  /**
   * The taps a sequence that passed step 4 has made, from step 2 on, and
   * after them `clicks` burst taps.
   */
  function ThroughStep4(clicks: nat): seq<Point> {
    [AppCenterPoint, Step3Point, Step4Point] + Repeat(BurstPoint, clicks)
  }

  /**
   * The sequence from step 3 on: a fresh screenshot, then `"step3"`; a fail
   * resets; after the stop check, step 4, then step 5.
   */
  function AppFrom3(env: Env, w: World, rounds: nat, burst: nat): (r: (AppOutcome, World))
    ensures r.0 == Crashed(3) ==> r.1.taps == w.taps
    ensures r.0.Step3Failed? ==> r.1.taps == w.taps + ResetTaps()
    ensures r.0 == StoppedAfter(3) || r.0 == StoppedInStep4 || r.0 == Crashed(4) ==> r.1.taps == w.taps + [Step3Point]
    ensures r.0.Step4Failed? ==> r.1.taps == w.taps + [Step3Point] + ResetTaps()
    ensures r.0 == Crashed(5) ==> r.1.taps == w.taps + [Step3Point, Step4Point]
    ensures r.0.Step5TimedOut? ==> r.1.taps == w.taps + [Step3Point, Step4Point] + ResetTaps()
    ensures r.0.Step5Clicked? ==> r.1.taps == w.taps + [Step3Point, Step4Point] + Repeat(BurstPoint, burst) + ResetTaps()
    ensures r.0.StoppedInStep5? ==>
      r.0.clicks <= burst && r.1.taps == w.taps + [Step3Point, Step4Point] + Repeat(BurstPoint, r.0.clicks)
    ensures !r.0.StoppedAfter? || r.0.step == 3
    ensures !r.0.Crashed? || 3 <= r.0.step <= 5
  {
    var (c, w1) := FreshAppCheck(env, w, "step3");
    if c.AppRaised? then (Crashed(3), w1)
    else if !c.isMatch then (Step3Failed, Reset(w1))
    else
      var w2 := Poll(env.stopAt, Tap(w1, Step3Point));
      if w2.stop then (StoppedAfter(3), w2)
      else
        var (s4, w3) := AppStep4From(env, w2, 0);
        if s4.Some? then
          if s4.value.Step4Failed? then (Step4Failed, Reset(w3)) else (s4.value, w3)
        else
          var r := AppStep5From(env, w3, rounds, burst, 0);
          var clicks := if r.0.StoppedInStep5? then r.0.clicks else burst;
          AppTapsAfter3(w.taps, w3.taps, r.1.taps, Repeat(BurstPoint, clicks), ResetTaps());
          r
  }

  lemma AppTapsAfter3(t: seq<Point>, t3: seq<Point>, t': seq<Point>, clicks: seq<Point>, reset: seq<Point>)
    requires t3 == t + [Step3Point] + [Step4Point]
    ensures t' == t3 ==> t' == t + [Step3Point, Step4Point]
    ensures t' == t3 + reset ==> t' == t + [Step3Point, Step4Point] + reset
    ensures t' == t3 + clicks ==> t' == t + [Step3Point, Step4Point] + clicks
    ensures t' == t3 + clicks + reset ==> t' == t + [Step3Point, Step4Point] + clicks + reset
  {
  }

  /**
   * The `.app` `execute_click_sequence`. Step 1 taps the coordinates when
   * there are any and the sequence goes on either way; the stop flag is
   * read after steps 1 to 3, before each step-4 attempt and inside step 5,
   * and a raised flag returns without a reset. The game is reset exactly
   * once when step 3 fails, when both step-4 attempts fail, after the burst,
   * and when step 5 times out. These are exactly the taps issued.
   */
  function AppSequenceSpec(env: Env, w: World, coords: Option<Point>, rounds: nat, burst: nat): (r: (AppOutcome, World))
    ensures var t := w.taps + FirstTaps(coords);
      && (r.0 == StoppedAfter(1) ==> r.1.taps == t)
      && (r.0 == StoppedAfter(2) || r.0 == Crashed(3) ==> r.1.taps == t + [AppCenterPoint])
      && (r.0.Step3Failed? ==> r.1.taps == t + [AppCenterPoint] + ResetTaps())
      && (r.0 == StoppedAfter(3) || r.0 == StoppedInStep4 || r.0 == Crashed(4) ==>
            r.1.taps == t + [AppCenterPoint, Step3Point])
      && (r.0.Step4Failed? ==> r.1.taps == t + [AppCenterPoint, Step3Point] + ResetTaps())
      && (r.0 == Crashed(5) ==> r.1.taps == t + ThroughStep4(0))
      && (r.0.Step5TimedOut? ==> r.1.taps == t + ThroughStep4(0) + ResetTaps())
      && (r.0.Step5Clicked? ==> r.1.taps == t + ThroughStep4(burst) + ResetTaps())
      && (r.0.StoppedInStep5? ==> r.0.clicks <= burst && r.1.taps == t + ThroughStep4(r.0.clicks))
    ensures !r.0.StoppedAfter? || 1 <= r.0.step <= 3
    ensures !r.0.Crashed? || 3 <= r.0.step <= 5
  {
    var w0 := if coords.Some? then Tap(w, coords.value) else w;
    var w1 := Poll(env.stopAt, w0);
    if w1.stop then (StoppedAfter(1), w1)
    else
      var w2 := Poll(env.stopAt, Tap(w1, AppCenterPoint));
      if w2.stop then (StoppedAfter(2), w2)
      else
        var r := AppFrom3(env, w2, rounds, burst);
        var clicks := if r.0.StoppedInStep5? then r.0.clicks else burst;
        AppTapsAfter2(w.taps + FirstTaps(coords), w2.taps, r.1.taps, clicks, ResetTaps());
        r
  }

  lemma AppTapsAfter2(t: seq<Point>, t2: seq<Point>, t': seq<Point>, clicks: nat, reset: seq<Point>)
    requires t2 == t + [AppCenterPoint]
    ensures t' == t2 ==> t' == t + [AppCenterPoint]
    ensures t' == t2 + reset ==> t' == t + [AppCenterPoint] + reset
    ensures t' == t2 + [Step3Point] ==> t' == t + [AppCenterPoint, Step3Point]
    ensures t' == t2 + [Step3Point] + reset ==> t' == t + [AppCenterPoint, Step3Point] + reset
    ensures t' == t2 + [Step3Point, Step4Point] ==> t' == t + ThroughStep4(0)
    ensures t' == t2 + [Step3Point, Step4Point] + reset ==> t' == t + ThroughStep4(0) + reset
    ensures t' == t2 + [Step3Point, Step4Point] + Repeat(BurstPoint, clicks) ==> t' == t + ThroughStep4(clicks)
    ensures t' == t2 + [Step3Point, Step4Point] + Repeat(BurstPoint, clicks) + reset ==>
      t' == t + ThroughStep4(clicks) + reset
  {
    assert Repeat(BurstPoint, 0) == [];
  }

  /**
   * A missing step pattern passes in this build: with none of `"step3"`,
   * `"step4"`, `"step5"` configured and no stop request, the sequence taps
   * through every step and ends with the whole burst and one reset.
   */
  lemma MissingPatternsTapThrough(env: Env, w: World, coords: Option<Point>, rounds: nat, burst: nat)
    requires "step3" !in env.patterns && "step4" !in env.patterns && "step5" !in env.patterns
    requires !w.stop && forall k :: w.polls <= k ==> !env.stopAt(k)
    requires rounds > 0
    ensures AppSequenceSpec(env, w, coords, rounds, burst).0 == Step5Clicked
  {
    var w0 := if coords.Some? then Tap(w, coords.value) else w;
    var w1 := Poll(env.stopAt, w0);
    var w2 := Poll(env.stopAt, Tap(w1, AppCenterPoint));
    var (c, w3) := FreshAppCheck(env, w2, "step3");
    var w4 := Poll(env.stopAt, Tap(w3, Step3Point));
    var (s4, w5) := AppStep4From(env, w4, 0);
    assert s4.None?;
    var w6 := Poll(env.stopAt, w5);
    var (c5, w7) := FreshAppCheck(env, w6, "step5");
    NoStopBurst(env, w7, burst, 0);
  }

  /** Without a stop request the burst makes every tap its time allows. */
  lemma {:induction false} NoStopBurst(env: Env, w: World, burst: nat, i: nat)
    requires i <= burst
    requires !w.stop && forall k :: w.polls <= k ==> !env.stopAt(k)
    ensures Burst(env, w, burst, i).0
    decreases burst - i
  {
    if i < burst {
      var w1 := Poll(env.stopAt, w);
      NoStopBurst(env, Tap(w1, BurstPoint), burst, i + 1);
    }
  }
}
