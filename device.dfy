/**
 * The device as both builds of `GameMonitor` see it: numbered screenshots,
 * a stop flag another thread may raise, and an append-only log of taps.
 */
module Device {
  import opened Wrappers
  import opened Geometry
  import opened Pixels
  import opened Text

  /**
   * What the monitor is given: the screenshot the device returns for each
   * capture (numbered from 0), whether the stop flag has been raised by the
   * time of each read of it (numbered from 0), the configured pixel
   * patterns, the colour tolerance and the match ratio.
   */
  datatype Env = Env(
    screens: nat -> Frame, stopAt: nat -> bool,
    patterns: map<string, seq<Sample>>, tolerance: int, ratio: real)

  /**
   * What the monitor changes: the taps sent so far, the number of
   * screenshots taken, which of them `cached_screenshot` holds, the number
   * of reads of the stop flag, and the flag as last read.
   */
  datatype World = World(taps: seq<Point>, captures: nat, cache: Option<nat>, polls: nat, stop: bool)

  /** Takes a screenshot and caches it. */
  function Capture(w: World): World {
    w.(captures := w.captures + 1, cache := Some(w.captures))
  }

  /** `adb shell input tap x y`. */
  function Tap(w: World, p: Point): World {
    w.(taps := w.taps + [p])
  }

  /** Reads `stop_requested`; once raised the flag stays raised. */
  function Poll(stopAt: nat -> bool, w: World): World {
    w.(polls := w.polls + 1, stop := w.stop || stopAt(w.polls))
  }

  /** The frame `cached_screenshot` holds. */
  function Cached(env: Env, w: World): Frame
    requires w.cache.Some?
  {
    env.screens(w.cache.value)
  }

  /** The "back" button `click_back_and_restart` taps. */
  const ResetPoint := Point(537, 1910)

  /** The taps of `click_back_and_restart`: four at the back button. */
  function ResetTaps(): (t: seq<Point>)
    ensures |t| == 4 && forall i :: 0 <= i < 4 ==> t[i] == ResetPoint
  {
    [ResetPoint, ResetPoint, ResetPoint, ResetPoint]
  }

  function Reset(w: World): World {
    w.(taps := w.taps + ResetTaps())
  }

  /** The step-3 confirm button, tapped after its pattern verifies (both builds). */
  const Step3Point := Point(550, 1136)

  /** The step-4 button, tapped after its pattern verifies (both builds). */
  const Step4Point := Point(538, 1470)

  /** `n` taps at `p`. */
  function Repeat(p: Point, n: nat): (t: seq<Point>)
    ensures |t| == n && forall i :: 0 <= i < n ==> t[i] == p
  {
    seq(n, _ => p)
  }

  /**
   * The device gate of the test tools (`run_test`, and `main` of the
   * colour tool): the `adb devices` output contains `"device"` and its
   * stripped text has at least two lines.
   */
  predicate DevicesListed(devices: string) {
    Contains(devices, "device") && |SplitOn(Strip(devices), '\n')| >= 2
  }

  /** `s.split(sep)` has at least two parts exactly when `sep` occurs in `s`. */
  lemma SplitOnParts(s: string, sep: char)
    ensures |SplitOn(s, sep)| >= 2 <==> sep in s
  {
    var i := IndexOf(s, sep);
    if i < |s| {
      assert |SplitOn(s, sep)| == 1 + |SplitOn(s[i + 1..], sep)|;
    } else {
      assert forall k :: 0 <= k < |s| ==> s[k] != sep;
    }
  }

  /** So the gate asks for a line break inside the trimmed output, after its header line. */
  lemma DevicesListedNeedsTwoLines(devices: string)
    ensures DevicesListed(devices) <==> Contains(devices, "device") && '\n' in Strip(devices)
  {
    SplitOnParts(Strip(devices), '\n');
  }
}
