/**
 * `SimpleTextMonitor`, the notify-only monitor: it looks for the target
 * texts in the recognised screen text and raises a notification while one
 * is on screen, at most once per notification interval.
 */
module SimpleMonitor {
  import opened Wrappers
  import opened Geometry
  import opened Text
  import opened ScreenSearch
  import Device

  /**
   * `search_text_in_screen` on the recognised text: the first target, in
   * list order, that occurs in it.
   */
  function FindTarget(targets: seq<string>, text: string): (r: Option<string>)
    ensures r.Some? ==> exists i ::
      && 0 <= i < |targets| && targets[i] == r.value && Contains(text, targets[i])
      && forall j :: 0 <= j < i ==> !Contains(text, targets[j])
    ensures r.None? <==> forall j :: 0 <= j < |targets| ==> !Contains(text, targets[j])
  {
    match FirstContained(targets, text)
    case None => None
    case Some(i) => Some(targets[i])
  }

  /**
   * The simple monitor finds the same target as the game monitor's search
   * on the same content (which, with OCR on, leaves the coordinates alone).
   */
  lemma FindTargetAgrees(targets: seq<string>, text: string, tt: Option<string>, lc: Option<Point>)
    ensures var s := SearchSpec(targets, text, true, tt, lc);
      && (FindTarget(targets, text).Some? <==> s.found)
      && (s.found ==> s.targetText == FindTarget(targets, text))
      && s.coords == lc
  {
  }

  /** `output.strip().split("\n")`: the lines of the `adb devices` output. */
  function DeviceLines(output: string): seq<string> {
    SplitOn(Strip(output), '\n')
  }

  /** The lines after the header that are not blank and mention `"device"`, in order. */
  function DeviceEntries(lines: seq<string>): (r: seq<string>)
    ensures forall k :: 0 <= k < |r| ==> Strip(r[k]) != "" && Contains(r[k], "device")
  {
    if lines == [] then []
    else if Strip(lines[0]) != "" && Contains(lines[0], "device") then [lines[0]] + DeviceEntries(lines[1..])
    else DeviceEntries(lines[1..])
  }

  /** The filter keeps something exactly when some line passes it. */
  lemma {:induction false} DeviceEntriesNonEmpty(lines: seq<string>)
    ensures |DeviceEntries(lines)| > 0 <==>
      exists k :: 0 <= k < |lines| && Strip(lines[k]) != "" && Contains(lines[k], "device")
  {
    if lines != [] {
      DeviceEntriesNonEmpty(lines[1..]);
      assert forall k :: 1 <= k < |lines| ==> lines[k] == lines[1..][k - 1];
    }
  }

  /** `check_device_connected`. */
  predicate DeviceConnected(output: string) {
    var lines := DeviceLines(output);
    |lines| > 1 && |DeviceEntries(lines[1..])| > 0
  }

  /** A line that contains `"device"` is never blank: its `d` survives `strip()`. */
  lemma MentionIsNotBlank(line: string)
    requires Contains(line, "device")
    ensures Strip(line) != ""
  {
    var i :| 0 <= i <= |line| && OccursAt(line, "device", i);
    assert line[i] == 'd' && !IsSpace(line[i]);
    var t := TrimStart(line);
    var j := i - (|line| - |t|);
    assert 0 <= j < |t| && t[j] == line[i];
    assert j < |TrimEnd(t)|;
  }

  /**
   * So the device test comes down to: some line after the header mentions
   * `"device"`; the blank-line filter never excludes anything.
   */
  lemma DeviceConnectedIff(output: string)
    ensures DeviceConnected(output) <==>
      (exists k :: 1 <= k < |DeviceLines(output)| && Contains(DeviceLines(output)[k], "device"))
  {
    var lines := DeviceLines(output);
    if |lines| > 1 {
      DeviceEntriesNonEmpty(lines[1..]);
    }
    if exists k :: 1 <= k < |lines| && Contains(lines[k], "device") {
      var k :| 1 <= k < |lines| && Contains(lines[k], "device");
      MentionIsNotBlank(lines[k]);
      assert lines[1..][k - 1] == lines[k];
    }
    if DeviceConnected(output) {
      var k :| 0 <= k < |lines[1..]| && Strip(lines[1..][k]) != "" && Contains(lines[1..][k], "device");
      assert lines[k + 1] == lines[1..][k];
    }
  }

  /** The header line of `adb devices`. */
  const AdbHeader: string := "List of devices attached"
  /** A device line for a device that is attached but offline. */
  const OfflineLine: string := "emulator-5554\toffline"

  /** A string that lacks the first character of `sub` does not contain `sub`. */
  lemma LacksFirstChar(s: string, sub: string)
    requires |sub| > 0 && sub[0] !in s
    ensures !Contains(s, sub)
  {
    forall i | 0 <= i <= |s|
      ensures !OccursAt(s, sub, i)
    {
      assert i + |sub| <= |s| ==> s[i..i + |sub|][0] == s[i];
    }
  }

  /** The device line neither mentions "device" nor holds a line break. */
  lemma OfflineLineFacts()
    ensures !Contains(OfflineLine, "device") && '\n' !in OfflineLine
  {
    assert 'd' !in OfflineLine;
    LacksFirstChar(OfflineLine, "device");
  }

  lemma HeaderHasNoBreak()
    ensures '\n' !in AdbHeader
  {
  }

  /** `adb devices` output listing only an offline device splits into the header and its line. */
  lemma OfflineListingLines()
    ensures DeviceLines(AdbHeader + "\n" + OfflineLine) == [AdbHeader, OfflineLine]
  {
    var out := AdbHeader + "\n" + OfflineLine;
    assert out[0] == 'L' && out[|out| - 1] == 'e';
    StripUnchanged(out);
    HeaderHasNoBreak();
    OfflineLineFacts();
    SplitJoined(AdbHeader, OfflineLine, '\n');
  }

  /**
   * The two gates disagree on a device listed as offline: the header line
   * itself mentions "devices", so the test tools' gate passes, while the
   * simple monitor, which looks only below the header, does not.
   */
  lemma OfflineDevicePassesToolGateOnly()
    ensures Device.DevicesListed(AdbHeader + "\n" + OfflineLine)
    ensures !DeviceConnected(AdbHeader + "\n" + OfflineLine)
  {
    var out := AdbHeader + "\n" + OfflineLine;
    assert OccursAt(out, "device", 8);
    OfflineListingLines();
    OfflineLineFacts();
    DeviceConnectedIff(out);
  }

  /** One notification: the text found and the time it was sent. */
  datatype Notice = Notice(text: string, time: real)

  /**
   * The loop state of `monitor`: the checks made, the text found by the
   * last check, the time of the last notification (0 before any) and the
   * notifications sent, in order.
   */
  datatype MonitorState = MonitorState(checks: nat, foundText: Option<string>, lastNotification: real, sent: seq<Notice>)

  /** What one pass of the loop sees: whether the app is running, the recognised text, the clock. */
  datatype Observation = Observation(appRunning: bool, text: string, now: real)

  /** `if result:` — an empty target string is found but counts as nothing found. */
  function Truthy(r: Option<string>): (t: Option<string>)
    ensures t.Some? <==> r.Some? && r.value != ""
    ensures t.Some? ==> t == r
  {
    if r.Some? && r.value != "" then r else None
  }

  /**
   * One pass of the monitor loop: with the app not running, or nothing
   * found, the found text is cleared; with a target found, a notification
   * is sent when at least `interval` has passed since the last one, and
   * only then does the time of the last notification change.
   */
  function Round(targets: seq<string>, interval: real, st: MonitorState, o: Observation): (r: MonitorState)
    ensures r.checks == st.checks + 1
    ensures r.foundText == (if o.appRunning then Truthy(FindTarget(targets, o.text)) else None)
    ensures r.sent == st.sent ==> r.lastNotification == st.lastNotification
    ensures r.sent != st.sent ==>
      && r.foundText.Some?
      && o.now - st.lastNotification >= interval
      && r.sent == st.sent + [Notice(r.foundText.value, o.now)]
      && r.lastNotification == o.now
    ensures r.foundText.Some? && o.now - st.lastNotification >= interval ==> r.sent != st.sent
  {
    var st1 := st.(checks := st.checks + 1);
    if !o.appRunning then st1.(foundText := None)
    else
      match Truthy(FindTarget(targets, o.text))
      case None => st1.(foundText := None)
      case Some(t) =>
        if o.now - st.lastNotification >= interval then
          st1.(foundText := Some(t), lastNotification := o.now, sent := st.sent + [Notice(t, o.now)])
        else st1.(foundText := Some(t))
  }

  /**
   * The throttle's invariant: the time of the last notification is that of
   * the last one sent (0 before any), and notifications are at least
   * `interval` apart.
   */
  predicate Spaced(interval: real, st: MonitorState) {
    && st.lastNotification == (if st.sent == [] then 0.0 else st.sent[|st.sent| - 1].time)
    && forall i :: 1 <= i < |st.sent| ==> st.sent[i].time - st.sent[i - 1].time >= interval
  }

  lemma RoundKeepsSpaced(targets: seq<string>, interval: real, st: MonitorState, o: Observation)
    requires Spaced(interval, st)
    ensures Spaced(interval, Round(targets, interval, st, o))
  {
  }

  /** The loop over the passes it gets to make, until it sees the stop flag (`stop[i]`: raised before pass `i`). */
  function Run(targets: seq<string>, interval: real, st: MonitorState, obs: seq<Observation>, stop: seq<bool>): (r: MonitorState)
    requires |stop| == |obs|
    ensures |st.sent| <= |r.sent| && r.sent[..|st.sent|] == st.sent
    ensures forall k :: |st.sent| <= k < |r.sent| ==> exists i :: 0 <= i < |obs| && r.sent[k].time == obs[i].now
    decreases |obs|
  {
    if obs == [] || stop[0] then st
    else
      var st1 := Round(targets, interval, st, obs[0]);
      var r := Run(targets, interval, st1, obs[1..], stop[1..]);
      assert forall k :: |st.sent| <= k < |r.sent| ==> exists i :: 0 <= i < |obs| && r.sent[k].time == obs[i].now by {
        forall k | |st.sent| <= k < |r.sent|
          ensures exists i :: 0 <= i < |obs| && r.sent[k].time == obs[i].now
        {
          if k < |st1.sent| {
            assert r.sent[k] == st1.sent[k];
            assert r.sent[k].time == obs[0].now;
          } else {
            var i :| 0 <= i < |obs[1..]| && r.sent[k].time == obs[1..][i].now;
            assert r.sent[k].time == obs[i + 1].now;
          }
        }
      }
      r
  }

  /** However long it runs, the monitor never notifies twice within `interval`. */
  lemma {:induction false} RunKeepsSpaced(targets: seq<string>, interval: real, st: MonitorState,
                                          obs: seq<Observation>, stop: seq<bool>)
    requires |stop| == |obs| && Spaced(interval, st)
    ensures Spaced(interval, Run(targets, interval, st, obs, stop))
    decreases |obs|
  {
    if obs != [] && !stop[0] {
      RoundKeepsSpaced(targets, interval, st, obs[0]);
      RunKeepsSpaced(targets, interval, Round(targets, interval, st, obs[0]), obs[1..], stop[1..]);
    }
  }

  /** An empty string first in the target list is always found, and so hides every other target. */
  lemma EmptyTargetHidesOthers(targets: seq<string>, interval: real, st: MonitorState, o: Observation)
    requires |targets| > 0 && targets[0] == ""
    ensures Round(targets, interval, st, o).foundText == None
    ensures Round(targets, interval, st, o).sent == st.sent
  {
    assert OccursAt(o.text, "", 0);
  }

  /**
   * The monitor object. `check_count`, `found_text` and
   * `last_notification_time` are locals of `monitor`, so they live in the
   * `MonitorState` it returns rather than in fields.
   */
  class SimpleTextMonitor {
    const targetTexts: seq<string>
    var stopRequested: bool

    /** The constructor's normalisation of a single target into a list. */
    constructor(target: TargetArg)
      ensures targetTexts == TargetTexts(target) && !stopRequested
    {
      targetTexts := TargetTexts(target);
      stopRequested := false;
    }

    /** `search_text_in_screen` on the recognised text. */
    method SearchTextInScreen(text: string) returns (r: Option<string>)
      ensures r == FindTarget(targetTexts, text)
    {
      for i := 0 to |targetTexts|
        invariant forall j :: 0 <= j < i ==> !Contains(text, targetTexts[j])
      {
        if Contains(text, targetTexts[i]) {
          return Some(targetTexts[i]);
        }
      }
      return None;
    }

    /** `stop`. */
    method Stop()
      modifies this
      ensures stopRequested
    {
      stopRequested := true;
    }

    /**
     * `monitor`, given the `adb devices` output and what each pass would
     * observe: `None` when no device is connected; otherwise the loop's
     * final state, with a pass per observation until the stop flag is
     * seen (`stop[i]`: raised by another thread before pass `i` starts).
     */
    method Monitor(devices: string, interval: real, obs: seq<Observation>, stop: seq<bool>)
      returns (r: Option<MonitorState>)
      requires |stop| == |obs|
      ensures !DeviceConnected(devices) <==> r.None?
      ensures r.Some? && stopRequested ==> r.value == MonitorState(0, None, 0.0, [])
      ensures r.Some? && !stopRequested ==> r.value == Run(targetTexts, interval, MonitorState(0, None, 0.0, []), obs, stop)
    {
      var lines := SplitOn(Strip(devices), '\n');
      if |lines| <= 1 {
        return None;
      }
      var entries := DeviceEntries(lines[1..]);
      if |entries| == 0 {
        return None;
      }
      var checkCount: nat := 0;
      var foundText: Option<string> := None;
      var lastNotificationTime: real := 0.0;
      var sent: seq<Notice> := [];
      ghost var start := MonitorState(0, None, 0.0, []);
      var stopped := stopRequested;
      var i := 0;
      while i < |obs| && !(stopped || stop[i])
        invariant 0 <= i <= |obs|
        invariant !stopped ==>
          Run(targetTexts, interval, MonitorState(checkCount, foundText, lastNotificationTime, sent), obs[i..], stop[i..])
            == Run(targetTexts, interval, start, obs, stop)
        invariant stopped ==> i == 0 && MonitorState(checkCount, foundText, lastNotificationTime, sent) == start
      {
        var o := obs[i];
        ghost var before := MonitorState(checkCount, foundText, lastNotificationTime, sent);
        checkCount := checkCount + 1;
        if !o.appRunning {
          foundText := None;
        } else {
          var result := SearchTextInScreen(o.text);
          if result.Some? && result.value != "" {
            foundText := result;
            if o.now - lastNotificationTime >= interval {
              sent := sent + [Notice(result.value, o.now)];
              lastNotificationTime := o.now;
            }
          } else {
            foundText := None;
          }
        }
        assert MonitorState(checkCount, foundText, lastNotificationTime, sent) == Round(targetTexts, interval, before, o);
        assert obs[i..][1..] == obs[i + 1..] && stop[i..][1..] == stop[i + 1..];
        assert Run(targetTexts, interval, before, obs[i..], stop[i..])
            == Run(targetTexts, interval, Round(targetTexts, interval, before, o), obs[i + 1..], stop[i + 1..]);
        i := i + 1;
      }
      return Some(MonitorState(checkCount, foundText, lastNotificationTime, sent));
    }
  }
}
