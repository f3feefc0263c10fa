/**
 * The pixel-colour tool that produces the pattern tables: it reads the
 * colour of each point of a five-point neighbourhood (centre, left, right,
 * up, down) from a screenshot and prints them as pattern entries.
 */
module PixelColors {
  import opened Wrappers
  import opened Text
  import opened Numbers
  import opened Geometry
  import opened HexColor
  import opened Pixels
  import opened Device
  import InternalSpec

  /** What `get_pixel_color` puts before the exception's message when the read fails. */
  const ErrorPrefix: string := "ERROR: "

  /**
   * `get_pixel_color(img, x, y)`, where `message` is the text of the
   * exception a failed read raises: the colour as `#RRGGBB` in upper case,
   * which parses back to the pixel's channels, or the error text.
   */
  function GetPixelColor(frame: Frame, p: Point, message: string): (s: string)
    ensures frame(p).Some? ==> IsCanonicalHex(s) && ParseHexColor(s) == frame(p)
    ensures frame(p).None? ==> s == ErrorPrefix + message
  {
    match frame(p)
    case Some(c) =>
      ParseFormatHex(c);
      FormatHex(c)
    case None => ErrorPrefix + message
  }

  /**
   * An error text copied into a pattern table is never a colour: it does
   * not parse (so `_internal` raises on it and `.app` never counts it).
   */
  lemma ErrorTextIsNoColor(message: string)
    ensures !IsCanonicalHex(ErrorPrefix + message)
    ensures ParseHexColor(ErrorPrefix + message).None?
  {
    var s := ErrorPrefix + message;
    assert s[1] == 'R';
    assert PySlice(s, 1, 3) == "RR";
  }

  /** The five positions of a neighbourhood, in the order the tool lists them. */
  datatype Position = Centre | Left | Right | Up | Down

  /** The label of entry `i`: indices 0 to 4 name the positions, later ones get none. */
  function PositionOf(i: nat): (r: Option<Position>)
    ensures r.Some? <==> i < 5
  {
    if i == 0 then Some(Centre)
    else if i == 1 then Some(Left)
    else if i == 2 then Some(Right)
    else if i == 3 then Some(Up)
    else if i == 4 then Some(Down)
    else None
  }

  /** Where a position lies relative to the centre. */
  function Shift(c: Point, pos: Position, offset: int): Point {
    match pos
    case Centre => c
    case Left => Point(c.x - offset, c.y)
    case Right => Point(c.x + offset, c.y)
    case Up => Point(c.x, c.y - offset)
    case Down => Point(c.x, c.y + offset)
  }

  /** The five points around `c`: centre, left, right, up, down. */
  function Neighbourhood(c: Point, offset: int): (ns: seq<Point>)
    ensures |ns| == 5
    ensures forall i :: 0 <= i < 5 ==> ns[i] == Shift(c, PositionOf(i).value, offset)
  {
    [c, Point(c.x - offset, c.y), Point(c.x + offset, c.y), Point(c.x, c.y - offset), Point(c.x, c.y + offset)]
  }

  /** `get_predefined_coords`. */
  function PredefinedCoords(): (m: map<string, seq<Point>>)
    ensures m.Keys == {"step3", "step4", "step5"}
  {
    map[
      "step3" := [Point(550, 1136), Point(545, 1136), Point(555, 1136), Point(550, 1131), Point(550, 1141)],
      "step4" := [Point(538, 1470), Point(533, 1470), Point(543, 1470), Point(538, 1465), Point(538, 1475)],
      "step5" := [Point(514, 819), Point(509, 819), Point(519, 819), Point(514, 814), Point(514, 824)]
    ]
  }

  /**
   * Each predefined list is the neighbourhood, at offset 5, of the point the
   * monitor taps or checks for that step: the step-3 and step-4 buttons, and
   * the centre point the `_internal` build taps.
   */
  lemma PredefinedAreNeighbourhoods()
    ensures PredefinedCoords()["step3"] == Neighbourhood(Step3Point, 5)
    ensures PredefinedCoords()["step4"] == Neighbourhood(Step4Point, 5)
    ensures PredefinedCoords()["step5"] == Neighbourhood(InternalSpec.CenterPoint, 5)
  {
  }

  /**
   * `x, y = map(int, text.split(","))` on the stripped input: exactly two
   * comma-separated integers, or `None` where the tool reports invalid
   * coordinates.
   */
  function ParseManual(input: string): (r: Option<Point>)
    ensures r.Some? <==> (
      && |SplitOn(Strip(input), ',')| == 2
      && ParseInt(SplitOn(Strip(input), ',')[0]).Some?
      && ParseInt(SplitOn(Strip(input), ',')[1]).Some?)
    ensures r.Some? ==> r.value == Point(ParseInt(SplitOn(Strip(input), ',')[0]).value, ParseInt(SplitOn(Strip(input), ',')[1]).value)
  {
    var parts := SplitOn(Strip(input), ',');
    if |parts| == 2 && ParseInt(parts[0]).Some? && ParseInt(parts[1]).Some? then
      Some(Point(ParseInt(parts[0]).value, ParseInt(parts[1]).value))
    else None
  }

  /** The text `"x,y"` the tool asks for parses back to the point. */
  lemma ManualRoundTrip(x: nat, y: nat)
    ensures ParseManual(NatToString(x) + "," + NatToString(y)) == Some(Point(x, y))
  {
    var sx, sy := NatToString(x), NatToString(y);
    var s := sx + "," + sy;
    assert s[0] == sx[0] && s[|s| - 1] == sy[|sy| - 1];
    StripUnchanged(s);
    assert ',' !in sx && ',' !in sy by {
      assert forall i :: 0 <= i < |sx| ==> IsDigit(sx[i]);
      assert forall i :: 0 <= i < |sy| ==> IsDigit(sy[i]);
    }
    SplitJoined(sx, sy, ',');
    ParseIntOfNatToString(x);
    ParseIntOfNatToString(y);
  }

  /** The colours the tool reads for `coords`, in order. */
  function ColorsOf(frame: Frame, coords: seq<Point>, messages: Point -> string): (colors: seq<string>)
    ensures |colors| == |coords|
  {
    seq(|coords|, i requires 0 <= i < |coords| => GetPixelColor(frame, coords[i], messages(coords[i])))
  }

  /** The colour-reading loop of `main`, appending one colour per coordinate. */
  method CollectColors(frame: Frame, coords: seq<Point>, messages: Point -> string) returns (colors: seq<string>)
    ensures colors == ColorsOf(frame, coords, messages)
  {
    colors := [];
    for i := 0 to |coords|
      invariant colors == ColorsOf(frame, coords[..i], messages)
    {
      colors := colors + [GetPixelColor(frame, coords[i], messages(coords[i]))];
      assert coords[..i + 1][..i] == coords[..i];
    }
    assert coords[..|coords|] == coords;
  }

  /** One printed entry: `{'coord': (x, y), 'color': '...'},` and its position comment, if any. */
  datatype ConfigEntry = ConfigEntry(coord: Point, color: string, position: Option<Position>)

  /** The entries `print_pattern_config` prints: one per pair of `zip(coords, colors)`. */
  function PatternConfig(coords: seq<Point>, colors: seq<string>): (es: seq<ConfigEntry>)
    ensures |es| == if |coords| <= |colors| then |coords| else |colors|
  {
    var n := if |coords| <= |colors| then |coords| else |colors|;
    seq(n, i requires 0 <= i < n => ConfigEntry(coords[i], colors[i], PositionOf(i)))
  }

  /** The `enumerate(zip(coords, colors))` loop of `print_pattern_config`. */
  method PrintPatternConfig(coords: seq<Point>, colors: seq<string>) returns (entries: seq<ConfigEntry>)
    ensures |entries| == if |coords| <= |colors| then |coords| else |colors|
    ensures forall i :: 0 <= i < |entries| ==>
      entries[i].coord == coords[i] && entries[i].color == colors[i] && (entries[i].position.Some? <==> i < 5)
    ensures entries == PatternConfig(coords, colors)
  {
    entries := [];
    var i := 0;
    while i < |coords| && i < |colors|
      invariant 0 <= i <= |coords| && i <= |colors|
      invariant entries == PatternConfig(coords[..i], colors[..i])
    {
      var position: Option<Position> := None;
      if i == 0 {
        position := Some(Centre);
      } else if i == 1 {
        position := Some(Left);
      } else if i == 2 {
        position := Some(Right);
      } else if i == 3 {
        position := Some(Up);
      } else if i == 4 {
        position := Some(Down);
      }
      entries := entries + [ConfigEntry(coords[i], colors[i], position)];
      i := i + 1;
    }
    assert coords[..i] == coords || colors[..i] == colors;
    if i == |coords| {
      assert coords[..i] == coords;
    }
    if i == |colors| {
      assert colors[..i] == colors;
    }
  }

  /**
   * The printed comments are true: in the configuration of a neighbourhood,
   * each labelled entry lies at the position its label names.
   */
  lemma LabelsMatchPositions(c: Point, colors: seq<string>)
    requires |colors| >= 5
    ensures var es := PatternConfig(Neighbourhood(c, 5), colors);
      |es| == 5 && forall i :: 0 <= i < 5 ==> es[i].position.Some? && es[i].coord == Shift(c, es[i].position.value, 5)
  {
  }

  /** The pattern entries a printed configuration stands for. */
  function Samples(es: seq<ConfigEntry>): (samples: seq<Sample>)
    ensures |samples| == |es|
    ensures forall i :: 0 <= i < |es| ==> samples[i] == Sample(es[i].coord, es[i].color)
  {
    seq(|es|, i requires 0 <= i < |es| => Sample(es[i].coord, es[i].color))
  }

  /** Each printed entry whose read succeeded holds the colour of its own pixel. */
  lemma PrintedEntryParses(frame: Frame, coords: seq<Point>, messages: Point -> string, i: nat)
    requires i < |coords| && frame(coords[i]).Some?
    ensures var s := Samples(PatternConfig(coords, ColorsOf(frame, coords, messages)))[i];
      s.coord == coords[i] && ParseHexColor(s.color) == frame(coords[i])
  {
  }

  /** A pattern whose every colour is the colour of its pixel matches in full in the `.app` sense. */
  lemma SelfPatternAppHits(frame: Frame, samples: seq<Sample>, tolerance: int)
    requires tolerance >= 0
    requires forall i :: 0 <= i < |samples| ==>
      frame(samples[i].coord).Some? && ParseHexColor(samples[i].color) == frame(samples[i].coord)
    ensures CountTrue(AppHits(frame, samples, tolerance)) == |samples|
  {
    var h := AppHits(frame, samples, tolerance);
    forall i | 0 <= i < |samples|
      ensures h[i]
    {
      ChannelwiseTolerance(frame(samples[i].coord).value, frame(samples[i].coord).value, tolerance);
    }
    CountTrueExtremes(h);
  }

  /** A parsed sample whose colour is that of its pixel is a hit. */
  lemma SelfHit(frame: Frame, e: Expected, s: Sample, tolerance: int)
    requires tolerance >= 0 && e.coord == s.coord
    requires ParseHexColor(s.color) == Some(e.rgb) && ParseHexColor(s.color) == frame(s.coord)
    ensures Hit(frame, e, tolerance)
  {
    ChannelwiseTolerance(e.rgb, e.rgb, tolerance);
  }

  /** ... and, its colours all parsing, in the `_internal` sense. */
  lemma SelfPatternHits(frame: Frame, samples: seq<Sample>, tolerance: int)
    requires tolerance >= 0
    requires forall i :: 0 <= i < |samples| ==>
      frame(samples[i].coord).Some? && ParseHexColor(samples[i].color) == frame(samples[i].coord)
    ensures ParseSamples(samples).Some?
    ensures CountTrue(Hits(frame, ParseSamples(samples).value, tolerance)) == |samples|
  {
    var parsed := ParseSamples(samples);
    assert parsed.Some?;
    var expected := parsed.value;
    var h := Hits(frame, expected, tolerance);
    forall i | 0 <= i < |expected|
      ensures h[i]
    {
      SelfHit(frame, expected[i], samples[i], tolerance);
    }
    CountTrueExtremes(h);
  }

  /**
   * What the tool is for: where every read succeeds, the entries it prints
   * form a pattern that matches the screenshot they were read from, in both
   * builds' sense, for any tolerance that is not negative.
   */
  lemma PrintedPatternMatches(frame: Frame, coords: seq<Point>, messages: Point -> string, tolerance: int)
    requires tolerance >= 0
    requires forall i :: 0 <= i < |coords| ==> frame(coords[i]).Some?
    ensures var samples := Samples(PatternConfig(coords, ColorsOf(frame, coords, messages)));
      && CountTrue(AppHits(frame, samples, tolerance)) == |samples|
      && ParseSamples(samples).Some?
      && CountTrue(Hits(frame, ParseSamples(samples).value, tolerance)) == |samples|
  {
    var samples := Samples(PatternConfig(coords, ColorsOf(frame, coords, messages)));
    forall i | 0 <= i < |samples|
      ensures frame(samples[i].coord).Some? && ParseHexColor(samples[i].color) == frame(samples[i].coord)
    {
      PrintedEntryParses(frame, coords, messages, i);
    }
    SelfPatternAppHits(frame, samples, tolerance);
    SelfPatternHits(frame, samples, tolerance);
  }

  /** How a run of the tool's `main` ends. */
  datatype ToolOutcome =
    | NoDevice
    | NoScreenshot
    | Printed(configs: seq<(string, seq<ConfigEntry>)>)
    | BadCoordinates
    | BadChoice

  /** The configuration the tool prints for one step. */
  function ConfigFor(frame: Frame, name: string, coords: seq<Point>, messages: Point -> string): (string, seq<ConfigEntry>) {
    (name, PatternConfig(coords, ColorsOf(frame, coords, messages)))
  }

  /**
   * `main`, given the `adb devices` output, the menu choice, the screenshot
   * (`None` when it cannot be opened), the manual coordinates typed for
   * choice 5 and the error messages of failed reads.
   */
  method RunTool(devices: string, choice: string, img: Option<Frame>, manual: string, messages: Point -> string)
    returns (out: ToolOutcome)
    ensures !DevicesListed(devices) ==> out == NoDevice
    ensures DevicesListed(devices) && img.None? ==> out == NoScreenshot
    ensures DevicesListed(devices) && img.Some? ==>
      var f := img.value;
      var pre := PredefinedCoords();
      var c := Strip(choice);
      && (c == "1" ==> out == Printed([ConfigFor(f, "step3", pre["step3"], messages)]))
      && (c == "2" ==> out == Printed([ConfigFor(f, "step4", pre["step4"], messages)]))
      && (c == "3" ==> out == Printed([ConfigFor(f, "step5", pre["step5"], messages)]))
      && (c == "4" ==> out == Printed([ConfigFor(f, "step3", pre["step3"], messages),
                                      ConfigFor(f, "step4", pre["step4"], messages),
                                      ConfigFor(f, "step5", pre["step5"], messages)]))
      && (c == "5" ==> out == match ParseManual(manual)
                           case None => BadCoordinates
                           case Some(p) => Printed([ConfigFor(f, "custom", Neighbourhood(p, 5), messages)]))
      && (c !in {"1", "2", "3", "4", "5"} ==> out == BadChoice)
  {
    if !DevicesListed(devices) {
      return NoDevice;
    }
    var c := Strip(choice);
    if img.None? {
      return NoScreenshot;
    }
    var frame := img.value;
    var pre := PredefinedCoords();
    if c == "1" {
      var config := PrintStep(frame, "step3", pre["step3"], messages);
      return Printed([config]);
    } else if c == "2" {
      var config := PrintStep(frame, "step4", pre["step4"], messages);
      return Printed([config]);
    } else if c == "3" {
      var config := PrintStep(frame, "step5", pre["step5"], messages);
      return Printed([config]);
    } else if c == "4" {
      var configs := PrintAllSteps(frame, pre, messages);
      return Printed(configs);
    } else if c == "5" {
      var p := ParseManual(Strip(manual));
      StripIdempotent(manual);
      if p.None? {
        return BadCoordinates;
      }
      var config := PrintStep(frame, "custom", Neighbourhood(p.value, 5), messages);
      return Printed([config]);
    }
    return BadChoice;
  }

  /** Reads the colours at `coords` and prints them as the configuration named `name`. */
  method PrintStep(frame: Frame, name: string, coords: seq<Point>, messages: Point -> string)
    returns (config: (string, seq<ConfigEntry>))
    ensures config == ConfigFor(frame, name, coords, messages)
  {
    var colors := CollectColors(frame, coords, messages);
    var entries := PrintPatternConfig(coords, colors);
    config := (name, entries);
  }

  /** Choice 4: the three predefined steps, in order. */
  method PrintAllSteps(frame: Frame, pre: map<string, seq<Point>>, messages: Point -> string)
    returns (configs: seq<(string, seq<ConfigEntry>)>)
    requires "step3" in pre && "step4" in pre && "step5" in pre
    ensures configs == [ConfigFor(frame, "step3", pre["step3"], messages),
                        ConfigFor(frame, "step4", pre["step4"], messages),
                        ConfigFor(frame, "step5", pre["step5"], messages)]
  {
    var names := ["step3", "step4", "step5"];
    configs := [];
    for k := 0 to 3
      invariant |configs| == k
      invariant forall j :: 0 <= j < k ==> configs[j] == ConfigFor(frame, names[j], pre[names[j]], messages)
    {
      var config := PrintStep(frame, names[k], pre[names[k]], messages);
      configs := configs + [config];
    }
  }

  /** `input().strip()` before the parse changes nothing: `strip` is idempotent. */
  lemma StripIdempotent(s: string)
    ensures Strip(Strip(s)) == Strip(s)
  {
    StripUnchanged(Strip(s));
  }
}
