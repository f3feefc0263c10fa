/**
 * `search_text_in_screen` and the target loop of `get_screen_content_ocr`,
 * which the two builds share apart from the factor the recogniser's image
 * was shrunk by (1 in `_internal`, 2 in `.app`).
 */
module ScreenSearch {
  import opened Wrappers
  import opened Text
  import opened Geometry
  import opened OcrRegion
  import opened OcrLocator
  import opened UiLocator

  /** The `target_text` constructor argument: one string, or a list of them. */
  datatype TargetArg = OneTarget(text: string) | TargetList(texts: seq<string>)

  /** A single string becomes a one-element list; a list is kept as it is. */
  function TargetTexts(arg: TargetArg): (r: seq<string>)
    ensures arg.OneTarget? ==> r == [arg.text]
    ensures arg.TargetList? ==> r == arg.texts
  {
    match arg
    case OneTarget(t) => [t]
    case TargetList(ts) => ts
  }

  /** What the recogniser returned for the cropped (and scaled) screenshot. */
  datatype Recognised = Recognised(text: string, data: OcrData)

  /**
   * The `target_text` and `last_found_coords` fields after the OCR target
   * loop, and whether the loop raised (an `IndexError` from the locator).
   */
  datatype TargetPass = TargetPass(targetText: Option<string>, coords: Option<Point>, raised: bool)

  /** Where the locator puts `target` in the recognised boxes. */
  function Locate(rec: Recognised, target: string): Located
    requires WellFormed(rec.data)
  {
    FindTextCoordinatesForTarget(rec.data, target)
  }

  /**
   * The OCR target loop from index `k` on: each target the recognised text
   * contains is stored as `target_text`; the first one the locator places
   * also sets `last_found_coords`, mapped back to the screen, and ends the
   * loop.
   */
  function LocateFrom(targets: seq<string>, rec: Recognised, box: Box, scale: nat, k: nat,
                      tt: Option<string>, lc: Option<Point>): (r: TargetPass)
    requires WellFormed(rec.data) && k <= |targets|
    decreases |targets| - k
  {
    if k == |targets| then TargetPass(tt, lc, false)
    else if !Contains(rec.text, targets[k]) then LocateFrom(targets, rec, box, scale, k + 1, tt, lc)
    else match Locate(rec, targets[k])
      case Found(c) => TargetPass(Some(targets[k]), Some(MapBack(c, box, scale)), false)
      case NotFound => LocateFrom(targets, rec, box, scale, k + 1, Some(targets[k]), lc)
      case IndexFault => TargetPass(Some(targets[k]), lc, true)
  }

  /**
   * Whatever the loop changes belongs to one contained target: the stored
   * text, the coordinates it placed, the fault it raised. With no contained
   * target nothing changes.
   */
  lemma {:induction false} LocateFromBelongs(targets: seq<string>, rec: Recognised, box: Box, scale: nat, k: nat,
                                             tt: Option<string>, lc: Option<Point>)
    requires WellFormed(rec.data) && k <= |targets|
    ensures var r := LocateFrom(targets, rec, box, scale, k, tt, lc);
      && ((forall j :: k <= j < |targets| ==> !Contains(rec.text, targets[j])) ==> r == TargetPass(tt, lc, false))
      && (r.targetText != tt ==>
            exists j :: k <= j < |targets| && Contains(rec.text, targets[j]) && r.targetText == Some(targets[j]))
      && (r.coords != lc ==>
            exists j :: k <= j < |targets| && Contains(rec.text, targets[j]) && r.targetText == Some(targets[j])
              && Locate(rec, targets[j]).Found? && r.coords == Some(MapBack(Locate(rec, targets[j]).center, box, scale)))
      && (r.raised ==>
            exists j :: k <= j < |targets| && Contains(rec.text, targets[j]) && r.targetText == Some(targets[j])
              && Locate(rec, targets[j]).IndexFault?)
    decreases |targets| - k
  {
    if k < |targets| {
      if !Contains(rec.text, targets[k]) {
        LocateFromBelongs(targets, rec, box, scale, k + 1, tt, lc);
      } else if Locate(rec, targets[k]).NotFound? {
        LocateFromBelongs(targets, rec, box, scale, k + 1, Some(targets[k]), lc);
      }
    }
  }

  /** The loop never leaves coordinates without a target text to go with them. */
  lemma LocateKeepsPairing(targets: seq<string>, rec: Recognised, box: Box, scale: nat, k: nat,
                           tt: Option<string>, lc: Option<Point>)
    requires WellFormed(rec.data) && k <= |targets|
    requires lc.Some? ==> tt.Some?
    ensures var r := LocateFrom(targets, rec, box, scale, k, tt, lc);
      r.coords.Some? ==> r.targetText.Some?
  {
    var r := LocateFrom(targets, rec, box, scale, k, tt, lc);
    LocateFromBelongs(targets, rec, box, scale, k, tt, lc);
    if r.targetText != tt {
      var j :| k <= j < |targets| && Contains(rec.text, targets[j]) && r.targetText == Some(targets[j]);
    }
  }

  /** The target loop as the source runs it, over the whole list. */
  method LocateTargets(targets: seq<string>, rec: Recognised, box: Box, scale: nat,
                       tt: Option<string>, lc: Option<Point>) returns (r: TargetPass)
    requires WellFormed(rec.data)
    ensures r == LocateFrom(targets, rec, box, scale, 0, tt, lc)
  {
    var targetText, coords := tt, lc;
    var i := 0;
    while i < |targets|
      invariant 0 <= i <= |targets|
      invariant LocateFrom(targets, rec, box, scale, 0, tt, lc) == LocateFrom(targets, rec, box, scale, i, targetText, coords)
    {
      if Contains(rec.text, targets[i]) {
        targetText := Some(targets[i]);
        var found := FindTextCoordinatesForTarget(rec.data, targets[i]);
        if found.IndexFault? {
          return TargetPass(targetText, coords, true);
        } else if found.Found? {
          coords := Some(MapBack(found.center, box, scale));
          return TargetPass(targetText, coords, false);
        }
      }
      i := i + 1;
    }
    return TargetPass(targetText, coords, false);
  }

  /**
   * The first contained target decides the outcome when the locator places
   * it: both fields then belong to that target.
   */
  lemma {:induction false} FirstFoundWins(targets: seq<string>, rec: Recognised, box: Box, scale: nat, k: nat,
                                          tt: Option<string>, lc: Option<Point>, i: nat)
    requires WellFormed(rec.data) && k <= i < |targets|
    requires Contains(rec.text, targets[i]) && Locate(rec, targets[i]).Found?
    requires forall j :: k <= j < i ==> !Contains(rec.text, targets[j])
    ensures LocateFrom(targets, rec, box, scale, k, tt, lc)
      == TargetPass(Some(targets[i]), Some(MapBack(Locate(rec, targets[i]).center, box, scale)), false)
    decreases i - k
  {
    if k < i {
      FirstFoundWins(targets, rec, box, scale, k + 1, tt, lc, i);
    }
  }

  /**
   * When the locator places none of the contained targets, the loop leaves
   * `last_found_coords` as it was: a position found on an earlier screen
   * survives although the text is now seen elsewhere or not placed at all.
   */
  lemma {:induction false} UnplacedKeepsCoords(targets: seq<string>, rec: Recognised, box: Box, scale: nat, k: nat,
                                               tt: Option<string>, lc: Option<Point>)
    requires WellFormed(rec.data) && k <= |targets|
    requires forall j :: k <= j < |targets| && Contains(rec.text, targets[j]) ==> Locate(rec, targets[j]).NotFound?
    ensures LocateFrom(targets, rec, box, scale, k, tt, lc).coords == lc
    ensures !LocateFrom(targets, rec, box, scale, k, tt, lc).raised
    decreases |targets| - k
  {
    if k < |targets| {
      var tt' := if Contains(rec.text, targets[k]) then Some(targets[k]) else tt;
      UnplacedKeepsCoords(targets, rec, box, scale, k + 1, tt', lc);
    }
  }

  /** The outcome of one `get_screen_content_ocr` call. */
  datatype OcrPass = OcrPass(content: string, targetText: Option<string>, coords: Option<Point>, keepShot: bool)

  /**
   * `get_screen_content_ocr` on a `width` x `height` screenshot: crop,
   * shrink by `scale`, recognise, run the target loop. A failing crop, an
   * empty shrunk image (which the resize refuses) or a locator fault
   * returns `""` and drops the cached screenshot; otherwise the recognised
   * text is returned and the screenshot stays cached.
   */
  function OcrPassSpec(targets: seq<string>, region: Option<Region>, width: nat, height: nat,
                       rec: Recognised, scale: nat, tt: Option<string>, lc: Option<Point>): (r: OcrPass)
    requires WellFormed(rec.data) && scale > 0
    ensures CropBox(region, width, height).None? ==> r == OcrPass("", tt, lc, false)
  {
    CropPass(targets, CropBox(region, width, height), rec, scale, tt, lc)
  }

  /** The part of the pass after the crop, given the crop box (`None`: the crop failed). */
  function CropPass(targets: seq<string>, box: Option<Box>, rec: Recognised, scale: nat,
                    tt: Option<string>, lc: Option<Point>): (r: OcrPass)
    requires WellFormed(rec.data) && scale > 0
    ensures r.keepShot ==> r.content == rec.text
    ensures !r.keepShot ==> r.content == ""
    ensures r.coords != lc ==> r.keepShot
    ensures r.targetText != tt ==> exists j :: 0 <= j < |targets| && Contains(rec.text, targets[j]) && r.targetText == Some(targets[j])
    ensures box.None? ==> r == OcrPass("", tt, lc, false)
  {
    match box
    case None => OcrPass("", tt, lc, false)
    case Some(b) =>
      if scale > 1 && (ScaledSize(b, scale).0 == 0 || ScaledSize(b, scale).1 == 0) then OcrPass("", tt, lc, false)
      else
        var p := LocateFrom(targets, rec, b, scale, 0, tt, lc);
        LocateFromBelongs(targets, rec, b, scale, 0, tt, lc);
        if p.raised then OcrPass("", p.targetText, p.coords, false)
        else OcrPass(rec.text, p.targetText, p.coords, true)
  }

  /** The outcome of `search_text_in_screen` on given screen content. */
  datatype Search = Search(found: bool, targetText: Option<string>, coords: Option<Point>)

  /**
   * The search proper: the first target, in list order, that is a
   * case-sensitive substring of `content` is stored; with OCR off the
   * coordinates are read from the UI dump for it. Nothing changes when no
   * target occurs.
   */
  function SearchSpec(targets: seq<string>, content: string, useOcr: bool,
                      tt: Option<string>, lc: Option<Point>): (r: Search)
    ensures r.found <==> exists j :: 0 <= j < |targets| && Contains(content, targets[j])
    ensures !r.found ==> r == Search(false, tt, lc)
    ensures r.found ==> exists i ::
      && 0 <= i < |targets| && Contains(content, targets[i])
      && (forall j :: 0 <= j < i ==> !Contains(content, targets[j]))
      && r.targetText == Some(targets[i])
      && r.coords == (if useOcr then lc else FindTextCoordinatesUi(content, targets[i]))
  {
    match FirstContained(targets, content)
    case None => Search(false, tt, lc)
    case Some(i) => Search(true, Some(targets[i]), if useOcr then lc else FindTextCoordinatesUi(content, targets[i]))
  }

  /** The search loop as the source runs it. */
  method SearchTargets(targets: seq<string>, content: string, useOcr: bool,
                       tt: Option<string>, lc: Option<Point>) returns (r: Search)
    ensures r == SearchSpec(targets, content, useOcr, tt, lc)
  {
    for i := 0 to |targets|
      invariant forall j :: 0 <= j < i ==> !Contains(content, targets[j])
    {
      if Contains(content, targets[i]) {
        var coords := if useOcr then lc else FindTextCoordinatesUi(content, targets[i]);
        return Search(true, Some(targets[i]), coords);
      }
    }
    return Search(false, tt, lc);
  }

  /**
   * With OCR on, the search stores the first contained target while the
   * coordinates come from the OCR pass, which may have placed a later
   * target: when the first contained target is not placed but a later one
   * is, the tap goes to the later target's position while `target_text`
   * names the earlier one.
   */
  lemma {:induction false} OcrSearchMixesTargets(targets: seq<string>, rec: Recognised, box: Box, scale: nat,
                                                 tt: Option<string>, lc: Option<Point>, a: nat, b: nat)
    requires WellFormed(rec.data) && a < b < |targets|
    requires forall j :: 0 <= j < a ==> !Contains(rec.text, targets[j])
    requires Contains(rec.text, targets[a]) && Locate(rec, targets[a]).NotFound?
    requires forall j :: a < j < b ==> !Contains(rec.text, targets[j])
    requires Contains(rec.text, targets[b]) && Locate(rec, targets[b]).Found?
    ensures var p := LocateFrom(targets, rec, box, scale, 0, tt, lc);
      var s := SearchSpec(targets, rec.text, true, p.targetText, p.coords);
      s.found && s.targetText == Some(targets[a])
      && s.coords == Some(MapBack(Locate(rec, targets[b]).center, box, scale))
  {
    SkipUncontained(targets, rec, box, scale, 0, a, tt, lc);
    SkipUncontained(targets, rec, box, scale, a + 1, b, Some(targets[a]), lc);
    FirstFoundWins(targets, rec, box, scale, b, Some(targets[a]), lc, b);
    assert FirstContained(targets, rec.text) == Some(a);
  }

  lemma {:induction false} SkipUncontained(targets: seq<string>, rec: Recognised, box: Box, scale: nat, k: nat, i: nat,
                                           tt: Option<string>, lc: Option<Point>)
    requires WellFormed(rec.data) && k <= i <= |targets|
    requires forall j :: k <= j < i ==> !Contains(rec.text, targets[j])
    ensures LocateFrom(targets, rec, box, scale, k, tt, lc) == LocateFrom(targets, rec, box, scale, i, tt, lc)
    decreases i - k
  {
    if k < i {
      SkipOne(targets, rec, box, scale, k, tt, lc);
      SkipUncontained(targets, rec, box, scale, k + 1, i, tt, lc);
    }
  }

  /** A target the text does not contain is passed over. */
  lemma SkipOne(targets: seq<string>, rec: Recognised, box: Box, scale: nat, k: nat,
                tt: Option<string>, lc: Option<Point>)
    requires WellFormed(rec.data) && k < |targets| && !Contains(rec.text, targets[k])
    ensures LocateFrom(targets, rec, box, scale, k, tt, lc) == LocateFrom(targets, rec, box, scale, k + 1, tt, lc)
  {
  }

  /**
   * With OCR on, when the first contained target is placed, the stored
   * target and the coordinates agree: both belong to that target.
   */
  lemma OcrSearchAgrees(targets: seq<string>, rec: Recognised, box: Box, scale: nat,
                        tt: Option<string>, lc: Option<Point>, a: nat)
    requires WellFormed(rec.data) && a < |targets|
    requires forall j :: 0 <= j < a ==> !Contains(rec.text, targets[j])
    requires Contains(rec.text, targets[a]) && Locate(rec, targets[a]).Found?
    ensures var p := LocateFrom(targets, rec, box, scale, 0, tt, lc);
      var s := SearchSpec(targets, rec.text, true, p.targetText, p.coords);
      s.found && s.targetText == Some(targets[a])
      && s.coords == Some(MapBack(Locate(rec, targets[a]).center, box, scale))
  {
    FirstFoundWins(targets, rec, box, scale, 0, tt, lc, a);
    assert FirstContained(targets, rec.text) == Some(a);
  }

  /**
   * A target placed inside the image the recogniser saw is tapped inside
   * the crop box, for both builds' scales.
   */
  lemma PlacedInsideCrop(targets: seq<string>, rec: Recognised, box: Box, scale: nat, tt: Option<string>, lc: Option<Point>)
    requires WellFormed(rec.data) && (scale == 1 || scale == 2)
    requires forall j :: 0 <= j < |targets| && Locate(rec, targets[j]).Found? ==>
      var c := Locate(rec, targets[j]).center;
      0 <= c.x < ScaledSize(box, scale).0 && 0 <= c.y < ScaledSize(box, scale).1
    ensures var p := LocateFrom(targets, rec, box, scale, 0, tt, lc);
      p.coords != lc ==> p.coords.Some? && Inside(p.coords.value, box)
  {
    var p := LocateFrom(targets, rec, box, scale, 0, tt, lc);
    LocateFromBelongs(targets, rec, box, scale, 0, tt, lc);
    if p.coords != lc {
      var j :| 0 <= j < |targets| && Contains(rec.text, targets[j]) && p.targetText == Some(targets[j])
        && Locate(rec, targets[j]).Found? && p.coords == Some(MapBack(Locate(rec, targets[j]).center, box, scale));
      MapBackInside(Locate(rec, targets[j]).center, box, scale);
    }
  }
}
