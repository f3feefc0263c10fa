/**
 * `find_text_coordinates_for_target` (identical in both builds): the first
 * run of recognised words, in box order, that spells the target
 * case-insensitively and whose first box has positive confidence, and the
 * centre of the rectangle from that box to the run's last box.
 */
module OcrLocator {
  import opened Wrappers
  import opened Text
  import opened Geometry

  /** The recogniser's word boxes, as parallel lists, one entry per box. */
  datatype OcrData = OcrData(
    text: seq<string>, conf: seq<int>,
    left: seq<int>, top: seq<int>, width: seq<int>, height: seq<int>)

  /** The recogniser always returns lists of one common length. */
  predicate WellFormed(d: OcrData) {
    && |d.conf| == |d.text| && |d.left| == |d.text| && |d.top| == |d.text|
    && |d.width| == |d.text| && |d.height| == |d.text|
  }

  /**
   * The outcome of a search: no run found, the centre of the run found, or
   * the `IndexError` a target without words runs into (the scan reaches one
   * past the last box).
   */
  datatype Located = NotFound | Found(center: Point) | IndexFault

  /** Boxes `i .. i + |words| - 1` spell `words`, ignoring case. */
  predicate WordsAt(d: OcrData, words: seq<string>, i: int) {
    && 0 <= i && i + |words| <= |d.text|
    && forall j :: 0 <= j < |words| ==> Lower(d.text[i + j]) == Lower(words[j])
  }

  /** Box `i` starts a run that spells `words` and is confident enough (`conf > 0`). */
  predicate Qualifies(d: OcrData, words: seq<string>, i: int)
    requires WellFormed(d)
  {
    0 <= i < |d.text| && WordsAt(d, words, i) && d.conf[i] > 0
  }

  /** The first box at or after `i` that starts a qualifying run. */
  function FirstRunFrom(d: OcrData, words: seq<string>, i: nat): (r: Option<nat>)
    requires WellFormed(d) && i <= |d.text|
    ensures r.Some? ==> i <= r.value && Qualifies(d, words, r.value)
    ensures r.Some? ==> forall k :: i <= k < r.value ==> !Qualifies(d, words, k)
    ensures r.None? <==> forall k :: i <= k < |d.text| ==> !Qualifies(d, words, k)
    decreases |d.text| - i
  {
    if i == |d.text| then None
    else if Qualifies(d, words, i) then Some(i)
    else FirstRunFrom(d, words, i + 1)
  }

  /** The first box, in scan order, that starts a qualifying run. */
  function FirstRun(d: OcrData, words: seq<string>): (r: Option<nat>)
    requires WellFormed(d)
    ensures r.Some? ==> Qualifies(d, words, r.value)
    ensures r.Some? ==> forall k :: 0 <= k < r.value ==> !Qualifies(d, words, k)
    ensures r.None? <==> forall k :: 0 <= k < |d.text| ==> !Qualifies(d, words, k)
  {
    FirstRunFrom(d, words, 0)
  }

  /** The centre of the rectangle spanned by box `i` and box `last`, with floor division. */
  function Centre(d: OcrData, i: nat, last: nat): Point
    requires WellFormed(d) && i < |d.text| && last < |d.text|
  {
    Point(Midpoint(d.left[i], d.left[last] + d.width[last]),
          Midpoint(d.top[i], d.top[last] + d.height[last]))
  }

  /**
   * The index of the run's last box, `i + k - 1`; for a target without words
   * that is `-1` at `i == 0`, which Python reads as the last box.
   */
  function LastIndex(i: nat, k: nat, n: nat): (last: nat)
    requires i < n && (k == 0 || i + k <= n)
    ensures last < n
  {
    if i + k >= 1 then i + k - 1 else n - 1
  }

  /**
   * The search for the words of a target: the centre of the first
   * qualifying run, from its first box to its last; nothing when no box
   * qualifies; and for a target without words the `IndexError` when no box
   * is confident, the box itself otherwise.
   */
  function LocateWords(d: OcrData, words: seq<string>): (r: Located)
    requires WellFormed(d)
    ensures r.Found? <==> exists i :: Qualifies(d, words, i)
    ensures r.IndexFault? <==> words == [] && forall i :: 0 <= i < |d.text| ==> d.conf[i] <= 0
    ensures r.Found? && words != [] ==>
      var i := FirstRun(d, words).value;
      i + |words| <= |d.text| && r.center == Centre(d, i, i + |words| - 1)
  {
    match FirstRun(d, words)
    case None =>
      NoRunMeans(d, words);
      if words == [] then IndexFault else NotFound
    case Some(i) =>
      RunMeans(d, words, i);
      Found(Centre(d, i, LastIndex(i, |words|, |d.text|)))
  }

  /** `find_text_coordinates_for_target`: the target split on whitespace, then searched. */
  function FindTextCoordinatesForTarget(d: OcrData, target: string): Located
    requires WellFormed(d)
  {
    LocateWords(d, SplitWords(target))
  }

  /** When no box qualifies, none does anywhere, and without words every box has confidence at most 0. */
  lemma NoRunMeans(d: OcrData, words: seq<string>)
    requires WellFormed(d) && FirstRun(d, words).None?
    ensures !exists i :: Qualifies(d, words, i)
    ensures words == [] ==> forall i :: 0 <= i < |d.text| ==> d.conf[i] <= 0
  {
    EmptyWordsQualify(d, words);
  }

  /** A qualifying box `i`; without words, it has positive confidence. */
  lemma RunMeans(d: OcrData, words: seq<string>, i: nat)
    requires WellFormed(d) && FirstRun(d, words) == Some(i)
    ensures i < |d.text| && Qualifies(d, words, i)
    ensures !(words == [] && forall k :: 0 <= k < |d.text| ==> d.conf[k] <= 0)
    ensures words != [] ==> i + |words| <= |d.text| && LastIndex(i, |words|, |d.text|) == i + |words| - 1
  {
  }

  /** With no words to match, every box with positive confidence qualifies. */
  lemma EmptyWordsQualify(d: OcrData, words: seq<string>)
    requires WellFormed(d)
    ensures words == [] ==> forall i :: 0 <= i < |d.text| ==> (Qualifies(d, words, i) <==> d.conf[i] > 0)
  {
  }

  /**
   * A one-word target found at a box of non-negative size is tapped inside
   * that box.
   */
  lemma SingleWordCentreInsideBox(d: OcrData, target: string)
    requires WellFormed(d) && |SplitWords(target)| == 1
    requires FindTextCoordinatesForTarget(d, target).Found?
    requires forall k :: 0 <= k < |d.text| ==> d.width[k] >= 0 && d.height[k] >= 0
    ensures var i := FirstRun(d, SplitWords(target)).value;
      var c := FindTextCoordinatesForTarget(d, target).center;
      d.left[i] <= c.x <= d.left[i] + d.width[i] && d.top[i] <= c.y <= d.top[i] + d.height[i]
  {
  }

  /** Lower-casing every recognised word first changes nothing: the comparison ignores case. */
  function LowerAll(words: seq<string>): (r: seq<string>)
    ensures |r| == |words| && forall k :: 0 <= k < |words| ==> r[k] == Lower(words[k])
  {
    seq(|words|, k requires 0 <= k < |words| => Lower(words[k]))
  }

  lemma LowerIdempotent(s: string)
    ensures Lower(Lower(s)) == Lower(s)
  {
  }

  lemma CaseOfRecognisedTextIgnored(d: OcrData, target: string)
    requires WellFormed(d)
    ensures FindTextCoordinatesForTarget(d.(text := LowerAll(d.text)), target) == FindTextCoordinatesForTarget(d, target)
  {
    var e := d.(text := LowerAll(d.text));
    var words := SplitWords(target);
    forall k | 0 <= k < |d.text|
      ensures Lower(e.text[k]) == Lower(d.text[k])
    {
      LowerIdempotent(d.text[k]);
    }
    forall i | 0 <= i < |d.text|
      ensures Qualifies(e, words, i) <==> Qualifies(d, words, i)
    {
      if WordsAt(d, words, i) {
        forall j | 0 <= j < |words|
          ensures Lower(e.text[i + j]) == Lower(words[j])
        {
          assert Lower(e.text[i + j]) == Lower(d.text[i + j]);
        }
      }
      if WordsAt(e, words, i) {
        forall j | 0 <= j < |words|
          ensures Lower(d.text[i + j]) == Lower(words[j])
        {
          assert Lower(e.text[i + j]) == Lower(d.text[i + j]);
        }
      }
    }
    FirstRunAgrees(d, e, words);
  }

  /** The first qualifying run depends only on which boxes qualify. */
  lemma FirstRunAgrees(d: OcrData, e: OcrData, words: seq<string>)
    requires WellFormed(d) && WellFormed(e) && |d.text| == |e.text|
    requires forall k :: 0 <= k < |d.text| ==> (Qualifies(e, words, k) <==> Qualifies(d, words, k))
    ensures FirstRun(d, words) == FirstRun(e, words)
  {
    var a := FirstRun(d, words);
    var b := FirstRun(e, words);
    if a.Some? {
      assert Qualifies(e, words, a.value);
    }
    if b.Some? {
      assert Qualifies(d, words, b.value);
    }
  }
}
