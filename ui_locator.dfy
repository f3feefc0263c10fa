/**
 * `find_text_coordinates_ui` (identical in both builds): searches a UI
 * hierarchy dump with the regular expression
 * `text="<target>"[^>]*bounds="\[(\d+),(\d+)\]\[(\d+),(\d+)\]"` and returns
 * the midpoint of the bounds of the first match.
 *
 * `re.search` takes the leftmost start; at that start `[^>]*` is greedy, so
 * the bounds attribute used is the last one before the next `>`. The digit
 * groups are always maximal runs, since each is followed by a non-digit.
 */
module UiLocator {
  import opened Wrappers
  import opened Text
  import opened Numbers
  import opened Geometry

  /** `s` holds `lit` at index `i`. */
  predicate LiteralAt(s: string, i: nat, lit: string) {
    i + |lit| <= |s| && s[i..i + |lit|] == lit
  }

  /** The escaped target as it opens the pattern: `text="<target>"`. */
  function Key(target: string): string {
    "text=\"" + target + "\""
  }

  const BoundsOpen: string := "bounds=\"["

  /** The length of the run of ASCII digits that starts at `i`. */
  function DigitRun(s: string, i: nat): (n: nat)
    requires i <= |s|
    ensures i + n <= |s| && AllDigits(s[i..i + n])
    ensures i + n < |s| ==> !IsDigit(s[i + n])
    decreases |s| - i
  {
    if i < |s| && IsDigit(s[i]) then
      var n := 1 + DigitRun(s, i + 1);
      assert s[i..i + n] == [s[i]] + s[i + 1..i + n];
      n
    else 0
  }

  /** A `(\d+)` group at `i`: its value and the index just past it. */
  function NumAt(s: string, i: nat): (r: Option<(nat, nat)>)
    requires i <= |s|
    ensures r.Some? ==> i < r.value.1 <= |s|
  {
    var n := DigitRun(s, i);
    if n == 0 then None else Some((DigitsValue(s[i..i + n]), i + n))
  }

  datatype Bounds = Bounds(x1: nat, y1: nat, x2: nat, y2: nat)

  /** What follows each of the four numbers of `[x1,y1][x2,y2]"`. */
  const BoundsSeps: seq<string> := [",", "][", ",", "]\""]

  /**
   * From `i`, a `(\d+)` group followed by each separator in turn: the
   * numbers read, or `None` at the first mismatch.
   */
  function Groups(s: string, i: nat, seps: seq<string>): (r: Option<seq<nat>>)
    requires i <= |s|
    ensures r.Some? ==> |r.value| == |seps|
    decreases |seps|
  {
    if seps == [] then Some([])
    else
      match NumAt(s, i)
      case None => None
      case Some((n, j)) =>
        if LiteralAt(s, j, seps[0]) then
          match Groups(s, j + |seps[0]|, seps[1..])
          case None => None
          case Some(ns) => Some([n] + ns)
        else None
  }

  /** `bounds="[x1,y1][x2,y2]"` at index `q`, read group by group. */
  function BoundsAt(s: string, q: nat): Option<Bounds>
    requires q <= |s|
  {
    if LiteralAt(s, q, BoundsOpen) then
      match Groups(s, q + |BoundsOpen|, BoundsSeps)
      case None => None
      case Some(ns) => Some(Bounds(ns[0], ns[1], ns[2], ns[3]))
    else None
  }

  /** For every index of `s` (and its end), whether a bounds attribute starts there. */
  function BoundsMarks(s: string): (marks: seq<bool>)
    ensures |marks| == |s| + 1
    ensures forall q :: 0 <= q <= |s| ==> (marks[q] <==> BoundsAt(s, q).Some?)
  {
    seq(|s| + 1, q requires 0 <= q <= |s| => BoundsAt(s, q).Some?)
  }

  /**
   * The pattern matches with the key (`text="<target>"`) at `p` and the
   * bounds attribute at `q`: between the key and `q` there is no `>`, and
   * `marks` says a bounds attribute starts at `q`. The search below is
   * stated over any `marks`; the locator passes `BoundsMarks(s)`.
   */
  predicate MatchAt(s: string, marks: seq<bool>, key: string, p: nat, q: nat) {
    && LiteralAt(s, p, key)
    && p + |key| <= q <= |s|
    && '>' !in s[p + |key|..q]
    && q < |marks| && marks[q]
  }

  /** The last index in `a..q` where `marks` holds (the greedy choice). */
  function LastMark(marks: seq<bool>, a: nat, q: nat): (r: Option<nat>)
    requires a <= q < |marks|
    ensures r.Some? ==> a <= r.value <= q && marks[r.value]
    ensures r.Some? ==> forall k :: r.value < k <= q ==> !marks[k]
    ensures r.None? ==> forall k :: a <= k <= q ==> !marks[k]
    decreases q - a
  {
    if marks[q] then Some(q)
    else if q == a then None
    else LastMark(marks, a, q - 1)
  }

  /** The end of `[^>]*` from `a`: the first `>` at or after `a`, or the end of `s`. */
  function GreedyEnd(s: string, a: nat): (g: nat)
    requires a <= |s|
    ensures a <= g <= |s|
  {
    a + IndexOf(s[a..], '>')
  }

  lemma NoGtUpTo(s: string, a: nat, q: nat)
    requires a <= q <= |s|
    ensures '>' !in s[a..q] <==> q <= GreedyEnd(s, a)
  {
    var g := GreedyEnd(s, a);
    if q > g {
      assert s[a..q][g - a] == '>';
    } else {
      forall k | 0 <= k < q - a
        ensures s[a..q][k] != '>'
      {
        assert s[a..q][k] == s[a..][k];
      }
    }
  }

  /** The greedy match with the key at `p`: the last bounds attribute before the next `>`. */
  function MatchStartingAt(s: string, marks: seq<bool>, key: string, p: nat): (r: Option<nat>)
    requires |marks| == |s| + 1
    ensures r.Some? ==> MatchAt(s, marks, key, p, r.value)
    ensures r.Some? ==> forall q': nat :: r.value < q' ==> !MatchAt(s, marks, key, p, q')
    ensures r.None? <==> forall q: nat :: !MatchAt(s, marks, key, p, q)
  {
    if !LiteralAt(s, p, key) then None
    else
      var a := p + |key|;
      var h := LastMark(marks, a, GreedyEnd(s, a));
      if h.Some? then
        GreedyIsLast(s, marks, key, p, h.value);
        h
      else
        NoMatchWithoutGreedy(s, marks, key, p);
        None
  }

  lemma NoMatchWithoutGreedy(s: string, marks: seq<bool>, key: string, p: nat)
    requires |marks| == |s| + 1
    requires LiteralAt(s, p, key)
    requires LastMark(marks, p + |key|, GreedyEnd(s, p + |key|)).None?
    ensures forall q: nat :: !MatchAt(s, marks, key, p, q)
  {
    var a := p + |key|;
    forall q: nat | MatchAt(s, marks, key, p, q)
      ensures false
    {
      NoGtUpTo(s, a, q);
    }
  }

  lemma GreedyIsLast(s: string, marks: seq<bool>, key: string, p: nat, q: nat)
    requires |marks| == |s| + 1
    requires LiteralAt(s, p, key)
    requires LastMark(marks, p + |key|, GreedyEnd(s, p + |key|)) == Some(q)
    ensures MatchAt(s, marks, key, p, q)
    ensures forall q': nat :: q < q' ==> !MatchAt(s, marks, key, p, q')
  {
    var a := p + |key|;
    NoGtUpTo(s, a, q);
    forall q': nat | q < q' && MatchAt(s, marks, key, p, q')
      ensures false
    {
      NoGtUpTo(s, a, q');
    }
  }

  /** The leftmost start at or after `p` with a match, and the greedy bounds index there. */
  function UiMatchFrom(s: string, marks: seq<bool>, key: string, p: nat): (r: Option<(nat, nat)>)
    requires |marks| == |s| + 1 && p <= |s| + 1
    ensures r.Some? ==> p <= r.value.0 && MatchAt(s, marks, key, r.value.0, r.value.1)
    ensures r.Some? ==> forall p': nat, q': nat :: p <= p' < r.value.0 ==> !MatchAt(s, marks, key, p', q')
    ensures r.Some? ==> forall q': nat :: r.value.1 < q' ==> !MatchAt(s, marks, key, r.value.0, q')
    ensures r.None? <==> forall p': nat, q': nat :: p <= p' ==> !MatchAt(s, marks, key, p', q')
    decreases |s| + 1 - p
  {
    if p > |s| then None
    else
      match MatchStartingAt(s, marks, key, p)
      case Some(q) => Some((p, q))
      case None => UiMatchFrom(s, marks, key, p + 1)
  }

  /** `re.search(pattern, s)`: the leftmost match and, there, the greedy bounds. */
  function UiMatch(s: string, marks: seq<bool>, key: string): (r: Option<(nat, nat)>)
    requires |marks| == |s| + 1
    ensures r.Some? ==> MatchAt(s, marks, key, r.value.0, r.value.1)
    ensures r.Some? ==> forall p': nat, q': nat :: p' < r.value.0 ==> !MatchAt(s, marks, key, p', q')
    ensures r.Some? ==> forall q': nat :: r.value.1 < q' ==> !MatchAt(s, marks, key, r.value.0, q')
    ensures r.None? <==> forall p': nat, q': nat :: !MatchAt(s, marks, key, p', q')
  {
    UiMatchFrom(s, marks, key, 0)
  }

  /** The midpoint of the first matching node's bounds, or `None` when nothing matches. */
  function FindTextCoordinatesUi(s: string, target: string): (r: Option<Point>)
    ensures r.None? <==> forall p: nat, q: nat :: !MatchAt(s, BoundsMarks(s), Key(target), p, q)
    ensures r.Some? ==> exists p: nat, q: nat ::
      && MatchAt(s, BoundsMarks(s), Key(target), p, q)
      && (forall p': nat, q': nat :: p' < p ==> !MatchAt(s, BoundsMarks(s), Key(target), p', q'))
      && (forall q': nat :: q < q' ==> !MatchAt(s, BoundsMarks(s), Key(target), p, q'))
      && BoundsAt(s, q).Some?
      && r.value == Centre(BoundsAt(s, q).value)
  {
    var marks := BoundsMarks(s);
    match UiMatch(s, marks, Key(target))
    case None => None
    case Some((p, q)) =>
      assert marks[q];
      Some(Centre(BoundsAt(s, q).value))
  }

  /** `((x1 + x2) // 2, (y1 + y2) // 2)`. */
  function Centre(b: Bounds): (c: Point)
    ensures b.x1 <= b.x2 ==> b.x1 <= c.x <= b.x2
    ensures b.y1 <= b.y2 ==> b.y1 <= c.y <= b.y2
  {
    Point(Midpoint(b.x1, b.x2), Midpoint(b.y1, b.y2))
  }

  // A node written the way the dump writes it is found again.

  /** Numbers printed each followed by its separator. */
  function Printed(ns: seq<nat>, seps: seq<string>): string
    requires |ns| == |seps|
  {
    if ns == [] then "" else NatToString(ns[0]) + (seps[0] + Printed(ns[1..], seps[1..]))
  }

  /** The bounds attribute as the UI dump prints it: `bounds="[x1,y1][x2,y2]"`. */
  function Render(b: Bounds): string {
    BoundsOpen + Printed([b.x1, b.y1, b.x2, b.y2], BoundsSeps)
  }

  lemma SplitLiteral(s: string, i: nat, u: string, v: string)
    requires LiteralAt(s, i, u + v)
    ensures LiteralAt(s, i, u) && LiteralAt(s, i + |u|, v)
  {
    assert s[i..i + |u|] == s[i..i + |u + v|][..|u|];
    assert s[i + |u|..i + |u| + |v|] == s[i..i + |u + v|][|u|..];
  }

  lemma {:induction false} DigitRunOfDigits(s: string, i: nat, m: nat)
    requires i + m <= |s| && AllDigits(s[i..i + m])
    requires i + m == |s| || !IsDigit(s[i + m])
    ensures DigitRun(s, i) == m
    decreases m
  {
    if m > 0 {
      assert IsDigit(s[i..i + m][0]);
      assert s[i + 1..i + m] == s[i..i + m][1..];
      DigitRunOfDigits(s, i + 1, m - 1);
    }
  }

  /** A printed number followed by something that does not start with a digit is one `(\d+)` group. */
  lemma NumAtPrinted(s: string, i: nat, n: nat, tail: string)
    requires LiteralAt(s, i, NatToString(n) + tail)
    requires tail != [] && !IsDigit(tail[0])
    ensures i + |NatToString(n)| <= |s|
    ensures NumAt(s, i) == Some((n, i + |NatToString(n)|))
    ensures LiteralAt(s, i + |NatToString(n)|, tail)
  {
    var t := NatToString(n);
    SplitLiteral(s, i, t, tail);
    assert s[i + |t|] == s[i + |t|..i + |t| + |tail|][0];
    DigitRunOfDigits(s, i, |t|);
    DigitsValueOfNatToString(n);
  }

  /** Reading a printed number and the separator `sep` after it leaves the parser at `rest`. */
  lemma NumSepPrinted(s: string, i: nat, n: nat, sep: string, rest: string)
    requires LiteralAt(s, i, NatToString(n) + (sep + rest))
    requires sep != [] && !IsDigit(sep[0])
    ensures NumAt(s, i) == Some((n, i + |NatToString(n)|))
    ensures LiteralAt(s, i + |NatToString(n)|, sep)
    ensures LiteralAt(s, i + |NatToString(n)| + |sep|, rest)
  {
    assert (sep + rest)[0] == sep[0];
    NumAtPrinted(s, i, n, sep + rest);
    SplitLiteral(s, i + |NatToString(n)|, sep, rest);
  }

  /** Separators that are not empty and do not start with a digit. */
  predicate Separators(seps: seq<string>) {
    forall k :: 0 <= k < |seps| ==> seps[k] != [] && !IsDigit(seps[k][0])
  }

  /** One group read: the parser goes on after the separator. */
  lemma GroupsStep(s: string, i: nat, seps: seq<string>, n: nat, j: nat, ns: seq<nat>)
    requires i <= |s| && seps != [] && NumAt(s, i) == Some((n, j)) && LiteralAt(s, j, seps[0])
    requires Groups(s, j + |seps[0]|, seps[1..]) == Some(ns)
    ensures Groups(s, i, seps) == Some([n] + ns)
  {
  }

  /** Numbers printed each followed by its separator, read piece by piece from `i`. */
  predicate PrintedAt(s: string, i: nat, ns: seq<nat>, seps: seq<string>)
    requires |ns| == |seps|
    decreases |ns|
  {
    ns != [] ==>
      var j := i + |NatToString(ns[0])|;
      && ReadsNumber(s, i, ns[0])
      && LiteralAt(s, j, seps[0])
      && PrintedAt(s, j + |seps[0]|, ns[1..], seps[1..])
  }

  /** The number `n` is read at `i`, ending where its printed form ends. */
  predicate ReadsNumber(s: string, i: nat, n: nat) {
    i <= |s| && NumAt(s, i) == Some((n, i + |NatToString(n)|))
  }

  /** A printed run of numbers and separators is read piece by piece. */
  lemma {:induction false} PrintedPieces(s: string, i: nat, ns: seq<nat>, seps: seq<string>)
    requires |ns| == |seps| && Separators(seps)
    requires LiteralAt(s, i, Printed(ns, seps))
    ensures PrintedAt(s, i, ns, seps)
    decreases |ns|
  {
    if ns != [] {
      var rest := Printed(ns[1..], seps[1..]);
      assert Printed(ns, seps) == NatToString(ns[0]) + (seps[0] + rest);
      NumSepPrinted(s, i, ns[0], seps[0], rest);
      PrintedPieces(s, i + |NatToString(ns[0])| + |seps[0]|, ns[1..], seps[1..]);
    }
  }

  /** Numbers read piece by piece are what the group parser returns. */
  lemma {:induction false} GroupsOfPieces(s: string, i: nat, ns: seq<nat>, seps: seq<string>)
    requires |ns| == |seps| && i <= |s| && PrintedAt(s, i, ns, seps)
    ensures Groups(s, i, seps) == Some(ns)
    decreases |ns|
  {
    if ns != [] {
      var j := i + |NatToString(ns[0])|;
      GroupsOfPieces(s, j + |seps[0]|, ns[1..], seps[1..]);
      GroupsStep(s, i, seps, ns[0], j, ns[1..]);
      assert [ns[0]] + ns[1..] == ns;
    }
  }

  /** A printed bounds attribute is read back as the same four numbers. */
  lemma BoundsAtRendered(s: string, q: nat, b: Bounds)
    requires LiteralAt(s, q, Render(b))
    ensures BoundsAt(s, q) == Some(b)
  {
    var ns := [b.x1, b.y1, b.x2, b.y2];
    SplitLiteral(s, q, BoundsOpen, Printed(ns, BoundsSeps));
    PrintedPieces(s, q + |BoundsOpen|, ns, BoundsSeps);
    GroupsOfPieces(s, q + |BoundsOpen|, ns, BoundsSeps);
  }

  /** Printed numbers hold a `b` only where a separator does. */
  lemma {:induction false} NoBInPrinted(ns: seq<nat>, seps: seq<string>)
    requires |ns| == |seps|
    requires forall k :: 0 <= k < |seps| ==> 'b' !in seps[k]
    ensures 'b' !in Printed(ns, seps)
  {
    if ns != [] {
      NoBInDigits(ns[0]);
      NoBInPrinted(ns[1..], seps[1..]);
    }
  }

  lemma NoBInDigits(n: nat)
    ensures 'b' !in NatToString(n)
  {
    var t := NatToString(n);
    forall i | 0 <= i < |t|
      ensures t[i] != 'b'
    {
      assert IsDigit(t[i]);
    }
  }

  /** After its first character, a printed bounds attribute holds no `b`, so no second attribute starts inside it. */
  lemma NoBAfterOpen(b: Bounds)
    ensures 'b' !in Render(b)[1..]
  {
    var ns := [b.x1, b.y1, b.x2, b.y2];
    NoBInPrinted(ns, BoundsSeps);
    assert Render(b)[1..] == BoundsOpen[1..] + Printed(ns, BoundsSeps);
  }

  lemma KeyOpensNode(key: string, r: string, rest: string)
    ensures var s := key + " " + r + ">" + rest;
      |key| < |s| && s[..|key|] == key && s[|key|] == ' '
  {
    var s := key + " " + r + ">" + rest;
    assert s == (key + " ") + (r + ">" + rest);
  }

  /** The node `key r>rest` matches with its key at 0 when `r` opens with a bounds attribute. */
  lemma NodeMatches(s: string, key: string)
    requires |key| < |s| && s[..|key|] == key && s[|key|] == ' '
    requires BoundsAt(s, |key| + 1).Some?
    ensures MatchAt(s, BoundsMarks(s), key, 0, |key| + 1)
  {
    assert s[|key|..|key| + 1] == [s[|key|]];
    MarkedBounds(s, |key| + 1);
  }

  lemma MarkedBounds(s: string, q: nat)
    requires q <= |s| && BoundsAt(s, q).Some?
    ensures q < |BoundsMarks(s)| && BoundsMarks(s)[q]
  {
  }

  lemma BoundsStartWithB(s: string, q: nat)
    requires q < |s| && s[q] != 'b'
    ensures BoundsAt(s, q).None?
  {
    if q + |BoundsOpen| <= |s| {
      assert s[q..q + |BoundsOpen|][0] != BoundsOpen[0];
    }
  }

  /** No later bounds attribute starts before the `>` that closes `key r>` when `r` holds no further `b`. */
  lemma NoLaterBounds(s: string, key: string, r: string, rest: string, q: nat)
    requires s == key + " " + r + ">" + rest
    requires r != [] && 'b' !in r[1..]
    requires |key| + 1 < q
    ensures !MatchAt(s, BoundsMarks(s), key, 0, q)
  {
    var q0 := |key| + 1;
    var g := q0 + |r|;
    assert s[g] == '>';
    if g < q <= |s| {
      assert s[|key|..q][g - |key|] == '>';
    } else if q < g {
      assert s[q] == r[1..][q - q0 - 1];
      BoundsStartWithB(s, q);
    } else if q == g {
      BoundsStartWithB(s, q);
    }
  }

  /**
   * A node printed as `text="<target>" bounds="[x1,y1][x2,y2]">` at the
   * start of the dump is found, at the centre of its bounds.
   */
  lemma LocateRenderedNode(target: string, b: Bounds, rest: string)
    ensures FindTextCoordinatesUi(Key(target) + " " + Render(b) + ">" + rest, target) == Some(Centre(b))
  {
    var key := Key(target);
    var r := Render(b);
    var s := key + " " + r + ">" + rest;
    var marks := BoundsMarks(s);
    var q0 := |key| + 1;
    assert BoundsAt(s, q0) == Some(b) by {
      assert s[q0..q0 + |r|] == r;
      BoundsAtRendered(s, q0, b);
    }
    KeyOpensNode(key, r, rest);
    NodeMatches(s, key);
    NoBAfterOpen(b);
    var m := UiMatch(s, marks, key);
    assert m.Some? && m.value.0 == 0;
    if m.value.1 != q0 {
      NoLaterBounds(s, key, r, rest, m.value.1);
    }
  }
}
