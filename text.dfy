/**
 * String helpers with Python's semantics, used by every part of the model
 * that handles recognised text, UI dumps or command output:
 * `str.strip()`, `str.split()`, `str.split(sep)`, `str.lower()`, `in` on strings.
 */
module Text {
  import opened Wrappers

  /** The characters Python's `str.isspace()` accepts (and so `strip()` and `split()` remove). */
  predicate IsSpace(c: char) {
    || c == ' '
    || ('\U{0009}' <= c <= '\U{000D}')
    || ('\U{001C}' <= c <= '\U{001F}')
    || c == '\U{0085}' || c == '\U{00A0}' || c == '\U{1680}'
    || ('\U{2000}' <= c <= '\U{200A}')
    || c == '\U{2028}' || c == '\U{2029}' || c == '\U{202F}' || c == '\U{205F}' || c == '\U{3000}'
  }

  predicate NoSpace(s: string) {
    forall i :: 0 <= i < |s| ==> !IsSpace(s[i])
  }

  /** `s.lstrip()`: the longest suffix of `s` that does not start with whitespace. */
  function TrimStart(s: string): (r: string)
    ensures |r| <= |s| && r == s[|s| - |r|..]
    ensures r == [] || !IsSpace(r[0])
    ensures forall i :: 0 <= i < |s| - |r| ==> IsSpace(s[i])
  {
    if |s| > 0 && IsSpace(s[0]) then TrimStart(s[1..]) else s
  }

  /** `s.rstrip()`: the longest prefix of `s` that does not end with whitespace. */
  function TrimEnd(s: string): (r: string)
    ensures |r| <= |s| && r == s[..|r|]
    ensures r == [] || !IsSpace(r[|r| - 1])
    ensures forall i :: |r| <= i < |s| ==> IsSpace(s[i])
  {
    if |s| > 0 && IsSpace(s[|s| - 1]) then TrimEnd(s[..|s| - 1]) else s
  }

  /** `s.strip()`. */
  function Strip(s: string): (r: string)
    ensures r == [] || (!IsSpace(r[0]) && !IsSpace(r[|r| - 1]))
  {
    TrimEnd(TrimStart(s))
  }

  /** A string with no whitespace at either end is its own `strip()`. */
  lemma StripUnchanged(s: string)
    requires s == [] || (!IsSpace(s[0]) && !IsSpace(s[|s| - 1]))
    ensures Strip(s) == s
  {
    assert TrimStart(s) == s;
    assert TrimEnd(s) == s;
  }

  /** Stripping keeps a last character that is not whitespace. */
  lemma StripKeepsLast(s: string)
    requires |s| > 0 && !IsSpace(s[|s| - 1])
    ensures |Strip(s)| > 0 && Strip(s)[|Strip(s)| - 1] == s[|s| - 1]
  {
    var a := TrimStart(s);
    assert |a| > 0;
    assert a[|a| - 1] == s[|s| - 1];
    assert TrimEnd(a) == a;
  }

  /** `c.lower()` on the ASCII letters; every other character is left alone. */
  function LowerChar(c: char): char {
    if 'A' <= c <= 'Z' then (c as int + 32) as char else c
  }

  /** `s.lower()`, restricted to ASCII case folding. */
  function Lower(s: string): (r: string)
    ensures |r| == |s|
    ensures forall i :: 0 <= i < |s| ==> r[i] == LowerChar(s[i])
  {
    seq(|s|, i requires 0 <= i < |s| => LowerChar(s[i]))
  }

  /** `sub` occurs in `s` starting at index `i`. */
  predicate OccursAt(s: string, sub: string, i: int) {
    0 <= i && i + |sub| <= |s| && s[i..i + |sub|] == sub
  }

  /** Python's `sub in s` for two strings. */
  predicate Contains(s: string, sub: string) {
    exists i | 0 <= i <= |s| :: OccursAt(s, sub, i)
  }

  predicate StartsWith(s: string, prefix: string) {
    |prefix| <= |s| && s[..|prefix|] == prefix
  }

  predicate EndsWith(s: string, suffix: string) {
    |suffix| <= |s| && s[|s| - |suffix|..] == suffix
  }

  /** The length of the run of non-whitespace characters that starts `t`. */
  function WordLength(t: string): (n: nat)
    ensures n <= |t|
    ensures forall i :: 0 <= i < n ==> !IsSpace(t[i])
    ensures n < |t| ==> IsSpace(t[n])
  {
    if t == [] || IsSpace(t[0]) then 0 else 1 + WordLength(t[1..])
  }

  /** `s.split()`: the maximal runs of non-whitespace characters, in order. */
  function SplitWords(s: string): (r: seq<string>)
    ensures |r| <= |s|
    decreases |s|
  {
    var t := TrimStart(s);
    if t == [] then []
    else
      var n := WordLength(t);
      [t[..n]] + SplitWords(t[n..])
  }

  /** Every element is a non-empty word without whitespace. */
  predicate AllWords(r: seq<string>) {
    forall k :: 0 <= k < |r| ==> |r[k]| > 0 && NoSpace(r[k])
  }

  /** Every part `split()` returns is a non-empty word without whitespace. */
  lemma {:induction false} SplitWordsAreWords(s: string)
    ensures AllWords(SplitWords(s))
    decreases |s|
  {
    var t := TrimStart(s);
    if t != [] {
      var n := WordLength(t);
      SplitWordsAreWords(t[n..]);
      FirstWord(t);
      ConsWord(t[..n], SplitWords(t[n..]));
    }
  }

  /** The run `WordLength` measures at the head of a trimmed string is a word. */
  lemma FirstWord(t: string)
    requires t != [] && !IsSpace(t[0])
    ensures WordLength(t) > 0 && NoSpace(t[..WordLength(t)])
  {
  }

  lemma ConsWord(w: string, rest: seq<string>)
    requires |w| > 0 && NoSpace(w) && AllWords(rest)
    ensures AllWords([w] + rest)
  {
    var r := [w] + rest;
    forall k | 0 <= k < |r|
      ensures |r[k]| > 0 && NoSpace(r[k])
    {
      if k > 0 {
        assert r[k] == rest[k - 1];
      }
    }
  }

  /** Index of the first `c` in `s`, or `|s|` when there is none. */
  function IndexOf(s: string, c: char): (r: nat)
    ensures r <= |s|
    ensures r < |s| ==> s[r] == c
    ensures forall i :: 0 <= i < r ==> s[i] != c
  {
    if s == [] then 0 else if s[0] == c then 0 else 1 + IndexOf(s[1..], c)
  }

  /** `s.split(sep)` for a one-character separator: never empty, and no part holds `sep`. */
  function SplitOn(s: string, sep: char): (r: seq<string>)
    ensures |r| >= 1
    ensures forall k :: 0 <= k < |r| ==> sep !in r[k]
    decreases |s|
  {
    var i := IndexOf(s, sep);
    if i == |s| then [s] else [s[..i]] + SplitOn(s[i + 1..], sep)
  }

  /** `sep.join(parts)`. */
  function Join(parts: seq<string>, sep: char): string {
    if |parts| == 0 then ""
    else if |parts| == 1 then parts[0]
    else parts[0] + [sep] + Join(parts[1..], sep)
  }

  /** Splitting on a separator loses nothing: joining the parts gives the string back. */
  lemma {:induction false} JoinSplitOn(s: string, sep: char)
    ensures Join(SplitOn(s, sep), sep) == s
    decreases |s|
  {
    var i := IndexOf(s, sep);
    if i < |s| {
      var rest := s[i + 1..];
      JoinSplitOn(rest, sep);
      SplitOnStep(s, sep);
      JoinCons(s[..i], SplitOn(rest, sep), sep);
      Around(s, i);
    }
  }

  lemma SplitOnStep(s: string, sep: char)
    requires IndexOf(s, sep) < |s|
    ensures var i := IndexOf(s, sep); SplitOn(s, sep) == [s[..i]] + SplitOn(s[i + 1..], sep)
  {
  }

  lemma Around(s: string, i: nat)
    requires i < |s|
    ensures s == s[..i] + [s[i]] + s[i + 1..]
  {
  }

  lemma JoinCons(a: string, rest: seq<string>, sep: char)
    requires |rest| >= 1
    ensures Join([a] + rest, sep) == a + [sep] + Join(rest, sep)
  {
    assert ([a] + rest)[1..] == rest;
  }

  /** The first `c` in `a + t`, when `a` holds none, is the first in `t`, shifted by `|a|`. */
  lemma {:induction false} IndexOfPast(a: string, t: string, c: char)
    requires c !in a
    ensures IndexOf(a + t, c) == |a| + IndexOf(t, c)
  {
    if a == [] {
      assert a + t == t;
    } else {
      assert (a + t)[0] == a[0] && (a + t)[1..] == a[1..] + t;
      IndexOfPast(a[1..], t, c);
    }
  }

  /** Splitting `a + [sep] + b` gives `a` and `b` back when neither holds `sep`. */
  lemma SplitJoined(a: string, b: string, sep: char)
    requires sep !in a && sep !in b
    ensures SplitOn(a + [sep] + b, sep) == [a, b]
  {
    var s := a + [sep] + b;
    IndexOfPast(a, [sep] + b, sep);
    assert s == a + ([sep] + b);
    assert s[..|a|] == a && s[|a| + 1..] == b;
    assert IndexOf(b, sep) == |b|;
  }

  /**
   * The index of the first of `targets` that occurs in `content`, as a
   * `for target in targets: if target in content` loop finds it.
   */
  function FirstContained(targets: seq<string>, content: string): (r: Option<nat>)
    ensures r.Some? ==> r.value < |targets| && Contains(content, targets[r.value])
    ensures r.Some? ==> forall j :: 0 <= j < r.value ==> !Contains(content, targets[j])
    ensures r.None? <==> forall j :: 0 <= j < |targets| ==> !Contains(content, targets[j])
  {
    FirstContainedFrom(targets, content, 0)
  }

  function FirstContainedFrom(targets: seq<string>, content: string, k: nat): (r: Option<nat>)
    requires k <= |targets|
    ensures r.Some? ==> k <= r.value < |targets| && Contains(content, targets[r.value])
    ensures r.Some? ==> forall j :: k <= j < r.value ==> !Contains(content, targets[j])
    ensures r.None? <==> forall j :: k <= j < |targets| ==> !Contains(content, targets[j])
    decreases |targets| - k
  {
    if k == |targets| then None
    else if Contains(content, targets[k]) then Some(k)
    else FirstContainedFrom(targets, content, k + 1)
  }
}
