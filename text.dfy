/**
 * The few Python string built-ins the label pipeline relies on, stated over
 * `string` (a sequence of Unicode scalar values): `str.isspace`, `str.strip`,
 * `str.split(sep)` for a one-character separator, `split(sep)[0]`, and
 * `sep.join(parts)`.
 */
module Text {

  /** The characters for which Python's `str.isspace()` holds; `str.strip()` removes exactly these. */
  predicate IsSpace(c: char) {
    || ('\t' <= c <= '\r')
    || ('\U{1C}' <= c <= '\U{1F}')
    || c == ' '
    || c == '\U{85}'
    || c == '\U{A0}'
    || c == '\U{1680}'
    || ('\U{2000}' <= c <= '\U{200A}')
    || c == '\U{2028}'
    || c == '\U{2029}'
    || c == '\U{202F}'
    || c == '\U{205F}'
    || c == '\U{3000}'
  }

  /** A string that neither starts nor ends with whitespace. */
  predicate Stripped(s: string) {
    s == [] || (!IsSpace(s[0]) && !IsSpace(s[|s| - 1]))
  }

  /** `s.lstrip()`: the suffix of `s` left after dropping its leading whitespace. */
  function TrimStart(s: string): (r: string)
    ensures |r| <= |s| && r == s[|s| - |r|..]
    ensures r == [] || !IsSpace(r[0])
    ensures forall k | 0 <= k < |s| - |r| :: IsSpace(s[k])
  {
    if s != [] && IsSpace(s[0]) then TrimStart(s[1..]) else s
  }

  /** `s.rstrip()`: the prefix of `s` left after dropping its trailing whitespace. */
  function TrimEnd(s: string): (r: string)
    ensures |r| <= |s| && r == s[..|r|]
    ensures r == [] || !IsSpace(r[|r| - 1])
    ensures forall k | |r| <= k < |s| :: IsSpace(s[k])
  {
    if s != [] && IsSpace(s[|s| - 1]) then TrimEnd(s[..|s| - 1]) else s
  }

  /** `r` is the part of `s` starting at `i`, and everything around it is whitespace. */
  predicate InnerPart(s: string, r: string, i: nat) {
    && i + |r| <= |s|
    && r == s[i..i + |r|]
    && (forall k | 0 <= k < i :: IsSpace(s[k]))
    && (forall k | i + |r| <= k < |s| :: IsSpace(s[k]))
  }

  /** `s.strip()`. */
  function Strip(s: string): (r: string)
    ensures Stripped(r)
    ensures forall c | c in r :: c in s
    ensures Stripped(s) ==> r == s
  {
    var t := TrimStart(s);
    var r := TrimEnd(t);
    assert forall k | 0 <= k < |r| :: r[k] == s[|s| - |t| + k];
    assert Stripped(s) ==> |t| == |s| && |r| == |t|;
    r
  }

  /** What `TrimEnd` keeps of `t`, a suffix of `s`, is a slice of `s`. */
  lemma TrimEndOfSuffixIsSlice(s: string, t: string)
    requires |t| <= |s| && t == s[|s| - |t|..]
    ensures |s| - |t| + |TrimEnd(t)| <= |s|
    ensures TrimEnd(t) == s[|s| - |t|..|s| - |t| + |TrimEnd(t)|]
  {
    var i, r := |s| - |t|, TrimEnd(t);
    forall k | 0 <= k < |r|
      ensures r[k] == s[i + k]
    {
      assert r[k] == t[k];
    }
  }

  /** What `TrimEnd` drops from `t`, a suffix of `s`, is whitespace. */
  lemma TrimEndOfSuffixDropsSpace(s: string, t: string)
    requires |t| <= |s| && t == s[|s| - |t|..]
    ensures forall k | |s| - |t| + |TrimEnd(t)| <= k < |s| :: IsSpace(s[k])
  {
    var i, r := |s| - |t|, TrimEnd(t);
    forall k | i + |r| <= k < |s|
      ensures IsSpace(s[k])
    {
      assert s[k] == t[k - i];
    }
  }

  /**
   * Trimming the end of `t`, a suffix of `s` preceded only by whitespace, keeps
   * an inner part of `s`.
   */
  lemma TrimEndInnerPart(s: string, t: string)
    requires |t| <= |s| && t == s[|s| - |t|..]
    requires forall k | 0 <= k < |s| - |t| :: IsSpace(s[k])
    ensures InnerPart(s, TrimEnd(t), |s| - |t|)
  {
    TrimEndOfSuffixIsSlice(s, t);
    TrimEndOfSuffixDropsSpace(s, t);
  }

  /**
   * `Strip` removes only surrounding whitespace: what it keeps is the inner part
   * of `s` that starts after the leading whitespace.
   */
  lemma StripInnerPart(s: string)
    ensures InnerPart(s, Strip(s), |s| - |TrimStart(s)|)
  {
    TrimEndInnerPart(s, TrimStart(s));
  }

  /** Only one inner part of `s` has no surrounding whitespace: `Strip` is determined by its contract. */
  lemma StripUnique(s: string, r: string, i: nat)
    requires Stripped(r) && InnerPart(s, r, i)
    ensures r == Strip(s)
  {
    var q, j := Strip(s), |s| - |TrimStart(s)|;
    StripInnerPart(s);
    assert r != [] ==> r[0] == s[i] && r[|r| - 1] == s[i + |r| - 1];
    assert q != [] ==> q[0] == s[j] && q[|q| - 1] == s[j + |q| - 1];
  }

  /**
   * `s.split(d)[0]`: the text before the first occurrence of `d`, or all of `s`
   * when `d` does not occur. The three ensures clauses determine the result.
   */
  function Before(s: string, d: char): (r: string)
    ensures |r| <= |s| && r == s[..|r|]
    ensures d !in r
    ensures |r| < |s| ==> s[|r|] == d
  {
    if s == [] || s[0] == d then [] else [s[0]] + Before(s[1..], d)
  }

  /**
   * The longest prefix of `s` holding no character of `ds`: the text before the
   * first occurrence of any of them.
   */
  function BeforeAny(s: string, ds: set<char>): (r: string)
    ensures |r| <= |s| && r == s[..|r|]
    ensures forall c | c in r :: c !in ds
    ensures |r| < |s| ==> s[|r|] in ds
  {
    if s == [] || s[0] in ds then [] else [s[0]] + BeforeAny(s[1..], ds)
  }

  /** A prefix that avoids `ds` and stops at the end or at a character of `ds` is `BeforeAny`. */
  lemma BeforeAnyUnique(s: string, ds: set<char>, p: string)
    requires |p| <= |s| && p == s[..|p|]
    requires forall c | c in p :: c !in ds
    requires |p| < |s| ==> s[|p|] in ds
    ensures p == BeforeAny(s, ds)
  {
  }

  /** A string without `d` comes back whole from `Before`. */
  lemma BeforeAbsent(s: string, d: char)
    requires d !in s
    ensures Before(s, d) == s
  {
  }

  /** `sep.join(parts)`. */
  function Join(parts: seq<string>, sep: string): string {
    if |parts| == 0 then ""
    else if |parts| == 1 then parts[0]
    else parts[0] + sep + Join(parts[1..], sep)
  }

  /** Every part followed by the separator, the last one included. */
  function Terminated(parts: seq<string>, sep: string): string {
    if parts == [] then "" else parts[0] + sep + Terminated(parts[1..], sep)
  }

  /** Joining and then appending the separator once more terminates every part. */
  lemma {:induction false} JoinThenSeparator(parts: seq<string>, sep: string)
    requires parts != []
    ensures Join(parts, sep) + sep == Terminated(parts, sep)
  {
    if |parts| > 1 {
      JoinThenSeparator(parts[1..], sep);
      assert Terminated(parts[1..][1..], sep) == Terminated(parts[2..], sep);
    }
  }

  /** A join is every part but the last terminated by the separator, then the last part bare. */
  lemma {:induction false} JoinAsTerminated(parts: seq<string>, sep: string)
    requires parts != []
    ensures Join(parts, sep) == Terminated(parts[..|parts| - 1], sep) + parts[|parts| - 1]
  {
    if |parts| > 1 {
      var n := |parts|;
      JoinAsTerminated(parts[1..], sep);
      assert parts[1..][..n - 2] == parts[..n - 1][1..];
    }
  }

  /** Joining two runs of parts: every part of the first run is followed by the separator. */
  lemma {:induction false} JoinAfterTerminated(xs: seq<string>, ys: seq<string>, sep: string)
    requires ys != []
    ensures Join(xs + ys, sep) == Terminated(xs, sep) + Join(ys, sep)
  {
    if xs != [] {
      JoinAfterTerminated(xs[1..], ys, sep);
      assert (xs + ys)[1..] == xs[1..] + ys;
      assert (xs + ys)[0] == xs[0];
    } else {
      assert xs + ys == ys;
    }
  }

  /** Terminating two runs of parts one after the other. */
  lemma {:induction false} TerminatedAppend(xs: seq<string>, ys: seq<string>, sep: string)
    ensures Terminated(xs + ys, sep) == Terminated(xs, sep) + Terminated(ys, sep)
  {
    if xs != [] {
      TerminatedAppend(xs[1..], ys, sep);
      assert (xs + ys)[1..] == xs[1..] + ys;
      assert (xs + ys)[0] == xs[0];
    } else {
      assert xs + ys == ys;
    }
  }

  /**
   * `s.split(d)`: the pieces between occurrences of `d`. There is one more
   * piece than there are occurrences, no piece contains `d`, and joining the
   * pieces with `d` gives `s` back.
   */
  function Split(s: string, d: char): (parts: seq<string>)
    ensures |parts| == multiset(s)[d] + 1
    ensures forall p | p in parts :: d !in p
    ensures Join(parts, [d]) == s
    decreases |s|
  {
    var head := Before(s, d);
    if |head| == |s| then
      assert head == s;
      [s]
    else
      var tail := s[|head| + 1..];
      assert s == head + [d] + tail;
      var rest := Split(tail, d);
      assert ([head] + rest)[1..] == rest;
      [head] + rest
  }

  /** Splitting a join of pieces free of `d` gives the pieces back. */
  lemma {:induction false} SplitJoin(parts: seq<string>, d: char)
    requires parts != []
    requires forall p | p in parts :: d !in p
    ensures Split(Join(parts, [d]), d) == parts
  {
    var s := Join(parts, [d]);
    var head := Before(s, d);
    if |parts| == 1 {
      assert s == parts[0];
      BeforeAbsent(s, d);
    } else {
      var p := parts[0];
      var tail := Join(parts[1..], [d]);
      assert s == p + [d] + tail;
      BeforeAnyUnique(s, {d}, p);
      BeforeAnyUnique(s, {d}, head);
      assert head == p;
      assert s[|head| + 1..] == tail;
      SplitJoin(parts[1..], d);
    }
  }

  /** The last piece of a join is a suffix; unless it is the only piece, the separator precedes it. */
  lemma {:induction false} JoinEndsWithLast(parts: seq<string>, d: char)
    requires parts != []
    ensures var s, last := Join(parts, [d]), parts[|parts| - 1];
      && |last| <= |s|
      && s[|s| - |last|..] == last
      && (|parts| > 1 ==> |last| < |s| && s[|s| - |last| - 1] == d)
  {
    if |parts| > 1 {
      JoinEndsWithLast(parts[1..], d);
    }
  }
}
