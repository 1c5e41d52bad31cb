/**
 * `clean_list` (graphmlparser.py:154-164): the signal list keeps each label once,
 * at its first occurrence, and drops empty labels and the `entry` and `exit`
 * pseudo-events.
 */
module Collector {

  /** A label `clean_list` keeps when it first sees it. */
  predicate Eligible(l: string) {
    l != [] && l != "entry" && l != "exit"
  }

  /** What `clean_list(labels)` returns. */
  function Cleaned(labels: seq<string>): seq<string> {
    if labels == [] then []
    else
      var n := |labels| - 1;
      var previous := Cleaned(labels[..n]);
      previous + (if Eligible(labels[n]) && labels[n] !in previous then [labels[n]] else [])
  }

  /** `clean_list`: one pass, appending each eligible label not already kept. */
  method CleanList(labels: seq<string>) returns (res: seq<string>)
    ensures res == Cleaned(labels)
  {
    res := [];
    for i := 0 to |labels|
      invariant res == Cleaned(labels[..i])
    {
      var l := labels[i];
      if l != [] && l !in res && l != "entry" && l != "exit" {
        res := res + [l];
      }
      assert labels[..i + 1][..i] == labels[..i];
    }
    assert labels[..|labels|] == labels;
  }

  /** A label is kept exactly when it occurs in the input and is eligible. */
  lemma {:induction false} CleanedMember(labels: seq<string>, l: string)
    ensures l in Cleaned(labels) <==> l in labels && Eligible(l)
  {
    if labels != [] {
      var n := |labels| - 1;
      CleanedMember(labels[..n], l);
      assert labels == labels[..n] + [labels[n]];
    }
  }

  /** No element occurs twice. */
  predicate Distinct(xs: seq<string>) {
    forall i, j | 0 <= i < j < |xs| :: xs[i] != xs[j]
  }

  /** All but the last element of a list without repeats have none either, and do not hold the last. */
  lemma DistinctSnoc(xs: seq<string>)
    requires xs != [] && Distinct(xs)
    ensures Distinct(xs[..|xs| - 1]) && xs[|xs| - 1] !in xs[..|xs| - 1]
  {
    var n := |xs| - 1;
    assert forall k | 0 <= k < n :: xs[..n][k] == xs[k];
  }

  /** No label is kept twice. */
  lemma {:induction false} CleanedDistinct(labels: seq<string>)
    ensures Distinct(Cleaned(labels))
  {
    if labels != [] {
      var n := |labels| - 1;
      CleanedDistinct(labels[..n]);
    }
  }

  /** Every kept label is eligible: none is empty, `entry` or `exit`. */
  lemma CleanedEligible(labels: seq<string>)
    ensures forall l | l in Cleaned(labels) :: Eligible(l)
  {
    forall l | l in Cleaned(labels)
      ensures Eligible(l)
    {
      CleanedMember(labels, l);
    }
  }

  /** Labels seen later never change what was kept earlier. */
  lemma {:induction false} CleanedPrefix(a: seq<string>, b: seq<string>)
    ensures Cleaned(a) <= Cleaned(a + b)
    decreases |b|
  {
    if b != [] {
      var n := |b| - 1;
      CleanedPrefix(a, b[..n]);
      assert (a + b)[..|a + b| - 1] == a + b[..n];
    } else {
      assert a + b == a;
    }
  }

  /** Cleaning a cleaned list changes nothing. */
  lemma {:induction false} CleanedIdempotent(labels: seq<string>)
    ensures Cleaned(Cleaned(labels)) == Cleaned(labels)
  {
    CleanedDistinct(labels);
    CleanedEligible(labels);
    CleanedOfDistinctEligible(Cleaned(labels));
  }

  /** A list of distinct eligible labels is kept whole. */
  lemma {:induction false} CleanedOfDistinctEligible(labels: seq<string>)
    requires Distinct(labels)
    requires forall l | l in labels :: Eligible(l)
    ensures Cleaned(labels) == labels
  {
    if labels != [] {
      var n := |labels| - 1;
      var init := labels[..n];
      DistinctSnoc(labels);
      assert forall l | l in init :: l in labels;
      CleanedOfDistinctEligible(init);
      assert labels[n] in labels;
      assert labels == init + [labels[n]];
    }
  }

  /** The position of the first occurrence of `x` in `xs`. */
  function FirstIndex(xs: seq<string>, x: string): (i: nat)
    requires x in xs
    ensures i < |xs| && xs[i] == x && x !in xs[..i]
  {
    if xs[0] == x then 0 else FirstIndex(xs[1..], x) + 1
  }

  /** Growing the input leaves first occurrences that already exist where they are. */
  lemma FirstIndexOfSnoc(xs: seq<string>, y: string, x: string)
    requires x in xs
    ensures FirstIndex(xs + [y], x) == FirstIndex(xs, x)
  {
    var i := FirstIndex(xs, x);
    assert (xs + [y])[..i] == xs[..i];
    FirstIndexUnique(xs + [y], x, i);
  }

  /** Only the first occurrence is an occurrence with none before it. */
  lemma {:induction false} FirstIndexUnique(xs: seq<string>, x: string, k: nat)
    requires k < |xs| && xs[k] == x && x !in xs[..k]
    ensures FirstIndex(xs, x) == k
  {
    if k > 0 {
      assert xs[..k][0] == xs[0];
      assert xs[1..][..k - 1] == xs[1..k];
      assert forall e | e in xs[1..k] :: e in xs[..k];
      FirstIndexUnique(xs[1..], x, k - 1);
    }
  }

  /** The kept labels appear in the order of their first occurrences in the input. */
  lemma {:induction false} CleanedInFirstOccurrenceOrder(labels: seq<string>, i: nat, j: nat)
    requires i < j < |Cleaned(labels)|
    ensures Cleaned(labels)[i] in labels && Cleaned(labels)[j] in labels
    ensures FirstIndex(labels, Cleaned(labels)[i]) < FirstIndex(labels, Cleaned(labels)[j])
  {
    var r := Cleaned(labels);
    CleanedMember(labels, r[i]);
    CleanedMember(labels, r[j]);
    var n := |labels| - 1;
    var init, last := labels[..n], labels[n];
    var previous := Cleaned(init);
    assert labels == init + [last];
    CleanedMember(init, r[i]);
    CleanedMember(init, r[j]);
    if j < |previous| {
      CleanedInFirstOccurrenceOrder(init, i, j);
      FirstIndexOfSnoc(init, last, r[i]);
      FirstIndexOfSnoc(init, last, r[j]);
    } else {
      assert r[j] == last && last !in previous;
      assert r[i] == previous[i];
      FirstIndexOfSnoc(init, last, r[i]);
      assert last !in init;
      assert FirstIndex(labels, last) == n by {
        assert labels[..n] == init;
      }
    }
  }

  /** `idx` picks, in increasing positions of `ys`, the elements of `xs` in order. */
  predicate Embeds(idx: seq<nat>, xs: seq<string>, ys: seq<string>) {
    |idx| == |xs|
    && (forall k | 0 <= k < |idx| :: idx[k] < |ys| && ys[idx[k]] == xs[k])
    && (forall k | 0 <= k < |idx| - 1 :: idx[k] < idx[k + 1])
  }

  /** `xs` is `ys` with some elements left out. */
  ghost predicate IsSubsequence(xs: seq<string>, ys: seq<string>) {
    exists idx :: Embeds(idx, xs, ys)
  }

  /** The kept labels are the input with some labels left out: each at the position of its first occurrence. */
  lemma CleanedIsSubsequence(labels: seq<string>)
    ensures IsSubsequence(Cleaned(labels), labels)
  {
    var r := Cleaned(labels);
    forall k | 0 <= k < |r|
      ensures r[k] in labels
    {
      CleanedMember(labels, r[k]);
    }
    var idx := seq(|r|, k requires 0 <= k < |r| => FirstIndex(labels, r[k]));
    forall k | 0 <= k < |idx| - 1
      ensures idx[k] < idx[k + 1]
    {
      CleanedInFirstOccurrenceOrder(labels, k, k + 1);
    }
    assert Embeds(idx, r, labels);
  }
}
