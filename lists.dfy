/**
 * Python's `list(map(f, xs))` and the flattening comprehension
 * `[e for part in parts for e in part]`, with the facts the locators need about
 * them: both distribute over concatenation, and membership in the result is
 * membership in some input's image.
 */
module Lists {

  /** The first `|a| + n` elements of `a + b` are `a` and the first `n` of `b`. */
  lemma PrefixOfAppend<T>(a: seq<T>, b: seq<T>, n: nat)
    requires n <= |b|
    ensures (a + b)[..|a| + n] == a + b[..n]
  {
  }

  /** Every element of `a + b` is in `a` or in `b`. */
  lemma MemberOfAppend<T>(a: seq<T>, b: seq<T>)
    ensures forall x | x in a + b :: x in a || x in b
  {
  }

  /** An element of a non-empty sequence is in all but its last element, or is the last. */
  lemma MemberOfSnoc<T>(xs: seq<T>)
    requires xs != []
    ensures forall x :: x in xs <==> x in xs[..|xs| - 1] || x == xs[|xs| - 1]
  {
    var n := |xs| - 1;
    assert xs == xs[..n] + [xs[n]];
  }

  lemma AppendEmpty<T>(xs: seq<T>)
    ensures xs + [] == xs
  {
  }

  /** All but the last element of `a + b`, and its last element, for a non-empty `b`. */
  lemma SnocOfAppend<T>(a: seq<T>, b: seq<T>)
    requires b != []
    ensures (a + b)[..|a + b| - 1] == a + b[..|b| - 1]
    ensures (a + b)[|a + b| - 1] == b[|b| - 1]
  {
    PrefixOfAppend(a, b, |b| - 1);
  }

  lemma AppendAssoc<T>(x: seq<T>, y: seq<T>, z: seq<T>)
    ensures x + y + z == x + (y + z)
  {
  }

  /** A sequence is what comes before position `i`, the element there, and what follows. */
  lemma SplitAt<T>(xs: seq<T>, i: nat)
    requires i < |xs|
    ensures xs == xs[..i] + [xs[i]] + xs[i + 1..]
  {
  }

  /** Every element of a suffix is an element of the whole. */
  lemma MemberOfSuffix<T>(xs: seq<T>, n: nat)
    requires n <= |xs|
    ensures forall x | x in xs[n..] :: x in xs
  {
  }

  /** Every element of a prefix is an element of the whole. */
  lemma MemberOfPrefix<T>(xs: seq<T>, n: nat)
    requires n <= |xs|
    ensures forall x | x in xs[..n] :: x in xs
  {
  }

  /** `list(map(f, xs))`. */
  function Map<A, B>(f: A -> B, xs: seq<A>): seq<B> {
    if xs == [] then [] else Map(f, xs[..|xs| - 1]) + [f(xs[|xs| - 1])]
  }

  /** The map keeps the length and sends each element to its image. */
  lemma {:induction false} MapIndex<A, B>(f: A -> B, xs: seq<A>)
    ensures |Map(f, xs)| == |xs|
    ensures forall i | 0 <= i < |xs| :: Map(f, xs)[i] == f(xs[i])
  {
    if xs != [] {
      MapIndex(f, xs[..|xs| - 1]);
    }
  }

  lemma {:induction false} MapAppend<A, B>(f: A -> B, a: seq<A>, b: seq<A>)
    ensures Map(f, a + b) == Map(f, a) + Map(f, b)
    decreases |b|
  {
    if b != [] {
      var n := |b| - 1;
      MapAppend(f, a, b[..n]);
      assert (a + b)[..|a| + n] == a + b[..n];
    } else {
      assert a + b == a;
    }
  }

  /** Mapping one more element appends its image. */
  lemma MapSnoc<A, B>(f: A -> B, xs: seq<A>, j: nat)
    requires j < |xs|
    ensures Map(f, xs[..j + 1]) == Map(f, xs[..j]) + [f(xs[j])]
  {
    assert xs[..j + 1][..j] == xs[..j];
  }

  /** A non-empty map is the image of the first element, then the map of the rest. */
  lemma MapFront<A, B>(f: A -> B, xs: seq<A>)
    requires xs != []
    ensures Map(f, xs) == [f(xs[0])] + Map(f, xs[1..])
  {
    assert xs == [xs[0]] + xs[1..];
    MapAppend(f, [xs[0]], xs[1..]);
    assert [xs[0]][..0] == [];
  }

  /** A value comes out of a map exactly when some input maps to it. */
  lemma MapMember<A, B>(f: A -> B, xs: seq<A>, y: B)
    ensures y in Map(f, xs) <==> exists x | x in xs :: y == f(x)
  {
    MapIndex(f, xs);
    if y in Map(f, xs) {
      var i :| 0 <= i < |xs| && Map(f, xs)[i] == y;
      assert xs[i] in xs;
    }
    if x :| x in xs && y == f(x) {
      var i :| 0 <= i < |xs| && xs[i] == x;
      assert Map(f, xs)[i] == y;
    }
  }

  /** `[e for part in parts for e in part]`: the parts one after another. */
  function Concat<T>(parts: seq<seq<T>>): seq<T> {
    if parts == [] then [] else Concat(parts[..|parts| - 1]) + parts[|parts| - 1]
  }

  lemma {:induction false} ConcatAppend<T>(a: seq<seq<T>>, b: seq<seq<T>>)
    ensures Concat(a + b) == Concat(a) + Concat(b)
    decreases |b|
  {
    if b != [] {
      var n := |b| - 1;
      ConcatAppend(a, b[..n]);
      assert (a + b)[..|a| + n] == a + b[..n];
    } else {
      assert a + b == a;
    }
  }

  /** An element comes out exactly when one of the parts holds it. */
  lemma {:induction false} ConcatMember<T>(parts: seq<seq<T>>, e: T)
    ensures e in Concat(parts) <==> exists part | part in parts :: e in part
  {
    if parts != [] {
      var n := |parts| - 1;
      var init := parts[..n];
      ConcatMember(init, e);
      if e in Concat(init) {
        var part :| part in init && e in part;
        assert part in parts;
      } else if e in parts[n] {
        assert parts[n] in parts;
      } else {
        forall part | part in parts
          ensures e !in part
        {
          if part != parts[n] {
            var k :| 0 <= k < |parts| && parts[k] == part;
            assert part in init by { assert init[k] == part; }
          }
        }
      }
    }
  }
}
