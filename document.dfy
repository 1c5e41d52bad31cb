/**
 * The parsed diagram as the XML-to-dictionary step hands it over: nested
 * dictionaries, lists and text. A field that occurs once in the XML arrives as a
 * single dictionary, a repeated one as a list; `flatten` (graphmlparser.py:3-21)
 * turns such fields into one flat list.
 */
module Document {
  import opened Lists

  datatype Value =
    | Obj(fields: map<string, Value>)
    | Arr(items: seq<Value>)
    | Str(text: string)

  /** `key in v.keys()` on a dictionary. */
  predicate Has(v: Value, key: string) {
    v.Obj? && key in v.fields
  }

  /** `v[key]` on a dictionary that holds `key`. */
  function Get(v: Value, key: string): Value
    requires Has(v, key)
  {
    v.fields[key]
  }

  /** A field value `flatten` can take apart: a single dictionary or a list. */
  predicate IsContainer(v: Value) {
    v.Obj? || v.Arr?
  }

  /** What one field value contributes to a flattened list. */
  function Items(v: Value): (items: seq<Value>)
    requires IsContainer(v)
    ensures v.Obj? ==> items == [v]
    ensures v.Arr? ==> items == v.items
  {
    if v.Obj? then [v] else v.items
  }

  /**
   * Every container is a dictionary holding `key`, and the value there is a
   * dictionary or a list; otherwise `node[key]` or the iteration in `flatten`
   * fails.
   */
  predicate CanFlatten(containers: seq<Value>, key: string) {
    forall c | c in containers :: Has(c, key) && IsContainer(Get(c, key))
  }

  lemma CanFlattenParts(containers: seq<Value>, key: string, i: nat)
    requires CanFlatten(containers, key) && i <= |containers|
    ensures CanFlatten(containers[..i], key) && CanFlatten(containers[i..], key)
  {
    MemberOfPrefix(containers, i);
    assert forall c | c in containers[i..] :: c in containers;
  }

  /** The result of `flatten(containers, key)`: the fields' contents in container order. */
  function Flattened(containers: seq<Value>, key: string): seq<Value>
    requires CanFlatten(containers, key)
    decreases |containers|
  {
    if containers == [] then []
    else
      var n := |containers| - 1;
      CanFlattenParts(containers, key, n);
      Flattened(containers[..n], key) + Items(Get(containers[n], key))
  }

  /** `flatten` (graphmlparser.py:3-21). */
  method Flatten(containers: seq<Value>, key: string) returns (flat: seq<Value>)
    requires CanFlatten(containers, key)
    ensures flat == Flattened(containers, key)
  {
    flat := [];
    for i := 0 to |containers|
      invariant CanFlatten(containers[..i], key)
      invariant flat == Flattened(containers[..i], key)
    {
      var fieldValue := Get(containers[i], key);
      if fieldValue.Obj? {
        flat := flat + [fieldValue];
      } else {
        for j := 0 to |fieldValue.items|
          invariant flat == Flattened(containers[..i], key) + fieldValue.items[..j]
        {
          flat := flat + [fieldValue.items[j]];
        }
      }
      CanFlattenParts(containers, key, i + 1);
      assert containers[..i + 1][..i] == containers[..i];
    }
    assert containers[..|containers|] == containers;
  }

  /** Flattening distributes over concatenation of the container lists. */
  lemma {:induction false} FlattenedAppend(a: seq<Value>, b: seq<Value>, key: string)
    requires CanFlatten(a, key) && CanFlatten(b, key)
    ensures CanFlatten(a + b, key)
    ensures Flattened(a + b, key) == Flattened(a, key) + Flattened(b, key)
  {
    MemberOfAppend(a, b);
    if b != [] {
      var n := |b| - 1;
      CanFlattenParts(b, key, n);
      FlattenedAppend(a, b[..n], key);
      PrefixOfAppend(a, b, n);
    } else {
      assert a + b == a;
    }
  }

  /** An element is flattened out exactly when some container's field contributes it. */
  lemma {:induction false} FlattenedMember(containers: seq<Value>, key: string, x: Value)
    requires CanFlatten(containers, key)
    ensures x in Flattened(containers, key) <==>
      exists c | c in containers :: x in Items(Get(c, key))
  {
    if containers != [] {
      var n := |containers| - 1;
      var init, last := containers[..n], containers[n];
      CanFlattenParts(containers, key, n);
      FlattenedMember(init, key, x);
      assert Flattened(containers, key) == Flattened(init, key) + Items(Get(last, key));
      if x in Flattened(init, key) {
        var c :| c in init && x in Items(Get(c, key));
        assert c in containers;
      } else if x in Items(Get(last, key)) {
        assert last in containers;
      } else {
        forall c | c in containers
          ensures x !in Items(Get(c, key))
        {
          if c != last {
            var k :| 0 <= k < |containers| && containers[k] == c;
            assert c in init by { assert init[k] == c; }
          }
        }
      }
    }
  }

  /**
   * A field holding a single dictionary and the same field holding a one-element
   * list with that dictionary flatten alike, wherever the container stands.
   */
  lemma SingleAndListFlattenAlike(containers: seq<Value>, key: string, i: nat)
    requires CanFlatten(containers, key) && i < |containers|
    requires Get(containers[i], key).Obj?
    ensures var listed := Obj(containers[i].fields[key := Arr([Get(containers[i], key)])]);
      && CanFlatten(containers[i := listed], key)
      && Flattened(containers[i := listed], key) == Flattened(containers, key)
  {
    var listed := Obj(containers[i].fields[key := Arr([Get(containers[i], key)])]);
    var before, after := containers[..i], containers[i + 1..];
    CanFlattenParts(containers, key, i);
    CanFlattenParts(containers, key, i + 1);
    assert containers == before + [containers[i]] + after;
    assert containers[i := listed] == before + [listed] + after;
    assert Flattened([listed], key) == Flattened([containers[i]], key) by {
      assert [listed][..0] == [] && [containers[i]][..0] == [];
    }
    FlattenedAppend(before, [containers[i]], key);
    FlattenedAppend(before + [containers[i]], after, key);
    FlattenedAppend(before, [listed], key);
    FlattenedAppend(before + [listed], after, key);
  }

  /** The one-container case: both shapes give the same one-element list. */
  lemma SingleAndListFlattenToOne(container: map<string, Value>, key: string, d: map<string, Value>)
    ensures CanFlatten([Obj(container[key := Obj(d)])], key)
    ensures CanFlatten([Obj(container[key := Arr([Obj(d)])])], key)
    ensures Flattened([Obj(container[key := Obj(d)])], key) == [Obj(d)]
    ensures Flattened([Obj(container[key := Arr([Obj(d)])])], key) == [Obj(d)]
  {
    assert [Obj(container[key := Obj(d)])][..0] == [];
    assert [Obj(container[key := Arr([Obj(d)])])][..0] == [];
  }

  /** A single container flattens to what its field holds. */
  lemma FlattenedOne(container: Value, key: string)
    requires Has(container, key) && IsContainer(Get(container, key))
    ensures CanFlatten([container], key)
    ensures Flattened([container], key) == Items(Get(container, key))
  {
    assert [container][..0] == [];
  }
}
