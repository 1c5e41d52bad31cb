/**
 * The edge-label locator: `is_edge_correct` (graphmlparser.py:23-34) and
 * `get_edge_labels` (graphmlparser.py:57-72), which takes the flattened `data`
 * entries of the edges and, for each edge type in turn, keeps the entries of
 * that type that carry an `y:EdgeLabel`, takes the label texts and cleans them.
 */
module EdgeLocator {
  import opened Document
  import opened LabelCleaner
  import opened Labels
  import opened Lists

  /** The edge types, in the order `get_edge_labels` visits them. */
  const EdgeTypes: seq<string> := [GenericEdgeKey, QuadCurveEdgeKey]

  /** An entry `is_edge_correct(edge, t)` can inspect: a dictionary whose `t` field, if any, is one too. */
  predicate EdgeTyped(edge: Value, t: string) {
    edge.Obj? && (Has(edge, t) ==> Get(edge, t).Obj?)
  }

  /** `is_edge_correct` (graphmlparser.py:23-34): the entry has a `t` field that has an `y:EdgeLabel`. */
  predicate IsEdgeCorrect(edge: Value, t: string)
    requires EdgeTyped(edge, t)
  {
    Has(edge, t) && Has(Get(edge, t), EdgeLabelKey)
  }

  /** `edge[t]['y:EdgeLabel']` of a correct entry. */
  function EdgeLabelField(edge: Value, t: string): Value
    requires EdgeTyped(edge, t) && IsEdgeCorrect(edge, t)
  {
    Get(Get(edge, t), EdgeLabelKey)
  }

  /** An entry `get_edge_labels` gets through for type `t` without a runtime error. */
  predicate EdgeShaped(edge: Value, t: string) {
    EdgeTyped(edge, t) && (IsEdgeCorrect(edge, t) ==> LabelField(EdgeLabelField(edge, t)))
  }

  predicate EdgesShapedFor(flat: seq<Value>, t: string) {
    forall e | e in flat :: EdgeShaped(e, t)
  }

  /** The edge list `get_edge_labels` accepts: every edge has `data`, and every entry has the right shape for both types. */
  predicate EdgesShaped(edges: seq<Value>) {
    CanFlatten(edges, DataKey)
    && EdgesShapedFor(Flattened(edges, DataKey), GenericEdgeKey)
    && EdgesShapedFor(Flattened(edges, DataKey), QuadCurveEdgeKey)
  }

  lemma EdgesShapedForPrefix(flat: seq<Value>, t: string, n: nat)
    requires EdgesShapedFor(flat, t) && n <= |flat|
    ensures EdgesShapedFor(flat[..n], t)
  {
    MemberOfPrefix(flat, n);
  }

  /** `list(filter(lambda x: is_edge_correct(x, t), flat))`. */
  function CorrectEdges(flat: seq<Value>, t: string): (correct: seq<Value>)
    requires EdgesShapedFor(flat, t)
    ensures |correct| <= |flat|
    ensures forall e | e in correct :: EdgeShaped(e, t) && IsEdgeCorrect(e, t)
  {
    if flat == [] then []
    else
      var n := |flat| - 1;
      EdgesShapedForPrefix(flat, t, n);
      assert flat[n] in flat;
      CorrectEdges(flat[..n], t) + (if IsEdgeCorrect(flat[n], t) then [flat[n]] else [])
  }

  /** The filter keeps exactly the entries that pass `is_edge_correct`. */
  lemma {:induction false} CorrectEdgesMember(flat: seq<Value>, t: string, e: Value)
    requires EdgesShapedFor(flat, t)
    ensures e in CorrectEdges(flat, t) <==> e in flat && EdgeShaped(e, t) && IsEdgeCorrect(e, t)
  {
    if flat != [] {
      var n := |flat| - 1;
      EdgesShapedForPrefix(flat, t, n);
      CorrectEdgesMember(flat[..n], t, e);
      MemberOfSnoc(flat);
    }
  }

  /** `[edge[t] for edge in correct]`. */
  function EdgeBodies(correct: seq<Value>, t: string): (bodies: seq<Value>)
    requires forall e | e in correct :: EdgeShaped(e, t) && IsEdgeCorrect(e, t)
    ensures |bodies| == |correct|
    ensures forall b | b in bodies :: Has(b, EdgeLabelKey) && LabelField(Get(b, EdgeLabelKey))
  {
    if correct == [] then []
    else
      var n := |correct| - 1;
      assert forall e | e in correct[..n] :: e in correct;
      var e := correct[n];
      assert e in correct;
      assert EdgeShaped(e, t) && IsEdgeCorrect(e, t);
      assert LabelField(Get(Get(e, t), EdgeLabelKey));
      EdgeBodies(correct[..n], t) + [Get(correct[n], t)]
  }

  lemma EdgeBodiesAppend(a: seq<Value>, b: seq<Value>, t: string)
    requires forall e | e in a :: EdgeShaped(e, t) && IsEdgeCorrect(e, t)
    requires forall e | e in b :: EdgeShaped(e, t) && IsEdgeCorrect(e, t)
    ensures forall e | e in a + b :: EdgeShaped(e, t) && IsEdgeCorrect(e, t)
    ensures EdgeBodies(a + b, t) == EdgeBodies(a, t) + EdgeBodies(b, t)
    decreases |b|
  {
    assert forall e | e in a + b :: e in a || e in b;
    if b != [] {
      var n := |b| - 1;
      assert forall e | e in b[..n] :: e in b;
      EdgeBodiesAppend(a, b[..n], t);
      assert (a + b)[..|a| + n] == a + b[..n];
    } else {
      assert a + b == a;
    }
  }

  /** The `y:EdgeLabel` fields of the bodies flatten, and every flattened entry is a label entry. */
  lemma LabelEntriesOfBodies(bodies: seq<Value>)
    requires forall b | b in bodies :: Has(b, EdgeLabelKey) && LabelField(Get(b, EdgeLabelKey))
    ensures CanFlatten(bodies, EdgeLabelKey)
    ensures forall x | x in Flattened(bodies, EdgeLabelKey) :: LabelEntry(x)
  {
    forall x | x in Flattened(bodies, EdgeLabelKey)
      ensures LabelEntry(x)
    {
      FlattenedMember(bodies, EdgeLabelKey, x);
    }
  }

  /**
   * The labels `get_edge_labels` collects for one edge type: the cleaned texts
   * of the `y:EdgeLabel` entries of the correct entries (graphmlparser.py:66-71).
   */
  function EdgeLabelsOfType(flat: seq<Value>, t: string): seq<string>
    requires EdgesShapedFor(flat, t)
  {
    var bodies := EdgeBodies(CorrectEdges(flat, t), t);
    LabelEntriesOfBodies(bodies);
    Map(CleanedEdgeLabel, Texts(Flattened(bodies, EdgeLabelKey)))
  }

  /** The labels of the types `ts`, one type after another. */
  function EdgeLabelsOfTypes(flat: seq<Value>, ts: seq<string>): seq<string>
    requires forall t | t in ts :: EdgesShapedFor(flat, t)
  {
    if ts == [] then []
    else
      var n := |ts| - 1;
      assert forall t | t in ts[..n] :: t in ts;
      assert ts[n] in ts;
      EdgeLabelsOfTypes(flat, ts[..n]) + EdgeLabelsOfType(flat, ts[n])
  }

  /** What `get_edge_labels(edges)` returns. */
  function EdgeLabels(edges: seq<Value>): seq<string>
    requires EdgesShaped(edges)
  {
    EdgeLabelsOfTypes(Flattened(edges, DataKey), EdgeTypes)
  }

  /**
   * `get_edge_labels` (graphmlparser.py:57-72): a loop over the edge types that
   * extends the result with each type's cleaned labels.
   */
  method GetEdgeLabels(edges: seq<Value>) returns (labels: seq<string>)
    requires EdgesShaped(edges)
    ensures labels == EdgeLabels(edges)
  {
    var flat := Flatten(edges, DataKey);
    labels := [];
    for k := 0 to |EdgeTypes|
      invariant labels == EdgeLabelsOfTypes(flat, EdgeTypes[..k])
    {
      var typeLabels := CollectEdgeLabelsOfType(flat, EdgeTypes[k]);
      labels := labels + typeLabels;
      assert EdgeTypes[..k + 1][..k] == EdgeTypes[..k];
    }
    assert EdgeTypes[..|EdgeTypes|] == EdgeTypes;
  }

  /** The body of the loop in `get_edge_labels` for one type (graphmlparser.py:66-71). */
  method CollectEdgeLabelsOfType(flat: seq<Value>, t: string) returns (cleaned: seq<string>)
    requires EdgesShapedFor(flat, t)
    ensures cleaned == EdgeLabelsOfType(flat, t)
  {
    var bodies := EdgeBodies(CorrectEdges(flat, t), t);
    LabelEntriesOfBodies(bodies);
    var entries := Flatten(bodies, EdgeLabelKey);
    var texts := Texts(entries);
    cleaned := [];
    for j := 0 to |texts|
      invariant cleaned == Map(CleanedEdgeLabel, texts[..j])
    {
      var one := CleanEdgeLabel(texts[j]);
      MapSnoc(CleanedEdgeLabel, texts, j);
      cleaned := cleaned + [one];
    }
    assert texts[..|texts|] == texts;
  }

  /** What one entry contributes for type `t`: nothing unless it is correct, else its cleaned label texts. */
  function LabelsOfEdge(edge: Value, t: string): seq<string>
    requires EdgeShaped(edge, t)
  {
    if IsEdgeCorrect(edge, t) then Map(CleanedEdgeLabel, Texts(Items(EdgeLabelField(edge, t)))) else []
  }

  /** The entries' contributions for type `t`, entry after entry. */
  function LabelsByEdge(flat: seq<Value>, t: string): seq<string>
    requires EdgesShapedFor(flat, t)
  {
    if flat == [] then []
    else
      var n := |flat| - 1;
      EdgesShapedForPrefix(flat, t, n);
      assert flat[n] in flat;
      LabelsByEdge(flat[..n], t) + LabelsOfEdge(flat[n], t)
  }

  /** The labels of one correct entry. */
  lemma EdgeLabelsOfOneEdge(edge: Value, t: string)
    requires EdgeShaped(edge, t)
    ensures EdgesShapedFor([edge], t)
    ensures EdgeLabelsOfType([edge], t) == LabelsOfEdge(edge, t)
  {
    assert [edge][..0] == [];
    var correct := CorrectEdges([edge], t);
    if IsEdgeCorrect(edge, t) {
      assert correct == [edge];
      var bodies := EdgeBodies(correct, t);
      assert bodies == [Get(edge, t)] by { assert correct[..0] == []; }
      assert bodies[..0] == [];
      assert Flattened(bodies, EdgeLabelKey) == Items(EdgeLabelField(edge, t));
    } else {
      assert correct == [];
    }
  }

  /**
   * The type-`t` labels are the entries' own labels one entry after another, in
   * entry order: the filter-and-flatten pipeline loses and reorders nothing.
   */
  lemma {:induction false} EdgeLabelsOfTypeByEdge(flat: seq<Value>, t: string)
    requires EdgesShapedFor(flat, t)
    ensures EdgeLabelsOfType(flat, t) == LabelsByEdge(flat, t)
    decreases |flat|
  {
    if flat != [] {
      var n := |flat| - 1;
      var init, last := flat[..n], flat[n];
      EdgesShapedForPrefix(flat, t, n);
      assert last in flat;
      assert flat == init + [last];
      EdgeLabelsOfTypeAppend(init, [last], t);
      EdgeLabelsOfTypeByEdge(init, t);
      EdgeLabelsOfOneEdge(last, t);
      assert LabelsByEdge(flat, t) == LabelsByEdge(init, t) + LabelsOfEdge(last, t);
    }
  }

  lemma EdgeLabelsOfTypeAppend(a: seq<Value>, b: seq<Value>, t: string)
    requires EdgesShapedFor(a, t) && EdgesShapedFor(b, t)
    ensures EdgesShapedFor(a + b, t)
    ensures EdgeLabelsOfType(a + b, t) == EdgeLabelsOfType(a, t) + EdgeLabelsOfType(b, t)
  {
    assert forall e | e in a + b :: e in a || e in b;
    CorrectEdgesAppend(a, b, t);
    var ca, cb := CorrectEdges(a, t), CorrectEdges(b, t);
    EdgeBodiesAppend(ca, cb, t);
    var ba, bb := EdgeBodies(ca, t), EdgeBodies(cb, t);
    LabelEntriesOfBodies(ba);
    LabelEntriesOfBodies(bb);
    FlattenedAppend(ba, bb, EdgeLabelKey);
    var fa, fb := Flattened(ba, EdgeLabelKey), Flattened(bb, EdgeLabelKey);
    TextsAppend(fa, fb);
    MapAppend(CleanedEdgeLabel, Texts(fa), Texts(fb));
  }

  lemma {:induction false} CorrectEdgesAppend(a: seq<Value>, b: seq<Value>, t: string)
    requires EdgesShapedFor(a, t) && EdgesShapedFor(b, t)
    ensures EdgesShapedFor(a + b, t)
    ensures CorrectEdges(a + b, t) == CorrectEdges(a, t) + CorrectEdges(b, t)
    decreases |b|
  {
    EdgesShapedForAppend(a, b, t);
    if b != [] {
      var n := |b| - 1;
      EdgesShapedForPrefix(b, t, n);
      CorrectEdgesAppend(a, b[..n], t);
      SnocOfAppend(a, b);
      assert b[n] in b;
      var tail := if IsEdgeCorrect(b[n], t) then [b[n]] else [];
      assert CorrectEdges(a + b, t) == CorrectEdges(a + b[..n], t) + tail;
      assert CorrectEdges(b, t) == CorrectEdges(b[..n], t) + tail;
      AppendAssoc(CorrectEdges(a, t), CorrectEdges(b[..n], t), tail);
    } else {
      AppendEmpty(a);
    }
  }

  lemma EdgesShapedForAppend(a: seq<Value>, b: seq<Value>, t: string)
    requires EdgesShapedFor(a, t) && EdgesShapedFor(b, t)
    ensures EdgesShapedFor(a + b, t)
  {
    MemberOfAppend(a, b);
  }

  /**
   * Every `y:GenericEdge` label comes before every `y:QuadCurveEdge` label: the
   * result is all Generic labels in entry order, then all QuadCurve labels in
   * entry order, not the labels in document order.
   */
  lemma GenericLabelsPrecedeQuadCurveLabels(edges: seq<Value>)
    requires EdgesShaped(edges)
    ensures var flat := Flattened(edges, DataKey);
      EdgeLabels(edges) == LabelsByEdge(flat, GenericEdgeKey) + LabelsByEdge(flat, QuadCurveEdgeKey)
  {
    var flat := Flattened(edges, DataKey);
    EdgeLabelsByType(edges);
    EdgeLabelsOfTypeByEdge(flat, GenericEdgeKey);
    EdgeLabelsOfTypeByEdge(flat, QuadCurveEdgeKey);
  }

  /** The labels of both types, the `y:GenericEdge` ones first. */
  lemma EdgeLabelsByType(edges: seq<Value>)
    requires EdgesShaped(edges)
    ensures var flat := Flattened(edges, DataKey);
      EdgeLabels(edges) == EdgeLabelsOfType(flat, GenericEdgeKey) + EdgeLabelsOfType(flat, QuadCurveEdgeKey)
  {
    var flat := Flattened(edges, DataKey);
    var generic := EdgeTypes[..1];
    assert generic == [GenericEdgeKey] && generic[..0] == [];
    assert EdgeLabelsOfTypes(flat, generic) == EdgeLabelsOfType(flat, GenericEdgeKey);
    assert EdgeTypes[..|EdgeTypes| - 1] == generic;
  }

  /** Entry `x` has a `#text` whose cleaning is `l`. */
  predicate CleansTo(x: Value, l: string) {
    Has(x, TextKey) && Get(x, TextKey).Str? && l == CleanedEdgeLabel(Get(x, TextKey).text)
  }

  /** Entry `edge` is correct for `t` and one of its label entries cleans to `l`. */
  predicate CarriesLabel(edge: Value, t: string, l: string) {
    EdgeShaped(edge, t) && IsEdgeCorrect(edge, t)
    && exists x | x in Items(EdgeLabelField(edge, t)) :: CleansTo(x, l)
  }

  lemma LabelsOfEdgeMember(edge: Value, t: string, l: string)
    requires EdgeShaped(edge, t)
    ensures l in LabelsOfEdge(edge, t) <==> CarriesLabel(edge, t, l)
  {
    if IsEdgeCorrect(edge, t) {
      var entries := Items(EdgeLabelField(edge, t));
      var texts := Texts(entries);
      MapMember(CleanedEdgeLabel, texts, l);
      if l in LabelsOfEdge(edge, t) {
        var s :| s in texts && l == CleanedEdgeLabel(s);
        TextsMember(entries, s);
        var x :| x in entries && HasText(x, s);
        assert CleansTo(x, l);
      }
      if CarriesLabel(edge, t, l) {
        var x :| x in entries && CleansTo(x, l);
        var s := Get(x, TextKey).text;
        assert HasText(x, s);
        TextsMember(entries, s);
      }
    }
  }

  /** Every label of the entries comes from one entry: returns that entry. */
  lemma {:induction false} LabelsByEdgeSource(flat: seq<Value>, t: string, l: string) returns (e: Value)
    requires EdgesShapedFor(flat, t)
    requires l in LabelsByEdge(flat, t)
    ensures e in flat && EdgeShaped(e, t) && l in LabelsOfEdge(e, t)
    decreases |flat|
  {
    var n := |flat| - 1;
    var init, last := flat[..n], flat[n];
    EdgesShapedForPrefix(flat, t, n);
    assert last in flat;
    assert LabelsByEdge(flat, t) == LabelsByEdge(init, t) + LabelsOfEdge(last, t);
    if l in LabelsByEdge(init, t) {
      e := LabelsByEdgeSource(init, t, l);
      MemberOfPrefix(flat, n);
    } else {
      e := last;
    }
  }

  /** Every label of an entry is among the labels of the entries. */
  lemma {:induction false} LabelsByEdgeKeeps(flat: seq<Value>, t: string, e: Value, l: string)
    requires EdgesShapedFor(flat, t)
    requires e in flat && l in LabelsOfEdge(e, t)
    ensures l in LabelsByEdge(flat, t)
    decreases |flat|
  {
    var n := |flat| - 1;
    var init, last := flat[..n], flat[n];
    EdgesShapedForPrefix(flat, t, n);
    assert last in flat;
    assert LabelsByEdge(flat, t) == LabelsByEdge(init, t) + LabelsOfEdge(last, t);
    if e != last {
      assert e in init by {
        MemberOfSnoc(flat);
      }
      LabelsByEdgeKeeps(init, t, e, l);
    }
  }

  lemma LabelsByEdgeMember(flat: seq<Value>, t: string, l: string)
    requires EdgesShapedFor(flat, t)
    ensures l in LabelsByEdge(flat, t) <==> exists e | e in flat :: EdgeShaped(e, t) && l in LabelsOfEdge(e, t)
  {
    if l in LabelsByEdge(flat, t) {
      var e := LabelsByEdgeSource(flat, t, l);
    }
    if exists e | e in flat :: EdgeShaped(e, t) && l in LabelsOfEdge(e, t) {
      var e :| e in flat && EdgeShaped(e, t) && l in LabelsOfEdge(e, t);
      LabelsByEdgeKeeps(flat, t, e, l);
    }
  }

  /**
   * A type-`t` label comes out exactly when some entry is correct for `t` and
   * has a label entry whose `#text` cleans to it: every label is
   * `edge_label_cleaner` of some `#text`, and entries that are not correct or
   * have no `#text` yield nothing.
   */
  lemma EdgeLabelsOfTypeMember(flat: seq<Value>, t: string, l: string)
    requires EdgesShapedFor(flat, t)
    ensures l in EdgeLabelsOfType(flat, t) <==> exists e | e in flat :: CarriesLabel(e, t, l)
  {
    EdgeLabelsOfTypeByEdge(flat, t);
    LabelsByEdgeMember(flat, t, l);
    forall e | e in flat
      ensures EdgeShaped(e, t) && (l in LabelsOfEdge(e, t) <==> CarriesLabel(e, t, l))
    {
      LabelsOfEdgeMember(e, t, l);
    }
  }

  /**
   * A label comes out of `get_edge_labels` exactly when some `data` entry is a
   * correct edge of one of the two types with a label entry whose `#text`
   * cleans to it.
   */
  lemma EdgeLabelsMember(edges: seq<Value>, l: string)
    requires EdgesShaped(edges)
    ensures var flat := Flattened(edges, DataKey);
      l in EdgeLabels(edges) <==>
        exists e | e in flat :: CarriesLabel(e, GenericEdgeKey, l) || CarriesLabel(e, QuadCurveEdgeKey, l)
  {
    var flat := Flattened(edges, DataKey);
    EdgeLabelsByType(edges);
    EdgeLabelsOfTypeMember(flat, GenericEdgeKey, l);
    EdgeLabelsOfTypeMember(flat, QuadCurveEdgeKey, l);
  }

  /** Leaving out an entry that is not correct for `t` changes nothing. */
  lemma IncorrectEdgeContributesNothing(flat: seq<Value>, i: nat, t: string)
    requires EdgesShapedFor(flat, t) && i < |flat|
    requires EdgeTyped(flat[i], t) && !IsEdgeCorrect(flat[i], t)
    ensures EdgesShapedFor(flat[..i] + flat[i + 1..], t)
    ensures EdgeLabelsOfType(flat[..i] + flat[i + 1..], t) == EdgeLabelsOfType(flat, t)
  {
    var before, x, after := flat[..i], flat[i], flat[i + 1..];
    EdgesShapedForPrefix(flat, t, i);
    MemberOfSuffix(flat, i + 1);
    assert x in flat;
    EdgeLabelsOfOneEdge(x, t);
    EdgeLabelsOfTypeAppend(before, [x], t);
    EdgeLabelsOfTypeAppend(before + [x], after, t);
    EdgeLabelsOfTypeAppend(before, after, t);
    calc {
      EdgeLabelsOfType(flat, t);
      { SplitAt(flat, i); }
      EdgeLabelsOfType(before + [x] + after, t);
      EdgeLabelsOfType(before, t) + EdgeLabelsOfType([x], t) + EdgeLabelsOfType(after, t);
      { AppendEmpty(EdgeLabelsOfType(before, t)); }
      EdgeLabelsOfType(before + after, t);
    }
  }
}
