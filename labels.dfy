/**
 * The yEd field names the locators look up, and the last two steps every
 * locator shares: keeping the label entries that carry text and taking that
 * text (`filter(lambda x: '#text' in x.keys(), ...)` followed by
 * `[x['#text'] for x in ...]`), and, for node labels, concatenating the event
 * lists `clean_node_label` makes of those texts.
 */
module Labels {
  import opened Text
  import opened Document
  import opened LabelCleaner
  import opened Lists

  const DataKey: string := "data"
  const GenericEdgeKey: string := "y:GenericEdge"
  const QuadCurveEdgeKey: string := "y:QuadCurveEdge"
  const EdgeLabelKey: string := "y:EdgeLabel"
  const TextKey: string := "#text"
  const GenericNodeKey: string := "y:GenericNode"
  const NodeLabelKey: string := "y:NodeLabel"
  const GroupMarkerKey: string := "y:ProxyAutoBoundsNode"
  const RealizersKey: string := "y:Realizers"
  const GroupNodeKey: string := "y:GroupNode"
  const GraphKey: string := "graph"
  const NodeKey: string := "node"

  /** A label entry: a dictionary whose `#text`, when present, is text. */
  predicate LabelEntry(x: Value) {
    x.Obj? && (Has(x, TextKey) ==> Get(x, TextKey).Str?)
  }

  /** A label field the locators can flatten and filter: one entry or a list of entries. */
  predicate LabelField(v: Value) {
    IsContainer(v) && forall x | x in Items(v) :: LabelEntry(x)
  }

  /** `x` is a label entry whose `#text` is `s`. */
  predicate HasText(x: Value, s: string) {
    Has(x, TextKey) && Get(x, TextKey) == Str(s)
  }

  /** The `#text` of every entry that has one, in entry order. */
  function Texts(entries: seq<Value>): (texts: seq<string>)
    requires forall x | x in entries :: LabelEntry(x)
    ensures |texts| <= |entries|
    decreases |entries|
  {
    if entries == [] then []
    else
      var n := |entries| - 1;
      assert forall x | x in entries[..n] :: x in entries;
      var x := entries[n];
      assert x in entries && LabelEntry(x);
      Texts(entries[..n]) + (if Has(x, TextKey) then [Get(x, TextKey).text] else [])
  }

  lemma {:induction false} TextsAppend(a: seq<Value>, b: seq<Value>)
    requires forall x | x in a :: LabelEntry(x)
    requires forall x | x in b :: LabelEntry(x)
    ensures forall x | x in a + b :: LabelEntry(x)
    ensures Texts(a + b) == Texts(a) + Texts(b)
    decreases |b|
  {
    MemberOfAppend(a, b);
    if b != [] {
      var n := |b| - 1;
      MemberOfPrefix(b, n);
      TextsAppend(a, b[..n]);
      PrefixOfAppend(a, b, n);
    } else {
      assert a + b == a;
    }
  }

  /** A text is taken exactly when some entry carries it: entries without `#text` give nothing. */
  lemma {:induction false} TextsMember(entries: seq<Value>, s: string)
    requires forall x | x in entries :: LabelEntry(x)
    ensures s in Texts(entries) <==> exists x | x in entries :: HasText(x, s)
    decreases |entries|
  {
    if entries != [] {
      var n := |entries| - 1;
      var init, last := entries[..n], entries[n];
      assert forall x | x in init :: x in entries;
      TextsMember(init, s);
      if s in Texts(init) {
        var x :| x in init && HasText(x, s);
        assert x in entries;
      } else if HasText(last, s) {
        assert last in entries;
      } else {
        forall x | x in entries
          ensures !HasText(x, s)
        {
          if x != last {
            var k :| 0 <= k < |entries| && entries[k] == x;
            assert x in init by { assert init[k] == x; }
          }
        }
      }
    }
  }

  /**
   * The events of all the texts, in text order: the flattened
   * `list(map(clean_node_label, texts))` the last lines of
   * `get_simple_nodes_data` and `get_group_nodes_data` return.
   */
  function NodeEvents(texts: seq<string>): seq<string> {
    Concat(Map(CleanNodeLabel, texts))
  }

  lemma NodeEventsAppend(a: seq<string>, b: seq<string>)
    ensures NodeEvents(a + b) == NodeEvents(a) + NodeEvents(b)
  {
    MapAppend(CleanNodeLabel, a, b);
    ConcatAppend(Map(CleanNodeLabel, a), Map(CleanNodeLabel, b));
  }

  /** An event comes out exactly when the cleaning of one of the texts yields it. */
  lemma NodeEventsMember(texts: seq<string>, e: string)
    ensures e in NodeEvents(texts) <==> exists s | s in texts :: e in CleanNodeLabel(s)
  {
    var lists := Map(CleanNodeLabel, texts);
    ConcatMember(lists, e);
    if e in NodeEvents(texts) {
      var part :| part in lists && e in part;
      MapMember(CleanNodeLabel, texts, part);
    }
    if s :| s in texts && e in CleanNodeLabel(s) {
      MapMember(CleanNodeLabel, texts, CleanNodeLabel(s));
    }
  }

  /** No event holds a `/` or a line break, and none has surrounding whitespace. */
  lemma NodeEventsAreBare(texts: seq<string>, e: string)
    requires e in NodeEvents(texts)
    ensures '/' !in e && '\n' !in e && Stripped(e)
  {
    NodeEventsMember(texts, e);
  }
}
