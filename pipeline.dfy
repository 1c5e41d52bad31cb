/**
 * The label pipeline of `main` (graphmlparser.py:211-220): the edge labels,
 * then the events of the simple nodes and of the groups among the nodes'
 * `data` entries and their sub-graphs' `data` entries, reduced by
 * `clean_list` and rendered by the two emitters.
 */
module Pipeline {
  import opened Text
  import opened Document
  import opened Labels
  import opened EdgeLocator
  import opened NodeLocator
  import opened Collector
  import opened Emitter
  import opened Lists

  /** `flatten(nodes, 'data')` extended with `get_sub_nodes(nodes)`. */
  function NodeEntries(nodes: seq<Value>): seq<Value>
    requires CanFlatten(nodes, DataKey) && SubGraphsShaped(nodes)
  {
    Flattened(nodes, DataKey) + SubNodes(nodes)
  }

  /** A diagram whose edge and node lists `main` gets through without a runtime error. */
  predicate DiagramShaped(edges: seq<Value>, nodes: seq<Value>) {
    EdgesShaped(edges) && CanFlatten(nodes, DataKey) && SubGraphsShaped(nodes)
    && SimpleNodesShaped(NodeEntries(nodes)) && GroupNodesShaped(NodeEntries(nodes))
  }

  /** `all_labels` before `clean_list`: edge labels, then simple-node events, then group events. */
  function RawSignals(edges: seq<Value>, nodes: seq<Value>): seq<string>
    requires DiagramShaped(edges, nodes)
  {
    var entries := NodeEntries(nodes);
    EdgeLabels(edges) + SimpleNodesData(entries) + GroupNodesData(entries)
  }

  /** The signal list `main` renders. */
  function Signals(edges: seq<Value>, nodes: seq<Value>): seq<string>
    requires DiagramShaped(edges, nodes)
  {
    Cleaned(RawSignals(edges, nodes))
  }

  /**
   * `main` without its file I/O (graphmlparser.py:211-220): the labels are
   * gathered by extending one list, cleaned, and rendered twice.
   */
  method GenerateSignalCode(edges: seq<Value>, nodes: seq<Value>) returns (signals: seq<string>, enumText: string, keyStrokes: string)
    requires DiagramShaped(edges, nodes)
    ensures signals == Signals(edges, nodes)
    ensures Distinct(signals) && forall l | l in signals :: Eligible(l)
    ensures enumText == EnumText(signals) && keyStrokes == KeyStrokesText(signals)
  {
    var allLabels := GetEdgeLabels(edges);
    var flattenedNodes := Flatten(nodes, DataKey);
    flattenedNodes := flattenedNodes + SubNodes(nodes);
    allLabels := allLabels + SimpleNodesData(flattenedNodes);
    allLabels := allLabels + GroupNodesData(flattenedNodes);
    signals := CleanList(allLabels);
    CleanedDistinct(allLabels);
    CleanedEligible(allLabels);
    enumText := EnumText(signals);
    keyStrokes := KeyStrokesText(signals);
  }

  /** Some edge entry carries `l` as a cleaned label, or some node entry yields it as an event. */
  predicate SignalSource(edges: seq<Value>, nodes: seq<Value>, l: string)
    requires DiagramShaped(edges, nodes)
  {
    (exists e | e in Flattened(edges, DataKey) ::
       CarriesLabel(e, GenericEdgeKey, l) || CarriesLabel(e, QuadCurveEdgeKey, l))
    || (exists x | x in NodeEntries(nodes) :: SimpleNodeYields(x, l))
    || (exists x | x in NodeEntries(nodes) :: GroupNodeYields(x, l))
  }

  /**
   * A signal is rendered exactly when it is eligible and some edge entry
   * carries it as a cleaned label, or some simple node or group among the node
   * entries yields it as an event.
   */
  lemma SignalMember(edges: seq<Value>, nodes: seq<Value>, l: string)
    requires DiagramShaped(edges, nodes)
    ensures l in Signals(edges, nodes) <==> Eligible(l) && SignalSource(edges, nodes, l)
  {
    var entries := NodeEntries(nodes);
    CleanedMember(RawSignals(edges, nodes), l);
    EdgeLabelsMember(edges, l);
    SimpleNodesDataMember(entries, l);
    GroupNodesDataMember(entries, l);
  }

  /** The signals from edge labels come first, in the order `clean_list` keeps them on their own. */
  lemma EdgeSignalsFirst(edges: seq<Value>, nodes: seq<Value>)
    requires DiagramShaped(edges, nodes)
    ensures Cleaned(EdgeLabels(edges)) <= Signals(edges, nodes)
  {
    var entries := NodeEntries(nodes);
    var edgeLabels := EdgeLabels(edges);
    var rest := SimpleNodesData(entries) + GroupNodesData(entries);
    AppendAssoc(edgeLabels, SimpleNodesData(entries), GroupNodesData(entries));
    CleanedPrefix(edgeLabels, rest);
  }

  /** No signal holds a `/`, and none has surrounding whitespace. */
  lemma SignalsAreBare(edges: seq<Value>, nodes: seq<Value>, l: string)
    requires DiagramShaped(edges, nodes)
    requires l in Signals(edges, nodes)
    ensures '/' !in l && Stripped(l)
  {
    var entries := NodeEntries(nodes);
    var raw := RawSignals(edges, nodes);
    CleanedMember(raw, l);
    if l in EdgeLabels(edges) {
      EdgeLabelsMember(edges, l);
      var e :| e in Flattened(edges, DataKey) && (CarriesLabel(e, GenericEdgeKey, l) || CarriesLabel(e, QuadCurveEdgeKey, l));
      var t := if CarriesLabel(e, GenericEdgeKey, l) then GenericEdgeKey else QuadCurveEdgeKey;
      var x :| x in Items(EdgeLabelField(e, t)) && CleansTo(x, l);
    } else if l in SimpleNodesData(entries) {
      SimpleNodesDataMember(entries, l);
      var x :| x in entries && SimpleNodeYields(x, l);
    } else {
      assert l in GroupNodesData(entries);
      GroupNodesDataMember(entries, l);
      var x :| x in entries && GroupNodeYields(x, l);
    }
  }
}
