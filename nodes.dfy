/**
 * The node-label locators: `is_node_empty` (graphmlparser.py:74-85),
 * `is_node_group` (graphmlparser.py:88-94), `get_sub_nodes`
 * (graphmlparser.py:96-107), `get_simple_nodes_data` (graphmlparser.py:123-135)
 * and `get_group_nodes_data` (graphmlparser.py:137-152). The two label
 * locators take the flattened `data` entries of the nodes; a plain state keeps
 * its annotation under `y:GenericNode`/`y:NodeLabel`, a group under
 * `y:ProxyAutoBoundsNode`/`y:Realizers`/`y:GroupNode`/`y:NodeLabel`.
 */
module NodeLocator {
  import opened Document
  import opened Labels
  import opened Lists

  /** An entry `is_node_empty` can inspect: a dictionary whose `y:GenericNode`, if any, is one too. */
  predicate NodeTyped(node: Value) {
    node.Obj? && (Has(node, GenericNodeKey) ==> Get(node, GenericNodeKey).Obj?)
  }

  /** `is_node_empty` (graphmlparser.py:74-85): no `y:GenericNode`, or one without `y:NodeLabel`. */
  predicate IsNodeEmpty(node: Value)
    requires NodeTyped(node)
  {
    !Has(node, GenericNodeKey) || !Has(Get(node, GenericNodeKey), NodeLabelKey)
  }

  /** `is_node_group` (graphmlparser.py:88-94): the entry has a `y:ProxyAutoBoundsNode`. */
  predicate IsNodeGroup(node: Value)
    requires node.Obj?
  {
    Has(node, GroupMarkerKey)
  }

  /** The filter of `get_simple_nodes_data`: `not is_node_empty(x) and not is_node_group(x)`. */
  predicate IsSimpleNode(node: Value)
    requires NodeTyped(node)
  {
    !IsNodeEmpty(node) && !IsNodeGroup(node)
  }

  /** `x['y:GenericNode']['y:NodeLabel']` of a simple node. */
  function SimpleLabelField(node: Value): Value
    requires NodeTyped(node) && IsSimpleNode(node)
  {
    Get(Get(node, GenericNodeKey), NodeLabelKey)
  }

  /** An entry `get_simple_nodes_data` gets through without a runtime error. */
  predicate SimpleShaped(node: Value) {
    NodeTyped(node) && (IsSimpleNode(node) ==> LabelField(SimpleLabelField(node)))
  }

  /** `x['y:ProxyAutoBoundsNode']['y:Realizers']` of a group. */
  function GroupRealizers(node: Value): Value
    requires node.Obj? && IsNodeGroup(node) && Has(Get(node, GroupMarkerKey), RealizersKey)
  {
    Get(Get(node, GroupMarkerKey), RealizersKey)
  }

  /** The shape `get_group_nodes_data` needs of a group's realizers up to its `y:GroupNode` list. */
  predicate HasGroupMembers(node: Value) {
    node.Obj? && IsNodeGroup(node) && Has(Get(node, GroupMarkerKey), RealizersKey)
    && Has(GroupRealizers(node), GroupNodeKey) && IsContainer(Get(GroupRealizers(node), GroupNodeKey))
  }

  /** The `y:GroupNode` entries of a group. */
  function GroupMembers(node: Value): seq<Value>
    requires HasGroupMembers(node)
  {
    Items(Get(GroupRealizers(node), GroupNodeKey))
  }

  /** An entry `get_group_nodes_data` gets through without a runtime error. */
  predicate GroupShaped(node: Value) {
    node.Obj? && (IsNodeGroup(node) ==>
      HasGroupMembers(node)
      && CanFlatten(GroupMembers(node), NodeLabelKey)
      && forall x | x in Flattened(GroupMembers(node), NodeLabelKey) :: LabelEntry(x))
  }

  /** The label entries of a group: its `y:GroupNode` entries' `y:NodeLabel` fields, flattened. */
  function GroupLabelEntries(node: Value): (entries: seq<Value>)
    requires GroupShaped(node) && IsNodeGroup(node)
    ensures forall x | x in entries :: LabelEntry(x)
  {
    Flattened(GroupMembers(node), NodeLabelKey)
  }

  predicate SimpleNodesShaped(flat: seq<Value>) {
    forall x | x in flat :: SimpleShaped(x)
  }

  predicate GroupNodesShaped(flat: seq<Value>) {
    forall x | x in flat :: GroupShaped(x)
  }

  lemma SimpleNodesShapedParts(flat: seq<Value>, n: nat)
    requires SimpleNodesShaped(flat) && n <= |flat|
    ensures SimpleNodesShaped(flat[..n]) && SimpleNodesShaped(flat[n..])
  {
    MemberOfPrefix(flat, n);
    MemberOfSuffix(flat, n);
  }

  lemma SimpleNodesShapedAppend(a: seq<Value>, b: seq<Value>)
    requires SimpleNodesShaped(a) && SimpleNodesShaped(b)
    ensures SimpleNodesShaped(a + b)
  {
    MemberOfAppend(a, b);
  }

  lemma GroupNodesShapedParts(flat: seq<Value>, n: nat)
    requires GroupNodesShaped(flat) && n <= |flat|
    ensures GroupNodesShaped(flat[..n]) && GroupNodesShaped(flat[n..])
  {
    MemberOfPrefix(flat, n);
    MemberOfSuffix(flat, n);
  }

  lemma GroupNodesShapedAppend(a: seq<Value>, b: seq<Value>)
    requires GroupNodesShaped(a) && GroupNodesShaped(b)
    ensures GroupNodesShaped(a + b)
  {
    MemberOfAppend(a, b);
  }

  // ---------------------------------------------------------------------------
  // get_simple_nodes_data

  /** `list(filter(lambda x: not is_node_empty(x) and not is_node_group(x), flat))`. */
  function SimpleNodes(flat: seq<Value>): (simple: seq<Value>)
    requires SimpleNodesShaped(flat)
    ensures |simple| <= |flat|
    ensures forall x | x in simple :: SimpleShaped(x) && IsSimpleNode(x)
  {
    if flat == [] then []
    else
      var n := |flat| - 1;
      SimpleNodesShapedParts(flat, n);
      assert flat[n] in flat;
      SimpleNodes(flat[..n]) + (if IsSimpleNode(flat[n]) then [flat[n]] else [])
  }

  /** The filter keeps exactly the entries that are neither empty nor groups. */
  lemma {:induction false} SimpleNodesMember(flat: seq<Value>, x: Value)
    requires SimpleNodesShaped(flat)
    ensures x in SimpleNodes(flat) <==> x in flat && SimpleShaped(x) && IsSimpleNode(x)
  {
    if flat != [] {
      var n := |flat| - 1;
      SimpleNodesShapedParts(flat, n);
      SimpleNodesMember(flat[..n], x);
      MemberOfSnoc(flat);
    }
  }

  /** `[x['y:GenericNode'] for x in simple]`. */
  function GenericNodeBodies(simple: seq<Value>): (bodies: seq<Value>)
    requires forall x | x in simple :: SimpleShaped(x) && IsSimpleNode(x)
    ensures |bodies| == |simple|
    ensures forall b | b in bodies :: Has(b, NodeLabelKey) && LabelField(Get(b, NodeLabelKey))
  {
    if simple == [] then []
    else
      var n := |simple| - 1;
      MemberOfPrefix(simple, n);
      var x := simple[n];
      assert x in simple;
      assert SimpleShaped(x) && IsSimpleNode(x);
      GenericNodeBodies(simple[..n]) + [Get(x, GenericNodeKey)]
  }

  /** The label fields of the bodies flatten, and every flattened entry is a label entry. */
  lemma NodeLabelEntries(bodies: seq<Value>)
    requires forall b | b in bodies :: Has(b, NodeLabelKey) && LabelField(Get(b, NodeLabelKey))
    ensures CanFlatten(bodies, NodeLabelKey)
    ensures forall x | x in Flattened(bodies, NodeLabelKey) :: LabelEntry(x)
  {
    forall x | x in Flattened(bodies, NodeLabelKey)
      ensures LabelEntry(x)
    {
      FlattenedMember(bodies, NodeLabelKey, x);
    }
  }

  /** What `get_simple_nodes_data(flat)` returns (graphmlparser.py:123-135). */
  function SimpleNodesData(flat: seq<Value>): seq<string>
    requires SimpleNodesShaped(flat)
  {
    var bodies := GenericNodeBodies(SimpleNodes(flat));
    NodeLabelEntries(bodies);
    NodeEvents(Texts(Flattened(bodies, NodeLabelKey)))
  }

  /** What one entry contributes on the simple path: nothing unless it is a simple node. */
  function SimpleEventsOf(node: Value): seq<string>
    requires SimpleShaped(node)
  {
    if IsSimpleNode(node) then NodeEvents(Texts(Items(SimpleLabelField(node)))) else []
  }

  /** The entries' simple-path contributions, entry after entry. */
  function SimpleEventsByNode(flat: seq<Value>): seq<string>
    requires SimpleNodesShaped(flat)
  {
    if flat == [] then []
    else
      var n := |flat| - 1;
      SimpleNodesShapedParts(flat, n);
      assert flat[n] in flat;
      SimpleEventsByNode(flat[..n]) + SimpleEventsOf(flat[n])
  }

  lemma {:induction false} SimpleNodesAppend(a: seq<Value>, b: seq<Value>)
    requires SimpleNodesShaped(a) && SimpleNodesShaped(b)
    ensures SimpleNodesShaped(a + b)
    ensures SimpleNodes(a + b) == SimpleNodes(a) + SimpleNodes(b)
    decreases |b|
  {
    SimpleNodesShapedAppend(a, b);
    if b != [] {
      var n := |b| - 1;
      SimpleNodesShapedParts(b, n);
      SimpleNodesAppend(a, b[..n]);
      SnocOfAppend(a, b);
      assert b[n] in b;
      var tail := if IsSimpleNode(b[n]) then [b[n]] else [];
      assert SimpleNodes(a + b) == SimpleNodes(a + b[..n]) + tail;
      assert SimpleNodes(b) == SimpleNodes(b[..n]) + tail;
      AppendAssoc(SimpleNodes(a), SimpleNodes(b[..n]), tail);
    } else {
      AppendEmpty(a);
    }
  }

  lemma {:induction false} GenericNodeBodiesAppend(a: seq<Value>, b: seq<Value>)
    requires forall x | x in a :: SimpleShaped(x) && IsSimpleNode(x)
    requires forall x | x in b :: SimpleShaped(x) && IsSimpleNode(x)
    ensures forall x | x in a + b :: SimpleShaped(x) && IsSimpleNode(x)
    ensures GenericNodeBodies(a + b) == GenericNodeBodies(a) + GenericNodeBodies(b)
    decreases |b|
  {
    MemberOfAppend(a, b);
    if b != [] {
      var n := |b| - 1;
      MemberOfPrefix(b, n);
      GenericNodeBodiesAppend(a, b[..n]);
      PrefixOfAppend(a, b, n);
    } else {
      AppendEmpty(a);
    }
  }

  lemma SimpleNodesDataAppend(a: seq<Value>, b: seq<Value>)
    requires SimpleNodesShaped(a) && SimpleNodesShaped(b)
    ensures SimpleNodesShaped(a + b)
    ensures SimpleNodesData(a + b) == SimpleNodesData(a) + SimpleNodesData(b)
  {
    SimpleNodesAppend(a, b);
    var sa, sb := SimpleNodes(a), SimpleNodes(b);
    GenericNodeBodiesAppend(sa, sb);
    var ba, bb := GenericNodeBodies(sa), GenericNodeBodies(sb);
    NodeLabelEntries(ba);
    NodeLabelEntries(bb);
    FlattenedAppend(ba, bb, NodeLabelKey);
    var fa, fb := Flattened(ba, NodeLabelKey), Flattened(bb, NodeLabelKey);
    TextsAppend(fa, fb);
    NodeEventsAppend(Texts(fa), Texts(fb));
  }

  lemma SimpleNodesDataOfOne(node: Value)
    requires SimpleShaped(node)
    ensures SimpleNodesShaped([node])
    ensures SimpleNodesData([node]) == SimpleEventsOf(node)
  {
    assert [node][..0] == [];
    var simple := SimpleNodes([node]);
    if IsSimpleNode(node) {
      assert simple == [node];
      var bodies := GenericNodeBodies(simple);
      assert bodies == [Get(node, GenericNodeKey)] by { assert simple[..0] == []; }
      FlattenedOne(Get(node, GenericNodeKey), NodeLabelKey);
    } else {
      assert simple == [];
    }
  }

  /**
   * `get_simple_nodes_data` returns, in entry order, the events of every simple
   * node's label texts; the filter-and-flatten pipeline loses and reorders
   * nothing.
   */
  lemma {:induction false} SimpleNodesDataByNode(flat: seq<Value>)
    requires SimpleNodesShaped(flat)
    ensures SimpleNodesData(flat) == SimpleEventsByNode(flat)
    decreases |flat|
  {
    if flat != [] {
      var n := |flat| - 1;
      var init, last := flat[..n], flat[n];
      SimpleNodesShapedParts(flat, n);
      assert last in flat;
      assert flat == init + [last];
      SimpleNodesDataAppend(init, [last]);
      SimpleNodesDataByNode(init);
      SimpleNodesDataOfOne(last);
      assert SimpleEventsByNode(flat) == SimpleEventsByNode(init) + SimpleEventsOf(last);
    }
  }

  /**
   * A group, or an entry without `y:GenericNode` or `y:NodeLabel`, never
   * contributes on the simple path: leaving it out changes nothing.
   */
  lemma NonSimpleNodeContributesNothing(flat: seq<Value>, i: nat)
    requires SimpleNodesShaped(flat) && i < |flat|
    requires NodeTyped(flat[i]) && (IsNodeGroup(flat[i]) || IsNodeEmpty(flat[i]))
    ensures SimpleNodesShaped(flat[..i] + flat[i + 1..])
    ensures SimpleNodesData(flat[..i] + flat[i + 1..]) == SimpleNodesData(flat)
  {
    var before, x, after := flat[..i], flat[i], flat[i + 1..];
    SimpleNodesShapedParts(flat, i);
    SimpleNodesShapedParts(flat, i + 1);
    assert x in flat;
    SimpleNodesDataOfOne(x);
    SimpleNodesDataAppend(before, [x]);
    SimpleNodesDataAppend(before + [x], after);
    SimpleNodesDataAppend(before, after);
    calc {
      SimpleNodesData(flat);
      { SplitAt(flat, i); }
      SimpleNodesData(before + [x] + after);
      SimpleNodesData(before) + SimpleNodesData([x]) + SimpleNodesData(after);
      { AppendEmpty(SimpleNodesData(before)); }
      SimpleNodesData(before + after);
    }
  }

  /** Entry `node` is a simple node one of whose label texts cleans to a list holding `e`. */
  predicate SimpleNodeYields(node: Value, e: string) {
    SimpleShaped(node) && IsSimpleNode(node)
    && exists s | s in Texts(Items(SimpleLabelField(node))) :: e in LabelCleaner.CleanNodeLabel(s)
  }

  lemma {:induction false} SimpleEventsByNodeMember(flat: seq<Value>, e: string)
    requires SimpleNodesShaped(flat)
    ensures e in SimpleEventsByNode(flat) <==> exists x | x in flat :: SimpleShaped(x) && e in SimpleEventsOf(x)
    decreases |flat|
  {
    if flat != [] {
      var n := |flat| - 1;
      SimpleNodesShapedParts(flat, n);
      assert flat[n] in flat;
      SimpleEventsByNodeMember(flat[..n], e);
      MemberOfSnoc(flat);
    }
  }

  /** An event comes out of the simple path exactly when some simple node's label text yields it. */
  lemma SimpleNodesDataMember(flat: seq<Value>, e: string)
    requires SimpleNodesShaped(flat)
    ensures e in SimpleNodesData(flat) <==> exists x | x in flat :: SimpleNodeYields(x, e)
  {
    SimpleNodesDataByNode(flat);
    SimpleEventsByNodeMember(flat, e);
    forall x | x in flat
      ensures SimpleShaped(x) && (e in SimpleEventsOf(x) <==> SimpleNodeYields(x, e))
    {
      if IsSimpleNode(x) {
        NodeEventsMember(Texts(Items(SimpleLabelField(x))), e);
      }
    }
  }

  // ---------------------------------------------------------------------------
  // get_group_nodes_data

  /** `list(filter(lambda x: is_node_group(x), flat))`. */
  function GroupNodes(flat: seq<Value>): (groups: seq<Value>)
    requires GroupNodesShaped(flat)
    ensures |groups| <= |flat|
    ensures forall x | x in groups :: GroupShaped(x) && IsNodeGroup(x)
  {
    if flat == [] then []
    else
      var n := |flat| - 1;
      GroupNodesShapedParts(flat, n);
      assert flat[n] in flat;
      GroupNodes(flat[..n]) + (if IsNodeGroup(flat[n]) then [flat[n]] else [])
  }

  /** The filter keeps exactly the groups. */
  lemma {:induction false} GroupNodesMember(flat: seq<Value>, x: Value)
    requires GroupNodesShaped(flat)
    ensures x in GroupNodes(flat) <==> x in flat && GroupShaped(x) && IsNodeGroup(x)
  {
    if flat != [] {
      var n := |flat| - 1;
      GroupNodesShapedParts(flat, n);
      GroupNodesMember(flat[..n], x);
      MemberOfSnoc(flat);
    }
  }

  /** `[x['y:ProxyAutoBoundsNode']['y:Realizers'] for x in groups]`. */
  function RealizersOf(groups: seq<Value>): (realizers: seq<Value>)
    requires forall x | x in groups :: GroupShaped(x) && IsNodeGroup(x)
    ensures |realizers| == |groups|
  {
    if groups == [] then []
    else
      var n := |groups| - 1;
      MemberOfPrefix(groups, n);
      assert groups[n] in groups;
      assert GroupShaped(groups[n]) && IsNodeGroup(groups[n]);
      assert HasGroupMembers(groups[n]);
      RealizersOf(groups[..n]) + [GroupRealizers(groups[n])]
  }

  /** What `RealizersOf` gives the first `flatten` is well shaped, and so is what that gives the second. */
  predicate GroupPipelineShaped(realizers: seq<Value>) {
    CanFlatten(realizers, GroupNodeKey)
    && CanFlatten(Flattened(realizers, GroupNodeKey), NodeLabelKey)
    && forall x | x in Flattened(Flattened(realizers, GroupNodeKey), NodeLabelKey) :: LabelEntry(x)
  }

  /** The group entries' realizers go through both flattenings and leave only label entries. */
  lemma {:induction false} RealizersShaped(groups: seq<Value>)
    requires forall x | x in groups :: GroupShaped(x) && IsNodeGroup(x)
    ensures GroupPipelineShaped(RealizersOf(groups))
    decreases |groups|
  {
    if groups != [] {
      var n := |groups| - 1;
      var init, g := groups[..n], groups[n];
      MemberOfPrefix(groups, n);
      assert g in groups;
      RealizersShaped(init);
      var r0, r := RealizersOf(init), GroupRealizers(g);
      assert RealizersOf(groups) == r0 + [r];
      FlattenedOne(r, GroupNodeKey);
      FlattenedAppend(r0, [r], GroupNodeKey);
      var m0 := Flattened(r0, GroupNodeKey);
      assert Flattened(r0 + [r], GroupNodeKey) == m0 + GroupMembers(g);
      FlattenedAppend(m0, GroupMembers(g), NodeLabelKey);
      MemberOfAppend(Flattened(m0, NodeLabelKey), GroupLabelEntries(g));
    }
  }

  lemma {:induction false} GroupNodesAppend(a: seq<Value>, b: seq<Value>)
    requires GroupNodesShaped(a) && GroupNodesShaped(b)
    ensures GroupNodesShaped(a + b)
    ensures GroupNodes(a + b) == GroupNodes(a) + GroupNodes(b)
    decreases |b|
  {
    GroupNodesShapedAppend(a, b);
    if b != [] {
      var n := |b| - 1;
      GroupNodesShapedParts(b, n);
      GroupNodesAppend(a, b[..n]);
      SnocOfAppend(a, b);
      assert b[n] in b;
      var tail := if IsNodeGroup(b[n]) then [b[n]] else [];
      assert GroupNodes(a + b) == GroupNodes(a + b[..n]) + tail;
      assert GroupNodes(b) == GroupNodes(b[..n]) + tail;
      AppendAssoc(GroupNodes(a), GroupNodes(b[..n]), tail);
    } else {
      AppendEmpty(a);
    }
  }

  lemma {:induction false} RealizersOfAppend(a: seq<Value>, b: seq<Value>)
    requires forall x | x in a :: GroupShaped(x) && IsNodeGroup(x)
    requires forall x | x in b :: GroupShaped(x) && IsNodeGroup(x)
    ensures forall x | x in a + b :: GroupShaped(x) && IsNodeGroup(x)
    ensures RealizersOf(a + b) == RealizersOf(a) + RealizersOf(b)
    decreases |b|
  {
    MemberOfAppend(a, b);
    if b != [] {
      var n := |b| - 1;
      MemberOfPrefix(b, n);
      RealizersOfAppend(a, b[..n]);
      SnocOfAppend(a, b);
      assert b[n] in b;
      assert HasGroupMembers(b[n]);
      var tail := [GroupRealizers(b[n])];
      assert RealizersOf(a + b) == RealizersOf(a + b[..n]) + tail;
      assert RealizersOf(b) == RealizersOf(b[..n]) + tail;
      AppendAssoc(RealizersOf(a), RealizersOf(b[..n]), tail);
    } else {
      AppendEmpty(a);
    }
  }

  /** The label entries `get_group_nodes_data` reaches: every group's, in entry order. */
  function GroupEntries(flat: seq<Value>): (entries: seq<Value>)
    requires GroupNodesShaped(flat)
    ensures forall x | x in entries :: LabelEntry(x)
  {
    var realizers := RealizersOf(GroupNodes(flat));
    RealizersShaped(GroupNodes(flat));
    Flattened(Flattened(realizers, GroupNodeKey), NodeLabelKey)
  }

  /** What `get_group_nodes_data(flat)` returns (graphmlparser.py:137-152). */
  function GroupNodesData(flat: seq<Value>): seq<string>
    requires GroupNodesShaped(flat)
  {
    NodeEvents(Texts(GroupEntries(flat)))
  }

  lemma GroupEntriesAppend(a: seq<Value>, b: seq<Value>)
    requires GroupNodesShaped(a) && GroupNodesShaped(b)
    ensures GroupNodesShaped(a + b)
    ensures GroupEntries(a + b) == GroupEntries(a) + GroupEntries(b)
  {
    GroupNodesAppend(a, b);
    var ga, gb := GroupNodes(a), GroupNodes(b);
    RealizersOfAppend(ga, gb);
    var ra, rb := RealizersOf(ga), RealizersOf(gb);
    RealizersShaped(ga);
    RealizersShaped(gb);
    FlattenedAppend(ra, rb, GroupNodeKey);
    var ma, mb := Flattened(ra, GroupNodeKey), Flattened(rb, GroupNodeKey);
    FlattenedAppend(ma, mb, NodeLabelKey);
  }

  lemma GroupNodesDataAppend(a: seq<Value>, b: seq<Value>)
    requires GroupNodesShaped(a) && GroupNodesShaped(b)
    ensures GroupNodesShaped(a + b)
    ensures GroupNodesData(a + b) == GroupNodesData(a) + GroupNodesData(b)
  {
    GroupEntriesAppend(a, b);
    TextsAppend(GroupEntries(a), GroupEntries(b));
    NodeEventsAppend(Texts(GroupEntries(a)), Texts(GroupEntries(b)));
  }

  /** What one entry contributes on the group path: nothing unless it is a group. */
  function GroupEventsOf(node: Value): seq<string>
    requires GroupShaped(node)
  {
    if IsNodeGroup(node) then NodeEvents(Texts(GroupLabelEntries(node))) else []
  }

  /** The entries' group-path contributions, entry after entry. */
  function GroupEventsByNode(flat: seq<Value>): seq<string>
    requires GroupNodesShaped(flat)
  {
    if flat == [] then []
    else
      var n := |flat| - 1;
      GroupNodesShapedParts(flat, n);
      assert flat[n] in flat;
      GroupEventsByNode(flat[..n]) + GroupEventsOf(flat[n])
  }

  lemma GroupNodesDataOfOne(node: Value)
    requires GroupShaped(node)
    ensures GroupNodesShaped([node])
    ensures GroupNodesData([node]) == GroupEventsOf(node)
  {
    assert [node][..0] == [];
    var groups := GroupNodes([node]);
    if IsNodeGroup(node) {
      assert groups == [node];
      var realizers := RealizersOf(groups);
      assert realizers == [GroupRealizers(node)] by { assert groups[..0] == []; }
      FlattenedOne(GroupRealizers(node), GroupNodeKey);
      assert GroupEntries([node]) == GroupLabelEntries(node);
    } else {
      assert groups == [];
      assert RealizersOf(groups) == [];
    }
  }

  /**
   * `get_group_nodes_data` returns, in entry order, the events of the label
   * texts of every group's `y:GroupNode` realizers, and nothing from any other
   * entry.
   */
  lemma {:induction false} GroupNodesDataByNode(flat: seq<Value>)
    requires GroupNodesShaped(flat)
    ensures GroupNodesData(flat) == GroupEventsByNode(flat)
    decreases |flat|
  {
    if flat != [] {
      var n := |flat| - 1;
      var init, last := flat[..n], flat[n];
      GroupNodesShapedParts(flat, n);
      assert last in flat;
      assert flat == init + [last];
      GroupNodesDataAppend(init, [last]);
      GroupNodesDataByNode(init);
      GroupNodesDataOfOne(last);
      assert GroupEventsByNode(flat) == GroupEventsByNode(init) + GroupEventsOf(last);
    }
  }

  /** An entry that is not a group never contributes on the group path: leaving it out changes nothing. */
  lemma NonGroupNodeContributesNothing(flat: seq<Value>, i: nat)
    requires GroupNodesShaped(flat) && i < |flat|
    requires flat[i].Obj? && !IsNodeGroup(flat[i])
    ensures GroupNodesShaped(flat[..i] + flat[i + 1..])
    ensures GroupNodesData(flat[..i] + flat[i + 1..]) == GroupNodesData(flat)
  {
    var before, x, after := flat[..i], flat[i], flat[i + 1..];
    GroupNodesShapedParts(flat, i);
    GroupNodesShapedParts(flat, i + 1);
    assert x in flat;
    GroupNodesDataOfOne(x);
    GroupNodesDataAppend(before, [x]);
    GroupNodesDataAppend(before + [x], after);
    GroupNodesDataAppend(before, after);
    calc {
      GroupNodesData(flat);
      { SplitAt(flat, i); }
      GroupNodesData(before + [x] + after);
      GroupNodesData(before) + GroupNodesData([x]) + GroupNodesData(after);
      { AppendEmpty(GroupNodesData(before)); }
      GroupNodesData(before + after);
    }
  }

  /** Entry `node` is a group one of whose realizers' label texts cleans to a list holding `e`. */
  predicate GroupNodeYields(node: Value, e: string) {
    GroupShaped(node) && IsNodeGroup(node)
    && exists s | s in Texts(GroupLabelEntries(node)) :: e in LabelCleaner.CleanNodeLabel(s)
  }

  lemma {:induction false} GroupEventsByNodeMember(flat: seq<Value>, e: string)
    requires GroupNodesShaped(flat)
    ensures e in GroupEventsByNode(flat) <==> exists x | x in flat :: GroupShaped(x) && e in GroupEventsOf(x)
    decreases |flat|
  {
    if flat != [] {
      var n := |flat| - 1;
      GroupNodesShapedParts(flat, n);
      assert flat[n] in flat;
      GroupEventsByNodeMember(flat[..n], e);
      MemberOfSnoc(flat);
    }
  }

  /** An event comes out of the group path exactly when some group's label text yields it. */
  lemma GroupNodesDataMember(flat: seq<Value>, e: string)
    requires GroupNodesShaped(flat)
    ensures e in GroupNodesData(flat) <==> exists x | x in flat :: GroupNodeYields(x, e)
  {
    GroupNodesDataByNode(flat);
    GroupEventsByNodeMember(flat, e);
    forall x | x in flat
      ensures GroupShaped(x) && (e in GroupEventsOf(x) <==> GroupNodeYields(x, e))
    {
      if IsNodeGroup(x) {
        NodeEventsMember(Texts(GroupLabelEntries(x)), e);
      }
    }
  }

  // ---------------------------------------------------------------------------
  // get_sub_nodes

  /** The sub-graph of a node, if any: `node['graph']`. */
  predicate HasSubGraph(node: Value) {
    Has(node, GraphKey)
  }

  /** A node `get_sub_nodes` gets through: a dictionary whose sub-graph, if any, lists nodes that all have `data`. */
  predicate SubGraphShaped(node: Value) {
    node.Obj? && (HasSubGraph(node) ==>
      Has(Get(node, GraphKey), NodeKey) && IsContainer(Get(Get(node, GraphKey), NodeKey))
      && CanFlatten(Items(Get(Get(node, GraphKey), NodeKey)), DataKey))
  }

  predicate SubGraphsShaped(nodes: seq<Value>) {
    forall x | x in nodes :: SubGraphShaped(x)
  }

  lemma SubGraphsShapedParts(nodes: seq<Value>, n: nat)
    requires SubGraphsShaped(nodes) && n <= |nodes|
    ensures SubGraphsShaped(nodes[..n]) && SubGraphsShaped(nodes[n..])
  {
    MemberOfPrefix(nodes, n);
    MemberOfSuffix(nodes, n);
  }

  /** A sub-graph's nodes, and their `data` entries. */
  function SubGraphNodes(node: Value): seq<Value>
    requires SubGraphShaped(node) && HasSubGraph(node)
  {
    Items(Get(Get(node, GraphKey), NodeKey))
  }

  /** `[node['graph'] for node in nodes if 'graph' in node.keys()]`. */
  function Graphs(nodes: seq<Value>): (graphs: seq<Value>)
    requires SubGraphsShaped(nodes)
    ensures |graphs| <= |nodes|
    ensures CanFlatten(graphs, NodeKey)
  {
    if nodes == [] then []
    else
      var n := |nodes| - 1;
      SubGraphsShapedParts(nodes, n);
      assert nodes[n] in nodes;
      var tail := if HasSubGraph(nodes[n]) then [Get(nodes[n], GraphKey)] else [];
      var graphs := Graphs(nodes[..n]) + tail;
      MemberOfAppend(Graphs(nodes[..n]), tail);
      graphs
  }

  /** A graph is taken exactly when it is the `graph` field of one of the nodes. */
  lemma {:induction false} GraphsMember(nodes: seq<Value>, g: Value)
    requires SubGraphsShaped(nodes)
    ensures g in Graphs(nodes) <==> exists x | x in nodes :: HasSubGraph(x) && Get(x, GraphKey) == g
    decreases |nodes|
  {
    if nodes != [] {
      var n := |nodes| - 1;
      var init, last := nodes[..n], nodes[n];
      SubGraphsShapedParts(nodes, n);
      GraphsMember(init, g);
      var tail := if HasSubGraph(last) then [Get(last, GraphKey)] else [];
      assert Graphs(nodes) == Graphs(init) + tail;
      MemberOfAppend(Graphs(init), tail);
      MemberOfPrefix(nodes, n);
      MemberOfSnoc(nodes);
      assert last in nodes;
    }
  }

  /** Every graph `Graphs` keeps lists nodes that all have `data`. */
  lemma {:induction false} GraphsNodesHaveData(nodes: seq<Value>)
    requires SubGraphsShaped(nodes)
    ensures CanFlatten(Flattened(Graphs(nodes), NodeKey), DataKey)
    decreases |nodes|
  {
    if nodes != [] {
      var n := |nodes| - 1;
      var init, last := nodes[..n], nodes[n];
      SubGraphsShapedParts(nodes, n);
      assert last in nodes;
      GraphsNodesHaveData(init);
      var tail := if HasSubGraph(last) then [Get(last, GraphKey)] else [];
      assert Graphs(nodes) == Graphs(init) + tail;
      FlattenedAppend(Graphs(init), tail, NodeKey);
      var own := Flattened(tail, NodeKey);
      if HasSubGraph(last) {
        FlattenedOne(Get(last, GraphKey), NodeKey);
        assert own == SubGraphNodes(last);
      } else {
        assert own == [];
      }
      MemberOfAppend(Flattened(Graphs(init), NodeKey), own);
    }
  }

  /** What `get_sub_nodes(nodes)` returns (graphmlparser.py:96-107). */
  function SubNodes(nodes: seq<Value>): seq<Value>
    requires SubGraphsShaped(nodes)
  {
    GraphsNodesHaveData(nodes);
    Flattened(Flattened(Graphs(nodes), NodeKey), DataKey)
  }

  /** The `data` entries of the nodes directly inside one node's sub-graph. */
  function SubNodesOf(node: Value): seq<Value>
    requires SubGraphShaped(node)
  {
    if HasSubGraph(node) then Flattened(SubGraphNodes(node), DataKey) else []
  }

  /** The nodes' sub-graph entries, node after node. */
  function SubNodesByNode(nodes: seq<Value>): seq<Value>
    requires SubGraphsShaped(nodes)
  {
    if nodes == [] then []
    else
      var n := |nodes| - 1;
      SubGraphsShapedParts(nodes, n);
      assert nodes[n] in nodes;
      SubNodesByNode(nodes[..n]) + SubNodesOf(nodes[n])
  }

  /**
   * `get_sub_nodes` returns, node after node, the `data` entries of the nodes
   * directly inside each node's sub-graph; nodes without a `graph` add nothing.
   * A sub-graph nested inside a sub-graph node is not entered.
   */
  lemma {:induction false} SubNodesByParent(nodes: seq<Value>)
    requires SubGraphsShaped(nodes)
    ensures SubNodes(nodes) == SubNodesByNode(nodes)
    decreases |nodes|
  {
    if nodes != [] {
      var n := |nodes| - 1;
      var init, last := nodes[..n], nodes[n];
      SubGraphsShapedParts(nodes, n);
      assert last in nodes;
      SubNodesByParent(init);
      GraphsNodesHaveData(init);
      var tail := if HasSubGraph(last) then [Get(last, GraphKey)] else [];
      assert Graphs(nodes) == Graphs(init) + tail;
      FlattenedAppend(Graphs(init), tail, NodeKey);
      var m0, own := Flattened(Graphs(init), NodeKey), Flattened(tail, NodeKey);
      if HasSubGraph(last) {
        FlattenedOne(Get(last, GraphKey), NodeKey);
        assert own == SubGraphNodes(last);
      } else {
        assert own == [];
      }
      FlattenedAppend(m0, own, DataKey);
      assert Flattened(own, DataKey) == SubNodesOf(last);
      assert SubNodesByNode(nodes) == SubNodesByNode(init) + SubNodesOf(last);
    }
  }

  lemma {:induction false} SubNodesByNodeMember(nodes: seq<Value>, x: Value)
    requires SubGraphsShaped(nodes)
    ensures x in SubNodesByNode(nodes) <==> exists p | p in nodes :: SubGraphShaped(p) && x in SubNodesOf(p)
    decreases |nodes|
  {
    if nodes != [] {
      var n := |nodes| - 1;
      SubGraphsShapedParts(nodes, n);
      assert nodes[n] in nodes;
      SubNodesByNodeMember(nodes[..n], x);
      MemberOfSnoc(nodes);
    }
  }

  /** `x` is a `data` entry of a node directly inside the sub-graph of `parent`. */
  predicate SubNodeOf(parent: Value, x: Value) {
    SubGraphShaped(parent) && HasSubGraph(parent)
    && exists child | child in SubGraphNodes(parent) :: x in Items(Get(child, DataKey))
  }

  /** An entry comes out of `get_sub_nodes` exactly when it is a `data` entry of a node one level down. */
  lemma SubNodesMember(nodes: seq<Value>, x: Value)
    requires SubGraphsShaped(nodes)
    ensures x in SubNodes(nodes) <==> exists p | p in nodes :: SubNodeOf(p, x)
  {
    SubNodesByParent(nodes);
    SubNodesByNodeMember(nodes, x);
    forall p | p in nodes
      ensures SubGraphShaped(p) && (x in SubNodesOf(p) <==> SubNodeOf(p, x))
    {
      if HasSubGraph(p) {
        FlattenedMember(SubGraphNodes(p), DataKey, x);
      }
    }
  }
}
