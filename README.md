# graphmlparser signal extraction, modelled in Dafny

`graphmlparser.py` reads a state diagram drawn in yEd and exported as GraphML.
It collects the names of the state machine's signals and renders them as two C
fragments:
- the `PlayerSignals` enumeration;
- the `KeyStrokes` table.

The signals come from three places:
- the labels of the edges (transitions): each label is cut at a guard `[`, an
  action `/` or a comment `\`, then trimmed;
- the annotations of the plain states (`y:GenericNode`);
- the annotations of the group states (`y:ProxyAutoBoundsNode`).

Both kinds of state are looked for among the `data` entries of the top-level
nodes and of the nodes one level down, inside the `graph` of any node that has
one. A plain state inside a group is therefore read like any other plain state.
In an annotation, each event name is the last line before a `/`.

The collected list is reduced by `clean_list`. It keeps each label once, at
its first occurrence, and drops the empty label and the `entry` and `exit`
pseudo-events.

The model is split into these modules:
- `Document`: the parsed XML as nested dictionaries, lists and text. `flatten`
  turns a field that holds either one dictionary or a list into a flat list.
- `LabelCleaner`: `edge_label_cleaner` and `clean_node_label`.
- `Labels`: the `#text` filtering shared by the locators.
- `EdgeLocator`: `is_edge_correct` and `get_edge_labels`.
- `NodeLocator`: `is_node_empty`, `is_node_group`, `get_sub_nodes`,
  `get_simple_nodes_data` and `get_group_nodes_data`.
- `Collector`: `clean_list`.
- `Emitter`: `get_enum` and `get_keystrokes`.
- `Pipeline`: the body of `main` without its file I/O.

`Text` models the Python string operations the source uses (`strip`, `split`,
`join`). `Lists` defines `Map` and `Concat`, which model `list(map(f, xs))` and
the flattening comprehension `[e for node in lists for e in node]`, together with
the sequence lemmas the other modules share.

The code built from loops becomes methods with loop invariants:
- `flatten`;
- `edge_label_cleaner`;
- `get_edge_labels`;
- `clean_list`.

Each of these methods is proved equal to a specification function. The
properties are then proved about those functions. `main` has no loop: it
becomes a method that extends one list step by step, cleans it and renders it,
and its contract ties the result to the specification functions. The comprehension-only
functions are modelled as functions. Each list comprehension or filter is one
function, and lemmas relate the whole pipeline to a per-entry reference
definition.

## Model

| member | source | states |
|---|---|---|
| Document.Flattened | graphmlparser.py:3-21 | Defined container by container: the field itself when it is a dictionary, its elements when it is a list. Its contract is carried by `Flatten`, `FlattenedAppend` and `FlattenedMember` |
| Document.Flatten | graphmlparser.py:3-21 | The loop's result is `Flattened`: each container's field, in container order, as one element when it is a dictionary and as its elements when it is a list |
| Document.FlattenedAppend | graphmlparser.py:13-20 | Flattening two container lists one after the other is flattening each and concatenating the results |
| Document.FlattenedMember | graphmlparser.py:14-20 | An element is in the flattened list exactly when some container's field is that element or a list holding it |
| Document.SingleAndListFlattenAlike | graphmlparser.py:16-20 | A field holding one dictionary and the same field holding a one-element list with that dictionary flatten to the same list, wherever the container stands |
| Document.SingleAndListFlattenToOne | graphmlparser.py:16-20 | A single container flattens to the one dictionary, whether the field holds it directly or in a one-element list |
| Text.Strip | graphmlparser.py:55 | `str.strip`: the result has no surrounding whitespace, holds only characters of the input, and a string without surrounding whitespace is returned whole. `StripInnerPart` and `StripUnique` pin it down completely |
| Text.StripInnerPart | graphmlparser.py:55 | `str.strip` removes only surrounding whitespace: the result is the slice of the input that starts after the leading whitespace, and everything after it is whitespace |
| Text.StripUnique | graphmlparser.py:55 | Any slice of the input that has no surrounding whitespace and is surrounded only by whitespace is the result of `str.strip`: the contract determines the function |
| Text.Before | graphmlparser.py:54 | `split(d)[0]`: the longest prefix without `d`, ending at the end of the string or just before a `d` |
| Text.Join | graphmlparser.py:184 | `',\n'.join(parts)`, also used at line 203. Its contract is carried by `JoinThenSeparator`, `JoinAsTerminated`, `JoinAfterTerminated` and `SplitJoin` |
| Text.Split | graphmlparser.py:119-120 | `str.split`: one more piece than there are separators, no piece holds the separator, and joining the pieces with it gives the string back |
| LabelCleaner.CleanEdgeLabel | graphmlparser.py:36-55 | The loop of cuts followed by `strip` gives `CleanedEdgeLabel`, which holds no `[`, `/` or `\` |
| LabelCleaner.CleanedEdgeLabel | graphmlparser.py:52-55 | The cleaned label holds no divider and has no surrounding whitespace |
| LabelCleaner.CutEach | graphmlparser.py:53-54 | Successive cuts leave a prefix of the label that holds none of the dividers and ends just before a divider, or at the end of the label |
| LabelCleaner.CleanedEdgeLabelCutsAtFirstDivider | graphmlparser.py:52-55 | The cumulative cuts amount to cutting at the first divider of any kind and stripping |
| LabelCleaner.CutAt | graphmlparser.py:52-55 | When the first divider sits at position k, the result is the stripped text before k |
| LabelCleaner.CleanedEdgeLabelOfPlainLabel | graphmlparser.py:52-55 | A label with no divider is only stripped |
| LabelCleaner.CleanedEdgeLabelIdempotent | graphmlparser.py:36-55 | Cleaning a cleaned label changes nothing |
| LabelCleaner.CleanedEdgeLabelOfSignalName | graphmlparser.py:36-55 | A stripped name without dividers cleans to itself |
| LabelCleaner.CleanedBeforeSpaceAndDivider | graphmlparser.py:43-48 | A signal name followed by one space and a divider cleans to the signal name |
| LabelCleaner.CleanedEdgeLabelPlainExample | graphmlparser.py:41-42 | `NEUTRALIZE` cleans to itself |
| LabelCleaner.CleanedEdgeLabelActionExample | graphmlparser.py:43-44 | `BUTTON_PRESSED // some action` cleans to `BUTTON_PRESSED` |
| LabelCleaner.CleanedEdgeLabelCommentExample | graphmlparser.py:45-46 | A label that starts with a comment cleans to the empty string |
| LabelCleaner.CleanedEdgeLabelGuardExample | graphmlparser.py:47-48 | `SIGNAL [flag == 1]` cleans to `SIGNAL` |
| LabelCleaner.CleanedNameThenDivider | graphmlparser.py:52-55 | A signal name directly followed by any divider cleans to the signal name, whatever comes after the divider |
| LabelCleaner.CleanedEdgeLabelCommentBeforeGuardExample | graphmlparser.py:52-55 | `SIG\note [x]` cleans to `SIG`: a comment before a guard still cuts the label, although the loop splits on `[` first |
| LabelCleaner.LastLine | graphmlparser.py:120 | `split('\n')[-1]` is the suffix after the last line break, and it holds no line break |
| LabelCleaner.CleanNodeLabel | graphmlparser.py:109-121 | One event per `/` in the annotation; every event holds no `/` or line break and has no surrounding whitespace |
| LabelCleaner.CleanNodeLabelOfSegments | graphmlparser.py:119-121 | For `/`-free segments joined by `/`, the events are the stripped last lines of every segment but the last, in order |
| LabelCleaner.ExampleEvents | graphmlparser.py:114-115 | The segments of the docstring example give `entry`, `EVENT1`, `EVENT2` and `exit` |
| LabelCleaner.EventOfOneLine | graphmlparser.py:120 | A stripped one-line segment is its own event |
| LabelCleaner.EventAfterNewline | graphmlparser.py:120 | The event of a segment is the stripped text after its last line break |
| Lists.Map | graphmlparser.py:71 | `list(map(f, xs))`, also at lines 134 and 151. Its contract is carried by `MapIndex`, `MapAppend` and `MapMember` |
| Lists.Concat | graphmlparser.py:135 | `[e for node in lists for e in node]`, also at line 152. Its contract is carried by `ConcatAppend` and `ConcatMember` |
| Labels.Texts | graphmlparser.py:69-70 | The `#text` filter followed by the `#text` projection, as also done at lines 132-133 and 149-150. Takes at most one text per entry; its contract is carried by `TextsAppend` and `TextsMember` |
| Labels.TextsAppend | graphmlparser.py:132-133 | The text filter distributes over concatenation |
| Labels.TextsMember | graphmlparser.py:149-150 | A text is taken exactly when some entry carries it; entries without `#text` contribute nothing |
| Labels.NodeEvents | graphmlparser.py:134-135 | `clean_node_label` mapped over the texts, the event lists flattened in order, as also done at lines 151-152. Its contract is carried by `NodeEventsAppend` and `NodeEventsMember` |
| Labels.NodeEventsAppend | graphmlparser.py:134-135 | The events of two text lists are the events of each, concatenated |
| Labels.NodeEventsMember | graphmlparser.py:134-135 | An event comes out of the flattened event lists exactly when cleaning one of the texts yields it |
| Labels.NodeEventsAreBare | graphmlparser.py:151-152 | No node event holds a `/` or a line break, and none has surrounding whitespace |
| EdgeLocator.IsEdgeCorrect | graphmlparser.py:23-34 | True exactly when the entry has a field of the given type and that field has `y:EdgeLabel`. Its effect is stated by `IncorrectEdgeContributesNothing` and `EdgeLabelsMember` |
| EdgeLocator.EdgeLabels | graphmlparser.py:57-72 | The labels of the `y:GenericEdge` type, then those of the `y:QuadCurveEdge` type. Its contract is carried by `GetEdgeLabels`, `EdgeLabelsByType` and `EdgeLabelsMember` |
| EdgeLocator.EdgeLabelsOfTypes | graphmlparser.py:65-71 | The labels of a list of edge types, one type after another, as the `for type in ...` loop extends `cleaned_labels`. It is the invariant of `GetEdgeLabels`' loop, and `EdgeLabelsByType` states it for the two types |
| EdgeLocator.GetEdgeLabels | graphmlparser.py:57-72 | The loop over the two edge types gives `EdgeLabels` |
| EdgeLocator.EdgeLabelsOfType | graphmlparser.py:66-71 | One loop iteration: the cleaned `#text` of the `y:EdgeLabel` entries of the entries correct for the type. Its contract is carried by `CollectEdgeLabelsOfType`, `EdgeLabelsOfTypeByEdge` and `EdgeLabelsOfTypeMember` |
| EdgeLocator.CollectEdgeLabelsOfType | graphmlparser.py:66-71 | One loop iteration gives the cleaned label texts of the entries correct for that type |
| EdgeLocator.CorrectEdges | graphmlparser.py:66 | The filter keeps only entries that pass `is_edge_correct`, and no more entries than it was given. `CorrectEdgesMember` states that it keeps all of them |
| EdgeLocator.CorrectEdgesMember | graphmlparser.py:66 | An entry is kept exactly when it is one of the given entries and passes `is_edge_correct` |
| EdgeLocator.EdgeBodies | graphmlparser.py:67 | `[edge[type] for edge in edges]`: one body per correct entry, and every body has a `y:EdgeLabel` field of label entries |
| EdgeLocator.EdgeLabelsOfTypeByEdge | graphmlparser.py:66-71 | The filter-and-flatten pipeline for one type is the entries' own labels, entry after entry: nothing is lost or reordered |
| EdgeLocator.IncorrectEdgeContributesNothing | graphmlparser.py:23-34 | Leaving out an entry that `is_edge_correct` rejects does not change that type's labels |
| EdgeLocator.EdgeLabelsOfTypeMember | graphmlparser.py:66-71 | A type's label comes out exactly when some entry is correct for that type and has a label entry whose `#text` cleans to it |
| EdgeLocator.EdgeLabelsByType | graphmlparser.py:65-71 | The edge labels are the `y:GenericEdge` labels followed by the `y:QuadCurveEdge` labels |
| EdgeLocator.GenericLabelsPrecedeQuadCurveLabels | graphmlparser.py:65 | Every generic-edge label comes before every quad-curve label, whatever the document order |
| EdgeLocator.EdgeLabelsMember | graphmlparser.py:57-72 | A label comes out exactly when some `data` entry is a correct edge of either type whose label text cleans to it |
| NodeLocator.IsNodeEmpty | graphmlparser.py:74-85 | True exactly when the entry has no `y:GenericNode`, or one without `y:NodeLabel`. Its effect is stated by `NonSimpleNodeContributesNothing` |
| NodeLocator.IsNodeGroup | graphmlparser.py:88-94 | True exactly when the entry has `y:ProxyAutoBoundsNode`. Its effect is stated by `NonSimpleNodeContributesNothing`, `NonGroupNodeContributesNothing` and `GroupNodesDataMember` |
| NodeLocator.SimpleNodesData | graphmlparser.py:123-135 | The filter, projection, flatten, `#text` filter and `clean_node_label` steps composed. Its contract is carried by `SimpleNodesDataByNode`, `SimpleNodesDataMember` and `NonSimpleNodeContributesNothing` |
| NodeLocator.IsSimpleNode | graphmlparser.py:129 | The filter's lambda: neither `is_node_empty` nor `is_node_group`. Its effect is stated by `SimpleNodesMember` and `NonSimpleNodeContributesNothing` |
| NodeLocator.SimpleNodes | graphmlparser.py:129 | The filter keeps only entries that are neither empty (`is_node_empty`) nor groups (`is_node_group`). `SimpleNodesMember` states that it keeps all of them |
| NodeLocator.SimpleNodesMember | graphmlparser.py:129 | An entry is kept exactly when it is one of the given entries and is neither empty nor a group |
| NodeLocator.GenericNodeBodies | graphmlparser.py:130 | `[x['y:GenericNode'] for x in simple_nodes]`: one body per simple node, and every body has a `y:NodeLabel` field of label entries |
| NodeLocator.SimpleNodesDataByNode | graphmlparser.py:123-135 | `get_simple_nodes_data` is each simple node's events, entry after entry |
| NodeLocator.SimpleNodesDataAppend | graphmlparser.py:123-135 | The simple-node events of two entry lists are the events of each, concatenated |
| NodeLocator.NonSimpleNodeContributesNothing | graphmlparser.py:74-94 | Leaving out a group, or an entry without `y:GenericNode` or `y:NodeLabel`, does not change the simple-node events |
| NodeLocator.SimpleNodesDataMember | graphmlparser.py:123-135 | An event comes out exactly when some simple node has a label text whose cleaning yields it |
| NodeLocator.GroupNodesData | graphmlparser.py:137-152 | The group filter, realizers, two flattens, `#text` filter and `clean_node_label` steps composed. Its contract is carried by `GroupNodesDataByNode`, `GroupNodesDataMember` and `NonGroupNodeContributesNothing` |
| NodeLocator.GroupNodes | graphmlparser.py:145 | The filter keeps only the groups. `GroupNodesMember` states that it keeps all of them |
| NodeLocator.GroupNodesMember | graphmlparser.py:145 | An entry is kept exactly when it is one of the given entries and is a group |
| NodeLocator.RealizersOf | graphmlparser.py:146 | `[x['y:ProxyAutoBoundsNode']['y:Realizers'] for x in group_nodes]`: one realizer field per group |
| NodeLocator.GroupNodesDataByNode | graphmlparser.py:137-152 | `get_group_nodes_data` is each group's realizer-label events, entry after entry |
| NodeLocator.GroupNodesDataAppend | graphmlparser.py:137-152 | The group events of two entry lists are the events of each, concatenated |
| NodeLocator.NonGroupNodeContributesNothing | graphmlparser.py:88-94 | Leaving out an entry that is not a group does not change the group events |
| NodeLocator.GroupNodesDataMember | graphmlparser.py:137-152 | An event comes out exactly when some group has a `y:GroupNode` label text whose cleaning yields it |
| NodeLocator.Graphs | graphmlparser.py:104 | No more graphs than nodes, and every graph taken has a `node` field that can be flattened |
| NodeLocator.GraphsMember | graphmlparser.py:104 | A graph is taken exactly when it is the `graph` field of one of the nodes: nodes without `graph` contribute nothing |
| NodeLocator.SubNodes | graphmlparser.py:96-107 | The graphs flattened by `node`, then by `data`. Its contract is carried by `SubNodesByParent` and `SubNodesMember` |
| NodeLocator.SubNodesByParent | graphmlparser.py:96-107 | `get_sub_nodes` is, node after node, the `data` entries of the nodes directly inside each node's sub-graph; nodes without `graph` add nothing |
| NodeLocator.SubNodesMember | graphmlparser.py:104-107 | An entry comes out exactly when it is a `data` entry of a node one level down |
| Collector.Cleaned | graphmlparser.py:154-164 | Defined label by label, appending each eligible label not yet kept. Its contract is carried by `CleanList`, `CleanedMember`, `CleanedDistinct` and `CleanedInFirstOccurrenceOrder` |
| Collector.CleanList | graphmlparser.py:154-164 | The loop gives `Cleaned(labels)` |
| Collector.CleanedMember | graphmlparser.py:162 | A label is kept exactly when it occurs in the input and is not empty, `entry` or `exit` |
| Collector.CleanedDistinct | graphmlparser.py:162-163 | No label is kept twice |
| Collector.CleanedEligible | graphmlparser.py:162 | No kept label is empty, `entry` or `exit` |
| Collector.CleanedPrefix | graphmlparser.py:161-163 | Labels seen later never change what was kept earlier |
| Collector.CleanedIdempotent | graphmlparser.py:154-164 | Cleaning a cleaned list changes nothing |
| Collector.CleanedOfDistinctEligible | graphmlparser.py:154-164 | A list of distinct eligible labels is kept whole |
| Collector.CleanedInFirstOccurrenceOrder | graphmlparser.py:160-163 | The kept labels are ordered by the positions of their first occurrences in the input |
| Collector.CleanedIsSubsequence | graphmlparser.py:160-163 | The kept list is the input with some labels left out, each kept label at its first occurrence |
| Emitter.EnumText | graphmlparser.py:183-186 | The fixed head, the `NAME_SIG` enumerators joined by `,` and a line break, then the fixed tail. Its line structure is stated by `EnumLines` and `EnumOfNoSignals` |
| Emitter.KeyStrokesText | graphmlparser.py:202-204 | The opening line, the table entries joined by `,` and a line break, then the `TERMINATE_SIG` tail. Its line structure is stated by `KeyStrokesLines` and `KeyStrokesOfNoSignals` |
| Emitter.EnumLines | graphmlparser.py:183-185 | For signals without line breaks, the enumeration has the two opening lines, a blank line, one `NAME_SIG,` line per signal in order, a blank line, `LAST_USER_SIG` and `};` |
| Emitter.EnumOfNoSignals | graphmlparser.py:183-185 | With no signals the enumeration still has a line holding only `,` |
| Emitter.KeyStrokesLines | graphmlparser.py:202-204 | For signals without line breaks, the table has the opening line, one `{NAME_SIG, "NAME", ''},` line per signal but the last, the last entry without a comma, a blank line, the `TERMINATE_SIG` entry, a blank line and `}` |
| Emitter.KeyStrokesOfNoSignals | graphmlparser.py:202-204 | With no signals the table is the opening line, two blank lines, the `TERMINATE_SIG` entry, a blank line and `}` |
| Emitter.TerminatedRendered | graphmlparser.py:184-185 | Joining enumerators with `,\n` and adding `,\n` after the last is terminating each `NAME_SIG,` line with a line break |
| Pipeline.NodeEntries | graphmlparser.py:214-215 | `flattened_nodes`: the nodes' `data` entries followed by `get_sub_nodes(nodes)`. Its contract is carried by `SignalMember` |
| Pipeline.RawSignals | graphmlparser.py:211-217 | `all_labels` before `clean_list`: the edge labels, then the simple-node events, then the group events. Its contract is carried by `GenerateSignalCode`, `SignalMember` and `EdgeSignalsFirst` |
| Pipeline.Signals | graphmlparser.py:211-218 | The cleaned list of the edge labels, then the simple-node events, then the group events of the node entries and sub-node entries. Its contract is carried by `GenerateSignalCode`, `SignalMember`, `EdgeSignalsFirst` and `SignalsAreBare` |
| Pipeline.GenerateSignalCode | graphmlparser.py:211-220 | The rendered signals are `Signals`, with no repeats and none empty, `entry` or `exit`; the two texts are the enumeration and the table of exactly those signals |
| Pipeline.SignalMember | graphmlparser.py:211-218 | A signal is rendered exactly when it is eligible and some edge entry carries it as a cleaned label, or some simple node or group among the node entries yields it |
| Pipeline.EdgeSignalsFirst | graphmlparser.py:211-218 | The cleaned edge labels come first, in their own order, before any node event |
| Pipeline.SignalsAreBare | graphmlparser.py:211-218 | No rendered signal holds a `/` or has surrounding whitespace |

## Left out

- Reading `dogan.graphml` and parsing it with `xmltodict` (graphmlparser.py:208-209) are left out. Writing the result file (graphmlparser.py:223-228) and the `__main__` entry point (graphmlparser.py:231-232) are left out too. `GenerateSignalCode` takes the `edge` and `node` fields of `graphml`/`graph` as parameters and returns the two texts.
- A lookup that would raise `KeyError`, `AttributeError` or `TypeError` in the source is excluded by a precondition, not modelled as an error. This applies to a missing `data` key, a field that is text where a dictionary is expected, and a node label that is not text. The shape predicates are `CanFlatten`, `EdgesShaped`, `SimpleNodesShaped`, `GroupNodesShaped`, `SubGraphsShaped` and `DiagramShaped`.
- Pipeline.GenerateSignalCode: its `edges` and `nodes` parameters are lists. With exactly one edge or one node, `xmltodict` hands over a single dictionary instead. `flatten` would then iterate over that dictionary's keys and fail at graphmlparser.py:15. The model does not capture that input.
- Pipeline.GenerateSignalCode: a diagram without any `edge` or any `node` field makes `main` raise `KeyError` at graphmlparser.py:211 or :213. The model does not capture a missing field: its parameters are always lists, and `[]` stands for a diagram with no elements of that kind.
- Document.Flatten: a field holding text would make the source iterate over its characters. The precondition `CanFlatten` excludes this.
- `str.strip` is modelled with the fixed set of characters Python treats as whitespace (`Text.IsSpace`). No Unicode database is consulted.
- LabelCleaner.ExampleEvents: the example in `clean_node_label`'s docstring (graphmlparser.py:114-115) is proved one segment at a time. `CleanNodeLabelOfSegments` states how segments joined by `/` give their events. The example is not proved as one statement about the literal annotation string.
- NodeLocator.SubNodesByParent: `get_sub_nodes` descends one level only; a sub-graph inside a sub-graph node is not entered.
- EdgeLocator.EdgeLabelsMember: an entry with both `y:GenericEdge` and `y:QuadCurveEdge` labels contributes the labels of both types.
- Emitter.EnumLines: the model follows the code. The comma after the last enumerator is kept, and an empty signal list gives a line holding only `,` (`EnumOfNoSignals`). The docstring example (graphmlparser.py:171-179) shows neither.
- Emitter.KeyStrokesLines: the model follows the code. Each entry ends in `''`, the last entry has no comma, and the table closes with `}`, not the `};` of the docstring example (graphmlparser.py:192-198).
- Emitter.EnumLines and Emitter.KeyStrokesLines state the line structure only for signals without line breaks. Signals from node annotations never hold one (`Labels.NodeEventsAreBare`). An edge label could, so for such a label only the text equations `EnumText` and `KeyStrokesText` apply.
