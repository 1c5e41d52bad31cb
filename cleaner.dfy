/**
 * The two label cleaners: `edge_label_cleaner` (graphmlparser.py:36-55), which
 * cuts an edge label at a guard `[`, an action `/` or a comment `\` and trims
 * it, and `clean_node_label` (graphmlparser.py:109-121), which splits a state's
 * annotation into the event names written before each `/`.
 */
module LabelCleaner {
  import opened Text

  /** The dividers `edge_label_cleaner` cuts at, in the order it applies them. */
  const Dividers: string := "[/\\"

  /** The same dividers as a set. */
  const DividerSet: set<char> := {'[', '/', '\\'}

  /**
   * The label after cutting at each divider of `ds` in turn, each cut applied to
   * what the previous ones left. The result is the prefix of `s` before the
   * first character of `ds`, whatever order the cuts come in.
   */
  function CutEach(s: string, ds: string): (r: string)
    ensures |r| <= |s| && r == s[..|r|]
    ensures forall c | c in ds :: c !in r
    ensures |r| < |s| ==> s[|r|] in ds
  {
    if ds == [] then s
    else
      var n := |ds| - 1;
      var previous := CutEach(s, ds[..n]);
      var r := Before(previous, ds[n]);
      assert forall c | c in ds :: c in ds[..n] || c == ds[n];
      assert forall c | c in r :: c in previous;
      assert |r| < |previous| ==> s[|r|] == previous[|r|];
      assert forall c | c in ds[..n] :: c in ds;
      r
  }

  /** What `edge_label_cleaner(raw)` returns. */
  function CleanedEdgeLabel(raw: string): (r: string)
    ensures '[' !in r && '/' !in r && '\\' !in r
    ensures Stripped(r)
  {
    Strip(CutEach(raw, Dividers))
  }

  /** `edge_label_cleaner` (graphmlparser.py:36-55): the three cuts in a loop, then `strip`. */
  method CleanEdgeLabel(raw: string) returns (cleaned: string)
    ensures cleaned == CleanedEdgeLabel(raw)
    ensures '[' !in cleaned && '/' !in cleaned && '\\' !in cleaned
  {
    var cut := raw;
    for k := 0 to |Dividers|
      invariant cut == CutEach(raw, Dividers[..k])
    {
      cut := Before(cut, Dividers[k]);
      assert Dividers[..k + 1][..k] == Dividers[..k];
    }
    assert Dividers[..|Dividers|] == Dividers;
    cleaned := Strip(cut);
  }

  /**
   * The cumulative cuts amount to one cut at the first divider of any kind: the
   * cleaned label is the stripped text before the first `[`, `/` or `\`.
   */
  lemma CleanedEdgeLabelCutsAtFirstDivider(raw: string)
    ensures CleanedEdgeLabel(raw) == Strip(BeforeAny(raw, DividerSet))
  {
    var cut := CutEach(raw, Dividers);
    forall c | c in cut ensures c !in DividerSet {
      assert c in Dividers ==> c !in cut;
    }
    BeforeAnyUnique(raw, DividerSet, cut);
  }

  /** A label with no divider is only trimmed. */
  lemma CleanedEdgeLabelOfPlainLabel(raw: string)
    requires '[' !in raw && '/' !in raw && '\\' !in raw
    ensures CleanedEdgeLabel(raw) == Strip(raw)
  {
    CleanedEdgeLabelCutsAtFirstDivider(raw);
    BeforeAnyUnique(raw, DividerSet, raw);
  }

  /** Cleaning a cleaned label changes nothing. */
  lemma CleanedEdgeLabelIdempotent(raw: string)
    ensures CleanedEdgeLabel(CleanedEdgeLabel(raw)) == CleanedEdgeLabel(raw)
  {
    var once := CleanedEdgeLabel(raw);
    CleanedEdgeLabelOfPlainLabel(once);
  }

  /** The examples of the cleaner's documentation. */
  lemma CleanedEdgeLabelPlainExample()
    ensures CleanedEdgeLabel("NEUTRALIZE") == "NEUTRALIZE"
  {
    CleanedEdgeLabelOfSignalName("NEUTRALIZE");
  }

  lemma CleanedEdgeLabelActionExample()
    ensures CleanedEdgeLabel("BUTTON_PRESSED // some action") == "BUTTON_PRESSED"
  {
    CleanedBeforeSpaceAndDivider("BUTTON_PRESSED // some action", "BUTTON_PRESSED");
  }

  lemma CleanedEdgeLabelCommentExample()
    ensures CleanedEdgeLabel("\\COMMENT") == ""
  {
    CutAt("\\COMMENT", 0);
  }

  lemma CleanedEdgeLabelGuardExample()
    ensures CleanedEdgeLabel("SIGNAL [flag == 1]") == "SIGNAL"
  {
    CleanedBeforeSpaceAndDivider("SIGNAL [flag == 1]", "SIGNAL");
  }

  /**
   * A comment that comes before a guard still cuts the label: although `[` is
   * split on first, the label ends at its first divider of any kind.
   */
  lemma CleanedEdgeLabelCommentBeforeGuardExample()
    ensures CleanedEdgeLabel("SIG\\note [x]") == "SIG"
  {
    CleanedNameThenDivider("SIG\\note [x]", "SIG");
  }

  /** Cleaning a label whose first divider sits at `k`. */
  lemma CutAt(raw: string, k: nat)
    requires k < |raw| && raw[k] in DividerSet
    requires forall i | 0 <= i < k :: raw[i] !in DividerSet
    ensures CleanedEdgeLabel(raw) == Strip(raw[..k])
  {
    var p := raw[..k];
    forall c | c in p
      ensures c !in DividerSet
    {
      var j :| 0 <= j < k && p[j] == c;
      assert raw[j] == c;
    }
    CleanedEdgeLabelCutsAtFirstDivider(raw);
    BeforeAnyUnique(raw, DividerSet, p);
  }

  /** A label that is a signal name directly followed by a divider cleans to the signal name, whatever comes after. */
  lemma CleanedNameThenDivider(raw: string, name: string)
    requires Stripped(name) && '[' !in name && '/' !in name && '\\' !in name
    requires |name| < |raw| && raw[..|name|] == name && raw[|name|] in DividerSet
    ensures CleanedEdgeLabel(raw) == name
  {
    forall i | 0 <= i < |name|
      ensures raw[i] !in DividerSet
    {
      assert raw[i] == name[i];
    }
    CutAt(raw, |name|);
  }

  /** A label that is a signal name, one space and a divider cleans to the signal name. */
  lemma CleanedBeforeSpaceAndDivider(raw: string, name: string)
    requires name != [] && Stripped(name) && '[' !in name && '/' !in name && '\\' !in name
    requires |name| + 1 < |raw| && raw[..|name| + 1] == name + " " && raw[|name| + 1] in DividerSet
    ensures CleanedEdgeLabel(raw) == name
  {
    CutAt(raw, |name| + 1);
    StripOneTrailingSpace(name);
  }

  /** A bare signal name cleans to itself. */
  lemma CleanedEdgeLabelOfSignalName(name: string)
    requires Stripped(name) && '[' !in name && '/' !in name && '\\' !in name
    ensures CleanedEdgeLabel(name) == name
  {
    CleanedEdgeLabelOfPlainLabel(name);
  }

  lemma StripOneTrailingSpace(core: string)
    requires core != [] && Stripped(core)
    ensures Strip(core + " ") == core
  {
    var s := core + " ";
    assert TrimStart(s) == s;
    assert s[..|s| - 1] == core;
  }

  /** The text after the last newline of `segment`: `segment.split('\n')[-1]`. */
  function LastLine(segment: string): (line: string)
    ensures '\n' !in line
    ensures |line| <= |segment| && segment[|segment| - |line|..] == line
    ensures |line| < |segment| ==> segment[|segment| - |line| - 1] == '\n'
  {
    var lines := Split(segment, '\n');
    JoinEndsWithLast(lines, '\n');
    assert lines[|lines| - 1] in lines;
    lines[|lines| - 1]
  }

  /**
   * `clean_node_label` (graphmlparser.py:109-121): one event name per `/` in the
   * annotation, each the trimmed last line of the text before that `/`.
   */
  function CleanNodeLabel(raw: string): (events: seq<string>)
    ensures |events| == multiset(raw)['/']
    ensures forall e | e in events :: '/' !in e && '\n' !in e && Stripped(e)
  {
    var segments := Split(raw, '/');
    var lines := seq(|segments|, i requires 0 <= i < |segments| => Strip(LastLine(segments[i])));
    assert forall i | 0 <= i < |segments| :: segments[i] in segments;
    lines[..|lines| - 1]
  }

  /** The events of an annotation, from the segments it splits into at `/`. */
  lemma CleanNodeLabelOfSplit(raw: string, segments: seq<string>)
    requires Split(raw, '/') == segments
    ensures CleanNodeLabel(raw) ==
      seq(|segments| - 1, i requires 0 <= i < |segments| - 1 => Strip(LastLine(segments[i])))
  {
  }

  /**
   * The annotation made of the given `/`-free segments: one event per segment
   * but the last, the trimmed last line of that segment.
   */
  lemma CleanNodeLabelOfSegments(segments: seq<string>)
    requires segments != [] && forall p | p in segments :: '/' !in p
    ensures CleanNodeLabel(Join(segments, "/")) ==
      seq(|segments| - 1, i requires 0 <= i < |segments| - 1 => Strip(LastLine(segments[i])))
  {
    SplitJoin(segments, '/');
    CleanNodeLabelOfSplit(Join(segments, "/"), segments);
  }

  /**
   * The segments of the example in `clean_node_label`'s documentation each give
   * the event the documentation lists.
   */
  lemma ExampleEvents()
    ensures Strip(LastLine("entry")) == "entry"
    ensures Strip(LastLine("\nsomesunction()\nEVENT1")) == "EVENT1"
    ensures Strip(LastLine("\nsomefunction2()\nEVENT2")) == "EVENT2"
    ensures Strip(LastLine("\nsomefunction3()\nexit")) == "exit"
  {
    ExampleEvent0();
    ExampleEvent1();
    ExampleEvent2();
    ExampleEvent3();
  }

  lemma ExampleEvent0()
    ensures Strip(LastLine("entry")) == "entry"
  {
    EventOfOneLine("entry");
  }

  lemma ExampleEvent1()
    ensures Strip(LastLine("\nsomesunction()\nEVENT1")) == "EVENT1"
  {
    EventAfterNewline("\nsomesunction()\nEVENT1", 15, "EVENT1");
  }

  lemma ExampleEvent2()
    ensures Strip(LastLine("\nsomefunction2()\nEVENT2")) == "EVENT2"
  {
    EventAfterNewline("\nsomefunction2()\nEVENT2", 16, "EVENT2");
  }

  lemma ExampleEvent3()
    ensures Strip(LastLine("\nsomefunction3()\nexit")) == "exit"
  {
    EventAfterNewline("\nsomefunction3()\nexit", 16, "exit");
  }

  /** The event of a one-line segment. */
  lemma EventOfOneLine(name: string)
    requires '\n' !in name && Stripped(name)
    ensures Strip(LastLine(name)) == name
  {
  }

  /** The event of a segment whose last newline sits at `k`. */
  lemma EventAfterNewline(segment: string, k: nat, name: string)
    requires k < |segment| && segment[k] == '\n' && segment[k + 1..] == name
    requires '\n' !in name && Stripped(name)
    ensures Strip(LastLine(segment)) == name
  {
  }
}
