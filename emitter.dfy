/**
 * The two C fragments rendered from the signal list: the `PlayerSignals`
 * enumeration of `get_enum` (graphmlparser.py:166-186) and the `KeyStrokes`
 * table of `get_keystrokes` (graphmlparser.py:188-204). Each renders every
 * signal in list order, joins the renderings with `,` and a line break, and
 * wraps them in fixed text.
 */
module Emitter {
  import opened Text
  import opened Lists

  const EntrySeparator: string := ",\n"

  /** The fixed lines around the enumerators. */
  const EnumOpenLine: string := "enum PlayerSignals {"
  const EnumBaseLine: string := "TICK_SEC_SIG = Q_USER_SIG,"
  const EnumLastLine: string := "LAST_USER_SIG"
  const EnumCloseLine: string := "};"

  /** `'enum PlayerSignals {\nTICK_SEC_SIG = Q_USER_SIG,\n\n'`. */
  const EnumHead: string := EnumOpenLine + "\n" + EnumBaseLine + "\n\n"
  /** `',\n\nLAST_USER_SIG\n};'`. */
  const EnumTail: string := ",\n\n" + EnumLastLine + "\n" + EnumCloseLine

  /** The fixed lines around the table entries. */
  const KeyStrokesOpenLine: string := "const KeyStroke KeyStrokes[]={"
  const TerminateEntry: string := "{ TERMINATE_SIG, \"TERMINATE\", 0x1B }"

  /** `'const KeyStroke KeyStrokes[]={\n'`. */
  const KeyStrokesHead: string := KeyStrokesOpenLine + "\n"
  /** `'\n\n{ TERMINATE_SIG, "TERMINATE", 0x1B }\n\n}'`. */
  const KeyStrokesTail: string := "\n\n" + TerminateEntry + "\n\n}"

  /** The lines the enumeration opens with, and those it closes with. */
  const EnumHeadLines: seq<string> := [EnumOpenLine, EnumBaseLine, ""]
  const EnumTailLines: seq<string> := ["", EnumLastLine, EnumCloseLine]

  /** The lines after the table's last signal entry. */
  const KeyStrokesTailLines: seq<string> := ["", TerminateEntry, "", "}"]

  /** `label + '_SIG'`: the enumerator of a signal. */
  function SignalName(l: string): string {
    l + "_SIG"
  }

  /** `'{' + label + '_SIG, "' + label + '", \'\'}'`: the table entry of a signal. */
  function KeyStrokeEntry(l: string): string {
    "{" + l + "_SIG, \"" + l + "\", ''}"
  }

  /** An enumerator line: the enumerator and its comma. */
  function EnumLine(l: string): string {
    SignalName(l) + ","
  }

  /** A table line of a signal that is not the last: the entry and its comma. */
  function KeyStrokeLine(l: string): string {
    KeyStrokeEntry(l) + ","
  }

  /** What `get_enum(labels)` returns. */
  function EnumText(labels: seq<string>): string {
    EnumHead + Join(Map(SignalName, labels), EntrySeparator) + EnumTail
  }

  /** What `get_keystrokes(labels)` returns. */
  function KeyStrokesText(labels: seq<string>): string {
    KeyStrokesHead + Join(Map(KeyStrokeEntry, labels), EntrySeparator) + KeyStrokesTail
  }

  /** The fixed text, taken apart into its lines. */
  lemma EnumHeadAsLines()
    ensures EnumHead == Terminated(EnumHeadLines, "\n")
    ensures forall line | line in EnumHeadLines :: '\n' !in line
  {
    var ls := EnumHeadLines;
    assert ls[1..][1..][1..] == [];
    assert Terminated(ls[1..][1..], "\n") == "\n";
    assert Terminated(ls[1..], "\n") == EnumBaseLine + "\n" + "\n";
    assert "\n\n" == "\n" + "\n";
    assert '\n' !in EnumOpenLine && '\n' !in EnumBaseLine;
  }

  lemma EnumTailAsLines()
    ensures EnumTail == EntrySeparator + Join(EnumTailLines, "\n")
    ensures forall line | line in EnumTailLines :: '\n' !in line
  {
    var ls := EnumTailLines;
    assert ls[1..][1..] == [EnumCloseLine];
    assert Join(ls[1..], "\n") == EnumLastLine + "\n" + EnumCloseLine;
    assert Join(ls, "\n") == "" + "\n" + (EnumLastLine + "\n" + EnumCloseLine);
    assert ",\n\n" == EntrySeparator + "\n";
    assert '\n' !in EnumLastLine && '\n' !in EnumCloseLine;
  }

  lemma KeyStrokesTailLinesJoin()
    ensures "\n" + Join(KeyStrokesTailLines, "\n") == KeyStrokesTail
    ensures forall line | line in KeyStrokesTailLines :: '\n' !in line
  {
    var ls := KeyStrokesTailLines;
    assert ls[1..][1..][1..] == ["}"];
    var closing := "\n" + "}";
    assert Join(ls[1..][1..], "\n") == "" + closing;
    assert Join(ls[1..], "\n") == TerminateEntry + "\n" + closing;
    assert Join(ls, "\n") == "" + "\n" + (TerminateEntry + "\n" + closing);
    assert "\n\n}" == "\n" + closing;
    assert "\n\n" == "\n" + "\n";
    assert '\n' !in TerminateEntry;
  }

  lemma KeyStrokesTailAsLines(entry: string)
    ensures Join([entry] + KeyStrokesTailLines, "\n") == entry + KeyStrokesTail
    ensures forall line | line in KeyStrokesTailLines :: '\n' !in line
  {
    var ls := KeyStrokesTailLines;
    KeyStrokesTailLinesJoin();
    assert ([entry] + ls)[1..] == ls;
    assert Join([entry] + ls, "\n") == entry + "\n" + Join(ls, "\n");
    AppendAssoc(entry, "\n", Join(ls, "\n"));
  }

  /**
   * Terminating each rendering with `c` and a separator is terminating each
   * rendering-with-`c` with the separator.
   */
  lemma {:induction false} TerminatedRendered(f: string -> string, g: string -> string, c: string, sep: string, labels: seq<string>)
    requires forall l :: g(l) == f(l) + c
    ensures Terminated(Map(f, labels), c + sep) == Terminated(Map(g, labels), sep)
  {
    if labels != [] {
      MapFront(f, labels);
      MapFront(g, labels);
      TerminatedRendered(f, g, c, sep, labels[1..]);
      assert f(labels[0]) + (c + sep) == g(labels[0]) + sep;
    }
  }

  /** The table entry of a signal holds a line break only if the signal does. */
  lemma EntrySingleLine(l: string)
    requires '\n' !in l
    ensures '\n' !in KeyStrokeEntry(l)
  {
    var e := KeyStrokeEntry(l);
    assert e == "{" + l + ("_SIG, \"" + l + "\", ''}");
    MemberOfAppend("{", l);
    MemberOfAppend("_SIG, \"" + l, "\", ''}");
    MemberOfAppend("_SIG, \"", l);
    MemberOfAppend("{" + l, "_SIG, \"" + l + "\", ''}");
  }

  /** A line of a signal holds a line break only if the signal does. */
  lemma RenderedLinesSingle(labels: seq<string>)
    requires forall l | l in labels :: '\n' !in l
    ensures forall line | line in Map(EnumLine, labels) :: '\n' !in line
    ensures forall line | line in Map(KeyStrokeLine, labels) :: '\n' !in line
  {
    forall line | line in Map(EnumLine, labels)
      ensures '\n' !in line
    {
      MapMember(EnumLine, labels, line);
    }
    forall line | line in Map(KeyStrokeLine, labels)
      ensures '\n' !in line
    {
      MapMember(KeyStrokeLine, labels, line);
    }
  }

  /** The lines of the enumeration of a non-empty signal list. */
  function EnumTextLines(labels: seq<string>): seq<string> {
    EnumHeadLines + Map(EnumLine, labels) + EnumTailLines
  }

  /** The lines of the table of a non-empty signal list. */
  function KeyStrokesTextLines(labels: seq<string>): seq<string>
    requires labels != []
  {
    var k := |labels| - 1;
    [KeyStrokesOpenLine] + Map(KeyStrokeLine, labels[..k]) + [KeyStrokeEntry(labels[k])] + KeyStrokesTailLines
  }

  lemma EnumJoin(labels: seq<string>)
    requires labels != []
    ensures EnumText(labels) == Join(EnumTextLines(labels), "\n")
  {
    var names, lines := Map(SignalName, labels), Map(EnumLine, labels);
    var body, closing := Join(names, EntrySeparator), Join(EnumTailLines, "\n");
    assert names != [] by { MapIndex(SignalName, labels); }
    EnumHeadAsLines();
    EnumTailAsLines();
    calc {
      EnumText(labels);
      EnumHead + body + (EntrySeparator + closing);
      { AppendAssoc(EnumHead + body, EntrySeparator, closing);
        AppendAssoc(EnumHead, body, EntrySeparator); }
      EnumHead + (body + EntrySeparator) + closing;
      { JoinThenSeparator(names, EntrySeparator);
        assert EntrySeparator == "," + "\n"; }
      EnumHead + Terminated(names, "," + "\n") + closing;
      { TerminatedRendered(SignalName, EnumLine, ",", "\n", labels); }
      Terminated(EnumHeadLines, "\n") + Terminated(lines, "\n") + closing;
      { AppendAssoc(Terminated(EnumHeadLines, "\n"), Terminated(lines, "\n"), closing);
        JoinAfterTerminated(lines, EnumTailLines, "\n"); }
      Terminated(EnumHeadLines, "\n") + Join(lines + EnumTailLines, "\n");
      { JoinAfterTerminated(EnumHeadLines, lines + EnumTailLines, "\n"); }
      Join(EnumHeadLines + (lines + EnumTailLines), "\n");
      { AppendAssoc(EnumHeadLines, lines, EnumTailLines); }
      Join(EnumTextLines(labels), "\n");
    }
  }

  /**
   * The enumeration of a non-empty signal list, line by line: the two fixed
   * opening lines and a blank line, one `NAME_SIG,` line per signal in list
   * order (the last one keeps its comma), a blank line, `LAST_USER_SIG` and
   * `};`.
   */
  lemma EnumLines(labels: seq<string>)
    requires labels != []
    requires forall l | l in labels :: '\n' !in l
    ensures Split(EnumText(labels), '\n') == EnumTextLines(labels)
  {
    var lines := Map(EnumLine, labels);
    EnumJoin(labels);
    EnumHeadAsLines();
    EnumTailAsLines();
    RenderedLinesSingle(labels);
    MemberOfAppend(EnumHeadLines + lines, EnumTailLines);
    MemberOfAppend(EnumHeadLines, lines);
    SplitJoin(EnumTextLines(labels), '\n');
  }

  /** With no signals the enumeration still carries the comma that follows the signals: a line holding only `,`. */
  lemma EnumOfNoSignals()
    ensures Split(EnumText([]), '\n') == EnumHeadLines + [","] + EnumTailLines
  {
    var closing := Join(EnumTailLines, "\n");
    EnumHeadAsLines();
    EnumTailAsLines();
    assert Map(SignalName, []) == [];
    calc {
      EnumText([]);
      EnumHead + "" + (EntrySeparator + closing);
      { assert EntrySeparator == Terminated([","], "\n"); }
      Terminated(EnumHeadLines, "\n") + (Terminated([","], "\n") + closing);
      { JoinAfterTerminated([","], EnumTailLines, "\n"); }
      Terminated(EnumHeadLines, "\n") + Join([","] + EnumTailLines, "\n");
      { JoinAfterTerminated(EnumHeadLines, [","] + EnumTailLines, "\n"); }
      Join(EnumHeadLines + ([","] + EnumTailLines), "\n");
      { AppendAssoc(EnumHeadLines, [","], EnumTailLines); }
      Join(EnumHeadLines + [","] + EnumTailLines, "\n");
    }
    MemberOfAppend(EnumHeadLines + [","], EnumTailLines);
    MemberOfAppend(EnumHeadLines, [","]);
    SplitJoin(EnumHeadLines + [","] + EnumTailLines, '\n');
  }

  lemma KeyStrokesOfNoSignalsJoin()
    ensures KeyStrokesText([]) == Join([KeyStrokesOpenLine, ""] + KeyStrokesTailLines, "\n")
  {
    KeyStrokesTailLinesJoin();
    assert Map(KeyStrokeEntry, []) == [];
    assert KeyStrokesHead == Terminated([KeyStrokesOpenLine], "\n");
    assert ([""] + KeyStrokesTailLines)[1..] == KeyStrokesTailLines;
    calc {
      KeyStrokesText([]);
      KeyStrokesHead + "" + KeyStrokesTail;
      Terminated([KeyStrokesOpenLine], "\n") + Join([""] + KeyStrokesTailLines, "\n");
      { JoinAfterTerminated([KeyStrokesOpenLine], [""] + KeyStrokesTailLines, "\n"); }
      Join([KeyStrokesOpenLine] + ([""] + KeyStrokesTailLines), "\n");
      { AppendAssoc([KeyStrokesOpenLine], [""], KeyStrokesTailLines); }
      Join([KeyStrokesOpenLine, ""] + KeyStrokesTailLines, "\n");
    }
  }

  /**
   * With no signals the table is the opening line, two blank lines, the
   * `TERMINATE_SIG` entry, a blank line and `}`.
   */
  lemma KeyStrokesOfNoSignals()
    ensures Split(KeyStrokesText([]), '\n') == [KeyStrokesOpenLine, ""] + KeyStrokesTailLines
  {
    var lines := [KeyStrokesOpenLine, ""] + KeyStrokesTailLines;
    KeyStrokesOfNoSignalsJoin();
    KeyStrokesTailLinesJoin();
    assert '\n' !in KeyStrokesOpenLine;
    MemberOfAppend([KeyStrokesOpenLine, ""], KeyStrokesTailLines);
    SplitJoin(lines, '\n');
  }

  lemma KeyStrokesJoin(labels: seq<string>)
    requires labels != []
    ensures KeyStrokesText(labels) == Join(KeyStrokesTextLines(labels), "\n")
  {
    var k := |labels| - 1;
    var init, last := labels[..k], labels[k];
    var entries, lines := Map(KeyStrokeEntry, labels), Map(KeyStrokeLine, init);
    var closing := [KeyStrokeEntry(last)] + KeyStrokesTailLines;
    MapSnoc(KeyStrokeEntry, labels, k);
    assert labels[..k + 1] == labels;
    assert entries[..k] == Map(KeyStrokeEntry, init) && entries[k] == KeyStrokeEntry(last) by {
      MapIndex(KeyStrokeEntry, init);
      PrefixOfAppend(Map(KeyStrokeEntry, init), [KeyStrokeEntry(last)], 0);
    }
    KeyStrokesTailAsLines(KeyStrokeEntry(last));
    assert KeyStrokesHead == Terminated([KeyStrokesOpenLine], "\n");
    calc {
      KeyStrokesText(labels);
      { JoinAsTerminated(entries, EntrySeparator);
        assert EntrySeparator == "," + "\n"; }
      KeyStrokesHead + (Terminated(Map(KeyStrokeEntry, init), "," + "\n") + KeyStrokeEntry(last)) + KeyStrokesTail;
      { TerminatedRendered(KeyStrokeEntry, KeyStrokeLine, ",", "\n", init); }
      KeyStrokesHead + (Terminated(lines, "\n") + KeyStrokeEntry(last)) + KeyStrokesTail;
      { AppendAssoc(KeyStrokesHead + Terminated(lines, "\n"), KeyStrokeEntry(last), KeyStrokesTail);
        AppendAssoc(KeyStrokesHead, Terminated(lines, "\n"), KeyStrokeEntry(last)); }
      Terminated([KeyStrokesOpenLine], "\n") + Terminated(lines, "\n") + Join(closing, "\n");
      { TerminatedAppend([KeyStrokesOpenLine], lines, "\n"); }
      Terminated([KeyStrokesOpenLine] + lines, "\n") + Join(closing, "\n");
      { JoinAfterTerminated([KeyStrokesOpenLine] + lines, closing, "\n"); }
      Join([KeyStrokesOpenLine] + lines + closing, "\n");
      { AppendAssoc([KeyStrokesOpenLine] + lines, [KeyStrokeEntry(last)], KeyStrokesTailLines); }
      Join(KeyStrokesTextLines(labels), "\n");
    }
  }

  lemma KeyStrokesLinesSingle(labels: seq<string>)
    requires labels != []
    requires forall l | l in labels :: '\n' !in l
    ensures forall line | line in KeyStrokesTextLines(labels) :: '\n' !in line
  {
    var k := |labels| - 1;
    var init, last := labels[..k], labels[k];
    var lines := Map(KeyStrokeLine, init);
    var closing := [KeyStrokeEntry(last)] + KeyStrokesTailLines;
    RenderedLinesSingle(init);
    MemberOfPrefix(labels, k);
    assert last in labels;
    assert '\n' !in KeyStrokesOpenLine;
    KeyStrokesTailAsLines(KeyStrokeEntry(last));
    EntrySingleLine(last);
    MemberOfAppend([KeyStrokeEntry(last)], KeyStrokesTailLines);
    MemberOfAppend([KeyStrokesOpenLine] + lines, closing);
    MemberOfAppend([KeyStrokesOpenLine], lines);
    AppendAssoc([KeyStrokesOpenLine] + lines, [KeyStrokeEntry(last)], KeyStrokesTailLines);
  }

  /**
   * The table of a non-empty signal list, line by line: the opening line, one
   * `{NAME_SIG, "NAME", ''},` line per signal but the last in list order, the
   * last signal's entry without a comma, a blank line, the `TERMINATE_SIG`
   * entry, a blank line and `}`.
   */
  lemma KeyStrokesLines(labels: seq<string>)
    requires labels != []
    requires forall l | l in labels :: '\n' !in l
    ensures Split(KeyStrokesText(labels), '\n') == KeyStrokesTextLines(labels)
  {
    KeyStrokesJoin(labels);
    KeyStrokesLinesSingle(labels);
    SplitJoin(KeyStrokesTextLines(labels), '\n');
  }
}
