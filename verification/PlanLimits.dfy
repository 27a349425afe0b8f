/**
  Inputs at which planning does what the laws allow and no reader would want: each
  is a file, a plan for it, and what the text left on disk says.
 */
module PlanLimits {
  import opened Text
  import opened EnvScan
  import opened EnvLocal
  import opened EnvEdit
  import opened EnvLaws
  import opened EnvEnd
  import opened EnvInsert
  import opened EnvQuoted
  import opened TextEdits
  import opened EnvRewrite
  import opened EnvAppend
  import opened EnvFile
  import opened EnvTail
  import opened EnvPlacement
  import opened EnvProject
  import opened EnvTemplates
  import opened EnvPlan

  // ---- small files -----------------------------------------------------------------------

  /** Text that is read as a value just as it stands. */
  predicate Whole(x: string) {
    && '\n' !in x && ' ' !in x && TrimRight(x) == x
    && (x == "" || (!IsQuote(x[0]) && IsAscii(x[0]) && !IsEnvSpace(x[0] as int)))
  }

  lemma WholeAtEnd(x: string, key: string)
    requires Whole(x)
    ensures EnvSpaces(x) == 0 && Value(x, key) == Ok(Located(Statement(key, false, NO_QUOTE, 0, |x|), |x|))
  {
    SolidLine(x);
    UnquotedLineOf(x);
    hide UnquotedValue, UnquotedLine, QuotedEnd, TrimRight, EnvSpaces;
    if x == "" { NoSpaces(); } else { VisibleAscii(x); }
  }

  lemma WholeThen(x: string, u: string, key: string)
    requires Whole(x)
    ensures EnvSpaces(x + "\n" + u) == 0
    ensures Value(x + "\n" + u, key) == Ok(Located(Statement(key, false, NO_QUOTE, 0, |x|), |x| + 1))
  {
    hide *;
    WholeParts(x);
    SolidLine(x);
    FirstByte(x, u);
    VisibleAscii(x + "\n" + u);
    ValueThen("", x, u, key);
  }

  lemma WholeParts(x: string)
    requires Whole(x)
    ensures '\n' !in x && ' ' !in x && TrimRight(x) == x
  {
    hide TrimRight;
  }

  lemma FirstByte(x: string, u: string)
    requires Whole(x)
    ensures var s := x + "\n" + u; s != "" && !IsQuote(s[0]) && IsAscii(s[0]) && !IsEnvSpace(s[0] as int)
    ensures "" + x == x && "" + (x + "\n" + u) == x + "\n" + u && '\n' !in ""
  {
    hide TrimRight;
    assert (x + "\n" + u)[0] == if x == "" then '\n' else x[0];
  }

  lemma NoSpaces()
    ensures EnvSpaces("") == 0
  {
  }

  lemma SolidIsWhole(x: string)
    requires Solid(x)
    ensures Whole(x)
  {
    SolidEnds(x);
    hide Solid, TrimRight;
    if x != "" { SolidFirst(x); }
  }

  /** One line, and what follows it. */
  lemma LineThenRest(sc: Scanner, name: string, x: string, u: string)
    requires ValidName(name) && Solid(x)
    ensures var line := name + "=" + x + "\n";
      sc.Scan(line + u) == Later([Declaration(name, x, 0)], |line|, sc.Scan(u))
  {
    hide *;
    var line, w := name + "=" + x + "\n", x + "\n" + u;
    SolidIsWhole(x);
    WholeThen(x, u, name);
    NamedFirst(sc, name, w, Located(Statement(name, false, NO_QUOTE, 0, |x|), |x| + 1));
    LineJoined(name, x, u);
    NamedStart(sc, name, w);
    ShiftedName(name, x);
    LineScansOn(sc, line + u);
    assert (line + u)[|line|..] == u;
  }

  lemma LineJoined(name: string, x: string, u: string)
    ensures (name + "=" + x + "\n") + u == name + ("=" + (x + "\n" + u))
  {
  }

  lemma NamedStart(sc: Scanner, name: string, w: string)
    requires ValidName(name)
    ensures name + ("=" + w) != "" && sc.Start(name + ("=" + w)) == Some(0)
  {
    assert (name + ("=" + w))[0] == name[0] && NameByte(name[0]);
    NameStarts(sc, name + ("=" + w));
  }

  lemma ShiftedName(name: string, x: string)
    ensures Shift(Statement(name, false, NO_QUOTE, 0, |x|), |name| + 1) == Declaration(name, x, 0)
  {
  }

  /** One line without its line break. */
  lemma LastLine(sc: Scanner, name: string, x: string)
    requires ValidName(name) && Solid(x)
    ensures sc.Scan(name + "=" + x) == Ok([Declaration(name, x, 0)])
  {
    hide *;
    SolidIsWhole(x);
    WholeAtEnd(x, name);
    var s := name + ("=" + x);
    assert s == name + "=" + x;
    NamedFirst(sc, name, x, Located(Statement(name, false, NO_QUOTE, 0, |x|), |x|));
    NamedStart(sc, name, x);
    ShiftedName(name, x);
    OpenScan(sc, s, Located(Declaration(name, x, 0), |s|)) by { assert s[0..] == s; }
  }

  lemma SmallNames()
    ensures ValidName("A") && ValidName("B") && ValidName("X") && ValidName("Y")
    ensures SafeValue("v") && SafeValue("w") && Solid("") && Solid("1") && Solid("w") && Solid("vB=w") && Solid("1Y=w")
    ensures "\n" in EOLS
  {
  }

  lemma LineReads(sc: Scanner, name: string, x: string)
    requires ValidName(name) && Solid(x)
    ensures Reads(sc, name + "=" + x + "\n", [Binding(name, false, NO_QUOTE, x)])
  {
    hide *;
    var line := name + "=" + x + "\n";
    LineThenRest(sc, name, x, "");
    assert line + "" == line;
    EmptyIsFree(sc);
    LaterOk([Declaration(name, x, 0)], |line|, []);
    ShiftedNothing(|line|);
    assert [Declaration(name, x, 0)] + ShiftAll([], |line|) == [Declaration(name, x, 0)] + ([] + ShiftAll([], |line|));
    assert [Declaration(name, x, 0)] + [] == [Declaration(name, x, 0)];
    LineSays(name, x, "\n");
    ReadsIs(sc, line, [Binding(name, false, NO_QUOTE, x)]);
  }

  lemma LineSays(name: string, x: string, rest: string)
    ensures Bindings(name + "=" + x + rest, [Declaration(name, x, 0)]) == [Binding(name, false, NO_QUOTE, x)]
  {
    assert (name + "=" + x + rest)[|name| + 1..|name| + 1 + |x|] == x;
  }

  // ---- a plan of two changes at the end of its file ------------------------------------------

  lemma SortedPair(a: TextEdit, b: TextEdit)
    requires a.start <= b.start
    ensures SortedByStart([a, b]) == [a, b] && SortedByStart([a]) == [a]
  {
    assert [a, b][..1] == [a] && [a][..0] == [];
    assert SortedByStart([]) == [];
    assert Placed([], a) == [a];
    assert SortedByStart([a]) == Placed(SortedByStart([]), a);
    assert [a] + [b] == [a, b];
  }

  lemma TwoTexts(a: TextEdit, b: TextEdit)
    ensures Texts([b]) == b.text && Texts([a, b]) == a.text + b.text
  {
    assert [b][1..] == [] && [a, b][1..] == [b];
    assert Texts([]) == "";
    assert Texts([b]) == b.text + Texts([]);
  }

  lemma PairInRange(s: string, a: TextEdit, b: TextEdit)
    requires a.start == a.end == b.start == b.end == |s|
    ensures InRange(s, [] + [a, b]) && Disjoint([] + [a, b]) && AllFrom([a, b], |s|) && [] + [a, b] == [a, b]
    ensures InRange(s, [] + [b]) && Disjoint([] + [b]) && AllFrom([b], |s|) && [] + [b] == [b]
  {
    assert [] + [a, b] == [a, b];
    assert [] + [b] == [b];
    TwoInRange(s, a, b);
    hide InRange, Disjoint, AllFrom;
  }

  lemma TwoInRange(s: string, a: TextEdit, b: TextEdit)
    requires a.start == a.end == b.start == b.end == |s|
    ensures InRange(s, [a, b]) && Disjoint([a, b]) && AllFrom([a, b], |s|)
    ensures InRange(s, [b]) && Disjoint([b]) && AllFrom([b], |s|)
  {
  }

  lemma IsWritten(s: string, edits: seq<TextEdit>, text: string)
    requires SortedByStart(edits) == edits && InRange(s, edits) && Disjoint(edits) && text == Rendered(s, edits)
    ensures WrittenAs(s, edits, text)
  {
  }

  lemma PairWritten(s: string, a: TextEdit, b: TextEdit)
    requires a.start == a.end == b.start == b.end == |s|
    ensures WrittenAs(s, [a, b], s + (a.text + b.text)) && WrittenAs(s, [b], s + b.text)
  {
    hide *;
    SortedPair(a, b);
    SortedPair(b, b);
    TwoTexts(a, b);
    PairInRange(s, a, b);
    RenderedTail(s, [], [a, b]);
    RenderedTail(s, [], [b]);
    NothingRendered(s);
    IsWritten(s, [a, b], s + (a.text + b.text));
    IsWritten(s, [b], s + b.text);
  }

  // ---- what spoils an append ---------------------------------------------------------------------

  /**
    A file "A=" whose A is given a value before B is appended: the value is an edit at
    the end of the file, so the append brings no line break, and A takes the whole line.
   */
  lemma SetBeforeAppend(sc: Scanner)
    ensures var s, sts := "A=", [Declaration("A", "", 0)];
      var cs := [SetValue(0, "v", ["a"]), Declare(1, 2, "B", "w", "", "\n", ["b"])];
      && sc.Scan(s) == Ok(sts) && AllPlannable(sc, s, sts, cs) && DistinctTargets(cs) && LeadsFirst(s, sts, cs)
      && !TailHolds(sc, s, sts, cs)
      && WrittenAs(s, EditsOf(sts, cs), "A=vB=w\n")
      && Reads(sc, "A=vB=w\n", [Binding("A", false, NO_QUOTE, "vB=w")])
  {
    hide sc.Scan, Reads, WrittenAs, EndOf, InsertOk, Slot, SafeValue, ValidName;
    SmallNames();
    LastLine(sc, "A", "");
    var s, sts := "A" + "=" + "", [Declaration("A", "", 0)];
    assert s == "A=";
    var c, d := SetValue(0, "v", ["a"]), Declare(1, 2, "B", "w", "", "\n", ["b"]);
    assert SetsEnd(s, sts, [c, d]) by { assert c in [c, d] && AtEnd(s, sts, c); }
    assert HasAppend(s, [c, d]) by { assert d in [c, d] && IsAppend(s, d); }
    SetFirstWritten(s, sts, c, d);
    LineReads(sc, "A", "vB=w");
    assert "A" + "=" + "vB=w" + "\n" == "A=vB=w\n";
  }

  lemma SetFirstWritten(s: string, sts: seq<Statement>, c: Change, d: Change)
    requires s == "A=" && sts == [Declaration("A", "", 0)]
    requires c == SetValue(0, "v", ["a"]) && d == Declare(1, 2, "B", "w", "", "\n", ["b"])
    ensures WrittenAs(s, EditsOf(sts, [c, d]), "A=vB=w\n")
  {
    hide WrittenAs;
    PairWritten(s, EditOf(sts, c), EditOf(sts, d));
    assert EditsOf(sts, [c, d]) == [EditOf(sts, c), EditOf(sts, d)];
    assert s + (EditOf(sts, c).text + EditOf(sts, d).text) == "A=vB=w\n";
  }

  lemma SetLastWritten(s: string, sts: seq<Statement>, c: Change, d: Change)
    requires s == "A=" && sts == [Declaration("A", "", 0)]
    requires c == Declare(1, 2, "B", "w", "\n", "\n", ["b"]) && d == SetValue(0, "v", ["a"])
    ensures WrittenAs(s, EditsOf(sts, [c, d]), "A=\nB=w\nv")
  {
    hide WrittenAs;
    PairWritten(s, EditOf(sts, c), EditOf(sts, d));
    assert EditsOf(sts, [c, d]) == [EditOf(sts, c), EditOf(sts, d)];
    assert s + (EditOf(sts, c).text + EditOf(sts, d).text) == "A=\nB=w\nv";
  }

  const FIRST := Declare(1, 3, "X", "v", "\n", "\n", ["x"])

  const SECOND := Declare(1, 3, "Y", "w", "", "\n", ["y"])

  /**
    Two variables appended to "A=1", the first then reverted: the line break goes with
    it, and A takes the second line.
   */
  lemma SecondAppendGlues(sc: Scanner)
    ensures var s, sts := "A=1", [Declaration("A", "1", 0)];
      && sc.Scan(s) == Ok(sts) && AllPlannable(sc, s, sts, [FIRST, SECOND]) && DistinctTargets([FIRST, SECOND])
      && LeadsFirst(s, sts, [FIRST, SECOND])
      && TailHolds(sc, s, sts, [FIRST, SECOND]) && !TailHolds(sc, s, sts, KeptChanges([FIRST, SECOND], {"x"}))
      && WrittenAs(s, EditsOf(sts, KeptChanges([FIRST, SECOND], {"x"})), "A=1Y=w\n")
      && Reads(sc, "A=1Y=w\n", [Binding("A", false, NO_QUOTE, "1Y=w")])
  {
    hide sc.Scan, Reads, WrittenAs, EndOf, AllPlannable, LeadsFirst, TailHolds, Solid;
    SmallNames();
    LastLine(sc, "A", "1");
    var s, sts := "A" + "=" + "1", [Declaration("A", "1", 0)];
    assert s == "A=1";
    OpenAtEnd(sc, s, sts, "1");
    KeptSecond(FIRST, SECOND);
    TwoAppends(sc, s, sts);
    SecondWritten(s, sts);
    LineReads(sc, "A", "1Y=w");
    assert "A" + "=" + "1Y=w" + "\n" == "A=1Y=w\n";
  }

  lemma TwoAppends(sc: Scanner, s: string, sts: seq<Statement>)
    requires s == "A=1" && |sts| == 1 && EndOf(sc, s) == Open
    ensures AllPlannable(sc, s, sts, [FIRST, SECOND]) && DistinctTargets([FIRST, SECOND]) && LeadsFirst(s, sts, [FIRST, SECOND])
    ensures TailHolds(sc, s, sts, [FIRST, SECOND]) && !TailHolds(sc, s, sts, [SECOND])
  {
    hide EndOf, SafeValue, ValidName;
    SmallNames();
    var c, d := FIRST, SECOND;
    assert c in [c, d] && IsAppend(s, c) && d in [d] && IsAppend(s, d);
    assert HasLead(s, [c, d]) && HasAppend(s, [d]) && !HasLead(s, [d]);
  }

  lemma SecondWritten(s: string, sts: seq<Statement>)
    requires s == "A=1"
    ensures WrittenAs(s, EditsOf(sts, [SECOND]), "A=1Y=w\n")
  {
    hide WrittenAs;
    PairWritten(s, EditOf(sts, FIRST), EditOf(sts, SECOND));
    assert EditsOf(sts, [SECOND]) == [EditOf(sts, SECOND)];
    assert s + EditOf(sts, SECOND).text == "A=1Y=w\n";
  }

  lemma OpenAtEnd(sc: Scanner, s: string, sts: seq<Statement>, x: string)
    requires s == "A" + "=" + x && x == "1" && sc.Scan(s) == Ok(sts) && sts == [Declaration("A", x, 0)]
    ensures EndOf(sc, s) == Open
  {
    hide *;
    SmallNames();
    SolidIsWhole(x);
    WholeAtEnd(x, "A");
    assert s == "A" + ("=" + x);
    NamedFirst(sc, "A", x, Located(Statement("A", false, NO_QUOTE, 0, |x|), |x|));
    NamedStart(sc, "A", x);
    ShiftedName("A", x);
    var l := Located(Declaration("A", x, 0), |s|);
    NotClosed(s, l);
    OpenSeparated(sc, s, l);
    KeyedIsSeparated(sc, s, l);
  }

  lemma NotClosed(s: string, l: Located)
    requires s == "A=1" && l == Located(Declaration("A", "1", 0), |s|)
    ensures 0 < l.next <= |s| && !Closed(s, l) && !l.st.inherited && l.st.key == "A"
  {
  }

  lemma KeptSecond(c: Change, d: Change)
    requires c.owners == ["x"] && d.owners == ["y"]
    ensures KeptChanges([c, d], {"x"}) == [d]
  {
    assert [c, d][..1] == [c] && [c][..0] == [];
    assert KeptChanges([], {"x"}) == [];
    assert !Needed(["x"], {"x"});
    assert ["y"][0] !in {"x"};
    assert Needed(["y"], {"x"});
    assert KeptChanges([c], {"x"}) == KeptChanges([], {"x"}) + [];
    assert KeptChanges([c, d], {"x"}) == KeptChanges([c], {"x"}) + [d];
  }

  // ---- a bare name at the end of a file --------------------------------------------------------

  lemma {:induction false} NameThenNothing(sc: Scanner, name: string)
    requires forall i :: 0 <= i < |name| ==> NameByte(name[i])
    ensures sc.FindSeparator(name) == Missing
    decreases |name|
  {
    if name != "" {
      assert DecodeRune(name) == Rune(name[0] as int, 1);
      assert sc.IsKeyRune(name[0] as int);
      hide DecodeRune, sc.IsKeyRune;
      NameThenNothing(sc, name[1..]);
    }
  }

  lemma NameIsWhole(name: string)
    requires ValidName(name)
    ensures Whole(name) && ExportLength(name) == 0 && name != "" && forall i :: 0 <= i < |name| ==> NameByte(name[i])
  {
    SolidName(name);
    SolidIsWhole(name);
    assert |name| > 6 ==> NameByte(name[6]);
    hide Whole;
  }

  lemma EmptyKey()
    ensures TrimRight("") == ""
  {
  }

  lemma UnendedHead(sc: Scanner, name: string)
    requires name != "" && ExportLength(name) == 0 && sc.FindSeparator(name) == Missing && EnvSpaces(name) == 0
    requires TrimRight("") == "" && name[0..] == name
    requires Value(name, "") == Ok(Located(Statement("", false, NO_QUOTE, 0, |name|), |name|))
    ensures ValuedAt(sc, name, KeyHead("", 0, false), 0, Located(Statement("", false, NO_QUOTE, 0, |name|), |name|))
    ensures !Separated(sc, name)
  {
    hide Value, EnvSpaces, TrimRight, ExportLength;
  }

  /** A bare name that ends a text without a line break is read as a value of the empty key. */
  lemma UnendedBareName(sc: Scanner, name: string)
    requires ValidName(name)
    ensures sc.Scan(name) == Ok([Statement("", false, NO_QUOTE, 0, |name|)]) && EndOf(sc, name) == Bare
  {
    hide *;
    NameIsWhole(name);
    NameThenNothing(sc, name);
    WholeAtEnd(name, "");
    EmptyKey();
    assert name[0..] == name;
    UnendedHead(sc, name);
    NotShifted(Statement("", false, NO_QUOTE, 0, |name|));
    var l := Located(Statement("", false, NO_QUOTE, 0, |name|), |name|);
    FirstOfValued(sc, name, KeyHead("", 0, false), 0, l);
    NameStarts(sc, name);
    OpenScan(sc, name, l);
    NameIsOpen(name, l);
    OpenSeparated(sc, name, l);
  }

  lemma NameIsOpen(name: string, l: Located)
    requires name != "" && l.next == |name| && l.st.quote == NO_QUOTE && forall i :: 0 <= i < |name| ==> NameByte(name[i])
    ensures !Closed(name, l)
  {
  }

  /** A file that ends in a bare name, and a declaration appended to it: the name becomes a line that inherits its value. */
  lemma BareNameBreaks(sc: Scanner)
    ensures var s, sts := "A", [Statement("", false, NO_QUOTE, 0, 1)];
      var cs := [Declare(1, 1, "B", "w", "\n", "\n", ["b"])];
      && sc.Scan(s) == Ok(sts) && AllPlannable(sc, s, sts, cs) && LeadsFirst(s, sts, cs) && !TailHolds(sc, s, sts, cs)
      && WrittenAs(s, EditsOf(sts, cs), "A\nB=w\n")
      && Reads(sc, "A\nB=w\n", [Binding("A", true, NO_QUOTE, ""), Binding("B", false, NO_QUOTE, "w")])
  {
    hide sc.Scan, Reads, WrittenAs, EndOf, SafeValue, ValidName;
    SmallNames();
    UnendedBareName(sc, "A");
    var s, sts, c := "A", [Statement("", false, NO_QUOTE, 0, 1)], Declare(1, 1, "B", "w", "\n", "\n", ["b"]);
    assert c in [c] && IsAppend(s, c);
    PairWritten(s, EditOf(sts, c), EditOf(sts, c));
    assert EditsOf(sts, [c]) == [EditOf(sts, c)];
    assert s + EditOf(sts, c).text == "A\nB=w\n";
    BareLineReads(sc);
  }

  lemma BareLineReads(sc: Scanner)
    ensures Reads(sc, "A\nB=w\n", [Binding("A", true, NO_QUOTE, ""), Binding("B", false, NO_QUOTE, "w")])
  {
    hide *;
    SmallNames();
    var u := "B=w\n";
    assert "B" + "=" + "w" + "\n" == u;
    LineReads(sc, "B", "w");
    BareLine(sc, u);
    LineScansOn(sc, "A\n" + u);
    assert ("A\n" + u)[2..] == u && "A\n" + u == "A\nB=w\n";
    LaterCount([Statement("A", true, NO_QUOTE, 0, 0)], 2, sc.Scan(u));
    ReadsIs(sc, u, [Binding("B", false, NO_QUOTE, "w")]);
    ScanOrdered(sc, u, sc.Scan(u).value);
    BareOrdered();
    BindingsConcat("A\n", [Statement("A", true, NO_QUOTE, 0, 0)], u, sc.Scan(u).value);
    BareSays();
    ReadsIs(sc, "A\nB=w\n", [Binding("A", true, NO_QUOTE, ""), Binding("B", false, NO_QUOTE, "w")]);
  }

  lemma BareOrdered()
    ensures Ordered([Statement("A", true, NO_QUOTE, 0, 0)], 0, 2)
  {
  }

  lemma BareSays()
    ensures Bindings("A\n", [Statement("A", true, NO_QUOTE, 0, 0)]) == [Binding("A", true, NO_QUOTE, "")]
    ensures [Binding("A", true, NO_QUOTE, "")] + [Binding("B", false, NO_QUOTE, "w")]
         == [Binding("A", true, NO_QUOTE, ""), Binding("B", false, NO_QUOTE, "w")]
  {
  }

  lemma BareLine(sc: Scanner, u: string)
    ensures var t := "A\n" + u;
      t != "" && sc.Start(t) == Some(0) && sc.First(t) == Ok(Located(Statement("A", true, NO_QUOTE, 0, 0), 2))
  {
    hide *;
    var t := "A\n" + u;
    SmallNames();
    NameIsWhole("A");
    NameThenNothing(sc, "A");
    BreakSeparates(sc, "", u);
    assert "A" + "" + ("\n" + u) == t && "" + ("\n" + u) == "\n" + u;
    NoSeparatorThen(sc, "A", "", "\n" + u);
    BareBytes(u);
    BareKey(t);
    NameStarts(sc, t);
    SeparatedAt(sc, t, 0, 1);
    BareFirst(sc, t);
  }

  lemma BareBytes(u: string)
    ensures var t := "A\n" + u; |t| >= 2 && t[0] == 'A' && t[1] == '\n'
  {
  }

  lemma BareKey(t: string)
    requires |t| >= 2 && t[0] == 'A' && t[1] == '\n'
    ensures ExportLength(t) == 0 && t[0..] == t && t[0..][..1] == "A" && t[0..][1] == '\n' && NameByte('A')
    ensures TrimRight("A") == "A" && ' ' !in "A"
  {
    hide TrimRight;
    assert |t| > 6 ==> t[..6][1] == '\n' != EXPORT[1];
    SmallNames();
    NameTrimsToItself("A");
  }

  lemma BareFirst(sc: Scanner, t: string)
    requires t != "" && sc.LocateKey(t) == Ok(KeyHead("A", 2, true)) && TrimRight("A") == "A" && ' ' !in "A"
    ensures sc.First(t) == Ok(Located(Statement("A", true, NO_QUOTE, 0, 0), 2))
  {
    hide sc.LocateKey, TrimRight, Value, EnvSpaces;
  }

  /** A file "A=" whose A is given a value after B is appended: the value becomes a line of its own. */
  lemma SetAfterAppend(sc: Scanner)
    ensures var s, sts := "A=", [Declaration("A", "", 0)];
      var cs := [Declare(1, 2, "B", "w", "\n", "\n", ["b"]), SetValue(0, "v", ["a"])];
      && sc.Scan(s) == Ok(sts) && AllPlannable(sc, s, sts, cs) && DistinctTargets(cs) && LeadsFirst(s, sts, cs)
      && !TailHolds(sc, s, sts, cs)
      && WrittenAs(s, EditsOf(sts, cs), "A=\nB=w\nv")
      && Reads(sc, "A=\nB=w\nv", [Binding("A", false, NO_QUOTE, ""), Binding("B", false, NO_QUOTE, "w"), Binding("", false, NO_QUOTE, "v")])
  {
    hide sc.Scan, Reads, WrittenAs, EndOf, InsertOk, Slot, SafeValue, ValidName;
    SmallNames();
    LastLine(sc, "A", "");
    var s, sts := "A" + "=" + "", [Declaration("A", "", 0)];
    assert s == "A=";
    var c, d := Declare(1, 2, "B", "w", "\n", "\n", ["b"]), SetValue(0, "v", ["a"]);
    assert SetsEnd(s, sts, [c, d]) by { assert d in [c, d] && AtEnd(s, sts, d); }
    assert HasAppend(s, [c, d]) by { assert c in [c, d] && IsAppend(s, c); }
    SetLastWritten(s, sts, c, d);
    LostValueReads(sc);
  }

  lemma RestReads(sc: Scanner, name: string, x: string, u: string, bs: seq<Binding>)
    requires ValidName(name) && Solid(x) && Reads(sc, u, bs)
    ensures Reads(sc, (name + "=" + x + "\n") + u, [Binding(name, false, NO_QUOTE, x)] + bs)
  {
    hide *;
    var line := name + "=" + x + "\n";
    var sts := [Declaration(name, x, 0)];
    ReadsIs(sc, u, bs);
    LineThenRest(sc, name, x, u);
    LaterCount(sts, |line|, sc.Scan(u));
    ScanOrdered(sc, u, sc.Scan(u).value);
    LineOrdered(name, x);
    LineSays(name, x, "\n");
    BindingsConcat(line, sts, u, sc.Scan(u).value);
    ReadsIs(sc, line + u, [Binding(name, false, NO_QUOTE, x)] + bs);
  }

  lemma LineOrdered(name: string, x: string)
    ensures Ordered([Declaration(name, x, 0)], 0, |name + "=" + x + "\n"|)
  {
  }

  lemma LostValueReads(sc: Scanner)
    ensures Reads(sc, "A=\nB=w\nv", [Binding("A", false, NO_QUOTE, ""), Binding("B", false, NO_QUOTE, "w"), Binding("", false, NO_QUOTE, "v")])
  {
    hide *;
    SmallNames();
    SmallValueName();
    UnendedBareName(sc, "v");
    ValueSays();
    ReadsIs(sc, "v", [Binding("", false, NO_QUOTE, "v")]);
    RestReads(sc, "B", "w", "v", [Binding("", false, NO_QUOTE, "v")]);
    var rest := [Binding("B", false, NO_QUOTE, "w")] + [Binding("", false, NO_QUOTE, "v")];
    RestReads(sc, "A", "", ("B" + "=" + "w" + "\n") + "v", rest);
    assert ("A" + "=" + "" + "\n") + (("B" + "=" + "w" + "\n") + "v") == "A=\nB=w\nv";
    assert [Binding("A", false, NO_QUOTE, "")] + rest
        == [Binding("A", false, NO_QUOTE, ""), Binding("B", false, NO_QUOTE, "w"), Binding("", false, NO_QUOTE, "v")];
  }

  lemma SmallValueName()
    ensures ValidName("v")
  {
  }

  lemma ValueSays()
    ensures Bindings("v", [Statement("", false, NO_QUOTE, 0, |"v"|)]) == [Binding("", false, NO_QUOTE, "v")]
  {
    assert "v"[0..1] == "v";
  }

  // ---- a first use on the last line of a quoted value ------------------------------------------------

  const QUOTED := "A=\"x\n\"B=${V}\n"

  const QUOTED_STATEMENTS := [Statement("A", false, '"', 3, 5), Statement("B", false, NO_QUOTE, 8, 12)]

  lemma QuotedScan(sc: Scanner)
    ensures sc.Scan(QUOTED) == Ok(QUOTED_STATEMENTS)
  {
    hide *;
    SmallNames();
    QuotedParts();
    var w := "\"x\n\"B=${V}\n";
    QuotedValueOf(w);
    NamedFirst(sc, "A", w, Located(Statement("A", false, '"', 1, 3), 4));
    NamedStart(sc, "A", w);
    LineScansOn(sc, QUOTED);
    var u := "B=${V}\n";
    TemplateIsWhole();
    WholeThen("${V}", "", "B");
    NamedFirst(sc, "B", "${V}" + "\n" + "", Located(Statement("B", false, NO_QUOTE, 0, 4), 5));
    NamedStart(sc, "B", "${V}" + "\n" + "");
    LineScansOn(sc, u);
    EmptyIsFree(sc);
    LaterOk([Statement("B", false, NO_QUOTE, 2, 6)], 7, []);
    LaterOk([Statement("A", false, '"', 3, 5)], 6, [Statement("B", false, NO_QUOTE, 2, 6)] + ShiftAll([], 7));
    QuotedShifts();
  }

  lemma QuotedParts()
    ensures QUOTED == "A" + ("=" + "\"x\n\"B=${V}\n") && QUOTED[6..] == "B=${V}\n" && QUOTED != ""
    ensures "B=${V}\n" == "B" + ("=" + ("${V}" + "\n" + "")) && "B=${V}\n"[7..] == "" && |"${V}"| == 4
  {
  }

  lemma QuotedShifts()
    ensures Shift(Statement("A", false, '"', 1, 3), |"A"| + 1) == Statement("A", false, '"', 3, 5)
    ensures Shift(Statement("B", false, NO_QUOTE, 0, 4), |"B"| + 1) == Statement("B", false, NO_QUOTE, 2, 6)
    ensures [Statement("A", false, '"', 3, 5)] + ShiftAll([Statement("B", false, NO_QUOTE, 2, 6)] + ShiftAll([], 7), 6) == QUOTED_STATEMENTS
    ensures |"A"| + 1 + 4 == 6 && |"B"| + 1 + 5 == 7
  {
    ShiftedOne(Statement("B", false, NO_QUOTE, 2, 6), 7, 6);
    QuotedTwo();
    MovedOnce();
    hide *;
  }

  lemma MovedOnce()
    ensures Shift(Statement("A", false, '"', 1, 3), |"A"| + 1) == Statement("A", false, '"', 3, 5)
    ensures Shift(Statement("B", false, NO_QUOTE, 0, 4), |"B"| + 1) == Statement("B", false, NO_QUOTE, 2, 6)
  {
  }

  lemma QuotedTwo()
    ensures [Statement("A", false, '"', 3, 5)] + [Shift(Statement("B", false, NO_QUOTE, 2, 6), 6)] == QUOTED_STATEMENTS
    ensures |QUOTED_STATEMENTS| == 2 && QUOTED_STATEMENTS[0].valueStart == 3 && QUOTED_STATEMENTS[0].valueEnd == 5
    ensures QUOTED_STATEMENTS[0].quote == '"' && !QUOTED_STATEMENTS[0].inherited
    ensures !QUOTED_STATEMENTS[1].inherited && QUOTED_STATEMENTS[1].valueStart == 8
  {
  }

  lemma QuotedText()
    ensures |QUOTED| == 13 && QUOTED[4] == '\n' && '\n' !in QUOTED[5..8]
  {
    assert QUOTED[5] == '"' && QUOTED[6] == 'B' && QUOTED[7] == '=';
  }

  lemma ShiftedOne(st: Statement, d: int, e: int)
    ensures ShiftAll([st] + ShiftAll([], d), e) == [Shift(st, e)]
  {
    hide Shift;
    assert [st] + ShiftAll([], d) == [st];
  }

  lemma QuotedValueOf(w: string)
    requires w == "\"x\n\"B=${V}\n"
    ensures EnvSpaces(w) == 0 && Value(w, "A") == Ok(Located(Statement("A", false, '"', 1, 3), 4))
  {
    VisibleAscii(w);
    assert QuotedEnd(w, '"', 3, false) == Some(3);
    assert QuotedEnd(w, '"', 2, false) == Some(3);
    assert QuotedEnd(w, '"', 1, false) == Some(3);
  }

  lemma TemplateIsWhole()
    ensures Whole("${V}")
  {
    LastSpaceVisible("${V}");
  }

  function QuotedSetting(sc: Scanner, grammar: Grammar): Setting {
    Setting(sc, {}, grammar, [ReadFile(QUOTED, true)], true)
  }

  lemma QuotedBody()
    ensures BodyOf(QUOTED) == QUOTED && MarkOf(QUOTED) == ""
  {
    assert QUOTED[0] != BOM[0];
    assert !(BOM <= QUOTED);
    WholeBody(QUOTED);
  }

  lemma WholeBody(data: string)
    requires !(BOM <= data)
    ensures BodyOf(data) == data && MarkOf(data) == ""
  {
  }

  lemma StatementsAre(w: Setting, sts: seq<Statement>)
    requires |w.files| == 1 && w.sc.Scan(BodyOf(w.files[0].data)) == Ok(sts)
    ensures StatementsOf(w, 0) == sts && BindingsAt(w, 0) == Bindings(BodyOf(w.files[0].data), sts)
  {
    hide w.sc.Scan, Bindings, BodyOf;
  }

  lemma QuotedSays()
    ensures Bindings(QUOTED, QUOTED_STATEMENTS) == [Binding("A", false, '"', "x\n"), Binding("B", false, NO_QUOTE, "${V}")]
  {
    assert QUOTED[3..5] == "x\n" && QUOTED[8..12] == "${V}" && |QUOTED| == 13;
    hide QUOTED;
  }

  lemma QuotedBindings(sc: Scanner, grammar: Grammar)
    ensures var w := QuotedSetting(sc, grammar);
      && StatementsOf(w, 0) == QUOTED_STATEMENTS && BodyOf(QUOTED) == QUOTED && MarkOf(QUOTED) == ""
      && BindingsAt(w, 0) == [Binding("A", false, '"', "x\n"), Binding("B", false, NO_QUOTE, "${V}")]
  {
    hide *;
    QuotedScan(sc);
    QuotedBody();
    QuotedSettingIs(sc, grammar);
    StatementsAre(QuotedSetting(sc, grammar), QUOTED_STATEMENTS);
    QuotedSays();
  }

  /**
    In this file V is first used on the line on which a quoted value ends. The start of
    that line is where the planner declares V, and it is inside the quoted value: no
    declaration written there is a statement.
   */
  lemma UseBehindQuotes(sc: Scanner, grammar: Grammar, v: string)
    requires SafeValue(v)
    ensures var w := QuotedSetting(sc, grammar);
      && FirstUseIs(w, "V", Use(0, 1, 5)) && WellPlaced(w, 0, 5, "V") && Spans(StatementsOf(w, 0)[0], 5) && !Clean(w, 0, 5)
    ensures forall k :: !DeclaredAt(sc, QUOTED, QUOTED_STATEMENTS, 5, DeclarationLine("V", v, "\n"), Declaration("V", v, 5), k)
  {
    hide *;
    var w := QuotedSetting(sc, grammar);
    QuotedSettingIs(sc, grammar);
    QuotedScan(sc);
    QuotedBindings(sc, grammar);
    QuotedFirstUse(w);
    QuotedName();
    SmallNames();
    QuotedSpans(w);
    DeclaredExactlyOutsideQuotes(sc, QUOTED, QUOTED_STATEMENTS, 5, "V", v, "\n");
    forall k
      ensures !DeclaredAt(sc, QUOTED, QUOTED_STATEMENTS, 5, DeclarationLine("V", v, "\n"), Declaration("V", v, 5), k)
    {
    }
    PlacedAtUse(w, Use(0, 1, 5));
  }

  lemma QuotedSettingIs(sc: Scanner, grammar: Grammar)
    ensures var w := QuotedSetting(sc, grammar); w.sc == sc && |w.files| == 1 && w.files[0].data == QUOTED
  {
  }

  lemma QuotedSpans(w: Setting)
    requires |w.files| == 1 && w.files[0].data == QUOTED && BodyOf(QUOTED) == QUOTED && StatementsOf(w, 0) == QUOTED_STATEMENTS
    ensures |QUOTED| == 13 && LineStart(QUOTED, 5) && |QUOTED_STATEMENTS| == 2 && Spans(QUOTED_STATEMENTS[0], 5) && !Clean(w, 0, 5)
  {
    QuotedText();
    QuotedTwo();
    hide StatementsOf, QUOTED, QUOTED_STATEMENTS, BodyOf;
  }

  lemma PlacedAtUse(w: Setting, u: Use)
    requires FirstUseIs(w, "V", u) && u.file < |w.files| && MarkOf(w.files[u.file].data) == ""
    ensures WellPlaced(w, u.file, u.at, "V")
  {
    hide FirstUseIs;
  }

  lemma QuotedName()
    ensures ValidName("V")
  {
  }

  lemma QuotedFirstUse(w: Setting)
    requires |w.files| == 1 && w.files[0].data == QUOTED && BodyOf(QUOTED) == QUOTED && MarkOf(QUOTED) == ""
    requires StatementsOf(w, 0) == QUOTED_STATEMENTS
    requires BindingsAt(w, 0) == [Binding("A", false, '"', "x\n"), Binding("B", false, NO_QUOTE, "${V}")]
    ensures FirstUseIs(w, "V", Use(0, 1, 5))
  {
    hide *;
    TemplateUses();
    OneFile(w);
    QuotedLine(w);
    FirstUseOf(w, "V", Use(0, 1, 5), BindingsAt(w, 0)[0]);
  }

  lemma OneFile(w: Setting)
    requires |w.files| == 1 && |BindingsAt(w, 0)| == 2
    ensures Bs(w) == BindingsAt(w, 0) && Position(w, 0, 1) == 1
  {
    hide StatementsOf, BindingsAt;
    FlattenOne(AllBindings(w), BindingsAt(w, 0));
    assert Offset(AllBindings(w), 0) == 0;
  }

  lemma FlattenOne(bss: seq<seq<Binding>>, bs: seq<Binding>)
    requires bss == [bs]
    ensures Flatten(bss) == bs
  {
    assert bss[1..] == [] && Flatten([]) == [];
    assert bs + [] == bs;
  }

  lemma QuotedLine(w: Setting)
    requires |w.files| == 1 && w.files[0].data == QUOTED && BodyOf(QUOTED) == QUOTED && MarkOf(QUOTED) == ""
    requires StatementsOf(w, 0) == QUOTED_STATEMENTS && |BindingsAt(w, 0)| == 2
    ensures LineOfValue(w, Use(0, 1, 5))
  {
    QuotedText();
    QuotedTwo();
    hide BodyOf, MarkOf, BindingsAt, StatementsOf, QUOTED, QUOTED_STATEMENTS;
  }

  lemma FirstUseOf(w: Setting, name: string, u: Use, b: Binding)
    requires u.file == 0 && u.index == 1 && LineOfValue(w, u) && |BindingsAt(w, 0)| == 2 && Bs(w) == BindingsAt(w, 0) && Position(w, 0, 1) == 1
    requires Uses(BindingsAt(w, 0)[1], name) && b == BindingsAt(w, 0)[0] && !Uses(b, name)
    ensures FirstUseIs(w, name, u)
  {
    hide StatementsOf, BindingsAt, Bs, Uses, Position;
  }

  lemma TemplateUses()
    ensures Uses(Binding("B", false, NO_QUOTE, "${V}"), "V") && !Uses(Binding("A", false, '"', "x\n"), "V")
  {
    var text := "${V}";
    assert text[1..] == "{V}" && "{V" <= "{V}";
    assert RefersAt("V", text, 0);
  }
}
