/**
  A tag variable that holds more than the tag. The planner takes the tag of the current
  image for what the variable holds; where the variable holds the end of the repository
  too, the new tag is written over both, and the image is not the one asked for.
 */
module PlanTagLimits {
  import opened Text
  import opened EnvScan
  import opened EnvInsert
  import opened EnvLines
  import opened EnvRewrite
  import opened EnvEval
  import opened EnvTemplates
  import opened EnvPlan
  import opened PlanOutcome
  import opened PlanImages
  import opened PlanLimits

  const REG := "reg:${X}"
  const HELD := "5000/app:1.0"
  const NOW := "reg:5000/app:1.0"
  const ASKED := "reg:5000/app:2.0"
  const GIVEN := "reg:2.0"

  function Pieces(): seq<Piece> {
    [Simple("IMG", REG), Simple("X", HELD)]
  }

  function TagSetting(sc: Scanner, g: Grammar): Setting {
    Setting(sc, {}, g, [ReadFile(FileText(Pieces()), true)], true)
  }

  /** The grammar of images: `reg:5000/app` is a name, and takes the tags 1.0 and 2.0. */
  predicate KnowsReg(g: Grammar) {
    g.tagOf(NOW) == Some("1.0") && g.takesTag(NOW, "2.0")
  }

  // ---- what the file says -------------------------------------------------------------

  lemma PiecesFit()
    ensures AllFit(Pieces())
  {
    SimpleFits("IMG", REG);
    SimpleFits("X", HELD);
    hide Piece.Fits;
  }

  lemma FileIs()
    ensures FileText(Pieces()) == "IMG=reg:${X}\nX=5000/app:1.0\n"
    ensures FileSaid(Pieces()) == [Statement("IMG", false, NO_QUOTE, 4, 12), Statement("X", false, NO_QUOTE, 15, 27)]
  {
    hide *;
    SimpleIs("IMG", REG);
    SimpleIs("X", HELD);
    TwoPieces(Simple("IMG", REG), Simple("X", HELD));
    Bytes();
  }

  lemma SimpleIs(key: string, value: string)
    ensures Simple(key, value).Written() == key + "=" + value + "\n"
    ensures Simple(key, value).Said() == [Statement(key, false, NO_QUOTE, |key| + 1, |key| + 1 + |value|)]
  {
  }

  lemma TwoPieces(a: Piece, b: Piece)
    ensures FileText([a, b]) == a.Written() + b.Written()
    ensures FileSaid([a, b]) == a.Said() + ShiftAll(b.Said(), |a.Written()|)
  {
    hide Piece.Written, Piece.Said;
    assert [a, b][1..] == [b] && [b][1..] == [];
    assert FileText([b]) == b.Written() + "";
    assert FileSaid([b]) == b.Said() + ShiftAll([], |b.Written()|);
  }

  lemma Bytes()
    ensures Pieces() == [Simple("IMG", REG), Simple("X", HELD)]
    ensures "IMG" + "=" + REG + "\n" + ("X" + "=" + HELD + "\n") == "IMG=reg:${X}\nX=5000/app:1.0\n"
    ensures [Statement("IMG", false, NO_QUOTE, |"IMG"| + 1, |"IMG"| + 1 + |REG|)]
         + ShiftAll([Statement("X", false, NO_QUOTE, |"X"| + 1, |"X"| + 1 + |HELD|)], |"IMG" + "=" + REG + "\n"|)
         == [Statement("IMG", false, NO_QUOTE, 4, 12), Statement("X", false, NO_QUOTE, 15, 27)]
  {
    assert |REG| == 8 && |HELD| == 12;
  }

  lemma FileSays(data: string, sts: seq<Statement>)
    requires data == "IMG=reg:${X}\nX=5000/app:1.0\n"
    requires sts == [Statement("IMG", false, NO_QUOTE, 4, 12), Statement("X", false, NO_QUOTE, 15, 27)]
    ensures Bindings(data, sts) == [Binding("IMG", false, NO_QUOTE, REG), Binding("X", false, NO_QUOTE, HELD)]
    ensures !(BOM <= data)
  {
    assert data == "IMG=" + REG + "\nX=" + HELD + "\n";
    assert data[0] != BOM[0];
    TextSays(data, sts);
  }

  lemma TextSays(data: string, sts: seq<Statement>)
    requires data == "IMG=" + REG + "\nX=" + HELD + "\n" && |REG| == 8 && |HELD| == 12
    requires sts == [Statement("IMG", false, NO_QUOTE, 4, 12), Statement("X", false, NO_QUOTE, 15, 27)]
    ensures Bindings(data, sts) == [Binding("IMG", false, NO_QUOTE, REG), Binding("X", false, NO_QUOTE, HELD)]
  {
    hide REG, HELD;
    assert data[4..12] == REG && data[15..27] == HELD;
  }

  ghost predicate Says(w: Setting) {
    && |w.files| == 1 && w.process == {} && FirstUnreadable(w, 0).None?
    && Bs(w) == [Binding("IMG", false, NO_QUOTE, REG), Binding("X", false, NO_QUOTE, HELD)]
    && BindingsAt(w, 0) == Bs(w) && Position(w, 0, 0) == 0 && Position(w, 0, 1) == 1
  }

  lemma SettingSays(sc: Scanner, g: Grammar)
    ensures Says(TagSetting(sc, g))
  {
    hide *;
    var w := TagSetting(sc, g);
    SettingIs(sc, g);
    PiecesFit();
    FileReadsBack(sc, Pieces());
    FileIs();
    FileSays(FileText(Pieces()), FileSaid(Pieces()));
    WholeBody(FileText(Pieces()));
    MarkSkipped(sc, FileText(Pieces()));
    PiecesRead(sc, Pieces(), "");
    ScansAlone(sc, Pieces());
    StatementsAre(w, FileSaid(Pieces()));
    OneFile(w);
    SaysIs(w);
  }

  lemma ScansAlone(sc: Scanner, ps: seq<Piece>)
    requires sc.Scan(FileText(ps) + "") == Later(FileSaid(ps), |FileText(ps)|, sc.Scan(""))
    ensures sc.Scan(FileText(ps)) == Ok(FileSaid(ps))
  {
    hide sc.Scan, FileText, FileSaid;
    EnvLines.EmptyScans(sc);
    assert FileText(ps) + "" == FileText(ps);
    assert FileSaid(ps) + ShiftAll([], |FileText(ps)|) == FileSaid(ps);
  }

  lemma SettingIs(sc: Scanner, g: Grammar)
    ensures var w := TagSetting(sc, g);
      && w.sc == sc && w.grammar == g && w.process == {} && |w.files| == 1 && w.listed
      && w.files[0] == ReadFile(FileText(Pieces()), true)
  {
    hide FileText;
  }

  lemma SaysIs(w: Setting)
    requires |w.files| == 1 && w.process == {} && w.listed && w.files[0].existed && w.sc.ScanFile(w.files[0].data).Ok?
    requires BindingsAt(w, 0) == [Binding("IMG", false, NO_QUOTE, REG), Binding("X", false, NO_QUOTE, HELD)]
    requires Bs(w) == BindingsAt(w, 0) && Position(w, 0, 1) == 1
    ensures Says(w)
  {
    hide BindingsAt, Bs, Position, FirstUnreadable;
    AllRead(w);
    hide w.sc.ScanFile, REG, HELD;
    AtStart(w);
  }

  lemma AllRead(w: Setting)
    requires |w.files| == 1 && w.listed && w.files[0].existed && w.sc.ScanFile(w.files[0].data).Ok?
    ensures FirstUnreadable(w, 0).None?
  {
    hide w.sc.ScanFile;
    assert FirstUnreadable(w, 1).None?;
  }

  lemma AtStart(w: Setting)
    requires |w.files| == 1
    ensures Position(w, 0, 0) == 0
  {
    hide BindingsAt;
  }

  lemma TakesBoth(w: Setting)
    requires Says(w)
    ensures AssignmentOf(w, "IMG") == Done(Assigned(0, 0)) && AssignmentOf(w, "X") == Done(Assigned(0, 1))
  {
    hide BindingsAt, Bs, Position, AssignmentOf, FirstUnreadable, REG, HELD;
    TakenHere(w, "IMG", 0, 0);
    TakenHere(w, "X", 0, 1);
  }

  lemma Templates(w: Setting)
    requires Says(w)
    ensures TemplateOf(w, "IMG") == Some(REG) && TemplateOf(w, "X").None?
  {
    hide *;
    TakesBoth(w);
    BothHeld(w);
    TemplateAt(w, "IMG", 0);
    TemplateAt(w, "X", 1);
    Dollars();
  }

  lemma BothHeld(w: Setting)
    requires Says(w)
    ensures |w.files| == 1 && |BindingsAt(w, 0)| == 2
    ensures BindingsAt(w, 0)[0].text == REG && BindingsAt(w, 0)[1].text == HELD
    ensures BindingsAt(w, 0)[0].quote == BindingsAt(w, 0)[1].quote == NO_QUOTE
  {
    hide BindingsAt, Bs, Position, FirstUnreadable, REG, HELD;
  }

  lemma TemplateAt(w: Setting, name: string, i: nat)
    requires |w.files| == 1 && AssignmentOf(w, name) == Done(Assigned(0, i)) && i < |BindingsAt(w, 0)| && BindingsAt(w, 0)[i].quote == NO_QUOTE
    ensures TemplateOf(w, name) == if '$' in BindingsAt(w, 0)[i].text then Some(BindingsAt(w, 0)[i].text) else None
  {
    hide AssignmentOf, BindingsAt;
  }

  lemma Dollars()
    ensures '$' in REG && '$' !in HELD && REG[0] != '$' && REG == "reg" + ":" + "${X}"
  {
    assert REG[4] == '$';
  }

  lemma RegIsTagged()
    ensures WholeVarRef(REG).None? && TrailingTagVar(REG) == Some("X")
  {
    hide *;
    Dollars();
    NoReference(REG);
    XIsSpelled();
    RegIs();
    TrailingTagExactly(REG, "X");
  }

  lemma NoReference(raw: string)
    requires raw != "" && raw[0] != '$'
    ensures WholeVarRef(raw).None?
  {
  }

  lemma RegIs()
    ensures TaggedAs(REG, "reg", "${X}")
  {
    assert REG == "reg" + ":" + "${X}";
  }

  lemma XIsSpelled()
    ensures Spelled("${X}", "X", TAG_BREAKS)
  {
    assert ValidName("X");
    assert Tail("", TAG_BREAKS);
    assert "${X}" == "${" + "X" + "" + "}";
    assert BracedAs("${X}", "X", "");
    hide Tail;
  }

  lemma RegRepository()
    requires TrailingTagVar(REG).Some?
    ensures RepositoryOf(REG) == "reg"
  {
    hide TrailingTagVar, LastDollar;
    assert REG == "reg:" + "${X}";
    LastDollarAt("reg:", "${X}");
    assert REG[..3] == "reg";
  }

  lemma TagOfAsked(g: Grammar)
    requires KnowsReg(g)
    ensures TagChange(g, NOW, ASKED) == Some("2.0")
  {
    assert NOW == "reg:5000/app" + ":" + "1.0" && ASKED == "reg:5000/app" + ":" + "2.0";
    assert OnlyTagDiffers("reg:5000/app", "1.0", "2.0", NOW, ASKED);
    TagChangeExactly(g, NOW, ASKED, "2.0");
  }

  lemma Writables()
    ensures Writable(ASKED) && Writable("2.0") && NOW != ""
  {
  }

  /** The planner writes X=2.0. */
  lemma PlannedTag(w: Setting)
    requires Says(w) && KnowsReg(w.grammar)
    ensures Follow(w, "IMG", ASKED, NOW, 0) == Done(Target("X", "2.0"))
  {
    TakesBoth(w);
    Templates(w);
    RegIsTagged();
    TagOfAsked(w.grammar);
    Writables();
    hide AssignmentOf, TemplateOf, WholeVarRef, TrailingTagVar, TagChange, Writable, BindingsAt, Bs, REG, ASKED, NOW;
    FollowStep(w);
  }

  lemma FollowStep(w: Setting)
    requires w.process == {} && AssignmentOf(w, "IMG").Done? && AssignmentOf(w, "X").Done?
    requires TemplateOf(w, "IMG") == Some(REG) && TemplateOf(w, "X").None?
    requires WholeVarRef(REG).None? && TrailingTagVar(REG) == Some("X") && TagChange(w.grammar, NOW, ASKED) == Some("2.0")
    requires Writable(ASKED) && Writable("2.0") && NOW != ""
    ensures Follow(w, "IMG", ASKED, NOW, 0) == Done(Target("X", "2.0"))
  {
    hide AssignmentOf, TemplateOf, WholeVarRef, TrailingTagVar, TagChange, Writable, REG, ASKED, NOW;
    assert NextStep(w.grammar, REG, ASKED, NOW) == Done(EnvPlan.Step("X", "2.0", ""));
    assert Follow(w, "X", "2.0", "", 1) == Done(Target("X", "2.0"));
  }

  /**
    The env file is `IMG=reg:${X}` and `X=5000/app:1.0`, so IMG is reg:5000/app:1.0, and
    reg:5000/app:2.0 is asked for. The plan is to write 2.0 to X; IMG is then reg:2.0.
   */
  lemma TagVariableHoldsMore(sc: Scanner, g: Grammar, after: Environment)
    requires KnowsReg(g)
    requires TemplatesStay(TagSetting(sc, g), after) && HasValue(after, "X", "2.0")
    ensures Expansion(EnvBefore(TagSetting(sc, g)), s => s, "IMG", MAX_TEMPLATE_DEPTH) == Some(NOW)
    ensures Follow(TagSetting(sc, g), "IMG", ASKED, NOW, 0) == Done(Target("X", "2.0"))
    ensures Expansion(after, s => s, "IMG", MAX_TEMPLATE_DEPTH) == Some(GIVEN) && GIVEN != ASKED
  {
    hide *;
    var w := TagSetting(sc, g);
    SettingSays(sc, g);
    SettingIs(sc, g);
    PlannedTag(w);
    Templates(w);
    ProcessIsEmpty(w);
    TakesBoth(w);
    HeldBefore(w, "IMG");
    StaysHeld(w, after, "IMG", REG);
    WrittenIsLiteral(after, "X", "2.0") by { Writables(); }
    XBefore(w);
    GivesThrough(after, "2.0");
    GivesThrough(EnvBefore(w), HELD);
    GivenIs();
  }

  lemma ProcessIsEmpty(w: Setting)
    requires Says(w)
    ensures w.process == {}
  {
    hide Bs, BindingsAt, Position, FirstUnreadable;
  }

  lemma XBefore(w: Setting)
    requires Says(w) && AssignmentOf(w, "X") == Done(Assigned(0, 1))
    ensures "X" in EnvBefore(w) && Literal(EnvBefore(w)["X"]) && EnvBefore(w)["X"].text == HELD
  {
    hide AssignmentOf, EnvBefore, FirstUnreadable, Position, Bs;
    AssignedBefore(w, "X", 0, 1);
    assert '$' !in HELD;
  }

  lemma GivesThrough(m: Environment, tag: string)
    requires Holds(m, "IMG", REG) && "X" in m && Literal(m["X"]) && m["X"].text == tag
    ensures Expansion(m, s => s, "IMG", MAX_TEMPLATE_DEPTH) == Some("reg" + ":" + tag)
  {
    RegIsTagged();
    RegRepository();
    hide WholeVarRef, TrailingTagVar, RepositoryOf, REG;
    var front: string -> string := s => s;
    assert Expansion(m, front, "X", MAX_TEMPLATE_DEPTH - 1) == Some(tag);
    HoldsExpands(m, front, "IMG", REG, MAX_TEMPLATE_DEPTH);
  }

  lemma GivenIs()
    ensures "reg" + ":" + "2.0" == GIVEN && "reg" + ":" + HELD == NOW && GIVEN != ASKED
  {
    assert |GIVEN| != |ASKED|;
  }
}
