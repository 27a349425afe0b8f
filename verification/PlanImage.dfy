/**
  What a planned value gives back. An env variable's templates are expanded as compose
  expands them, and the variable at the end of the chain holds what was written: the
  variable at its start then gives the image that was asked for. Nothing here is stated
  through the step the planner takes.
 */
module PlanImages {
  import opened Text
  import opened EnvScan
  import opened EnvInsert
  import opened EnvLines
  import opened EnvRewrite
  import opened EnvProject
  import opened EnvEval
  import opened EnvTemplates
  import opened EnvPlan
  import opened WritePlans
  import opened PlanOutcome

  // ---- expanding a variable -----------------------------------------------------------

  /** A value without a reference, or one dotenv does not expand. */
  predicate Literal(s: Source) {
    s.FromFile? && (s.quote == '\'' || '$' !in s.text)
  }

  predicate Holds(m: Environment, name: string, raw: string) {
    name in m && m[name].FromFile? && !Literal(m[name]) && m[name].text == raw
  }

  /** What stands before the tag variable. */
  function RepositoryOf(raw: string): string
    requires TrailingTagVar(raw).Some?
  {
    raw[..LastDollar(raw).value - 1]
  }

  /**
    What `name` gives through at most `n` references; None when it is missing or holds
    another form. What a repository expands to is `front`'s to say.
   */
  function Expansion(m: Environment, front: string -> string, name: string, n: nat): Option<string>
    decreases n
  {
    if name !in m || !m[name].FromFile? then None
    else if Literal(m[name]) then Some(m[name].text)
    else if n == 0 then None
    else
      var raw := m[name].text;
      match WholeVarRef(raw)
      case Some(inner) => Expansion(m, front, inner, n - 1)
      case None =>
        match TrailingTagVar(raw)
        case None => None
        case Some(inner) =>
          match Expansion(m, front, inner, n - 1)
          case None => None
          case Some(tag) => Some(front(RepositoryOf(raw)) + ":" + tag)
  }

  /** The current image is spelled as the tag template of the chain says: its repository, and the image's tag. */
  predicate CurrentSpelt(g: Grammar, m: Environment, front: string -> string, name: string, current: string, n: nat)
    decreases n
  {
    if current == "" || n == 0 || name !in m || !m[name].FromFile? || Literal(m[name]) then true
    else
      var raw := m[name].text;
      match WholeVarRef(raw)
      case Some(inner) => CurrentSpelt(g, m, front, inner, current, n - 1)
      case None =>
        TrailingTagVar(raw).Some? ==>
          g.tagOf(current).Some? && current == front(RepositoryOf(raw)) + ":" + g.tagOf(current).value
  }

  /** What the tag variable of the chain gives. */
  function TagHeld(m: Environment, front: string -> string, name: string, n: nat): Option<string>
    decreases n
  {
    if n == 0 || name !in m || !m[name].FromFile? || Literal(m[name]) then None
    else
      var raw := m[name].text;
      match WholeVarRef(raw)
      case Some(inner) => TagHeld(m, front, inner, n - 1)
      case None =>
        match TrailingTagVar(raw)
        case None => None
        case Some(inner) => Expansion(m, front, inner, n - 1)
  }

  /** For an image that is what its variable gives, the spelling is right exactly when its tag variable holds its tag. */
  lemma {:induction false} SpeltExactly(g: Grammar, m: Environment, front: string -> string, name: string, current: string, n: nat)
    requires current != "" && Expansion(m, front, name, n) == Some(current)
    ensures CurrentSpelt(g, m, front, name, current, n) <==>
      (TagHeld(m, front, name, n).None? || g.tagOf(current) == TagHeld(m, front, name, n))
    decreases n
  {
    hide WholeVarRef, TrailingTagVar, RepositoryOf;
    if n > 0 && !Literal(m[name]) {
      var raw := m[name].text;
      if WholeVarRef(raw).Some? {
        SpeltExactly(g, m, front, WholeVarRef(raw).value, current, n - 1);
      } else {
        var tag := Expansion(m, front, TrailingTagVar(raw).value, n - 1).value;
        assert current == front(RepositoryOf(raw)) + ":" + tag;
        if g.tagOf(current).Some? {
          SameTail(front(RepositoryOf(raw)) + ":", tag, g.tagOf(current).value);
        }
      }
    }
  }

  lemma SameTail(front: string, a: string, b: string)
    ensures front + a == front + b <==> a == b
  {
    assert (front + a)[|front|..] == a;
    assert (front + b)[|front|..] == b;
  }

  lemma SameFront(a: string, b: string, tail: string)
    ensures a + tail == b + tail <==> a == b
  {
    assert (a + tail)[..|a + tail| - |tail|] == a;
    assert (b + tail)[..|b + tail| - |tail|] == b;
  }

  // ---- the environment before the write --------------------------------------------------

  ghost function EnvBefore(w: Setting): Environment {
    Eval(w.process, Flatten(AllBindings(w)))
  }

  /** The last mention of a key, when it assigns it, says what it is. */
  lemma EvalLast(process: set<string>, bs: seq<Binding>, i: nat)
    requires LastAssignment(bs, i) && bs[i].key !in process
    ensures var m := Eval(process, bs); bs[i].key in m && m[bs[i].key] == FromFile(bs[i].quote, bs[i].text)
  {
    hide Eval;
    EvalSet(process, bs, i, bs[i].text);
    assert bs[i := bs[i].(text := bs[i].text)] == bs;
  }

  lemma {:induction false} UnassignedIsMissing(process: set<string>, m: Environment, bs: seq<Binding>, name: string)
    requires Unassigned(bs, name) && name !in process && name !in m
    ensures name !in EvalFrom(process, m, bs)
    decreases |bs|
  {
    if bs != [] {
      UnassignedIsMissing(process, EnvEval.Step(process, m, bs[0]), bs[1..], name);
    }
  }

  lemma AssignedBefore(w: Setting, name: string, f: nat, i: nat)
    requires AssignmentOf(w, name) == Done(Assigned(f, i)) && name !in w.process
    ensures InFile(w, f, i)
    ensures var b := BindingsAt(w, f)[i]; name in EnvBefore(w) && EnvBefore(w)[name] == FromFile(b.quote, b.text)
  {
    hide *;
    AssignedInFile(w, name, f, i);
    TakesPosition(w, name, f, i);
    AtInside(w, f, i);
    var g := Position(w, f, i);
    TakenKey(w.process, Bs(w), name, g);
    TakenIsLast(w.process, Bs(w), name, g);
    BeforeIs(w);
    EvalLast(w.process, Bs(w), g);
  }

  lemma TakenKey(process: set<string>, bs: seq<Binding>, name: string, i: nat)
    requires TakenFrom(process, bs, |bs|, name, i)
    ensures i < |bs| && bs[i].key == name
  {
  }

  lemma BeforeIs(w: Setting)
    ensures EnvBefore(w) == Eval(w.process, Bs(w))
  {
    hide Flatten, AllBindings, Eval;
  }

  lemma TakesPosition(w: Setting, name: string, f: nat, i: nat)
    requires Takes(w, name, f, i)
    ensures f < |w.files| && InFile(w, f, i) && Position(w, f, i) < |Bs(w)|
    ensures TakenFrom(w.process, Bs(w), |Bs(w)|, name, Position(w, f, i))
  {
    hide TakenFrom, StatementsOf, BindingsAt, Flatten, Offset, AllBindings, Declaring;
  }

  lemma UndeclaredBefore(w: Setting, name: string, f: nat)
    requires AssignmentOf(w, name) == Done(Undeclared(f)) && name !in w.process
    ensures name !in EnvBefore(w)
  {
    hide *;
    BeforeIs(w);
    UndeclaredIsUnassigned(w, name, f);
    EvalFromNothing(w.process, Bs(w));
    UnassignedIsMissing(w.process, map[], Bs(w), name);
  }

  lemma EvalFromNothing(process: set<string>, bs: seq<Binding>)
    ensures Eval(process, bs) == EvalFrom(process, map[], bs)
  {
  }

  /** What a variable is taken from is what it holds. */
  lemma HeldBefore(w: Setting, name: string)
    requires AssignmentOf(w, name).Done? && name !in w.process
    ensures TemplateOf(w, name).Some? ==> Holds(EnvBefore(w), name, TemplateOf(w, name).value)
    ensures TemplateOf(w, name).None? ==> name !in EnvBefore(w) || Literal(EnvBefore(w)[name])
  {
    hide AssignmentOf, EnvBefore, InFile, BindingsAt;
    match AssignmentOf(w, name).value
    case Undeclared(f) => UndeclaredBefore(w, name, f);
    case Assigned(f, i) => AssignedBefore(w, name, f, i);
  }

  // ---- the chain, back from its end --------------------------------------------------------

  /** The templates are what they were before the write. */
  ghost predicate TemplatesStay(w: Setting, after: Environment) {
    forall name :: name !in w.process && TemplateOf(w, name).Some? ==> SameAt(after, EnvBefore(w), name)
  }

  lemma HoldsExpands(m: Environment, front: string -> string, name: string, raw: string, n: nat)
    requires Holds(m, name, raw) && n > 0
    ensures WholeVarRef(raw).Some? ==> Expansion(m, front, name, n) == Expansion(m, front, WholeVarRef(raw).value, n - 1)
    ensures WholeVarRef(raw).None? && TrailingTagVar(raw).Some? && Expansion(m, front, TrailingTagVar(raw).value, n - 1).Some? ==>
      Expansion(m, front, name, n)
      == Some(front(RepositoryOf(raw)) + ":" + Expansion(m, front, TrailingTagVar(raw).value, n - 1).value)
  {
    hide WholeVarRef, TrailingTagVar, RepositoryOf;
  }

  lemma HoldsSpelt(g: Grammar, m: Environment, front: string -> string, name: string, raw: string, current: string, n: nat)
    requires Holds(m, name, raw) && n > 0
    ensures WholeVarRef(raw).Some? ==>
      CurrentSpelt(g, m, front, name, current, n) == CurrentSpelt(g, m, front, WholeVarRef(raw).value, current, n - 1)
    ensures WholeVarRef(raw).None? && TrailingTagVar(raw).Some? && current != "" ==>
      (CurrentSpelt(g, m, front, name, current, n)
       <==> g.tagOf(current).Some? && current == front(RepositoryOf(raw)) + ":" + g.tagOf(current).value)
  {
    hide WholeVarRef, TrailingTagVar, RepositoryOf;
  }

  lemma LiteralExpands(g: Grammar, m: Environment, front: string -> string, name: string, current: string, n: nat)
    ensures name in m && Literal(m[name]) ==> Expansion(m, front, name, n) == Some(m[name].text)
    ensures name !in m || Literal(m[name]) ==> CurrentSpelt(g, m, front, name, current, n)
    ensures current == "" ==> CurrentSpelt(g, m, front, name, current, n)
  {
  }

  lemma WrittenIsLiteral(m: Environment, name: string, value: string)
    requires HasValue(m, name, value) && Writable(value)
    ensures name in m && Literal(m[name]) && m[name].text == value
  {
  }

  /** A tag put behind another repository gives the same image only behind the same spelling. */
  lemma TagComesBack(g: Grammar, current: string, image: string, tag: string, repository: string)
    requires TagChange(g, current, image) == Some(tag)
    ensures repository + ":" + tag == image <==>
      g.tagOf(current).Some? && current == repository + ":" + g.tagOf(current).value
  {
    TagChangeExactly(g, current, image, tag);
    hide TagChange;
    var was := g.tagOf(current).value;
    var prefix :| OnlyTagDiffers(prefix, was, tag, current, image);
    SameFront(repository + ":", prefix + ":", tag);
    SameFront(repository + ":", prefix + ":", was);
    SameFront(repository, prefix, ":");
  }

  /**
    Put-get through the templates: once the variable a chain ends at holds what was
    planned for it, the variable the chain starts at gives the image asked for exactly
    when the current image is spelled as the chain's tag template says, or there is none.
   */
  lemma {:induction false} ChainComesBack(w: Setting, front: string -> string, name: string, value: string, current: string,
                                          depth: nat, t: Target, after: Environment)
    requires ValidName(name) && depth <= MAX_TEMPLATE_DEPTH && Follow(w, name, value, current, depth) == Done(t)
    requires TemplatesStay(w, after) && HasValue(after, t.name, t.value)
    ensures Expansion(after, front, name, MAX_TEMPLATE_DEPTH - depth) == Some(value) <==>
      CurrentSpelt(w.grammar, EnvBefore(w), front, name, current, MAX_TEMPLATE_DEPTH - depth)
    decreases MAX_TEMPLATE_DEPTH - depth
  {
    hide *;
    var n := MAX_TEMPLATE_DEPTH - depth;
    FollowParts(w, name, value, current, depth, t);
    HeldBefore(w, name);
    match TemplateOf(w, name) {
      case None =>
        WrittenIsLiteral(after, name, value);
        LiteralExpands(w.grammar, EnvBefore(w), front, name, current, n);
        LiteralExpands(w.grammar, after, front, name, current, n);
      case Some(raw) =>
        StaysHeld(w, after, name, raw);
        HoldsExpands(after, front, name, raw, n);
        HoldsSpelt(w.grammar, EnvBefore(w), front, name, raw, current, n);
        NextIsValid(w.grammar, raw, value, current);
        var next := NextStep(w.grammar, raw, value, current).value;
        NextParts(w.grammar, raw, value, current);
        ChainComesBack(w, front, next.name, next.value, next.current, depth + 1, t, after);
        if WholeVarRef(raw).None? {
          LiteralExpands(w.grammar, EnvBefore(w), front, next.name, "", n - 1);
          TagComesBack(w.grammar, current, value, next.value, front(RepositoryOf(raw)));
        }
    }
  }

  lemma StaysHeld(w: Setting, after: Environment, name: string, raw: string)
    requires TemplatesStay(w, after) && name !in w.process && TemplateOf(w, name) == Some(raw) && Holds(EnvBefore(w), name, raw)
    ensures Holds(after, name, raw)
  {
    hide TemplateOf, EnvBefore;
  }

  lemma FollowParts(w: Setting, name: string, value: string, current: string, depth: nat, t: Target)
    requires depth <= MAX_TEMPLATE_DEPTH && Follow(w, name, value, current, depth) == Done(t)
    ensures name !in w.process && AssignmentOf(w, name).Done? && Writable(value)
    ensures TemplateOf(w, name).None? ==> t == Target(name, value)
    ensures TemplateOf(w, name).Some? ==> depth < MAX_TEMPLATE_DEPTH
    ensures TemplateOf(w, name).Some? ==>
      var raw := TemplateOf(w, name).value;
      NextStep(w.grammar, raw, value, current).Done?
      && var next := NextStep(w.grammar, raw, value, current).value;
         Follow(w, next.name, next.value, next.current, depth + 1) == Done(t)
  {
    hide Writable, AssignmentOf, TemplateOf, NextStep;
  }

  lemma NextParts(g: Grammar, raw: string, value: string, current: string)
    requires NextStep(g, raw, value, current).Done?
    ensures var next := NextStep(g, raw, value, current).value;
      if WholeVarRef(raw).Some? then next == Step(WholeVarRef(raw).value, value, current)
      else TrailingTagVar(raw) == Some(next.name) && current != "" && next.current == ""
           && TagChange(g, current, value) == Some(next.value)
  {
    hide WholeVarRef, TrailingTagVar, TagChange;
  }

  // ---- what may be written ---------------------------------------------------------------------

  predicate AllAscii(value: string) {
    forall i :: 0 <= i < |value| ==> IsAscii(value[i])
  }

  lemma WritableIsVisible(value: string)
    requires Writable(value) && AllAscii(value)
    ensures forall i :: 0 <= i < |value| ==> '!' <= value[i] <= '~' && !IsQuote(value[i]) && value[i] != '\\'
  {
  }

  lemma WritablePieces(key: string, value: string, quote: char)
    requires KeyText(key) && value != "" && Writable(value) && AllAscii(value)
    ensures Simple(key, value).Fits()
    ensures IsQuote(quote) ==> Quoted(Name("", key, ""), '=', "", quote, value).Fits()
  {
    WritableIsVisible(value);
    hide Writable, KeyText;
    SimpleFits(key, value);
    assert Backslashes(value, |value|) == 0;
    hide EndsValue;
  }

  /** A value the guard lets through is read back as the value, on a line of its own and between either quotes. */
  lemma WritableReadsBack(sc: Scanner, key: string, value: string, quote: char, u: string)
    requires KeyText(key) && value != "" && Writable(value) && AllAscii(value) && IsQuote(quote)
    ensures var n := |key| + 1;
      sc.Scan(key + "=" + value + "\n" + u)
      == Later([Statement(key, false, NO_QUOTE, n, n + |value|)], n + |value| + 1, sc.Scan(u))
    ensures var n := |key| + 2;
      sc.Scan(key + "=" + [quote] + value + [quote] + u)
      == Later([Statement(key, false, quote, n, n + |value|)], n + |value| + 1, sc.Scan(u))
  {
    hide *;
    WritablePieces(key, value, quote);
    var quoted := Quoted(Name("", key, ""), '=', "", quote, value);
    PieceReads(sc, Simple(key, value), u);
    PieceReads(sc, quoted, u);
    PiecesAre(key, value, quote, u);
  }

  lemma PiecesAre(key: string, value: string, quote: char, u: string)
    ensures var n := |key| + 1; Simple(key, value).Said() == [Statement(key, false, NO_QUOTE, n, n + |value|)]
    ensures Simple(key, value).Written() + u == key + "=" + value + "\n" + u
    ensures |Simple(key, value).Written()| == |key| + 1 + |value| + 1
    ensures var p, n := Quoted(Name("", key, ""), '=', "", quote, value), |key| + 2;
      && p.Said() == [Statement(key, false, quote, n, n + |value|)]
      && p.Written() + u == key + "=" + [quote] + value + [quote] + u && |p.Written()| == n + |value| + 1
  {
  }
}
