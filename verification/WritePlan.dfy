/**
  The planner itself (tagwrite.go): the class that grows a plan, one variable at a
  time.
 */
module WritePlans {
  import opened Text
  import opened EnvScan
  import opened EnvEdit
  import opened EnvLaws
  import opened EnvInsert
  import opened EnvQuoted
  import opened TextEdits
  import opened EnvRewrite
  import opened EnvFile
  import opened EnvPlacement
  import opened EnvEval
  import opened EnvProject
  import opened EnvTemplates
  import opened EnvPlan

  const NO_STATEMENT := Statement("", true, NO_QUOTE, 0, 0)

  class WritePlan {
    const w: Setting
    var edits: seq<seq<TextEdit>>
    var vars: map<string, VarEdit>
    ghost var changes: seq<seq<Change>>

    ghost function Now(): Contents
      reads this
    {
      Contents(edits, vars, changes)
    }

    ghost predicate Valid()
      reads this
    {
      ValidSetting(w) && PlanInvariant(w, Now())
    }

    constructor (w: Setting)
      requires ValidSetting(w)
      ensures this.w == w && Valid() && Now() == EmptyPlan(w)
    {
      this.w := w;
      edits, vars, changes := EmptyPlan(w).edits, map[], EmptyPlan(w).changes;
      new;
      EmptyHolds(w);
    }

    /** firstUse: the first use of `name` in load order, and the start of its line. */
    method FirstUse(name: string) returns (r: Decision<Option<Use>>)
      ensures r.Refused? ==> exists f :: 0 <= f < |w.files| && NotParsed(w, f, r.reason)
      ensures r.Done? ==> match r.value
                          case None => UnusedBefore(w, name, |Bs(w)|)
                          case Some(u) => FirstUseIs(w, name, u)
    {
      hide *;
      NothingBefore(w, name);
      for f := 0 to |w.files|
        invariant Position(w, f, 0) <= |Bs(w)| && UnusedBefore(w, name, Position(w, f, 0))
      {
        var scan := w.sc.ScanEnvStatements(w.files[f].data);
        if scan.Err? {
          ParseFails(w, f);
          return Refused(Unparsed(scan.error));
        }
        var sts := scan.value;
        ReadAll(w, f, sts);
        for i := 0 to |sts|
          invariant Position(w, f, i) <= |Bs(w)| && UnusedBefore(w, name, Position(w, f, i))
        {
          var st := sts[i];
          ReadStatement(w, f, i, sts);
          StatementUse(w, name, f, i, st);
          if !st.inherited && st.quote != '\'' && Refers(name, w.files[f].data[st.valueStart..st.valueEnd]) {
            var at := LineStartBefore(w.files[f].data, |MarkOf(w.files[f].data)|, st.valueStart);
            UseFound(w, name, f, i, st, at);
            return Done(Some(Use(f, i, at)));
          }
          UseNext(w, name, f, i);
        }
        AtNextFile(w, f);
      }
      AfterAll(w);
      return Done(None);
    }

    /** appendText: a line break first, when the file does not end in one and no other edit is appended. */
    method AppendText(f: nat, line: string) returns (text: string)
      requires f < |w.files| && f < |edits|
      ensures text == (if Glues(w.files[f].data, edits[f]) then LineEnding(w.files[f].data) else "") + line + LineEnding(w.files[f].data)
    {
      var data := w.files[f].data;
      var eol := LineEnding(data);
      var appending := false;
      for i := 0 to |edits[f]|
        invariant appending <==> exists k :: 0 <= k < i && edits[f][k].start == |data|
      {
        if edits[f][i].start == |data| {
          appending := true;
        }
      }
      if Unterminated(data) && !appending {
        return eol + line + eol;
      }
      return line + eol;
    }

    /** assignmentFor's inner loop: one file's statements. */
    method DeclaredIn(name: string, f: nat, sts: seq<Statement>, before: set<string>, last0: Option<(nat, nat)>, stmt0: Statement)
      returns (declared: set<string>, last: Option<(nat, nat)>, stmt: Statement)
      requires f < |w.files| && w.sc.ScanFile(w.files[f].data) == Ok(sts)
      requires LoopState(w, name, Position(w, f, 0), before, last0, stmt0)
      ensures LoopState(w, name, Position(w, f, |sts|), declared, last, stmt)
    {
      hide *;
      declared, last, stmt := before, last0, stmt0;
      for i := 0 to |sts|
        invariant LoopState(w, name, Position(w, f, i), declared, last, stmt)
      {
        var st := sts[i];
        ReadStatement(w, f, i, sts);
        LoopNext(w, name, f, i, st, declared, last, stmt);
        if Skipped(w, st, declared) {
          continue;
        }
        declared := declared + {st.key};
        if st.key == name {
          last, stmt := Some((f, i)), st;
        }
      }
    }

    /** assignmentFor. */
    method AssignmentFor(name: string) returns (r: Decision<Place>, st: Statement)
      requires ValidSetting(w)
      ensures r == AssignmentOf(w, name)
      ensures r.Done? && r.value.Assigned? ==> IsStatement(w, r.value.file, r.value.index, st)
    {
      hide *;
      if !w.listed {
        NoneDeclares(w, name);
        return if w.files == [] then Refused(NoEnvFile) else Done(Undeclared(0)), NO_STATEMENT;
      }
      var declared: set<string> := {};
      var last: Option<(nat, nat)> := None;
      var stmt := NO_STATEMENT;
      LoopStart(w, name);
      for f := 0 to |w.files|
        invariant forall g :: 0 <= g < f ==> Unreadable(w, g).None?
        invariant LoopState(w, name, Position(w, f, 0), declared, last, stmt)
      {
        if !w.files[f].existed {
          MissingFileRefused(w, name, f);
          return Refused(MissingFile), NO_STATEMENT;
        }
        var scan := w.sc.ScanEnvStatements(w.files[f].data);
        if scan.Err? {
          UnparsedRefused(w, name, f);
          return Refused(Unparsed(scan.error)), NO_STATEMENT;
        }
        var sts := scan.value;
        ParsedReadable(w, f);
        ReadAll(w, f, sts);
        declared, last, stmt := DeclaredIn(name, f, sts, declared, last, stmt);
        AtNextFile(w, f);
      }
      LoopEnd(w, name, declared, last, stmt);
      match last {
        case Some(p) => return if stmt.inherited then Refused(InheritedLine) else Done(Assigned(p.0, p.1)), stmt;
        case None => return Done(Undeclared(|w.files| - 1)), stmt;
      }
    }

    /** planVar: `value` for the variable `name` leads to, needed by `svc`. */
    method PlanVar(name: string, value: string, svc: string, current: string, depth: nat) returns (r: Option<PlanError>)
      requires Valid() && ValidName(name)
      modifies this
      ensures Valid() && PlansVar(w, old(Now()), name, value, svc, current, depth, Now(), r)
      decreases MAX_TEMPLATE_DEPTH - depth
    {
      hide PlanInvariant, ValidSetting, ValidName, Writable, Written, PlansVar, AddsEdit, AddsThis, Makes, Fits, AssignmentOf,
        TemplateOf, NextStep, IsStatement, Follow, Shared, Positioned;
      GuardRefuses(w, name, value, current, depth);
      RefusedIsPlanned(w, Now(), name, value, svc, current, depth);
      if !Writable(value) {
        return Some(UnsafeValue);
      }
      if name in vars {
        r := ShareEdit(name, value, svc, current, depth);
        return;
      }
      if name in w.process {
        return Some(SetInProcess);
      }
      var place, st := AssignmentFor(name);
      if place.Refused? {
        return Some(place.reason);
      }
      if place.value.Assigned? {
        var f := place.value.file;
        StatementTemplate(w, name, f, place.value.index, st);
        var raw := w.files[f].data[st.valueStart..st.valueEnd];
        if st.quote != '\'' && '$' in raw {
          TemplateFollowed(w, name, value, current, depth, raw);
          if depth >= MAX_TEMPLATE_DEPTH {
            return Some(TooDeep);
          }
          var next := NextStep(w.grammar, raw, value, current);
          if next.Refused? {
            return Some(next.reason);
          }
          NextIsValid(w.grammar, raw, value, current);
          r := PlanVar(next.value.name, next.value.value, svc, next.value.current, depth + 1);
          SamePlan(w, old(Now()), name, value, svc, current, depth, next.value, Now(), r);
          return;
        }
        r := SetValueOf(name, value, svc, place.value, st);
      } else {
        UndeclaredHasNoTemplate(w, name);
        r := DeclareVar(name, value, svc, place.value.file);
      }
      ItselfIsPlanned(w, old(Now()), name, value, svc, current, depth, Now(), r);
    }

    /** planVar, for a variable the plan already sets. */
    method ShareEdit(name: string, value: string, svc: string, ghost current: string, ghost depth: nat) returns (r: Option<PlanError>)
      requires Valid() && name in vars && Writable(value)
      modifies this
      ensures Valid() && PlansVar(w, old(Now()), name, value, svc, current, depth, Now(), r)
    {
      hide PlanInvariant, ValidSetting, Writable, Follow, AddsEdit;
      PlannedIsFollowed(w, Now(), name, value, current, depth);
      var v := vars[name];
      if v.value != value {
        return Some(SharedVariable);
      }
      ShareHolds(w, Now(), name, svc);
      var e := edits[v.file][v.edit];
      edits := edits[v.file := edits[v.file][v.edit := e.(owners := e.owners + [svc])]];
      ghost var c := changes[v.file][v.edit];
      changes := changes[v.file := changes[v.file][v.edit := c.(owners := c.owners + [svc])]];
      return None;
    }

    /** planVar, for an assignment that is not a template. */
    method SetValueOf(name: string, value: string, svc: string, place: Place, st: Statement) returns (r: Option<PlanError>)
      requires Valid() && ValidName(name) && Writable(value) && name !in vars && name !in w.process && place.Assigned?
      requires AssignmentOf(w, name) == Done(place) && IsStatement(w, place.file, place.index, st)
      requires TemplateOf(w, name).None?
      modifies this
      ensures Valid() && AddsEdit(w, old(Now()), Target(name, value), svc, Now(), r)
    {
      hide PlanInvariant, ValidSetting, AssignmentOf, IsStatement, TemplateOf, Writable, Written, Fits, TargetOf, BindingsAt,
        AddsEdit, ValidName, LeadRight;
      var f := place.file;
      IsWritten(w, name);
      StatementTemplate(w, name, f, place.index, st);
      SetFits(w, name, f, place.index, st, value, svc);
      var e := TextEdit(st.valueStart, st.valueEnd, value, [svc]);
      ghost var c := SetValue(place.index, value, [svc]);
      InvariantShape(w, Now());
      InsideIsNoAppend(w.files[f].data, edits[f], c);
      r := AddFitted(name, value, svc, f, e, c);
    }

    /** planVar, for a variable no env file declares. */
    method DeclareVar(name: string, value: string, svc: string, last: nat) returns (r: Option<PlanError>)
      requires Valid() && ValidName(name) && Writable(value) && name !in vars && name !in w.process
      requires AssignmentOf(w, name) == Done(Undeclared(last))
      modifies this
      ensures Valid() && AddsEdit(w, old(Now()), Target(name, value), svc, Now(), r)
    {
      hide PlanInvariant, ValidSetting, AssignmentOf, FirstUseIs, UnusedBefore, WellPlaced, Unterminated, LineEnding, Glues,
        Writable, Written, Fits, TargetOf, BindingsAt, AddsEdit, ValidName, Unassigned, FirstUnreadable, DeclareAt,
        DeclarationLine, BodyOf, MarkOf, Bs, NotParsed, LeadRight;
      UndeclaredPlan(w, Now(), name, last);
      var use := FirstUse(name);
      FindsUses(w, name, last, use);
      match use.value {
        case Some(u) =>
          ghost var c := UseFits(w, name, u, value, svc);
          var e := TextEdit(u.at, u.at, DeclarationLine(name, value, LineEnding(w.files[u.file].data)), [svc]);
          r := AddFitted(name, value, svc, u.file, e, c);
        case None =>
          var n := |w.files[last].data|;
          var text := AppendText(last, name + "=" + value);
          ghost var c := LastFits(w, last, edits[last], name, value, svc, text);
          r := AddFitted(name, value, svc, last, TextEdit(n, n, text, [svc]), c);
      }
    }

    method AddFitted(name: string, value: string, svc: string, f: nat, e: TextEdit, ghost c: Change) returns (r: Option<PlanError>)
      requires Valid() && name !in vars && Written(w, name) && Writable(value)
      requires f < |w.files| && Fits(w, f, e, c) && TargetOf(BindingsAt(w, f), c) == name && c.value == value && c.owners == [svc]
      requires f < |edits| && LeadRight(w.files[f].data, edits[f], c)
      modifies this
      ensures Valid() && AddsEdit(w, old(Now()), Target(name, value), svc, Now(), r)
    {
      hide PlanInvariant, ValidSetting, Writable, Written, Fits, TargetOf, BindingsAt, AddsThis, LeadRight;
      InvariantShape(w, Now());
      r := AddEdit(f, e, Target(name, value), c, svc);
    }

    /** addEdit: a change that overlaps one the file holds is refused. */
    method AddEdit(f: nat, e: TextEdit, t: Target, ghost c: Change, ghost svc: string) returns (r: Option<PlanError>)
      requires Valid() && Makes(w, t, svc, f, e, c) && t.name !in vars && Written(w, t.name) && Writable(t.value)
      requires f < |edits| && f < |w.files| && LeadRight(w.files[f].data, edits[f], c)
      modifies this
      ensures Valid() && AddsThis(w, old(Now()), t, f, e, c, Now(), r)
    {
      hide PlanInvariant, ValidSetting, Makes, Written, Writable, NoOverlap, Extended, Overlap, AddsThis, LeadRight;
      ghost var p := Now();
      SplitInvariant(w, p, f);
      var ok, after := TextEdits.AddEdit(edits[f], e);
      AddedOverlap(edits[f], e);
      if ok {
        vars := vars[t.name := VarEdit(t.value, f, |edits[f]|)];
        edits := edits[f := after];
        changes := changes[f := changes[f] + [c]];
        Added(w, p, t, svc, f, e, c, Now());
        return None;
      }
      NotAdded(w, p, t, f, e, c);
      return Some(Overlapping);
    }
  }

  /** `e`, the edit of `c`, is what planVar makes of its target for a service. */
  ghost predicate Makes(w: Setting, t: Target, svc: string, f: nat, e: TextEdit, c: Change) {
    && Fits(w, f, e, c) && f < |w.files|
    && TargetOf(BindingsAt(w, f), c) == t.name && c.value == t.value && c.owners == [svc]
  }

  /** Adding that edit, unless it overlaps one the plan holds. */
  ghost predicate AddsEdit(w: Setting, p: Contents, t: Target, svc: string, q: Contents, r: Option<PlanError>) {
    exists f, e, c :: Makes(w, t, svc, f, e, c) && AddsThis(w, p, t, f, e, c, q, r)
  }

  ghost predicate AddsThis(w: Setting, p: Contents, t: Target, f: nat, e: TextEdit, c: Change, q: Contents, r: Option<PlanError>) {
    && f < |p.edits| == |p.changes| == |w.files| && LeadRight(w.files[f].data, p.edits[f], c)
    && if NoOverlap(p.edits[f] + [e]) then r.None? && q == Extended(p, f, e, c, t.name)
       else r == Some(Overlapping) && q == p
  }

  /** planVar, from the plan `p` to the plan `q`. */
  ghost predicate PlansVar(w: Setting, p: Contents, name: string, value: string, svc: string, current: string, depth: nat,
                           q: Contents, r: Option<PlanError>) {
    match Follow(w, name, value, current, depth)
    case Refused(e) => r == Some(e) && q == p
    case Done(t) =>
      if t.name !in p.vars then AddsEdit(w, p, t, svc, q, r)
      else if p.vars[t.name].value != t.value then r == Some(SharedVariable) && q == p
      else r.None? && Positioned(p, t.name) && q == Shared(p, t.name, svc)
  }

  // ---- what planVar's branches are for ------------------------------------------------------

  lemma GuardRefuses(w: Setting, name: string, value: string, current: string, depth: nat)
    ensures !Writable(value) ==> Follow(w, name, value, current, depth) == Refused(UnsafeValue)
    ensures Writable(value) && name in w.process ==> Follow(w, name, value, current, depth) == Refused(SetInProcess)
    ensures Writable(value) && name !in w.process && AssignmentOf(w, name).Refused? ==>
      Follow(w, name, value, current, depth) == Refused(AssignmentOf(w, name).reason)
  {
  }

  lemma PlannedIsFollowed(w: Setting, p: Contents, name: string, value: string, current: string, depth: nat)
    requires PlanInvariant(w, p) && name in p.vars && Writable(value)
    ensures Positioned(p, name) && Follow(w, name, value, current, depth) == Done(Target(name, value))
  {
    hide AssignmentOf, TemplateOf, NoOverlap, Recorded, TargetOf;
    assert HasEdit(w, p, name);
    WrittenIsFollowed(w, name, value, current, depth);
  }

  lemma TemplateFollowed(w: Setting, name: string, value: string, current: string, depth: nat, raw: string)
    requires Writable(value) && name !in w.process && AssignmentOf(w, name).Done? && TemplateOf(w, name) == Some(raw)
    ensures depth >= MAX_TEMPLATE_DEPTH ==> Follow(w, name, value, current, depth) == Refused(TooDeep)
    ensures depth < MAX_TEMPLATE_DEPTH ==>
      Follow(w, name, value, current, depth) ==
      match NextStep(w.grammar, raw, value, current)
      case Refused(e) => Refused(e)
      case Done(next) => Follow(w, next.name, next.value, next.current, depth + 1)
  {
    hide NextStep, AssignmentOf, TemplateOf, Writable;
  }

  /** The text of an assignment, as the scan found it, is the template compose expands. */
  lemma StatementTemplate(w: Setting, name: string, f: nat, i: nat, st: Statement)
    requires AssignmentOf(w, name) == Done(Assigned(f, i)) && IsStatement(w, f, i, st)
    ensures f < |w.files| && !st.inherited && 0 <= st.valueStart <= st.valueEnd <= |w.files[f].data|
    ensures var raw := w.files[f].data[st.valueStart..st.valueEnd];
      TemplateOf(w, name) == if st.quote != '\'' && '$' in raw then Some(raw) else None
  {
    hide AssignmentOf, BindingsAt, StatementsOf;
    AssignedInFile(w, name, f, i);
  }

  lemma SetFits(w: Setting, name: string, f: nat, i: nat, st: Statement, value: string, svc: string)
    requires ValidSetting(w) && AssignmentOf(w, name) == Done(Assigned(f, i)) && IsStatement(w, f, i, st)
    requires ValidName(name) && name !in w.process && !st.inherited && 0 <= st.valueStart <= st.valueEnd
    ensures f < |w.files| && TargetOf(BindingsAt(w, f), SetValue(i, value, [svc])) == name
    ensures Fits(w, f, TextEdit(st.valueStart, st.valueEnd, value, [svc]), SetValue(i, value, [svc]))
  {
    hide *;
    AssignedInFile(w, name, f, i);
    NameIsNotEmpty(name);
    TakenEffective(w, name, f, i, value, svc);
    StatementKey(w, f, i, st);
    SetFitsFile(w, f, i, st, value, svc);
    TakesKey(w, name, f, i);
    SetIsFit(w, f, i, TextEdit(st.valueStart, st.valueEnd, value, [svc]), value, svc);
  }

  lemma StatementKey(w: Setting, f: nat, i: nat, st: Statement)
    requires IsStatement(w, f, i, st)
    ensures f < |w.files| && InFile(w, f, i) && BindingsAt(w, f)[i].key == st.key
  {
  }

  lemma SetFitsFile(w: Setting, f: nat, i: nat, st: Statement, value: string, svc: string)
    requires f < |w.files| && IsStatement(w, f, i, st) && !st.inherited && 0 <= st.valueStart <= st.valueEnd
    requires st.key != ""
    ensures FitsSet(w, f, TextEdit(st.valueStart, st.valueEnd, value, [svc]), SetValue(i, value, [svc]))
  {
    hide StatementsOf;
  }

  lemma SetIsFit(w: Setting, f: nat, i: nat, e: TextEdit, value: string, svc: string)
    requires InFile(w, f, i) && FitsSet(w, f, e, SetValue(i, value, [svc]))
    requires Effective(w.process, Bs(w), ShiftChange(SetValue(i, value, [svc]), Position(w, f, 0)))
    ensures Fits(w, f, e, SetValue(i, value, [svc]))
    ensures TargetOf(BindingsAt(w, f), SetValue(i, value, [svc])) == BindingsAt(w, f)[i].key
  {
    hide FitsSet, Effective, Bs, BindingsAt;
  }

  lemma TakenEffective(w: Setting, name: string, f: nat, i: nat, value: string, svc: string)
    requires Takes(w, name, f, i) && InFile(w, f, i) && BindingsAt(w, f)[i].key == name && !BindingsAt(w, f)[i].inherited
    requires name !in w.process
    ensures Effective(w.process, Bs(w), ShiftChange(SetValue(i, value, [svc]), Position(w, f, 0)))
  {
    hide *;
    TakenHas(w, name, f, i);
    AtInside(w, f, i);
    TakenIsLast(w.process, Bs(w), name, Position(w, f, i));
    PositionPlus(w, f, i);
    LastIsEffective(w.process, Bs(w), SetValue(i, value, [svc]), Position(w, f, 0));
  }

  lemma TakenHas(w: Setting, name: string, f: nat, i: nat)
    requires Takes(w, name, f, i) && InFile(w, f, i)
    ensures f < |w.files| && TakenFrom(w.process, Bs(w), |Bs(w)|, name, Position(w, f, i))
  {
    hide TakenFrom, BindingsAt, Flatten, Offset, AllBindings, StatementsOf, w.sc.Scan;
  }

  lemma LastIsEffective(process: set<string>, bs: seq<Binding>, c: Change, d: nat)
    requires c.SetValue? && c.index + d < |bs| && LastAssignment(bs, c.index + d) && bs[c.index + d].key !in process
    ensures Effective(process, bs, ShiftChange(c, d))
  {
    hide LastAssignment;
  }

  // ---- a declaration ------------------------------------------------------------------------

  lemma {:induction false} Located(bss: seq<seq<Binding>>, g: nat) returns (f: nat, i: nat)
    requires g < |Flatten(bss)|
    ensures f < |bss| && i < |bss[f]| && Offset(bss, f) + i == g
  {
    if g < |bss[0]| {
      f, i := 0, g;
    } else {
      f, i := Located(bss[1..], g - |bss[0]|);
      f := f + 1;
    }
  }

  lemma {:induction false} LastDeclared(process: set<string>, bs: seq<Binding>, n: nat, name: string) returns (i: nat)
    requires n <= |bs| && !TakenFromNone(process, bs, n, name)
    ensures TakenFrom(process, bs, n, name, i)
  {
    TakenNext(process, bs, n - 1, name);
    hide Declaring;
    if bs[n - 1].key == name && Declaring(process, bs, n - 1) {
      i := n - 1;
    } else {
      i := LastDeclared(process, bs, n - 1, name);
    }
  }

  /** A variable nothing is taken from is assigned nowhere. */
  lemma UndeclaredIsUnassigned(w: Setting, name: string, f: nat)
    requires AssignmentOf(w, name) == Done(Undeclared(f))
    ensures Unassigned(Bs(w), name) && FirstUnreadable(w, 0).None? && f == |w.files| - 1
  {
    hide FirstUnreadable, SomeTakes, TakenPlace, Bs, TakenFromNone;
    if !TakenFromNone(w.process, Bs(w), |Bs(w)|, name) {
      DeclaredIsTaken(w, name);
    }
    NoneTakenIsUnassigned(w.process, Bs(w), name);
  }

  lemma TakenThere(w: Setting, name: string, f: nat, i: nat, g: nat)
    requires InFile(w, f, i) && TakenFrom(w.process, Bs(w), |Bs(w)|, name, g) && g == Offset(AllBindings(w), f) + i
    ensures Takes(w, name, f, i)
  {
    hide StatementsOf, Flatten, Offset, AllBindings, Declaring;
  }

  lemma DeclaredIsTaken(w: Setting, name: string)
    requires !TakenFromNone(w.process, Bs(w), |Bs(w)|, name)
    ensures SomeTakes(w, name)
  {
    hide TakenFromNone, StatementsOf, Flatten, Offset, Declaring;
    var g := LastDeclared(w.process, Bs(w), |Bs(w)|, name);
    var f, i := Located(AllBindings(w), g);
    TakenThere(w, name, f, i, g);
  }

  /** A plan that reads its files finds every use. */
  lemma UsesAreFound(w: Setting, name: string, f: nat)
    requires ValidSetting(w) && FirstUnreadable(w, 0).None? && f < |w.files|
    ensures w.sc.ScanFile(w.files[f].data).Ok?
  {
    AllReadable(w, 0, f);
    ReadsAs(w, f);
  }

  lemma DeclarationIndex(w: Setting, f: nat, at: nat)
    requires ValidSetting(w) && FirstUnreadable(w, 0).None? && f < |w.files|
    ensures IndexAt(w, f, at) <= |StatementsOf(w, f)|
    ensures Clean(w, f, at) ==> InsertOk(w.sc, BodyOf(w.files[f].data), at)
    ensures w.sc.Scan(BodyOf(w.files[f].data)) == Ok(StatementsOf(w, f))
  {
    AllReadable(w, 0, f);
    ReadsAs(w, f);
    hide w.sc.Scan, StatementsOf, Slot, InsertOk, Clean;
    if Clean(w, f, at) {
      CleanIs(w, f, at);
      InsertOkOutsideQuotes(w.sc, BodyOf(w.files[f].data), StatementsOf(w, f), at);
      SlotSeparates(w.sc, BodyOf(w.files[f].data), StatementsOf(w, f), at);
    }
  }

  lemma CleanIs(w: Setting, f: nat, at: nat)
    requires f < |w.files|
    ensures Clean(w, f, at) ==>
      at <= |BodyOf(w.files[f].data)| && LineStart(BodyOf(w.files[f].data), at)
      && forall i :: 0 <= i < |StatementsOf(w, f)| ==> !Spans(StatementsOf(w, f)[i], at)
  {
    hide StatementsOf;
  }

  ghost function DeclareAt(w: Setting, f: nat, at: nat, name: string, value: string, lead: string, svc: string): Change
    requires f < |w.files|
  {
    Declare(IndexAt(w, f, at), at, name, value, lead, LineEnding(w.files[f].data), [svc])
  }

  /** A declaration is written after a line break only at the end. */
  predicate LeadFits(w: Setting, f: nat, at: nat, lead: string)
    requires f < |w.files|
  {
    lead == "" || (lead == LineEnding(w.files[f].data) && at == |BodyOf(w.files[f].data)|)
  }

  lemma DeclareFits(w: Setting, f: nat, at: nat, name: string, value: string, svc: string, lead: string)
    requires ValidSetting(w) && FirstUnreadable(w, 0).None? && Unassigned(Bs(w), name) && name !in w.process
    requires f < |w.files| && ValidName(name) && WellPlaced(w, f, at, name) && at <= |BodyOf(w.files[f].data)|
    requires LeadFits(w, f, at, lead)
    ensures var p, text := at + |MarkOf(w.files[f].data)|, lead + DeclarationLine(name, value, LineEnding(w.files[f].data));
      Fits(w, f, TextEdit(p, p, text, [svc]), DeclareAt(w, f, at, name, value, lead, svc))
    ensures var c := DeclareAt(w, f, at, name, value, lead, svc);
      TargetOf(BindingsAt(w, f), c) == name && c.value == value && c.owners == [svc]
  {
    hide *;
    DeclarationIndex(w, f, at);
    var p, text := at + |MarkOf(w.files[f].data)|, lead + DeclarationLine(name, value, LineEnding(w.files[f].data));
    var e, c := TextEdit(p, p, text, [svc]), DeclareAt(w, f, at, name, value, lead, svc);
    DeclareFitsFile(w, f, at, name, value, svc, lead);
    DeclareEffective(w, f, c, name);
    DeclareIsFit(w, f, e, c);
  }

  lemma DeclareFitsFile(w: Setting, f: nat, at: nat, name: string, value: string, svc: string, lead: string)
    requires f < |w.files| && ValidName(name) && WellPlaced(w, f, at, name) && at <= |BodyOf(w.files[f].data)|
    requires IndexAt(w, f, at) <= |StatementsOf(w, f)| && LeadFits(w, f, at, lead)
    ensures var p, text := at + |MarkOf(w.files[f].data)|, lead + DeclarationLine(name, value, LineEnding(w.files[f].data));
      FitsDeclare(w, f, TextEdit(p, p, text, [svc]), DeclareAt(w, f, at, name, value, lead, svc))
    ensures var c := DeclareAt(w, f, at, name, value, lead, svc);
      c.Declare? && c.index <= |BindingsAt(w, f)| && c.name == name && c.owners == [svc] && c.value == value && c.at == at && c.lead == lead
  {
    hide WellPlaced, Clean, ValidName, DeclarationLine, StatementsOf, LineEnding, IndexAt;
  }

  lemma DeclareEffective(w: Setting, f: nat, c: Change, name: string)
    requires f < |w.files| && c.Declare? && c.index <= |BindingsAt(w, f)| && c.name == name
    requires Unassigned(Bs(w), name) && name !in w.process
    ensures Effective(w.process, Bs(w), ShiftChange(c, Position(w, f, 0))) && TargetOf(BindingsAt(w, f), c) == name
  {
    hide BindingsAt, Bs, Unassigned, Position;
    AtNextFile(w, f);
    PositionPlus(w, f, |BindingsAt(w, f)|);
  }

  lemma DeclareIsFit(w: Setting, f: nat, e: TextEdit, c: Change)
    requires f < |w.files| && c.Declare? && FitsDeclare(w, f, e, c) && c.owners != []
    requires Effective(w.process, Bs(w), ShiftChange(c, Position(w, f, 0)))
    ensures Fits(w, f, e, c)
  {
    hide FitsDeclare, Effective, Position, Bs;
  }

  lemma PositionPlus(w: Setting, f: nat, i: nat)
    requires f <= |w.files|
    ensures Position(w, f, i) == Position(w, f, 0) + i
  {
  }

  lemma AppendFits(w: Setting, f: nat, name: string)
    requires f < |w.files| && |w.files| == f + 1 && UnusedBefore(w, name, |Bs(w)|)
    ensures WellPlaced(w, f, |BodyOf(w.files[f].data)|, name)
    ensures |w.files[f].data| == |BodyOf(w.files[f].data)| + |MarkOf(w.files[f].data)|
  {
    hide UnusedBefore, Bs;
  }

  lemma UsePlaced(w: Setting, name: string, u: Use)
    requires FirstUseIs(w, name, u)
    ensures u.file < |w.files| && |MarkOf(w.files[u.file].data)| <= u.at <= |w.files[u.file].data|
    ensures |w.files[u.file].data| == |BodyOf(w.files[u.file].data)| + |MarkOf(w.files[u.file].data)|
    ensures WellPlaced(w, u.file, u.at - |MarkOf(w.files[u.file].data)|, name)
  {
    hide UnusedBefore, Bs, Uses;
  }

  /** A use is before the end of its file, and so is the declaration above it. */
  lemma UseIsInside(w: Setting, name: string, u: Use)
    requires ValidSetting(w) && FirstUnreadable(w, 0).None? && FirstUseIs(w, name, u)
    ensures u.file < |w.files| && u.at < |w.files[u.file].data|
  {
    hide *;
    UsePlaced(w, name, u);
    AllReadable(w, 0, u.file);
    ReadsAs(w, u.file);
    UsedValue(w, name, u);
  }

  lemma UsedValue(w: Setting, name: string, u: Use)
    requires FirstUseIs(w, name, u) && u.file < |w.files|
    requires w.sc.Scan(BodyOf(w.files[u.file].data)) == Ok(StatementsOf(w, u.file))
    ensures u.at < |w.files[u.file].data|
  {
    hide UnusedBefore, Bs, w.sc.Scan, StatementsOf, Refers;
    ScanOrdered(w.sc, BodyOf(w.files[u.file].data), StatementsOf(w, u.file));
    var text := BindingsAt(w, u.file)[u.index].text;
    NothingRefers(name);
    assert text != "";
  }

  lemma NothingRefers(name: string)
    ensures !Refers(name, "")
  {
  }

  lemma UseFits(w: Setting, name: string, u: Use, value: string, svc: string) returns (c: Change)
    requires ValidSetting(w) && FirstUnreadable(w, 0).None? && Unassigned(Bs(w), name) && name !in w.process
    requires ValidName(name) && FirstUseIs(w, name, u)
    ensures u.file < |w.files|
    ensures
      && Fits(w, u.file, TextEdit(u.at, u.at, DeclarationLine(name, value, LineEnding(w.files[u.file].data)), [svc]), c)
      && TargetOf(BindingsAt(w, u.file), c) == name && c.value == value && c.owners == [svc]
    ensures forall edits :: LeadRight(w.files[u.file].data, edits, c)
  {
    hide *;
    UsePlaced(w, name, u);
    UseIsInside(w, name, u);
    var data := w.files[u.file].data;
    var at := u.at - |MarkOf(data)|;
    c := DeclareAt(w, u.file, at, name, value, "", svc);
    NoLead(w, u.file, at);
    DeclareFits(w, u.file, at, name, value, svc, "");
    NothingAdded(DeclarationLine(name, value, LineEnding(data)));
    DeclareFitsFile(w, u.file, at, name, value, svc, "") by { DeclarationIndex(w, u.file, at); }
    forall edits
      ensures LeadRight(data, edits, c)
    {
      InsideIsNoAppend(data, edits, c);
    }
  }

  lemma NothingAdded(x: string)
    ensures "" + x == x
  {
  }

  lemma NoLead(w: Setting, f: nat, at: nat)
    requires f < |w.files|
    ensures LeadFits(w, f, at, "")
  {
  }

  lemma InsideIsNoAppend(data: string, edits: seq<TextEdit>, c: Change)
    requires c.SetValue? || c.at < |BodyOf(data)|
    ensures LeadRight(data, edits, c)
  {
  }

  lemma LastFits(w: Setting, last: nat, edits: seq<TextEdit>, name: string, value: string, svc: string, text: string)
    returns (c: Change)
    requires ValidSetting(w) && FirstUnreadable(w, 0).None? && Unassigned(Bs(w), name) && name !in w.process
    requires ValidName(name) && |w.files| == last + 1 && UnusedBefore(w, name, |Bs(w)|)
    requires var data := w.files[last].data;
      text == (if Glues(data, edits) then LineEnding(data) else "") + (name + "=" + value) + LineEnding(data)
    ensures var n := |w.files[last].data|;
      && Fits(w, last, TextEdit(n, n, text, [svc]), c)
      && TargetOf(BindingsAt(w, last), c) == name && c.value == value && c.owners == [svc]
    ensures LeadRight(w.files[last].data, edits, c)
  {
    hide *;
    var data := w.files[last].data;
    var at, lead := |BodyOf(data)|, if Glues(data, edits) then LineEnding(data) else "";
    AppendFits(w, last, name);
    c := DeclareAt(w, last, at, name, value, lead, svc);
    LastLead(w, last, edits);
    LineIsText(lead, name, value, LineEnding(data));
    DeclareFits(w, last, at, name, value, svc, lead);
    DeclareFitsFile(w, last, at, name, value, svc, lead) by { DeclarationIndex(w, last, at); }
    LeadIs(data, edits, c);
  }

  lemma LastLead(w: Setting, f: nat, edits: seq<TextEdit>)
    requires f < |w.files|
    ensures var data := w.files[f].data;
      LeadFits(w, f, |BodyOf(data)|, if Glues(data, edits) then LineEnding(data) else "")
  {
    hide LineEnding, Glues;
  }

  lemma LineIsText(lead: string, name: string, value: string, eol: string)
    ensures lead + (name + "=" + value) + eol == lead + DeclarationLine(name, value, eol)
  {
  }

  lemma LeadIs(data: string, edits: seq<TextEdit>, c: Change)
    requires c.Declare? && c.lead == if Glues(data, edits) then LineEnding(data) else ""
    ensures LeadRight(data, edits, c)
  {
    hide Glues, LineEnding;
  }

  lemma FindsUses(w: Setting, name: string, f: nat, use: Decision<Option<Use>>)
    requires ValidSetting(w) && AssignmentOf(w, name) == Done(Undeclared(f))
    requires use.Refused? ==> exists g :: 0 <= g < |w.files| && NotParsed(w, g, use.reason)
    ensures use.Done?
  {
    UndeclaredIsUnassigned(w, name, f);
    hide AssignmentOf, ValidSetting;
    if use.Refused? {
      var g :| 0 <= g < |w.files| && NotParsed(w, g, use.reason);
      UsesAreFound(w, name, g);
    }
  }

  // ---- the loops of firstUse ----------------------------------------------------------

  predicate NotParsed(w: Setting, f: nat, e: PlanError)
    requires f < |w.files|
  {
    w.sc.ScanFile(w.files[f].data).Err? && e == Unparsed(w.sc.ScanFile(w.files[f].data).error)
  }

  lemma ParseFails(w: Setting, f: nat)
    requires f < |w.files| && w.sc.ScanFile(w.files[f].data).Err?
    ensures NotParsed(w, f, Unparsed(w.sc.ScanFile(w.files[f].data).error))
  {
  }

  lemma NothingBefore(w: Setting, name: string)
    ensures Position(w, 0, 0) == 0 && UnusedBefore(w, name, 0)
  {
    assert Offset(AllBindings(w), 0) == 0;
  }

  lemma StatementUse(w: Setting, name: string, f: nat, i: nat, st: Statement)
    requires IsStatement(w, f, i, st)
    ensures InFile(w, f, i) && (!st.inherited ==> |MarkOf(w.files[f].data)| <= st.valueStart <= st.valueEnd <= |w.files[f].data|)
    ensures Uses(BindingsAt(w, f)[i], name)
       <==> !st.inherited && st.quote != '\'' && Refers(name, w.files[f].data[st.valueStart..st.valueEnd])
  {
    hide BindingsAt, Refers;
  }

  lemma UseFound(w: Setting, name: string, f: nat, i: nat, st: Statement, at: nat)
    requires IsStatement(w, f, i, st) && Uses(BindingsAt(w, f)[i], name) && !st.inherited
    requires Position(w, f, i) <= |Bs(w)| && UnusedBefore(w, name, Position(w, f, i))
    requires var data, mark := w.files[f].data, |MarkOf(w.files[f].data)|;
      mark <= at <= st.valueStart && (at == mark || data[at - 1] == '\n') && '\n' !in data[at..st.valueStart]
    ensures FirstUseIs(w, name, Use(f, i, at))
  {
    hide BindingsAt, Refers, Bs, Position, StatementsOf;
    var data := w.files[f].data;
    assert data == MarkOf(data) + BodyOf(data);
  }

  lemma UseNext(w: Setting, name: string, f: nat, i: nat)
    requires f < |w.files| && InFile(w, f, i) && !Uses(BindingsAt(w, f)[i], name)
    requires Position(w, f, i) <= |Bs(w)| && UnusedBefore(w, name, Position(w, f, i))
    ensures Position(w, f, i + 1) == Position(w, f, i) + 1 <= |Bs(w)| && UnusedBefore(w, name, Position(w, f, i + 1))
  {
    hide *;
    AtInside(w, f, i);
    PositionNext(w, f, i);
    UnusedNext(w, name, Position(w, f, i));
  }

  lemma PositionNext(w: Setting, f: nat, i: nat)
    requires f <= |w.files|
    ensures Position(w, f, i + 1) == Position(w, f, i) + 1
  {
  }

  lemma UnusedNext(w: Setting, name: string, n: nat)
    requires n < |Bs(w)| && UnusedBefore(w, name, n) && !Uses(Bs(w)[n], name)
    ensures UnusedBefore(w, name, n + 1)
  {
    hide Bs, Uses;
  }

  lemma UndeclaredHasNoTemplate(w: Setting, name: string)
    requires AssignmentOf(w, name).Done? && AssignmentOf(w, name).value.Undeclared?
    ensures TemplateOf(w, name).None?
  {
    hide AssignmentOf;
  }

  lemma IsWritten(w: Setting, name: string)
    requires ValidName(name) && name !in w.process && AssignmentOf(w, name).Done? && TemplateOf(w, name).None?
    ensures Written(w, name)
  {
    hide AssignmentOf, TemplateOf, ValidName;
  }

  lemma InvariantShape(w: Setting, p: Contents)
    requires PlanInvariant(w, p)
    ensures |p.edits| == |p.changes| == |w.files|
  {
  }

  lemma UndeclaredPlan(w: Setting, p: Contents, name: string, last: nat)
    requires ValidSetting(w) && PlanInvariant(w, p) && AssignmentOf(w, name) == Done(Undeclared(last))
    requires ValidName(name) && name !in w.process
    ensures |p.edits| == |w.files| == last + 1 && Written(w, name) && Unassigned(Bs(w), name)
    ensures FirstUnreadable(w, 0).None?
  {
    UndeclaredIsUnassigned(w, name, last);
    InvariantShape(w, p);
    UndeclaredFile(w, name, last);
    hide ValidName, AssignmentOf, FirstUnreadable, PlanInvariant, Unassigned;
  }

  lemma UndeclaredFile(w: Setting, name: string, last: nat)
    requires AssignmentOf(w, name) == Done(Undeclared(last))
    ensures |w.files| == last + 1
  {
    hide SomeTakes, TakenPlace, FirstUnreadable;
  }

  lemma RefusedIsPlanned(w: Setting, p: Contents, name: string, value: string, svc: string, current: string, depth: nat)
    ensures Follow(w, name, value, current, depth).Refused? ==>
      PlansVar(w, p, name, value, svc, current, depth, p, Some(Follow(w, name, value, current, depth).reason))
  {
    hide Follow;
  }

  lemma SamePlan(w: Setting, p: Contents, name: string, value: string, svc: string, current: string, depth: nat,
                 next: Step, q: Contents, r: Option<PlanError>)
    requires PlansVar(w, p, next.name, next.value, svc, next.current, depth + 1, q, r)
    requires Follow(w, name, value, current, depth) == Follow(w, next.name, next.value, next.current, depth + 1)
    ensures PlansVar(w, p, name, value, svc, current, depth, q, r)
  {
    hide Follow;
  }

  lemma ItselfIsPlanned(w: Setting, p: Contents, name: string, value: string, svc: string, current: string, depth: nat,
                        q: Contents, r: Option<PlanError>)
    requires ValidName(name) && Writable(value) && name !in w.process && AssignmentOf(w, name).Done? && TemplateOf(w, name).None?
    requires name !in p.vars && AddsEdit(w, p, Target(name, value), svc, q, r)
    ensures PlansVar(w, p, name, value, svc, current, depth, q, r)
  {
    hide AssignmentOf, TemplateOf, AddsEdit, ValidName, Writable, Follow;
    WrittenIsFollowed(w, name, value, current, depth);
  }

  lemma SplitInvariant(w: Setting, p: Contents, f: nat)
    requires PlanInvariant(w, p) && f < |p.edits|
    ensures |p.edits| == |p.changes| == |w.files| && NoOverlap(p.edits[f])
  {
  }

  lemma AddedOverlap(edits: seq<TextEdit>, e: TextEdit)
    requires NoOverlap(edits)
    ensures NoOverlap(edits + [e]) <==> forall i :: 0 <= i < |edits| ==> !Overlap(edits[i], e)
  {
    var all := edits + [e];
    hide Overlap;
    assert all[|edits|] == e;
    assert forall i :: 0 <= i < |edits| ==> all[i] == edits[i];
    if forall i :: 0 <= i < |edits| ==> !Overlap(edits[i], e) {
      forall i, j | 0 <= i < j < |all|
        ensures !Overlap(all[i], all[j])
      {
      }
    } else {
      var i :| 0 <= i < |edits| && Overlap(edits[i], e);
      assert Overlap(all[i], all[|edits|]);
    }
  }

  lemma Added(w: Setting, p: Contents, t: Target, svc: string, f: nat, e: TextEdit, c: Change, q: Contents)
    requires PlanInvariant(w, p) && Makes(w, t, svc, f, e, c) && t.name !in p.vars && Written(w, t.name) && Writable(t.value)
    requires f < |p.edits| == |p.changes| && NoOverlap(p.edits[f] + [e])
    requires f < |w.files| && LeadRight(w.files[f].data, p.edits[f], c)
    requires q.edits == p.edits[f := p.edits[f] + [e]] && q.changes == p.changes[f := p.changes[f] + [c]]
    requires q.vars == p.vars[t.name := VarEdit(t.value, f, |p.edits[f]|)]
    ensures PlanInvariant(w, q) && AddsThis(w, p, t, f, e, c, q, None)
  {
    hide PlanInvariant, Makes, Written, Writable, NoOverlap, Extended, Fits, TargetOf, BindingsAt, LeadRight;
    InvariantShape(w, p);
    MakesFits(w, t, svc, f, e, c);
    ExtendedIs(p, f, e, c, t.name, q);
    ExtendHolds(w, p, f, e, c, t.name);
  }

  lemma NotAdded(w: Setting, p: Contents, t: Target, f: nat, e: TextEdit, c: Change)
    requires f < |p.edits| == |p.changes| == |w.files| && !NoOverlap(p.edits[f] + [e])
    requires LeadRight(w.files[f].data, p.edits[f], c)
    ensures AddsThis(w, p, t, f, e, c, p, Some(Overlapping))
  {
    hide NoOverlap, LeadRight;
  }

  lemma ExtendedIs(p: Contents, f: nat, e: TextEdit, c: Change, name: string, q: Contents)
    requires f < |p.edits| == |p.changes|
    requires q.edits == p.edits[f := p.edits[f] + [e]] && q.changes == p.changes[f := p.changes[f] + [c]]
    requires q.vars == p.vars[name := VarEdit(c.value, f, |p.edits[f]|)]
    ensures q == Extended(p, f, e, c, name)
  {
  }

  lemma MakesFits(w: Setting, t: Target, svc: string, f: nat, e: TextEdit, c: Change)
    requires Makes(w, t, svc, f, e, c)
    ensures f < |w.files| && Fits(w, f, e, c) && TargetOf(BindingsAt(w, f), c) == t.name && c.value == t.value
  {
    hide Fits, TargetOf, BindingsAt;
  }

  // ---- what planning keeps ---------------------------------------------------------------

  lemma EmptyHolds(w: Setting)
    ensures PlanInvariant(w, EmptyPlan(w))
  {
    assert EmptyPlan(w).edits == seq(|w.files|, _ => []);
  }

  lemma ExtendHolds(w: Setting, p: Contents, f: nat, e: TextEdit, c: Change, name: string)
    requires PlanInvariant(w, p) && name !in p.vars && f < |w.files| && Fits(w, f, e, c)
    requires TargetOf(BindingsAt(w, f), c) == name
    requires Written(w, name) && Writable(c.value) && NoOverlap(p.edits[f] + [e])
    requires |p.edits| == |p.changes| == |w.files| && LeadRight(w.files[f].data, p.edits[f], c)
    ensures PlanInvariant(w, Extended(p, f, e, c, name))
  {
    hide AllLeadsRight, LeadRight, Recorded, HasEdit, Fits, TargetOf, Written, Writable, NoOverlap, BindingsAt;
    var q := Extended(p, f, e, c, name);
    ExtendShape(w, p, f, e, c, name);
    forall g, k | 0 <= g < |q.changes| && 0 <= k < |q.changes[g]|
      ensures Recorded(w, q.vars, g, k, q.edits[g][k], q.changes[g][k])
    {
      if g != f || k < |p.changes[f]| {
        assert Recorded(w, p.vars, g, k, p.edits[g][k], p.changes[g][k]);
        StillRecorded(w, p.vars, g, k, p.edits[g][k], p.changes[g][k], name, q.vars[name]);
      } else {
        NewRecorded(w, q.vars, f, k, e, c, name);
      }
    }
    forall n | n in q.vars
      ensures HasEdit(w, q, n)
    {
      if n != name {
        StillHasEdit(w, p, f, e, c, name, n);
      } else {
        NewHasEdit(w, p, f, e, c, name);
      }
    }
  }

  lemma ExtendShape(w: Setting, p: Contents, f: nat, e: TextEdit, c: Change, name: string)
    requires SameShape(w, p) && f < |w.files| && NoOverlap(p.edits[f] + [e]) && LeadRight(w.files[f].data, p.edits[f], c)
    ensures SameShape(w, Extended(p, f, e, c, name))
  {
    hide NoOverlap, AllLeadsRight, LeadRight;
    LeadsExtended(w.files[f].data, p.edits[f], p.changes[f], e, c);
  }

  lemma LeadsExtended(data: string, edits: seq<TextEdit>, cs: seq<Change>, e: TextEdit, c: Change)
    requires AllLeadsRight(data, edits, cs) && LeadRight(data, edits, c)
    ensures AllLeadsRight(data, edits + [e], cs + [c])
  {
    hide LeadRight;
    forall k | 0 <= k < |cs + [c]|
      ensures LeadRight(data, (edits + [e])[..k], (cs + [c])[k])
    {
      assert (edits + [e])[..k] == edits[..k];
      if k == |cs| { assert edits[..k] == edits; }
    }
  }

  lemma StillRecorded(w: Setting, vars: map<string, VarEdit>, g: nat, k: nat, e: TextEdit, c: Change, name: string, v: VarEdit)
    requires g < |w.files| && Recorded(w, vars, g, k, e, c) && name !in vars
    ensures Recorded(w, vars[name := v], g, k, e, c)
  {
    hide Fits, TargetOf, BindingsAt;
  }

  lemma NewRecorded(w: Setting, vars: map<string, VarEdit>, f: nat, k: nat, e: TextEdit, c: Change, name: string)
    requires f < |w.files| && Fits(w, f, e, c) && TargetOf(BindingsAt(w, f), c) == name
    requires name in vars && vars[name] == VarEdit(c.value, f, k)
    ensures Recorded(w, vars, f, k, e, c)
  {
    hide Fits, TargetOf, BindingsAt;
  }

  lemma StillHasEdit(w: Setting, p: Contents, f: nat, e: TextEdit, c: Change, name: string, n: string)
    requires f < |w.files| == |p.edits| == |p.changes| && n != name && n in p.vars && HasEdit(w, p, n)
    ensures HasEdit(w, Extended(p, f, e, c, name), n)
  {
    hide TargetOf, BindingsAt, Written, Writable;
  }

  lemma NewHasEdit(w: Setting, p: Contents, f: nat, e: TextEdit, c: Change, name: string)
    requires f < |w.files| == |p.edits| == |p.changes| && |p.edits[f]| == |p.changes[f]|
    requires TargetOf(BindingsAt(w, f), c) == name && Written(w, name) && Writable(c.value)
    ensures HasEdit(w, Extended(p, f, e, c, name), name)
  {
    hide TargetOf, BindingsAt, Written, Writable;
  }

  lemma ShareHolds(w: Setting, p: Contents, name: string, svc: string)
    requires PlanInvariant(w, p) && name in p.vars
    ensures Positioned(p, name) && PlanInvariant(w, Shared(p, name, svc))
  {
    hide Recorded, HasEdit, NoOverlap, BindingsAt;
    HasEditIsPositioned(w, p, name);
    var q := Shared(p, name, svc);
    ShareShape(w, p, name, svc);
    forall g, k | 0 <= g < |q.changes| && 0 <= k < |q.changes[g]|
      ensures Recorded(w, q.vars, g, k, q.edits[g][k], q.changes[g][k])
    {
      assert Recorded(w, p.vars, g, k, p.edits[g][k], p.changes[g][k]);
      OwnerRecorded(w, p.vars, g, k, p.edits[g][k], p.changes[g][k], svc);
    }
    forall n | n in q.vars
      ensures HasEdit(w, q, n)
    {
      ShareHasEdit(w, p, name, svc, n);
    }
  }

  lemma HasEditIsPositioned(w: Setting, p: Contents, name: string)
    requires SameShape(w, p) && name in p.vars && HasEdit(w, p, name)
    ensures Positioned(p, name)
  {
    hide NoOverlap, BindingsAt, Written;
  }

  ghost predicate Positioned(p: Contents, name: string) {
    && name in p.vars
    && var v := p.vars[name]; v.file < |p.edits| == |p.changes| && v.edit < |p.edits[v.file]| == |p.changes[v.file]|
  }

  lemma ShareShape(w: Setting, p: Contents, name: string, svc: string)
    requires SameShape(w, p) && Positioned(p, name)
    ensures SameShape(w, Shared(p, name, svc))
  {
    var v := p.vars[name];
    var edits, after := p.edits[v.file], Shared(p, name, svc).edits[v.file];
    assert forall i :: 0 <= i < |edits| ==> after[i].start == edits[i].start && after[i].end == edits[i].end;
    assert NoOverlap(edits);
    forall i, j | 0 <= i < j < |after|
      ensures !Overlap(after[i], after[j])
    {
      assert !Overlap(edits[i], edits[j]);
    }
    LeadsShared(w.files[v.file].data, edits, p.changes[v.file], after, Shared(p, name, svc).changes[v.file]);
    hide AllLeadsRight, Overlap;
  }

  lemma LeadsShared(data: string, edits: seq<TextEdit>, cs: seq<Change>, edits': seq<TextEdit>, cs': seq<Change>)
    requires AllLeadsRight(data, edits, cs) && |edits'| == |edits| && |cs'| == |cs|
    requires forall i :: 0 <= i < |edits| ==> edits'[i].start == edits[i].start
    requires forall i :: 0 <= i < |cs| ==> cs'[i] == cs[i] || cs'[i] == cs[i].(owners := cs'[i].owners)
    ensures AllLeadsRight(data, edits', cs')
  {
    hide LineEnding;
    forall k | 0 <= k < |cs'|
      ensures LeadRight(data, edits'[..k], cs'[k])
    {
      assert LeadRight(data, edits[..k], cs[k]);
      SameGlues(data, edits[..k], edits'[..k]);
    }
  }

  lemma SameGlues(data: string, edits: seq<TextEdit>, edits': seq<TextEdit>)
    requires |edits'| == |edits| && forall i :: 0 <= i < |edits| ==> edits'[i].start == edits[i].start
    ensures Glues(data, edits') <==> Glues(data, edits)
  {
    forall k | 0 <= k < |edits|
      ensures edits[k].start == |data| <==> edits'[k].start == |data|
    {
    }
  }

  lemma OwnerRecorded(w: Setting, vars: map<string, VarEdit>, g: nat, k: nat, e: TextEdit, c: Change, svc: string)
    requires g < |w.files| && Recorded(w, vars, g, k, e, c)
    ensures Recorded(w, vars, g, k, e.(owners := e.owners + [svc]), c.(owners := c.owners + [svc]))
  {
    hide TargetOf, BindingsAt, Fits;
    FitsWithOwner(w, g, e, c, svc);
  }

  lemma FitsWithOwner(w: Setting, f: nat, e: TextEdit, c: Change, svc: string)
    requires Fits(w, f, e, c)
    ensures f < |w.files|
    ensures Fits(w, f, e.(owners := e.owners + [svc]), c.(owners := c.owners + [svc]))
    ensures TargetOf(BindingsAt(w, f), c.(owners := c.owners + [svc])) == TargetOf(BindingsAt(w, f), c)
  {
    hide FitsSet, FitsDeclare, BindingsAt, Bs, LastAssignment, Unassigned, Position;
    match c
    case SetValue(i, v, owners) => SetWithOwner(w, f, e, i, v, owners, svc);
    case Declare(i, at, name, v, lead, eol, owners) => DeclareWithOwner(w, f, e, i, at, name, v, lead, eol, owners, svc);
  }

  lemma SetWithOwner(w: Setting, f: nat, e: TextEdit, i: nat, v: string, owners: seq<string>, svc: string)
    requires f < |w.files| && FitsSet(w, f, e, SetValue(i, v, owners))
    ensures FitsSet(w, f, e.(owners := e.owners + [svc]), SetValue(i, v, owners + [svc]))
  {
    hide StatementsOf;
  }

  lemma DeclareWithOwner(w: Setting, f: nat, e: TextEdit, i: nat, at: nat, name: string, v: string, lead: string, eol: string,
                         owners: seq<string>, svc: string)
    requires f < |w.files| && FitsDeclare(w, f, e, Declare(i, at, name, v, lead, eol, owners))
    ensures FitsDeclare(w, f, e.(owners := e.owners + [svc]), Declare(i, at, name, v, lead, eol, owners + [svc]))
  {
    hide StatementsOf, WellPlaced, IndexAt, ValidName, LineEnding, DeclarationLine;
  }

  lemma ShareHasEdit(w: Setting, p: Contents, name: string, svc: string, n: string)
    requires |w.files| == |p.edits| == |p.changes| && Positioned(p, name) && n in p.vars && HasEdit(w, p, n)
    ensures HasEdit(w, Shared(p, name, svc), n)
  {
    hide BindingsAt, Written, Writable;
  }

  // ---- the loops of assignmentFor ------------------------------------------------------

  ghost predicate LoopState(w: Setting, name: string, n: nat, declared: set<string>, last: Option<(nat, nat)>, stmt: Statement) {
    && LastOf(w, name, n, last)
    && declared == DeclaredKeys(w.process, Bs(w), n)
    && (last.Some? ==> IsStatement(w, last.value.0, last.value.1, stmt))
  }

  lemma LoopStart(w: Setting, name: string)
    ensures LoopState(w, name, Position(w, 0, 0), {}, None, NO_STATEMENT)
  {
    hide BindingsAt, Bs;
  }

  lemma MissingFileRefused(w: Setting, name: string, f: nat)
    requires w.listed && f < |w.files| && (forall g :: 0 <= g < f ==> Unreadable(w, g).None?)
    requires !w.files[f].existed
    ensures AssignmentOf(w, name) == Refused(MissingFile)
  {
    RefusedAt(w, name, f);
  }

  lemma UnparsedRefused(w: Setting, name: string, f: nat)
    requires w.listed && f < |w.files| && (forall g :: 0 <= g < f ==> Unreadable(w, g).None?)
    requires w.files[f].existed && w.sc.ScanFile(w.files[f].data).Err?
    ensures AssignmentOf(w, name) == Refused(Unparsed(w.sc.ScanFile(w.files[f].data).error))
  {
    RefusedAt(w, name, f);
  }

  lemma ParsedReadable(w: Setting, f: nat)
    requires f < |w.files| && w.files[f].existed && w.sc.ScanFile(w.files[f].data).Ok?
    ensures Unreadable(w, f).None?
  {
  }

  lemma ReadAll(w: Setting, f: nat, sts: seq<Statement>)
    requires f < |w.files| && w.sc.ScanFile(w.files[f].data) == Ok(sts)
    ensures |sts| == |BindingsAt(w, f)|
  {
    ReadStatements(w, f, sts);
  }

  /** A bare line that declares nothing. */
  predicate Skipped(w: Setting, st: Statement, declared: set<string>) {
    st.inherited && st.key !in w.process && st.key !in declared
  }

  lemma LoopNext(w: Setting, name: string, f: nat, i: nat, st: Statement,
                 declared: set<string>, last: Option<(nat, nat)>, stmt: Statement)
    requires IsStatement(w, f, i, st) && LoopState(w, name, Position(w, f, i), declared, last, stmt)
    ensures Position(w, f, i + 1) == Position(w, f, i) + 1
    ensures Skipped(w, st, declared) ==> LoopState(w, name, Position(w, f, i + 1), declared, last, stmt)
    ensures !Skipped(w, st, declared) && st.key == name ==>
      LoopState(w, name, Position(w, f, i + 1), declared + {st.key}, Some((f, i)), st)
    ensures !Skipped(w, st, declared) && st.key != name ==>
      LoopState(w, name, Position(w, f, i + 1), declared + {st.key}, last, stmt)
  {
    hide LastOf, BindingsAt, Declaring, DeclaredKeys, Bs, StatementsOf;
    LastNext(w, name, Position(w, f, i), last, f, i);
    DeclaredNext(w.process, Bs(w), Position(w, f, i));
  }

  lemma LoopEnd(w: Setting, name: string, declared: set<string>, last: Option<(nat, nat)>, stmt: Statement)
    requires ValidSetting(w) && w.listed && (forall g :: 0 <= g < |w.files| ==> Unreadable(w, g).None?)
    requires LoopState(w, name, Position(w, |w.files|, 0), declared, last, stmt)
    ensures AssignmentOf(w, name) ==
      match last
      case Some(p) => if stmt.inherited then Refused(InheritedLine) else Done(Assigned(p.0, p.1))
      case None => Done(Undeclared(|w.files| - 1))
    ensures last.Some? ==> IsStatement(w, last.value.0, last.value.1, stmt)
  {
    hide BindingsAt, LastOf, AssignmentOf, Bs, Position;
    AfterAll(w);
    ReadUpTo(w, |w.files|);
    LastIsTaken(w, name, last);
  }
}
