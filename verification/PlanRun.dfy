/**
  A whole plan, made for one service after another from the empty one: what it sets,
  for whom, and what stays of it on disk through every revert.
 */
module PlanRuns {
  import opened Text
  import opened EnvScan
  import opened EnvEdit
  import opened EnvInsert
  import opened TextEdits
  import opened EnvRewrite
  import opened EnvFile
  import opened EnvTail
  import opened EnvEval
  import opened EnvProject
  import opened EnvTemplates
  import opened EnvPlan
  import opened WritePlans
  import opened PlanOutcome
  import opened PlanImages

  // ---- what one more variable keeps -----------------------------------------------------

  lemma PlansVarKeeps(w: Setting, p: Contents, c: Call, q: Contents)
    requires PlanInvariant(w, p) && ValidName(c.name) && PlansVar(w, p, c.name, c.value, c.svc, c.current, 0, q, None)
    ensures PlanInvariant(w, q)
  {
    hide PlanInvariant, Follow, AddsThis, Makes, Written, Writable, Shared, Positioned, ValidName, Extended;
    FollowedIsWritten(w, c.name, c.value, c.current, 0);
    var t := Follow(w, c.name, c.value, c.current, 0).value;
    if t.name in p.vars {
      ShareHolds(w, p, t.name, c.svc);
    } else {
      var f, e, d :| Makes(w, t, c.svc, f, e, d) && AddsThis(w, p, t, f, e, d, q, None);
      AddedHolds(w, p, t, c.svc, f, e, d, q);
    }
  }

  lemma AddedHolds(w: Setting, p: Contents, t: Target, svc: string, f: nat, e: TextEdit, d: Change, q: Contents)
    requires PlanInvariant(w, p) && Makes(w, t, svc, f, e, d) && AddsThis(w, p, t, f, e, d, q, None)
    requires t.name !in p.vars && Written(w, t.name) && Writable(t.value)
    ensures PlanInvariant(w, q)
  {
    hide PlanInvariant, Makes, Written, Writable, NoOverlap, LeadRight;
    MakesFits(w, t, svc, f, e, d);
    Added(w, p, t, svc, f, e, d, q);
  }

  /** Every value of a plan is in the image alphabet. */
  ghost predicate SafePlan(p: Contents) {
    forall f, k :: 0 <= f < |p.changes| && 0 <= k < |p.changes[f]| ==> SafeValue(p.changes[f][k].value)
  }

  lemma PlansVarIsSafe(w: Setting, p: Contents, c: Call, q: Contents)
    requires SafePlan(p) && SafeValue(c.value) && RefusesEmptyTags(w.grammar)
    requires PlansVar(w, p, c.name, c.value, c.svc, c.current, 0, q, None)
    ensures SafePlan(q)
  {
    hide Follow, Fits, TargetOf, BindingsAt, SafeValue, RefusesEmptyTags, NoOverlap, LeadRight;
    FollowedIsSafe(w, c.name, c.value, c.current, 0);
  }

  /** `name` is planned at `value`, and `svc` needs its edit. */
  ghost predicate SetFor(p: Contents, name: string, value: string, svc: string) {
    && Positioned(p, name)
    && var v := p.vars[name]; v.value == value && svc in p.changes[v.file][v.edit].owners
  }

  /** Nothing planned is lost. */
  ghost predicate SetsMore(p: Contents, q: Contents) {
    forall name, value, svc :: SetFor(p, name, value, svc) ==> SetFor(q, name, value, svc)
  }

  lemma PlansVarSets(w: Setting, p: Contents, c: Call, q: Contents)
    requires PlanInvariant(w, p) && PlansVar(w, p, c.name, c.value, c.svc, c.current, 0, q, None)
    ensures Follow(w, c.name, c.value, c.current, 0).Done?
    ensures var t := Follow(w, c.name, c.value, c.current, 0).value; SetFor(q, t.name, t.value, c.svc)
    ensures SetsMore(p, q)
  {
    hide Follow, Fits, TargetOf, BindingsAt, NoOverlap, LeadRight, PlanInvariant, SetsMore, Shared, Extended, Positioned, SetFor;
    InvariantLengths(w, p);
    var t := Follow(w, c.name, c.value, c.current, 0).value;
    if t.name in p.vars {
      SharedSets(p, t.name, c.svc);
    } else {
      var f, e, d :| Makes(w, t, c.svc, f, e, d) && AddsThis(w, p, t, f, e, d, q, None);
      ExtendedSets(p, f, e, d, t.name, c.svc);
    }
  }

  lemma SharedSets(p: Contents, name: string, svc: string)
    requires Positioned(p, name)
    ensures SetFor(Shared(p, name, svc), name, p.vars[name].value, svc) && SetsMore(p, Shared(p, name, svc))
  {
    var q := Shared(p, name, svc);
    forall n, value, other | SetFor(p, n, value, other)
      ensures SetFor(q, n, value, other)
    {
      var v := p.vars[n];
      assert forall o :: o in p.changes[v.file][v.edit].owners ==> o in q.changes[v.file][v.edit].owners;
    }
  }

  lemma ExtendedSets(p: Contents, f: nat, e: TextEdit, d: Change, name: string, svc: string)
    requires f < |p.edits| == |p.changes| && |p.edits[f]| == |p.changes[f]| && name !in p.vars && d.owners == [svc]
    ensures SetFor(Extended(p, f, e, d, name), name, d.value, svc) && SetsMore(p, Extended(p, f, e, d, name))
  {
    var q := Extended(p, f, e, d, name);
    assert svc in d.owners;
    forall n, value, other | SetFor(p, n, value, other)
      ensures SetFor(q, n, value, other)
    {
      var v := p.vars[n];
      assert q.changes[v.file][v.edit] == p.changes[v.file][v.edit];
    }
  }

  lemma InvariantLengths(w: Setting, p: Contents)
    requires PlanInvariant(w, p)
    ensures |p.edits| == |p.changes| == |w.files| && forall f :: 0 <= f < |p.edits| ==> |p.edits[f]| == |p.changes[f]|
  {
    hide NoOverlap, AllLeadsRight, Recorded, HasEdit;
  }

  /** Every service that owns an edit was planned for. */
  ghost predicate OwnedBy(p: Contents, services: set<string>) {
    forall f, k :: 0 <= f < |p.edits| && 0 <= k < |p.edits[f]| ==> forall o :: o in p.edits[f][k].owners ==> o in services
  }

  lemma PlansVarOwners(w: Setting, p: Contents, c: Call, q: Contents, services: set<string>)
    requires PlanInvariant(w, p) && PlansVar(w, p, c.name, c.value, c.svc, c.current, 0, q, None)
    requires OwnedBy(p, services) && c.svc in services
    ensures OwnedBy(q, services)
  {
    hide PlanInvariant, Follow, NoOverlap, LeadRight, Fits, TargetOf, BindingsAt;
    var t := Follow(w, c.name, c.value, c.current, 0).value;
    if t.name !in p.vars {
      var f, e, d :| Makes(w, t, c.svc, f, e, d) && AddsThis(w, p, t, f, e, d, q, None);
      FitsOwned(w, f, e, d);
    }
  }

  // ---- the run ---------------------------------------------------------------------------

  predicate SafeCalls(calls: seq<Call>) {
    forall i :: 0 <= i < |calls| ==> ValidName(calls[i].name) && SafeValue(calls[i].value)
  }

  function Services(calls: seq<Call>): set<string> {
    set i | 0 <= i < |calls| :: calls[i].svc
  }

  ghost function TargetFor(w: Setting, c: Call): Decision<Target> {
    Follow(w, c.name, c.value, c.current, 0)
  }

  ghost predicate AllSet(w: Setting, p: Contents, calls: seq<Call>) {
    forall i :: 0 <= i < |calls| ==>
      TargetFor(w, calls[i]).Done? && SetFor(p, TargetFor(w, calls[i]).value.name, TargetFor(w, calls[i]).value.value, calls[i].svc)
  }

  /** What a plan for some services is: one safe change a variable, and each service's variable set. */
  ghost predicate PlanFor(w: Setting, p: Contents, calls: seq<Call>) {
    PlanInvariant(w, p) && SafePlan(p) && OwnedBy(p, Services(calls)) && AllSet(w, p, calls)
  }

  lemma {:induction false} RunPlans(w: Setting, plans: seq<Contents>, calls: seq<Call>)
    requires PlannedInTurn(w, plans, calls) && plans[0] == EmptyPlan(w) && SafeCalls(calls) && RefusesEmptyTags(w.grammar)
    ensures PlanFor(w, plans[|calls|], calls)
    decreases |calls|
  {
    hide *;
    if calls == [] {
      EmptyHolds(w);
      EmptyIsSafe(w);
      RunLength(w, plans, calls);
    } else {
      var n := |calls| - 1;
      RunFront(w, plans, calls);
      RunPlans(w, plans[..|calls|], calls[..n]);
      assert plans[..|calls|][n] == plans[n];
      NextPlanFor(w, plans[n], calls[..n], calls[n], plans[n + 1]);
      assert calls[..n] + [calls[n]] == calls;
    }
  }

  lemma EmptyIsSafe(w: Setting)
    ensures SafePlan(EmptyPlan(w)) && OwnedBy(EmptyPlan(w), Services([])) && AllSet(w, EmptyPlan(w), [])
    ensures PlanInvariant(w, EmptyPlan(w)) ==> PlanFor(w, EmptyPlan(w), [])
  {
    hide PlanInvariant;
  }

  lemma RunLength(w: Setting, plans: seq<Contents>, calls: seq<Call>)
    requires PlannedInTurn(w, plans, calls)
    ensures |plans| == |calls| + 1
  {
    hide PlansVar;
  }

  lemma RunFront(w: Setting, plans: seq<Contents>, calls: seq<Call>)
    requires PlannedInTurn(w, plans, calls) && calls != [] && SafeCalls(calls)
    ensures |plans| == |calls| + 1 && PlannedInTurn(w, plans[..|calls|], calls[..|calls| - 1]) && SafeCalls(calls[..|calls| - 1])
    ensures plans[..|calls|][0] == plans[0]
    ensures var c := calls[|calls| - 1];
      ValidName(c.name) && SafeValue(c.value)
      && PlansVar(w, plans[|calls| - 1], c.name, c.value, c.svc, c.current, 0, plans[|calls|], None)
  {
    hide PlansVar, ValidName, SafeValue;
  }

  lemma NextPlanFor(w: Setting, p: Contents, calls: seq<Call>, c: Call, q: Contents)
    requires PlanFor(w, p, calls) && RefusesEmptyTags(w.grammar) && ValidName(c.name) && SafeValue(c.value)
    requires PlansVar(w, p, c.name, c.value, c.svc, c.current, 0, q, None)
    ensures PlanFor(w, q, calls + [c])
  {
    hide *;
    PlanForParts(w, p, calls);
    PlansVarKeeps(w, p, c, q);
    PlansVarIsSafe(w, p, c, q);
    PlansVarSets(w, p, c, q);
    MoreServices(p, calls, c);
    PlansVarOwners(w, p, c, q, Services(calls + [c]));
    MoreSet(w, p, calls, c, q);
    PlanForIs(w, q, calls + [c]);
  }

  lemma PlanForParts(w: Setting, p: Contents, calls: seq<Call>)
    requires PlanFor(w, p, calls)
    ensures PlanInvariant(w, p) && SafePlan(p) && OwnedBy(p, Services(calls)) && AllSet(w, p, calls)
  {
    hide PlanInvariant, SafePlan, OwnedBy, AllSet;
  }

  lemma PlanForIs(w: Setting, p: Contents, calls: seq<Call>)
    requires PlanInvariant(w, p) && SafePlan(p) && OwnedBy(p, Services(calls)) && AllSet(w, p, calls)
    ensures PlanFor(w, p, calls)
  {
    hide PlanInvariant, SafePlan, OwnedBy, AllSet;
  }

  lemma MoreServices(p: Contents, calls: seq<Call>, c: Call)
    requires OwnedBy(p, Services(calls))
    ensures OwnedBy(p, Services(calls + [c])) && c.svc in Services(calls + [c])
  {
    assert forall i :: 0 <= i < |calls| ==> (calls + [c])[i] == calls[i];
    assert (calls + [c])[|calls|] == c;
  }

  lemma MoreSet(w: Setting, p: Contents, calls: seq<Call>, c: Call, q: Contents)
    requires AllSet(w, p, calls)
    requires Follow(w, c.name, c.value, c.current, 0).Done?
    requires var t := Follow(w, c.name, c.value, c.current, 0).value; SetFor(q, t.name, t.value, c.svc)
    requires SetsMore(p, q)
    ensures AllSet(w, q, calls + [c])
  {
    hide Follow, SetFor;
    assert forall i :: 0 <= i < |calls| ==> (calls + [c])[i] == calls[i];
  }

  // ---- what the run sets --------------------------------------------------------------------

  /** No declaration above a first use goes inside a quoted value. */
  ghost predicate CleanPlaces(w: Setting, p: Contents)
    requires |p.changes| == |w.files|
  {
    forall f, k :: 0 <= f < |p.changes| && 0 <= k < |p.changes[f]| ==> CleanPlace(w, f, p.changes[f][k])
  }

  ghost predicate CleanPlace(w: Setting, f: nat, c: Change)
    requires f < |w.files|
  {
    c.Declare? && !IsAppend(BodyOf(w.files[f].data), c) ==> Clean(w, f, c.at)
  }

  lemma SafeIsClean(w: Setting, p: Contents)
    requires |p.changes| == |w.files| && SafePlan(p) && CleanPlaces(w, p)
    ensures CleanPlan(w, p)
  {
    hide Clean, SafeValue, IsAppend;
    forall f, k | 0 <= f < |p.changes| && 0 <= k < |p.changes[f]|
      ensures CleanChange(w, f, p.changes[f][k])
    {
      assert CleanPlace(w, f, p.changes[f][k]);
    }
  }

  /**
    The variable a service's image is taken from gives the image asked for, through every
    template: always when there is no tag template among them, and else exactly when the
    current image is spelled as that template says, whatever its repository expands to.
   */
  ghost predicate GivesImage(w: Setting, c: Call, after: Environment) {
    forall front: string -> string ::
      Expansion(after, front, c.name, MAX_TEMPLATE_DEPTH) == Some(c.value) <==>
        CurrentSpelt(w.grammar, EnvBefore(w), front, c.name, c.current, MAX_TEMPLATE_DEPTH)
  }

  /** A service's chain of templates ends at a variable with its value, and gives its image back. */
  ghost predicate ServiceSet(w: Setting, c: Call, after: Environment) {
    && TargetFor(w, c).Done?
    && HasValue(after, TargetFor(w, c).value.name, TargetFor(w, c).value.value)
    && GivesImage(w, c, after)
  }

  /** Each service outside `reverted` has its image. */
  ghost predicate ServicesSet(w: Setting, calls: seq<Call>, reverted: set<string>, after: Environment) {
    forall i :: 0 <= i < |calls| && calls[i].svc !in reverted ==> ServiceSet(w, calls[i], after)
  }

  lemma VariablesServe(w: Setting, p: Contents, calls: seq<Call>, reverted: set<string>, after: Environment)
    requires PlanInvariant(w, p) && AllSet(w, p, calls) && SafeCalls(calls) && SetsVariables(p, reverted, EnvBefore(w), after)
    ensures ServicesSet(w, calls, reverted, after)
  {
    hide *;
    hide ServiceSet;
    TemplatesAreKept(w, p, reverted, after);
    forall i | 0 <= i < |calls| && calls[i].svc !in reverted
      ensures ServiceSet(w, calls[i], after)
    {
      CallIsSet(w, p, calls, reverted, after, i);
      ServiceIsSet(w, calls[i], after);
    }
    ServicesAreSet(w, calls, reverted, after);
  }

  lemma ServicesAreSet(w: Setting, calls: seq<Call>, reverted: set<string>, after: Environment)
    requires forall i :: 0 <= i < |calls| && calls[i].svc !in reverted ==> ServiceSet(w, calls[i], after)
    ensures ServicesSet(w, calls, reverted, after)
  {
    hide ServiceSet;
  }

  lemma CallIsSet(w: Setting, p: Contents, calls: seq<Call>, reverted: set<string>, after: Environment, i: nat)
    requires AllSet(w, p, calls) && SafeCalls(calls) && SetsVariables(p, reverted, EnvBefore(w), after)
    requires i < |calls| && calls[i].svc !in reverted
    ensures TargetFor(w, calls[i]).Done? && ValidName(calls[i].name)
    ensures HasValue(after, TargetFor(w, calls[i]).value.name, TargetFor(w, calls[i]).value.value)
  {
    hide TargetFor, HasValue, SameAt, EnvBefore, ValidName;
    assert StaysSet(p, TargetFor(w, calls[i]).value.name, reverted);
  }

  lemma ServiceIsSet(w: Setting, c: Call, after: Environment)
    requires TargetFor(w, c).Done? && ValidName(c.name) && TemplatesStay(w, after)
    requires HasValue(after, TargetFor(w, c).value.name, TargetFor(w, c).value.value)
    ensures ServiceSet(w, c, after)
  {
    hide Follow, HasValue, ValidName, TemplatesStay, Expansion, CurrentSpelt, EnvBefore;
    forall front: string -> string
      ensures Expansion(after, front, c.name, MAX_TEMPLATE_DEPTH) == Some(c.value) <==>
        CurrentSpelt(w.grammar, EnvBefore(w), front, c.name, c.current, MAX_TEMPLATE_DEPTH)
    {
      ChainComesBack(w, front, c.name, c.value, c.current, 0, TargetFor(w, c).value, after);
    }
  }

  /** No plan sets a variable that holds a template. */
  lemma TemplatesAreKept(w: Setting, p: Contents, reverted: set<string>, after: Environment)
    requires PlanInvariant(w, p) && SetsVariables(p, reverted, EnvBefore(w), after)
    ensures TemplatesStay(w, after)
  {
    hide TemplateOf, HasValue, SameAt, EnvBefore, PlanInvariant;
    forall name | name !in w.process && TemplateOf(w, name).Some?
      ensures SameAt(after, EnvBefore(w), name)
    {
      if name in p.vars {
        PlannedIsLiteral(w, p, name);
      }
    }
  }

  lemma PlannedIsLiteral(w: Setting, p: Contents, name: string)
    requires PlanInvariant(w, p) && name in p.vars
    ensures TemplateOf(w, name).None?
  {
    hide TemplateOf, SameShape, Recorded, BindingsAt, TargetOf, Writable;
    assert HasEdit(w, p, name);
  }

  lemma BeforeNow(w: Setting)
    ensures EnvBefore(w) == Eval(w.process, Flatten(AllBindings(w)))
  {
    hide Eval, Flatten, AllBindings;
  }

  /**
    Put-get for a run: images in docker's alphabet, planned for their services one after
    another, then the edits applied that some service outside `reverted` needs. Every
    file scans; the variable each service outside `reverted` takes its image from gives
    that image through its templates, and no key changes but those the plan sets.
   */
  lemma RunSetsVariables(w: Setting, plans: seq<Contents>, calls: seq<Call>, reverted: set<string>, texts: seq<string>)
    returns (bss: seq<seq<Binding>>)
    requires ValidSetting(w) && FirstUnreadable(w, 0).None? && RefusesEmptyTags(w.grammar)
    requires PlannedInTurn(w, plans, calls) && plans[0] == EmptyPlan(w) && SafeCalls(calls)
    requires var p := plans[|calls|];
      && |p.changes| == |p.edits| == |w.files| == |texts| && CleanPlaces(w, p) && EndsHold(w, p, reverted)
      && forall f :: 0 <= f < |texts| ==> WrittenAs(w.files[f].data, KeptEdits(p.edits[f], reverted), texts[f])
    ensures |bss| == |texts| && forall f :: 0 <= f < |texts| ==> FileBindings(w.sc, texts[f]) == Ok(bss[f])
    ensures var before, after := Eval(w.process, Flatten(AllBindings(w))), Eval(w.process, Flatten(bss));
      SetsVariables(plans[|calls|], reverted, before, after) && ServicesSet(w, calls, reverted, after)
  {
    hide *;
    RunLength(w, plans, calls);
    var p := plans[|calls|];
    RunPlans(w, plans, calls);
    PlanForParts(w, p, calls);
    SafeIsClean(w, p);
    bss := PlanSetsVariables(w, p, reverted, texts);
    BeforeNow(w);
    VariablesServe(w, p, calls, reverted, Eval(w.process, Flatten(bss)));
  }
}
