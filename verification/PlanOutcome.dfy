/**
  What a finished plan does. When every value is in the image alphabet and no
  declaration goes inside a quoted value, the edits of each file are those of its
  changes; and when the end of each file holds what is appended to it, the files they
  leave give the original environment with exactly the planned variables set.
 */
module PlanOutcome {
  import opened Text
  import opened EnvScan
  import opened EnvEdit
  import opened EnvEnd
  import opened EnvInsert
  import opened EnvAppend
  import opened TextEdits
  import opened EnvRewrite
  import opened EnvFile
  import opened EnvTail
  import opened EnvPlacement
  import opened EnvEval
  import opened EnvProject
  import opened EnvPlan
  import opened WritePlans
  import opened ImageWrites

  ghost predicate CleanChange(w: Setting, f: nat, c: Change)
    requires f < |w.files|
  {
    SafeValue(c.value) && (c.Declare? && !IsAppend(BodyOf(w.files[f].data), c) ==> Clean(w, f, c.at))
  }

  /**
    What a caller can check of a plan on the original files: values are in the image
    alphabet, and no declaration above a first use goes inside a quoted value.
   */
  ghost predicate CleanPlan(w: Setting, p: Contents)
    requires |p.changes| == |w.files|
  {
    forall f, k :: 0 <= f < |p.changes| && 0 <= k < |p.changes[f]| ==> CleanChange(w, f, p.changes[f][k])
  }

  ghost function FilePlans(w: Setting, p: Contents): (r: seq<FilePlan>)
    requires |p.changes| == |w.files|
    ensures |r| == |w.files|
    ensures forall f :: 0 <= f < |r| ==> r[f] == FilePlan(w.files[f].data, StatementsOf(w, f), p.changes[f])
  {
    seq(|w.files|, f requires 0 <= f < |w.files| => FilePlan(w.files[f].data, StatementsOf(w, f), p.changes[f]))
  }

  /** Whether the end of every file holds what a revert of `reverted` leaves appended to it. */
  ghost predicate EndsHold(w: Setting, p: Contents, reverted: set<string>)
    requires |p.changes| == |w.files|
  {
    forall f :: 0 <= f < |w.files| ==> EndHolds(w.sc, FilePlans(w, p)[f], reverted)
  }

  lemma FitsIsPlannable(w: Setting, f: nat, e: TextEdit, c: Change)
    requires f < |w.files| && Fits(w, f, e, c) && CleanChange(w, f, c)
    requires ValidSetting(w) && FirstUnreadable(w, 0).None?
    ensures Plannable(w.sc, BodyOf(w.files[f].data), StatementsOf(w, f), c)
    ensures e == ShiftEdit(EditOf(StatementsOf(w, f), c), |MarkOf(w.files[f].data)|)
  {
    hide StatementsOf, Effective, WellPlaced, FirstUnreadable, SafeValue, ValidName, InsertOk, Slot, LineEnding, ValidSetting, Clean;
    if c.Declare? {
      DeclarationIndex(w, f, c.at);
    }
  }

  lemma GlobalTargetIs(w: Setting, f: nat, c: Change)
    requires f < |w.files| && c.index <= |BindingsAt(w, f)| && (c.SetValue? ==> c.index < |BindingsAt(w, f)|)
    ensures TargetOf(Bs(w), ShiftChange(c, Position(w, f, 0))) == TargetOf(BindingsAt(w, f), c)
    ensures SourceOf(Bs(w), ShiftChange(c, Position(w, f, 0))) == SourceOf(BindingsAt(w, f), c)
  {
    if c.SetValue? {
      hide BindingsAt, Bs;
      AtInside(w, f, c.index);
    }
  }

  lemma ChangeInside(w: Setting, f: nat, e: TextEdit, c: Change)
    requires Fits(w, f, e, c)
    ensures f < |w.files| && c.index <= |BindingsAt(w, f)| && (c.SetValue? ==> c.index < |BindingsAt(w, f)|)
  {
    hide StatementsOf, Effective, WellPlaced, Clean, ValidName, Slot;
  }

  lemma PlanIsSound(w: Setting, p: Contents)
    requires PlanInvariant(w, p)
    ensures Sound(w.process, AllBindings(w), p.changes)
  {
    hide Effective, TargetOf, Fits, HasEdit, BindingsAt, Bs, Offset, Flatten, NoOverlap;
    forall f, k | 0 <= f < |p.changes| && 0 <= k < |p.changes[f]|
      ensures p.changes[f][k].index <= |AllBindings(w)[f]|
      ensures p.changes[f][k].SetValue? ==> p.changes[f][k].index < |AllBindings(w)[f]|
      ensures Effective(w.process, Flatten(AllBindings(w)), GlobalChange(AllBindings(w), p.changes, f, k))
    {
      RecordedEffect(w, p, f, k);
    }
    assert AllInside(AllBindings(w), p.changes);
    forall f, k, g, m | 0 <= f < |p.changes| && 0 <= k < |p.changes[f]| && 0 <= g < |p.changes| && 0 <= m < |p.changes[g]|
                        && (f != g || k != m)
      ensures GlobalTarget(AllBindings(w), p.changes, f, k) != GlobalTarget(AllBindings(w), p.changes, g, m)
    {
      RecordedEffect(w, p, f, k);
      RecordedEffect(w, p, g, m);
    }
  }

  lemma RecordedEffect(w: Setting, p: Contents, f: nat, k: nat)
    requires PlanInvariant(w, p) && f < |p.changes| && k < |p.changes[f]|
    ensures f < |w.files|
    ensures var c := p.changes[f][k];
      && c.index <= |AllBindings(w)[f]| && (c.SetValue? ==> c.index < |AllBindings(w)[f]|)
      && Effective(w.process, Flatten(AllBindings(w)), GlobalChange(AllBindings(w), p.changes, f, k))
      && GlobalTarget(AllBindings(w), p.changes, f, k) == TargetOf(BindingsAt(w, f), c)
      && SourceOf(Bs(w), GlobalChange(AllBindings(w), p.changes, f, k)) == SourceOf(BindingsAt(w, f), c)
    ensures var name := GlobalTarget(AllBindings(w), p.changes, f, k);
      name in p.vars && p.vars[name] == VarEdit(p.changes[f][k].value, f, k)
  {
    hide Effective, TargetOf, SourceOf, HasEdit, BindingsAt, Flatten, NoOverlap;
    assert Recorded(w, p.vars, f, k, p.edits[f][k], p.changes[f][k]);
    ChangeInside(w, f, p.edits[f][k], p.changes[f][k]);
    GlobalTargetIs(w, f, p.changes[f][k]);
  }

  /** A clean plan is one change a variable, each taking effect, and its edits are those of the changes. */
  lemma CleanIsSound(w: Setting, p: Contents)
    requires ValidSetting(w) && FirstUnreadable(w, 0).None? && PlanInvariant(w, p) && CleanPlan(w, p)
    ensures Declared(FilePlans(w, p)) == AllBindings(w) && Planning(FilePlans(w, p)) == p.changes
    ensures SoundPlan(w.sc, w.process, FilePlans(w, p))
    ensures forall f :: 0 <= f < |w.files| ==> p.edits[f] == FileEdits(w.files[f].data, StatementsOf(w, f), p.changes[f])
  {
    var ps := FilePlans(w, p);
    PlanIsSound(w, p);
    hide Sound, HasEdit, ValidSetting, FirstUnreadable, Fits, NoOverlap, w.sc.Scan, StatementsOf, FileEdits, Planned, CleanChange;
    assert Declared(ps) == AllBindings(w);
    assert Planning(ps) == p.changes;
    forall f | 0 <= f < |w.files|
      ensures WellPlanned(w.sc, ps[f]) && p.edits[f] == FileEdits(w.files[f].data, StatementsOf(w, f), p.changes[f])
    {
      FileIsPlanned(w, p, f);
    }
  }

  lemma FileIsPlanned(w: Setting, p: Contents, f: nat)
    requires ValidSetting(w) && FirstUnreadable(w, 0).None? && PlanInvariant(w, p) && CleanPlan(w, p) && f < |w.files|
    ensures WellPlanned(w.sc, FilePlan(w.files[f].data, StatementsOf(w, f), p.changes[f]))
    ensures p.edits[f] == FileEdits(w.files[f].data, StatementsOf(w, f), p.changes[f])
  {
    hide HasEdit, ValidSetting, FirstUnreadable, Fits, NoOverlap, w.sc.Scan, StatementsOf, Plannable, EditOf, CleanChange, AtEnd, IsAppend,
      AllLeadsRight;
    DeclarationIndex(w, f, 0);
    var n := |p.changes[f]|;
    forall k | 0 <= k < n
      ensures Plannable(w.sc, BodyOf(w.files[f].data), StatementsOf(w, f), p.changes[f][k])
      ensures p.edits[f][k] == ShiftEdit(EditOf(StatementsOf(w, f), p.changes[f][k]), |MarkOf(w.files[f].data)|)
    {
      assert Recorded(w, p.vars, f, k, p.edits[f][k], p.changes[f][k]);
      FitsIsPlannable(w, f, p.edits[f][k], p.changes[f][k]);
    }
    OneBreak(w.files[f].data, StatementsOf(w, f), p.edits[f], p.changes[f]);
  }

  /** Only the first edit at the end of a file brings a line break. */
  lemma OneBreak(data: string, sts: seq<Statement>, edits: seq<TextEdit>, cs: seq<Change>)
    requires AllLeadsRight(data, edits, cs)
    requires forall k :: 0 <= k < |cs| ==> edits[k] == ShiftEdit(EditOf(sts, cs[k]), |MarkOf(data)|)
    ensures LeadsFirst(BodyOf(data), sts, cs)
  {
    hide EditOf, LineEnding;
    forall i, j | 0 <= i < j < |cs| && AtEnd(BodyOf(data), sts, cs[i]) && IsAppend(BodyOf(data), cs[j])
      ensures cs[j].lead == ""
    {
      assert edits[..j][i].start == |data|;
      assert LeadRight(data, edits[..j], cs[j]);
    }
  }

  /** Whether some service outside `reverted` needs a variable's edit. */
  ghost predicate StaysSet(p: Contents, name: string, reverted: set<string>) {
    && name in p.vars
    && var v := p.vars[name];
       v.file < |p.changes| && v.edit < |p.changes[v.file]| && Needed(p.changes[v.file][v.edit].owners, reverted)
  }

  /** `after` is `before` with each variable that stays set at its value, and every other key as it was. */
  ghost predicate SetsVariables(p: Contents, reverted: set<string>, before: Environment, after: Environment) {
    && (forall name :: StaysSet(p, name, reverted) ==> HasValue(after, name, p.vars[name].value))
    && (forall name :: !StaysSet(p, name, reverted) ==> SameAt(after, before, name))
  }

  predicate HasValue(m: Environment, name: string, value: string) {
    name in m && m[name].FromFile? && m[name].text == value
  }

  /**
    Put-get over the whole project, under every revert: when the edits of a clean plan
    that some service outside `reverted` still needs are applied to the files, each
    file scans, and the environment they give has every variable of those edits at its
    new value and every other key as it was before the write.
   */
  lemma PlanSetsVariables(w: Setting, p: Contents, reverted: set<string>, texts: seq<string>) returns (bss: seq<seq<Binding>>)
    requires ValidSetting(w) && FirstUnreadable(w, 0).None? && PlanInvariant(w, p) && CleanPlan(w, p) && EndsHold(w, p, reverted)
    requires |texts| == |w.files| && |p.edits| == |w.files|
    requires forall f :: 0 <= f < |texts| ==> WrittenAs(w.files[f].data, KeptEdits(p.edits[f], reverted), texts[f])
    ensures |bss| == |texts| && forall f :: 0 <= f < |texts| ==> FileBindings(w.sc, texts[f]) == Ok(bss[f])
    ensures SetsVariables(p, reverted, Eval(w.process, Flatten(AllBindings(w))), Eval(w.process, Flatten(bss)))
  {
    var ps := FilePlans(w, p);
    CleanIsSound(w, p);
    hide SoundPlan, FileBindings, Eval, Flatten, StatementsOf, FileEdits, ValidSetting, FirstUnreadable, CleanPlan, PlanInvariant,
      SetsVariables, SetsExactly, Rendered, KeptEdits, InRange, Disjoint, EndHolds;
    forall f | 0 <= f < |ps|
      ensures LeftBy(ps[f], reverted, texts[f]) && EndHolds(w.sc, ps[f], reverted)
    {
      assert WrittenAs(w.files[f].data, KeptEdits(p.edits[f], reverted), texts[f]);
    }
    bss := ProjectLeft(w.sc, w.process, ps, reverted, texts);
    VariablesSet(w, p, reverted, Eval(w.process, Flatten(AllBindings(w))), Eval(w.process, Flatten(bss)));
  }

  /** With nothing reverted, every variable of the plan stays set. */
  lemma EveryVariableStays(w: Setting, p: Contents, name: string)
    requires PlanInvariant(w, p) && name in p.vars
    ensures StaysSet(p, name, {})
  {
    hide NoOverlap, Fits, TargetOf, BindingsAt, Written, Writable;
    assert HasEdit(w, p, name);
    var f, k := p.vars[name].file, p.vars[name].edit;
    assert Recorded(w, p.vars, f, k, p.edits[f][k], p.changes[f][k]);
    FitsOwned(w, f, p.edits[f][k], p.changes[f][k]);
    OwnedIsNeeded(p.changes[f][k].owners, {});
  }

  lemma FitsOwned(w: Setting, f: nat, e: TextEdit, c: Change)
    requires Fits(w, f, e, c)
    ensures e.owners == c.owners != []
  {
    hide Effective, StatementsOf, WellPlaced, Clean, Slot, ValidName;
  }

  /** A change is kept exactly when some service outside `reverted` needs it. */
  lemma KeptHere(w: Setting, p: Contents, reverted: set<string>, f: nat, c: Change)
    requires |p.changes| == |w.files| && f < |w.files|
    ensures c in KeptInTextOrder(FilePlans(w, p), reverted)[f] <==> c in p.changes[f] && Needed(c.owners, reverted)
  {
    hide StatementsOf, InTextOrder, KeptChanges, Needed;
    ChangesHave(KeptInTextOrder(FilePlans(w, p), reverted)[f], KeptChanges(p.changes[f], reverted));
  }

  lemma VariablesSet(w: Setting, p: Contents, reverted: set<string>, before: Environment, after: Environment)
    requires PlanInvariant(w, p) && |p.changes| == |w.files|
    requires SetsExactly(AllBindings(w), KeptInTextOrder(FilePlans(w, p), reverted), before, after)
    ensures SetsVariables(p, reverted, before, after)
  {
    var css := KeptInTextOrder(FilePlans(w, p), reverted);
    hide PlanInvariant, StaysSet, IsTarget, KeptInTextOrder, SetsExactly;
    forall name | StaysSet(p, name, reverted)
      ensures HasValue(after, name, p.vars[name].value)
    {
      VariableSet(w, p, reverted, css, before, after, name);
    }
    forall name | !StaysSet(p, name, reverted)
      ensures SameAt(after, before, name)
    {
      if IsTarget(AllBindings(w), css, name) {
        TargetStaysSet(w, p, reverted, name);
      }
      OtherwiseSame(AllBindings(w), css, before, after, name);
    }
  }

  lemma OtherwiseSame(bss: seq<seq<Binding>>, css: seq<seq<Change>>, before: Environment, after: Environment, name: string)
    requires |bss| == |css| && SetsExactly(bss, css, before, after) && !IsTarget(bss, css, name)
    ensures SameAt(after, before, name)
  {
    hide IsTarget;
  }

  lemma VariableSet(w: Setting, p: Contents, reverted: set<string>, css: seq<seq<Change>>, before: Environment, after: Environment,
                    name: string)
    requires PlanInvariant(w, p) && |p.changes| == |w.files| && css == KeptInTextOrder(FilePlans(w, p), reverted)
    requires SetsExactly(AllBindings(w), css, before, after) && StaysSet(p, name, reverted)
    ensures HasValue(after, name, p.vars[name].value)
  {
    hide Recorded, NoOverlap, BindingsAt, TargetOf, SourceOf, Flatten, Written, Writable, GlobalChange, Needed, KeptInTextOrder;
    assert HasEdit(w, p, name);
    var f, k := p.vars[name].file, p.vars[name].edit;
    RecordedEffect(w, p, f, k);
    KeptHere(w, p, reverted, f, p.changes[f][k]);
    var m :| 0 <= m < |css[f]| && css[f][m] == p.changes[f][k];
    SameTarget(w, p.changes, css, f, k, m);
    assert IsSet(after, GlobalTarget(AllBindings(w), css, f, m), SourceOf(Flatten(AllBindings(w)), GlobalChange(AllBindings(w), css, f, m)));
    SourceIsValue(BindingsAt(w, f), p.changes[f][k]);
  }

  lemma SourceIsValue(bs: seq<Binding>, c: Change)
    ensures SourceOf(bs, c).FromFile? && SourceOf(bs, c).text == c.value
  {
  }

  lemma SameTarget(w: Setting, css: seq<seq<Change>>, part: seq<seq<Change>>, f: nat, k: nat, m: nat)
    requires f < |w.files| == |css| == |part| && k < |css[f]| && m < |part[f]| && part[f][m] == css[f][k]
    ensures GlobalTarget(AllBindings(w), part, f, m) == GlobalTarget(AllBindings(w), css, f, k)
    ensures GlobalChange(AllBindings(w), part, f, m) == GlobalChange(AllBindings(w), css, f, k)
  {
    hide BindingsAt, TargetOf, Flatten, Offset;
  }

  lemma TargetStaysSet(w: Setting, p: Contents, reverted: set<string>, name: string)
    requires PlanInvariant(w, p) && |p.changes| == |w.files|
    requires IsTarget(AllBindings(w), KeptInTextOrder(FilePlans(w, p), reverted), name)
    ensures StaysSet(p, name, reverted)
  {
    hide Recorded, NoOverlap, BindingsAt, TargetOf, HasEdit, GlobalChange, PlanInvariant, KeptInTextOrder, Needed;
    var css := KeptInTextOrder(FilePlans(w, p), reverted);
    var f, m :| 0 <= f < |css| && 0 <= m < |css[f]| && GlobalTarget(AllBindings(w), css, f, m) == name;
    KeptHere(w, p, reverted, f, css[f][m]);
    var k :| 0 <= k < |p.changes[f]| && p.changes[f][k] == css[f][m];
    SameTarget(w, p.changes, css, f, k, m);
    RecordedEffect(w, p, f, k);
  }

  /**
    What a revert leaves of a planned file is what PlanSetsVariables reads: the plan's
    edits can always be applied, and so can those a revert keeps.
   */
  lemma RevertedFileIsWritten(w: Setting, p: Contents, f: nat, reverted: set<string>, state: FileState)
    requires ValidSetting(w) && FirstUnreadable(w, 0).None? && PlanInvariant(w, p) && CleanPlan(w, p) && f < |w.files|
    requires state.original == w.files[f].data && f < |p.edits| && state.edits == p.edits[f]
    ensures CanApply(state.original, state.edits)
    ensures Reverted(state, reverted).Some? ==>
      WrittenAs(w.files[f].data, KeptEdits(p.edits[f], reverted), Reverted(state, reverted).value)
    ensures Reverted(state, reverted).None? ==> !state.existed && KeptEdits(p.edits[f], reverted) == []
  {
    var data, sts := w.files[f].data, StatementsOf(w, f);
    FileIsPlanned(w, p, f);
    InvariantShape(w, p);
    PlanIsSound(w, p);
    SoundIsDistinct(w.process, AllBindings(w), p.changes, f);
    hide Sound, CleanPlan, PlanInvariant, ValidSetting, FirstUnreadable, AllPlannable, DistinctTargets, FileEdits, StatementsOf, LeadsFirst,
      TailHolds, AllApplied, FileBindings, Inside;
    FileRewritten(w.sc, data, sts, p.changes[f]);
    KeptCanApply(data, p.edits[f], reverted);
    OneSortedPass(data, KeptEdits(p.edits[f], reverted));
    hide Rendered, SortedByStart, InRange, Disjoint, NoOverlap, NoneCrossed;
  }

  // ---- the end of a planned file ---------------------------------------------------------

  /**
    What a revert leaves of one planned file gives its original bindings with exactly
    the kept changes applied, exactly when the end of the file holds what is appended.
   */
  lemma LeftFileExactly(w: Setting, p: Contents, f: nat, reverted: set<string>, text: string)
    requires ValidSetting(w) && FirstUnreadable(w, 0).None? && PlanInvariant(w, p) && CleanPlan(w, p) && f < |w.files|
    requires f < |p.edits| && WrittenAs(w.files[f].data, KeptEdits(p.edits[f], reverted), text)
    ensures Inside(BindingsAt(w, f), KeptInTextOrder(FilePlans(w, p), reverted)[f])
    ensures FileBindings(w.sc, text) == Ok(AllApplied(BindingsAt(w, f), KeptInTextOrder(FilePlans(w, p), reverted)[f]))
       <==> EndHolds(w.sc, FilePlans(w, p)[f], reverted)
  {
    hide *;
    PlannedFile(w, p, f);
    var data, sts := w.files[f].data, StatementsOf(w, f);
    KeptEditsRewrite(w.sc, data, sts, p.changes[f], reverted);
    WrittenIs(data, KeptEdits(p.edits[f], reverted), text);
    EndIs(w, p, f, reverted);
  }

  lemma PlannedFile(w: Setting, p: Contents, f: nat)
    requires ValidSetting(w) && FirstUnreadable(w, 0).None? && PlanInvariant(w, p) && CleanPlan(w, p) && f < |w.files|
    ensures |p.edits| == |p.changes| == |w.files|
    ensures w.sc.Scan(BodyOf(w.files[f].data)) == Ok(StatementsOf(w, f))
    ensures AllPlannable(w.sc, BodyOf(w.files[f].data), StatementsOf(w, f), p.changes[f])
    ensures LeadsFirst(BodyOf(w.files[f].data), StatementsOf(w, f), p.changes[f]) && DistinctTargets(p.changes[f])
    ensures p.edits[f] == FileEdits(w.files[f].data, StatementsOf(w, f), p.changes[f])
  {
    hide *;
    InvariantShape(w, p);
    FileIsPlanned(w, p, f);
    PlanIsSound(w, p);
    SoundIsDistinct(w.process, AllBindings(w), p.changes, f);
    WellPlannedIs(w.sc, FilePlan(w.files[f].data, StatementsOf(w, f), p.changes[f]));
  }

  lemma WellPlannedIs(sc: Scanner, p: FilePlan)
    requires WellPlanned(sc, p)
    ensures sc.Scan(BodyOf(p.data)) == Ok(p.sts) && AllPlannable(sc, BodyOf(p.data), p.sts, p.changes)
    ensures LeadsFirst(BodyOf(p.data), p.sts, p.changes)
  {
  }

  lemma WrittenIs(data: string, edits: seq<TextEdit>, text: string)
    requires WrittenAs(data, edits, text)
    ensures InRange(data, SortedByStart(edits)) && Disjoint(SortedByStart(edits)) && text == Rendered(data, SortedByStart(edits))
  {
  }

  lemma EndIs(w: Setting, p: Contents, f: nat, reverted: set<string>)
    requires |p.changes| == |w.files| && f < |w.files|
    ensures KeptInTextOrder(FilePlans(w, p), reverted)[f] == InTextOrder(StatementsOf(w, f), KeptChanges(p.changes[f], reverted))
    ensures EndHolds(w.sc, FilePlans(w, p)[f], reverted) <==>
      TailHolds(w.sc, BodyOf(w.files[f].data), StatementsOf(w, f), KeptChanges(p.changes[f], reverted))
    ensures BindingsAt(w, f) == Bindings(BodyOf(w.files[f].data), StatementsOf(w, f))
  {
    hide InTextOrder, StatementsOf, KeptChanges, TailHolds;
  }

  /** A file that is empty or ends in a line break holds whatever any revert leaves appended to it. */
  lemma TerminatedHolds(w: Setting, p: Contents, f: nat, reverted: set<string>)
    requires ValidSetting(w) && FirstUnreadable(w, 0).None? && PlanInvariant(w, p) && CleanPlan(w, p) && f < |w.files|
    requires !Unterminated(w.files[f].data)
    ensures |p.changes| == |w.files| && EndHolds(w.sc, FilePlans(w, p)[f], reverted)
  {
    hide *;
    PlannedFile(w, p, f);
    EndIs(w, p, f, reverted);
    var data, sts := w.files[f].data, StatementsOf(w, f);
    TerminatedEnds(data);
    KeptIsPlannable(w.sc, BodyOf(data), sts, p.changes[f], reverted);
    LineStartHolds(w.sc, BodyOf(data), sts, KeptChanges(p.changes[f], reverted));
  }

  lemma TerminatedEnds(data: string)
    ensures !Unterminated(data) ==> LineStart(BodyOf(data), |BodyOf(data)|)
    ensures data != BOM && LineStart(BodyOf(data), |BodyOf(data)|) ==> !Unterminated(data)
  {
    var body := BodyOf(data);
    assert data == MarkOf(data) + body;
    assert body != "" ==> body[|body| - 1] == data[|data| - 1];
  }

  lemma LineStartHolds(sc: Scanner, s: string, sts: seq<Statement>, cs: seq<Change>)
    requires sc.Scan(s) == Ok(sts) && AllPlannable(sc, s, sts, cs) && LineStart(s, |s|)
    ensures EndOf(sc, s) == Free && !SetsEnd(s, sts, cs) && TailHolds(sc, s, sts, cs)
  {
    hide sc.Scan, Planned, AtEnd, InsertOk, Slot, EmptyLast, EndOf;
    AppendIsPlanned(sc, s, sts);
    TerminatedIsFree(sc, s, sts);
    if c :| c in cs && c.SetValue? && AtEnd(s, sts, c) {
      var i :| 0 <= i < |cs| && cs[i] == c;
      assert Plannable(sc, s, sts, cs[i]);
      EndSetIsLast(sc, s, sts, c);
      EmptyIsOpen(sc, s, sts);
      assert false;
    }
  }

  /** With nothing reverted, only a bare last name or a value given to an empty last one can spoil what is appended. */
  lemma WholePlanHolds(w: Setting, p: Contents, f: nat)
    requires ValidSetting(w) && FirstUnreadable(w, 0).None? && PlanInvariant(w, p) && CleanPlan(w, p) && f < |w.files|
    ensures |p.changes| == |w.files|
    ensures var body, sts := BodyOf(w.files[f].data), StatementsOf(w, f);
      EndHolds(w.sc, FilePlans(w, p)[f], {}) <==>
        (HasAppend(body, p.changes[f]) ==> !SetsEnd(body, sts, p.changes[f]) && EndOf(w.sc, body) != Bare)
  {
    hide *;
    PlannedFile(w, p, f);
    EndIs(w, p, f, {});
    var data, sts, cs := w.files[f].data, StatementsOf(w, f), p.changes[f];
    AllOwned(w, p, f);
    AllChangesKept(cs, {});
    TailIs(w.sc, BodyOf(data), sts, cs);
    if HasAppend(BodyOf(data), cs) && !SetsEnd(BodyOf(data), sts, cs) && EndOf(w.sc, BodyOf(data)) == Open {
      if LineStart(BodyOf(data), |BodyOf(data)|) { LineStartHolds(w.sc, BodyOf(data), sts, cs); assert false; }
      TerminatedEnds(data);
      LeadsOf(w, p, f);
      FirstAppendLeads(data, sts, p.edits[f], cs);
    }
  }

  lemma LeadsOf(w: Setting, p: Contents, f: nat)
    requires PlanInvariant(w, p) && f < |w.files|
    ensures f < |p.edits| == |p.changes| && AllLeadsRight(w.files[f].data, p.edits[f], p.changes[f])
  {
    hide AllLeadsRight, NoOverlap, Recorded, HasEdit;
  }

  lemma AllOwned(w: Setting, p: Contents, f: nat)
    requires PlanInvariant(w, p) && f < |w.files|
    ensures f < |p.changes| && forall k :: 0 <= k < |p.changes[f]| ==> p.changes[f][k].owners != []
  {
    hide NoOverlap, AllLeadsRight, Fits, HasEdit, TargetOf, BindingsAt;
    forall k | 0 <= k < |p.changes[f]|
      ensures p.changes[f][k].owners != []
    {
      assert Recorded(w, p.vars, f, k, p.edits[f][k], p.changes[f][k]);
      FitsOwned(w, f, p.edits[f][k], p.changes[f][k]);
    }
  }

  lemma {:induction false} AllChangesKept(cs: seq<Change>, reverting: set<string>)
    requires reverting == {} && forall k :: 0 <= k < |cs| ==> cs[k].owners != []
    ensures KeptChanges(cs, reverting) == cs
    decreases |cs|
  {
    hide Needed, KeptChanges;
    if cs != [] {
      var n := |cs| - 1;
      AllChangesKept(cs[..n], reverting);
      OwnedIsNeeded(cs[n].owners, reverting);
      KeptLast(cs[..n], cs[n], reverting);
      assert cs == cs[..n] + [cs[n]];
    } else {
      NoneAreKept(reverting);
    }
  }

  /** The first append to a file without a last line break brings one, unless a value is set there before. */
  lemma FirstAppendLeads(data: string, sts: seq<Statement>, edits: seq<TextEdit>, cs: seq<Change>)
    requires AllLeadsRight(data, edits, cs) && Unterminated(data)
    requires edits == FileEdits(data, sts, cs) && HasAppend(BodyOf(data), cs) && !SetsEnd(BodyOf(data), sts, cs)
    ensures HasLead(BodyOf(data), cs)
  {
    hide LineEnding, EditOf, Unterminated;
    var body := BodyOf(data);
    assert |data| == |MarkOf(data)| + |body|;
    var c :| c in cs && IsAppend(body, c);
    var j :| 0 <= j < |cs| && cs[j] == c;
    AppendIsAtEnd(body, sts, c);
    var k := FirstAtEnd(body, sts, cs, j);
    assert cs[k] in cs;
    assert IsAppend(body, cs[k]) by { EndIsAppend(body, sts, cs, k); }
    assert LeadRight(data, edits[..k], cs[k]);
    assert Glues(data, edits[..k]);
    LineEndingIsThere(data);
  }

  lemma LineEndingIsThere(data: string)
    ensures LineEnding(data) != ""
  {
  }

  lemma EndIsAppend(s: string, sts: seq<Statement>, cs: seq<Change>, k: nat)
    requires k < |cs| && AtEnd(s, sts, cs[k]) && !SetsEnd(s, sts, cs)
    ensures IsAppend(s, cs[k])
  {
    assert cs[k] in cs;
  }

  lemma {:induction false} FirstAtEnd(s: string, sts: seq<Statement>, cs: seq<Change>, j: nat) returns (k: nat)
    requires j < |cs| && AtEnd(s, sts, cs[j])
    ensures k <= j && AtEnd(s, sts, cs[k]) && forall i :: 0 <= i < k ==> !AtEnd(s, sts, cs[i])
    decreases j
  {
    hide AtEnd;
    k := j;
    if exists i :: 0 <= i < j && AtEnd(s, sts, cs[i]) {
      var i :| 0 <= i < j && AtEnd(s, sts, cs[i]);
      k := FirstAtEnd(s, sts, cs, i);
    }
  }

  // ---- where declarations go ------------------------------------------------------------

  /**
    A clean declaration precedes, in load order, every value that uses its variable:
    none in an earlier file, and none in its own file before the statement it goes above.
   */
  lemma DeclarationPrecedesUses(w: Setting, p: Contents, f: nat, k: nat, g: nat, i: nat)
    requires ValidSetting(w) && FirstUnreadable(w, 0).None? && PlanInvariant(w, p) && CleanPlan(w, p)
    requires f < |p.changes| && k < |p.changes[f]| && p.changes[f][k].Declare?
    requires InFile(w, g, i) && Uses(BindingsAt(w, g)[i], p.changes[f][k].name)
    ensures f < g || (f == g && p.changes[f][k].index <= i)
  {
    hide HasEdit, ValidSetting, FirstUnreadable, NoOverlap, StatementsOf, BindingsAt, Uses, WellPlaced, Effective, Clean, Slot,
      ValidName, CleanPlan;
    var c := p.changes[f][k];
    assert Recorded(w, p.vars, f, k, p.edits[f][k], c);
    assert CleanChange(w, f, c) by { CleanAt(w, p, f, k); }
    PlacedBefore(w, f, c.at, c.name, g, i);
  }

  lemma CleanAt(w: Setting, p: Contents, f: nat, k: nat)
    requires |p.changes| == |w.files| && CleanPlan(w, p) && f < |p.changes| && k < |p.changes[f]|
    ensures CleanChange(w, f, p.changes[f][k])
  {
  }

  lemma PlacedBefore(w: Setting, f: nat, at: nat, name: string, g: nat, i: nat)
    requires ValidSetting(w) && FirstUnreadable(w, 0).None? && f < |w.files|
    requires WellPlaced(w, f, at, name) && (at < |BodyOf(w.files[f].data)| ==> Clean(w, f, at))
    requires InFile(w, g, i) && Uses(BindingsAt(w, g)[i], name)
    ensures at < |BodyOf(w.files[f].data)|
    ensures f < g || (f == g && Slot(w.sc, BodyOf(w.files[f].data), at) <= i)
  {
    hide Uses, ValidSetting, FirstUnreadable, StatementsOf, BindingsAt, Clean, Slot, InsertOk, Bs, w.sc.Scan;
    AtInside(w, g, i);
    var u :| FirstUseIs(w, name, u) && u.file == f && u.at == at + |MarkOf(w.files[f].data)|;
    assert Position(w, f, u.index) <= Position(w, g, i);
    UseIsInside(w, name, u);
    UseOrder(w, f, u.index, g, i);
    DeclarationIndex(w, f, at);
    var body := BodyOf(w.files[f].data);
    DeclaredBeforeUse(w.sc, body, StatementsOf(w, f), at, u.index);
  }

  lemma UseOrder(w: Setting, f: nat, j: nat, g: nat, i: nat)
    requires InFile(w, f, j) && InFile(w, g, i) && Position(w, f, j) <= Position(w, g, i)
    ensures f < g || (f == g && j <= i)
  {
    hide BindingsAt;
    if g < f {
      OffsetMonotone(AllBindings(w), g, f);
    }
  }

  // ---- no clean edit is refused -----------------------------------------------------------

  lemma NoNewTwin(w: Setting, p: Contents, t: Target, svc: string, f: nat, e: TextEdit, c: Change)
    requires PlanInvariant(w, p) && t.name !in p.vars && Makes(w, t, svc, f, e, c)
    ensures f < |p.changes| && DistinctTargets(p.changes[f] + [c])
  {
    hide HasEdit, NoOverlap, TargetOf, BindingsAt, Fits;
    PlanIsSound(w, p);
    SoundIsDistinct(w.process, AllBindings(w), p.changes, f);
    hide Sound;
    forall k | 0 <= k < |p.changes[f]| && p.changes[f][k].SetValue? && c.SetValue?
      ensures p.changes[f][k].index != c.index
    {
      assert Recorded(w, p.vars, f, k, p.edits[f][k], p.changes[f][k]);
      SameIndexSameTarget(BindingsAt(w, f), p.changes[f][k], c);
    }
  }

  lemma SameIndexSameTarget(bs: seq<Binding>, c: Change, d: Change)
    requires c.SetValue? && d.SetValue?
    ensures c.index == d.index ==> TargetOf(bs, c) == TargetOf(bs, d)
  {
  }

  /** addEdit never refuses a clean plan's next clean edit, so planVar fails only where Follow does or values differ. */
  lemma CleanNeverOverlaps(w: Setting, p: Contents, t: Target, svc: string, f: nat, e: TextEdit, c: Change)
    requires ValidSetting(w) && FirstUnreadable(w, 0).None? && PlanInvariant(w, p) && CleanPlan(w, p)
    requires t.name !in p.vars && Makes(w, t, svc, f, e, c) && f < |w.files| && CleanChange(w, f, c)
    ensures f < |p.edits| && NoOverlap(p.edits[f] + [e])
  {
    hide ValidSetting, FirstUnreadable, PlanInvariant, CleanPlan, CleanChange, Fits, TargetOf, BindingsAt, StatementsOf, w.sc.Scan,
      Plannable, EditOf, DistinctTargets, NoOverlap, InRange, NoneCrossed, LeadsFirst;
    InvariantShape(w, p);
    NoNewTwin(w, p, t, svc, f, e, c);
    FileIsPlanned(w, p, f);
    FitsIsPlannable(w, f, e, c);
    var data, sts, cs := w.files[f].data, StatementsOf(w, f), p.changes[f] + [c];
    FileEditsEnd(data, sts, p.changes[f], c);
    PlannableNeverCollide(w.sc, BodyOf(data), sts, cs);
    CollideShifted(BodyOf(data), MarkOf(data), EditsOf(sts, cs));
  }

  // ---- who owns an edit -------------------------------------------------------------------

  ghost predicate Owns(p: Contents, svc: string, f: nat, k: nat) {
    f < |p.edits| && k < |p.edits[f]| && svc in p.edits[f][k].owners
  }

  ghost predicate OwnsNone(p: Contents, svc: string) {
    forall f, k :: !Owns(p, svc, f, k)
  }

  ghost predicate OwnsOnly(p: Contents, svc: string, f: nat, k: nat) {
    Owns(p, svc, f, k) && forall g, m :: Owns(p, svc, g, m) ==> g == f && m == k
  }

  ghost predicate OwnsOne(p: Contents, svc: string) {
    exists f, k :: OwnsOnly(p, svc, f, k)
  }

  ghost predicate SameOwners(p: Contents, q: Contents, svc: string) {
    forall f, k :: Owns(p, svc, f, k) <==> Owns(q, svc, f, k)
  }

  lemma SharedOwns(p: Contents, name: string, svc: string)
    requires Positioned(p, name) && OwnsNone(p, svc)
    ensures OwnsOne(Shared(p, name, svc), svc)
    ensures forall other :: other != svc ==> SameOwners(p, Shared(p, name, svc), other)
  {
    var q := Shared(p, name, svc);
    var f, k := p.vars[name].file, p.vars[name].edit;
    forall g, m | Owns(q, svc, g, m)
      ensures g == f && m == k
    {
      assert !Owns(p, svc, g, m);
    }
    assert OwnsOnly(q, svc, f, k);
    forall other | other != svc
      ensures SameOwners(p, q, other)
    {
      forall g, m
        ensures Owns(p, other, g, m) <==> Owns(q, other, g, m)
      {
      }
    }
  }

  lemma ExtendedOwns(p: Contents, f: nat, e: TextEdit, c: Change, name: string, svc: string)
    requires f < |p.edits| == |p.changes| && e.owners == [svc] && OwnsNone(p, svc)
    ensures OwnsOne(Extended(p, f, e, c, name), svc)
    ensures forall other :: other != svc ==> SameOwners(p, Extended(p, f, e, c, name), other)
  {
    var q := Extended(p, f, e, c, name);
    forall g, m | Owns(q, svc, g, m)
      ensures g == f && m == |p.edits[f]|
    {
      assert !Owns(p, svc, g, m);
    }
    assert Owns(q, svc, f, |p.edits[f]|);
    assert OwnsOnly(q, svc, f, |p.edits[f]|);
    forall other | other != svc
      ensures SameOwners(p, q, other)
    {
      forall g, m
        ensures Owns(p, other, g, m) <==> Owns(q, other, g, m)
      {
      }
    }
  }

  /** A planned variable gives its service exactly one edit, and changes no other service's. */
  lemma PlanVarOwnsOne(w: Setting, p: Contents, name: string, value: string, svc: string, current: string, depth: nat, q: Contents)
    requires PlansVar(w, p, name, value, svc, current, depth, q, None) && OwnsNone(p, svc)
    ensures OwnsOne(q, svc) && forall other :: other != svc ==> SameOwners(p, q, other)
  {
    hide Follow, Fits, NoOverlap, OwnsNone, OwnsOne, SameOwners, TargetOf, BindingsAt, Positioned, Shared, Extended;
    var t := Follow(w, name, value, current, depth).value;
    if t.name in p.vars {
      SharedOwns(p, t.name, svc);
    } else {
      var f, e, c :| Makes(w, t, svc, f, e, c) && AddsThis(w, p, t, f, e, c, q, None);
      FitsOwned(w, f, e, c);
      ExtendedOwns(p, f, e, c, t.name, svc);
    }
  }

  /** A plan made for one service after another. */
  datatype Call = Call(name: string, value: string, svc: string, current: string)

  ghost predicate PlannedInTurn(w: Setting, plans: seq<Contents>, calls: seq<Call>) {
    && |plans| == |calls| + 1
    && forall i :: 0 <= i < |calls| ==>
      PlansVar(w, plans[i], calls[i].name, calls[i].value, calls[i].svc, calls[i].current, 0, plans[i + 1], None)
  }

  ghost predicate DistinctServices(calls: seq<Call>) {
    forall i, j :: 0 <= i < j < |calls| ==> calls[i].svc != calls[j].svc
  }

  /** When every service is planned once, each owns exactly one edit. */
  lemma {:induction false} EveryServiceOwnsOne(w: Setting, plans: seq<Contents>, calls: seq<Call>)
    requires PlannedInTurn(w, plans, calls) && DistinctServices(calls)
    requires forall svc :: OwnsNone(plans[0], svc)
    ensures forall i :: 0 <= i < |calls| ==> OwnsOne(plans[|calls|], calls[i].svc)
    ensures forall svc :: (forall i :: 0 <= i < |calls| ==> calls[i].svc != svc) ==> OwnsNone(plans[|calls|], svc)
    decreases |calls|
  {
    hide PlansVar, OwnsNone, OwnsOne, SameOwners;
    if calls != [] {
      var n := |calls| - 1;
      var c := calls[n];
      EveryServiceOwnsOne(w, plans[..|calls|], calls[..n]);
      assert plans[..|calls|][n] == plans[n];
      assert forall i :: 0 <= i < n ==> calls[..n][i].svc != c.svc;
      PlanVarOwnsOne(w, plans[n], c.name, c.value, c.svc, c.current, 0, plans[n + 1]);
      forall i | 0 <= i < |calls|
        ensures OwnsOne(plans[|calls|], calls[i].svc)
      {
        if i < n {
          assert calls[..n][i] == calls[i];
          StillOwns(plans[n], plans[n + 1], calls[i].svc);
        }
      }
      forall svc | forall i :: 0 <= i < |calls| ==> calls[i].svc != svc
        ensures OwnsNone(plans[|calls|], svc)
      {
        assert calls[n].svc != svc;
        assert forall i :: 0 <= i < n ==> calls[..n][i].svc != svc;
        StillOwns(plans[n], plans[n + 1], svc);
      }
    }
  }

  lemma StillOwns(p: Contents, q: Contents, svc: string)
    requires SameOwners(p, q, svc)
    ensures OwnsOne(p, svc) ==> OwnsOne(q, svc)
    ensures OwnsNone(p, svc) ==> OwnsNone(q, svc)
  {
    if OwnsOne(p, svc) {
      var f, k :| OwnsOnly(p, svc, f, k);
      assert OwnsOnly(q, svc, f, k);
    }
  }
}
