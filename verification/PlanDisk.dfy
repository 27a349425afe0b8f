/**
  A plan on disk: its env files rendered, written and reverted, and what they say
  whenever no operation on them failed.
 */
module PlanDisks {
  import opened Text
  import opened EnvScan
  import opened TextEdits
  import opened EnvRewrite
  import opened EnvFile
  import opened EnvEval
  import opened EnvProject
  import opened EnvTemplates
  import opened EnvPlan
  import opened WritePlans
  import opened Disks
  import opened ImageChecks
  import opened ImageWrites
  import opened PlanOutcome
  import opened PlanRuns

  // ---- rendering ----------------------------------------------------------------------------

  ghost predicate AllApply(w: Setting, edits: seq<seq<TextEdit>>) {
    |edits| == |w.files| && forall f :: 0 <= f < |edits| ==> CanApply(w.files[f].data, edits[f])
  }

  /** A planned file, as the write starts with it. */
  ghost function Planned(w: Setting, edits: seq<seq<TextEdit>>, path: string, f: nat): FileState
    requires AllApply(w, edits) && f < |edits|
  {
    FileState(path, w.files[f].data, w.files[f].existed, edits[f], Edited(w.files[f].data, edits[f]), false, "")
  }

  /** The first `n` files, those with no edit left out. */
  ghost function PlannedFiles(w: Setting, edits: seq<seq<TextEdit>>, paths: seq<string>, n: nat): seq<FileState>
    requires AllApply(w, edits) && n <= |edits| == |paths|
  {
    if n == 0 then []
    else PlannedFiles(w, edits, paths, n - 1) + if edits[n - 1] == [] then [] else [Planned(w, edits, paths[n - 1], n - 1)]
  }

  lemma PlannedNext(w: Setting, edits: seq<seq<TextEdit>>, paths: seq<string>, n: nat)
    requires AllApply(w, edits) && n < |edits| == |paths|
    ensures CanApply(w.files[n].data, edits[n])
    ensures PlannedFiles(w, edits, paths, n + 1)
         == PlannedFiles(w, edits, paths, n) + if edits[n] == [] then [] else [Planned(w, edits, paths[n], n)]
  {
    hide CanApply, Edited;
  }

  lemma NothingPlanned(w: Setting, edits: seq<seq<TextEdit>>, paths: seq<string>)
    requires AllApply(w, edits) && |edits| == |paths|
    ensures PlannedFiles(w, edits, paths, 0) == [] && |paths| == |w.files|
  {
    hide CanApply, Edited;
  }

  /** render, for the env files of a plan. */
  method Render(plan: WritePlan, paths: seq<string>) returns (files: seq<FileState>)
    requires AllApply(plan.w, plan.edits) && |paths| == |plan.edits|
    ensures files == PlannedFiles(plan.w, plan.edits, paths, |paths|)
  {
    hide CanApply, Edited, PlannedFiles, AllApply;
    NothingPlanned(plan.w, plan.edits, paths);
    files := [];
    for f := 0 to |paths|
      invariant files == PlannedFiles(plan.w, plan.edits, paths, f)
    {
      PlannedNext(plan.w, plan.edits, paths, f);
      var edits, file := plan.edits[f], plan.w.files[f];
      if edits == [] {
        continue;
      }
      var written := WrittenText(file.data, edits);
      files := files + [FileState(paths[f], file.data, file.existed, edits, written, false, "")];
    }
  }

  method WrittenText(original: string, edits: seq<TextEdit>) returns (text: string)
    requires CanApply(original, edits)
    ensures text == Edited(original, edits)
  {
    text := ApplyEdits(original, edits);
  }

  ghost predicate DistinctNames(paths: seq<string>) {
    forall i, j :: 0 <= i < j < |paths| ==> paths[i] != paths[j]
  }

  /** `files` has the state of each env file the plan changes, and none of the others. */
  ghost predicate Holds(w: Setting, edits: seq<seq<TextEdit>>, paths: seq<string>, files: seq<FileState>) {
    && |edits| == |paths| == |w.files|
    && forall f :: 0 <= f < |paths| ==>
      if edits[f] == [] then forall i :: 0 <= i < |files| ==> files[i].path != paths[f]
      else exists i :: 0 <= i < |files| && IsState(w, f, edits[f], paths[f], files[i])
  }

  predicate IsState(w: Setting, f: nat, edits: seq<TextEdit>, path: string, state: FileState)
    requires f < |w.files|
  {
    && state.path == path && state.original == w.files[f].data && state.existed == w.files[f].existed && state.edits == edits
  }

  /** The state of an env file among the first `n`. */
  ghost predicate StateFrom(w: Setting, edits: seq<seq<TextEdit>>, paths: seq<string>, n: nat, state: FileState)
    requires AllApply(w, edits) && n <= |edits| == |paths|
  {
    exists f :: 0 <= f < n && edits[f] != [] && state == Planned(w, edits, paths[f], f)
  }

  lemma {:induction false} PlannedAre(w: Setting, edits: seq<seq<TextEdit>>, paths: seq<string>, n: nat)
    requires AllApply(w, edits) && n <= |edits| == |paths| && DistinctNames(paths)
    ensures var files := PlannedFiles(w, edits, paths, n);
      && DistinctPaths(files)
      && (forall i :: 0 <= i < |files| ==> StateFrom(w, edits, paths, n, files[i]))
      && (forall f :: 0 <= f < n && edits[f] != [] ==> Planned(w, edits, paths[f], f) in files)
  {
    hide CanApply, Edited;
    if n > 0 {
      PlannedAre(w, edits, paths, n - 1);
      var front, files := PlannedFiles(w, edits, paths, n - 1), PlannedFiles(w, edits, paths, n);
      forall i | 0 <= i < |files|
        ensures StateFrom(w, edits, paths, n, files[i])
        ensures i < |front| ==> files[i].path != paths[n - 1]
      {
        if i < |front| {
          assert files[i] == front[i] && StateFrom(w, edits, paths, n - 1, front[i]);
        }
      }
    }
  }

  ghost predicate AllOwnedEdits(edits: seq<seq<TextEdit>>) {
    forall f, k :: 0 <= f < |edits| && 0 <= k < |edits[f]| ==> edits[f][k].owners != []
  }

  lemma PlannedIsValid(w: Setting, p: Contents, path: string, f: nat, targets: set<string>)
    requires ValidSetting(w) && AllApply(w, p.edits) && OwnedBy(p, targets) && AllOwnedEdits(p.edits)
    requires f < |p.edits| && p.edits[f] != []
    ensures ValidFile(Planned(w, p.edits, path, f), targets) && IsState(w, f, p.edits[f], path, Planned(w, p.edits, path, f))
  {
    hide CanApply, Edited;
    forall e | e in p.edits[f]
      ensures e.owners != [] && forall o :: o in e.owners ==> o in targets
    {
      var k :| 0 <= k < |p.edits[f]| && p.edits[f][k] == e;
    }
  }

  lemma RenderedValid(w: Setting, p: Contents, paths: seq<string>, targets: set<string>)
    requires ValidSetting(w) && AllApply(w, p.edits) && |paths| == |p.edits| && DistinctNames(paths)
    requires OwnedBy(p, targets) && AllOwnedEdits(p.edits)
    ensures ValidFiles(PlannedFiles(w, p.edits, paths, |paths|), targets)
  {
    PlannedAre(w, p.edits, paths, |paths|);
    hide AllApply, Planned, PlannedFiles, ValidFile, IsState, OwnedBy, AllOwnedEdits, ValidSetting, DistinctPaths, DistinctNames;
    var files := PlannedFiles(w, p.edits, paths, |paths|);
    forall i | 0 <= i < |files|
      ensures ValidFile(files[i], targets)
    {
      var f := StateIs(w, p.edits, paths, files[i]);
      PlannedIsValid(w, p, paths[f], f, targets);
    }
  }

  lemma StateIs(w: Setting, edits: seq<seq<TextEdit>>, paths: seq<string>, state: FileState) returns (f: nat)
    requires AllApply(w, edits) && |edits| == |paths| && StateFrom(w, edits, paths, |paths|, state)
    ensures f < |edits| && edits[f] != [] && state == Planned(w, edits, paths[f], f) && state.path == paths[f]
  {
    hide AllApply;
    f :| 0 <= f < |paths| && edits[f] != [] && state == Planned(w, edits, paths[f], f);
    PlannedPath(w, edits, paths[f], f);
  }

  lemma DifferentNames(paths: seq<string>, f: nat, g: nat)
    requires DistinctNames(paths) && f < |paths| && g < |paths| && f != g
    ensures paths[f] != paths[g]
  {
  }

  lemma UnplannedIsAbsent(w: Setting, edits: seq<seq<TextEdit>>, paths: seq<string>, f: nat)
    requires AllApply(w, edits) && |edits| == |paths| && DistinctNames(paths) && f < |edits| && edits[f] == []
    ensures forall i :: 0 <= i < |PlannedFiles(w, edits, paths, |paths|)| ==> PlannedFiles(w, edits, paths, |paths|)[i].path != paths[f]
  {
    PlannedAre(w, edits, paths, |paths|);
    hide AllApply, Planned, PlannedFiles, DistinctPaths, StateFrom, DistinctNames;
    var files := PlannedFiles(w, edits, paths, |paths|);
    forall i | 0 <= i < |files|
      ensures files[i].path != paths[f]
    {
      assert StateFrom(w, edits, paths, |paths|, files[i]);
      var g := StateIs(w, edits, paths, files[i]);
      DifferentNames(paths, f, g);
    }
  }

  lemma PlannedIsThere(w: Setting, p: Contents, paths: seq<string>, f: nat, targets: set<string>)
    requires ValidSetting(w) && AllApply(w, p.edits) && |p.edits| == |paths| && DistinctNames(paths)
    requires OwnedBy(p, targets) && AllOwnedEdits(p.edits) && f < |p.edits| && p.edits[f] != [] && |w.files| == |p.edits|
    ensures var files := PlannedFiles(w, p.edits, paths, |paths|);
      exists i :: 0 <= i < |files| && IsState(w, f, p.edits[f], paths[f], files[i])
  {
    PlannedAre(w, p.edits, paths, |paths|);
    hide AllApply, Planned, PlannedFiles, DistinctPaths, StateFrom, IsState, OwnedBy, AllOwnedEdits, ValidSetting, ValidFile;
    var files, state := PlannedFiles(w, p.edits, paths, |paths|), Planned(w, p.edits, paths[f], f);
    PlannedIsValid(w, p, paths[f], f, targets);
    var i :| 0 <= i < |files| && files[i] == state;
  }

  /** What Render returns holds the plan, and the write can start with it. */
  lemma RenderedHolds(w: Setting, p: Contents, paths: seq<string>, targets: set<string>)
    requires ValidSetting(w) && AllApply(w, p.edits) && |paths| == |p.edits| && DistinctNames(paths)
    requires OwnedBy(p, targets) && AllOwnedEdits(p.edits)
    ensures ValidFiles(PlannedFiles(w, p.edits, paths, |paths|), targets)
    ensures Holds(w, p.edits, paths, PlannedFiles(w, p.edits, paths, |paths|))
  {
    hide AllApply, Planned, PlannedFiles, ValidFiles, IsState, OwnedBy, AllOwnedEdits, ValidSetting, DistinctNames;
    NothingPlanned(w, p.edits, paths);
    RenderedValid(w, p, paths, targets);
    var files := PlannedFiles(w, p.edits, paths, |paths|);
    forall f | 0 <= f < |paths|
      ensures p.edits[f] == [] ==> forall i :: 0 <= i < |files| ==> files[i].path != paths[f]
      ensures p.edits[f] != [] ==> exists i :: 0 <= i < |files| && IsState(w, f, p.edits[f], paths[f], files[i])
    {
      if p.edits[f] == [] {
        UnplannedIsAbsent(w, p.edits, paths, f);
      } else {
        PlannedIsThere(w, p, paths, f, targets);
      }
    }
  }

  lemma PlannedPath(w: Setting, edits: seq<seq<TextEdit>>, path: string, f: nat)
    requires AllApply(w, edits) && f < |edits|
    ensures Planned(w, edits, path, f).path == path
  {
    hide CanApply, Edited;
  }

  // ---- a run of reverts ------------------------------------------------------------------------

  /** Every operation of a run of reverts succeeds. */
  ghost predicate AllCallsFine(ios: (nat, nat) -> Io, calls: nat, files: nat) {
    forall k, i :: 0 <= k < calls && 0 <= i < files ==> ios(k, i).readable && ios(k, i).outcome.Synced?
  }

  /** Every target is reverted already, or named by some call. */
  predicate NamesAll(targets: set<string>, reverted: set<string>, calls: seq<Named>) {
    forall svc :: svc in targets ==> svc in reverted || SomeNames(calls, svc)
  }

  /** Reverts one after another: which services they named in all decides what is left. */
  method RevertEach(write: ImageWrite, calls: seq<Named>, ios: (nat, nat) -> Io, load: Paths -> Option<Project>)
    requires write.Valid()
    modifies write, write.disk
    ensures write.Valid() && |write.files| == |old(write.files)|
    ensures forall i :: 0 <= i < |write.files| ==> SameWrite(write.files[i], old(write.files)[i])
    ensures SameElsewhere(write.files, |write.files|, write.disk.files, old(write.disk.files))
    ensures write.files != [] ==> write.reverted == AfterReverts(write.targets.Keys, old(write.reverted), calls)
    ensures old(write.Settled()) && AllCallsFine(ios, |calls|, |write.files|) ==> write.Settled()
    ensures old(write.Settled()) && AllCallsFine(ios, |calls|, |write.files|) && NamesAll(write.targets.Keys, old(write.reverted), calls) ==>
      AsFound(write.files, write.disk.files)
  {
    hide ImageWrite.Settled, SameElsewhere, AsFound, ImageWrite.Valid, AfterReverts, SomeNames, RevertsFile, SomeChanged, SomeFailed,
      SharesKept, Retargeted, KeptTargets, KeptOwners, NamesAll;
    RevertedInside(write);
    ghost var fine := old(write.Settled()) && AllCallsFine(ios, |calls|, |write.files|);
    ghost var was, d0 := write.files, write.disk.files;
    RunStart(write.files, d0, write.targets.Keys, write.reverted, calls);
    for k := 0 to |calls|
      invariant write.Valid() && |write.files| == |was|
      invariant forall i :: 0 <= i < |was| ==> SameWrite(write.files[i], was[i])
      invariant SameElsewhere(write.files, |write.files|, write.disk.files, d0)
      invariant write.files != [] ==>
        AfterReverts(write.targets.Keys, old(write.reverted), calls) == AfterReverts(write.targets.Keys, write.reverted, calls[k..])
      invariant fine ==> write.Settled()
    {
      ghost var files, d := write.files, write.disk.files;
      ghost var reverted := write.reverted;
      var r := write.Revert(calls[k], (i: nat) => ios(k, i), load);
      RevertedStates(files, write.files, d, write.disk.files, Reverting(write.targets.Keys, reverted, calls[k]), (i: nat) => ios(k, i));
      NextCall(write.targets.Keys, reverted, calls, k);
      SameStates(was, files, write.files);
      StillElsewhere(files, write.files, d0, d, write.disk.files);
    }
    RunEnd(write.targets.Keys, write.reverted, calls);
    if fine && NamesAll(write.targets.Keys, old(write.reverted), calls) {
      SettledIsFound(write, old(write.reverted), calls);
    }
  }

  lemma RunStart(files: seq<FileState>, d: Paths, targets: set<string>, reverted: set<string>, calls: seq<Named>)
    ensures SameElsewhere(files, |files|, d, d) && calls[0..] == calls
    ensures forall i :: 0 <= i < |files| ==> SameWrite(files[i], files[i])
  {
  }

  lemma RevertedInside(write: ImageWrite)
    requires write.Valid()
    ensures write.reverted <= write.targets.Keys
  {
  }

  lemma RevertedStates(files: seq<FileState>, now: seq<FileState>, d: Paths, d': Paths, reverting: set<string>, ios: nat -> Io)
    requires |files| == |now|
    requires forall i :: 0 <= i < |now| ==>
      RevertsFile(files[i], now[i], Get(d, now[i].path), Get(d', now[i].path), reverting, ios(i))
    ensures forall i :: 0 <= i < |now| ==> SameWrite(now[i], files[i])
  {
    hide CanApply, Reverted, Unchanged;
  }

  lemma NextCall(targets: set<string>, reverted: set<string>, calls: seq<Named>, k: nat)
    requires k < |calls|
    ensures AfterReverts(targets, reverted, calls[k..])
         == AfterReverts(targets, reverted + Reverting(targets, reverted, calls[k]), calls[k + 1..])
  {
    assert calls[k..][1..] == calls[k + 1..];
  }

  lemma RunEnd(targets: set<string>, reverted: set<string>, calls: seq<Named>)
    ensures AfterReverts(targets, reverted, calls[|calls|..]) == reverted
  {
  }

  lemma SameStates(was: seq<FileState>, files: seq<FileState>, now: seq<FileState>)
    requires |was| == |files| == |now| && forall i :: 0 <= i < |was| ==> SameWrite(files[i], was[i])
    requires forall i :: 0 <= i < |was| ==> SameWrite(now[i], files[i])
    ensures forall i :: 0 <= i < |was| ==> SameWrite(now[i], was[i])
  {
  }

  lemma StillElsewhere(files: seq<FileState>, now: seq<FileState>, d0: Paths, d: Paths, d': Paths)
    requires |files| == |now| && forall i :: 0 <= i < |files| ==> SameWrite(now[i], files[i])
    requires SameElsewhere(files, |files|, d, d0) && SameElsewhere(now, |now|, d', d)
    ensures SameElsewhere(now, |now|, d', d0)
  {
    forall path | Elsewhere(now, |now|, path)
      ensures Get(d', path) == Get(d0, path)
    {
      forall i | 0 <= i < |files|
        ensures files[i].path != path
      {
        assert SameWrite(now[i], files[i]);
      }
      assert Elsewhere(files, |files|, path);
    }
  }

  lemma SettledIsFound(write: ImageWrite, before: set<string>, calls: seq<Named>)
    requires write.Valid() && write.Settled() && before <= write.targets.Keys
    requires write.files != [] ==> write.reverted == AfterReverts(write.targets.Keys, before, calls)
    requires NamesAll(write.targets.Keys, before, calls)
    ensures AsFound(write.files, write.disk.files)
  {
    hide ValidFile, Reverted, CanApply, AfterReverts, SomeNames;
    RevertsAccumulate(write.targets.Keys, before, calls);
    AllCanApply(write.files, write.targets.Keys);
    forall i | 0 <= i < |write.files|
      ensures Get(write.disk.files, write.files[i].path) == Original(write.files[i])
    {
      AllReverted(write.files[i], write.targets.Keys, write.reverted);
    }
  }

  // ---- what the disk says ---------------------------------------------------------------------------

  /** The env files are on disk as the plan found them. */
  ghost predicate Found(w: Setting, paths: seq<string>, d: Paths) {
    && |paths| == |w.files|
    && forall f :: 0 <= f < |paths| ==> Get(d, paths[f]) == if w.files[f].existed then Some(w.files[f].data) else None
  }

  /** A file that is not there says nothing. */
  function TextAt(d: Paths, path: string): string {
    if path in d then d[path] else ""
  }

  function TextsAt(d: Paths, paths: seq<string>): (r: seq<string>)
    ensures |r| == |paths| && forall f :: 0 <= f < |paths| ==> r[f] == TextAt(d, paths[f])
  {
    seq(|paths|, f requires 0 <= f < |paths| => TextAt(d, paths[f]))
  }

  lemma NothingWritten(data: string, reverted: set<string>)
    ensures WrittenAs(data, KeptEdits([], reverted), data)
  {
    NoEditsKept(reverted);
    assert SortedByStart([]) == [];
  }

  /** A disk whose files are settled holds, for each env file, its original with the kept edits applied. */
  lemma SettledText(w: Setting, p: Contents, paths: seq<string>, files: seq<FileState>, d0: Paths, d: Paths, reverted: set<string>, f: nat)
    requires ValidSetting(w) && FirstUnreadable(w, 0).None? && PlanInvariant(w, p) && CleanPlan(w, p)
    requires Holds(w, p.edits, paths, files) && Found(w, paths, d0) && f < |p.edits|
    requires forall i :: 0 <= i < |files| ==> CanApply(files[i].original, files[i].edits)
    requires SettledFiles(files, d, reverted) && SameElsewhere(files, |files|, d, d0)
    ensures f < |w.files| && f < |paths| && WrittenAs(w.files[f].data, KeptEdits(p.edits[f], reverted), TextAt(d, paths[f]))
  {
    hide FirstUnreadable, PlanInvariant, CleanPlan, CanApply, WrittenAs, Reverted, KeptEdits;
    if p.edits[f] == [] {
      assert Elsewhere(files, |files|, paths[f]);
      NothingWritten(w.files[f].data, reverted);
    } else {
      var i :| 0 <= i < |files| && IsState(w, f, p.edits[f], paths[f], files[i]);
      RevertedFileIsWritten(w, p, f, reverted, files[i]);
      NothingWritten("", reverted);
      NoEditsKept(reverted);
    }
  }

  /**
    Put-get on disk: whenever the files of a planned run are as the last write or revert
    without a failure left them, the env files on disk all scan, each service not
    reverted finds its image in its variable, and no other key has changed.
   */
  lemma SettledSetsVariables(w: Setting, plans: seq<Contents>, calls: seq<Call>, paths: seq<string>, files: seq<FileState>,
                             d0: Paths, d: Paths, reverted: set<string>)
    returns (bss: seq<seq<Binding>>)
    requires ValidSetting(w) && FirstUnreadable(w, 0).None? && RefusesEmptyTags(w.grammar)
    requires PlannedInTurn(w, plans, calls) && plans[0] == EmptyPlan(w) && SafeCalls(calls)
    requires var p := plans[|calls|];
      |p.changes| == |p.edits| == |w.files| && CleanPlaces(w, p) && EndsHold(w, p, reverted) && Holds(w, p.edits, paths, files)
    requires Found(w, paths, d0) && (forall i :: 0 <= i < |files| ==> CanApply(files[i].original, files[i].edits))
    requires SettledFiles(files, d, reverted) && SameElsewhere(files, |files|, d, d0)
    ensures |bss| == |paths| && forall f :: 0 <= f < |paths| ==> FileBindings(w.sc, TextAt(d, paths[f])) == Ok(bss[f])
    ensures var before, after := Eval(w.process, Flatten(AllBindings(w))), Eval(w.process, Flatten(bss));
      SetsVariables(plans[|calls|], reverted, before, after) && ServicesSet(w, calls, reverted, after)
  {
    hide *;
    RunLength(w, plans, calls);
    var p := plans[|calls|];
    RunPlans(w, plans, calls);
    PlanForParts(w, p, calls);
    SafeIsClean(w, p);
    HoldsLength(w, p.edits, paths, files);
    var texts := TextsAt(d, paths);
    forall f | 0 <= f < |texts|
      ensures WrittenAs(w.files[f].data, KeptEdits(p.edits[f], reverted), texts[f])
    {
      SettledText(w, p, paths, files, d0, d, reverted, f);
    }
    bss := RunSetsVariables(w, plans, calls, reverted, texts);
  }

  lemma HoldsLength(w: Setting, edits: seq<seq<TextEdit>>, paths: seq<string>, files: seq<FileState>)
    requires Holds(w, edits, paths, files)
    ensures |edits| == |paths| == |w.files|
  {
    hide IsState;
  }

  // ---- from the plan to the last revert ---------------------------------------------------------------

  /** What a caller knows of a run before it writes anything. */
  ghost predicate ReadyToWrite(w: Setting, plans: seq<Contents>, calls: seq<Call>, paths: seq<string>, targets: set<string>, d: Paths) {
    && ValidSetting(w) && FirstUnreadable(w, 0).None? && RefusesEmptyTags(w.grammar)
    && PlannedInTurn(w, plans, calls) && plans[0] == EmptyPlan(w) && SafeCalls(calls) && Services(calls) <= targets
    && |plans[|calls|].changes| == |plans[|calls|].edits| == |w.files| && CleanPlaces(w, plans[|calls|])
    && Found(w, paths, d) && DistinctNames(paths)
  }

  lemma ReadyFiles(w: Setting, plans: seq<Contents>, calls: seq<Call>, paths: seq<string>, targets: set<string>, d: Paths)
    requires ReadyToWrite(w, plans, calls, paths, targets, d)
    ensures |plans| == |calls| + 1
    ensures var p := plans[|calls|];
      && |paths| == |p.edits| && AllApply(w, p.edits) && Holds(w, p.edits, paths, PlannedFiles(w, p.edits, paths, |paths|))
      && ValidFiles(PlannedFiles(w, p.edits, paths, |paths|), targets)
      && AsFound(PlannedFiles(w, p.edits, paths, |paths|), d)
  {
    hide *;
    RunOf(w, plans, calls, paths, targets, d);
    var p := plans[|calls|];
    RunPlans(w, plans, calls);
    PlanForParts(w, p, calls);
    SafeIsClean(w, p);
    EditsApply(w, p);
    OwnersInside(p, Services(calls), targets);
    EditsOwned(w, p);
    RenderedHolds(w, p, paths, targets);
    FoundIsAsFound(w, p.edits, paths, d);
  }

  lemma RunOf(w: Setting, plans: seq<Contents>, calls: seq<Call>, paths: seq<string>, targets: set<string>, d: Paths)
    requires ReadyToWrite(w, plans, calls, paths, targets, d)
    ensures ValidSetting(w) && FirstUnreadable(w, 0).None? && RefusesEmptyTags(w.grammar)
    ensures PlannedInTurn(w, plans, calls) && |plans| == |calls| + 1 && plans[0] == EmptyPlan(w) && SafeCalls(calls)
    ensures Services(calls) <= targets && Found(w, paths, d) && DistinctNames(paths)
    ensures var p := plans[|calls|]; |p.changes| == |p.edits| == |w.files| == |paths| && CleanPlaces(w, p)
  {
    hide PlansVar, FirstUnreadable, ValidSetting, SafeCalls, CleanPlaces, RefusesEmptyTags;
  }

  lemma EditsApply(w: Setting, p: Contents)
    requires ValidSetting(w) && FirstUnreadable(w, 0).None? && PlanInvariant(w, p) && |p.changes| == |p.edits| == |w.files| && CleanPlan(w, p)
    ensures AllApply(w, p.edits)
  {
    hide ValidSetting, FirstUnreadable, PlanInvariant, CleanPlan, CanApply, Reverted, WrittenAs;
    forall f | 0 <= f < |p.edits|
      ensures CanApply(w.files[f].data, p.edits[f])
    {
      RevertedFileIsWritten(w, p, f, {}, FileState("", w.files[f].data, true, p.edits[f], "", false, ""));
    }
  }

  lemma OwnersInside(p: Contents, services: set<string>, targets: set<string>)
    requires OwnedBy(p, services) && services <= targets
    ensures OwnedBy(p, targets)
  {
  }

  lemma EditsOwned(w: Setting, p: Contents)
    requires PlanInvariant(w, p)
    ensures AllOwnedEdits(p.edits)
  {
    hide NoOverlap, AllLeadsRight, Fits, HasEdit, TargetOf, BindingsAt;
    forall f, k | 0 <= f < |p.edits| && 0 <= k < |p.edits[f]|
      ensures p.edits[f][k].owners != []
    {
      assert Recorded(w, p.vars, f, k, p.edits[f][k], p.changes[f][k]);
      FitsOwned(w, f, p.edits[f][k], p.changes[f][k]);
    }
  }

  lemma FoundOriginal(w: Setting, edits: seq<seq<TextEdit>>, paths: seq<string>, f: nat, d: Paths)
    requires AllApply(w, edits) && f < |edits| == |paths| && Found(w, paths, d)
    ensures Get(d, paths[f]) == Original(Planned(w, edits, paths[f], f))
  {
    hide CanApply, Edited;
  }

  lemma FoundIsAsFound(w: Setting, edits: seq<seq<TextEdit>>, paths: seq<string>, d: Paths)
    requires AllApply(w, edits) && |edits| == |paths| && DistinctNames(paths) && Found(w, paths, d)
    ensures AsFound(PlannedFiles(w, edits, paths, |paths|), d)
  {
    PlannedAre(w, edits, paths, |paths|);
    hide PlannedFiles, CanApply, Edited;
    hide AllApply, Planned, StateFrom, DistinctPaths;
    var files := PlannedFiles(w, edits, paths, |paths|);
    forall i | 0 <= i < |files|
      ensures Get(d, files[i].path) == Original(files[i])
    {
      var f := StateIs(w, edits, paths, files[i]);
      FoundOriginal(w, edits, paths, f, d);
    }
  }

  /** The states a write keeps hold the plan it started with. */
  lemma StillHolds(w: Setting, edits: seq<seq<TextEdit>>, paths: seq<string>, files: seq<FileState>, now: seq<FileState>)
    requires Holds(w, edits, paths, files) && |now| == |files| && forall i :: 0 <= i < |files| ==> SameWrite(now[i], files[i])
    ensures Holds(w, edits, paths, now)
  {
    forall f | 0 <= f < |paths| && edits[f] != []
      ensures exists i :: 0 <= i < |now| && IsState(w, f, edits[f], paths[f], now[i])
    {
      var i :| 0 <= i < |files| && IsState(w, f, edits[f], paths[f], files[i]);
      assert SameWrite(now[i], files[i]);
      assert IsState(w, f, edits[f], paths[f], now[i]);
    }
  }

  /**
    A planned run written, verified and then reverted for some services: when no
    operation fails, the env files on disk say what the plan promises for the others.
   */
  method WriteThenRevert(plan: WritePlan, ghost plans: seq<Contents>, ghost calls: seq<Call>, paths: seq<string>, disk: Disk,
                         targets: map<string, string>, baseline: Project, writes: nat -> Outcome, load: Paths -> Option<Project>,
                         restores: nat -> Outcome, backs: nat -> Outcome, named: seq<Named>, ios: (nat, nat) -> Io)
    returns (write: ImageWrite, r: Commit, ghost bss: seq<seq<Binding>>)
    requires ReadyToWrite(plan.w, plans, calls, paths, targets.Keys, disk.files) && |plans| == |calls| + 1
    requires plan.edits == plans[|calls|].edits
    requires EndsHold(plan.w, plans[|calls|], AfterReverts(targets.Keys, {}, named))
    modifies disk
    ensures write.disk == disk && write.Valid()
    ensures r.Committed? && write.files != [] ==> write.reverted == AfterReverts(targets.Keys, {}, named)
    ensures r.Committed? && AllCallsFine(ios, |named|, |write.files|) ==>
      && |bss| == |paths| && (forall f :: 0 <= f < |paths| ==> FileBindings(plan.w.sc, TextAt(disk.files, paths[f])) == Ok(bss[f]))
      && var before, after := Eval(plan.w.process, Flatten(AllBindings(plan.w))), Eval(plan.w.process, Flatten(bss));
         SetsVariables(plans[|calls|], write.reverted, before, after) && ServicesSet(plan.w, calls, write.reverted, after)
  {
    hide *;
    ghost var w, d0 := plan.w, disk.files;
    ReadyFiles(w, plans, calls, paths, targets.Keys, d0);
    RunOf(w, plans, calls, paths, targets.Keys, d0);
    bss := [];
    var files := Render(plan, paths);
    write := new ImageWrite(disk, targets, baseline, files);
    r := write.WriteVerified(writes, load, restores, backs);
    if r.Committed? {
      ghost var was, d := write.files, disk.files;
      RevertEach(write, named, ios, load);
      if AllCallsFine(ios, |named|, |write.files|) {
        SameStates(files, was, write.files);
        StillElsewhere(was, write.files, d0, d, disk.files);
        StillHolds(w, plans[|calls|].edits, paths, files, write.files);
        SettledIs(write);
        if write.files == [] {
          RunPlans(w, plans, calls);
          PlanForParts(w, plans[|calls|], calls);
          NothingToHold(w, plans[|calls|], paths, write.files, write.reverted);
        }
        bss := SettledSetsVariables(w, plans, calls, paths, write.files, d0, disk.files, write.reverted);
      }
    }
  }

  lemma SettledIs(write: ImageWrite)
    requires write.Valid() && write.Settled()
    ensures write.reverted <= write.targets.Keys
    ensures forall i :: 0 <= i < |write.files| ==> CanApply(write.files[i].original, write.files[i].edits)
    ensures SettledFiles(write.files, write.disk.files, write.reverted)
  {
    AllCanApply(write.files, write.targets.Keys);
  }

  lemma NothingToHold(w: Setting, p: Contents, paths: seq<string>, files: seq<FileState>, reverted: set<string>)
    requires PlanInvariant(w, p) && |p.changes| == |w.files| && Holds(w, p.edits, paths, files) && files == []
    ensures EndsHold(w, p, reverted)
  {
    hide PlanInvariant, EndHolds, StatementsOf;
    InvariantLengths(w, p);
    forall f | 0 <= f < |w.files|
      ensures EndHolds(w.sc, FilePlans(w, p)[f], reverted)
    {
      assert p.changes[f] == [];
      NoChangesHold(w.sc, FilePlans(w, p)[f], reverted);
    }
  }

  lemma NoChangesHold(sc: Scanner, file: FilePlan, reverted: set<string>)
    requires file.changes == []
    ensures EndHolds(sc, file, reverted)
  {
    assert KeptChanges(file.changes, reverted) == [];
  }
}
