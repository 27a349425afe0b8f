/**
  Writing an image change to disk, all of it or nothing, and undoing it for any of
  its services (tagwrite.go).
 */
module ImageWrites {
  import opened Text
  import opened TextEdits
  import opened Disks
  import opened ImageChecks

  /** One file, as the write found it, and what the agent last left in it. */
  datatype FileState = FileState(path: string, original: string, existed: bool, edits: seq<TextEdit>, written: string,
                                 present: bool, current: string)

  function Original(f: FileState): Option<string> {
    if f.existed then Some(f.original) else None
  }

  function LastLeft(f: FileState): Option<string> {
    if f.present then Some(f.current) else None
  }

  ghost predicate CanApply(original: string, edits: seq<TextEdit>) {
    InRange(original, edits) && NoOverlap(edits) && NoneCrossed(edits)
  }

  /** The text with the edits applied. */
  ghost function Edited(original: string, edits: seq<TextEdit>): string
    requires CanApply(original, edits)
  {
    OneSortedPass(original, edits);
    Rendered(original, SortedByStart(edits))
  }

  /** What a file is when the services in `reverted` have their old images back. */
  ghost function Reverted(f: FileState, reverted: set<string>): Option<string>
    requires CanApply(f.original, f.edits)
  {
    var kept := KeptEdits(f.edits, reverted);
    KeptCanApply(f.original, f.edits, reverted);
    if f.existed || kept != [] then Some(Edited(f.original, kept)) else None
  }

  lemma {:induction false} KeptCanApply(original: string, edits: seq<TextEdit>, reverted: set<string>)
    requires CanApply(original, edits)
    ensures CanApply(original, KeptEdits(edits, reverted))
  {
    if edits != [] {
      hide CanApply, Needed, KeptEdits;
      var n := |edits| - 1;
      var front, e := edits[..n], edits[n];
      assert edits == front + [e];
      FrontCanApply(original, front, e);
      KeptCanApply(original, front, reverted);
      KeptEnd(front, e, reverted);
      if Needed(e.owners, reverted) {
        KeptInside(front, reverted);
        EndCanApply(original, front, KeptEdits(front, reverted), e);
      }
    }
  }

  lemma KeptInside(edits: seq<TextEdit>, reverted: set<string>)
    ensures forall e :: e in KeptEdits(edits, reverted) ==> e in edits
  {
  }

  lemma FrontCanApply(original: string, front: seq<TextEdit>, e: TextEdit)
    requires CanApply(original, front + [e])
    ensures CanApply(original, front)
  {
    hide Overlap, Crossed;
    LastClear(front, e);
    assert forall i :: 0 <= i < |front| ==> (front + [e])[i] == front[i];
  }

  lemma EndCanApply(original: string, front: seq<TextEdit>, part: seq<TextEdit>, e: TextEdit)
    requires CanApply(original, front + [e]) && CanApply(original, part) && forall x :: x in part ==> x in front
    ensures CanApply(original, part + [e])
  {
    hide Overlap, Crossed, NoOverlap, NoneCrossed;
    LastClear(front, e);
    LastClear(part, e);
    assert (front + [e])[|front|] == e;
  }

  ghost predicate DistinctPaths(files: seq<FileState>) {
    forall i, j :: 0 <= i < j < |files| ==> files[i].path != files[j].path
  }

  ghost predicate ValidFile(f: FileState, targets: set<string>) {
    && CanApply(f.original, f.edits) && f.edits != []
    && f.written == Edited(f.original, f.edits)
    && (!f.existed ==> f.original == "")
    && (forall e :: e in f.edits ==> e.owners != [] && forall o :: o in e.owners ==> o in targets)
  }

  ghost predicate ValidFiles(files: seq<FileState>, targets: set<string>) {
    DistinctPaths(files) && forall i :: 0 <= i < |files| ==> ValidFile(files[i], targets)
  }

  /** Every path that is none of the first `n` files. */
  ghost predicate Elsewhere(files: seq<FileState>, n: nat, path: string)
    requires n <= |files|
  {
    forall i :: 0 <= i < n ==> files[i].path != path
  }

  ghost predicate SameElsewhere(files: seq<FileState>, n: nat, a: Paths, b: Paths)
    requires n <= |files|
  {
    forall path :: Elsewhere(files, n, path) ==> Get(a, path) == Get(b, path)
  }

  /** The disk holds every file as the write found it. */
  ghost predicate AsFound(files: seq<FileState>, d: Paths) {
    forall i :: 0 <= i < |files| ==> Get(d, files[i].path) == Original(files[i])
  }

  datatype WriteResult = AllWritten | WriteFailed(at: nat, restored: bool)

  class ImageWrite {
    const disk: Disk
    const targets: map<string, string>
    const baseline: Project
    var files: seq<FileState>
    var reverted: set<string>

    ghost predicate Valid()
      reads this
    {
      ValidFiles(files, targets.Keys) && reverted <= targets.Keys
    }

    constructor (disk: Disk, targets: map<string, string>, baseline: Project, files: seq<FileState>)
      requires ValidFiles(files, targets.Keys)
      ensures this.disk == disk && this.targets == targets && this.baseline == baseline && this.files == files
      ensures Valid() && reverted == {}
    {
      this.disk, this.targets, this.baseline, this.files, reverted := disk, targets, baseline, files, {};
    }

    /** What the write and its reverts leave, when nothing failed and no one else wrote. */
    ghost predicate Settled()
      reads this, disk
      requires Valid()
    {
      AllCanApply(files, targets.Keys);
      SettledFiles(files, disk.files, reverted)
    }

    /** restoreFiles: the first `n` files back to their original bytes, each unless its own write has no effect. */
    method RestoreFiles(n: nat, outcomes: nat -> Outcome) returns (ok: bool)
      requires n <= |files| && DistinctPaths(files)
      modifies disk
      ensures forall i :: 0 <= i < n ==> RestoredBy(files[i], old(disk.files), disk.files, outcomes(i))
      ensures SameElsewhere(files, n, disk.files, old(disk.files))
      ensures ok <==> forall i :: 0 <= i < n ==> RestoresFine(files[i], old(disk.files), outcomes(i))
    {
      ghost var d0 := disk.files;
      ok := true;
      for i := 0 to n
        invariant forall j :: 0 <= j < i ==> RestoredBy(files[j], d0, disk.files, outcomes(j))
        invariant SameElsewhere(files, i, disk.files, d0)
        invariant ok <==> forall j :: 0 <= j < i ==> RestoresFine(files[j], d0, outcomes(j))
      {
        ghost var before := disk.files;
        var done := disk.RestoreFile(files[i].path, files[i].original, files[i].existed, outcomes(i));
        assert forall p :: p != files[i].path ==> Get(disk.files, p) == Get(before, p);
        assert Elsewhere(files, i, files[i].path);
        ok := ok && done;
      }
    }

    /**
      writeAll: every file, or none of them. A failed write restores the files
      written before it; the failing file itself is as the failure left it.
     */
    method WriteAll(writes: nat -> Outcome, restores: nat -> Outcome) returns (r: WriteResult)
      requires Valid() && AsFound(files, disk.files)
      modifies this`files, disk
      ensures Valid() && |files| == |old(files)|
      ensures forall i :: 0 <= i < |files| ==> SameWrite(files[i], old(files)[i])
      ensures r.AllWritten? <==> forall i :: 0 <= i < |files| ==> writes(i).Synced?
      ensures r.AllWritten? ==>
        && SameElsewhere(files, |files|, disk.files, old(disk.files))
        && (forall i :: 0 <= i < |files| ==> IsWritten(files[i], disk.files))
      ensures r.WriteFailed? ==>
        && r.at < |files| && !writes(r.at).Synced? && (forall i :: 0 <= i < r.at ==> writes(i).Synced?)
      ensures r.WriteFailed? && (forall i :: 0 <= i < r.at ==> restores(i).Synced?) ==> r.restored
      ensures r.WriteFailed? && r.restored ==>
        disk.files == if writes(r.at).Untouched? then old(disk.files)
                      else Put(old(disk.files), files[r.at].path, Some(files[r.at].written))
      ensures r.WriteFailed? && r.restored ==>
        (disk.files == old(disk.files) <==> writes(r.at).Untouched? || Original(files[r.at]) == Some(files[r.at].written))
    {
      hide ValidFiles, SameElsewhere, AsFound, WriteState, RestoredBy, RestoresFine;
      ghost var d0, was := disk.files, files;
      WriteStart(was, d0, targets.Keys);
      for i := 0 to |files|
        invariant |files| == |was| && reverted == old(reverted)
        invariant WriteState(was, targets.Keys, files, i, d0, disk.files)
        invariant forall j :: 0 <= j < i ==> writes(j).Synced?
      {
        var f := files[i];
        ghost var before := disk.files;
        var ok := disk.WriteAtomic(f.path, f.written, writes(i));
        if !ok {
          ghost var failed := disk.files;
          WriteFacts(was, targets.Keys, files, i, d0, before);
          var restored := RestoreFiles(i, restores);
          SyncedRestoresFine(files, i, failed, restores);
          if restored {
            RestoredFine(files, i, failed, disk.files, restores);
            AllRestored(was, files, i, writes(i), d0, before, failed, disk.files);
            FoundBefore(was, files, i, d0);
          }
          return WriteFailed(i, restored);
        }
        WrittenNext(was, targets.Keys, files, i, d0, before);
        files := files[i := f.(present := true, current := f.written)];
      }
      WriteFacts(was, targets.Keys, files, |files|, d0, disk.files);
      return AllWritten;
    }

    /**
      The end of writeServiceImages: the planned files written and the project loaded
      again, or every file as it was.
     */
    method WriteVerified(writes: nat -> Outcome, load: Paths -> Option<Project>, restores: nat -> Outcome, backs: nat -> Outcome)
      returns (r: Commit)
      requires Valid() && reverted == {} && AsFound(files, disk.files)
      modifies this`files, disk
      ensures Valid() && |files| == |old(files)|
      ensures forall i :: 0 <= i < |files| ==> SameWrite(files[i], old(files)[i])
      ensures r.Committed? <==>
        && (forall i :: 0 <= i < |files| ==> writes(i).Synced?)
        && load(AllWrittenPaths(old(files), |old(files)|, old(disk.files))) == Some(Retargeted(baseline, targets))
      ensures r.Committed? ==>
        Settled() && load(disk.files) == Some(Retargeted(baseline, targets)) && SameElsewhere(files, |files|, disk.files, old(disk.files))
      ensures r.NotWritten? ==>
        r.at < |files| && !writes(r.at).Synced? && (forall i :: 0 <= i < r.at ==> writes(i).Synced?)
      ensures r.NotWritten? && (forall i :: 0 <= i < r.at ==> restores(i).Synced?) ==> r.restored
      ensures r.NotWritten? && r.restored ==>
        disk.files == if writes(r.at).Untouched? then old(disk.files)
                      else Put(old(disk.files), files[r.at].path, Some(files[r.at].written))
      ensures r.NotWritten? && r.restored ==>
        (disk.files == old(disk.files) <==> writes(r.at).Untouched? || Original(files[r.at]) == Some(files[r.at].written))
      ensures r.NotVerified? ==> forall i :: 0 <= i < |files| ==> writes(i).Synced?
      ensures r.NotVerified? && (forall i :: 0 <= i < |files| ==> backs(i).Synced?) ==> r.restored
      ensures r.NotVerified? && r.restored ==> disk.files == old(disk.files)
    {
      hide ValidFiles, SameElsewhere, AsFound, RestoredBy, RestoresFine, Original, SettledFiles, IsWritten, Retargeted, AllWrittenPaths, SameWrite;
      ghost var was, d0 := files, disk.files;
      var written := WriteAll(writes, restores);
      if written.WriteFailed? {
        return NotWritten(written.at, written.restored);
      }
      AllWrittenIs(was, files, targets.Keys, d0, disk.files);
      var after := load(disk.files);
      var ok := false;
      if after.Some? {
        ok := VerifyImages(baseline, after.value, targets);
      }
      if ok {
        AllCanApply(files, targets.Keys);
        WrittenIsSettled(files, targets.Keys, disk.files);
        return Committed;
      }
      ghost var d := disk.files;
      DistinctOf(files, targets.Keys);
      var restored := RestoreFiles(|files|, backs);
      SyncedRestoresFine(files, |files|, d, backs);
      if restored {
        RestoredFine(files, |files|, d, disk.files, backs);
        AllBack(was, files, d0, d, disk.files);
      }
      return NotVerified(restored);
    }

    method Rebuild(original: string, edits: seq<TextEdit>) returns (content: string)
      requires CanApply(original, edits)
      ensures content == Edited(original, edits)
    {
      content := ApplyEdits(original, edits);
    }

    method EditOwners(e: TextEdit, reverting: set<string>, named: Named) returns (owners: set<string>, shared: bool)
      ensures owners == Elements(e.owners) && (shared <==> SharesKept(owners, reverting, named))
    {
      owners, shared := {}, false;
      for k := 0 to |e.owners|
        invariant owners == Elements(e.owners[..k])
        invariant shared <==> SharesKept(owners, reverting, named)
      {
        var o := e.owners[k];
        assert e.owners[..k + 1] == e.owners[..k] + [o];
        if o in reverting && Names(named, o) {
          shared := true;
        }
        owners := owners + {o};
      }
      assert e.owners[..|e.owners|] == e.owners;
    }

    /** The edits a revert keeps, who owns them, and whether a service named now owns one it shares. */
    method KeepEdits(edits: seq<TextEdit>, reverting: set<string>, named: Named)
      returns (keep: seq<TextEdit>, owners: set<string>, shared: bool)
      ensures keep == KeptEdits(edits, reverting)
      ensures owners == OwnersOf(KeptEdits(edits, reverting))
      ensures shared <==> SharesKept(owners, reverting, named)
    {
      hide KeptEdits, OwnersOf, Elements;
      keep, owners, shared := [], {}, false;
      NoEditsKept(reverting);
      NoOwners();
      assert edits[..0] == [];
      for i := 0 to |edits|
        invariant keep == KeptEdits(edits[..i], reverting)
        invariant owners == OwnersOf(keep)
        invariant shared <==> SharesKept(owners, reverting, named)
      {
        var e := edits[i];
        assert edits[..i + 1] == edits[..i] + [e];
        KeptEnd(edits[..i], e, reverting);
        OwnersEnd(keep, e);
        if exists k :: 0 <= k < |e.owners| && e.owners[k] !in reverting {
          var its, some := EditOwners(e, reverting, named);
          SharedUnion(owners, its, reverting, named);
          keep, owners, shared := keep + [e], owners + its, shared || some;
        }
      }
      assert edits[..|edits|] == edits;
    }

    /**
      revert: every file the agent left as it is becomes the original with the edits
      of services no revert has named; a file someone else changed is left alone.
     */
    method Revert(named: Named, ios: nat -> Io, load: Paths -> Option<Project>) returns (r: Problems)
      requires Valid()
      modifies this, disk
      ensures Valid() && |files| == |old(files)|
      ensures files == [] ==> r == NO_PROBLEMS && reverted == old(reverted) && disk.files == old(disk.files)
      ensures files != [] ==> reverted == old(reverted) + Reverting(targets.Keys, old(reverted), named)
      ensures forall i :: 0 <= i < |files| ==>
        RevertsFile(old(files)[i], files[i], Get(old(disk.files), files[i].path), Get(disk.files, files[i].path),
                    Reverting(targets.Keys, old(reverted), named), ios(i))
      ensures SameElsewhere(files, |files|, disk.files, old(disk.files))
      ensures r.changed <==> SomeChanged(old(files), |files|, old(disk.files), ios)
      ensures r.failed <==> SomeFailed(old(files), |files|, old(disk.files), Reverting(targets.Keys, old(reverted), named), ios)
      ensures files != [] ==> var reverting := Reverting(targets.Keys, old(reverted), named);
        && (r.shared <==> SharesKept(KeptOwners(files, reverting), reverting, named))
        && (r.verified <==> load(disk.files) == Some(Retargeted(baseline, KeptTargets(targets, files, reverting))))
      ensures old(Settled()) && AllFine(ios, |files|) ==> Settled() && !r.changed && !r.failed
    {
      hide ValidFiles, RevertsFile, SameElsewhere, Unchanged, KeptEdits, CanApply, Edited, OwnersOf, RevertState, SomeChanged,
        Reverting, SomeFailed, SettledFiles, FileFails, AllFine, KeptOwners, SharesKept, Retargeted;
      AllCanApply(files, targets.Keys);
      if files == [] {
        NothingToRevert(files, disk.files, ios);
        return NO_PROBLEMS;
      }
      var reverting := Reverting(targets.Keys, reverted, named);
      RevertingInside(targets.Keys, reverted, named);
      ghost var d0, was := disk.files, files;
      var keptOwners: set<string>, changed, failed, shared := {}, false, false, false;
      RevertStart(was, targets.Keys, d0, reverting, ios);
      for i := 0 to |files|
        invariant |files| == |was| && reverted == old(reverted)
        invariant RevertState(was, targets.Keys, files, i, d0, disk.files, reverting, ios)
        invariant keptOwners == KeptOwners(was[..i], reverting)
        invariant changed <==> SomeChanged(was, i, d0, ios)
        invariant failed <==> SomeFailed(was, i, d0, reverting, ios)
        invariant shared <==> SharesKept(keptOwners, reverting, named)
      {
        var f := files[i];
        RevertFacts(was, targets.Keys, files, i, d0, disk.files, reverting, ios);
        var keep, owners, some := KeepEdits(f.edits, reverting, named);
        KeptOwnersNext(was, i, reverting);
        SharedUnion(keptOwners, owners, reverting, named);
        keptOwners, shared := keptOwners + owners, shared || some;
        FailedNext(was, i, d0, reverting, ios);
        ghost var before := disk.files;
        if !Unchanged(f, Get(disk.files, f.path), ios(i)) {
          changed := true;
          SkippedNext(was, targets.Keys, files, i, d0, before, reverting, ios);
          ChangedNext(was, i, d0, ios);
          continue;
        }
        var content := Rebuild(f.original, keep);
        var wanted := f.existed || |keep| > 0;
        var ok := disk.RestoreFile(f.path, content, wanted, ios(i).outcome);
        RestoredNext(was, targets.Keys, files, i, d0, before, disk.files, reverting, ios, content, wanted, ok);
        ChangedNext(was, i, d0, ios);
        if !ok {
          failed := true;
          continue;
        }
        files := files[i := f.(present := wanted, current := content)];
      }
      RevertFacts(was, targets.Keys, files, |files|, d0, disk.files, reverting, ios);
      ghost var before := reverted;
      reverted := reverted + reverting;
      if old(Settled()) && AllFine(ios, |files|) {
        AllCanApply(files, targets.Keys);
        StillSettled(was, files, targets.Keys, d0, disk.files, before, named, ios);
      }
      assert was[..|was|] == was;
      var kept := map o | o in keptOwners && o in targets :: targets[o];
      SameKept(was, files, reverting);
      var after := load(disk.files);
      var verified := false;
      if after.Some? {
        verified := VerifyImages(baseline, after.value, kept);
      }
      return Problems(changed, failed, shared, verified);
    }
  }

  datatype Commit = Committed | NotWritten(at: nat, restored: bool) | NotVerified(restored: bool)

  /** The disk with the first `n` files written. */
  function AllWrittenPaths(files: seq<FileState>, n: nat, d: Paths): Paths
    requires n <= |files|
  {
    if n == 0 then d else Put(AllWrittenPaths(files, n - 1, d), files[n - 1].path, Some(files[n - 1].written))
  }

  lemma {:induction false} AllWrittenAt(files: seq<FileState>, n: nat, d: Paths)
    requires n <= |files| && DistinctPaths(files)
    ensures forall i :: 0 <= i < n ==> Get(AllWrittenPaths(files, n, d), files[i].path) == Some(files[i].written)
    ensures SameElsewhere(files, n, AllWrittenPaths(files, n, d), d)
  {
    if n > 0 {
      AllWrittenAt(files, n - 1, d);
      var front, all := AllWrittenPaths(files, n - 1, d), AllWrittenPaths(files, n, d);
      forall path | Elsewhere(files, n, path)
        ensures Get(all, path) == Get(d, path)
      {
        assert Elsewhere(files, n - 1, path);
        assert files[n - 1].path != path;
      }
    }
  }

  lemma AllWrittenIs(was: seq<FileState>, files: seq<FileState>, targets: set<string>, d0: Paths, d: Paths)
    requires |files| == |was| && ValidFiles(was, targets) && ValidFiles(files, targets)
    requires forall i :: 0 <= i < |files| ==> SameWrite(files[i], was[i]) && IsWritten(files[i], d)
    requires SameElsewhere(files, |files|, d, d0)
    ensures d == AllWrittenPaths(was, |was|, d0)
  {
    hide ValidFile;
    AllWrittenAt(was, |was|, d0);
    var all := AllWrittenPaths(was, |was|, d0);
    hide AllWrittenPaths;
    forall path
      ensures Get(d, path) == Get(all, path)
    {
      if i :| 0 <= i < |files| && files[i].path == path {
        assert SameWrite(files[i], was[i]) && IsWritten(files[i], d);
      } else {
        assert Elsewhere(files, |files|, path);
        assert Elsewhere(was, |was|, path) by {
          forall i | 0 <= i < |was| ensures was[i].path != path { assert SameWrite(files[i], was[i]); }
        }
      }
    }
    SamePaths(d, all);
  }

  lemma DistinctOf(files: seq<FileState>, targets: set<string>)
    requires ValidFiles(files, targets)
    ensures DistinctPaths(files)
  {
  }

  lemma WrittenIsSettled(files: seq<FileState>, targets: set<string>, d: Paths)
    requires ValidFiles(files, targets) && forall i :: 0 <= i < |files| ==> IsWritten(files[i], d)
    requires forall i :: 0 <= i < |files| ==> CanApply(files[i].original, files[i].edits)
    ensures SettledFiles(files, d, {})
  {
    hide CanApply, Reverted;
    forall i | 0 <= i < |files|
      ensures Get(d, files[i].path) == LastLeft(files[i]) == Reverted(files[i], {})
    {
      assert IsWritten(files[i], d);
      NothingReverted(files[i], targets);
    }
  }

  /** With nothing reverted, a file is what the write put there. */
  lemma NothingReverted(f: FileState, targets: set<string>)
    requires ValidFile(f, targets) && CanApply(f.original, f.edits)
    ensures Reverted(f, {}) == Some(f.written)
  {
    hide CanApply, Edited;
    forall i | 0 <= i < |f.edits|
      ensures f.edits[i].owners != []
    {
      assert f.edits[i] in f.edits;
    }
    AllNeeded(f.edits, {});
  }

  lemma AllBack(was: seq<FileState>, files: seq<FileState>, d0: Paths, d: Paths, after: Paths)
    requires |files| == |was| && AsFound(was, d0) && DistinctPaths(files)
    requires forall i :: 0 <= i < |files| ==> SameWrite(files[i], was[i]) && Get(after, files[i].path) == Original(files[i])
    requires SameElsewhere(files, |files|, d, d0) && SameElsewhere(files, |files|, after, d)
    ensures after == d0
  {
    forall path
      ensures Get(after, path) == Get(d0, path)
    {
      if i :| 0 <= i < |files| && files[i].path == path {
        assert SameWrite(files[i], was[i]);
        assert Get(d0, was[i].path) == Original(was[i]);
      } else {
        assert Elsewhere(files, |files|, path);
      }
    }
    SamePaths(after, d0);
  }

  // ---- the first files written ---------------------------------------------------------

  /** Restoring a file leaves its original bytes, unless the write has no effect. */
  ghost predicate RestoredBy(f: FileState, before: Paths, after: Paths, o: Outcome) {
    Get(after, f.path) == if o.Untouched? then Get(before, f.path) else Original(f)
  }

  /** Restoring a file reports no failure. */
  predicate RestoresFine(f: FileState, before: Paths, o: Outcome) {
    o.Synced? || (!f.existed && f.path !in before)
  }

  lemma SyncedRestoresFine(files: seq<FileState>, n: nat, before: Paths, outcomes: nat -> Outcome)
    requires n <= |files|
    ensures (forall i :: 0 <= i < n ==> outcomes(i).Synced?) ==>
      forall i :: 0 <= i < n ==> RestoresFine(files[i], before, outcomes(i))
  {
  }

  lemma RestoredFine(files: seq<FileState>, n: nat, before: Paths, after: Paths, outcomes: nat -> Outcome)
    requires n <= |files| && forall i :: 0 <= i < n ==> RestoredBy(files[i], before, after, outcomes(i))
    requires forall i :: 0 <= i < n ==> RestoresFine(files[i], before, outcomes(i))
    ensures forall i :: 0 <= i < n ==> Get(after, files[i].path) == Original(files[i])
  {
    forall i | 0 <= i < n
      ensures Get(after, files[i].path) == Original(files[i])
    {
      assert RestoredBy(files[i], before, after, outcomes(i)) && RestoresFine(files[i], before, outcomes(i));
    }
  }

  /** Writing a file again changes the disk exactly when it was not what is written. */
  lemma FoundBefore(was: seq<FileState>, files: seq<FileState>, i: nat, d0: Paths)
    requires i < |files| == |was| && AsFound(was, d0) && SameWrite(files[i], was[i])
    ensures Put(d0, files[i].path, Some(files[i].written)) == d0 <==> Original(files[i]) == Some(files[i].written)
  {
    var path, d := files[i].path, Put(d0, files[i].path, Some(files[i].written));
    assert Get(d0, path) == Original(was[i]);
    assert Get(d, path) == Some(files[i].written);
    if Original(files[i]) == Some(files[i].written) {
      SamePaths(d, d0);
    }
  }

  /** The first `i` files are written, and nothing else. */
  ghost predicate WriteState(was: seq<FileState>, targets: set<string>, files: seq<FileState>, i: nat, d0: Paths, d: Paths) {
    && i <= |files| == |was| && ValidFiles(files, targets) && AsFound(was, d0)
    && (forall j :: 0 <= j < |files| ==> SameWrite(files[j], was[j]))
    && (forall j :: 0 <= j < i ==> IsWritten(files[j], d))
    && SameElsewhere(files, i, d, d0)
  }

  ghost predicate IsWritten(f: FileState, d: Paths) {
    Get(d, f.path) == LastLeft(f) == Some(f.written)
  }

  /** Two states of one file in one write. */
  ghost predicate SameWrite(f: FileState, g: FileState) {
    f == g.(present := f.present, current := f.current)
  }

  lemma WriteStart(was: seq<FileState>, d0: Paths, targets: set<string>)
    requires ValidFiles(was, targets) && AsFound(was, d0)
    ensures WriteState(was, targets, was, 0, d0, d0)
  {
    hide ValidFile;
  }

  lemma WriteFacts(was: seq<FileState>, targets: set<string>, files: seq<FileState>, i: nat, d0: Paths, d: Paths)
    requires WriteState(was, targets, files, i, d0, d)
    ensures ValidFiles(files, targets) && DistinctPaths(files) && AsFound(was, d0) && |files| == |was|
    ensures forall j :: 0 <= j < |files| ==> SameWrite(files[j], was[j])
    ensures forall j :: 0 <= j < i ==> IsWritten(files[j], d)
    ensures SameElsewhere(files, i, d, d0)
  {
    hide ValidFile;
  }

  lemma WrittenNext(was: seq<FileState>, targets: set<string>, files: seq<FileState>, i: nat, d0: Paths, d: Paths)
    requires i < |files| && WriteState(was, targets, files, i, d0, d)
    ensures var f := files[i];
      WriteState(was, targets, files[i := f.(present := true, current := f.written)], i + 1, d0, Put(d, f.path, Some(f.written)))
  {
    hide ValidFile, CanApply;
    var f := files[i];
    var after, d' := files[i := f.(present := true, current := f.written)], Put(d, f.path, Some(f.written));
    ValidUpdate(files, i, f.(present := true, current := f.written), targets);
    assert DistinctPaths(files);
    forall path | Elsewhere(after, i + 1, path)
      ensures Get(d', path) == Get(d0, path)
    {
      assert after[i].path == path || forall j :: 0 <= j < i ==> after[j] == files[j] && after[j].path != path;
      assert Elsewhere(files, i, path);
    }
    forall j | 0 <= j < i + 1
      ensures IsWritten(after[j], d')
    {
      if j < i {
        assert IsWritten(files[j], d);
      }
    }
  }

  lemma ValidUpdate(files: seq<FileState>, i: nat, f: FileState, targets: set<string>)
    requires i < |files| && ValidFiles(files, targets) && SameWrite(f, files[i])
    ensures ValidFiles(files[i := f], targets)
  {
    hide CanApply;
    var after := files[i := f];
    assert ValidFile(files[i], targets);
    forall j | 0 <= j < |after|
      ensures ValidFile(after[j], targets)
    {
      if j != i { assert ValidFile(files[j], targets); }
    }
  }

  lemma AllRestored(was: seq<FileState>, files: seq<FileState>, i: nat, o: Outcome, d0: Paths, before: Paths, failed: Paths, after: Paths)
    requires i < |files| == |was| && DistinctPaths(files) && AsFound(was, d0)
    requires forall j :: 0 <= j < |files| ==> SameWrite(files[j], was[j])
    requires SameElsewhere(files, i, before, d0)
    requires failed == if o.Untouched? then before else Put(before, files[i].path, Some(files[i].written))
    requires forall j :: 0 <= j < i ==> Get(after, files[j].path) == Original(files[j])
    requires SameElsewhere(files, i, after, failed)
    ensures after == if o.Untouched? then d0 else Put(d0, files[i].path, Some(files[i].written))
  {
    var want := if o.Untouched? then d0 else Put(d0, files[i].path, Some(files[i].written));
    forall path
      ensures Get(after, path) == Get(want, path)
    {
      if j :| 0 <= j < i && files[j].path == path {
        assert Get(d0, was[j].path) == Original(was[j]);
      } else {
        assert Elsewhere(files, i, path);
      }
    }
    SamePaths(after, want);
  }

  // ---- reverting -----------------------------------------------------------------------

  /** The services a revert names; None is all of them. */
  type Named = Option<set<string>>

  predicate Names(named: Named, svc: string) {
    named.Some? ==> svc in named.value
  }

  /** Whether a file can be read, and what becomes of writing it. */
  datatype Io = Io(readable: bool, outcome: Outcome)

  datatype Problems = Problems(changed: bool, failed: bool, shared: bool, verified: bool)

  const NO_PROBLEMS := Problems(false, false, false, true)

  function Reverting(targets: set<string>, reverted: set<string>, named: Named): set<string> {
    set svc | svc in targets && (svc in reverted || Names(named, svc))
  }

  function Elements(owners: seq<string>): set<string> {
    set o | o in owners
  }

  function OwnersOf(edits: seq<TextEdit>): set<string> {
    if edits == [] then {} else OwnersOf(edits[..|edits| - 1]) + Elements(edits[|edits| - 1].owners)
  }

  lemma OwnersEnd(front: seq<TextEdit>, e: TextEdit)
    ensures OwnersOf(front + [e]) == OwnersOf(front) + Elements(e.owners)
  {
    assert (front + [e])[..|front|] == front;
  }

  /** A service named now keeps its new image with the edit it shares. */
  predicate SharesKept(owners: set<string>, reverting: set<string>, named: Named) {
    exists o :: o in owners && o in reverting && Names(named, o)
  }

  lemma NoOwners()
    ensures OwnersOf([]) == {}
  {
  }

  lemma SharedUnion(a: set<string>, b: set<string>, reverting: set<string>, named: Named)
    ensures SharesKept(a + b, reverting, named) <==> SharesKept(a, reverting, named) || SharesKept(b, reverting, named)
  {
  }

  /** The services that keep an edit of some file. */
  function KeptOwners(files: seq<FileState>, reverting: set<string>): set<string> {
    if files == [] then {}
    else KeptOwners(files[..|files| - 1], reverting) + OwnersOf(KeptEdits(files[|files| - 1].edits, reverting))
  }

  function KeptTargets(targets: map<string, string>, files: seq<FileState>, reverting: set<string>): map<string, string> {
    map o | o in KeptOwners(files, reverting) && o in targets :: targets[o]
  }

  lemma KeptOwnersNext(files: seq<FileState>, i: nat, reverting: set<string>)
    requires i < |files|
    ensures KeptOwners(files[..i + 1], reverting)
         == KeptOwners(files[..i], reverting) + OwnersOf(KeptEdits(files[i].edits, reverting))
  {
    assert files[..i + 1][..i] == files[..i];
  }

  lemma {:induction false} SameKept(was: seq<FileState>, files: seq<FileState>, reverting: set<string>)
    requires |files| == |was| && forall j :: 0 <= j < |files| ==> SameWrite(files[j], was[j])
    ensures KeptOwners(files, reverting) == KeptOwners(was, reverting)
  {
    if files != [] {
      var n := |files| - 1;
      assert SameWrite(files[n], was[n]);
      SameKept(was[..n], files[..n], reverting);
    }
  }

  /** Whether the disk holds what the agent last left in a file. */
  predicate Unchanged(f: FileState, onDisk: Option<string>, io: Io) {
    if f.present then io.readable && onDisk == Some(f.current) else onDisk.None?
  }

  predicate SomeChanged(files: seq<FileState>, n: nat, d: Paths, ios: nat -> Io)
    requires n <= |files|
  {
    exists i :: 0 <= i < n && !Unchanged(files[i], Get(d, files[i].path), ios(i))
  }

  /** A file the agent left as it is, which could not be put back. */
  ghost predicate FileFails(f: FileState, onDisk: Option<string>, reverting: set<string>, io: Io)
    requires CanApply(f.original, f.edits)
  {
    Unchanged(f, onDisk, io) && !io.outcome.Synced? && !(Reverted(f, reverting).None? && onDisk.None?)
  }

  ghost predicate SomeFailed(files: seq<FileState>, n: nat, d: Paths, reverting: set<string>, ios: nat -> Io)
    requires n <= |files|
  {
    exists i :: 0 <= i < n && CanApply(files[i].original, files[i].edits)
      && FileFails(files[i], Get(d, files[i].path), reverting, ios(i))
  }

  lemma FailedNext(files: seq<FileState>, i: nat, d: Paths, reverting: set<string>, ios: nat -> Io)
    requires i < |files| && CanApply(files[i].original, files[i].edits)
    ensures SomeFailed(files, i + 1, d, reverting, ios) <==>
      SomeFailed(files, i, d, reverting, ios) || FileFails(files[i], Get(d, files[i].path), reverting, ios(i))
  {
    hide FileFails, CanApply;
  }

  /** Every file can be read and every write succeeds. */
  ghost predicate AllFine(ios: nat -> Io, n: nat) {
    forall i :: 0 <= i < n ==> ios(i).readable && ios(i).outcome.Synced?
  }

  ghost predicate SettledFiles(files: seq<FileState>, d: Paths, reverted: set<string>)
    requires forall i :: 0 <= i < |files| ==> CanApply(files[i].original, files[i].edits)
  {
    forall i :: 0 <= i < |files| ==> Get(d, files[i].path) == LastLeft(files[i]) == Reverted(files[i], reverted)
  }

  lemma AllCanApply(files: seq<FileState>, targets: set<string>)
    requires ValidFiles(files, targets)
    ensures forall i :: 0 <= i < |files| ==> CanApply(files[i].original, files[i].edits)
  {
    hide CanApply;
    forall i | 0 <= i < |files|
      ensures CanApply(files[i].original, files[i].edits)
    {
      assert ValidFile(files[i], targets);
    }
  }

  lemma StillSettled(was: seq<FileState>, files: seq<FileState>, targets: set<string>, d0: Paths, d: Paths,
                     reverted: set<string>, named: Named, ios: nat -> Io)
    requires |files| == |was| && ValidFiles(was, targets) && ValidFiles(files, targets) && reverted <= targets
    requires (forall i :: 0 <= i < |was| ==> CanApply(was[i].original, was[i].edits)) && SettledFiles(was, d0, reverted)
    requires AllFine(ios, |files|)
    requires forall i :: 0 <= i < |files| ==>
      RevertsFile(was[i], files[i], Get(d0, was[i].path), Get(d, was[i].path), Reverting(targets, reverted, named), ios(i))
    ensures forall i :: 0 <= i < |files| ==> CanApply(files[i].original, files[i].edits)
    ensures SettledFiles(files, d, reverted + Reverting(targets, reverted, named))
    ensures !SomeChanged(was, |was|, d0, ios) && !SomeFailed(was, |was|, d0, Reverting(targets, reverted, named), ios)
  {
    hide CanApply, ValidFiles, Edited, KeptEdits;
    AllCanApply(files, targets);
    var reverting := Reverting(targets, reverted, named);
    assert reverted + reverting == reverting;
    forall i | 0 <= i < |files|
      ensures Get(d, files[i].path) == LastLeft(files[i]) == Reverted(files[i], reverting)
      ensures Unchanged(was[i], Get(d0, was[i].path), ios(i)) && !FileFails(was[i], Get(d0, was[i].path), reverting, ios(i))
    {
      assert Get(d0, was[i].path) == LastLeft(was[i]);
      assert RevertsFile(was[i], files[i], Get(d0, was[i].path), Get(d, was[i].path), reverting, ios(i));
    }
  }

  lemma ChangedNext(files: seq<FileState>, i: nat, d: Paths, ios: nat -> Io)
    requires i < |files|
    ensures SomeChanged(files, i + 1, d, ios) <==>
      SomeChanged(files, i, d, ios) || !Unchanged(files[i], Get(d, files[i].path), ios(i))
  {
    hide Unchanged;
  }

  lemma NothingToRevert(files: seq<FileState>, d: Paths, ios: nat -> Io)
    requires files == []
    ensures !SomeChanged(files, 0, d, ios) && SameElsewhere(files, 0, d, d)
    ensures forall reverting :: !SomeFailed(files, 0, d, reverting, ios)
    ensures forall named, reverting :: !SharesKept({}, reverting, named)
  {
  }

  lemma RevertingInside(targets: set<string>, reverted: set<string>, named: Named)
    ensures Reverting(targets, reverted, named) <= targets
  {
  }

  /** What a revert of `reverting` does to one file. */
  ghost predicate RevertsFile(was: FileState, now: FileState, before: Option<string>, after: Option<string>,
                              reverting: set<string>, io: Io)
  {
    && CanApply(was.original, was.edits)
    && SameWrite(now, was)
    && var want := Reverted(was, reverting);
       if !Unchanged(was, before, io) then now == was && after == before
       else if io.outcome.Synced? || (want.None? && before.None?) then LastLeft(now) == want == after
       else if io.outcome.Untouched? then now == was && after == before
       else now == was && after == want
  }

  /** The first `i` files are dealt with, and nothing else. */
  ghost predicate RevertState(was: seq<FileState>, targets: set<string>, files: seq<FileState>, i: nat, d0: Paths, d: Paths,
                              reverting: set<string>, ios: nat -> Io)
  {
    && i <= |files| == |was| && ValidFiles(files, targets)
    && (forall j :: 0 <= j < |files| ==> SameWrite(files[j], was[j]))
    && (forall j :: i <= j < |files| ==> files[j] == was[j])
    && (forall j :: 0 <= j < i ==>
          RevertsFile(was[j], files[j], Get(d0, was[j].path), Get(d, was[j].path), reverting, ios(j)))
    && SameElsewhere(files, i, d, d0)
  }

  lemma RevertStart(was: seq<FileState>, targets: set<string>, d0: Paths, reverting: set<string>, ios: nat -> Io)
    requires ValidFiles(was, targets)
    ensures RevertState(was, targets, was, 0, d0, d0, reverting, ios) && KeptOwners(was[..0], reverting) == {}
    ensures !SomeChanged(was, 0, d0, ios) && !SomeFailed(was, 0, d0, reverting, ios)
    ensures forall named :: !SharesKept({}, reverting, named)
  {
    hide ValidFile;
  }

  lemma RevertFacts(was: seq<FileState>, targets: set<string>, files: seq<FileState>, i: nat, d0: Paths, d: Paths,
                    reverting: set<string>, ios: nat -> Io)
    requires RevertState(was, targets, files, i, d0, d, reverting, ios)
    ensures |files| == |was| && ValidFiles(files, targets) && SameElsewhere(files, i, d, d0)
    ensures forall j :: 0 <= j < |files| ==> SameWrite(files[j], was[j])
    ensures forall j :: 0 <= j < i ==>
      RevertsFile(was[j], files[j], Get(d0, was[j].path), Get(d, was[j].path), reverting, ios(j))
    ensures i < |files| ==>
      && files[i] == was[i] && Get(d, was[i].path) == Get(d0, was[i].path)
      && CanApply(was[i].original, was[i].edits) && CanApply(was[i].original, KeptEdits(was[i].edits, reverting))
  {
    hide CanApply, RevertsFile;
    if i < |files| {
      assert ValidFile(files[i], targets);
      KeptCanApply(was[i].original, was[i].edits, reverting);
      assert Elsewhere(files, i, was[i].path) by { assert DistinctPaths(files); }
    }
  }

  lemma RevertNext(was: seq<FileState>, targets: set<string>, files: seq<FileState>, i: nat, d0: Paths, d: Paths, d': Paths,
                   reverting: set<string>, ios: nat -> Io, now: FileState)
    requires i < |files| && RevertState(was, targets, files, i, d0, d, reverting, ios) && SameWrite(now, was[i])
    requires forall p :: p != was[i].path ==> Get(d', p) == Get(d, p)
    requires RevertsFile(was[i], now, Get(d0, was[i].path), Get(d', was[i].path), reverting, ios(i))
    ensures RevertState(was, targets, files[i := now], i + 1, d0, d', reverting, ios)
  {
    hide ValidFile, RevertsFile;
    var after := files[i := now];
    assert DistinctPaths(files);
    ValidUpdate(files, i, now, targets);
    forall path | Elsewhere(after, i + 1, path)
      ensures Get(d', path) == Get(d0, path)
    {
      assert after[i].path != path;
      assert forall j :: 0 <= j < i ==> after[j] == files[j] && after[j].path != path;
      assert Elsewhere(files, i, path);
    }
    forall j | 0 <= j < i
      ensures RevertsFile(was[j], after[j], Get(d0, was[j].path), Get(d', was[j].path), reverting, ios(j))
    {
      assert SameWrite(files[j], was[j]) && files[j].path != files[i].path;
    }
  }

  lemma SkippedNext(was: seq<FileState>, targets: set<string>, files: seq<FileState>, i: nat, d0: Paths, d: Paths,
                    reverting: set<string>, ios: nat -> Io)
    requires i < |files| && RevertState(was, targets, files, i, d0, d, reverting, ios)
    requires i < |was| ==> !Unchanged(was[i], Get(d, was[i].path), ios(i))
    ensures RevertState(was, targets, files, i + 1, d0, d, reverting, ios)
    ensures CanApply(was[i].original, was[i].edits)
    ensures !Unchanged(was[i], Get(d0, was[i].path), ios(i)) && !FileFails(was[i], Get(d0, was[i].path), reverting, ios(i))
  {
    hide ValidFiles, SameElsewhere, CanApply, Unchanged;
    RevertFacts(was, targets, files, i, d0, d, reverting, ios);
    RevertNext(was, targets, files, i, d0, d, d, reverting, ios, was[i]);
    assert files[i := was[i]] == files;
  }

  lemma RestoredNext(was: seq<FileState>, targets: set<string>, files: seq<FileState>, i: nat, d0: Paths, d: Paths, d': Paths,
                     reverting: set<string>, ios: nat -> Io, content: string, wanted: bool, ok: bool)
    requires i < |files| && RevertState(was, targets, files, i, d0, d, reverting, ios)
    requires i < |was| && Unchanged(was[i], Get(d, was[i].path), ios(i))
    requires CanApply(was[i].original, was[i].edits) && CanApply(was[i].original, KeptEdits(was[i].edits, reverting))
    requires content == Edited(was[i].original, KeptEdits(was[i].edits, reverting))
    requires wanted <==> was[i].existed || KeptEdits(was[i].edits, reverting) != []
    requires var want, o := if wanted then Some(content) else None, ios(i).outcome;
      && (ok <==> o.Synced? || (want.None? && was[i].path !in d))
      && d' == if o.Untouched? || (want.None? && was[i].path !in d) then d else Put(d, was[i].path, want)
    ensures Unchanged(was[i], Get(d0, was[i].path), ios(i))
    ensures ok <==> !FileFails(was[i], Get(d0, was[i].path), reverting, ios(i))
    ensures !ok ==> RevertState(was, targets, files, i + 1, d0, d', reverting, ios)
    ensures ok ==>
      RevertState(was, targets, files[i := was[i].(present := wanted, current := content)], i + 1, d0, d', reverting, ios)
  {
    hide ValidFiles, SameElsewhere, CanApply, Edited, KeptEdits;
    RevertFacts(was, targets, files, i, d0, d, reverting, ios);
    var now := if ok then was[i].(present := wanted, current := content) else was[i];
    RevertNext(was, targets, files, i, d0, d, d', reverting, ios, now);
    assert files[i := was[i]] == files;
  }

  /** A revert whose write took effect and was still reported failed locks the file out: the next one leaves it alone. */
  lemma UnsyncedIsLeftAlone(was: FileState, now: FileState, before: Option<string>, after: Option<string>,
                            reverting: set<string>, io: Io, next: Io)
    requires RevertsFile(was, now, before, after, reverting, io) && Unchanged(was, before, io)
    requires io.outcome.Unsynced? && after != before
    ensures now == was && !Unchanged(now, after, next)
  {
    hide CanApply, Reverted;
  }

  // ---- what a revert reports and checks -----------------------------------------------------

  lemma {:induction false} OwnersExactly(edits: seq<TextEdit>, o: string)
    ensures o in OwnersOf(edits) <==> exists k :: 0 <= k < |edits| && o in edits[k].owners
  {
    if edits != [] {
      var n := |edits| - 1;
      OwnersExactly(edits[..n], o);
      assert forall k :: 0 <= k < n ==> edits[..n][k] == edits[k];
      if k :| 0 <= k < |edits| && o in edits[k].owners && k < n {
        assert o in edits[..n][k].owners;
      }
    }
  }

  /** An edit of the service, that another service keeps its new image with. */
  predicate StaysIn(edits: seq<TextEdit>, reverting: set<string>, o: string) {
    exists k, p :: 0 <= k < |edits| && o in edits[k].owners && p in edits[k].owners && p !in reverting
  }

  lemma KeptOwnersOf(edits: seq<TextEdit>, reverting: set<string>, o: string)
    ensures o in OwnersOf(KeptEdits(edits, reverting)) <==> StaysIn(edits, reverting, o)
  {
    var kept := KeptEdits(edits, reverting);
    OwnersExactly(kept, o);
    hide KeptEdits, OwnersOf;
    if k :| 0 <= k < |kept| && o in kept[k].owners {
      assert kept[k] in kept;
      assert kept[k] in edits;
      assert Needed(kept[k].owners, reverting);
    }
    if k, p :| 0 <= k < |edits| && o in edits[k].owners && p in edits[k].owners && p !in reverting {
      assert edits[k] in edits;
      assert Needed(edits[k].owners, reverting);
      assert edits[k] in kept;
    }
  }

  /** Some file keeps an edit of the service. */
  predicate KeepsEdit(files: seq<FileState>, reverting: set<string>, o: string) {
    exists i :: 0 <= i < |files| && StaysIn(files[i].edits, reverting, o)
  }

  lemma {:induction false} KeptOwnersExactly(files: seq<FileState>, reverting: set<string>, o: string)
    ensures o in KeptOwners(files, reverting) <==> KeepsEdit(files, reverting, o)
  {
    if files != [] {
      var n := |files| - 1;
      KeptOwnersExactly(files[..n], reverting, o);
      KeptOwnersOf(files[n].edits, reverting, o);
      hide StaysIn, OwnersOf, KeptEdits;
      assert forall i :: 0 <= i < n ==> files[..n][i] == files[i];
      if i :| 0 <= i < |files| && StaysIn(files[i].edits, reverting, o) && i < n {
        assert StaysIn(files[..n][i].edits, reverting, o);
      }
    }
  }

  /** A revert reports a shared edit exactly when a target it names has one with a service that keeps its new image. */
  lemma SharedExactly(files: seq<FileState>, targets: set<string>, reverted: set<string>, named: Named)
    ensures SharesKept(KeptOwners(files, Reverting(targets, reverted, named)), Reverting(targets, reverted, named), named) <==>
      exists o :: o in targets && (named.Some? ==> o in named.value) && KeepsEdit(files, Reverting(targets, reverted, named), o)
  {
    var reverting := Reverting(targets, reverted, named);
    hide KeptOwners, KeepsEdit;
    if SharesKept(KeptOwners(files, reverting), reverting, named) {
      var o :| o in KeptOwners(files, reverting) && o in reverting && Names(named, o);
      KeptOwnersExactly(files, reverting, o);
    }
    if o :| o in targets && (named.Some? ==> o in named.value) && KeepsEdit(files, reverting, o) {
      KeptOwnersExactly(files, reverting, o);
      assert o in KeptOwners(files, reverting) && o in reverting && Names(named, o);
    }
  }

  /** The images a revert asks the load for are those of the targets that have an edit it keeps. */
  lemma KeptTargetsExactly(targets: map<string, string>, files: seq<FileState>, reverting: set<string>, o: string)
    ensures var kept := KeptTargets(targets, files, reverting);
      && (o in kept <==> o in targets && KeepsEdit(files, reverting, o))
      && (o in kept ==> kept[o] == targets[o])
  {
    KeptOwnersExactly(files, reverting, o);
    hide KeptOwners, KeepsEdit;
  }

  // ---- the algebra of reverts -------------------------------------------------------------

  lemma {:induction false} NoneNeeded(edits: seq<TextEdit>, reverted: set<string>)
    requires forall i :: 0 <= i < |edits| ==> !Needed(edits[i].owners, reverted)
    ensures KeptEdits(edits, reverted) == []
  {
    hide Needed, KeptEdits;
    if edits != [] {
      var n := |edits| - 1;
      assert forall i :: 0 <= i < n ==> edits[..n][i] == edits[i];
      NoneNeeded(edits[..n], reverted);
      KeptEnd(edits[..n], edits[n], reverted);
      assert edits == edits[..n] + [edits[n]];
    } else {
      NoEditsKept(reverted);
    }
  }

  lemma NothingRendered(original: string)
    ensures CanApply(original, []) && Edited(original, []) == original
  {
    assert SortedByStart([]) == [];
  }

  /** Once every target is reverted, a file is what the write found, or is gone again. */
  lemma AllReverted(f: FileState, targets: set<string>, reverted: set<string>)
    requires ValidFile(f, targets) && targets <= reverted
    ensures CanApply(f.original, f.edits) && Reverted(f, reverted) == Original(f)
  {
    forall i | 0 <= i < |f.edits|
      ensures !Needed(f.edits[i].owners, reverted)
    {
      assert f.edits[i] in f.edits;
    }
    NoneNeeded(f.edits, reverted);
    NothingRendered(f.original);
    hide CanApply, KeptEdits, Needed, Edited;
  }

  /** The services a run of reverts leaves reverted. */
  function AfterReverts(targets: set<string>, reverted: set<string>, calls: seq<Named>): set<string>
    decreases |calls|
  {
    if calls == [] then reverted
    else AfterReverts(targets, reverted + Reverting(targets, reverted, calls[0]), calls[1..])
  }

  predicate SomeNames(calls: seq<Named>, svc: string) {
    exists k :: 0 <= k < |calls| && Names(calls[k], svc)
  }

  /** It is every target some call names: neither their order nor their grouping matters. */
  lemma {:induction false} RevertsAccumulate(targets: set<string>, reverted: set<string>, calls: seq<Named>)
    requires reverted <= targets
    ensures AfterReverts(targets, reverted, calls) == set svc | svc in targets && (svc in reverted || SomeNames(calls, svc))
    decreases |calls|
  {
    if calls != [] {
      var next := reverted + Reverting(targets, reverted, calls[0]);
      RevertsAccumulate(targets, next, calls[1..]);
      forall svc
        ensures SomeNames(calls, svc) <==> Names(calls[0], svc) || SomeNames(calls[1..], svc)
      {
        SomeNamesFirst(calls, svc);
      }
      hide SomeNames, Names;
    }
  }

  lemma SomeNamesFirst(calls: seq<Named>, svc: string)
    requires calls != []
    ensures SomeNames(calls, svc) <==> Names(calls[0], svc) || SomeNames(calls[1..], svc)
  {
    hide Names;
    if SomeNames(calls, svc) {
      var k :| 0 <= k < |calls| && Names(calls[k], svc);
      assert k > 0 ==> calls[1..][k - 1] == calls[k];
    }
    if SomeNames(calls[1..], svc) {
      var k :| 0 <= k < |calls| - 1 && Names(calls[1..][k], svc);
      assert calls[k + 1] == calls[1..][k];
    }
  }
}
