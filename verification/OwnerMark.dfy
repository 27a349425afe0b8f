/**
  Two copies of one fact: who renders a project's files. The index holds it, and so
  does a mark in the project's directory (projects.go, ownermark.go). Directories are
  named by their canonical paths; `under` says which are under the compose root, where
  marks are kept.
 */
module OwnerMarks {
  import opened Text

  type Dir = string
  type Name = string

  datatype Mark = NoMark | Owned(owner: string) | Unreadable

  datatype Entry = Entry(dir: Dir, owner: string)

  type Index = map<Name, Entry>
  type Marks = map<Dir, Mark>

  /** The directories, the index in memory, and the index on disk. */
  datatype State = State(marks: Marks, index: Index, saved: Index)

  const UNKNOWN := "unknown"
  const MAX_OWNER := 32

  predicate NameChar(c: char) {
    'a' <= c <= 'z' || '0' <= c <= '9' || c == '_' || c == '-'
  }

  /** validOwner: empty, or a name that is not the reserved one. */
  predicate ValidOwner(o: string) {
    o == "" || (o != UNKNOWN && |o| <= MAX_OWNER && o[0] !in "_-" && forall i :: 0 <= i < |o| ==> NameChar(o[i]))
  }

  function MarkAt(marks: Marks, dir: Dir): Mark {
    if dir in marks then marks[dir] else NoMark
  }

  /** readOwnerMark, as its callers use the value: a mark that cannot be read is nobody's. */
  function ReadOwner(marks: Marks, dir: Dir, under: Dir -> bool): string {
    if !under(dir) then ""
    else match MarkAt(marks, dir)
         case NoMark => ""
         case Owned(o) => o
         case Unreadable => UNKNOWN
  }

  /** writeOwnerMark, when it succeeds. */
  function WriteOwner(marks: Marks, dir: Dir, owner: string, under: Dir -> bool): (r: Marks)
    ensures forall d :: d != dir ==> MarkAt(r, d) == MarkAt(marks, d)
    ensures under(dir) ==> MarkAt(r, dir) == if owner == "" then NoMark else Owned(owner)
    ensures !under(dir) ==> r == marks
  {
    if !under(dir) then marks
    else if owner == "" then marks - {dir}
    else marks[dir := Owned(owner)]
  }

  /** Another entry is in that directory. */
  predicate Shared(index: Index, dir: Dir, name: Name) {
    exists n :: n in index && n != name && index[n].dir == dir
  }

  /** A register of a project that moves leaves a mark behind in its old directory. */
  predicate LeavesMark(index: Index, name: Name, e: Entry) {
    name in index && index[name].dir != e.dir && index[name].owner != "" && !Shared(index, index[name].dir, name)
  }

  // ---- register, step by step -----------------------------------------------------------

  /** The first `k` of register's four steps; clearing the old mark may fail. */
  function Registering(s: State, name: Name, e: Entry, k: nat, cleared: bool, under: Dir -> bool): State {
    var marks1 := if k >= 1 then WriteOwner(s.marks, e.dir, e.owner, under) else s.marks;
    var marks2 := if k >= 2 && cleared && LeavesMark(s.index, name, e) then WriteOwner(marks1, s.index[name].dir, "", under) else marks1;
    var index := if k >= 3 then s.index[name := e] else s.index;
    State(marks2, index, if k >= 4 then index else s.saved)
  }

  /** A restart: only what is on disk is left. */
  function Restarted(s: State): State {
    s.(index := s.saved)
  }

  // ---- reconcileOwnerMarks ------------------------------------------------------------------

  /** list(): the names of an index, each once. The source sorts them; everything here holds in any order. */
  ghost predicate Lists(order: seq<Name>, index: Index) {
    && (forall n :: n in order <==> n in index)
    && (forall i, j :: 0 <= i < j < |order| ==> order[i] != order[j])
  }

  /** The owner the first of `n` entries that can writes into a directory without a mark. */
  function Taken(index: Index, order: seq<Name>, n: nat, dir: Dir, writes: Name -> bool): Option<string>
    requires n <= |order| && forall i :: 0 <= i < |order| ==> order[i] in index
  {
    if n == 0 then None
    else
      var before := Taken(index, order, n - 1, dir, writes);
      var e := index[order[n - 1]];
      if before.Some? then before
      else if e.dir == dir && e.owner != "" && writes(order[n - 1]) then Some(e.owner)
      else None
  }

  /** A directory's mark once `n` entries had their turn. */
  function MarkThen(s: State, order: seq<Name>, n: nat, dir: Dir, under: Dir -> bool, writes: Name -> bool): Mark
    requires n <= |order| && forall i :: 0 <= i < |order| ==> order[i] in s.index
  {
    if under(dir) && MarkAt(s.marks, dir).NoMark? && Taken(s.index, order, n, dir, writes).Some?
    then Owned(Taken(s.index, order, n, dir, writes).value)
    else MarkAt(s.marks, dir)
  }

  /** The owner a mark gives an entry. */
  function OwnerBy(mark: Mark, e: Entry, under: Dir -> bool): string {
    if under(e.dir) && mark.Owned? then mark.owner else e.owner
  }

  function InItsTurn(s: State, order: seq<Name>, i: nat, under: Dir -> bool, writes: Name -> bool): Entry
    requires i < |order| && forall j :: 0 <= j < |order| ==> order[j] in s.index
  {
    var e := s.index[order[i]];
    e.(owner := OwnerBy(MarkThen(s, order, i, e.dir, under, writes), e, under))
  }

  /**
    `t` is `s` reconciled: each entry, in its turn, takes the owner its directory then
    names, an owner without a mark is written into the directory when that succeeds,
    and an index that changed is saved when that succeeds.
   */
  ghost predicate Reconciles(s: State, t: State, under: Dir -> bool, order: seq<Name>, writes: Name -> bool, saves: bool) {
    && Lists(order, s.index) && t.index.Keys == s.index.Keys
    && (forall i :: 0 <= i < |order| ==> t.index[order[i]] == InItsTurn(s, order, i, under, writes))
    && (forall d :: MarkAt(t.marks, d) == MarkThen(s, order, |order|, d, under, writes))
    && t.saved == if saves && t.index != s.index then t.index else s.saved
  }

  predicate DistinctDirs(index: Index) {
    forall n, m :: n in index && m in index && n != m ==> index[n].dir != index[m].dir
  }

  class Registry {
    const under: Dir -> bool
    var s: State

    constructor (under: Dir -> bool, s: State)
      ensures this.under == under && this.s == s
    {
      this.under, this.s := under, s;
    }

    /** load and reconcileOwnerMarks; a mark or an index that cannot be written is logged and left. */
    method Load(order: seq<Name>, writes: Name -> bool, saves: bool)
      requires Lists(order, s.saved)
      modifies this
      ensures Reconciles(Restarted(old(s)), s, under, order, writes, saves)
    {
      hide *;
      s := Restarted(s);
      ghost var s0 := s;
      var changed := false;
      RestartedIs(old(s));
      TurnsStart(s0, order, under, writes);
      for i := 0 to |order|
        invariant Turned(s0, s, order, i, under, writes)
        invariant !changed <==> s.index == s0.index
      {
        var name := order[i];
        TurnIs(s0, s, order, i, under, writes);
        var e := s.index[name];
        var mark := MarkAt(s.marks, e.dir);
        if under(e.dir) && mark.NoMark? && e.owner != "" && writes(name) {
          TurnWrites(s0, s, order, i, under, writes);
          s := s.(marks := WriteOwner(s.marks, e.dir, e.owner, under));
        } else if under(e.dir) && mark.Owned? && mark.owner != e.owner {
          TurnTakes(s0, s, order, i, under, writes);
          s := s.(index := s.index[name := e.(owner := mark.owner)]);
          changed := true;
        } else {
          TurnStays(s0, s, order, i, under, writes);
        }
      }
      TurnsEnd(s0, s, order, under, writes);
      if changed && saves {
        s := s.(saved := s.index);
      }
      TurnsReconcile(s0, s, order, under, writes, saves);
    }

    /**
      register: true when it returns without an error. `passed` are the states it goes
      through; the process may die in any of them.
     */
    method Register(name: Name, e: Entry, writes: bool, clears: bool, saves: bool) returns (ok: bool, ghost passed: seq<State>)
      modifies this
      ensures var refused := name == "" || !writes || (under(e.dir) && e.owner != "" && !ValidOwner(e.owner));
        && ok == (!refused && saves)
        && |passed| == (if refused then 1 else if saves then 5 else 4)
        && (forall k :: 0 <= k < |passed| ==> passed[k] == Registering(old(s), name, e, k, clears, under))
        && s == passed[|passed| - 1]
    {
      passed := [s];
      if name == "" || !writes || (under(e.dir) && e.owner != "" && !ValidOwner(e.owner)) {
        return false, passed;
      }
      var index := s.index;
      s := s.(marks := WriteOwner(s.marks, e.dir, e.owner, under));
      passed := passed + [s];
      if name in index && index[name].dir != e.dir && index[name].owner != "" {
        if !Shared(index, index[name].dir, name) && clears {
          s := s.(marks := WriteOwner(s.marks, index[name].dir, "", under));
        }
      }
      passed := passed + [s];
      s := s.(index := index[name := e]);
      passed := passed + [s];
      if !saves {
        return false, passed;
      }
      s := s.(saved := s.index);
      passed := passed + [s];
      return true, passed;
    }
  }

  // ---- the loop of reconcileOwnerMarks ---------------------------------------------------------

  lemma RestartedIs(s: State)
    ensures Restarted(s).index == s.saved == Restarted(s).saved && Restarted(s).marks == s.marks
  {
  }

  /** The first `n` entries had their turn. */
  ghost predicate Turned(s: State, t: State, order: seq<Name>, n: nat, under: Dir -> bool, writes: Name -> bool) {
    && n <= |order| && Lists(order, s.index) && t.index.Keys == s.index.Keys && t.saved == s.saved
    && (forall i :: 0 <= i < n ==> t.index[order[i]] == InItsTurn(s, order, i, under, writes))
    && (forall i :: n <= i < |order| ==> t.index[order[i]] == s.index[order[i]])
    && (forall d :: MarkAt(t.marks, d) == MarkThen(s, order, n, d, under, writes))
  }

  lemma TurnsStart(s: State, order: seq<Name>, under: Dir -> bool, writes: Name -> bool)
    requires Lists(order, s.index)
    ensures Turned(s, s, order, 0, under, writes)
  {
  }

  lemma TurnIs(s: State, t: State, order: seq<Name>, i: nat, under: Dir -> bool, writes: Name -> bool)
    requires Turned(s, t, order, i, under, writes) && i < |order|
    ensures order[i] in t.index && order[i] in s.index && t.index[order[i]] == s.index[order[i]]
    ensures forall j :: 0 <= j < |order| ==> order[j] in s.index
    ensures MarkAt(t.marks, t.index[order[i]].dir) == MarkThen(s, order, i, s.index[order[i]].dir, under, writes)
  {
    hide MarkThen;
  }

  /** One entry's turn gives a mark to its directory alone, when there is none and it has an owner to write. */
  lemma MarkThenNext(s: State, order: seq<Name>, i: nat, d: Dir, under: Dir -> bool, writes: Name -> bool)
    requires i < |order| && forall j :: 0 <= j < |order| ==> order[j] in s.index
    ensures var e := s.index[order[i]];
      MarkThen(s, order, i + 1, d, under, writes)
      == if d == e.dir && under(d) && MarkThen(s, order, i, d, under, writes).NoMark? && e.owner != "" && writes(order[i])
         then Owned(e.owner) else MarkThen(s, order, i, d, under, writes)
  {
  }

  lemma TurnStays(s: State, t: State, order: seq<Name>, i: nat, under: Dir -> bool, writes: Name -> bool)
    requires Turned(s, t, order, i, under, writes) && i < |order| && order[i] in t.index
    requires var e := t.index[order[i]];
      var mark := MarkAt(t.marks, e.dir);
      && !(under(e.dir) && mark.NoMark? && e.owner != "" && writes(order[i]))
      && !(under(e.dir) && mark.Owned? && mark.owner != e.owner)
    ensures Turned(s, t, order, i + 1, under, writes)
  {
    hide MarkThen;
    forall d
      ensures MarkAt(t.marks, d) == MarkThen(s, order, i + 1, d, under, writes)
    {
      MarkThenNext(s, order, i, d, under, writes);
    }
  }

  lemma TurnWrites(s: State, t: State, order: seq<Name>, i: nat, under: Dir -> bool, writes: Name -> bool)
    requires Turned(s, t, order, i, under, writes) && i < |order| && order[i] in t.index
    requires var e := t.index[order[i]]; under(e.dir) && MarkAt(t.marks, e.dir).NoMark? && e.owner != "" && writes(order[i])
    ensures var e := t.index[order[i]];
      Turned(s, t.(marks := WriteOwner(t.marks, e.dir, e.owner, under)), order, i + 1, under, writes)
  {
    hide MarkThen, WriteOwner;
    var e := t.index[order[i]];
    var marks := WriteOwner(t.marks, e.dir, e.owner, under);
    forall d
      ensures MarkAt(marks, d) == MarkThen(s, order, i + 1, d, under, writes)
    {
      MarkThenNext(s, order, i, d, under, writes);
    }
  }

  lemma TurnTakes(s: State, t: State, order: seq<Name>, i: nat, under: Dir -> bool, writes: Name -> bool)
    requires Turned(s, t, order, i, under, writes) && i < |order| && order[i] in t.index
    requires var e := t.index[order[i]];
      under(e.dir) && MarkAt(t.marks, e.dir).Owned? && MarkAt(t.marks, e.dir).owner != e.owner
    ensures var e := t.index[order[i]];
      var index := t.index[order[i] := e.(owner := MarkAt(t.marks, e.dir).owner)];
      Turned(s, t.(index := index), order, i + 1, under, writes) && index != s.index
  {
    hide MarkThen;
    forall d
      ensures MarkAt(t.marks, d) == MarkThen(s, order, i + 1, d, under, writes)
    {
      MarkThenNext(s, order, i, d, under, writes);
    }
    var e := t.index[order[i]];
    var index := t.index[order[i] := e.(owner := MarkAt(t.marks, e.dir).owner)];
    assert index[order[i]] != s.index[order[i]];
  }

  lemma TurnsEnd(s: State, t: State, order: seq<Name>, under: Dir -> bool, writes: Name -> bool)
    requires Turned(s, t, order, |order|, under, writes)
    ensures t.saved == s.saved
  {
  }

  lemma TurnsReconcile(s: State, t: State, order: seq<Name>, under: Dir -> bool, writes: Name -> bool, saves: bool)
    requires Turned(s, t.(saved := s.saved), order, |order|, under, writes)
    requires t.saved == if saves && t.index != s.index then t.index else s.saved
    ensures Reconciles(s, t, under, order, writes, saves)
  {
    hide MarkThen;
  }

  // ---- reconciling entries that share no directory ---------------------------------------------

  lemma {:induction false} TakenAlone(index: Index, order: seq<Name>, n: nat, dir: Dir, writes: Name -> bool)
    requires n <= |order| && Lists(order, index) && DistinctDirs(index)
    ensures forall i :: 0 <= i < |order| && index[order[i]].dir == dir ==>
      Taken(index, order, n, dir, writes)
      == if i < n && index[order[i]].owner != "" && writes(order[i]) then Some(index[order[i]].owner) else None
    ensures (forall m :: m in index ==> index[m].dir != dir) ==> Taken(index, order, n, dir, writes) == None
  {
    if n > 0 {
      TakenAlone(index, order, n - 1, dir, writes);
    }
  }

  function MarkAfter(marks: Marks, e: Entry, under: Dir -> bool): Mark {
    if under(e.dir) && MarkAt(marks, e.dir).NoMark? && e.owner != "" then Owned(e.owner) else MarkAt(marks, e.dir)
  }

  /** With a directory of its own an entry takes the owner its directory names, or gives it its own. */
  lemma ReconcilesAt(s: State, t: State, under: Dir -> bool, order: seq<Name>, writes: Name -> bool, saves: bool, n: Name)
    requires Reconciles(s, t, under, order, writes, saves) && DistinctDirs(s.index) && n in s.index && forall m :: writes(m)
    ensures n in t.index && t.index[n] == s.index[n].(owner := OwnerBy(MarkAt(s.marks, s.index[n].dir), s.index[n], under))
    ensures MarkAt(t.marks, s.index[n].dir) == MarkAfter(s.marks, s.index[n], under)
  {
    var i :| 0 <= i < |order| && order[i] == n;
    TakenAlone(s.index, order, i, s.index[n].dir, writes);
    TakenAlone(s.index, order, |order|, s.index[n].dir, writes);
    hide Taken;
  }

  // ---- what agrees -----------------------------------------------------------------------------

  /** Index and directory agree on every entry under the root. */
  predicate Agrees(marks: Marks, e: Entry, under: Dir -> bool) {
    under(e.dir) ==> MarkAt(marks, e.dir) == if e.owner == "" then NoMark else Owned(e.owner)
  }

  /** The index in memory agrees with the directories. The one on disk may be older. */
  ghost predicate Agree(s: State, under: Dir -> bool) {
    && (forall n :: n in s.index ==> Agrees(s.marks, s.index[n], under))
    && DistinctDirs(s.index) && DistinctDirs(s.saved)
    && (forall d :: Readable(MarkAt(s.marks, d)))
  }

  predicate Readable(m: Mark) {
    !m.Unreadable? && m != Owned("")
  }

  lemma ReadableThen(s: State, order: seq<Name>, n: nat, dir: Dir, under: Dir -> bool, writes: Name -> bool)
    requires n <= |order| && (forall i :: 0 <= i < |order| ==> order[i] in s.index) && Readable(MarkAt(s.marks, dir))
    ensures Readable(MarkThen(s, order, n, dir, under, writes))
  {
    TakenIsSomeone(s.index, order, n, dir, writes);
    hide Taken;
  }

  lemma {:induction false} TakenIsSomeone(index: Index, order: seq<Name>, n: nat, dir: Dir, writes: Name -> bool)
    requires n <= |order| && forall i :: 0 <= i < |order| ==> order[i] in index
    ensures Taken(index, order, n, dir, writes) != Some("")
  {
    if n > 0 {
      TakenIsSomeone(index, order, n - 1, dir, writes);
    }
  }

  lemma ReconciledAgrees(marks: Marks, x: Entry, under: Dir -> bool)
    requires Readable(MarkAt(marks, x.dir))
    ensures under(x.dir) ==>
      var o := OwnerBy(MarkAt(marks, x.dir), x, under);
      MarkAfter(marks, x, under) == if o == "" then NoMark else Owned(o)
  {
  }

  /** A load after which every mark was written agrees, whatever the index on disk held. */
  lemma LoadedAgrees(s: State, t: State, under: Dir -> bool, order: seq<Name>, writes: Name -> bool, saves: bool)
    requires Reconciles(s, t, under, order, writes, saves) && DistinctDirs(s.index) && DistinctDirs(s.saved) && forall m :: writes(m)
    requires forall d :: Readable(MarkAt(s.marks, d))
    ensures Agree(t, under)
  {
    hide Reconciles, OwnerBy, MarkAfter, Agrees, Readable;
    LoadedKeys(s, t, under, order, writes, saves);
    forall n | n in t.index
      ensures t.index[n].dir == s.index[n].dir && Agrees(t.marks, t.index[n], under)
    {
      ReconcilesAt(s, t, under, order, writes, saves, n);
      ReconciledAgrees(s.marks, s.index[n], under);
      AgreesIs(t.marks, t.index[n], under);
    }
    forall d
      ensures Readable(MarkAt(t.marks, d))
    {
      LoadedMark(s, t, under, order, writes, saves, d);
    }
  }

  lemma AgreesIs(marks: Marks, e: Entry, under: Dir -> bool)
    ensures Agrees(marks, e, under) <==> (under(e.dir) ==> MarkAt(marks, e.dir) == if e.owner == "" then NoMark else Owned(e.owner))
  {
  }

  lemma LoadedKeys(s: State, t: State, under: Dir -> bool, order: seq<Name>, writes: Name -> bool, saves: bool)
    requires Reconciles(s, t, under, order, writes, saves)
    ensures t.index.Keys == s.index.Keys && (t.saved == t.index || t.saved == s.saved)
    ensures saves && s.saved == s.index ==> t.saved == t.index
  {
    hide InItsTurn, MarkThen;
  }

  lemma LoadedMark(s: State, t: State, under: Dir -> bool, order: seq<Name>, writes: Name -> bool, saves: bool, d: Dir)
    requires Reconciles(s, t, under, order, writes, saves) && Readable(MarkAt(s.marks, d))
    ensures Readable(MarkAt(t.marks, d))
  {
    hide InItsTurn, MarkThen, Readable;
    ReadableThen(s, order, |order|, d, under, writes);
  }

  // ---- crashes ------------------------------------------------------------------------------------

  /** What the mark of a directory is after `k` steps of a register. */
  function MarkLeft(s: State, name: Name, e: Entry, k: nat, cleared: bool, under: Dir -> bool, dir: Dir): Mark {
    if !under(dir) then MarkAt(s.marks, dir)
    else if k >= 2 && cleared && LeavesMark(s.index, name, e) && s.index[name].dir == dir then NoMark
    else if k >= 1 && dir == e.dir then (if e.owner == "" then NoMark else Owned(e.owner))
    else MarkAt(s.marks, dir)
  }

  lemma MarkLeftIs(s: State, name: Name, e: Entry, k: nat, cleared: bool, under: Dir -> bool, dir: Dir)
    ensures MarkAt(Registering(s, name, e, k, cleared, under).marks, dir) == MarkLeft(s, name, e, k, cleared, under, dir)
    ensures Readable(MarkAt(s.marks, dir)) ==> Readable(MarkLeft(s, name, e, k, cleared, under, dir))
  {
  }

  lemma SavedThen(s: State, name: Name, e: Entry, k: nat, cleared: bool, under: Dir -> bool)
    ensures var r := Restarted(Registering(s, name, e, k, cleared, under));
      r.index == r.saved == if k >= 4 then s.index[name := e] else s.saved
  {
  }

  /**
    Crash consistency, for an index on disk of any age: whatever step of a register the
    process dies after, the next load makes index and directories agree, and every entry
    of the index on disk has the owner the register left named in its directory, or the
    one it had on disk when no mark is there.
   */
  lemma CrashConsistent(s: State, name: Name, e: Entry, k: nat, cleared: bool, t: State, under: Dir -> bool,
                        order: seq<Name>, writes: Name -> bool, saves: bool)
    requires Agree(s, under) && DistinctDirs(s.index[name := e]) && forall m :: writes(m)
    requires Reconciles(Restarted(Registering(s, name, e, k, cleared, under)), t, under, order, writes, saves)
    ensures Agree(t, under)
    ensures var was := if k >= 4 then s.index[name := e] else s.saved;
      && t.index.Keys == was.Keys
      && (forall n :: n in was ==>
            t.index[n] == was[n].(owner := OwnerBy(MarkLeft(s, name, e, k, cleared, under, was[n].dir), was[n], under)))
  {
    hide Reconciles, Registering, Agrees, MarkLeft, OwnerBy, Readable;
    var r := Restarted(Registering(s, name, e, k, cleared, under));
    SavedThen(s, name, e, k, cleared, under);
    forall d
      ensures MarkAt(r.marks, d) == MarkLeft(s, name, e, k, cleared, under, d) && Readable(MarkAt(r.marks, d))
    {
      MarkLeftIs(s, name, e, k, cleared, under, d);
      RestartedIs(Registering(s, name, e, k, cleared, under));
    }
    LoadedAgrees(r, t, under, order, writes, saves);
    LoadedKeys(r, t, under, order, writes, saves);
    forall n | n in r.index
      ensures t.index[n] == r.index[n].(owner := OwnerBy(MarkLeft(s, name, e, k, cleared, under, r.index[n].dir), r.index[n], under))
    {
      ReconcilesAt(r, t, under, order, writes, saves, n);
    }
  }

  /** The owner before, when there is one. */
  function OwnerBefore(s: State, name: Name): Option<string> {
    if name in s.index then Some(s.index[name].owner) else None
  }

  /** A register's step that takes away the mark of the directory `name` has in memory. */
  predicate TakesMark(s: State, name: Name, e: Entry, k: nat, cleared: bool)
    requires name in s.index
  {
    if e.dir == s.index[name].dir then (if k >= 1 then e.owner == "" else s.index[name].owner == "")
    else s.index[name].owner == "" || (k >= 2 && cleared)
  }

  /**
    After a crash before the index is saved, an entry whose directory is the one it has
    in memory has the owner from before, the one asked for, or the one on disk: and it is
    neither of the first two exactly when the mark is gone and the one on disk is neither.
   */
  lemma CrashedOwner(s: State, name: Name, e: Entry, k: nat, cleared: bool, t: State, under: Dir -> bool,
                     order: seq<Name>, writes: Name -> bool, saves: bool)
    requires Agree(s, under) && DistinctDirs(s.index[name := e]) && (forall m :: writes(m)) && k < 4
    requires Reconciles(Restarted(Registering(s, name, e, k, cleared, under)), t, under, order, writes, saves)
    requires name in s.saved && name in s.index && s.saved[name].dir == s.index[name].dir
    ensures name in t.index
    ensures var o, before, after, saved := t.index[name].owner, s.index[name].owner, e.owner, s.saved[name].owner;
      && (o == before || o == after || o == saved)
      && (o != before && o != after <==>
            saved != before && saved != after && (!under(s.index[name].dir) || TakesMark(s, name, e, k, cleared)))
  {
    hide Reconciles, Registering, Readable;
    CrashConsistent(s, name, e, k, cleared, t, under, order, writes, saves);
    assert Agrees(s.marks, s.index[name], under);
    assert !Shared(s.index, s.index[name].dir, name);
    hide Agree, DistinctDirs;
  }

  /** When the index on disk is the one in memory, the owner is the one before or the one asked for, and no other entry changes. */
  lemma CrashAfterSave(s: State, name: Name, e: Entry, k: nat, cleared: bool, t: State, under: Dir -> bool,
                       order: seq<Name>, writes: Name -> bool, saves: bool)
    requires Agree(s, under) && s.saved == s.index && DistinctDirs(s.index[name := e]) && forall m :: writes(m)
    requires Reconciles(Restarted(Registering(s, name, e, k, cleared, under)), t, under, order, writes, saves)
    ensures name in t.index <==> name in s.index || k >= 4
    ensures name in t.index ==> t.index[name].owner == e.owner || Some(t.index[name].owner) == OwnerBefore(s, name)
    ensures k >= 4 ==> t.index[name] == e
    ensures forall n :: n in s.index && n != name ==> n in t.index && t.index[n] == s.index[n]
    ensures forall n :: n in t.index && n != name ==> n in s.index
  {
    hide Reconciles, Registering, Readable, Agrees, MarkLeft, OwnerBy;
    CrashConsistent(s, name, e, k, cleared, t, under, order, writes, saves);
    var was := if k >= 4 then s.index[name := e] else s.saved;
    forall n | n in was
      ensures n != name || k >= 4 ==> t.index[n] == was[n]
      ensures n == name && k < 4 ==> t.index[n].owner == e.owner || Some(t.index[n].owner) == OwnerBefore(s, name)
    {
      if n != name {
        OtherMark(s, name, e, k, cleared, under, n);
      } else {
        NamedMark(s, name, e, k, cleared, under);
      }
    }
  }

  lemma OtherMark(s: State, name: Name, e: Entry, k: nat, cleared: bool, under: Dir -> bool, n: Name)
    requires Agree(s, under) && DistinctDirs(s.index[name := e]) && n in s.index && n != name
    ensures OwnerBy(MarkLeft(s, name, e, k, cleared, under, s.index[n].dir), s.index[n], under) == s.index[n].owner
  {
    hide Readable;
    assert Agrees(s.marks, s.index[n], under);
    assert s.index[name := e][n] == s.index[n] && s.index[name := e][name] == e;
    assert name in s.index ==> s.index[name].dir != s.index[n].dir;
  }

  lemma NamedMark(s: State, name: Name, e: Entry, k: nat, cleared: bool, under: Dir -> bool)
    requires Agree(s, under)
    ensures k >= 4 ==> OwnerBy(MarkLeft(s, name, e, k, cleared, under, e.dir), e, under) == e.owner
    ensures name in s.index ==>
      OwnerBy(MarkLeft(s, name, e, k, cleared, under, s.index[name].dir), s.index[name], under) in {e.owner, s.index[name].owner}
  {
    hide Readable;
    if name in s.index { assert Agrees(s.marks, s.index[name], under); }
  }

  // ---- an owner that comes back ------------------------------------------------------------------

  /**
    A stack whose owner "a" was taken back: the register removed the mark, and could not
    save the index. The same register again, cut off at any step before the index is
    saved, is followed by a load that has the owner "a" in the index and in the mark.
   */
  lemma OwnerComesBack(under: Dir -> bool, dir: Dir, k: nat, cleared: bool, t: State, order: seq<Name>, writes: Name -> bool, saves: bool)
    requires under(dir) && k < 4 && forall m :: writes(m)
    requires var owned := map["p" := Entry(dir, "a")];
      var s := Registering(State(map[dir := Owned("a")], owned, owned), "p", Entry(dir, ""), 3, true, under);
      Reconciles(Restarted(Registering(s, "p", Entry(dir, ""), k, cleared, under)), t, under, order, writes, saves)
    ensures t.index == map["p" := Entry(dir, "a")] && MarkAt(t.marks, dir) == Owned("a")
  {
    hide Reconciles;
    var owned := map["p" := Entry(dir, "a")];
    var s := Registering(State(map[dir := Owned("a")], owned, owned), "p", Entry(dir, ""), 3, true, under);
    assert s.index == map["p" := Entry(dir, "")] && s.saved == owned && s.marks == map[];
    var r := Restarted(Registering(s, "p", Entry(dir, ""), k, cleared, under));
    assert r.index == owned && MarkAt(r.marks, dir) == NoMark;
    ReconcilesAt(r, t, under, order, writes, saves, "p");
    LoadedKeys(r, t, under, order, writes, saves);
    assert t.index.Keys == {"p"};
  }

  // ---- the reserved owner ------------------------------------------------------------------------

  predicate ValidMark(m: Mark) {
    m.Owned? ==> m.owner != "" && ValidOwner(m.owner)
  }

  /** The reserved owner is nowhere: not in the index, not on disk, not in a mark. */
  ghost predicate NoUnknown(s: State) {
    && (forall n :: n in s.index ==> ValidOwner(s.index[n].owner))
    && (forall n :: n in s.saved ==> ValidOwner(s.saved[n].owner))
    && (forall d :: ValidMark(MarkAt(s.marks, d)))
  }

  /** ownerOfFiles: the directory first, then the index. */
  function OwnerOfFiles(s: State, name: Name, dir: Dir, under: Dir -> bool): string {
    var o := ReadOwner(s.marks, dir, under);
    if o != "" then o else if name in s.index then s.index[name].owner else ""
  }

  /** What the register request records: a declared owner, which must be valid, or the one there is. */
  function Requested(s: State, name: Name, dir: Dir, owner: Option<string>, under: Dir -> bool): Option<string> {
    match owner
    case Some(o) => if ValidOwner(o) then Some(o) else None
    case None => Some(OwnerOfFiles(s, name, dir, under))
  }

  datatype Step =
    | Request(name: Name, dir: Dir, owner: Option<string>, steps: nat, cleared: bool)
    | Adopt(name: Name, dir: Dir, saves: bool)
    | Deregister(name: Name, saves: bool)
    | Reload(order: seq<Name>, writes: Name -> bool, saves: bool)
    | Corrupt(dir: Dir)

  /** Whether `t` may follow `s`: a request that stops anywhere, an adoption, a removal, a restart, or a mark gone bad. */
  ghost predicate Follows(s: State, step: Step, t: State, under: Dir -> bool) {
    match step
    case Request(name, dir, owner, k, cleared) =>
      (match Requested(s, name, dir, owner, under)
       case None => t == s
       case Some(o) =>
         if under(dir) && !ValidOwner(o) then t == s else t == Registering(s, name, Entry(dir, o), k, cleared, under))
    case Adopt(name, dir, saves) =>
      if name in s.index || (under(dir) && MarkAt(s.marks, dir).Unreadable?) then t == s
      else
        var index := s.index[name := Entry(dir, ReadOwner(s.marks, dir, under))];
        t == State(s.marks, index, if saves then index else s.saved)
    case Deregister(name, saves) =>
      if name !in s.index then t == s
      else t == State(s.marks, s.index - {name}, if saves then s.index - {name} else s.saved)
    case Reload(order, writes, saves) => Reconciles(Restarted(s), t, under, order, writes, saves)
    case Corrupt(dir) => t == s.(marks := s.marks[dir := Unreadable])
  }

  /** Whose files a register request says they are: the declared owner; without one the mark's, and without a mark the index's. */
  predicate AskedFor(s: State, step: Step, under: Dir -> bool, o: string)
    requires step.Request?
  {
    && (step.owner.Some? ==> o == step.owner.value)
    && (step.owner.None? && under(step.dir) && MarkAt(s.marks, step.dir).Owned? ==> Owned(o) == MarkAt(s.marks, step.dir))
    && (step.owner.None? && (!under(step.dir) || MarkAt(s.marks, step.dir).NoMark?) ==>
          o == if step.name in s.index then s.index[step.name].owner else "")
  }

  lemma RequestedIs(s: State, step: Step, under: Dir -> bool)
    requires step.Request? && Readable(MarkAt(s.marks, step.dir))
    ensures var asked := Requested(s, step.name, step.dir, step.owner, under);
      && (asked.None? <==> step.owner.Some? && !ValidOwner(step.owner.value))
      && (asked.Some? ==> AskedFor(s, step, under, asked.value))
  {
    hide ValidOwner;
  }

  /** A request whose owner is refused, or that finds a mark that cannot be read and names no owner itself. */
  predicate IsRefused(s: State, step: Step, under: Dir -> bool)
    requires step.Request?
  {
    if step.owner.Some? then !ValidOwner(step.owner.value) else under(step.dir) && MarkAt(s.marks, step.dir).Unreadable?
  }

  /**
    What a finished register request leaves, in any state: nothing when it is refused, and
    else the entry with the owner asked for, the same owner named in the directory, every
    other entry as it was, and every other mark but that of the directory the project left.
   */
  lemma RequestLeaves(s: State, step: Step, t: State, under: Dir -> bool)
    requires NoUnknown(s) && step.Request? && step.steps >= 3 && Follows(s, step, t, under)
    ensures IsRefused(s, step, under) ==> t == s
    ensures !IsRefused(s, step, under) ==>
      && step.name in t.index && t.index[step.name].dir == step.dir && AskedFor(s, step, under, t.index[step.name].owner)
      && t.index == s.index[step.name := t.index[step.name]]
      && t.saved == (if step.steps >= 4 then t.index else s.saved)
    ensures !IsRefused(s, step, under) && under(step.dir) ==>
      MarkAt(t.marks, step.dir) == if t.index[step.name].owner == "" then NoMark else Owned(t.index[step.name].owner)
    ensures forall d :: d != step.dir && !(step.name in s.index && s.index[step.name].dir == d) ==> MarkAt(t.marks, d) == MarkAt(s.marks, d)
  {
    hide ValidOwner;
    NobodyIsValid();
    assert ValidMark(MarkAt(s.marks, step.dir));
  }

  lemma RegisteringKeeps(s: State, name: Name, e: Entry, k: nat, cleared: bool, under: Dir -> bool)
    requires NoUnknown(s) && ValidOwner(e.owner)
    ensures NoUnknown(Registering(s, name, e, k, cleared, under))
  {
    hide ValidOwner;
    NobodyIsValid();
    forall d
      ensures ValidMark(MarkAt(Registering(s, name, e, k, cleared, under).marks, d))
    {
      assert ValidMark(MarkAt(s.marks, d));
    }
  }

  lemma NobodyIsValid()
    ensures ValidOwner("") && !ValidOwner(UNKNOWN)
  {
  }

  lemma {:induction false} TakenIsValid(index: Index, order: seq<Name>, n: nat, dir: Dir, writes: Name -> bool)
    requires n <= |order| && forall i :: 0 <= i < |order| ==> order[i] in index
    requires forall m :: m in index ==> ValidOwner(index[m].owner)
    ensures Taken(index, order, n, dir, writes).Some? ==>
      ValidOwner(Taken(index, order, n, dir, writes).value) && Taken(index, order, n, dir, writes).value != ""
  {
    hide ValidOwner;
    if n > 0 {
      TakenIsValid(index, order, n - 1, dir, writes);
    }
  }

  lemma MarkThenIsValid(s: State, order: seq<Name>, n: nat, dir: Dir, under: Dir -> bool, writes: Name -> bool)
    requires n <= |order| && (forall i :: 0 <= i < |order| ==> order[i] in s.index) && NoUnknown(s)
    ensures ValidMark(MarkThen(s, order, n, dir, under, writes))
  {
    hide ValidOwner;
    TakenIsValid(s.index, order, n, dir, writes);
    assert ValidMark(MarkAt(s.marks, dir));
    hide Taken;
  }

  lemma ReconciledKeeps(s: State, t: State, under: Dir -> bool, order: seq<Name>, writes: Name -> bool, saves: bool)
    requires NoUnknown(s) && Reconciles(s, t, under, order, writes, saves)
    ensures NoUnknown(t)
  {
    hide ValidOwner, MarkThen;
    forall n | n in t.index
      ensures ValidOwner(t.index[n].owner)
    {
      var i :| 0 <= i < |order| && order[i] == n;
      MarkThenIsValid(s, order, i, s.index[n].dir, under, writes);
    }
    forall d
      ensures ValidMark(MarkAt(t.marks, d))
    {
      MarkThenIsValid(s, order, |order|, d, under, writes);
    }
  }

  /** The reserved owner never enters the index or a mark, whatever a step is and wherever it stops. */
  lemma UnknownNeverEnters(s: State, step: Step, t: State, under: Dir -> bool)
    requires NoUnknown(s) && Follows(s, step, t, under)
    ensures NoUnknown(t)
  {
    hide Registering, ValidOwner, Reconciles;
    NobodyIsValid();
    match step
    case Request(name, dir, owner, k, cleared) =>
      assert ValidMark(MarkAt(s.marks, dir));
      if t != s {
        RegisteringKeeps(s, name, Entry(dir, Requested(s, name, dir, owner, under).value), k, cleared, under);
      }
    case Adopt(name, dir, saves) =>
      assert ValidMark(MarkAt(s.marks, dir));
    case Reload(order, writes, saves) => ReconciledKeeps(Restarted(s), t, under, order, writes, saves);
    case Corrupt(dir) =>
      forall d
        ensures ValidMark(MarkAt(t.marks, d))
      {
        assert ValidMark(MarkAt(s.marks, d));
      }
    case Deregister(_, _) =>
  }

  // ---- runs ------------------------------------------------------------------------------------

  /** The process dies in this step, before it changed the index. */
  predicate Stops(step: Step) {
    step.Request? && step.steps < 3
  }

  /**
    What the handlers let through, on a disk whose marks can be read and written: no
    directory is registered or adopted twice.
   */
  ghost predicate Ordinary(s: State, step: Step) {
    match step
    case Request(name, dir, _, _, _) => !Shared(s.index, dir, name)
    case Adopt(name, dir, _) => !Shared(s.index, dir, name)
    case Deregister(_, _) => true
    case Reload(_, writes, _) => forall m :: writes(m)
    case Corrupt(_) => false
  }

  /** A registry that starts empty. An index that cannot be saved is no obstacle; a process that died is restarted. */
  ghost predicate Run(states: seq<State>, steps: seq<Step>, under: Dir -> bool) {
    && |states| == |steps| + 1 && states[0].index == map[] && states[0].saved == map[]
    && (forall d :: Readable(MarkAt(states[0].marks, d)))
    && (forall i :: 0 <= i < |steps| ==> Follows(states[i], steps[i], states[i + 1], under) && Ordinary(states[i], steps[i]))
    && (forall i :: 0 <= i < |steps| - 1 && Stops(steps[i]) ==> steps[i + 1].Reload?)
  }

  lemma NotShared(index: Index, name: Name, e: Entry)
    requires DistinctDirs(index) && !Shared(index, e.dir, name)
    ensures DistinctDirs(index[name := e])
  {
  }

  lemma RegisterKeepsAgree(s: State, name: Name, e: Entry, k: nat, cleared: bool, under: Dir -> bool)
    requires Agree(s, under) && !Shared(s.index, e.dir, name) && k >= 3
    ensures Agree(Registering(s, name, e, k, cleared, under), under)
  {
    var t := Registering(s, name, e, k, cleared, under);
    NotShared(s.index, name, e);
    assert t.index == s.index[name := e] && (t.saved == s.saved || t.saved == t.index);
    hide Registering, Agrees, MarkLeft, Readable, DistinctDirs;
    forall d
      ensures MarkAt(t.marks, d) == MarkLeft(s, name, e, k, cleared, under, d) && Readable(MarkAt(t.marks, d))
    {
      MarkLeftIs(s, name, e, k, cleared, under, d);
    }
    forall n | n in t.index
      ensures Agrees(t.marks, t.index[n], under)
    {
      EntryLeft(s, name, e, k, cleared, under, n);
      AgreesIs(t.marks, t.index[n], under);
    }
  }

  lemma EntryLeft(s: State, name: Name, e: Entry, k: nat, cleared: bool, under: Dir -> bool, n: Name)
    requires Agree(s, under) && DistinctDirs(s.index[name := e]) && k >= 1 && n in s.index[name := e]
    ensures var x := s.index[name := e][n];
      under(x.dir) ==> MarkLeft(s, name, e, k, cleared, under, x.dir) == if x.owner == "" then NoMark else Owned(x.owner)
  {
    hide Readable;
    if n != name {
      assert Agrees(s.marks, s.index[n], under);
      assert s.index[name := e][n] == s.index[n] && s.index[name := e][name] == e;
      assert name in s.index ==> s.index[name].dir != s.index[n].dir;
    }
  }

  lemma AdoptKeepsAgree(s: State, name: Name, dir: Dir, saves: bool, under: Dir -> bool)
    requires Agree(s, under) && !Shared(s.index, dir, name)
    ensures var index := s.index[name := Entry(dir, ReadOwner(s.marks, dir, under))];
      Agree(State(s.marks, index, if saves then index else s.saved), under)
  {
    var e := Entry(dir, ReadOwner(s.marks, dir, under));
    NotShared(s.index, name, e);
    assert Readable(MarkAt(s.marks, dir));
    assert Agrees(s.marks, e, under);
    hide Agrees, Readable, DistinctDirs;
  }

  lemma ReloadKeepsAgree(s: State, t: State, under: Dir -> bool, order: seq<Name>, writes: Name -> bool, saves: bool)
    requires Agree(s, under) && Reconciles(Restarted(s), t, under, order, writes, saves) && forall m :: writes(m)
    ensures Agree(t, under)
  {
    hide Agrees, Readable, DistinctDirs, Reconciles;
    RestartedIs(s);
    LoadedAgrees(Restarted(s), t, under, order, writes, saves);
  }

  lemma StepKeepsAgree(s: State, step: Step, t: State, under: Dir -> bool)
    requires Agree(s, under) && Follows(s, step, t, under) && Ordinary(s, step) && !Stops(step)
    ensures Agree(t, under)
  {
    hide Registering, Reconciles, ValidOwner, OwnerOfFiles;
    match step
    case Request(name, dir, owner, k, cleared) =>
      if t != s {
        RegisterKeepsAgree(s, name, Entry(dir, Requested(s, name, dir, owner, under).value), k, cleared, under);
      }
    case Adopt(name, dir, saves) => AdoptKeepsAgree(s, name, dir, saves, under);
    case Reload(order, writes, saves) => ReloadKeepsAgree(s, t, under, order, writes, saves);
    case Deregister(_, _) => hide Agrees, Readable;
    case Corrupt(_) =>
  }

  /** A register the process died in, and the restart after it. */
  lemma RestartAgrees(s: State, step: Step, u: State, next: Step, t: State, under: Dir -> bool)
    requires Agree(s, under) && Follows(s, step, u, under) && Ordinary(s, step) && Stops(step)
    requires next.Reload? && Follows(u, next, t, under) && Ordinary(u, next)
    ensures Agree(t, under)
  {
    hide Registering, Reconciles, ValidOwner, OwnerOfFiles, Agrees, Readable, MarkLeft, OwnerBy;
    if u == s {
      ReloadKeepsAgree(s, t, under, next.order, next.writes, next.saves);
    } else {
      var e := Entry(step.dir, Requested(s, step.name, step.dir, step.owner, under).value);
      NotShared(s.index, step.name, e);
      CrashConsistent(s, step.name, e, step.steps, step.cleared, t, under, next.order, next.writes, next.saves);
    }
  }

  /**
    Over every run, whatever step a process died in and whichever index could not be
    saved: whenever no register is under way, index and directories agree.
   */
  lemma {:induction false} RunAgrees(states: seq<State>, steps: seq<Step>, n: nat, under: Dir -> bool)
    requires Run(states, steps, under) && n <= |steps|
    ensures n == 0 || !Stops(steps[n - 1]) ==> Agree(states[n], under)
    ensures n > 0 && Stops(steps[n - 1]) ==> Agree(states[n - 1], under)
  {
    hide Follows, Ordinary, Agree, Readable;
    if n == 0 {
      EmptyAgrees(states[0], under);
    } else {
      RunAgrees(states, steps, n - 1, under);
      if n > 1 && Stops(steps[n - 2]) {
        assert steps[n - 1].Reload?;
        RestartAgrees(states[n - 2], steps[n - 2], states[n - 1], steps[n - 1], states[n], under);
      } else if !Stops(steps[n - 1]) {
        StepKeepsAgree(states[n - 1], steps[n - 1], states[n], under);
      }
    }
  }

  lemma EmptyAgrees(s: State, under: Dir -> bool)
    requires s.index == map[] && s.saved == map[] && forall d :: Readable(MarkAt(s.marks, d))
    ensures Agree(s, under)
  {
    hide Readable;
  }

  // ---- runs that save every index ---------------------------------------------------------------

  predicate Saves(step: Step) {
    match step
    case Request(_, _, _, k, _) => k != 3
    case Adopt(_, _, saves) => saves
    case Deregister(_, saves) => saves
    case Reload(_, _, saves) => saves
    case Corrupt(_) => true
  }

  lemma StepKeepsSaved(s: State, step: Step, t: State, under: Dir -> bool)
    requires Follows(s, step, t, under) && Saves(step) && (s.saved == s.index || step.Reload?)
    ensures t.saved == t.index || Stops(step)
    ensures Stops(step) ==> t.saved == s.saved && t.index == s.index
  {
    hide Reconciles, OwnerOfFiles, ValidOwner;
    if step.Reload? {
      LoadedKeys(Restarted(s), t, under, step.order, step.writes, step.saves);
    }
  }

  lemma {:induction false} RunSaves(states: seq<State>, steps: seq<Step>, n: nat, under: Dir -> bool)
    requires Run(states, steps, under) && n <= |steps| && forall i :: 0 <= i < n ==> Saves(steps[i])
    ensures states[n].saved == states[n].index
  {
    hide Follows, Ordinary, Saves, Stops;
    if n > 0 {
      RunSaves(states, steps, n - 1, under);
      StepKeepsSaved(states[n - 1], steps[n - 1], states[n], under);
    }
  }

  lemma NothingRegistered(s: State, t: State, under: Dir -> bool, order: seq<Name>, writes: Name -> bool, saves: bool)
    requires Agree(s, under) && s.saved == s.index && Reconciles(Restarted(s), t, under, order, writes, saves) && forall m :: writes(m)
    ensures t.index == s.index
  {
    hide Reconciles, Readable;
    RestartedIs(s);
    LoadedKeys(Restarted(s), t, under, order, writes, saves);
    forall n | n in s.index
      ensures t.index[n] == s.index[n]
    {
      ReconcilesAt(Restarted(s), t, under, order, writes, saves, n);
      assert Agrees(s.marks, s.index[n], under);
    }
  }

  /**
    Over every run that could save each index so far: when the process dies in a
    register, the restart finds the project with its owner from before or the one asked
    for, and every other entry as it was.
   */
  lemma CrashInRun(states: seq<State>, steps: seq<Step>, n: nat, under: Dir -> bool)
    requires Run(states, steps, under) && n + 1 < |steps| && Stops(steps[n]) && forall i :: 0 <= i < n ==> Saves(steps[i])
    ensures var s, t, step := states[n], states[n + 2], steps[n];
      && t.index.Keys == s.index.Keys
      && (step.name in s.index ==>
            t.index[step.name].owner == s.index[step.name].owner || AskedFor(s, step, under, t.index[step.name].owner))
      && (forall m :: m in s.index && m != step.name ==> t.index[m] == s.index[m])
  {
    hide Agree, Registering, Reconciles, ValidOwner, OwnerOfFiles, DistinctDirs;
    RunAgrees(states, steps, n, under);
    RunSaves(states, steps, n, under);
    SettledBefore(states, steps, n, under);
    var s, u, t, step, next := states[n], states[n + 1], states[n + 2], steps[n], steps[n + 1];
    assert Follows(s, step, u, under) && Follows(u, next, t, under) && Ordinary(s, step) && Ordinary(u, next);
    if u == s {
      NothingRegistered(s, t, under, next.order, next.writes, next.saves);
    } else {
      var e := Entry(step.dir, Requested(s, step.name, step.dir, step.owner, under).value);
      DistinctBy(s, under);
      RunIsReadable(states, steps, n, under);
      RequestedIs(s, step, under);
      NotShared(s.index, step.name, e);
      CrashAfterSave(s, step.name, e, step.steps, step.cleared, t, under, next.order, next.writes, next.saves);
    }
  }

  lemma DistinctBy(s: State, under: Dir -> bool)
    requires Agree(s, under)
    ensures DistinctDirs(s.index)
  {
    hide DistinctDirs, Agrees, Readable;
  }

  lemma SettledBefore(states: seq<State>, steps: seq<Step>, n: nat, under: Dir -> bool)
    requires Run(states, steps, under) && n < |steps| && steps[n].Request?
    ensures n == 0 || !Stops(steps[n - 1])
  {
    hide Follows, Ordinary, Readable;
  }

  /** In any run, when the index could not always be saved: whose owner the restart finds, exactly. */
  lemma CrashInAnyRun(states: seq<State>, steps: seq<Step>, n: nat, under: Dir -> bool)
    requires Run(states, steps, under) && n + 1 < |steps| && Stops(steps[n]) && states[n + 1] != states[n]
    requires var s, name := states[n], steps[n].name; name in s.saved && name in s.index && s.saved[name].dir == s.index[name].dir
    ensures var s, t, step := states[n], states[n + 2], steps[n];
      var asked := Requested(s, step.name, step.dir, step.owner, under);
      && asked.Some? && AskedFor(s, step, under, asked.value) && step.name in t.index
      && var o, before, after, saved := t.index[step.name].owner, s.index[step.name].owner, asked.value, s.saved[step.name].owner;
         && (o == before || o == after || o == saved)
         && (o != before && o != after <==>
               saved != before && saved != after
               && (!under(s.index[step.name].dir) || TakesMark(s, step.name, Entry(step.dir, after), step.steps, step.cleared)))
  {
    hide Agree, Registering, Reconciles, ValidOwner, OwnerOfFiles, DistinctDirs, TakesMark;
    RunAgrees(states, steps, n, under);
    SettledBefore(states, steps, n, under);
    var s, u, t, step, next := states[n], states[n + 1], states[n + 2], steps[n], steps[n + 1];
    assert Follows(s, step, u, under) && Follows(u, next, t, under) && Ordinary(s, step) && Ordinary(u, next);
    var e := Entry(step.dir, Requested(s, step.name, step.dir, step.owner, under).value);
    DistinctBy(s, under);
    RunIsReadable(states, steps, n, under);
    RequestedIs(s, step, under);
    NotShared(s.index, step.name, e);
    CrashedOwner(s, step.name, e, step.steps, step.cleared, t, under, next.order, next.writes, next.saves);
  }

  predicate Always(name: Name) {
    true
  }

  /** A run in which it happens: "a" is adopted, taken back without being saved, and taken back again by a process that dies. */
  lemma OwnerComesBackInRun(under: Dir -> bool, dir: Dir) returns (states: seq<State>, steps: seq<Step>)
    requires under(dir)
    ensures Run(states, steps, under) && |steps| == 4
    ensures steps[1] == Request("p", dir, Some(""), 3, true) && steps[2] == Request("p", dir, Some(""), 1, true)
    ensures states[2].index == map["p" := Entry(dir, "")] && MarkAt(states[2].marks, dir) == NoMark
    ensures states[4].index == map["p" := Entry(dir, "a")] && MarkAt(states[4].marks, dir) == Owned("a")
  {
    var owned, mark := map["p" := Entry(dir, "a")], map[dir := Owned("a")];
    var s0, s1 := State(mark, map[], map[]), State(mark, owned, owned);
    var s2, s4 := State(map[], map["p" := Entry(dir, "")], owned), s1;
    states := [s0, s1, s2, s2, s4];
    steps := [Adopt("p", dir, true), Request("p", dir, Some(""), 3, true), Request("p", dir, Some(""), 1, true),
              Reload(["p"], Always, true)];
    TakenBack(s1, dir, under);
    TakenBackAgain(s2, dir, under);
    Returned(s2, s4, dir, under);
    hide Registering, Reconciles, Requested;
    assert Follows(s0, steps[0], s1, under) && Ordinary(s0, steps[0]);
    forall i | 0 <= i < |steps|
      ensures Follows(states[i], steps[i], states[i + 1], under) && Ordinary(states[i], steps[i])
    {
    }
  }

  lemma TakenBack(s: State, dir: Dir, under: Dir -> bool)
    requires under(dir) && s == State(map[dir := Owned("a")], map["p" := Entry(dir, "a")], map["p" := Entry(dir, "a")])
    ensures Follows(s, Request("p", dir, Some(""), 3, true), State(map[], map["p" := Entry(dir, "")], s.saved), under)
    ensures Ordinary(s, Request("p", dir, Some(""), 3, true))
  {
    assert Registering(s, "p", Entry(dir, ""), 3, true, under) == State(map[], map["p" := Entry(dir, "")], s.saved);
  }

  lemma TakenBackAgain(s: State, dir: Dir, under: Dir -> bool)
    requires under(dir) && s.marks == map[] && s.index == map["p" := Entry(dir, "")]
    ensures Follows(s, Request("p", dir, Some(""), 1, true), s, under) && Ordinary(s, Request("p", dir, Some(""), 1, true))
  {
    assert Registering(s, "p", Entry(dir, ""), 1, true, under) == s;
  }

  lemma Returned(s: State, t: State, dir: Dir, under: Dir -> bool)
    requires under(dir) && s.marks == map[] && s.saved == map["p" := Entry(dir, "a")]
    requires t == State(map[dir := Owned("a")], s.saved, s.saved)
    ensures Follows(s, Reload(["p"], Always, true), t, under) && Ordinary(s, Reload(["p"], Always, true))
  {
    var r, order, writes := Restarted(s), ["p"], Always;
    assert Taken(r.index, order, 0, dir, writes) == None;
    forall d
      ensures MarkAt(t.marks, d) == MarkThen(r, order, 1, d, under, writes)
    {
      assert Taken(r.index, order, 1, d, writes) == if d == dir then Some("a") else None;
    }
    assert InItsTurn(r, order, 0, under, writes) == Entry(dir, "a");
    assert Reconciles(r, t, under, order, writes, true);
  }

  // ---- what a run's requests leave -----------------------------------------------------------------

  lemma {:induction false} RunNamesOwners(states: seq<State>, steps: seq<Step>, n: nat, under: Dir -> bool)
    requires Run(states, steps, under) && NoUnknown(states[0]) && n <= |steps|
    ensures NoUnknown(states[n])
  {
    hide Follows, Ordinary, NoUnknown, Readable;
    if n > 0 {
      RunNamesOwners(states, steps, n - 1, under);
      UnknownNeverEnters(states[n - 1], steps[n - 1], states[n], under);
    }
  }

  /**
    Over every run: a finished register request that names no owner leaves the owner where
    it was. A mark stays as it is and the entry has its owner; without a mark the entry
    keeps its owner, or has none; and every other entry stays.
   */
  lemma SilentRequestKeepsOwner(states: seq<State>, steps: seq<Step>, n: nat, under: Dir -> bool)
    requires Run(states, steps, under) && NoUnknown(states[0])
    requires n < |steps| && steps[n].Request? && steps[n].owner.None? && steps[n].steps >= 3
    ensures var s, t, name, dir := states[n], states[n + 1], steps[n].name, steps[n].dir;
      && name in t.index && t.index[name].dir == dir && t.index == s.index[name := t.index[name]]
      && (under(dir) && MarkAt(s.marks, dir).Owned? ==>
            MarkAt(t.marks, dir) == MarkAt(s.marks, dir) && t.index[name].owner == MarkAt(s.marks, dir).owner)
      && (!under(dir) || !MarkAt(s.marks, dir).Owned? ==>
            t.index[name].owner == if name in s.index then s.index[name].owner else "")
  {
    hide Agree, Registering, ValidOwner, DistinctDirs, Follows, Ordinary, NoUnknown;
    RunNamesOwners(states, steps, n, under);
    RunIsReadable(states, steps, n, under);
    StepOfRun(states, steps, n, under);
    RequestLeaves(states[n], steps[n], states[n + 1], under);
    NamedMarks(states[n], steps[n].dir);
  }

  lemma StepOfRun(states: seq<State>, steps: seq<Step>, n: nat, under: Dir -> bool)
    requires Run(states, steps, under) && n < |steps|
    ensures Follows(states[n], steps[n], states[n + 1], under)
  {
    hide Follows, Ordinary, Readable;
  }

  lemma NamedMarks(s: State, dir: Dir)
    requires NoUnknown(s)
    ensures MarkAt(s.marks, dir) != Owned("")
  {
    hide ValidOwner;
    assert ValidMark(MarkAt(s.marks, dir));
  }

  lemma RunIsReadable(states: seq<State>, steps: seq<Step>, n: nat, under: Dir -> bool)
    requires Run(states, steps, under) && n < |steps| && steps[n].Request?
    ensures Readable(MarkAt(states[n].marks, steps[n].dir))
  {
    hide Follows, Ordinary, Readable, Agrees, DistinctDirs;
    RunAgrees(states, steps, n, under);
    SettledBefore(states, steps, n, under);
    assert Agree(states[n], under);
  }
}
