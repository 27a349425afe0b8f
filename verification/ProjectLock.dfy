/**
  The per-project lock (projectlock.go) as a state machine over every interleaving of
  its sections. Entries are created on demand, counted by reference, and dropped at
  zero while other threads come and go.
 */
module ProjectLocks {

  type Key = string

  /** A lock entry; `taken` is whether the slot channel holds its token. */
  datatype Entry = Entry(taken: bool, refs: int, holder: string)

  /** Where a thread is in acquire and in the release it returned. */
  datatype Phase =
    | Entered                // counted; about to try the slot
    | Waiting                // the slot was taken
    | Cancelled              // gave up; about to drop
    | Acquired               // has the token; about to name itself
    | Holding
    | Clearing               // named itself no longer; still has the token
    | Released               // gave the token back; about to drop
    | Finished

  datatype Thread = Thread(key: Key, entry: nat, phase: Phase)

  datatype State = State(locks: map<Key, nat>, entries: map<nat, Entry>, threads: map<nat, Thread>)

  datatype Step =
    | Enter(t: nat, key: Key, spare: nat)
    | Try(t: nat)
    | Take(t: nat)
    | Cancel(t: nat)
    | SetHolder(t: nat, who: string)
    | ClearHolder(t: nat)
    | GiveBack(t: nat)
    | Drop(t: nat)
    | ReleaseAgain(t: nat)

  predicate At(s: State, t: nat, phase: Phase) {
    t in s.threads && s.threads[t].phase == phase && s.threads[t].entry in s.entries
  }

  predicate Enabled(s: State, step: Step) {
    match step
    case Enter(t, _, spare) => t !in s.threads && spare !in s.entries
    case Try(t) => At(s, t, Entered)
    case Take(t) => At(s, t, Waiting) && !s.entries[s.threads[t].entry].taken
    case Cancel(t) => At(s, t, Waiting)
    case SetHolder(t, _) => At(s, t, Acquired)
    case ClearHolder(t) => At(s, t, Holding)
    case GiveBack(t) => At(s, t, Clearing) && s.entries[s.threads[t].entry].taken
    case Drop(t) => At(s, t, Cancelled) || At(s, t, Released)
    case ReleaseAgain(t) => t in s.threads && s.threads[t].phase in {Clearing, Released, Finished}
  }

  function To(s: State, t: nat, phase: Phase): State
    requires t in s.threads
  {
    s.(threads := s.threads[t := s.threads[t].(phase := phase)])
  }

  function With(s: State, t: nat, e: Entry): State
    requires t in s.threads
  {
    s.(entries := s.entries[s.threads[t].entry := e])
  }

  /** acquire's first section: the key's entry, or a fresh one, counted once more. */
  function Entering(s: State, t: nat, key: Key, spare: nat): State {
    var id := if key in s.locks then s.locks[key] else spare;
    var e := if id in s.entries then s.entries[id] else Entry(false, 0, "");
    State(s.locks[key := id], s.entries[id := e.(refs := e.refs + 1)], s.threads[t := Thread(key, id, Entered)])
  }

  /** drop: one reference less, and at zero no entry. */
  function Dropping(s: State, t: nat): State
    requires t in s.threads && s.threads[t].entry in s.entries
  {
    var Thread(key, id, _) := s.threads[t];
    var e := s.entries[id];
    var gone := e.refs - 1 == 0 && key in s.locks && s.locks[key] == id;
    To(With(s, t, e.(refs := e.refs - 1)), t, Finished).(locks := if gone then s.locks - {key} else s.locks)
  }

  function Next(s: State, step: Step): State
    requires Enabled(s, step)
  {
    match step
    case Enter(t, key, spare) => Entering(s, t, key, spare)
    case Try(t) =>
      var e := s.entries[s.threads[t].entry];
      if e.taken then To(s, t, Waiting) else To(With(s, t, e.(taken := true)), t, Acquired)
    case Take(t) => To(With(s, t, s.entries[s.threads[t].entry].(taken := true)), t, Acquired)
    case Cancel(t) => To(s, t, Cancelled)
    case SetHolder(t, who) => To(With(s, t, s.entries[s.threads[t].entry].(holder := who)), t, Holding)
    case ClearHolder(t) => To(With(s, t, s.entries[s.threads[t].entry].(holder := "")), t, Clearing)
    case GiveBack(t) => To(With(s, t, s.entries[s.threads[t].entry].(taken := false)), t, Released)
    case Drop(t) => Dropping(s, t)
    case ReleaseAgain(_) => s
  }

  const START := State(map[], map[], map[])

  // ---- what every step keeps ------------------------------------------------------------

  /** A thread between its count and its drop. */
  predicate Counts(s: State, t: nat, id: nat) {
    t in s.threads && s.threads[t].phase != Finished && s.threads[t].entry == id
  }

  /** A thread that has the token. */
  predicate Has(s: State, t: nat, id: nat) {
    Counts(s, t, id) && s.threads[t].phase in {Acquired, Holding, Clearing}
  }

  predicate HoldsNow(s: State, t: nat, id: nat) {
    Has(s, t, id) && s.threads[t].phase == Holding
  }

  function Counting(s: State, id: nat): set<nat> {
    set t | t in s.threads && Counts(s, t, id)
  }

  /** A thread that counts an entry finds it under its key. */
  ghost predicate Current(s: State) {
    forall t :: t in s.threads && s.threads[t].phase != Finished ==>
      && s.threads[t].entry in s.entries
      && s.threads[t].key in s.locks && s.locks[s.threads[t].key] == s.threads[t].entry
  }

  /** An entry in the map is counted by some thread, and is under one key only. */
  ghost predicate Counted(s: State) {
    && (forall k :: k in s.locks ==> s.locks[k] in s.entries && Counting(s, s.locks[k]) != {})
    && (forall k, k' :: k in s.locks && k' in s.locks && s.locks[k] == s.locks[k'] ==> k == k')
  }

  /** `refs` is the number of holders and waiters. */
  ghost predicate RefsExact(s: State) {
    forall id :: id in s.entries ==> s.entries[id].refs == |Counting(s, id)|
  }

  /** The token is out exactly when one thread has it. */
  ghost predicate OneToken(s: State) {
    && (forall id :: id in s.entries && s.entries[id].taken ==> exists t :: Has(s, t, id))
    && (forall t, id :: Has(s, t, id) ==> id in s.entries && s.entries[id].taken)
    && (forall t, t', id :: Has(s, t, id) && Has(s, t', id) ==> t == t')
  }

  /** An entry names a holder only while that thread holds it. */
  ghost predicate HolderHolds(s: State) {
    forall id :: id in s.entries && s.entries[id].holder != "" ==>
      exists t :: HoldsNow(s, t, id)
  }

  ghost predicate Inv(s: State) {
    Current(s) && Counted(s) && RefsExact(s) && OneToken(s) && HolderHolds(s)
  }

  lemma TwoCount(s: State, t: nat, t': nat, id: nat)
    requires Counts(s, t, id) && Counts(s, t', id) && t != t'
    ensures |Counting(s, id)| >= 2
  {
    var both := {t, t'};
    assert both <= Counting(s, id);
    assert |Counting(s, id)| == |both| + |Counting(s, id) - both|;
  }

  /** How a step changes who counts an entry. */
  lemma CountingNext(s: State, step: Step, id: nat)
    requires Enabled(s, step) && Current(s)
    ensures step.Enter? && id == Next(s, step).threads[step.t].entry ==>
      Counting(Next(s, step), id) == Counting(s, id) + {step.t} && step.t !in Counting(s, id)
    ensures step.Drop? && id == s.threads[step.t].entry ==>
      Counting(Next(s, step), id) == Counting(s, id) - {step.t} && step.t in Counting(s, id)
    ensures !(step.Enter? && id == Next(s, step).threads[step.t].entry) && !(step.Drop? && id == s.threads[step.t].entry) ==>
      Counting(Next(s, step), id) == Counting(s, id)
  {
    hide Current;
    match step
    case Enter(t, key, spare) => SameCounts(s, step, id, t);
    case Drop(t) => SameCounts(s, step, id, t);
    case Try(t) => SameCounts(s, step, id, t);
    case Take(t) => SameCounts(s, step, id, t);
    case Cancel(t) => SameCounts(s, step, id, t);
    case SetHolder(t, who) => SameCounts(s, step, id, t);
    case ClearHolder(t) => SameCounts(s, step, id, t);
    case GiveBack(t) => SameCounts(s, step, id, t);
    case ReleaseAgain(_) =>
  }

  lemma SameCounts(s: State, step: Step, id: nat, t: nat)
    requires Enabled(s, step) && step.t == t && !step.ReleaseAgain?
    ensures forall u :: u != t ==> (Counts(Next(s, step), u, id) <==> Counts(s, u, id))
    ensures t in Next(s, step).threads
    ensures step.Enter? ==> !Counts(s, t, id) && (Counts(Next(s, step), t, id) <==> id == Next(s, step).threads[t].entry)
    ensures step.Drop? ==> !Counts(Next(s, step), t, id) && (Counts(s, t, id) <==> id == s.threads[t].entry)
    ensures !step.Enter? && !step.Drop? ==> (Counts(Next(s, step), t, id) <==> Counts(s, t, id))
  {
  }

  lemma RefsStay(s: State, step: Step)
    requires Enabled(s, step) && Inv(s)
    ensures RefsExact(Next(s, step))
  {
    hide Counting, HolderHolds, OneToken, Counted;
    var n := Next(s, step);
    forall id | id in n.entries
      ensures n.entries[id].refs == |Counting(n, id)|
    {
      CountingNext(s, step, id);
      if id !in s.entries {
        UnknownUncounted(s, id);
      }
      EntryNext(s, step, id);
    }
  }

  lemma UnknownUncounted(s: State, id: nat)
    requires Current(s) && id !in s.entries
    ensures Counting(s, id) == {}
  {
  }

  /** How a step changes an entry's count. */
  lemma EntryNext(s: State, step: Step, id: nat)
    requires Enabled(s, step) && id in Next(s, step).entries && Current(s)
    ensures id !in s.entries ==> step.Enter? && id == Next(s, step).threads[step.t].entry && Next(s, step).entries[id].refs == 1
    ensures id in s.entries ==>
      Next(s, step).entries[id].refs == s.entries[id].refs
        + (if step.Enter? && id == Next(s, step).threads[step.t].entry then 1 else 0)
        - (if step.Drop? && id == s.threads[step.t].entry then 1 else 0)
  {
  }

  /** Whether an entry is about to be left by another thread that counts it. */
  predicate LeavesBehind(s: State, step: Step, u: nat) {
    && step.Drop? && step.t in s.threads && u != step.t && u in s.threads && s.threads[u].phase != Finished
    && s.threads[u].entry == s.threads[step.t].entry
  }

  lemma ThreadStays(s: State, step: Step, u: nat)
    requires Enabled(s, step) && Current(s) && u in Next(s, step).threads && Next(s, step).threads[u].phase != Finished
    requires LeavesBehind(s, step, u) ==> s.threads[u].entry in s.entries && s.entries[s.threads[u].entry].refs >= 2
    ensures var n := Next(s, step);
      n.threads[u].entry in n.entries && n.threads[u].key in n.locks && n.locks[n.threads[u].key] == n.threads[u].entry
  {
  }

  lemma CurrentStays(s: State, step: Step)
    requires Enabled(s, step) && Inv(s)
    ensures Current(Next(s, step))
  {
    hide HolderHolds, OneToken, Counted, Next, Counting;
    forall u | u in Next(s, step).threads && Next(s, step).threads[u].phase != Finished
      ensures var n := Next(s, step);
        n.threads[u].entry in n.entries && n.threads[u].key in n.locks && n.locks[n.threads[u].key] == n.threads[u].entry
    {
      if LeavesBehind(s, step, u) {
        TwoCount(s, step.t, u, s.threads[u].entry);
      }
      ThreadStays(s, step, u);
    }
  }

  lemma LocksNext(s: State, step: Step, k: Key)
    requires Enabled(s, step) && k in Next(s, step).locks && Inv(s)
    ensures var id := Next(s, step).locks[k];
      || (k in s.locks && s.locks[k] == id && (step.Drop? && s.threads[step.t].entry == id ==> s.entries[id].refs != 1))
      || (step.Enter? && step.key == k && step.t in Next(s, step).threads && Next(s, step).threads[step.t].entry == id
          && k !in s.locks && id == step.spare)
  {
    hide HolderHolds, OneToken, Counting;
  }

  lemma CountedStays(s: State, step: Step)
    requires Enabled(s, step) && Inv(s)
    ensures Counted(Next(s, step))
  {
    hide HolderHolds, OneToken, Counting, Next;
    var n := Next(s, step);
    forall k | k in n.locks
      ensures n.locks[k] in n.entries && Counting(n, n.locks[k]) != {}
    {
      LocksNext(s, step, k);
      CountingNext(s, step, n.locks[k]);
      EntriesGrow(s, step, n.locks[k]);
      if step.Drop? && s.threads[step.t].entry == n.locks[k] {
        LastLeaves(s, step.t, n.locks[k]);
      }
    }
    forall k, k' | k in n.locks && k' in n.locks && n.locks[k] == n.locks[k']
      ensures k == k'
    {
      LocksNext(s, step, k);
      LocksNext(s, step, k');
      if step.Enter? {
        SpareIsNew(s, step);
      }
    }
  }

  lemma EntriesGrow(s: State, step: Step, id: nat)
    requires Enabled(s, step)
    ensures id in s.entries ==> id in Next(s, step).entries
    ensures step.Enter? ==> Next(s, step).threads[step.t].entry in Next(s, step).entries
  {
  }

  lemma LastLeaves(s: State, t: nat, id: nat)
    requires RefsExact(s) && id in s.entries && s.entries[id].refs != 1 && t in Counting(s, id)
    ensures Counting(s, id) - {t} != {}
  {
    assert |Counting(s, id)| == |Counting(s, id) - {t}| + 1;
  }

  lemma SpareIsNew(s: State, step: Step)
    requires Enabled(s, step) && step.Enter? && Counted(s)
    ensures forall k :: k in s.locks ==> s.locks[k] != step.spare
  {
  }

  // ---- the token ---------------------------------------------------------------------------

  /** A step that takes an entry's token, and one that gives it back. */
  predicate Takes(s: State, step: Step, id: nat) {
    match step
    case Try(t) => At(s, t, Entered) && s.threads[t].entry == id && !s.entries[id].taken
    case Take(t) => At(s, t, Waiting) && s.threads[t].entry == id
    case _ => false
  }

  predicate Gives(s: State, step: Step, id: nat) {
    step.GiveBack? && step.t in s.threads && s.threads[step.t].entry == id
  }

  lemma HasNext(s: State, step: Step, t: nat, id: nat)
    requires Enabled(s, step) && Has(Next(s, step), t, id)
    ensures Has(s, t, id) || (Takes(s, step, id) && step.t == t && id in s.entries && !s.entries[id].taken)
    ensures !(step.GiveBack? && step.t == t)
  {
  }

  lemma HasStays(s: State, step: Step, t: nat, id: nat)
    requires Enabled(s, step) && Has(s, t, id) && !(step.GiveBack? && step.t == t)
    ensures Has(Next(s, step), t, id)
  {
  }

  lemma TakenNext(s: State, step: Step, id: nat)
    requires Enabled(s, step) && id in Next(s, step).entries && Current(s)
    ensures Next(s, step).entries[id].taken <==>
      Takes(s, step, id) || (id in s.entries && s.entries[id].taken && !Gives(s, step, id))
    ensures Takes(s, step, id) ==> Has(Next(s, step), step.t, id)
  {
  }

  lemma GiverHas(s: State, step: Step, id: nat)
    requires Enabled(s, step) && Gives(s, step, id)
    ensures Has(s, step.t, id)
  {
  }

  lemma OneTokenStays(s: State, step: Step)
    requires Enabled(s, step) && Inv(s)
    ensures OneToken(Next(s, step))
  {
    hide Next, HolderHolds, Counted, RefsExact, Has, Takes, Gives, Enabled;
    var n := Next(s, step);
    forall id | id in n.entries && n.entries[id].taken
      ensures exists t :: Has(n, t, id)
    {
      TakenNext(s, step, id);
      if !Takes(s, step, id) {
        var t :| Has(s, t, id);
        HasOne(s, step, t, id);
        HasStays(s, step, t, id);
      }
    }
    forall t, id | Has(n, t, id)
      ensures id in n.entries && n.entries[id].taken
    {
      HasNext(s, step, t, id);
      EntriesGrow(s, step, id);
      TakenNext(s, step, id);
      if Gives(s, step, id) { GiverHas(s, step, id); GiverIs(s, step, id); }
    }
    forall t, u, id | Has(n, t, id) && Has(n, u, id)
      ensures t == u
    {
      HasNext(s, step, t, id);
      HasNext(s, step, u, id);
    }
  }

  lemma GiverIs(s: State, step: Step, id: nat)
    requires Gives(s, step, id)
    ensures step.GiveBack?
  {
  }

  lemma HasOne(s: State, step: Step, t: nat, id: nat)
    requires Has(s, t, id)
    ensures step.GiveBack? && step.t == t ==> Gives(s, step, id)
  {
  }

  lemma HolderStays(s: State, step: Step)
    requires Enabled(s, step) && Inv(s)
    ensures HolderHolds(Next(s, step))
  {
    hide Next, Counted, RefsExact, HoldsNow;
    var n := Next(s, step);
    forall id | id in n.entries && n.entries[id].holder != ""
      ensures exists t :: HoldsNow(n, t, id)
    {
      HolderFrom(s, step, id);
      if !(step.SetHolder? && s.threads[step.t].entry == id) {
        var t :| HoldsNow(s, t, id);
        HoldingOf(s, t, id);
        HolderKept(s, step, t, id);
      }
    }
  }

  lemma HoldingOf(s: State, t: nat, id: nat)
    requires HoldsNow(s, t, id)
    ensures t in s.threads && s.threads[t].entry == id && s.threads[t].phase == Holding
  {
  }

  lemma HolderFrom(s: State, step: Step, id: nat)
    requires Enabled(s, step) && id in Next(s, step).entries && Next(s, step).entries[id].holder != "" && Current(s)
    ensures step.SetHolder? && s.threads[step.t].entry == id ==>
      HoldsNow(Next(s, step), step.t, id)
    ensures !(step.SetHolder? && s.threads[step.t].entry == id) ==> id in s.entries && s.entries[id].holder != ""
    ensures !(step.ClearHolder? && s.threads[step.t].entry == id)
  {
  }

  lemma HolderKept(s: State, step: Step, t: nat, id: nat)
    requires Enabled(s, step) && HoldsNow(s, t, id) && !(step.ClearHolder? && step.t == t)
    ensures HoldsNow(Next(s, step), t, id)
  {
  }

  // ---- every run ------------------------------------------------------------------------------

  lemma StepKeepsInv(s: State, step: Step)
    requires Enabled(s, step) && Inv(s)
    ensures Inv(Next(s, step))
  {
    hide *;
    InvIs(s);
    CurrentStays(s, step);
    CountedStays(s, step);
    RefsStay(s, step);
    OneTokenStays(s, step);
    HolderStays(s, step);
    InvIs(Next(s, step));
  }

  lemma InvIs(s: State)
    ensures Inv(s) <==> Current(s) && Counted(s) && RefsExact(s) && OneToken(s) && HolderHolds(s)
  {
  }

  ghost predicate Run(states: seq<State>, steps: seq<Step>) {
    && |states| == |steps| + 1 && states[0] == START
    && forall i :: 0 <= i < |steps| ==> Enabled(states[i], steps[i]) && states[i + 1] == Next(states[i], steps[i])
  }

  lemma {:induction false} RunKeepsInv(states: seq<State>, steps: seq<Step>, n: nat)
    requires Run(states, steps) && n <= |steps|
    ensures Inv(states[n])
  {
    if n > 0 {
      RunKeepsInv(states, steps, n - 1);
      hide Next, Enabled, Inv;
      StepKeepsInv(states[n - 1], steps[n - 1]);
    }
  }

  /** Mutual exclusion: at every point of every run, at most one thread has a key's lock. */
  lemma AtMostOneHolder(states: seq<State>, steps: seq<Step>, n: nat, t: nat, u: nat)
    requires Run(states, steps) && n <= |steps|
    requires t in states[n].threads && u in states[n].threads && states[n].threads[t].key == states[n].threads[u].key
    requires Has(states[n], t, states[n].threads[t].entry) && Has(states[n], u, states[n].threads[u].entry)
    ensures t == u
  {
    RunKeepsInv(states, steps, n);
  }

  /** No one waits on a stale entry: a thread's entry is the one a newcomer would find. */
  lemma WaitersAreCurrent(states: seq<State>, steps: seq<Step>, n: nat, t: nat)
    requires Run(states, steps) && n <= |steps| && t in states[n].threads && states[n].threads[t].phase != Finished
    ensures var th := states[n].threads[t];
      && th.key in states[n].locks && states[n].locks[th.key] == th.entry
      && th.entry in states[n].entries && states[n].entries[th.entry].refs == |Counting(states[n], th.entry)| > 0
  {
    RunKeepsInv(states, steps, n);
    var s, id := states[n], states[n].threads[t].entry;
    assert t in Counting(s, id);
  }

  /** An entry has the name it had, or the one the step gives it. */
  lemma NameFrom(s: State, step: Step, id: nat)
    requires Enabled(s, step) && id in Next(s, step).entries && Next(s, step).entries[id].holder != ""
    ensures var name := Next(s, step).entries[id].holder;
      || (id in s.entries && s.entries[id].holder == name)
      || (step.SetHolder? && step.who == name && HoldsNow(Next(s, step), step.t, id))
  {
  }

  lemma HoldsOn(s: State, step: Step, t: nat, id: nat)
    requires Enabled(s, step) && HoldsNow(s, t, id) && id in Next(s, step).entries && Next(s, step).entries[id].holder != ""
    ensures HoldsNow(Next(s, step), t, id)
  {
  }

  /** A waiter told a holder's name is told of the thread that gave it and has held the lock since. */
  lemma {:induction false} HolderIsTrue(states: seq<State>, steps: seq<Step>, n: nat, id: nat) returns (t: nat, m: nat)
    requires Run(states, steps) && n <= |steps| && id in states[n].entries && states[n].entries[id].holder != ""
    ensures m < n && steps[m] == SetHolder(t, states[n].entries[id].holder)
    ensures forall j :: m < j <= n ==> HoldsNow(states[j], t, id)
    decreases n
  {
    hide Next, Enabled, HoldsNow;
    if n == 0 {
      assert false;
    }
    var s, step := states[n - 1], steps[n - 1];
    NameFrom(s, step, id);
    if id in s.entries && s.entries[id].holder == states[n].entries[id].holder {
      t, m := HolderIsTrue(states, steps, n - 1, id);
      HoldsOn(s, step, t, id);
    } else {
      t, m := step.t, n - 1;
    }
  }

  /** No other thread renames the entry of a thread that holds it. */
  lemma NameStays(s: State, step: Step, t: nat, id: nat)
    requires Enabled(s, step) && OneToken(s) && HoldsNow(s, t, id) && HoldsNow(Next(s, step), t, id) && id in s.entries
    ensures id in Next(s, step).entries && Next(s, step).entries[id].holder == s.entries[id].holder
  {
    var u := step.t;
    if (step.SetHolder? || step.ClearHolder?) && s.threads[u].entry == id {
      assert Has(s, u, id);
    }
  }

  lemma HoldsFrom(s: State, step: Step, t: nat, id: nat)
    requires Enabled(s, step) && HoldsNow(Next(s, step), t, id)
    ensures HoldsNow(s, t, id) || (step.SetHolder? && step.t == t && id in Next(s, step).entries && Next(s, step).entries[id].holder == step.who)
  {
  }

  lemma OneTokenIn(s: State, t: nat, id: nat)
    requires Inv(s) && HoldsNow(s, t, id)
    ensures OneToken(s) && id in s.entries
  {
    hide Current, Counted, RefsExact, HolderHolds;
    assert Has(s, t, id);
  }

  lemma RunSteps(states: seq<State>, steps: seq<Step>, n: nat, t: nat, id: nat)
    requires Run(states, steps) && n <= |steps| && HoldsNow(states[n], t, id)
    ensures n > 0 && |states| == |steps| + 1
    ensures Enabled(states[n - 1], steps[n - 1]) && states[n] == Next(states[n - 1], steps[n - 1])
  {
    hide Next, Enabled;
  }

  /** A thread that holds a lock is named in its entry, by the name it gave. */
  lemma {:induction false} HolderIsNamed(states: seq<State>, steps: seq<Step>, n: nat, t: nat, id: nat) returns (m: nat)
    requires Run(states, steps) && n <= |steps| && HoldsNow(states[n], t, id)
    ensures m < n && steps[m].SetHolder? && steps[m].t == t
    ensures id in states[n].entries && states[n].entries[id].holder == steps[m].who
    decreases n
  {
    hide *;
    RunSteps(states, steps, n, t, id);
    RunKeepsInv(states, steps, n - 1);
    HoldsFrom(states[n - 1], steps[n - 1], t, id);
    if HoldsNow(states[n - 1], t, id) {
      m := HolderIsNamed(states, steps, n - 1, t, id);
      OneTokenIn(states[n - 1], t, id);
      NameStays(states[n - 1], steps[n - 1], t, id);
    } else {
      m := n - 1;
    }
  }

  /** When every thread has finished, no entry is left. */
  lemma NothingLeft(states: seq<State>, steps: seq<Step>, n: nat)
    requires Run(states, steps) && n <= |steps|
    requires forall t :: t in states[n].threads ==> states[n].threads[t].phase == Finished
    ensures states[n].locks == map[]
  {
    RunKeepsInv(states, steps, n);
    assert forall id :: Counting(states[n], id) == {};
    hide Counting;
    assert states[n].locks.Keys == {};
  }

  // ---- the sections themselves ------------------------------------------------------------------

  /** The sections under the table's mutex and on an entry's slot; entries are addressed by number. */
  lemma CurrentEntry(s: State, key: Key)
    requires Inv(s) && key in s.locks
    ensures s.locks[key] in s.entries
  {
  }

  class Table {
    var s: State

    /** acquire's first section. */
    method CountIn(t: nat, key: Key, spare: nat)
      requires Enabled(s, Enter(t, key, spare)) && Inv(s)
      modifies this
      ensures s == Next(old(s), Enter(t, key, spare)) && Inv(s)
      ensures s.threads[t] == Thread(key, s.locks[key], Entered)
    {
      hide Inv;
      StepKeepsInv(s, Enter(t, key, spare));
      if key in s.locks { CurrentEntry(s, key); }
      if key !in s.locks {
        s := s.(locks := s.locks[key := spare], entries := s.entries[spare := Entry(false, 0, "")]);
      }
      var id := s.locks[key];
      var e := s.entries[id];
      s := s.(entries := s.entries[id := e.(refs := e.refs + 1)], threads := s.threads[t := Thread(key, id, Entered)]);
      assert s.locks == old(s).locks[key := id];
    }

    /** The attempt that does not wait: whether the lock was free. */
    method TryNow(t: nat) returns (got: bool)
      requires Enabled(s, Try(t)) && Inv(s)
      modifies this
      ensures s == Next(old(s), Try(t)) && Inv(s) && got == Has(s, t, s.threads[t].entry)
    {
      StepKeepsInv(s, Try(t));
      var id := s.threads[t].entry;
      got := !s.entries[id].taken;
      if got {
        s := s.(entries := s.entries[id := s.entries[id].(taken := true)]);
      }
      s := s.(threads := s.threads[t := s.threads[t].(phase := if got then Acquired else Waiting)]);
    }

    /** drop: the entry leaves the map with its last reference. */
    method DropOne(t: nat)
      requires Enabled(s, Drop(t)) && Inv(s)
      modifies this
      ensures s == Next(old(s), Drop(t)) && Inv(s)
      ensures old(s).threads[t].key in s.locks <==> |Counting(old(s), old(s).threads[t].entry)| > 1
    {
      StepKeepsInv(s, Drop(t));
      var th := s.threads[t];
      var e := s.entries[th.entry];
      var left := e.refs - 1;
      var gone := left == 0 && th.key in s.locks && s.locks[th.key] == th.entry;
      CountsItself(s, t);
      s := s.(entries := s.entries[th.entry := e.(refs := left)],
              locks := if gone then s.locks - {th.key} else s.locks,
              threads := s.threads[t := th.(phase := Finished)]);
    }
  }

  lemma CountsItself(s: State, t: nat)
    requires Enabled(s, Drop(t)) && Inv(s)
    ensures s.entries[s.threads[t].entry].refs == |Counting(s, s.threads[t].entry)| >= 1
  {
    assert t in Counting(s, s.threads[t].entry);
  }
}
