/**
  Where at-most-once ends. A prune that takes the row of a request that may still
  release it can, in whatever state it comes, be continued to two executions with one
  key and no death and no prune between them; two such runs are given from the start.
 */
module IdempotencyLimits {
  import opened Idempotency
  import opened IdempotencyRuns

  /** A prune that takes recorded rows only. */
  ghost predicate PrunesRecorded(s: State, step: Step) {
    step.Prune? ==> forall k :: k in s.table && k in step.keys ==> s.table[k].done
  }

  /** `steps` can be taken one after another from `s`, and end in `t`; claims are pruned only when `aged`. */
  ghost predicate Leads(s: State, steps: seq<Step>, t: State, aged: bool)
    decreases |steps|
  {
    if steps == [] then s == t
    else Enabled(s, steps[0]) && (aged || PrunesRecorded(s, steps[0])) && Leads(Next(s, steps[0]), steps[1..], t, aged)
  }

  lemma {:induction false} LeadsOn(s: State, a: seq<Step>, t: State, b: seq<Step>, u: State, aged: bool)
    requires Leads(s, a, t, aged) && Leads(t, b, u, aged)
    ensures Leads(s, a + b, u, aged)
    decreases |a|
  {
    if a == [] {
      assert a + b == b;
    } else {
      assert (a + b)[1..] == a[1..] + b;
      LeadsOn(Next(s, a[0]), a[1..], t, b, u, aged);
    }
  }

  lemma LeadsOne(s: State, step: Step, aged: bool)
    requires Enabled(s, step) && (aged || PrunesRecorded(s, step))
    ensures Leads(s, [step], Next(s, step), aged)
  {
    assert [step][1..] == [];
  }

  lemma {:induction false} LeadsIsRun(s: State, steps: seq<Step>, t: State, aged: bool) returns (states: seq<State>)
    requires Leads(s, steps, t, aged)
    ensures |states| == |steps| + 1 && states[0] == s && states[|steps|] == t
    ensures forall i :: 0 <= i < |steps| ==> Enabled(states[i], steps[i]) && states[i + 1] == Next(states[i], steps[i])
    ensures forall i :: 0 <= i < |steps| ==> aged || PrunesRecorded(states[i], steps[i])
    decreases |steps|
  {
    if steps == [] {
      states := [s];
    } else {
      var rest := LeadsIsRun(Next(s, steps[0]), steps[1..], t, aged);
      states := [s] + rest;
      hide Next, Enabled, PrunesRecorded;
      forall i | 0 <= i < |steps|
        ensures Enabled(states[i], steps[i]) && states[i + 1] == Next(states[i], steps[i])
        ensures aged || PrunesRecorded(states[i], steps[i])
      {
        if i > 0 {
          assert states[i] == rest[i - 1] && states[i + 1] == rest[i] && steps[1..][i - 1] == steps[i];
        }
      }
    }
  }

  /** A request that finds its key free. */
  function Claim(id: nat, k: Key, fp: string): seq<Step> {
    [Arrive(id, k, fp), CheckPending(id), Insert(id, Applied)]
  }

  function AfterClaim(s: State, id: nat, k: Key, fp: string): State {
    s.(table := s.table[k := Row(fp, false, 0, "")], requests := s.requests[id := Request(k, fp, Running)],
       log := s.log + [Claimed(k, fp)])
  }

  lemma ClaimLeads(s: State, id: nat, k: Key, fp: string, aged: bool)
    requires id !in s.requests && k !in s.table && k !in s.pending
    ensures Leads(s, Claim(id, k, fp), AfterClaim(s, id, k, fp), aged)
  {
    var s1 := Next(s, Arrive(id, k, fp));
    var s2 := Next(s1, CheckPending(id));
    assert s2 == s.(requests := s.requests[id := Request(k, fp, Inserting(0))]);
    assert Next(s2, Insert(id, Applied)) == AfterClaim(s, id, k, fp);
    LeadsOne(s, Arrive(id, k, fp), aged);
    LeadsOne(s1, CheckPending(id), aged);
    LeadsOne(s2, Insert(id, Applied), aged);
    LeadsOn(s, [Arrive(id, k, fp)], s1, [CheckPending(id)], s2, aged);
    LeadsOn(s, [Arrive(id, k, fp)] + [CheckPending(id)], s2, [Insert(id, Applied)], AfterClaim(s, id, k, fp), aged);
    assert Claim(id, k, fp) == [Arrive(id, k, fp)] + [CheckPending(id)] + [Insert(id, Applied)];
  }

  function AfterHandle(s: State, id: nat, a: Answer): State {
    s.(requests := s.requests[id := Request(a.key, a.fp, Recording(a.status, a.body))], log := s.log + [Executed(a)])
  }

  lemma HandleLeads(s: State, id: nat, k: Key, fp: string, aged: bool)
    requires id in s.requests && s.requests[id] == Request(k, fp, Running)
    ensures Leads(s, [Handle(id, 200, "", false)], AfterHandle(s, id, Answer(k, fp, 200, "")), aged)
  {
    LeadsOne(s, Handle(id, 200, "", false), aged);
  }

  function AfterRelease(s: State, id: nat, k: Key): State
    requires id in s.requests
  {
    s.(table := s.table - {k}, requests := s.requests[id := s.requests[id].(phase := Finished)])
  }

  lemma ReleaseLeads(s: State, id: nat, k: Key, aged: bool)
    requires id in s.requests && s.requests[id].key == k && s.requests[id].phase.Releasing? && k in s.table && !s.table[k].done
    ensures Leads(s, [Release(id, Applied)], AfterRelease(s, id, k), aged)
  {
    LeadsOne(s, Release(id, Applied), aged);
  }

  /** With a stale request about to release `k`, two others claim it and both act. */
  lemma StaleRelease(s: State, id: nat, one: nat, two: nat, k: Key, fp: string, aged: bool) returns (steps: seq<Step>, t: State)
    requires k !in s.table && k !in s.pending && one !in s.requests && two !in s.requests && one != two
    requires id in s.requests && s.requests[id].key == k && s.requests[id].phase.Releasing?
    ensures Leads(s, steps, t, aged) && !Once(t.log)
  {
    hide Next, Enabled, Leads, Once;
    var a := Answer(k, fp, 200, "");
    var s1 := AfterClaim(s, one, k, fp);
    var s2 := AfterRelease(s1, id, k);
    var s3 := AfterClaim(s2, two, k, fp);
    var s4 := AfterHandle(s3, one, a);
    t := AfterHandle(s4, two, a);
    ClaimLeads(s, one, k, fp, aged);
    ReleaseLeads(s1, id, k, aged);
    ClaimLeads(s2, two, k, fp, aged);
    HandleLeads(s3, one, k, fp, aged);
    HandleLeads(s4, two, k, fp, aged);
    steps := Claim(one, k, fp) + [Release(id, Applied)];
    LeadsOn(s, Claim(one, k, fp), s1, [Release(id, Applied)], s2, aged);
    LeadsOn(s, steps, s2, Claim(two, k, fp), s3, aged);
    steps := steps + Claim(two, k, fp);
    LeadsOn(s, steps, s3, [Handle(one, 200, "", false)], s4, aged);
    steps := steps + [Handle(one, 200, "", false)];
    LeadsOn(s, steps, s4, [Handle(two, 200, "", false)], t, aged);
    steps := steps + [Handle(two, 200, "", false)];
    TwiceInARow(s3.log, a, k);
    assert t.log == s3.log + [Executed(a), Executed(a)];
  }

  // ---- any such prune ---------------------------------------------------------------------------

  lemma {:induction false} Bound(used: set<nat>) returns (n: nat)
    ensures forall x :: x in used ==> x < n
  {
    if used == {} {
      n := 0;
    } else {
      var y :| y in used;
      var m := Bound(used - {y});
      assert forall x :: x in used ==> x == y || x in used - {y};
      n := if m > y then m else y + 1;
    }
  }

  /** A request that grips its key can come to release it, whatever the table holds. */
  lemma GripComesToRelease(s: State, id: nat, k: Key) returns (steps: seq<Step>, t: State)
    requires Grips(s, id, k)
    ensures Leads(s, steps, t, true) && t.table == s.table && t.pending == s.pending && t.requests.Keys == s.requests.Keys
    ensures id in t.requests && t.requests[id].key == k && t.requests[id].phase.Releasing?
  {
    if s.requests[id].phase.Running? {
      steps, t := [Handle(id, 500, "", true)], Next(s, Handle(id, 500, "", true));
      LeadsOne(s, Handle(id, 500, "", true), true);
    } else if s.requests[id].phase.Recording? {
      steps, t := [Record(id, Failed)], Next(s, Record(id, Failed));
      LeadsOne(s, Record(id, Failed), true);
    } else {
      steps, t := [], s;
    }
  }

  /** An answer kept in memory is written by close's last attempt, forgotten, and its row pruned. */
  lemma PendingIsForgotten(s: State, w: nat, k: Key) returns (steps: seq<Step>, t: State)
    requires k in s.pending && s.pending[k].key == k && w !in s.writers && k !in s.table
    ensures Leads(s, steps, t, true) && k !in t.table && k !in t.pending && t.requests == s.requests
  {
    var a := s.pending[k];
    var s1 := s.(writers := s.writers[w := Writer(a, false)]);
    var s2 := s1.(table := s.table[k := Row(a.fp, true, a.status, a.body)], writers := s.writers[w := Writer(a, true)]);
    var s3 := s2.(pending := s.pending - {k}, writers := s2.writers - {w});
    t := Logged(s3.(table := s3.table - {k}), Pruned({k} * s3.table.Keys));
    OneTries(s, w, k, s1);
    OneStores(s1, w, k, s2);
    OneForgets(s2, w, k, s3);
    LeadsOne(s3, Prune({k}), true);
    hide Leads, Next, Enabled;
    LeadsOn(s, [CloseTry(w, k)], s1, [WriterTry(w, Applied)], s2, true);
    steps := [CloseTry(w, k)] + [WriterTry(w, Applied)];
    LeadsOn(s, steps, s2, [WriterForget(w)], s3, true);
    steps := steps + [WriterForget(w)];
    LeadsOn(s, steps, s3, [Prune({k})], t, true);
    steps := steps + [Prune({k})];
  }

  lemma OneTries(s: State, w: nat, k: Key, t: State)
    requires k in s.pending && w !in s.writers && t == s.(writers := s.writers[w := Writer(s.pending[k], false)])
    ensures Leads(s, [CloseTry(w, k)], t, true)
  {
    LeadsOne(s, CloseTry(w, k), true);
  }

  lemma OneStores(s: State, w: nat, k: Key, t: State)
    requires w in s.writers && !s.writers[w].stored && s.writers[w].answer.key == k && k !in s.table
    requires var a := s.writers[w].answer;
      t == s.(table := s.table[k := Row(a.fp, true, a.status, a.body)], writers := s.writers[w := Writer(a, true)])
    ensures Leads(s, [WriterTry(w, Applied)], t, true)
  {
    LeadsOne(s, WriterTry(w, Applied), true);
  }

  lemma OneForgets(s: State, w: nat, k: Key, t: State)
    requires w in s.writers && s.writers[w].stored && s.writers[w].answer.key == k
    requires t == s.(pending := s.pending - {k}, writers := s.writers - {w})
    ensures Leads(s, [WriterForget(w)], t, true)
  {
    LeadsOne(s, WriterForget(w), true);
  }

  /** From any state in which the row of a request that grips its key is gone, two others can act. */
  lemma GoneActsTwice(s: State, id: nat, k: Key) returns (steps: seq<Step>, t: State)
    requires Grips(s, id, k) && k !in s.table && (k in s.pending ==> s.pending[k].key == k)
    ensures Leads(s, steps, t, true) && !Once(t.log)
  {
    hide Next, Enabled, Leads, Once;
    var front, u := [], s;
    Stays(s);
    if k in s.pending {
      var w := Bound(s.writers.Keys);
      assert w !in s.writers;
      front, u := PendingIsForgotten(s, w, k);
    }
    assert Grips(u, id, k);
    var middle, v := GripComesToRelease(u, id, k);
    var n := Bound(v.requests.Keys);
    assert n !in v.requests && n + 1 !in v.requests;
    var rest;
    rest, t := StaleRelease(v, id, n, n + 1, k, "", true);
    LeadsOn(s, front, u, middle, v, true);
    LeadsOn(s, front + middle, v, rest, t, true);
    steps := front + middle + rest;
  }

  lemma Stays(s: State)
    ensures Leads(s, [], s, true)
  {
  }

  lemma {:induction false} LeadsIsRunOn(states: seq<State>, steps: seq<Step>, more: seq<Step>, t: State) returns (all: seq<State>)
    requires Run(states, steps) && Leads(states[|steps|], more, t, true)
    ensures Run(all, steps + more) && all[..|states|] == states && all[|steps + more|] == t
  {
    var rest := LeadsIsRun(states[|steps|], more, t, true);
    all := states + rest[1..];
    hide Next, Enabled, Leads;
    var every := steps + more;
    forall i | 0 <= i < |every|
      ensures Enabled(all[i], every[i]) && all[i + 1] == Next(all[i], every[i])
    {
      if i >= |steps| {
        assert every[i] == more[i - |steps|] && all[i] == rest[i - |steps|] && all[i + 1] == rest[i + 1 - |steps|];
      } else {
        assert every[i] == steps[i] && all[i] == states[i] && all[i + 1] == states[i + 1];
      }
    }
  }

  /**
    The assumption of AtMostOnce cannot be weakened: after any run, a prune that takes
    the row of a request that may still release it can be continued to a run in which
    two requests with one key act, with no death and no prune between them.
   */
  lemma UnsparedActsTwice(states: seq<State>, steps: seq<Step>, keys: set<Key>) returns (all: seq<State>, more: seq<Step>)
    requires Run(states, steps) && !SparesGripped(states[|steps|], Prune(keys))
    ensures Run(all, steps + ([Prune(keys)] + more)) && all[..|states|] == states
    ensures !Once(all[|steps + ([Prune(keys)] + more)|].log)
  {
    var s := states[|steps|];
    var id, k :| Grips(s, id, k) && k in s.table && k in keys;
    RunTruthful(states, steps, |steps|);
    KeptUnderKey(s, k);
    var u := Next(s, Prune(keys));
    LeadsOne(s, Prune(keys), true);
    hide Next, Enabled, Leads, Once;
    PrunedGrips(s, keys, id, k, u);
    var t;
    more, t := GoneActsTwice(u, id, k);
    LeadsOn(s, [Prune(keys)], u, more, t, true);
    all := LeadsIsRunOn(states, steps, [Prune(keys)] + more, t);
  }

  lemma KeptUnderKey(s: State, k: Key)
    requires Truthful(s)
    ensures k in s.pending ==> s.pending[k].key == k
  {
    hide TableTruthful, WritersTruthful, RequestsTruthful, LogTruthful;
  }

  lemma PrunedGrips(s: State, keys: set<Key>, id: nat, k: Key, u: State)
    requires Grips(s, id, k) && k in keys && Enabled(s, Prune(keys)) && u == Next(s, Prune(keys))
    ensures Grips(u, id, k) && k !in u.table && u.pending == s.pending
  {
  }

  lemma TwiceInARow(log: seq<Event>, a: Answer, k: Key)
    requires a.key == k && a.status < 400
    ensures !Once(log + [Executed(a), Executed(a)])
  {
    var all := log + [Executed(a), Executed(a)];
    var n := |log|;
    assert Acts(all[n], k) && Acts(all[n + 1], k);
    assert !EndsBetween(all, n, n + 1, k);
  }

  /**
    A request whose claim is pruned by age while it runs still releases the key when
    its answer is transient, and the claim it drops is another request's.
   */
  lemma AgedClaimActsTwice() returns (states: seq<State>, steps: seq<Step>)
    ensures Run(states, steps) && !Once(states[|steps|].log)
  {
    var k, fp := "k", "body";
    var s1 := AfterClaim(EMPTY, 0, k, fp);
    var s2 := Next(s1, Prune({k}));
    var s3 := Next(s2, Handle(0, 500, "", true));
    ClaimLeads(EMPTY, 0, k, fp, true);
    assert s2.table == map[];
    LeadsOne(s1, Prune({k}), true);
    LeadsOne(s2, Handle(0, 500, "", true), true);
    var rest, t := StaleRelease(s3, 0, 1, 2, k, fp, true);
    hide Next, Enabled, Leads;
    LeadsOn(EMPTY, Claim(0, k, fp), s1, [Prune({k})], s2, true);
    LeadsOn(EMPTY, Claim(0, k, fp) + [Prune({k})], s2, [Handle(0, 500, "", true)], s3, true);
    steps := Claim(0, k, fp) + [Prune({k})] + [Handle(0, 500, "", true)];
    LeadsOn(EMPTY, steps, s3, rest, t, true);
    steps := steps + rest;
    states := LeadsIsRun(EMPTY, steps, t, true);
  }

  function AfterAmbiguous(s: State, k: Key, fp: string): State {
    s.(table := s.table[k := Row(fp, true, 404, "")], requests := s.requests[0 := Request(k, fp, Releasing)])
  }

  lemma RefusalHandled(s: State, k: Key, fp: string)
    requires 0 in s.requests && s.requests[0] == Request(k, fp, Running)
    ensures Leads(s, [Handle(0, 404, "", false)], AfterHandle(s, 0, Answer(k, fp, 404, "")), false)
  {
    LeadsOne(s, Handle(0, 404, "", false), false);
  }

  lemma RefusalRecorded(s: State, k: Key, fp: string)
    requires 0 in s.requests && s.requests[0] == Request(k, fp, Recording(404, "")) && k in s.table && s.table[k] == Row(fp, false, 0, "")
    ensures Leads(s, [Record(0, Ambiguous)], AfterAmbiguous(s, k, fp), false)
  {
    LeadsOne(s, Record(0, Ambiguous), false);
  }

  lemma RecordedPruned(s: State, k: Key)
    requires k in s.table && s.table[k].done
    ensures Leads(s, [Prune({k})], Logged(s.(table := s.table - {k}), Pruned({k} * s.table.Keys)), false)
  {
    LeadsOne(s, Prune({k}), false);
  }

  /** A refusal recorded although its statement failed, and pruned before its claim is released. */
  lemma RefusalLeads(k: Key, fp: string) returns (steps: seq<Step>, t: State)
    ensures Leads(EMPTY, steps, t, false)
    ensures t.table == map[] && t.pending == map[] && t.requests == map[0 := Request(k, fp, Releasing)]
  {
    hide Leads, Next, Enabled;
    var s1 := AfterClaim(EMPTY, 0, k, fp);
    var s2 := AfterHandle(s1, 0, Answer(k, fp, 404, ""));
    var s3 := AfterAmbiguous(s2, k, fp);
    t := Logged(s3.(table := s3.table - {k}), Pruned({k} * s3.table.Keys));
    ClaimLeads(EMPTY, 0, k, fp, false);
    RefusalHandled(s1, k, fp);
    RefusalRecorded(s2, k, fp);
    RecordedPruned(s3, k);
    steps := Claim(0, k, fp) + [Handle(0, 404, "", false)];
    LeadsOn(EMPTY, Claim(0, k, fp), s1, [Handle(0, 404, "", false)], s2, false);
    LeadsOn(EMPTY, steps, s2, [Record(0, Ambiguous)], s3, false);
    steps := steps + [Record(0, Ambiguous)];
    LeadsOn(EMPTY, steps, s3, [Prune({k})], t, false);
    steps := steps + [Prune({k})];
  }

  /**
    A refusal that was recorded although its statement failed is released next; when
    its recorded row is pruned in between, the claim dropped is another request's.
   */
  lemma AmbiguousRefusalActsTwice() returns (states: seq<State>, steps: seq<Step>)
    ensures Run(states, steps) && !Once(states[|steps|].log)
    ensures forall i :: 0 <= i < |steps| ==> PrunesRecorded(states[i], steps[i])
  {
    hide Next, Enabled, Leads, PrunesRecorded, Once;
    var front, s := RefusalLeads("k", "body");
    var rest, t := StaleRelease(s, 0, 1, 2, "k", "body", false);
    LeadsOn(EMPTY, front, s, rest, t, false);
    steps := front + rest;
    states := LeadsIsRun(EMPTY, steps, t, false);
  }
}
