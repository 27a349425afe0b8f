/**
  What every run of the Idempotency-Key protocol keeps: a request acts at most once
  between deaths and prunes of its row, a replay is an answer some execution gave,
  and a recorded answer never changes.
 */
module IdempotencyRuns {
  import opened Text
  import opened Idempotency

  // ---- at most once --------------------------------------------------------------------

  ghost predicate EndsBetween(log: seq<Event>, i: nat, j: nat, k: Key)
    requires j <= |log|
  {
    exists m :: i < m < j && Ends(log[m], k)
  }

  /** Between two executions below 400 with one key there is a death, or a prune of the key's row. */
  ghost predicate Once(log: seq<Event>) {
    forall i, j, k :: 0 <= i < j < |log| && Acts(log[i], k) && Acts(log[j], k) ==> EndsBetween(log, i, j, k)
  }

  lemma {:induction false} NotActedEnds(log: seq<Event>, i: nat, k: Key)
    requires i < |log| && Acts(log[i], k) && !Acted(log, k)
    ensures EndsBetween(log, i, |log|, k)
  {
    var n := |log| - 1;
    if Ends(log[n], k) {
      assert i < n;
    } else {
      NotActedEnds(log[..n], i, k);
      var m :| i < m < n && Ends(log[..n][m], k);
      assert Ends(log[m], k);
    }
  }

  lemma OnceNext(log: seq<Event>, e: Event)
    requires Once(log)
    requires forall k :: Acts(e, k) ==> !Acted(log, k)
    ensures Once(log + [e])
  {
    hide Acts, Ends, Acted;
    var all := log + [e];
    forall i, j, k | 0 <= i < j < |all| && Acts(all[i], k) && Acts(all[j], k)
      ensures EndsBetween(all, i, j, k)
    {
      if j == |log| {
        NotActedEnds(log, i, k);
        var m :| i < m < j && Ends(log[m], k);
        assert Ends(all[m], k);
      } else {
        assert EndsBetween(log, i, j, k);
        var m :| i < m < j && Ends(log[m], k);
        assert Ends(all[m], k);
      }
    }
  }

  lemma StepKeepsOnce(s: State, step: Step)
    requires Enabled(s, step) && Protected(s) && Once(s.log)
    ensures Once(Next(s, step).log)
  {
    hide Next, Enabled, Once, Acts, Logs, Acted, Grips, Ends;
    LogGrows(s, step);
    if Next(s, step).log != s.log {
      var e :| Logs(s, step, e);
      forall k | Acts(e, k)
        ensures !Acted(s.log, k)
      {
        ActsWhileGripping(s, step, e, k);
      }
      LogIs(s, step, e);
      OnceNext(s.log, e);
    }
  }

  lemma LogIs(s: State, step: Step, e: Event)
    requires Logs(s, step, e)
    ensures Next(s, step).log == s.log + [e]
  {
  }

  lemma {:induction false} RunKeeps(states: seq<State>, steps: seq<Step>, n: nat)
    requires GripSparingRun(states, steps) && n <= |steps|
    ensures GripExclusive(states[n]) && Protected(states[n]) && Once(states[n].log)
  {
    if n > 0 {
      RunKeeps(states, steps, n - 1);
      hide Next, Enabled, GripExclusive, Protected, Once, SparesGripped;
      StepKeepsGripExclusive(states[n - 1], steps[n - 1]);
      StepKeepsProtected(states[n - 1], steps[n - 1]);
      StepKeepsOnce(states[n - 1], steps[n - 1]);
    }
  }

  /**
    At most once: over every run in which prunes spare the rows of requests that run,
    release, or record a refusal. Such a run may prune the row of a request that acted.
   */
  lemma AtMostOnce(states: seq<State>, steps: seq<Step>, i: nat, j: nat, k: Key)
    requires GripSparingRun(states, steps)
    requires i < j < |states[|steps|].log| && Acts(states[|steps|].log[i], k) && Acts(states[|steps|].log[j], k)
    ensures EndsBetween(states[|steps|].log, i, j, k)
  {
    RunKeeps(states, steps, |steps|);
  }

  lemma {:induction false} RunKeepsExclusive(states: seq<State>, steps: seq<Step>, n: nat)
    requires SparingRun(states, steps) && n <= |steps|
    ensures Exclusive(states[n])
  {
    if n > 0 {
      RunKeepsExclusive(states, steps, n - 1);
      hide Next, Enabled, Exclusive, SparesHeld;
      StepKeepsExclusive(states[n - 1], steps[n - 1]);
    }
  }

  /** Exclusive claim: when prunes spare the rows of all unsettled requests, at every point at most one has a key, and its row is there. */
  lemma ExclusiveClaim(states: seq<State>, steps: seq<Step>, n: nat, id: nat, id': nat, k: Key)
    requires SparingRun(states, steps) && n <= |steps| && Holds(states[n], id, k)
    ensures k in states[n].table && (Holds(states[n], id', k) ==> id == id')
  {
    RunKeepsExclusive(states, steps, n);
  }

  /** From the moment a request acts, through every hand-over of its answer, no other request can claim its key. */
  lemma NoClaimAfterActing(states: seq<State>, steps: seq<Step>, n: nat, id: nat, o: Statement, k: Key)
    requires GripSparingRun(states, steps) && n < |steps| && Acted(states[n].log, k)
    requires steps[n] == Insert(id, o) && states[n].requests[id].key == k
    ensures !Holds(states[n + 1], id, k) && states[n + 1].table == states[n].table && states[n + 1].log == states[n].log
  {
    RunKeeps(states, steps, n);
    assert ProtectedKey(states[n], k);
  }

  // ---- a recorded answer never changes -------------------------------------------------------

  /** Whatever the step, a recorded answer is left as it is or deleted by a prune; no assumption on prunes is needed. */
  lemma RecordedStays(s: State, step: Step, k: Key)
    requires Enabled(s, step) && k in s.table && s.table[k].done
    ensures k in Next(s, step).table ==> Next(s, step).table[k] == s.table[k]
    ensures k !in Next(s, step).table ==> step.Prune? && k in step.keys
  {
  }

  // ---- faithful replay -----------------------------------------------------------------------

  predicate Said(log: seq<Event>, a: Answer) {
    Executed(a) in log && Claimed(a.key, a.fp) in log
  }

  function RowAnswer(k: Key, row: Row): Answer {
    Answer(k, row.fp, row.status, row.body)
  }

  predicate RowTruthful(log: seq<Event>, k: Key, row: Row) {
    Claimed(k, row.fp) in log && (row.done ==> Said(log, RowAnswer(k, row)))
  }

  predicate RequestTruthful(log: seq<Event>, r: Request) {
    match r.phase
    case Running => Claimed(r.key, r.fp) in log
    case Releasing => Claimed(r.key, r.fp) in log
    case Recording(status, body) => Said(log, Answer(r.key, r.fp, status, body))
    case Keeping(status, body) => Said(log, Answer(r.key, r.fp, status, body))
    case _ => true
  }

  /** A replay repeats an earlier execution's answer to the same key and body; a reuse was claimed for another body. */
  ghost predicate EventTruthful(before: seq<Event>, e: Event) {
    match e
    case Replayed(a) => Said(before, a)
    case Reused(k, fp) => exists other :: other != fp && Claimed(k, other) in before
    case Executed(a) => Claimed(a.key, a.fp) in before
    case _ => true
  }

  ghost predicate LogTruthful(log: seq<Event>) {
    forall i :: 0 <= i < |log| ==> EventTruthful(log[..i], log[i])
  }

  ghost predicate TableTruthful(s: State) {
    forall k :: k in s.table ==> RowTruthful(s.log, k, s.table[k])
  }

  ghost predicate PendingTruthful(s: State) {
    forall k :: k in s.pending ==> s.pending[k].key == k && Said(s.log, s.pending[k])
  }

  ghost predicate WritersTruthful(s: State) {
    forall w :: w in s.writers ==> Said(s.log, s.writers[w].answer)
  }

  ghost predicate RequestsTruthful(s: State) {
    forall id :: id in s.requests ==> RequestTruthful(s.log, s.requests[id])
  }

  ghost predicate Truthful(s: State) {
    TableTruthful(s) && PendingTruthful(s) && WritersTruthful(s) && RequestsTruthful(s) && LogTruthful(s.log)
  }

  lemma LogOnlyGrows(s: State, step: Step)
    requires Enabled(s, step)
    ensures forall e :: e in s.log ==> e in Next(s, step).log
  {
    hide Next, Enabled;
    LogGrows(s, step);
    if Next(s, step).log != s.log {
      var e :| Logs(s, step, e);
    }
  }

  /** The answer a step moves from where it is kept. */
  function Moved(s: State, step: Step): Option<Answer> {
    match step
    case Record(id, _) =>
      if id in s.requests && s.requests[id].phase.Recording?
      then Some(Answer(s.requests[id].key, s.requests[id].fp, s.requests[id].phase.status, s.requests[id].phase.body)) else None
    case Keep(id, _) =>
      if id in s.requests && s.requests[id].phase.Keeping?
      then Some(Answer(s.requests[id].key, s.requests[id].fp, s.requests[id].phase.status, s.requests[id].phase.body)) else None
    case WriterTry(w, _) => if w in s.writers then Some(s.writers[w].answer) else None
    case CloseTry(_, k) => if k in s.pending then Some(s.pending[k]) else None
    case _ => None
  }

  lemma MovedIsSaid(s: State, step: Step)
    requires Truthful(s)
    ensures Moved(s, step).Some? ==> Said(s.log, Moved(s, step).value)
  {
    hide TableTruthful, LogTruthful, Said;
    match step
    case Record(id, _) =>
      if id in s.requests { assert RequestTruthful(s.log, s.requests[id]); }
    case Keep(id, _) =>
      if id in s.requests { assert RequestTruthful(s.log, s.requests[id]); }
    case _ =>
  }

  lemma RowFrom(s: State, step: Step, k: Key)
    requires Enabled(s, step) && k in Next(s, step).table
    ensures var row := Next(s, step).table[k];
      || (k in s.table && s.table[k] == row)
      || (!row.done && Claimed(k, row.fp) in Next(s, step).log)
      || (Moved(s, step) == Some(RowAnswer(k, row)) && row.done)
  {
    match step
    case Insert(id, _) =>
    case Record(id, _) =>
    case Release(id, _) =>
    case WriterTry(w, _) =>
    case Prune(_) =>
    case Restart(_) =>
    case _ =>
  }

  lemma TableStays(s: State, step: Step)
    requires Enabled(s, step) && Truthful(s)
    ensures TableTruthful(Next(s, step))
  {
    hide Next, Enabled, PendingTruthful, WritersTruthful, RequestsTruthful, LogTruthful, Moved;
    LogOnlyGrows(s, step);
    MovedIsSaid(s, step);
    forall k | k in Next(s, step).table
      ensures RowTruthful(Next(s, step).log, k, Next(s, step).table[k])
    {
      RowFrom(s, step, k);
      if k in s.table { assert RowTruthful(s.log, k, s.table[k]); }
    }
  }

  lemma PendingFrom(s: State, step: Step, k: Key)
    requires Enabled(s, step) && k in Next(s, step).pending
    ensures var a := Next(s, step).pending[k];
      (k in s.pending && s.pending[k] == a) || (Moved(s, step) == Some(a) && a.key == k)
  {
  }

  lemma PendingStays(s: State, step: Step)
    requires Enabled(s, step) && Truthful(s)
    ensures PendingTruthful(Next(s, step))
  {
    hide Next, Enabled, TableTruthful, WritersTruthful, RequestsTruthful, LogTruthful, Moved;
    LogOnlyGrows(s, step);
    MovedIsSaid(s, step);
    forall k | k in Next(s, step).pending
      ensures Next(s, step).pending[k].key == k && Said(Next(s, step).log, Next(s, step).pending[k])
    {
      PendingFrom(s, step, k);
    }
  }

  lemma WriterFrom(s: State, step: Step, w: nat)
    requires Enabled(s, step) && w in Next(s, step).writers
    ensures var a := Next(s, step).writers[w].answer;
      (w in s.writers && s.writers[w].answer == a) || Moved(s, step) == Some(a)
  {
  }

  lemma WritersStay(s: State, step: Step)
    requires Enabled(s, step) && Truthful(s)
    ensures WritersTruthful(Next(s, step))
  {
    hide Next, Enabled, TableTruthful, PendingTruthful, RequestsTruthful, LogTruthful, Moved;
    LogOnlyGrows(s, step);
    MovedIsSaid(s, step);
    forall w | w in Next(s, step).writers
      ensures Said(Next(s, step).log, Next(s, step).writers[w].answer)
    {
      WriterFrom(s, step, w);
    }
  }

  /** Whose phase a step changes. */
  function Mover(step: Step): Option<nat> {
    match step
    case Arrive(id, _, _) => Some(id)
    case CheckPending(id) => Some(id)
    case Insert(id, _) => Some(id)
    case Read(id, _) => Some(id)
    case Handle(id, _, _, _) => Some(id)
    case Record(id, _) => Some(id)
    case Keep(id, _) => Some(id)
    case Release(id, _) => Some(id)
    case _ => None
  }

  lemma OthersStay(s: State, step: Step, id: nat)
    requires Enabled(s, step) && id in Next(s, step).requests && Mover(step) != Some(id)
    ensures id in s.requests && Next(s, step).requests[id] == s.requests[id]
  {
    hide Enabled, Next, Mover;
    if step.CheckPending? || step.Insert? || step.Read? {
      OthersStayClaiming(s, step, id);
    } else {
      OthersStayElsewhere(s, step, id);
    }
  }

  lemma OthersStayClaiming(s: State, step: Step, id: nat)
    requires step.CheckPending? || step.Insert? || step.Read?
    requires Enabled(s, step) && id in Next(s, step).requests && Mover(step) != Some(id)
    ensures id in s.requests && Next(s, step).requests[id] == s.requests[id]
  {
  }

  lemma OthersStayElsewhere(s: State, step: Step, id: nat)
    requires !step.CheckPending? && !step.Insert? && !step.Read?
    requires Enabled(s, step) && id in Next(s, step).requests && Mover(step) != Some(id)
    ensures id in s.requests && Next(s, step).requests[id] == s.requests[id]
  {
  }

  lemma MoverStays(s: State, step: Step, id: nat)
    requires Enabled(s, step) && Mover(step) == Some(id)
    requires id in s.requests ==> RequestTruthful(s.log, s.requests[id])
    requires forall e :: e in s.log ==> e in Next(s, step).log
    ensures id in Next(s, step).requests && RequestTruthful(Next(s, step).log, Next(s, step).requests[id])
  {
    hide Enabled, Next, Mover, RequestTruthful;
    if step.CheckPending? {
      MoverChecks(s, step, id);
    } else if step.Insert? {
      MoverInserts(s, step, id);
    } else if step.Read? {
      MoverReads(s, step, id);
    } else {
      MoverAnswers(s, step, id);
    }
  }

  lemma MoverChecks(s: State, step: Step, id: nat)
    requires step.CheckPending?
    requires Enabled(s, step) && Mover(step) == Some(id)
    requires id in s.requests ==> RequestTruthful(s.log, s.requests[id])
    requires forall e :: e in s.log ==> e in Next(s, step).log
    ensures id in Next(s, step).requests && RequestTruthful(Next(s, step).log, Next(s, step).requests[id])
  {
  }

  lemma MoverInserts(s: State, step: Step, id: nat)
    requires step.Insert?
    requires Enabled(s, step) && Mover(step) == Some(id)
    requires id in s.requests ==> RequestTruthful(s.log, s.requests[id])
    requires forall e :: e in s.log ==> e in Next(s, step).log
    ensures id in Next(s, step).requests && RequestTruthful(Next(s, step).log, Next(s, step).requests[id])
  {
  }

  lemma MoverReads(s: State, step: Step, id: nat)
    requires step.Read?
    requires Enabled(s, step) && Mover(step) == Some(id)
    requires id in s.requests ==> RequestTruthful(s.log, s.requests[id])
    requires forall e :: e in s.log ==> e in Next(s, step).log
    ensures id in Next(s, step).requests && RequestTruthful(Next(s, step).log, Next(s, step).requests[id])
  {
  }

  lemma MoverAnswers(s: State, step: Step, id: nat)
    requires !step.CheckPending? && !step.Insert? && !step.Read?
    requires Enabled(s, step) && Mover(step) == Some(id)
    requires id in s.requests ==> RequestTruthful(s.log, s.requests[id])
    requires forall e :: e in s.log ==> e in Next(s, step).log
    ensures id in Next(s, step).requests && RequestTruthful(Next(s, step).log, Next(s, step).requests[id])
  {
  }

  lemma RequestsStay(s: State, step: Step)
    requires Enabled(s, step) && Truthful(s)
    ensures RequestsTruthful(Next(s, step))
  {
    hide Next, Enabled, TableTruthful, PendingTruthful, WritersTruthful, LogTruthful, Mover;
    LogOnlyGrows(s, step);
    forall id | id in Next(s, step).requests
      ensures RequestTruthful(Next(s, step).log, Next(s, step).requests[id])
    {
      if Mover(step) == Some(id) {
        MoverStays(s, step, id);
      } else {
        OthersStay(s, step, id);
      }
    }
  }

  lemma EventIsTruthful(s: State, step: Step, e: Event)
    requires Truthful(s) && Logs(s, step, e)
    ensures EventTruthful(s.log, e)
  {
    assert (s.log + [e])[|s.log|] == e;
    match step
    case CheckPending(id) => FoundInPending(s, id, e);
    case Read(id, _) => FoundInTable(s, id, e);
    case Handle(id, _, _, _) => assert RequestTruthful(s.log, s.requests[id]);
    case _ =>
  }

  lemma FoundInPending(s: State, id: nat, e: Event)
    requires Truthful(s) && Logs(s, CheckPending(id), e)
    ensures EventTruthful(s.log, e)
  {
    assert (s.log + [e])[|s.log|] == e;
    var k := s.requests[id].key;
    assert Said(s.log, s.pending[k]) && s.pending[k].key == k;
  }

  lemma FoundInTable(s: State, id: nat, e: Event)
    requires Truthful(s) && Enabled(s, Read(id, true)) && HasRead(s, id, 0, true).log == s.log + [e]
    ensures EventTruthful(s.log, e)
  {
    hide PendingTruthful, WritersTruthful, RequestsTruthful, LogTruthful;
    assert (s.log + [e])[|s.log|] == e;
    var k := s.requests[id].key;
    if k in s.table {
      assert RowTruthful(s.log, k, s.table[k]);
    }
  }

  lemma LogStays(s: State, step: Step)
    requires Enabled(s, step) && Truthful(s)
    ensures LogTruthful(Next(s, step).log)
  {
    hide Next, Enabled, EventTruthful, TableTruthful, PendingTruthful, WritersTruthful, RequestsTruthful;
    LogGrows(s, step);
    if Next(s, step).log != s.log {
      var e :| Logs(s, step, e);
      EventIsTruthful(s, step, e);
      var all := s.log + [e];
      LogIs(s, step, e);
      forall i | 0 <= i < |all|
        ensures EventTruthful(all[..i], all[i])
      {
        assert all[..i] == s.log[..i];
      }
    }
  }

  lemma {:induction false} RunTruthful(states: seq<State>, steps: seq<Step>, n: nat)
    requires Run(states, steps) && n <= |steps|
    ensures Truthful(states[n])
  {
    if n > 0 {
      RunTruthful(states, steps, n - 1);
      hide Next, Enabled, TableTruthful, PendingTruthful, WritersTruthful, RequestsTruthful, LogTruthful;
      TableStays(states[n - 1], steps[n - 1]);
      PendingStays(states[n - 1], steps[n - 1]);
      WritersStay(states[n - 1], steps[n - 1]);
      RequestsStay(states[n - 1], steps[n - 1]);
      LogStays(states[n - 1], steps[n - 1]);
    }
  }

  /** Faithful replay, over every run: what is replayed is what an earlier execution with that key and body answered. */
  lemma FaithfulReplay(states: seq<State>, steps: seq<Step>, i: nat, a: Answer)
    requires Run(states, steps) && i < |states[|steps|].log| && states[|steps|].log[i] == Replayed(a)
    ensures Executed(a) in states[|steps|].log[..i]
  {
    RunTruthful(states, steps, |steps|);
    assert EventTruthful(states[|steps|].log[..i], states[|steps|].log[i]);
  }

  /** A key is refused as reused only when it was claimed for a different body. */
  lemma FaithfulReuse(states: seq<State>, steps: seq<Step>, i: nat, k: Key, fp: string)
    requires Run(states, steps) && i < |states[|steps|].log| && states[|steps|].log[i] == Reused(k, fp)
    ensures exists other :: other != fp && Claimed(k, other) in states[|steps|].log[..i]
  {
    RunTruthful(states, steps, |steps|);
    assert EventTruthful(states[|steps|].log[..i], states[|steps|].log[i]);
  }
}
