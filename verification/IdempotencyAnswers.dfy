/**
  Which answers last. A failure of the agent's own is never replayed to a retry, and an
  answer that is to be replayed is the next thing its request records.
 */
module IdempotencyAnswers {
  import opened Text
  import opened Idempotency
  import opened IdempotencyRuns

  // ---- failures are not kept ---------------------------------------------------------------

  predicate PhaseLasts(p: Phase) {
    (p.Recording? ==> p.status < 500) && (p.Keeping? ==> p.status < 500)
  }

  predicate EventLasts(e: Event) {
    e.Replayed? ==> e.answer.status < 500
  }

  /** No answer of 500 or above is recorded, about to be, kept in memory, or was replayed. */
  ghost predicate NoFailures(s: State) {
    && (forall k :: k in s.table && s.table[k].done ==> s.table[k].status < 500)
    && (forall k :: k in s.pending ==> s.pending[k].status < 500)
    && (forall w :: w in s.writers ==> s.writers[w].answer.status < 500)
    && (forall id :: id in s.requests ==> PhaseLasts(s.requests[id].phase))
    && (forall i :: 0 <= i < |s.log| ==> EventLasts(s.log[i]))
  }

  lemma MovedLasts(s: State, step: Step)
    requires NoFailures(s)
    ensures Moved(s, step).Some? ==> Moved(s, step).value.status < 500
  {
  }

  lemma MoverLasts(s: State, step: Step, id: nat)
    requires Enabled(s, step) && NoFailures(s) && Mover(step) == Some(id)
    ensures id in Next(s, step).requests && PhaseLasts(Next(s, step).requests[id].phase)
  {
    match step
    case Arrive(_, _, _) =>
    case CheckPending(_) =>
    case Insert(_, _) =>
    case Read(_, _) =>
    case Handle(_, _, _, _) =>
    case Record(_, _) =>
    case Keep(_, _) =>
    case Release(_, _) =>
  }

  lemma EventOfLasts(s: State, step: Step, e: Event)
    requires NoFailures(s) && Logs(s, step, e)
    ensures EventLasts(e)
  {
    assert (s.log + [e])[|s.log|] == e;
  }

  lemma KeptLast(s: State, step: Step)
    requires Enabled(s, step) && NoFailures(s)
    ensures forall k :: k in Next(s, step).table && Next(s, step).table[k].done ==> Next(s, step).table[k].status < 500
    ensures forall k :: k in Next(s, step).pending ==> Next(s, step).pending[k].status < 500
    ensures forall w :: w in Next(s, step).writers ==> Next(s, step).writers[w].answer.status < 500
  {
    MovedLasts(s, step);
    hide Next, Enabled, Moved;
    forall k | k in Next(s, step).table && Next(s, step).table[k].done
      ensures Next(s, step).table[k].status < 500
    {
      RowFrom(s, step, k);
    }
    forall k | k in Next(s, step).pending
      ensures Next(s, step).pending[k].status < 500
    {
      PendingFrom(s, step, k);
    }
    forall w | w in Next(s, step).writers
      ensures Next(s, step).writers[w].answer.status < 500
    {
      WriterFrom(s, step, w);
    }
  }

  lemma RequestsLast(s: State, step: Step)
    requires Enabled(s, step) && NoFailures(s)
    ensures forall id :: id in Next(s, step).requests ==> PhaseLasts(Next(s, step).requests[id].phase)
  {
    hide Next, Enabled, Mover;
    forall id | id in Next(s, step).requests
      ensures PhaseLasts(Next(s, step).requests[id].phase)
    {
      if Mover(step) == Some(id) {
        MoverLasts(s, step, id);
      } else {
        OthersStay(s, step, id);
      }
    }
  }

  lemma LogLasts(s: State, step: Step)
    requires Enabled(s, step) && NoFailures(s)
    ensures forall i :: 0 <= i < |Next(s, step).log| ==> EventLasts(Next(s, step).log[i])
  {
    hide Next, Enabled;
    LogGrows(s, step);
    if Next(s, step).log != s.log {
      var e :| Logs(s, step, e);
      LogIs(s, step, e);
      EventOfLasts(s, step, e);
    }
  }

  lemma StepKeepsNoFailures(s: State, step: Step)
    requires Enabled(s, step) && NoFailures(s)
    ensures NoFailures(Next(s, step))
  {
    hide Next, Enabled;
    KeptLast(s, step);
    RequestsLast(s, step);
    LogLasts(s, step);
  }

  lemma {:induction false} RunHasNoFailures(states: seq<State>, steps: seq<Step>, n: nat)
    requires Run(states, steps) && n <= |steps|
    ensures NoFailures(states[n])
  {
    if n > 0 {
      RunHasNoFailures(states, steps, n - 1);
      hide Next, Enabled, NoFailures;
      StepKeepsNoFailures(states[n - 1], steps[n - 1]);
    }
  }

  /** Over every run, whatever is pruned: no retry is answered with a failure an earlier request met. */
  lemma FailuresAreNotReplayed(states: seq<State>, steps: seq<Step>, i: nat, a: Answer)
    requires Run(states, steps) && i < |states[|steps|].log| && states[|steps|].log[i] == Replayed(a)
    ensures a.status < 500
  {
    RunHasNoFailures(states, steps, |steps|);
    assert EventLasts(states[|steps|].log[i]);
  }

  // ---- answers are ----------------------------------------------------------------------------

  /** The request is recording this answer. */
  predicate Keeps(s: State, id: nat, r: Request, status: int, body: string) {
    id in s.requests && s.requests[id] == Request(r.key, r.fp, Recording(status, body))
  }

  lemma RecordingStays(s: State, step: Step, id: nat, r: Request, status: int, body: string)
    requires Enabled(s, step) && Keeps(s, id, r, status, body) && Mover(step) != Some(id) && !step.Restart?
    ensures Keeps(Next(s, step), id, r, status, body)
  {
  }

  lemma HandledRecords(s: State, id: nat, status: int, body: string)
    requires Enabled(s, Handle(id, status, body, false))
    ensures id in s.requests && Keeps(Next(s, Handle(id, status, body, false)), id, s.requests[id], status, body)
  {
  }

  lemma {:induction false} RecordingSince(states: seq<State>, steps: seq<Step>, n: nat, m: nat, id: nat, status: int, body: string)
    requires Run(states, steps) && n < m <= |steps| && steps[n] == Handle(id, status, body, false)
    requires forall i :: n < i < m ==> Mover(steps[i]) != Some(id) && !steps[i].Restart?
    ensures id in states[n].requests && Keeps(states[m], id, states[n].requests[id], status, body)
    decreases m
  {
    hide Next, Enabled, Keeps, Mover;
    assert Enabled(states[n], steps[n]) && states[n + 1] == Next(states[n], steps[n]);
    HandledRecords(states[n], id, status, body);
    if m > n + 1 {
      RecordingSince(states, steps, n, m - 1, id, status, body);
      assert Enabled(states[m - 1], steps[m - 1]);
      RecordingStays(states[m - 1], steps[m - 1], id, states[n].requests[id], status, body);
    }
  }

  /**
    Over every run: after its handler answered for good, the next thing a request does,
    unless the process dies, is to record that answer. A statement that succeeds leaves it
    under the key, unless another answer or the claim of another body is there.
   */
  lemma AnswersAreRecorded(states: seq<State>, steps: seq<Step>, n: nat, m: nat, id: nat, status: int, body: string)
    requires Run(states, steps) && n < m < |steps| && steps[n] == Handle(id, status, body, false)
    requires forall i :: n < i < m ==> Mover(steps[i]) != Some(id) && !steps[i].Restart?
    requires Mover(steps[m]) == Some(id)
    ensures steps[m].Record? && id in states[n].requests
    ensures var r, t, after := states[n].requests[id], states[m].table, states[m + 1].table;
      steps[m].o.Applied? ==>
        if r.key in t && (t[r.key].done || t[r.key].fp != r.fp) then after == t
        else after == t[r.key := Row(r.fp, true, status, body)]
  {
    RecordingSince(states, steps, n, m, id, status, body);
    assert Enabled(states[m], steps[m]) && states[m + 1] == Next(states[m], steps[m]);
  }
}
