/**
  The Idempotency-Key protocol (idempotency.go) as a state machine. A step is one
  SQL statement or one section under the store's mutex; any number of requests and
  background writers interleave, a statement may fail with or without effect, and
  the process may die at any point. `log` is the history the properties speak of.
 */
module Idempotency {

  /** (method, path, key). */
  type Key = string

  datatype Row = Row(fp: string, done: bool, status: int, body: string)

  datatype Answer = Answer(key: Key, fp: string, status: int, body: string)

  type Table = map<Key, Row>

  // ---- the SQL statements -----------------------------------------------------------

  /** INSERT ... ON CONFLICT DO NOTHING of a claim. */
  function InsertClaim(t: Table, k: Key, fp: string): Table {
    if k in t then t else t[k := Row(fp, false, 0, "")]
  }

  /** Whether the statement of recordOn changes a row. */
  predicate Records(t: Table, a: Answer) {
    a.key in t ==> !t[a.key].done && t[a.key].fp == a.fp
  }

  /** recordOn: the answer, whether the claim is in flight or gone, but never over another answer. */
  function RecordAnswer(t: Table, a: Answer): Table {
    if Records(t, a) then t[a.key := Row(a.fp, true, a.status, a.body)] else t
  }

  function ReleaseClaim(t: Table, k: Key): Table {
    if k in t && !t[k].done then t - {k} else t
  }

  function SweepInFlight(t: Table): Table {
    map k | k in t && t[k].done :: t[k]
  }

  /** How a statement ends: with its effect, without it, or with it and an error. */
  datatype Statement = Applied | Failed | Ambiguous

  function Apply(o: Statement, before: Table, after: Table): Table {
    if o.Failed? then before else after
  }

  // ---- the state ------------------------------------------------------------------------

  datatype Phase =
    | Checking
    | Inserting(tries: nat)
    | Reading(tries: nat)
    | Running
    | Recording(status: int, body: string)
    | Keeping(status: int, body: string)
    | Releasing
    | Finished

  datatype Request = Request(key: Key, fp: string, phase: Phase)

  /** A background writer, or close's last attempt; `stored` between its statement and forgetting the answer. */
  datatype Writer = Writer(answer: Answer, stored: bool)

  datatype Event =
    | Claimed(key: Key, fp: string)
    | Executed(answer: Answer)
    | Replayed(answer: Answer)
    | Reused(key: Key, fp: string)
    | Pruned(keys: set<Key>)
    | Died

  datatype State = State(
    table: Table,
    requests: map<nat, Request>,
    pending: map<Key, Answer>,
    writers: map<nat, Writer>,
    log: seq<Event>)

  const MAX_PENDING := 1024
  const CLAIM_TRIES := 3

  datatype Step =
    | Arrive(id: nat, key: Key, fp: string)
    | CheckPending(id: nat)
    | Insert(id: nat, o: Statement)
    | Read(id: nat, ok: bool)
    | Handle(id: nat, status: int, body: string, transient: bool)
    | Record(id: nat, o: Statement)
    | Keep(id: nat, writer: nat)
    | Release(id: nat, o: Statement)
    | WriterTry(writer: nat, o: Statement)
    | WriterForget(writer: nat)
    | WriterStop(writer: nat)
    | CloseTry(writer: nat, key: Key)
    | Prune(keys: set<Key>)
    | Restart(swept: bool)

  predicate InPhase(s: State, id: nat, p: Phase -> bool) {
    id in s.requests && p(s.requests[id].phase)
  }

  /** A transient answer is a 5xx, or a refusal that says to try again. */
  predicate Enabled(s: State, step: Step) {
    match step
    case Arrive(id, _, _) => id !in s.requests
    case CheckPending(id) => InPhase(s, id, (p: Phase) => p.Checking?)
    case Insert(id, _) => InPhase(s, id, (p: Phase) => p.Inserting?)
    case Read(id, _) => InPhase(s, id, (p: Phase) => p.Reading?)
    case Handle(id, status, _, transient) =>
      InPhase(s, id, (p: Phase) => p.Running?) && (status >= 500 ==> transient) && (transient ==> status >= 400)
    case Record(id, _) => InPhase(s, id, (p: Phase) => p.Recording?)
    case Keep(id, w) => InPhase(s, id, (p: Phase) => p.Keeping?) && w !in s.writers
    case Release(id, _) => InPhase(s, id, (p: Phase) => p.Releasing?)
    case WriterTry(w, _) => w in s.writers && !s.writers[w].stored
    case WriterForget(w) => w in s.writers && s.writers[w].stored
    case WriterStop(w) => w in s.writers && !s.writers[w].stored
    case CloseTry(w, k) => w !in s.writers && k in s.pending
    case Prune(_) => true
    case Restart(_) => true
  }

  function To(s: State, id: nat, phase: Phase): State
    requires id in s.requests
  {
    s.(requests := s.requests[id := s.requests[id].(phase := phase)])
  }

  function Logged(s: State, e: Event): State {
    s.(log := s.log + [e])
  }

  /** What a request is told of a claim or an answer with its key that is there already. */
  function Found(s: State, id: nat, fp: string, done: bool, status: int, body: string): State
    requires id in s.requests
  {
    var r := s.requests[id];
    if fp != r.fp then Logged(To(s, id, Finished), Reused(r.key, r.fp))
    else if done then Logged(To(s, id, Finished), Replayed(Answer(r.key, fp, status, body)))
    else To(s, id, Finished)
  }

  function CheckedPending(s: State, id: nat): State
    requires id in s.requests
  {
    var k := s.requests[id].key;
    if k in s.pending then Found(s, id, s.pending[k].fp, true, s.pending[k].status, s.pending[k].body)
    else To(s, id, Inserting(0))
  }

  function Inserted(s: State, id: nat, tries: nat, o: Statement): State
    requires id in s.requests
  {
    var r := s.requests[id];
    var t := Apply(o, s.table, InsertClaim(s.table, r.key, r.fp));
    if o.Failed? then To(s, id, Finished)
    else if r.key !in s.table then
      Logged(To(s.(table := t), id, if o.Applied? then Running else Finished), Claimed(r.key, r.fp))
    else To(s, id, if o.Applied? then Reading(tries) else Finished)
  }

  function HasRead(s: State, id: nat, tries: nat, ok: bool): State
    requires id in s.requests
  {
    var r := s.requests[id];
    if !ok then To(s, id, Finished)
    else if r.key !in s.table then To(s, id, if tries + 1 < CLAIM_TRIES then Inserting(tries + 1) else Finished)
    else
      var row := s.table[r.key];
      Found(s, id, row.fp, row.done, row.status, row.body)
  }

  function Handled(s: State, id: nat, status: int, body: string, transient: bool): State
    requires id in s.requests
  {
    var r := s.requests[id];
    Logged(To(s, id, if transient then Releasing else Recording(status, body)), Executed(Answer(r.key, r.fp, status, body)))
  }

  /** An error leaves a request that acted to keep its answer, and one that did not to release its claim. */
  function Recorded(s: State, id: nat, status: int, body: string, o: Statement): State
    requires id in s.requests
  {
    var r := s.requests[id];
    var t := Apply(o, s.table, RecordAnswer(s.table, Answer(r.key, r.fp, status, body)));
    To(s.(table := t), id, if o.Applied? then Finished else if status < 400 then Keeping(status, body) else Releasing)
  }

  /** keepPending. A full set leaves the claim in flight. */
  function Kept(s: State, id: nat, status: int, body: string, w: nat): State
    requires id in s.requests
  {
    var r := s.requests[id];
    var a := Answer(r.key, r.fp, status, body);
    if |s.pending| >= MAX_PENDING then To(s, id, Finished)
    else To(s, id, Finished).(pending := s.pending[r.key := a], writers := s.writers[w := Writer(a, false)])
  }

  function Released(s: State, id: nat, o: Statement): State
    requires id in s.requests
  {
    To(s.(table := Apply(o, s.table, ReleaseClaim(s.table, s.requests[id].key))), id, Finished)
  }

  /** An attempt that reports success, or a claim lost, is the last; any other is repeated. */
  function Tried(s: State, w: nat, o: Statement): State
    requires w in s.writers
  {
    var a := s.writers[w].answer;
    s.(table := Apply(o, s.table, RecordAnswer(s.table, a)), writers := s.writers[w := Writer(a, o.Applied?)])
  }

  function Next(s: State, step: Step): State
    requires Enabled(s, step)
  {
    match step
    case Arrive(id, k, fp) => s.(requests := s.requests[id := Request(k, fp, Checking)])
    case CheckPending(id) => CheckedPending(s, id)
    case Insert(id, o) => Inserted(s, id, s.requests[id].phase.tries, o)
    case Read(id, ok) => HasRead(s, id, s.requests[id].phase.tries, ok)
    case Handle(id, status, body, transient) => Handled(s, id, status, body, transient)
    case Record(id, o) => Recorded(s, id, s.requests[id].phase.status, s.requests[id].phase.body, o)
    case Keep(id, w) => Kept(s, id, s.requests[id].phase.status, s.requests[id].phase.body, w)
    case Release(id, o) => Released(s, id, o)
    case WriterTry(w, o) => Tried(s, w, o)
    case WriterForget(w) => s.(pending := s.pending - {s.writers[w].answer.key}, writers := s.writers - {w})
    case WriterStop(w) => s.(writers := s.writers - {w})
    case CloseTry(w, k) => s.(writers := s.writers[w := Writer(s.pending[k], false)])
    case Prune(keys) => Logged(s.(table := s.table - keys), Pruned(keys * s.table.Keys))
    case Restart(swept) =>
      Logged(State(if swept then SweepInFlight(s.table) else s.table, map[], map[], map[], s.log), Died)
  }

  const EMPTY := State(map[], map[], map[], map[], [])

  // ---- runs -----------------------------------------------------------------------------------

  ghost predicate Run(states: seq<State>, steps: seq<Step>) {
    && |states| == |steps| + 1 && states[0] == EMPTY
    && forall i :: 0 <= i < |steps| ==> Enabled(states[i], steps[i]) && states[i + 1] == Next(states[i], steps[i])
  }

  /** Between its claim and the end of its answer's bookkeeping. */
  predicate Unsettled(p: Phase) {
    p.Running? || p.Recording? || p.Releasing?
  }

  ghost predicate Holds(s: State, id: nat, k: Key) {
    id in s.requests && s.requests[id].key == k && Unsettled(s.requests[id].phase)
  }

  /** No row is pruned while a request with its key is unsettled. */
  ghost predicate SparesHeld(s: State, step: Step) {
    step.Prune? ==> forall id, k :: Holds(s, id, k) && k in s.table ==> k !in step.keys
  }

  /** A request that may still release its key: one that runs, releases, or records a refusal. */
  predicate Gripping(p: Phase) {
    p.Running? || p.Releasing? || (p.Recording? && p.status >= 400)
  }

  ghost predicate Grips(s: State, id: nat, k: Key) {
    id in s.requests && s.requests[id].key == k && Gripping(s.requests[id].phase)
  }

  /** No row is pruned while a request with its key may still release it. */
  ghost predicate SparesGripped(s: State, step: Step) {
    step.Prune? ==> forall id, k :: Grips(s, id, k) && k in s.table ==> k !in step.keys
  }

  ghost predicate GripSparingRun(states: seq<State>, steps: seq<Step>) {
    Run(states, steps) && forall i :: 0 <= i < |steps| ==> SparesGripped(states[i], steps[i])
  }

  /** Every run that spares the rows of unsettled requests spares those that may be released. */
  lemma SparingIsGripSparing(states: seq<State>, steps: seq<Step>)
    requires SparingRun(states, steps)
    ensures GripSparingRun(states, steps)
  {
    hide Next, Enabled;
    forall i | 0 <= i < |steps|
      ensures SparesGripped(states[i], steps[i])
    {
      assert SparesHeld(states[i], steps[i]);
      assert forall id, k :: Grips(states[i], id, k) ==> Holds(states[i], id, k);
    }
  }

  ghost predicate SparingRun(states: seq<State>, steps: seq<Step>) {
    Run(states, steps) && forall i :: 0 <= i < |steps| ==> SparesHeld(states[i], steps[i])
  }

  // ---- exclusive claim ---------------------------------------------------------------------------

  /** An unsettled request's row is there, and no other unsettled request has its key. */
  ghost predicate Exclusive(s: State) {
    && (forall id, k :: Holds(s, id, k) ==> k in s.table)
    && (forall id, id', k :: Holds(s, id, k) && Holds(s, id', k) ==> id == id')
  }

  predicate Acts(e: Event, k: Key) {
    e.Executed? && e.answer.key == k && e.answer.status < 400
  }

  predicate Ends(e: Event, k: Key) {
    e.Died? || (e.Pruned? && k in e.keys)
  }

  /** Whether a request with this key has acted since the last death, and the last prune of its row. */
  predicate Acted(log: seq<Event>, k: Key) {
    log != [] &&
    var e := log[|log| - 1];
    Acts(e, k) || (!Ends(e, k) && Acted(log[..|log| - 1], k))
  }

  /** Once a request has acted its key cannot be claimed, and no request is left that may act for it or release it. */
  ghost predicate Protected(s: State) {
    forall k :: Acted(s.log, k) ==> ProtectedKey(s, k)
  }

  lemma ActedNext(log: seq<Event>, e: Event, k: Key)
    ensures Acted(log + [e], k) <==> Acts(e, k) || (!Ends(e, k) && Acted(log, k))
  {
    assert (log + [e])[..|log|] == log;
  }

  /** A row goes by a prune, a restart's sweep, or the release of an unsettled request with its key. */
  predicate Removes(s: State, step: Step, k: Key) {
    match step
    case Release(id, _) => id in s.requests && s.requests[id].key == k && s.requests[id].phase.Releasing?
    case Prune(keys) => k in keys
    case Restart(_) => true
    case _ => false
  }

  lemma RowsStay(s: State, step: Step, k: Key)
    requires Enabled(s, step) && k in s.table && !Removes(s, step, k)
    ensures k in Next(s, step).table
  {
    hide Enabled, Next;
    if step.CheckPending? || step.Insert? || step.Read? {
      RowsStayClaiming(s, step, k);
    } else {
      RowsStayElsewhere(s, step, k);
    }
  }

  lemma RowsStayClaiming(s: State, step: Step, k: Key)
    requires step.CheckPending? || step.Insert? || step.Read?
    requires Enabled(s, step) && k in s.table
    ensures k in Next(s, step).table
  {
  }

  lemma RowsStayElsewhere(s: State, step: Step, k: Key)
    requires !step.CheckPending? && !step.Insert? && !step.Read?
    requires Enabled(s, step) && k in s.table && !Removes(s, step, k)
    ensures k in Next(s, step).table
  {
  }

  /** A request comes to hold a key only by inserting its row. */
  predicate Claims(s: State, step: Step, id: nat, k: Key) {
    step.Insert? && step.id == id && step.o.Applied? && id in s.requests && s.requests[id].key == k && k !in s.table
  }

  lemma HoldsStay(s: State, step: Step, id: nat, k: Key)
    requires Enabled(s, step) && Holds(Next(s, step), id, k)
    ensures Holds(s, id, k) || Claims(s, step, id, k)
    ensures Claims(s, step, id, k) ==> k in Next(s, step).table
    ensures !step.Restart? && !(step.Release? && step.id == id)
  {
    hide Enabled, Next, Holds, Claims;
    if step.CheckPending? || step.Insert? || step.Read? {
      HoldsStayClaiming(s, step, id, k);
    } else {
      HoldsStayElsewhere(s, step, id, k);
    }
  }

  lemma HoldsStayClaiming(s: State, step: Step, id: nat, k: Key)
    requires step.CheckPending? || step.Insert? || step.Read?
    requires Enabled(s, step) && Holds(Next(s, step), id, k)
    ensures Holds(s, id, k) || Claims(s, step, id, k)
    ensures Claims(s, step, id, k) ==> k in Next(s, step).table
  {
  }

  lemma HoldsStayElsewhere(s: State, step: Step, id: nat, k: Key)
    requires !step.CheckPending? && !step.Insert? && !step.Read?
    requires Enabled(s, step) && Holds(Next(s, step), id, k)
    ensures Holds(s, id, k) && !Claims(s, step, id, k) && !step.Restart? && !(step.Release? && step.id == id)
  {
  }

  lemma ReleasingHolds(s: State, step: Step, k: Key)
    requires Enabled(s, step) && Removes(s, step, k)
    ensures step.Release? ==> Holds(s, step.id, k) && s.requests[step.id].phase.Releasing?
    ensures step.Release? || step.Restart? || (step.Prune? && k in step.keys)
  {
  }

  lemma HeldStays(s: State, step: Step, id: nat, k: Key)
    requires Enabled(s, step) && SparesHeld(s, step) && Exclusive(s) && Holds(s, id, k) && Holds(Next(s, step), id, k)
    ensures k in Next(s, step).table
  {
    hide Next, Enabled, Holds, Removes;
    HoldsStay(s, step, id, k);
    if Removes(s, step, k) {
      ReleasingHolds(s, step, k);
    } else {
      RowsStay(s, step, k);
    }
  }

  lemma StepKeepsExclusive(s: State, step: Step)
    requires Enabled(s, step) && SparesHeld(s, step) && Exclusive(s)
    ensures Exclusive(Next(s, step))
  {
    hide Next, Enabled, Holds;
    var t := Next(s, step);
    forall id, k | Holds(t, id, k)
      ensures k in t.table
    {
      HoldsStay(s, step, id, k);
      if Holds(s, id, k) {
        HeldStays(s, step, id, k);
      }
    }
    forall id, id', k | Holds(t, id, k) && Holds(t, id', k)
      ensures id == id'
    {
      HoldsStay(s, step, id, k);
      HoldsStay(s, step, id', k);
      if Claims(s, step, id, k) && Claims(s, step, id', k) {
        ClaimsOnce(s, step, id, id', k);
      }
    }
  }

  lemma ClaimsOnce(s: State, step: Step, id: nat, id': nat, k: Key)
    requires Claims(s, step, id, k) && Claims(s, step, id', k)
    ensures id == id'
  {
  }

  /** What a step adds to the history. */
  ghost predicate Logs(s: State, step: Step, e: Event) {
    Enabled(s, step) && Next(s, step).log == s.log + [e]
  }

  lemma LogGrows(s: State, step: Step)
    requires Enabled(s, step)
    ensures Next(s, step).log == s.log || (exists e :: Logs(s, step, e))
  {
    match step
    case CheckPending(i) => FoundLogs(s, step);
    case Read(i, ok) => FoundLogs(s, step);
    case Insert(i, o) =>
      if Next(s, step).log != s.log {
        assert Logs(s, step, Claimed(s.requests[i].key, s.requests[i].fp));
      }
    case Handle(i, status, body, _) =>
      assert Logs(s, step, Executed(Answer(s.requests[i].key, s.requests[i].fp, status, body)));
    case Prune(keys) => assert Logs(s, step, Pruned(keys * s.table.Keys));
    case Restart(_) => assert Logs(s, step, Died);
    case _ =>
  }

  lemma FoundLogs(s: State, step: Step)
    requires Enabled(s, step) && (step.CheckPending? || step.Read?)
    ensures Next(s, step).log == s.log || (exists e :: Logs(s, step, e))
  {
    var t := Next(s, step);
    if t.log != s.log {
      var e := t.log[|t.log| - 1];
      assert t.log == s.log + [e];
      assert Logs(s, step, e);
    }
  }

  // ---- what may still be released ------------------------------------------------------------------

  /** A request that may release its key has its row there, and no other such request has that key. */
  ghost predicate GripExclusive(s: State) {
    && (forall id, k :: Grips(s, id, k) ==> k in s.table)
    && (forall id, id', k :: Grips(s, id, k) && Grips(s, id', k) ==> id == id')
  }

  lemma GripsStay(s: State, step: Step, id: nat, k: Key)
    requires Enabled(s, step) && Grips(Next(s, step), id, k)
    ensures Grips(s, id, k) || Claims(s, step, id, k)
    ensures Claims(s, step, id, k) ==> k in Next(s, step).table
    ensures !step.Restart? && !(step.Release? && step.id == id)
  {
    hide Enabled, Next, Grips, Claims;
    if step.CheckPending? || step.Insert? || step.Read? {
      GripsStayClaiming(s, step, id, k);
    } else {
      GripsStayElsewhere(s, step, id, k);
    }
  }

  lemma GripsStayClaiming(s: State, step: Step, id: nat, k: Key)
    requires step.CheckPending? || step.Insert? || step.Read?
    requires Enabled(s, step) && Grips(Next(s, step), id, k)
    ensures Grips(s, id, k) || Claims(s, step, id, k)
    ensures Claims(s, step, id, k) ==> k in Next(s, step).table
  {
  }

  lemma GripsStayElsewhere(s: State, step: Step, id: nat, k: Key)
    requires !step.CheckPending? && !step.Insert? && !step.Read?
    requires Enabled(s, step) && Grips(Next(s, step), id, k)
    ensures Grips(s, id, k) && !Claims(s, step, id, k) && !step.Restart? && !(step.Release? && step.id == id)
  {
  }

  lemma ReleasingGrips(s: State, step: Step, k: Key)
    requires Enabled(s, step) && Removes(s, step, k)
    ensures step.Release? ==> Grips(s, step.id, k)
    ensures step.Release? || step.Restart? || (step.Prune? && k in step.keys)
  {
  }

  lemma GrippedStays(s: State, step: Step, id: nat, k: Key)
    requires Enabled(s, step) && SparesGripped(s, step) && GripExclusive(s) && Grips(s, id, k) && Grips(Next(s, step), id, k)
    ensures k in Next(s, step).table
  {
    hide Next, Enabled, Grips, Removes;
    GripsStay(s, step, id, k);
    if Removes(s, step, k) {
      ReleasingGrips(s, step, k);
    } else {
      RowsStay(s, step, k);
    }
  }

  lemma StepKeepsGripExclusive(s: State, step: Step)
    requires Enabled(s, step) && SparesGripped(s, step) && GripExclusive(s)
    ensures GripExclusive(Next(s, step))
  {
    hide Next, Enabled, Grips;
    var t := Next(s, step);
    forall id, k | Grips(t, id, k)
      ensures k in t.table
    {
      GripsStay(s, step, id, k);
      if Grips(s, id, k) {
        GrippedStays(s, step, id, k);
      }
    }
    forall id, id', k | Grips(t, id, k) && Grips(t, id', k)
      ensures id == id'
    {
      GripsStay(s, step, id, k);
      GripsStay(s, step, id', k);
      if Claims(s, step, id, k) && Claims(s, step, id', k) {
        ClaimsOnce(s, step, id, id', k);
      }
    }
  }

  /** An execution below 400 is logged by a request that grips its key, and then grips it no longer. */
  lemma ActsWhileGripping(s: State, step: Step, e: Event, k: Key)
    requires Logs(s, step, e) && Acts(e, k)
    ensures step.Handle? && Grips(s, step.id, k) && !Grips(Next(s, step), step.id, k)
    ensures Next(s, step).table == s.table
  {
    assert (s.log + [e])[|s.log|] == e;
  }

  lemma EndsByStep(s: State, step: Step, e: Event, k: Key)
    requires Logs(s, step, e) && k in s.table
    ensures step.Restart? || (step.Prune? && k in step.keys) ==> Ends(e, k)
  {
    assert (s.log + [e])[|s.log|] == e;
  }

  lemma PruneOrRestartLogs(s: State, step: Step)
    requires Enabled(s, step) && (step.Prune? || step.Restart?)
    ensures Next(s, step).log != s.log
  {
  }

  lemma ActedStep(s: State, step: Step, k: Key)
    requires Enabled(s, step) && Acted(Next(s, step).log, k)
    ensures || (exists e :: Logs(s, step, e) && Acts(e, k))
            || (Acted(s.log, k) && (k in s.table ==> !step.Restart? && !(step.Prune? && k in step.keys)))
  {
    hide Next, Acts, Ends;
    LogGrows(s, step);
    if Next(s, step).log != s.log {
      var e :| Logs(s, step, e);
      ActedNext(s.log, e, k);
      if k in s.table { EndsByStep(s, step, e, k); }
    } else if step.Prune? || step.Restart? {
      PruneOrRestartLogs(s, step);
    }
  }

  ghost predicate ProtectedKey(s: State, k: Key) {
    k in s.table && forall id :: !Grips(s, id, k)
  }

  lemma ProtectedStays(s: State, step: Step, k: Key)
    requires Enabled(s, step) && ProtectedKey(s, k) && !step.Restart? && !(step.Prune? && k in step.keys)
    ensures ProtectedKey(Next(s, step), k)
  {
    hide Next, Enabled, Grips, Removes;
    if Removes(s, step, k) {
      ReleasingGrips(s, step, k);
      assert false;
    }
    RowsStay(s, step, k);
    var t := Next(s, step);
    forall id
      ensures !Grips(t, id, k)
    {
      if Grips(t, id, k) {
        GripsStay(s, step, id, k);
        assert false;
      }
    }
  }

  lemma ActingProtects(s: State, step: Step, e: Event, k: Key)
    requires Enabled(s, step) && GripExclusive(s) && Logs(s, step, e) && Acts(e, k)
    ensures ProtectedKey(Next(s, step), k)
  {
    hide Next, Enabled, Grips, Acts, Logs;
    ActsWhileGripping(s, step, e, k);
    var t := Next(s, step);
    forall id
      ensures !Grips(t, id, k)
    {
      if Grips(t, id, k) {
        GripsStay(s, step, id, k);
        assert false;
      }
    }
  }

  lemma StepKeepsProtected(s: State, step: Step)
    requires Enabled(s, step) && GripExclusive(s) && Protected(s)
    ensures Protected(Next(s, step))
  {
    hide Next, Enabled, Grips, Acts, Logs;
    var t := Next(s, step);
    forall k | Acted(t.log, k)
      ensures ProtectedKey(t, k)
    {
      ActedStep(s, step, k);
      if e :| Logs(s, step, e) && Acts(e, k) {
        ActingProtects(s, step, e, k);
      } else {
        ProtectedStays(s, step, k);
      }
    }
  }
}
