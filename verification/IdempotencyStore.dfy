/**
  The store's methods (idempotency.go), each the sequence of atomic sections that the
  protocol's steps are. Other requests and writers may change the table before every
  statement: `world(i)` is the table the `i`-th statement finds.
 */
module IdempotencyStore {
  import opened Text
  import opened Idempotency

  datatype Claiming =
    | KeyClaimed
    | Replay(status: int, body: string)
    | InFlight
    | OtherBody

  /** What an answer or a claim that is there tells a request. */
  function Told(row: Row, fp: string): Claiming {
    if row.fp != fp then OtherBody else if row.done then Replay(row.status, row.body) else InFlight
  }

  /** What a claim is told by the answers kept in memory. */
  function ToldFrom(pending: map<Key, Answer>, key: Key, fp: string): Option<Claiming> {
    if key in pending then Some(Told(Row(pending[key].fp, true, pending[key].status, pending[key].body), fp)) else None
  }

  // ---- the protocol's steps, for the requests a section runs for ---------------------------

  predicate IsReleasing(s: State, id: nat, key: Key) {
    Enabled(s, Release(id, Applied)) && s.requests[id].key == key
  }

  predicate IsRecording(s: State, id: nat, a: Answer) {
    && Enabled(s, Record(id, Applied))
    && s.requests[id] == Request(a.key, a.fp, Recording(a.status, a.body))
  }

  predicate IsKeeping(s: State, id: nat, w: nat, a: Answer) {
    && Enabled(s, Keep(id, w))
    && s.requests[id] == Request(a.key, a.fp, Keeping(a.status, a.body))
  }

  /** What the log says of a request that was told of a claim or an answer. */
  function Notes(key: Key, fp: string, r: Claiming): seq<Event> {
    match r
    case KeyClaimed => [Claimed(key, fp)]
    case Replay(status, body) => [Replayed(Answer(key, fp, status, body))]
    case OtherBody => [Reused(key, fp)]
    case InFlight => []
  }

  /** A claim answered from memory is the protocol's step: the request is finished, and the log says what it was told. */
  lemma PendingIsStep(s: State, id: nat)
    requires Enabled(s, CheckPending(id)) && s.requests[id].key in s.pending
    ensures var r, t := s.requests[id], Next(s, CheckPending(id));
      && t.table == s.table && t.requests[id].phase == Finished
      && t.log == s.log + Notes(r.key, r.fp, ToldFrom(s.pending, r.key, r.fp).value)
  {
  }

  /** An insert that finds the key free is the step that makes the request the key's one runner. */
  lemma InsertIsStep(s: State, id: nat)
    requires Enabled(s, Insert(id, Applied)) && s.requests[id].key !in s.table
    ensures var r, t := s.requests[id], Next(s, Insert(id, Applied));
      && t.table == InsertClaim(s.table, r.key, r.fp) && t.requests[id].phase == Running
      && t.log == s.log + Notes(r.key, r.fp, KeyClaimed)
  {
  }

  /** A read that finds what took the key is the step that finishes the request with what it is told. */
  lemma ReadIsStep(s: State, id: nat)
    requires Enabled(s, Read(id, true)) && s.requests[id].key in s.table
    ensures var r, t := s.requests[id], Next(s, Read(id, true));
      && t.table == s.table && t.requests[id].phase == Finished
      && t.log == s.log + Notes(r.key, r.fp, Told(s.table[r.key], r.fp))
  {
  }

  lemma OneMore(pending: map<Key, Answer>, a: Answer)
    requires |pending| < MAX_PENDING
    ensures |pending[a.key := a]| <= MAX_PENDING
  {
    var after := pending[a.key := a];
    assert |after.Keys| == |after| && |pending.Keys| == |pending|;
    assert after.Keys == pending.Keys + {a.key};
  }

  /** A claim released is as if it had never been made. */
  lemma ReleaseUndoesClaim(t: Table, k: Key, fp: string)
    requires k !in t
    ensures ReleaseClaim(InsertClaim(t, k, fp), k) == t
  {
  }

  /** A release that comes after the answer was recorded takes nothing away. */
  lemma ReleaseSparesAnswers(t: Table, a: Answer)
    requires Records(t, a)
    ensures ReleaseClaim(RecordAnswer(t, a), a.key) == RecordAnswer(t, a)
  {
  }

  class Store {
    var table: Table
    var pending: map<Key, Answer>

    /**
      claim: an answer kept in memory first, then up to three times an insert and, when
      the key is taken, a look at what took it.
     */
    method Claim(key: Key, fp: string, world: nat -> Table) returns (r: Claiming)
      modifies this`table
      ensures key in pending ==> table == old(table) && Some(r) == ToldFrom(pending, key, fp)
      ensures r.KeyClaimed? ==>
        exists i :: 0 <= i < 2 * CLAIM_TRIES && key !in world(i) && table == InsertClaim(world(i), key, fp)
      ensures key !in pending && !r.KeyClaimed? ==> Refuses(key, fp, world, table, r)
    {
      if key in pending {
        var p := pending[key];
        return if p.fp != fp then OtherBody else Replay(p.status, p.body);
      }
      for n := 0 to CLAIM_TRIES
        invariant forall m :: 0 <= m < n ==> Vanished(key, world, m)
        invariant n > 0 ==> table == world(2 * n - 1)
      {
        table := world(2 * n);
        if key !in table {
          table := InsertClaim(table, key, fp);
          return KeyClaimed;
        }
        table := world(2 * n + 1);
        if key !in table {
          assert Vanished(key, world, n);
          continue;
        }
        assert ReadAt(key, fp, world, table, Told(table[key], fp), n);
        return Told(table[key], fp);
      }
      return InFlight;
    }

    /** recordOn: `recorded` is false when the claim is lost to another request. */
    method RecordOn(a: Answer) returns (recorded: bool)
      modifies this`table
      ensures recorded <==> Records(old(table), a)
      ensures table == RecordAnswer(old(table), a)
      ensures a.key in old(table) && (old(table)[a.key].done || old(table)[a.key].fp != a.fp) ==> !recorded && table == old(table)
      ensures a.key !in old(table) || (!old(table)[a.key].done && old(table)[a.key].fp == a.fp) ==>
        recorded && table == old(table)[a.key := Row(a.fp, true, a.status, a.body)]
      ensures forall s: State, id: nat :: s.table == old(table) && IsRecording(s, id, a) ==> Next(s, Record(id, Applied)).table == table
    {
      if a.key !in table {
        table := table[a.key := Row(a.fp, true, a.status, a.body)];
        return true;
      }
      var row := table[a.key];
      if row.done || row.fp != a.fp {
        return false;
      }
      table := table[a.key := row.(done := true, status := a.status, body := a.body)];
      return true;
    }

    /**
      release: whatever is left under the key is a recorded answer, so no later claim of
      it is told that a request is in flight; no other key and no recorded answer changes.
     */
    method ReleaseKey(key: Key)
      modifies this`table
      ensures key in table ==> forall fp :: !Told(table[key], fp).InFlight?
      ensures forall k :: k in table ==> k in old(table) && table[k] == old(table)[k]
      ensures forall k :: k in old(table) && (k != key || old(table)[k].done) ==> k in table
      ensures forall s: State, id: nat :: s.table == old(table) && IsReleasing(s, id, key) ==> Next(s, Release(id, Applied)).table == table
    {
      if key in table && !table[key].done {
        table := table - {key};
      }
    }

    /**
      keepPending: an answer kept is what any claim of its key is told from then on, and
      never more than 1024 are kept; a full set is left as it is.
     */
    method KeepPending(a: Answer) returns (kept: bool)
      modifies this`pending
      ensures kept ==> forall fp ::
        ToldFrom(pending, a.key, fp) == Some(if fp == a.fp then Replay(a.status, a.body) else OtherBody)
      ensures kept ==> forall k, fp :: k != a.key ==> ToldFrom(pending, k, fp) == ToldFrom(old(pending), k, fp)
      ensures kept ==> |old(pending)| < MAX_PENDING && |pending| <= MAX_PENDING
      ensures !kept ==> |old(pending)| >= MAX_PENDING && pending == old(pending)
      ensures forall s: State, id: nat, w: nat :: s.pending == old(pending) && IsKeeping(s, id, w, a) ==> Next(s, Keep(id, w)).pending == pending
    {
      if |pending| >= MAX_PENDING {
        return false;
      }
      OneMore(pending, a);
      pending := pending[a.key := a];
      return true;
    }

    /** The statement at boot: the claims of the process that died are gone, every answer is left, and it counts the claims. */
    method Sweep() returns (released: nat)
      modifies this`table
      ensures table == SweepInFlight(old(table))
      ensures forall k :: k in old(table) && !old(table)[k].done ==> k !in table
      ensures forall k :: k in old(table) && old(table)[k].done ==> k in table && table[k] == old(table)[k]
      ensures forall k :: k in table ==> k in old(table)
      ensures released == |old(table)| - |table|
    {
      var before := table;
      table := SweepInFlight(table);
      SubsetSize(table.Keys, before.Keys);
      assert |table.Keys| == |table| && |before.Keys| == |before|;
      released := |before| - |table|;
    }
  }

  lemma SubsetSize(a: set<Key>, b: set<Key>)
    requires a <= b
    ensures |a| <= |b|
  {
    if a != {} {
      var x :| x in a;
      SubsetSize(a - {x}, b - {x});
    }
  }

  /** Try `n` found the key taken, and then free. */
  predicate Vanished(key: Key, world: nat -> Table, n: nat) {
    key in world(2 * n) && key !in world(2 * n + 1)
  }

  /** Try `n` found the key taken and read what took it. */
  predicate ReadAt(key: Key, fp: string, world: nat -> Table, table: Table, r: Claiming, n: nat) {
    && n < CLAIM_TRIES && key in world(2 * n) && table == world(2 * n + 1)
    && key in table && r == Told(table[key], fp)
  }

  /** A claim is refused by what was read, or because the key was taken and freed at every try. */
  predicate Refuses(key: Key, fp: string, world: nat -> Table, table: Table, r: Claiming) {
    || (exists n :: 0 <= n < CLAIM_TRIES && ReadAt(key, fp, world, table, r, n))
    || (r == InFlight && forall n :: 0 <= n < CLAIM_TRIES ==> Vanished(key, world, n))
  }

  /** Alone, one insert decides: the key is claimed exactly when nothing has it. */
  lemma AloneClaimsFreeKeys(key: Key, fp: string, world: nat -> Table, t: Table, r: Claiming)
    requires forall i :: world(i) == t
    requires !r.KeyClaimed? && Refuses(key, fp, world, t, r)
    ensures key in t && r == Told(t[key], fp)
  {
    NothingVanishes(key, world, t);
  }

  lemma NothingVanishes(key: Key, world: nat -> Table, t: Table)
    requires forall i :: world(i) == t
    ensures !Vanished(key, world, 0)
  {
  }

  /** A recorded answer is what the next request with its key and body is told, and no other body. */
  lemma RecordedIsReplayed(t: Table, a: Answer, fp: string)
    requires Records(t, a)
    ensures a.key in RecordAnswer(t, a)
    ensures Told(RecordAnswer(t, a)[a.key], fp) == if fp == a.fp then Replay(a.status, a.body) else OtherBody
  {
  }
}
