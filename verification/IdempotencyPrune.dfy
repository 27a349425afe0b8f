/**
  The bounds of the Idempotency-Key table (idempotency.go). Rows are in insertion
  order, oldest first, which is the order of their row ids.
 */
module IdempotencyPrune {
  datatype Row = Row(key: string, done: bool, body: string, created: int, proc: string)

  const MAX_ROWS := 5000
  const MAX_BODY_BYTES := 2 * 1024 * 1024

  function Size(r: Row): nat {
    |r.body| + |r.key|
  }

  // ---- the three statements -----------------------------------------------------------

  predicate Aged(r: Row, cutoff: int, proc: string, upLong: bool) {
    r.created < cutoff && (r.proc != proc || upLong)
  }

  /** Rows created before the window go, but this process's own only once it has been up for longer. */
  function ByAge(rows: seq<Row>, cutoff: int, proc: string, upLong: bool): (r: seq<Row>)
    ensures forall x :: x in r ==> x in rows
    ensures forall x :: x in rows && x.created >= cutoff ==> x in r
    ensures forall x: Row :: x.created < cutoff && x.proc != proc ==> x !in r
    ensures forall x: Row :: x.created < cutoff && x.proc == proc ==> (x in r <==> x in rows && !upLong)
  {
    if rows == [] then []
    else (if Aged(rows[0], cutoff, proc, upLong) then [] else [rows[0]]) + ByAge(rows[1..], cutoff, proc, upLong)
  }

  function Done(rows: seq<Row>): (r: seq<Row>)
    ensures |r| <= |rows|
  {
    if rows == [] then [] else (if rows[0].done then [rows[0]] else []) + Done(rows[1..])
  }

  function Bytes(rows: seq<Row>): nat {
    if rows == [] then 0 else Size(rows[0]) + Bytes(rows[1..])
  }

  /** A recorded row goes when as many newer ones as the cap are recorded. */
  function ByRows(rows: seq<Row>): seq<Row> {
    if rows == [] then []
    else (if rows[0].done && |Done(rows[1..])| >= MAX_ROWS then [] else [rows[0]]) + ByRows(rows[1..])
  }

  /** A recorded row goes when it and the newer ones exceed the byte cap. */
  function ByBytes(rows: seq<Row>): seq<Row> {
    if rows == [] then []
    else (if rows[0].done && Bytes(Done(rows)) > MAX_BODY_BYTES then [] else [rows[0]]) + ByBytes(rows[1..])
  }

  function BySize(rows: seq<Row>): seq<Row> {
    ByBytes(ByRows(rows))
  }

  // ---- what survives ----------------------------------------------------------------------

  predicate Fits(rows: seq<Row>) {
    |rows| <= MAX_ROWS && Bytes(rows) <= MAX_BODY_BYTES
  }

  /** The longest newest run within both caps. */
  function Newest(rows: seq<Row>): (r: seq<Row>)
    ensures Fits(r) && |r| <= |rows| && r == rows[|rows| - |r|..]
  {
    if Fits(rows) then rows else Newest(rows[1..])
  }

  /** No longer newest run is within the caps. */
  lemma {:induction false} NewestIsLongest(rows: seq<Row>, n: nat)
    requires n <= |rows| && Fits(rows[n..])
    ensures |rows| - |Newest(rows)| <= n
  {
    if !Fits(rows) {
      assert rows[n..] == rows[1..][n - 1..];
      NewestIsLongest(rows[1..], n - 1);
    }
  }

  /** `rows` without its `n` oldest recorded rows. */
  function WithoutOldest(rows: seq<Row>, n: nat): seq<Row> {
    if rows == [] then []
    else if rows[0].done && n > 0 then WithoutOldest(rows[1..], n - 1)
    else [rows[0]] + WithoutOldest(rows[1..], n)
  }

  lemma {:induction false} WithoutNone(rows: seq<Row>)
    ensures WithoutOldest(rows, 0) == rows
  {
    if rows != [] {
      WithoutNone(rows[1..]);
    }
  }

  lemma {:induction false} DoneWithout(rows: seq<Row>, n: nat)
    requires n <= |Done(rows)|
    ensures Done(WithoutOldest(rows, n)) == Done(rows)[n..]
  {
    if rows != [] {
      if rows[0].done && n > 0 {
        DoneWithout(rows[1..], n - 1);
      } else if rows[0].done {
        WithoutNone(rows);
      } else {
        DoneWithout(rows[1..], n);
        assert ([rows[0]] + WithoutOldest(rows[1..], n))[1..] == WithoutOldest(rows[1..], n);
      }
    }
  }

  lemma {:induction false} WithoutTwice(rows: seq<Row>, n: nat, m: nat)
    requires n + m <= |Done(rows)|
    ensures WithoutOldest(WithoutOldest(rows, n), m) == WithoutOldest(rows, n + m)
  {
    if rows != [] {
      if rows[0].done && n > 0 {
        WithoutTwice(rows[1..], n - 1, m);
      } else if rows[0].done {
        WithoutNone(rows);
      } else {
        WithoutTwice(rows[1..], n, m);
        assert ([rows[0]] + WithoutOldest(rows[1..], n))[1..] == WithoutOldest(rows[1..], n);
      }
    }
  }

  lemma DoneFirst(rows: seq<Row>)
    requires rows != []
    ensures rows[0].done ==> Done(rows) != [] && Done(rows)[0] == rows[0] && Done(rows)[1..] == Done(rows[1..])
    ensures rows[0].done ==> |Done(rows)| == 1 + |Done(rows[1..])| && Bytes(Done(rows)) == Size(rows[0]) + Bytes(Done(rows[1..]))
    ensures !rows[0].done ==> Done(rows) == Done(rows[1..])
  {
  }

  function RowsOver(n: nat): nat {
    if n <= MAX_ROWS then 0 else n - MAX_ROWS
  }

  lemma {:induction false} ByRowsIs(rows: seq<Row>)
    ensures ByRows(rows) == WithoutOldest(rows, RowsOver(|Done(rows)|))
  {
    if rows != [] {
      ByRowsIs(rows[1..]);
      DoneFirst(rows);
      hide Done;
      if |Done(rows)| <= MAX_ROWS {
        WithoutNone(rows);
        WithoutNone(rows[1..]);
      }
    }
  }

  /** How many recorded rows the byte cap removes. */
  function Excess(rows: seq<Row>): (n: nat)
    ensures n <= |rows|
  {
    if Bytes(rows) <= MAX_BODY_BYTES then 0 else 1 + Excess(rows[1..])
  }

  lemma {:induction false} ByBytesIs(rows: seq<Row>)
    ensures ByBytes(rows) == WithoutOldest(rows, Excess(Done(rows)))
  {
    if rows != [] {
      ByBytesIs(rows[1..]);
      DoneFirst(rows);
      hide Done;
      if Bytes(Done(rows)) <= MAX_BODY_BYTES {
        WithoutNone(rows);
        WithoutNone(rows[1..]);
      } else if rows[0].done {
        assert Excess(Done(rows)) == 1 + Excess(Done(rows[1..]));
      }
    }
  }

  lemma {:induction false} ExcessOfFew(rows: seq<Row>)
    requires |rows| <= MAX_ROWS
    ensures Excess(rows) == |rows| - |Newest(rows)|
  {
    if Bytes(rows) > MAX_BODY_BYTES {
      ExcessOfFew(rows[1..]);
    }
  }

  lemma {:induction false} ExcessOfSuffix(rows: seq<Row>)
    ensures RowsOver(|rows|) + Excess(rows[RowsOver(|rows|)..]) == |rows| - |Newest(rows)|
  {
    hide Bytes, Excess;
    if |rows| <= MAX_ROWS {
      assert rows[0..] == rows;
      ExcessOfFew(rows);
    } else {
      var k := |rows| - MAX_ROWS;
      assert rows[1..][k - 1..] == rows[k..];
      ExcessOfSuffix(rows[1..]);
    }
  }

  /**
    The size stages remove exactly the oldest recorded rows beyond the longest newest
    run within both caps: rows in flight stay, and so does the order.
   */
  lemma BySizeExactly(rows: seq<Row>)
    ensures BySize(rows) == WithoutOldest(rows, |Done(rows)| - |Newest(Done(rows))|)
    ensures Done(BySize(rows)) == Newest(Done(rows))
  {
    hide *;
    RowsOverInside(|Done(rows)|);
    ByStages(rows);
    ExcessOfSuffix(Done(rows));
    NewestIsSuffix(rows);
  }

  lemma ByStages(rows: seq<Row>)
    ensures RowsOver(|Done(rows)|) <= |Done(rows)|
    ensures var k := RowsOver(|Done(rows)|);
      BySize(rows) == WithoutOldest(rows, k + Excess(Done(rows)[k..]))
  {
    hide *;
    RowsOverInside(|Done(rows)|);
    var k := RowsOver(|Done(rows)|);
    var r := ByRows(rows);
    ByRowsIs(rows);
    DoneWithout(rows, k);
    ByBytesIs(r);
    var m := Excess(Done(r));
    WithoutTwice(rows, k, m);
    BySizeIs(rows);
  }

  lemma NewestIsSuffix(rows: seq<Row>)
    ensures |Newest(Done(rows))| <= |Done(rows)|
    ensures Done(WithoutOldest(rows, |Done(rows)| - |Newest(Done(rows))|)) == Newest(Done(rows))
  {
    hide *;
    var done := Done(rows);
    var newest := Newest(done);
    DoneWithout(rows, |done| - |newest|);
  }

  lemma RowsOverInside(n: nat)
    ensures RowsOver(n) <= n
  {
  }

  lemma BySizeIs(rows: seq<Row>)
    ensures BySize(rows) == ByBytes(ByRows(rows))
  {
  }

  lemma {:induction false} InFlightStay(rows: seq<Row>, n: nat)
    ensures forall x :: x in rows && !x.done ==> x in WithoutOldest(rows, n)
  {
    if rows != [] {
      InFlightStay(rows[1..], if rows[0].done && n > 0 then n - 1 else n);
    }
  }

  /** Repeating the size stages changes nothing, and they never remove a row in flight. */
  lemma BySizeTwice(rows: seq<Row>)
    ensures BySize(BySize(rows)) == BySize(rows)
    ensures forall x :: x in rows && !x.done ==> x in BySize(rows)
  {
    hide *;
    BySizeExactly(rows);
    BySizeExactly(BySize(rows));
    InFlightStay(rows, |Done(rows)| - |Newest(Done(rows))|);
    NewestTwice(Done(rows));
    WithoutNone(BySize(rows));
  }

  lemma NewestTwice(rows: seq<Row>)
    ensures Newest(Newest(rows)) == Newest(rows)
  {
    hide Bytes;
  }

  /** The age stage does not exempt a row in flight. */
  lemma AgeTakesInFlight(r: Row, cutoff: int, proc: string)
    requires !r.done && r.created < cutoff
    ensures r !in ByAge([r], cutoff, proc, true)
  {
  }
}
