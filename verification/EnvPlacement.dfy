/**
  Where a new declaration may go: at a line start, exactly when no quoted value spans
  it. The end of a file that is empty or ends in a line break is one; what other ends
  admit is in EnvAppend.
 */
module EnvPlacement {
  import opened EnvScan
  import opened EnvLocal
  import opened EnvEdit
  import opened EnvLaws
  import opened EnvInsert
  import opened EnvQuoted

  lemma {:induction false} SlotAtEnd(sc: Scanner, s: string, sts: seq<Statement>)
    requires sc.Scan(s) == Ok(sts) && InsertOk(sc, s, |s|)
    ensures Slot(sc, s, |s|) == |sts|
    decreases |s|
  {
    hide sc.First, sc.Start, sc.Scan, InsertOk, Slot, Closed;
    InsertSplit(sc, s, |s|);
    if Before(sc, s, |s|) {
      NothingStarts(sc, s, sts);
    } else {
      var o := sc.Start(s).value;
      var l := sc.First(s[o..]).value;
      HeadIsScanned(sc, s, o, l, sts);
      SlotAtEnd(sc, s[o + l.next..], sc.Scan(s[o + l.next..]).value);
    }
  }

  lemma NothingStarts(sc: Scanner, s: string, sts: seq<Statement>)
    requires sc.Scan(s) == Ok(sts) && Before(sc, s, |s|)
    ensures sts == []
  {
    hide sc.First, sc.Start;
  }

  /** Declarations are appended after every statement of a file that is empty or ends in a line break. */
  lemma AppendIsPlanned(sc: Scanner, s: string, sts: seq<Statement>)
    requires sc.Scan(s) == Ok(sts) && LineStart(s, |s|)
    ensures InsertOk(sc, s, |s|) && Slot(sc, s, |s|) == |sts|
  {
    hide sc.Scan, InsertOk, Slot;
    if exists i :: 0 <= i < |sts| && Spans(sts[i], |s|) {
      var i :| 0 <= i < |sts| && Spans(sts[i], |s|);
      QuotedEndsInside(sc, s, sts, i);
      assert false;
    }
    InsertOkOutsideQuotes(sc, s, sts, |s|);
    SlotAtEnd(sc, s, sts);
  }

  lemma {:induction false} QuotedEndsInside(sc: Scanner, s: string, sts: seq<Statement>, i: nat)
    requires sc.Scan(s) == Ok(sts) && i < |sts| && !sts[i].inherited && sts[i].quote != NO_QUOTE
    ensures sts[i].valueEnd < |s|
    decreases |s|
  {
    hide sc.Scan, sc.First, sc.Start;
    var o, l, rest := ScanHead(sc, s, sts);
    FirstBounds(sc, s[o..], l);
    if i == 0 {
      FirstCloses(sc, s[o..], l);
    } else {
      assert sts[i] == Shift(rest[i - 1], o + l.next);
      QuotedEndsInside(sc, s[o + l.next..], rest, i - 1);
    }
  }

  lemma DeclarationIsPlain(name: string, v: string, eol: string)
    requires ValidName(name) && SafeValue(v) && eol in EOLS
    ensures Plain(DeclarationLine(name, v, eol))
  {
    var line := DeclarationLine(name, v, eol);
    assert forall i :: 0 <= i < |name| ==> line[i] == name[i] && NameByte(name[i]);
    assert forall i :: 0 <= i < |v| ==> line[|name| + 1 + i] == v[i] && FileSafe(v[i]);
    forall i | 0 <= i < |line|
      ensures !IsQuote(line[i]) && line[i] != '\\'
    {
      if |name| < i < |name| + 1 + |v| {
        assert FileSafe(v[i - |name| - 1]);
      }
    }
  }

  /** `line` inserted at `at` is the one new statement `decl`, before the `k`-th. */
  ghost predicate DeclaredAt(sc: Scanner, s: string, sts: seq<Statement>, at: nat, line: string, decl: Statement, k: nat)
    requires at <= |s|
  {
    k <= |sts| && sc.Scan(Splice(s, at, at, line)) == Ok(InsertedAt(sts, k, decl, |line|))
  }

  /**
    A declaration written at a line start is one new statement, with every other
    statement where it was, exactly when no quoted value spans that line start.
   */
  lemma DeclaredExactlyOutsideQuotes(sc: Scanner, s: string, sts: seq<Statement>, at: nat,
                                     name: string, v: string, eol: string)
    requires sc.Scan(s) == Ok(sts) && at <= |s| && LineStart(s, at)
    requires ValidName(name) && SafeValue(v) && eol in EOLS
    ensures (forall i :: 0 <= i < |sts| ==> !Spans(sts[i], at))
       <==> (exists k :: DeclaredAt(sc, s, sts, at, DeclarationLine(name, v, eol), Declaration(name, v, at), k))
  {
    hide sc.Scan, InsertOk, Slot, Splice, ValidName, SafeValue, DeclarationLine, Plain;
    InsertOkOutsideQuotes(sc, s, sts, at);
    if InsertOk(sc, s, at) {
      InsertScan(sc, s, sts, at, name, v, eol);
      assert DeclaredAt(sc, s, sts, at, DeclarationLine(name, v, eol), Declaration(name, v, at), Slot(sc, s, at));
    } else {
      DeclarationIsPlain(name, v, eol);
      var i := InsideQuotes(sc, s, sts, at, DeclarationLine(name, v, eol));
    }
  }

  /** The line start of a token: after the last line break before it, and after a byte order mark. */
  method LineStartBefore(s: string, from: nat, at: nat) returns (start: nat)
    requires from <= at <= |s|
    ensures from <= start <= at
    ensures start == from || s[start - 1] == '\n'
    ensures '\n' !in s[start..at]
  {
    start := at;
    while start > from && s[start - 1] != '\n'
      invariant from <= start <= at
      invariant '\n' !in s[start..at]
    {
      start := start - 1;
      assert s[start..at] == [s[start]] + s[start + 1..at];
    }
  }

  /** A declaration at the line start of a value precedes the statement of that value. */
  lemma DeclaredBeforeUse(sc: Scanner, s: string, sts: seq<Statement>, at: nat, use: nat)
    requires sc.Scan(s) == Ok(sts) && InsertOk(sc, s, at) && use < |sts| && !sts[use].inherited
    requires at <= sts[use].valueStart
    ensures Slot(sc, s, at) <= use
  {
    hide sc.Scan, InsertOk, Slot;
    SlotSeparates(sc, s, sts, at);
    ScanOrdered(sc, s, sts);
  }
}
