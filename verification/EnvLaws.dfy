/**
  The laws of editing an env file, over whole texts: what the scan of the edited
  text is, statement by statement, in terms of the scan of the original.
 */
module EnvLaws {
  import opened Text
  import opened EnvScan
  import opened EnvLocal
  import opened EnvEdit

  // ---- the shape of a scan ----------------------------------------------------

  lemma BareEndsInBreak(sc: Scanner, s: string, l: Located)
    requires s != "" && sc.First(s) == Ok(l) && l.st.inherited
    ensures s[l.next - 1] == '\n' && l.st.quote == NO_QUOTE
  {
    hide sc.FindSeparator, ExportLength, EnvSpaces, TrimRight, Value;
    var e := ExportLength(s);
    assert s[e..][l.next - 1 - e] == s[l.next - 1];
  }

  lemma ValueCloses(v: string, key: string, m: Located)
    requires Value(v, key) == Ok(m)
    ensures m.next < |v| ==> m.next > 0 && Closed(v, m)
    ensures m.next > 0 && Closed(v, m) ==> m.st.valueEnd < m.next
  {
    hide QuotedEnd, UnquotedValue, UnquotedLine;
    UnquotedFits(v);
    UnquotedStopsAtBreak(v);
    if m.st.quote == NO_QUOTE {
      assert m.st.valueEnd <= |UnquotedLine(v)|;
    }
  }

  /** Every statement with text after it is closed, and ends past its value. */
  lemma FirstCloses(sc: Scanner, s: string, l: Located)
    requires s != "" && sc.First(s) == Ok(l)
    ensures l.next < |s| ==> Closed(s, l)
    ensures !l.st.inherited && Closed(s, l) ==> l.st.valueEnd < l.next
  {
    if l.st.inherited {
      BareEndsInBreak(sc, s, l);
    } else {
      hide sc.First, Value, sc.LocateKey, EnvSpaces, TrimRight;
      var head, at, m := ValuedOfFirst(sc, s, l);
      ValueCloses(s[at..], TrimRight(head.key), m);
      if m.next == 0 && Closed(s, l) {
        var k := head.keyEnd;
        hide Closed;
        if at > k {
          EnvSpacesHoldNoBreak(s[k..], at - 1 - k);
          assert false;
        } else {
          KeyEndsInNoBreak(sc, s, head);
        }
      }
    }
  }

  lemma KeyEndsInNoBreak(sc: Scanner, s: string, head: KeyHead)
    requires sc.LocateKey(s) == Ok(head) && !head.inherited && 0 < head.keyEnd == |s|
    ensures s[head.keyEnd - 1] != '\n'
  {
    hide sc.FindSeparator, ExportLength;
    var e := ExportLength(s);
    assert sc.FindSeparator(s[e..]).At?;
    assert s[e..][head.keyEnd - 1 - e] == s[head.keyEnd - 1];
  }

  /** The first statement of a scan, and the scan of the rest. */
  lemma ScanHead(sc: Scanner, s: string, sts: seq<Statement>)
    returns (o: nat, l: Located, rest: seq<Statement>)
    requires sc.Scan(s) == Ok(sts) && sts != []
    ensures Head(sc, s, o, l) && o + l.next <= |s|
    ensures sc.Scan(s[o + l.next..]) == Ok(rest)
    ensures sts == [Shift(l.st, o)] + ShiftAll(rest, o + l.next)
  {
    hide sc.First, sc.Start;
    o := sc.Start(s).value;
    l := sc.First(s[o..]).value;
    rest := sc.Scan(s[o + l.next..]).value;
  }

  lemma ScanOfHead(sc: Scanner, s: string, o: nat, l: Located, rest: seq<Statement>)
    requires Head(sc, s, o, l) && sc.Scan(s[o + l.next..]) == Ok(rest)
    ensures sc.Scan(s) == Ok([Shift(l.st, o)] + ShiftAll(rest, o + l.next))
  {
    hide sc.First, sc.Start;
  }

  /** Value tokens lie inside the text, in order, with at least one byte between two of them. */
  ghost predicate Ordered(sts: seq<Statement>, from: int, to: int) {
    && (forall i :: 0 <= i < |sts| && !sts[i].inherited ==> from <= sts[i].valueStart <= sts[i].valueEnd <= to)
    && (forall i, j :: 0 <= i < j < |sts| && !sts[i].inherited && !sts[j].inherited ==>
          sts[i].valueEnd < sts[j].valueStart)
  }

  lemma {:induction false} ScanOrdered(sc: Scanner, s: string, sts: seq<Statement>)
    requires sc.Scan(s) == Ok(sts)
    ensures Ordered(sts, 0, |s|)
    decreases |s|
  {
    if sts != [] {
      var o, l, rest := ScanHead(sc, s, sts);
      hide sc.Scan, sc.First, sc.Start, Ordered, Closed;
      var n := o + l.next;
      ScanOrdered(sc, s[n..], rest);
      FirstCloses(sc, s[o..], l);
      FirstBounds(sc, s[o..], l);
      if n == |s| { EndHoldsNothing(sc, s[n..], rest); }
      OrderedOnto(sts, l, o, rest, |s| - n);
    }
  }

  lemma OrderedOnto(sts: seq<Statement>, l: Located, o: nat, rest: seq<Statement>, to: int)
    requires sts == [Shift(l.st, o)] + ShiftAll(rest, o + l.next) && Ordered(rest, 0, to) && to >= 0
    requires 0 <= l.st.valueStart <= l.st.valueEnd <= l.next
    requires rest != [] && !l.st.inherited ==> l.st.valueEnd < l.next
    ensures Ordered(sts, 0, o + l.next + to)
  {
    assert forall i :: 0 < i < |sts| ==> sts[i] == Shift(rest[i - 1], o + l.next);
  }

  lemma FirstBounds(sc: Scanner, s: string, l: Located)
    requires s != "" && sc.First(s) == Ok(l)
    ensures 0 < l.next <= |s| && 0 <= l.st.valueStart <= l.st.valueEnd <= l.next
  {
  }

  lemma EndHoldsNothing(sc: Scanner, s: string, rest: seq<Statement>)
    requires sc.Scan(s) == Ok(rest) && s == ""
    ensures rest == []
  {
  }

  // ---- replacing one value ----------------------------------------------------

  /** The statements once the value of the `i`-th has `n` bytes. */
  function ReplacedAt(sts: seq<Statement>, i: nat, n: nat): (r: seq<Statement>)
    requires i < |sts|
    ensures |r| == |sts|
  {
    var st := sts[i];
    sts[..i] + [st.(valueEnd := st.valueStart + n)] + ShiftAll(sts[i + 1..], n - (st.valueEnd - st.valueStart))
  }

  lemma {:induction false} ReplaceScan(sc: Scanner, s: string, sts: seq<Statement>, i: nat, v: string)
    requires sc.Scan(s) == Ok(sts) && i < |sts| && !sts[i].inherited && sts[i].key != "" && SafeValue(v)
    ensures 0 <= sts[i].valueStart <= sts[i].valueEnd <= |s|
    ensures sc.Scan(Splice(s, sts[i].valueStart, sts[i].valueEnd, v)) == Ok(ReplacedAt(sts, i, |v|))
    decreases |s|
  {
    hide Closed, SafeValue, sc.Scan, sc.First, sc.Start, ReplacedAt, Splice;
    var o, l, rest := ScanHead(sc, s, sts);
    var n := o + l.next;
    FirstBounds(sc, s[o..], l);
    if i == 0 {
      ReplaceHead(sc, s, sts, o, l, rest, v);
    } else {
      assert sts[i] == Shift(rest[i - 1], n);
      ReplaceScan(sc, s[n..], rest, i - 1, v);
      ReplaceTail(sc, s, sts, o, l, rest, i, v);
    }
  }

  lemma ReplaceTail(sc: Scanner, s: string, sts: seq<Statement>, o: nat, l: Located, rest: seq<Statement>,
                    i: nat, v: string)
    requires Head(sc, s, o, l) && 0 < l.next && o + l.next <= |s|
    requires sts == [Shift(l.st, o)] + ShiftAll(rest, o + l.next) && sc.Scan(s[o + l.next..]) == Ok(rest)
    requires 0 < i < |sts| && !rest[i - 1].inherited
    requires 0 <= rest[i - 1].valueStart <= rest[i - 1].valueEnd <= |s| - o - l.next
    requires sc.Scan(Splice(s[o + l.next..], rest[i - 1].valueStart, rest[i - 1].valueEnd, v))
          == Ok(ReplacedAt(rest, i - 1, |v|))
    ensures 0 <= sts[i].valueStart <= sts[i].valueEnd <= |s|
    ensures sc.Scan(Splice(s, sts[i].valueStart, sts[i].valueEnd, v)) == Ok(ReplacedAt(sts, i, |v|))
  {
    hide sc.Scan, sc.First, sc.Start, ReplacedAt, Head, Splice;
    var n := o + l.next;
    var u := Splice(s[n..], rest[i - 1].valueStart, rest[i - 1].valueEnd, v);
    if n == |s| { EndHoldsNothing(sc, s[n..], rest); }
    ReplaceLater(sc, s, o, l, u);
    SpliceLater(s, n, rest[i - 1].valueStart, rest[i - 1].valueEnd, v);
    ReplacedTail(sts, Shift(l.st, o), rest, n, i, |v|);
  }

  lemma SpliceLater(s: string, n: nat, start: int, end: int, v: string)
    requires n <= |s| && 0 <= start <= end <= |s| - n
    ensures Splice(s, n + start, n + end, v) == s[..n] + Splice(s[n..], start, end, v)
  {
  }

  lemma ReplaceHead(sc: Scanner, s: string, sts: seq<Statement>, o: nat, l: Located, rest: seq<Statement>, v: string)
    requires Head(sc, s, o, l) && o + l.next <= |s| && sc.Scan(s[o + l.next..]) == Ok(rest)
    requires sts == [Shift(l.st, o)] + ShiftAll(rest, o + l.next)
    requires !l.st.inherited && l.st.key != "" && SafeValue(v)
    requires 0 < l.next && 0 <= l.st.valueStart <= l.st.valueEnd <= l.next
    ensures sc.Scan(Splice(s, sts[0].valueStart, sts[0].valueEnd, v)) == Ok(ReplacedAt(sts, 0, |v|))
  {
    hide sc.Scan, sc.First, sc.Start, SafeValue, Head, Splice;
    var t := Splice(s, sts[0].valueStart, sts[0].valueEnd, v);
    ReplaceFirst(sc, s, o, l, v);
    ScanOfHead(sc, t, o, Resized(l, |v|), rest);
    var d := |v| - (l.st.valueEnd - l.st.valueStart);
    assert sts[1..] == ShiftAll(rest, o + l.next);
    assert ShiftAll(sts[1..], d) == ShiftAll(rest, o + Resized(l, |v|).next);
    assert ReplacedAt(sts, 0, |v|) == [Shift(Resized(l, |v|).st, o)] + ShiftAll(sts[1..], d);
  }

  /** A change after the first statement leaves that statement first. */
  lemma ReplaceLater(sc: Scanner, s: string, o: nat, l: Located, u: string)
    requires Head(sc, s, o, l) && 0 < l.next && o + l.next < |s|
    ensures sc.Scan(s[..o + l.next] + u) == Later([Shift(l.st, o)], o + l.next, sc.Scan(u))
    ensures Head(sc, s[..o + l.next] + u, o, l)
  {
    hide sc.Scan, sc.First, sc.Start;
    FirstCloses(sc, s[o..], l);
    HeadKept(sc, s, o, l, u);
  }

  lemma ReplacedTail(sts: seq<Statement>, st: Statement, rest: seq<Statement>, n: int, i: nat, k: nat)
    requires sts == [st] + ShiftAll(rest, n) && 0 < i < |sts| && !sts[i].inherited
    ensures ReplacedAt(sts, i, k) == [st] + ShiftAll(ReplacedAt(rest, i - 1, k), n)
  {
  }

  lemma ReplaceFirst(sc: Scanner, s: string, o: nat, l: Located, v: string)
    requires Head(sc, s, o, l) && !l.st.inherited && l.st.key != "" && SafeValue(v)
    requires 0 < o + l.next <= |s| && 0 <= l.st.valueStart <= l.st.valueEnd <= l.next
    ensures var t := Splice(s, o + l.st.valueStart, o + l.st.valueEnd, v);
      Head(sc, t, o, Resized(l, |v|)) && t[o + Resized(l, |v|).next..] == s[o + l.next..]
  {
    hide sc.First, sc.Start, SafeValue, Splice;
    var t := Splice(s, o + l.st.valueStart, o + l.st.valueEnd, v);
    var x := s[o..];
    var y := Splice(x, l.st.valueStart, l.st.valueEnd, v);
    SpliceParts(s, o, o, l.st.valueStart, l.st.valueEnd, v);
    StartBlank(sc, s, o);
    FirstReplaced(sc, x, l, v);
    StartReplaced(sc, x, l, v);
    BlankSkips(sc, s[..o], y);
    assert t == s[..o] + y;
    assert t[o + Resized(l, |v|).next..] == y[Resized(l, |v|).next..];
    assert s[o + l.next..] == x[l.next..];
  }

  lemma StartReplaced(sc: Scanner, s: string, l: Located, v: string)
    requires sc.Start(s) == Some(0) && sc.First(s) == Ok(l) && !l.st.inherited && l.st.key != ""
    requires l.st.valueStart <= l.st.valueEnd
    ensures sc.Start(Splice(s, l.st.valueStart, l.st.valueEnd, v)) == Some(0)
  {
    hide sc.First, sc.LocateKey, Value, EnvSpaces, TrimRight, Separated, sc.Start;
    var head, at, m := ValuedOfFirst(sc, s, l);
    KeyIsSeparated(sc, s, head);
    LocateKeyLocal(sc, s, s, head);
    var t := Splice(s, l.st.valueStart, l.st.valueEnd, v);
    var k := head.keyEnd - 1;
    assert s[..k + 1] == t[..k + 1];
    SeparatorByte(sc, s, head);
    StartZeroLocal(sc, s, t, k);
  }

  lemma SeparatorByte(sc: Scanner, s: string, head: KeyHead)
    requires sc.LocateKey(s) == Ok(head) && Separated(sc, s) && 0 < head.keyEnd <= |s|
    ensures IsSeparator(s[head.keyEnd - 1])
  {
    hide sc.FindSeparator, ExportLength;
    var e := ExportLength(s);
    assert s[e..][head.keyEnd - 1 - e] == s[head.keyEnd - 1];
  }
}
