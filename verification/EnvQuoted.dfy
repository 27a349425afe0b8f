/**
  A line start inside a quoted value. A line break there does not start a
  statement, so a declaration written at that line start becomes part of the
  value: an insertion is one new statement exactly when no quoted value spans it.
 */
module EnvQuoted {
  import opened Text
  import opened EnvScan
  import opened EnvLocal
  import opened EnvEdit
  import opened EnvLaws
  import opened EnvInsert

  /** Whether `at` falls between the quotes of a statement's value. */
  predicate Spans(st: Statement, at: int) {
    !st.inherited && st.quote != NO_QUOTE && st.valueStart <= at <= st.valueEnd
  }

  // ---- where the line breaks of a statement are -----------------------------------

  lemma {:induction false} SeparatorBreak(sc: Scanner, s: string, k: nat, j: nat)
    requires sc.FindSeparator(s) == At(k) && j < k
    ensures s[j] != '\n'
    decreases j
  {
    var n := DecodeRune(s).size;
    assert sc.IsKeyRune(DecodeRune(s).code);
    if j < n {
      assert j > 0 ==> IsContinuation(s[j]);
    } else {
      hide DecodeRune, sc.IsKeyRune;
      SeparatorBreak(sc, s[n..], k - n, j - n);
    }
  }

  lemma ExportBreak(s: string, j: nat)
    requires j < ExportLength(s)
    ensures s[j] != '\n'
  {
    hide EnvSpaces;
    if j < 6 {
      assert s[..6][j] == EXPORT[j];
    } else {
      EnvSpacesHoldNoBreak(s[6..], j - 6);
    }
  }

  lemma KeyBreak(sc: Scanner, s: string, head: KeyHead, j: nat)
    requires sc.LocateKey(s) == Ok(head) && j < |s| && s[j] == '\n'
    ensures if Separated(sc, s) then j >= head.keyEnd - 1 else false
  {
    hide sc.FindSeparator, ExportLength;
    var e := ExportLength(s);
    if j < e {
      ExportBreak(s, j);
    } else if Separated(sc, s) {
      assert s[e..][j - e] == s[j];
      if j < head.keyEnd - 1 {
        SeparatorBreak(sc, s[e..], head.keyEnd - 1 - e, j - e);
      }
    } else {
      MissingSeparator(sc, s[e..], j - e);
    }
  }

  lemma ValueBreak(v: string, key: string, m: Located, j: nat)
    requires Value(v, key) == Ok(m) && j < m.next && v[j] == '\n'
    ensures if m.st.quote == NO_QUOTE then j == m.next - 1 else m.st.valueStart <= j < m.st.valueEnd
  {
    hide QuotedEnd, UnquotedLine, UnquotedValue;
    UnquotedStopsAtBreak(v);
  }

  /** A line break in a statement either ends it or is inside its quotes. */
  lemma FirstBreak(sc: Scanner, s: string, l: Located, j: nat)
    requires s != "" && sc.First(s) == Ok(l) && j < l.next && s[j] == '\n'
    ensures if l.st.inherited || l.st.quote == NO_QUOTE then j == l.next - 1
            else l.st.valueStart <= j < l.st.valueEnd
  {
    if l.st.inherited {
      hide sc.LocateKey, TrimRight, EnvSpaces, Value, Separated;
      KeyBreak(sc, s, sc.LocateKey(s).value, j);
    } else {
      hide sc.First, sc.LocateKey, TrimRight, EnvSpaces, Value, Separated;
      var head, at, m := ValuedOfFirst(sc, s, l);
      KeyBreak(sc, s, head, j);
      LocateKeyLocal(sc, s, s, head);
      var k := head.keyEnd;
      if j < at {
        EnvSpacesHoldNoBreak(s[k..], j - k);
        assert false;
      }
      assert s[at..][j - at] == s[j];
      ValueBreak(s[at..], TrimRight(head.key), m, j - at);
    }
  }

  // ---- the insertion is safe exactly outside the quotes ----------------------------

  lemma {:induction false} InsertOkOutsideQuotes(sc: Scanner, s: string, sts: seq<Statement>, at: nat)
    requires sc.Scan(s) == Ok(sts) && at <= |s| && LineStart(s, at)
    ensures InsertOk(sc, s, at) <==> forall i :: 0 <= i < |sts| ==> !Spans(sts[i], at)
    decreases |s|
  {
    hide sc.First, sc.Start, sc.Scan, InsertOk, Closed, Slot;
    if Before(sc, s, at) {
      InsertOkBefore(sc, s, at);
      SlotSeparates(sc, s, sts, at);
      NoneSpans(sc, s, sts, at);
    } else {
      StartIsScanned(sc, s, sts);
      var o, l, rest := ScanHead(sc, s, sts);
      var n := o + l.next;
      FirstBounds(sc, s[o..], l);
      if n <= at {
        assert LineStart(s[n..], at - n) by { assert at > n ==> s[n..][at - n - 1] == s[at - 1]; }
        InsertOkOutsideQuotes(sc, s[n..], rest, at - n);
        InsertOkSteps(sc, s, at, o, l);
        FirstCloses(sc, s[o..], l);
        ClosedAtLine(sc, s, o, l, at);
        SpansOnto(sts, l, o, rest, at);
      } else {
        assert s[o..][at - 1 - o] == s[at - 1] == '\n';
        FirstBreak(sc, s[o..], l, at - 1 - o);
        NotInsertOk(sc, s, at, o, l);
        assert Spans(sts[0], at);
      }
    }
  }

  lemma StartIsScanned(sc: Scanner, s: string, sts: seq<Statement>)
    requires sc.Scan(s) == Ok(sts) && sc.Start(s).Some?
    ensures sts != []
  {
    hide sc.First, sc.Start;
  }

  lemma NoneSpans(sc: Scanner, s: string, sts: seq<Statement>, at: nat)
    requires sc.Scan(s) == Ok(sts) && at <= |s| && LineStart(s, at) && Before(sc, s, at)
    requires InsertOk(sc, s, at) && Slot(sc, s, at) == 0
    ensures forall i :: 0 <= i < |sts| ==> !Spans(sts[i], at)
  {
    hide sc.First, sc.Start, sc.Scan, InsertOk, Slot;
    if sts != [] {
      var o, l, rest := ScanHead(sc, s, sts);
      QuotesPrecedeValue(sc, s[o..], l);
      FirstBounds(sc, s[o..], l);
      ScanOrdered(sc, s[o + l.next..], rest);
      assert forall i :: 0 < i < |sts| ==> sts[i] == Shift(rest[i - 1], o + l.next);
    }
  }

  lemma QuotesPrecedeValue(sc: Scanner, s: string, l: Located)
    requires s != "" && sc.First(s) == Ok(l)
    ensures !l.st.inherited && l.st.quote != NO_QUOTE ==> 0 < l.st.valueStart
  {
    hide sc.LocateKey, TrimRight, EnvSpaces, QuotedEnd, UnquotedValue, UnquotedLine;
  }

  lemma InsertOkSteps(sc: Scanner, s: string, at: nat, o: nat, l: Located)
    requires Head(sc, s, o, l) && 0 < l.next && o + l.next <= at <= |s| && LineStart(s, at)
    ensures InsertOk(sc, s, at) <==> InsertOk(sc, s[o + l.next..], at - o - l.next)
  {
    hide sc.First, sc.Start;
  }

  lemma NotInsertOk(sc: Scanner, s: string, at: nat, o: nat, l: Located)
    requires Head(sc, s, o, l) && o < at < o + l.next && at <= |s|
    ensures !InsertOk(sc, s, at)
  {
    hide sc.First, sc.Start;
  }

  /** A statement that ends at or before a line start is closed. */
  lemma ClosedAtLine(sc: Scanner, s: string, o: nat, l: Located, at: nat)
    requires Head(sc, s, o, l) && 0 < l.next && o + l.next <= at <= |s| && LineStart(s, at)
    ensures Closed(s[o..], l)
  {
    hide sc.First, sc.Start;
    FirstCloses(sc, s[o..], l);
    if o + l.next == |s| {
      assert s[o..][l.next - 1] == s[at - 1];
    }
  }

  lemma SpansOnto(sts: seq<Statement>, l: Located, o: nat, rest: seq<Statement>, at: nat)
    requires sts == [Shift(l.st, o)] + ShiftAll(rest, o + l.next) && o + l.next <= at
    requires !l.st.inherited ==> l.st.valueEnd < l.next
    ensures (forall i :: 0 <= i < |sts| ==> !Spans(sts[i], at))
       <==> (forall i :: 0 <= i < |rest| ==> !Spans(rest[i], at - o - l.next))
  {
    var n := o + l.next;
    hide Spans, Shift;
    NotSpanned(l.st, o, at);
    if forall i :: 0 <= i < |rest| ==> !Spans(rest[i], at - n) {
      forall i | 0 <= i < |sts|
        ensures !Spans(sts[i], at)
      {
        if i > 0 { SpansShifted(rest[i - 1], n, at); }
      }
    } else {
      var i :| 0 <= i < |rest| && Spans(rest[i], at - n);
      SpansShifted(rest[i], n, at);
      assert Spans(sts[i + 1], at);
    }
  }

  lemma NotSpanned(st: Statement, o: int, at: int)
    requires !st.inherited ==> o + st.valueEnd < at
    ensures !Spans(Shift(st, o), at)
  {
  }

  lemma SpansShifted(st: Statement, n: int, at: int)
    ensures Spans(Shift(st, n), at) <==> Spans(st, at - n)
  {
  }

  // ---- inside the quotes nothing is declared ----------------------------------------

  lemma {:induction false} QuotedShift(s: string, t: string, quote: char, i: nat, d: nat, escaped: bool)
    requires i <= |s| && i + d <= |t| && s[i..] == t[i + d..]
    ensures QuotedEnd(t, quote, i + d, escaped) == AfterSkip(d, QuotedEnd(s, quote, i, escaped))
    decreases |s| - i
  {
    assert |s| - i == |t| - i - d;
    if i < |s| {
      assert s[i] == s[i..][0] == t[i + d];
      assert s[i + 1..] == s[i..][1..] == t[i + d + 1..];
      if s[i] != quote {
        QuotedShift(s, t, quote, i + 1, d, !escaped && s[i] == '\\');
      } else if escaped {
        QuotedShift(s, t, quote, i + 1, d, false);
      }
    }
  }

  predicate Plain(line: string) {
    forall i :: 0 <= i < |line| ==> !IsQuote(line[i]) && line[i] != '\\'
  }

  lemma {:induction false} QuotedPast(t: string, quote: char, line: string, j: nat, i: nat)
    requires j <= i <= j + |line| <= |t| && t[j..j + |line|] == line && Plain(line) && IsQuote(quote)
    ensures QuotedEnd(t, quote, i, false) == QuotedEnd(t, quote, j + |line|, false)
    decreases j + |line| - i
  {
    if i < j + |line| {
      assert t[i] == line[i - j];
      QuotedPast(t, quote, line, j, i + 1);
    }
  }

  lemma {:induction false} QuotedInserted(s: string, quote: char, line: string, j: nat, i: nat, escaped: bool)
    requires i <= j <= |s| && j > 0 && s[j - 1] == '\n' && IsQuote(quote) && Plain(line)
    requires QuotedEnd(s, quote, i, escaped).Some? && j <= QuotedEnd(s, quote, i, escaped).value
    requires i == j ==> !escaped
    ensures QuotedEnd(Splice(s, j, j, line), quote, i, escaped)
         == AfterSkip(|line|, QuotedEnd(s, quote, i, escaped))
    decreases j - i
  {
    var t := Splice(s, j, j, line);
    if i == j {
      assert t[j..j + |line|] == line;
      assert s[j..] == t[j + |line|..];
      QuotedPast(t, quote, line, j, j);
      QuotedShift(s, t, quote, j, |line|, false);
    } else {
      assert t[i] == s[i];
      if s[i] != quote {
        QuotedInserted(s, quote, line, j, i + 1, !escaped && s[i] == '\\');
      } else if escaped {
        QuotedInserted(s, quote, line, j, i + 1, false);
      }
    }
  }

  function Grown(m: Located, n: nat): Located {
    Located(m.st.(valueEnd := m.st.valueEnd + n), m.next + n)
  }

  lemma ValueInserted(v: string, key: string, m: Located, j: nat, line: string)
    requires Value(v, key) == Ok(m) && m.st.quote != NO_QUOTE && m.st.valueStart < j <= m.st.valueEnd
    requires v[j - 1] == '\n' && Plain(line)
    ensures Value(Splice(v, j, j, line), key) == Ok(Grown(m, |line|))
  {
    hide QuotedEnd, UnquotedLine, UnquotedValue;
    QuotedInserted(v, v[0], line, j, 1, false);
  }

  lemma FirstInserted(sc: Scanner, s: string, l: Located, j: nat, line: string)
    requires s != "" && sc.First(s) == Ok(l) && !l.st.inherited && l.st.quote != NO_QUOTE
    requires l.st.valueStart < j <= l.st.valueEnd && j <= |s| && s[j - 1] == '\n' && Plain(line)
    ensures Splice(s, j, j, line) != "" && sc.First(Splice(s, j, j, line)) == Ok(Grown(l, |line|))
  {
    hide sc.First, sc.LocateKey, TrimRight, EnvSpaces, Value, Separated, Splice;
    ClosedIsSeparated(sc, s, l);
    var head, at, m := ValuedOfFirst(sc, s, l);
    var k := head.keyEnd;
    var t := Splice(s, j, j, line);
    QuotedStart(s[at..], TrimRight(head.key), m);
    SpliceParts(s, k, at, j - at, j - at, line);
    LocateKeyLocal(sc, s, t, head);
    assert s[at..][j - at - 1] == s[j - 1];
    ValueInserted(s[at..], TrimRight(head.key), m, j - at, line);
    QuoteStays(s[at..], j - at, line);
    EnvSpacesBefore(s[k..], t[k..]);
    assert t != "";
    FirstOfValued(sc, t, head, at, Grown(m, |line|));
  }

  lemma QuotedStart(v: string, key: string, m: Located)
    requires Value(v, key) == Ok(m) && m.st.quote != NO_QUOTE
    ensures v != "" && IsQuote(v[0]) && m.st.valueStart == 1
  {
  }

  lemma QuoteStays(v: string, j: nat, line: string)
    requires v != "" && IsQuote(v[0]) && 0 < j <= |v|
    ensures var w := Splice(v, j, j, line);
      w != "" && IsAscii(w[0]) && !IsEnvSpace(w[0] as int)
  {
  }

  /** The statements once the value of the `i`-th is `n` bytes longer. */
  function GrownAt(sts: seq<Statement>, i: nat, n: nat): seq<Statement>
    requires i < |sts| && sts[i].valueStart <= sts[i].valueEnd
  {
    ReplacedAt(sts, i, sts[i].valueEnd - sts[i].valueStart + n)
  }

  /** A line inserted inside a quoted value makes that value longer, and no other difference. */
  lemma {:induction false} InsideQuotes(sc: Scanner, s: string, sts: seq<Statement>, at: nat, line: string) returns (i: nat)
    requires sc.Scan(s) == Ok(sts) && at <= |s| && LineStart(s, at) && !InsertOk(sc, s, at) && Plain(line)
    ensures i < |sts| && Spans(sts[i], at) && sts[i].valueStart <= sts[i].valueEnd
    ensures sc.Scan(Splice(s, at, at, line)) == Ok(GrownAt(sts, i, |line|))
    decreases |s|
  {
    hide sc.First, sc.Start, sc.Scan, InsertOk, Closed, Splice, Plain, GrownAt;
    if Before(sc, s, at) {
      InsertOkBefore(sc, s, at);
      assert false;
    }
    StartIsScanned(sc, s, sts);
    var o, l, rest := ScanHead(sc, s, sts);
    var n := o + l.next;
    FirstBounds(sc, s[o..], l);
    if n <= at {
      assert LineStart(s[n..], at - n) by { assert at > n ==> s[n..][at - n - 1] == s[at - 1]; }
      InsertOkSteps(sc, s, at, o, l);
      ClosedAtLine(sc, s, o, l, at);
      var j := InsideQuotes(sc, s[n..], rest, at - n, line);
      SpliceLater(s, n, at - n, at - n, line);
      HeadKept(sc, s, o, l, Splice(s[n..], at - n, at - n, line));
      i := j + 1;
      GrownLater(sts, l, o, rest, j, |line|, at);
    } else {
      assert s[o..][at - 1 - o] == s[at - 1] == '\n';
      FirstBreak(sc, s[o..], l, at - 1 - o);
      InsideFirst(sc, s, o, l, rest, at, line);
      i := 0;
      GrownFirst(sts, l, o, rest, |line|, at);
    }
  }

  lemma GrownLater(sts: seq<Statement>, l: Located, o: nat, rest: seq<Statement>, j: nat, n: nat, at: int)
    requires sts == [Shift(l.st, o)] + ShiftAll(rest, o + l.next) && j < |rest| && rest[j].valueStart <= rest[j].valueEnd
    requires Spans(rest[j], at - o - l.next)
    ensures Spans(sts[j + 1], at) && sts[j + 1].valueStart <= sts[j + 1].valueEnd
    ensures Later([Shift(l.st, o)], o + l.next, Ok(GrownAt(rest, j, n))) == Ok(GrownAt(sts, j + 1, n))
  {
    hide ReplacedAt;
    assert sts[j + 1] == Shift(rest[j], o + l.next);
    ReplacedTail(sts, Shift(l.st, o), rest, o + l.next, j + 1, rest[j].valueEnd - rest[j].valueStart + n);
  }

  lemma GrownFirst(sts: seq<Statement>, l: Located, o: nat, rest: seq<Statement>, n: nat, at: int)
    requires sts == [Shift(l.st, o)] + ShiftAll(rest, o + l.next) && !l.st.inherited && l.st.quote != NO_QUOTE
    requires l.st.valueStart < at - o <= l.st.valueEnd
    ensures Spans(sts[0], at) && sts[0].valueStart <= sts[0].valueEnd
    ensures [Shift(Grown(l, n).st, o)] + ShiftAll(rest, o + Grown(l, n).next) == GrownAt(sts, 0, n)
  {
    assert sts[1..] == ShiftAll(rest, o + l.next);
    assert ShiftAll(sts[1..], n) == ShiftAll(rest, o + l.next + n);
  }

  lemma InsideFirst(sc: Scanner, s: string, o: nat, l: Located, rest: seq<Statement>, at: nat, line: string)
    requires Head(sc, s, o, l) && o < at < o + l.next <= |s| && sc.Scan(s[o + l.next..]) == Ok(rest)
    requires s[at - 1] == '\n' && Plain(line) && 0 <= l.st.valueEnd <= l.next
    requires if l.st.inherited || l.st.quote == NO_QUOTE then at - 1 - o == l.next - 1
             else l.st.valueStart <= at - 1 - o < l.st.valueEnd
    ensures !l.st.inherited && l.st.quote != NO_QUOTE && l.st.valueStart < at - o <= l.st.valueEnd
    ensures sc.Scan(Splice(s, at, at, line)) == Ok([Shift(Grown(l, |line|).st, o)] + ShiftAll(rest, o + Grown(l, |line|).next))
  {
    hide sc.First, sc.Start, sc.Scan, Closed, Plain, Splice, Blank;
    var t := Splice(s, at, at, line);
    var x := s[o..];
    var y := Splice(x, at - o, at - o, line);
    assert x[at - o - 1] == s[at - 1];
    FirstInserted(sc, x, l, at - o, line);
    StartBlank(sc, s, o);
    SpliceRest(s, o, at, line, o + l.next);
    FrontKeepsStart(sc, x, y, l, at - o);
    BlankSkips(sc, s[..o], y);
    ScanOfHead(sc, t, o, Grown(l, |line|), rest);
  }

  lemma SpliceRest(s: string, o: nat, at: nat, line: string, n: nat)
    requires o <= at <= n <= |s|
    ensures var t := Splice(s, at, at, line);
      && t == s[..o] + Splice(s[o..], at - o, at - o, line)
      && t[o..] == Splice(s[o..], at - o, at - o, line)
      && Splice(s[o..], at - o, at - o, line)[..at - o] == s[o..][..at - o]
      && t[n + |line|..] == s[n..]
  {
  }

  lemma FrontKeepsStart(sc: Scanner, x: string, y: string, l: Located, j: nat)
    requires sc.Start(x) == Some(0) && 0 < j <= |x| && j <= |y| && x[..j] == y[..j] && x[j - 1] == '\n'
    ensures sc.Start(y) == Some(0)
  {
    StartZeroLocal(sc, x, y, j - 1);
  }
}
