/**
  How the end of an env file takes what is appended to it. After white space, a line
  break or a closing quote anything may follow; an unquoted value or a comment that
  runs to the end swallows the next line; and a bare name changes with a line break.
 */
module EnvEnd {
  import opened Text
  import opened EnvScan
  import opened EnvLocal
  import opened EnvEdit
  import opened EnvLaws

  datatype End = Free | Open | Bare

  /** What the end of a text leaves open. */
  ghost function EndOf(sc: Scanner, s: string): End
    decreases |s|
  {
    match sc.Start(s)
    case None => if Blank(s) then Free else Open
    case Some(o) =>
      match sc.First(s[o..])
      case Err(_) => Bare
      case Ok(l) =>
        if Closed(s[o..], l) then EndOf(sc, s[o + l.next..])
        else if Separated(sc, s[o..]) then Open else Bare
  }

  lemma EndOfNothing(sc: Scanner, s: string)
    requires sc.Start(s) == None
    ensures EndOf(sc, s) == (if Blank(s) then Free else Open) && sc.Scan(s) == Ok([])
  {
    hide sc.First, sc.Start, Blank;
  }

  lemma EndAfterHead(sc: Scanner, s: string, o: nat, l: Located)
    requires Head(sc, s, o, l) && o + l.next <= |s| && 0 < l.next <= |s[o..]|
    ensures Closed(s[o..], l) ==> EndOf(sc, s) == EndOf(sc, s[o + l.next..])
    ensures !Closed(s[o..], l) ==> EndOf(sc, s) == if Separated(sc, s[o..]) then Open else Bare
  {
    hide sc.First, sc.Start, Closed, Separated;
  }

  lemma {:induction false} BlankConcat(x: string, z: string)
    requires Blank(x)
    ensures Blank(x + z) <==> Blank(z)
    decreases |x|
  {
    hide DecodeRune, IsSpace, Blank, StartsWell;
    var t := x + z;
    if x == "" {
      assert t == z;
    } else if IsSpace(DecodeRune(x).code) {
      BlankParts(x);
      var n := DecodeRune(x).size;
      assert x[..n] == t[..n];
      DecodeOwnBytes(x, t);
      assert t[n..] == x[n..] + z;
      BlankConcat(x[n..], z);
      BlankSpace(t);
    } else {
      BlankParts(x);
      var i := IndexByte(x, '\n').value;
      assert t[..i] == x[..i];
      IndexByteAt(t, '\n', i);
      HashIsNoSpace(t);
      assert t[i..] == x[i..] + z;
      BlankConcat(x[i..], z);
      BlankComment(t, i);
    }
  }

  lemma BlankSpace(t: string)
    requires t != "" && IsSpace(DecodeRune(t).code)
    ensures Blank(t) <==> Blank(t[DecodeRune(t).size..])
  {
  }

  lemma BlankComment(t: string, i: nat)
    requires t != "" && !IsSpace(DecodeRune(t).code) && t[0] == '#' && IndexByte(t, '\n') == Some(i)
    ensures i > 0 && (Blank(t) <==> Blank(t[i..]))
  {
  }

  lemma NestedLater(a: seq<Statement>, n: int, b: seq<Statement>, m: int, r: Result<seq<Statement>>)
    ensures Later(a, n, Later(b, m, r)) == Later(a + ShiftAll(b, n), n + m, r)
  {
    if r.Ok? {
      assert a + ShiftAll(b + ShiftAll(r.value, m), n) == a + ShiftAll(b, n) + ShiftAll(r.value, n + m);
    }
  }

  lemma HeadInside(sc: Scanner, s: string, o: nat, l: Located)
    requires Head(sc, s, o, l)
    ensures o < |s| && 0 < l.next <= |s[o..]|
  {
    hide sc.First, sc.Start;
    FirstBounds(sc, s[o..], l);
  }

  /** After a free end the scan starts over: the statements of both parts, and the end of the second. */
  lemma {:induction false} FreeConcat(sc: Scanner, s: string, sts: seq<Statement>, u: string)
    requires sc.Scan(s) == Ok(sts) && EndOf(sc, s) == Free
    ensures sc.Scan(s + u) == Later(sts, |s|, sc.Scan(u))
    ensures EndOf(sc, s + u) == EndOf(sc, u)
    decreases |s|
  {
    hide *;
    if sc.Start(s) == None {
      EndOfNothing(sc, s);
      NothingConcat(sc, s, u);
    } else {
      SomeStatement(sc, s, sts);
      var o, l, rest := ScanHead(sc, s, sts);
      var n := o + l.next;
      HeadInside(sc, s, o, l);
      EndAfterHead(sc, s, o, l);
      FreeConcat(sc, s[n..], rest, u);
      StatementConcat(sc, s, o, l, rest, u);
    }
  }

  lemma SomeStatement(sc: Scanner, s: string, sts: seq<Statement>)
    requires sc.Scan(s) == Ok(sts) && sc.Start(s) != None
    ensures sts != []
  {
    hide sc.First, sc.Start;
  }

  lemma NothingConcat(sc: Scanner, s: string, u: string)
    requires sc.Start(s) == None && Blank(s)
    ensures sc.Scan(s + u) == Later([], |s|, sc.Scan(u)) && EndOf(sc, s + u) == EndOf(sc, u)
  {
    hide sc.First, sc.Start, sc.Scan, Blank, Closed, Separated;
    BlankSkips(sc, s, u);
    BlankConcat(s, u);
    assert (s + u)[|s|..] == u;
    sc.ScanAfterSkip(s + u, |s|);
    if sc.Start(u).Some? {
      var o := sc.Start(u).value;
      assert (s + u)[|s| + o..] == u[o..];
      if sc.First(u[o..]).Ok? {
        var l := sc.First(u[o..]).value;
        assert (s + u)[|s| + o + l.next..] == u[o + l.next..];
      }
    }
  }

  lemma StatementConcat(sc: Scanner, s: string, o: nat, l: Located, rest: seq<Statement>, u: string)
    requires Head(sc, s, o, l) && o + l.next <= |s| && 0 < l.next <= |s[o..]| && Closed(s[o..], l)
    requires sc.Scan(s[o + l.next..] + u) == Later(rest, |s| - o - l.next, sc.Scan(u))
    requires EndOf(sc, s[o + l.next..] + u) == EndOf(sc, u)
    ensures sc.Scan(s + u) == Later([Shift(l.st, o)] + ShiftAll(rest, o + l.next), |s|, sc.Scan(u))
    ensures EndOf(sc, s + u) == EndOf(sc, u)
  {
    hide *;
    var n := o + l.next;
    HeadKept(sc, s, o, l, s[n..] + u);
    ConcatParts(s, u, o, l.next);
    NestedLater([Shift(l.st, o)], n, rest, |s| - n, sc.Scan(u));
    HeadInside(sc, s + u, o, l);
    ClosedByFront(s[o..], (s + u)[o..], l);
    EndAfterHead(sc, s + u, o, l);
  }

  lemma ConcatParts(s: string, u: string, o: nat, k: nat)
    requires o + k <= |s|
    ensures s + u == s[..o + k] + (s[o + k..] + u) && (s + u)[o + k..] == s[o + k..] + u
    ensures (s + u)[o..][..k] == s[o..][..k]
  {
  }

  lemma ClosedByFront(x: string, y: string, l: Located)
    requires 0 < l.next <= |x| && l.next <= |y| && y[..l.next] == x[..l.next]
    ensures Closed(y, l) <==> Closed(x, l)
  {
    assert y[l.next - 1] == y[..l.next][l.next - 1] == x[..l.next][l.next - 1];
  }

  // ---- the part left open ----------------------------------------------------------

  /** A last comment without a line break, or a last statement without one. */
  ghost predicate OpenPart(sc: Scanner, b: string, bsts: seq<Statement>) {
    && sc.Scan(b) == Ok(bsts)
    && (OpenComment(sc, b, bsts) || OpenLine(sc, b, bsts))
  }

  ghost predicate OpenComment(sc: Scanner, b: string, bsts: seq<Statement>) {
    sc.Start(b) == None && !Blank(b) && bsts == []
  }

  ghost predicate OpenLine(sc: Scanner, b: string, bsts: seq<Statement>) {
    && sc.Start(b) == Some(0) && b != "" && sc.First(b).Ok? && !Closed(b, sc.First(b).value)
    && bsts == [sc.First(b).value.st]
  }

  /** A text whose end is not free is a free front and the part left open. */
  lemma {:induction false} Split(sc: Scanner, s: string, sts: seq<Statement>)
    returns (a: string, b: string, init: seq<Statement>, bsts: seq<Statement>)
    requires sc.Scan(s) == Ok(sts) && EndOf(sc, s) != Free
    ensures s == a + b && sc.Scan(a) == Ok(init) && EndOf(sc, a) == Free && OpenPart(sc, b, bsts)
    ensures sts == init + ShiftAll(bsts, |a|) && EndOf(sc, b) == EndOf(sc, s)
    decreases |s|
  {
    hide *;
    EmptyIsFree(sc);
    if sc.Start(s) == None {
      EndOfNothing(sc, s);
      a, b, init, bsts := "", s, [], [];
      CommentPart(sc, s);
      ShiftedNothing(0);
    } else {
      SomeStatement(sc, s, sts);
      var o, l, rest := ScanHead(sc, s, sts);
      var n := o + l.next;
      HeadInside(sc, s, o, l);
      EndAfterHead(sc, s, o, l);
      if Closed(s[o..], l) {
        var a', init';
        a', b, init', bsts := Split(sc, s[n..], rest);
        a, init := s[..n] + a', [Shift(l.st, o)] + ShiftAll(init', n);
        FrontOfSplit(sc, s, o, l, a', init');
        assert s == s[..n] + s[n..];
        ShiftTwice(init', bsts, n, |a'|);
      } else {
        a, b := s[..o], s[o..];
        init, bsts := [], [l.st];
        LinePart(sc, s, o, l, sts, rest);
      }
    }
  }

  lemma EmptyIsFree(sc: Scanner)
    ensures sc.Start("") == None && sc.Scan("") == Ok([]) && EndOf(sc, "") == Free && Blank("")
  {
  }

  lemma ShiftedNothing(d: int)
    ensures [] + ShiftAll([], d) == []
  {
  }

  lemma ShiftTwice(init: seq<Statement>, bsts: seq<Statement>, n: int, m: int)
    ensures ShiftAll(init + ShiftAll(bsts, m), n) == ShiftAll(init, n) + ShiftAll(bsts, n + m)
  {
  }

  lemma CommentPart(sc: Scanner, s: string)
    requires sc.Start(s) == None && sc.Scan(s) == Ok([]) && !Blank(s)
    ensures OpenPart(sc, s, [])
  {
    hide sc.Start, sc.Scan, sc.First, Blank;
  }

  lemma FrontOfSplit(sc: Scanner, s: string, o: nat, l: Located, a': string, init': seq<Statement>)
    requires Head(sc, s, o, l) && o + l.next <= |s| && 0 < l.next <= |s[o..]| && Closed(s[o..], l)
    requires sc.Scan(a') == Ok(init') && EndOf(sc, a') == Free
    ensures sc.Scan(s[..o + l.next] + a') == Ok([Shift(l.st, o)] + ShiftAll(init', o + l.next))
    ensures EndOf(sc, s[..o + l.next] + a') == Free
  {
    hide *;
    var n := o + l.next;
    var t := s[..n] + a';
    HeadKept(sc, s, o, l, a');
    LaterOk([Shift(l.st, o)], n, init');
    HeadInside(sc, t, o, l);
    assert t[o..][..l.next] == s[o..][..l.next];
    ClosedByFront(s[o..], t[o..], l);
    EndAfterHead(sc, t, o, l);
    assert t[n..] == a';
  }

  lemma LaterOk(a: seq<Statement>, n: int, b: seq<Statement>)
    ensures Later(a, n, Ok(b)) == Ok(a + ShiftAll(b, n))
  {
  }

  lemma LinePart(sc: Scanner, s: string, o: nat, l: Located, sts: seq<Statement>, rest: seq<Statement>)
    requires Head(sc, s, o, l) && o + l.next <= |s| && 0 < l.next <= |s[o..]| && !Closed(s[o..], l)
    requires sc.Scan(s[o + l.next..]) == Ok(rest) && sts == [Shift(l.st, o)] + ShiftAll(rest, o + l.next)
    ensures s == s[..o] + s[o..] && sc.Scan(s[..o]) == Ok([]) && EndOf(sc, s[..o]) == Free
    ensures OpenPart(sc, s[o..], [l.st]) && sts == [] + ShiftAll([l.st], |s[..o]|) && EndOf(sc, s[o..]) == EndOf(sc, s)
  {
    hide *;
    var a, b := s[..o], s[o..];
    HeadOf(sc, s, o, l);
    StartBlank(sc, s, o);
    FirstCloses(sc, b, l);
    assert o + l.next == |s|;
    EndHoldsNothing(sc, s[o + l.next..], rest);
    BlankIsFree(sc, a);
    EmptyIsFree(sc);
    assert b[0..] == b && b[0 + l.next..] == "";
    OpenIsLine(sc, b, l);
    OpenScan(sc, b, l);
    OneShifted(l.st, o, rest, o + l.next);
    HeadZero(sc, b, l);
    EndAfterHead(sc, b, 0, l);
    EndAfterHead(sc, s, o, l);
  }

  lemma HeadOf(sc: Scanner, s: string, o: nat, l: Located)
    requires Head(sc, s, o, l)
    ensures sc.Start(s) == Some(o) && s[o..] != "" && sc.First(s[o..]) == Ok(l)
  {
  }

  lemma HeadZero(sc: Scanner, b: string, l: Located)
    requires sc.Start(b) == Some(0) && b != "" && sc.First(b) == Ok(l) && b[0..] == b
    ensures Head(sc, b, 0, l)
  {
  }

  lemma BlankIsFree(sc: Scanner, a: string)
    requires Blank(a)
    ensures sc.Start(a) == None && sc.Scan(a) == Ok([]) && EndOf(sc, a) == Free
  {
    hide *;
    EmptyIsFree(sc);
    BlankSkips(sc, a, "");
    assert a + "" == a;
    SkipsNothing(|a|);
    EndOfNothing(sc, a);
  }

  lemma SkipsNothing(d: nat)
    ensures AfterSkip(d, None) == None
  {
  }

  lemma OpenScan(sc: Scanner, b: string, l: Located)
    requires sc.Start(b) == Some(0) && b != "" && sc.First(b) == Ok(l) && l.next == |b| && b[0..] == b
    ensures sc.Scan(b) == Ok([l.st])
  {
    hide *;
    HeadZero(sc, b, l);
    EmptyIsFree(sc);
    assert b[0 + l.next..] == "";
    ScanOfHead(sc, b, 0, l, []);
    OneShifted(l.st, 0, [], 0 + l.next);
    NotMovedStatement(l.st);
  }

  lemma NotMovedStatement(st: Statement)
    ensures ShiftAll([st], 0) == [st]
  {
  }

  lemma OneShifted(st: Statement, o: int, rest: seq<Statement>, n: int)
    requires rest == []
    ensures [Shift(st, o)] + ShiftAll(rest, n) == ShiftAll([st], o) == [] + ShiftAll([st], o)
  {
  }

  lemma OpenIsLine(sc: Scanner, b: string, l: Located)
    requires sc.Start(b) == Some(0) && b != "" && sc.First(b) == Ok(l) && l.next == |b| && !Closed(b, l) && b[0..] == b
    ensures OpenPart(sc, b, [l.st])
  {
    OpenScan(sc, b, l);
    hide sc.Start, sc.First, sc.Scan, Closed;
  }
}
