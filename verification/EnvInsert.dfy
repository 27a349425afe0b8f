/**
  Inserting a declaration at a line start of an env file: where it is safe, what
  it does there, and that it is one new statement exactly when no quoted value
  spans that line start.
 */
module EnvInsert {
  import opened Text
  import opened EnvScan
  import opened EnvLocal
  import opened EnvEdit
  import opened EnvLaws

  /** A variable name: `[A-Za-z_][A-Za-z0-9_]*`. */
  predicate ValidName(name: string) {
    && name != ""
    && (forall i :: 0 <= i < |name| ==> NameByte(name[i]))
    && !('0' <= name[0] <= '9')
  }

  predicate NameByte(c: char) {
    'a' <= c <= 'z' || 'A' <= c <= 'Z' || '0' <= c <= '9' || c == '_'
  }

  const EOLS := {"\n", "\r\n"}

  /** The line the agent writes for a declaration. */
  function DeclarationLine(name: string, v: string, eol: string): (line: string)
    ensures |line| == |name| + 1 + |v| + |eol|
  {
    name + "=" + v + eol
  }

  /** The statement that line is, `at` bytes into a text. */
  function Declaration(name: string, v: string, at: int): Statement {
    Statement(name, false, NO_QUOTE, at + |name| + 1, at + |name| + 1 + |v|)
  }

  // ---- the inserted line is one statement --------------------------------------

  lemma {:induction false} NameThenSeparator(sc: Scanner, name: string, rest: string)
    requires forall i :: 0 <= i < |name| ==> NameByte(name[i])
    requires rest != "" && rest[0] == '='
    ensures sc.FindSeparator(name + rest) == At(|name|)
    decreases |name|
  {
    var s := name + rest;
    if name == "" {
      assert s == rest;
      assert DecodeRune(s) == Rune('=' as int, 1);
      assert !sc.IsKeyRune('=' as int);
    } else {
      assert DecodeRune(s) == Rune(name[0] as int, 1);
      assert sc.IsKeyRune(name[0] as int);
      assert s[1..] == name[1..] + rest;
      hide DecodeRune, sc.IsKeyRune;
      NameThenSeparator(sc, name[1..], rest);
    }
  }

  lemma NameHasNoExport(name: string, rest: string)
    requires forall i :: 0 <= i < |name| ==> NameByte(name[i])
    requires rest != "" && rest[0] == '='
    ensures ExportLength(name + rest) == 0
  {
    var s := name + rest;
    assert |s| > 6 && |name| < 6 ==> s[..6][|name|] == '=';
    assert |s| > 6 && |name| >= 6 ==> s[6] == '=' || NameByte(s[6]);
  }

  lemma NameTrimsToItself(name: string)
    requires ValidName(name)
    ensures TrimRight(name) == name && ' ' !in name
  {
    assert NameByte(name[|name| - 1]);
    LastSpaceVisible(name);
  }

  lemma LineFirst(sc: Scanner, name: string, v: string, eol: string, u: string)
    requires ValidName(name) && SafeValue(v) && eol in EOLS
    ensures var s := DeclarationLine(name, v, eol) + u;
      sc.Start(s) == Some(0)
      && sc.First(s) == Ok(Located(Declaration(name, v, 0), |DeclarationLine(name, v, eol)|))
  {
    hide sc.First, sc.Start, EnvSpaces, Value, SafeValue;
    var s := DeclarationLine(name, v, eol) + u;
    var w := v + eol + u;
    assert s == name + ("=" + w);
    NameStarts(sc, s);
    LineValue(v, eol, u, name);
    NamedFirst(sc, name, w, Located(Statement(name, false, NO_QUOTE, 0, |v|), |v| + |eol|));
  }

  lemma NamedFirst(sc: Scanner, name: string, w: string, m: Located)
    requires ValidName(name) && EnvSpaces(w) == 0 && Value(w, name) == Ok(m)
    ensures sc.First(name + ("=" + w)) == Ok(Located(Shift(m.st, |name| + 1), |name| + 1 + m.next))
  {
    hide sc.LocateKey, EnvSpaces, Value, TrimRight, ValidName, sc.First;
    var s := name + ("=" + w);
    NamedKey(sc, name, w);
    NameTrimsToItself(name);
    assert s[|name| + 1..] == w;
    FirstOfValued(sc, s, KeyHead(name, |name| + 1, false), |name| + 1, m);
  }

  lemma NamedKey(sc: Scanner, name: string, w: string)
    requires ValidName(name)
    ensures sc.LocateKey(name + ("=" + w)) == Ok(KeyHead(name, |name| + 1, false))
  {
    hide sc.FindSeparator, ExportLength;
    var s := name + ("=" + w);
    NameThenSeparator(sc, name, "=" + w);
    NameHasNoExport(name, "=" + w);
    assert s[0..] == s && s[..|name|] == name;
  }

  lemma NameStarts(sc: Scanner, s: string)
    requires s != "" && NameByte(s[0])
    ensures sc.Start(s) == Some(0)
  {
  }

  lemma LineValue(v: string, eol: string, u: string, key: string)
    requires SafeValue(v) && eol in EOLS
    ensures EnvSpaces(v + eol + u) == 0
    ensures Value(v + eol + u, key) == Ok(Located(Statement(key, false, NO_QUOTE, 0, |v|), |v| + |eol|))
  {
    hide EnvSpaces, UnquotedLine, BeforeComment, TrimRight, QuotedEnd;
    var s := v + eol + u;
    var blank := eol[..|eol| - 1];
    assert FileSafe(v[0]) && s[0] == v[0];
    VisibleAscii(s);
    assert s == (v + blank) + "\n" + u;
    assert forall i :: 0 <= i < |v| ==> FileSafe(v[i]);
    LineStops(v + blank, u);
    LineTrims(v, blank);
  }

  lemma LineStops(line: string, u: string)
    requires '\n' !in line
    ensures UnquotedLine(line + "\n" + u) == line
  {
    var s := line + "\n" + u;
    assert s[..|line|] == line;
    IndexByteAt(s, '\n', |line|);
  }

  lemma LineTrims(v: string, blank: string)
    requires SafeValue(v) && (blank == "" || blank == "\r")
    ensures TrimRight(BeforeComment(v + blank)) == v
  {
    assert forall i :: 0 <= i < |v| ==> FileSafe(v[i]);
    CommentAfter(v, blank);
    assert IndexComment(blank) == None;
    assert BeforeComment(v + blank) == v + blank;
    LastSpaceVisible(v);
    assert TrimRight(v) == v;
    if blank == "\r" {
      assert Last(v + blank, 1) == "\r";
      assert LastSpace(v + blank) == 1;
      assert (v + blank)[..|v|] == v;
    } else {
      assert v + blank == v;
    }
  }

  lemma LineScan(sc: Scanner, name: string, v: string, eol: string, u: string)
    requires ValidName(name) && SafeValue(v) && eol in EOLS
    ensures var line := DeclarationLine(name, v, eol);
      sc.Scan(line + u) == Later([Declaration(name, v, 0)], |line|, sc.Scan(u))
  {
    hide sc.Scan, sc.First, sc.Start;
    var line := DeclarationLine(name, v, eol);
    var s := line + u;
    LineFirst(sc, name, v, eol, u);
    assert s[0..] == s && s[|line|..] == u;
    sc.ScanContinues([], 0, s, 0, Located(Declaration(name, v, 0), |line|));
    LaterZero(sc.Scan(s));
    assert [] + [Shift(Declaration(name, v, 0), 0)] == [Declaration(name, v, 0)];
  }

  // ---- where an insertion is safe ------------------------------------------------

  /** `at` starts a line, and no statement is under way there. */
  ghost predicate InsertOk(sc: Scanner, s: string, at: nat)
    decreases |s|
  {
    && at <= |s| && LineStart(s, at)
    && match sc.Start(s)
       case None => true
       case Some(o) =>
         || at <= o
         || (&& sc.First(s[o..]).Ok?
             && o + sc.First(s[o..]).value.next <= at
             && InsertOk(sc, s[o + sc.First(s[o..]).value.next..], at - o - sc.First(s[o..]).value.next))
  }

  /** How many statements start before `at`. */
  ghost function Slot(sc: Scanner, s: string, at: nat): nat
    decreases |s|
  {
    match sc.Start(s)
    case None => 0
    case Some(o) =>
      if at <= o || sc.First(s[o..]).Err? || at < o + sc.First(s[o..]).value.next then 0
      else 1 + Slot(sc, s[o + sc.First(s[o..]).value.next..], at - o - sc.First(s[o..]).value.next)
  }

  /** Whether the search for the first statement gets to `at`. */
  ghost predicate Before(sc: Scanner, s: string, at: nat) {
    sc.Start(s).Some? ==> at <= sc.Start(s).value
  }

  lemma InsertSplit(sc: Scanner, s: string, at: nat)
    requires InsertOk(sc, s, at)
    ensures at <= |s| && LineStart(s, at)
    ensures Before(sc, s, at) ==> Slot(sc, s, at) == 0
    ensures !Before(sc, s, at) ==> sc.First(s[sc.Start(s).value..]).Ok?
    ensures !Before(sc, s, at) ==>
      var o, l := sc.Start(s).value, sc.First(s[sc.Start(s).value..]).value;
      && Head(sc, s, o, l) && 0 < l.next && o + l.next <= at
      && Closed(s[o..], l)
      && InsertOk(sc, s[o + l.next..], at - o - l.next)
      && Slot(sc, s, at) == 1 + Slot(sc, s[o + l.next..], at - o - l.next)
  {
    hide sc.First, sc.Start;
    if !Before(sc, s, at) {
      var o := sc.Start(s).value;
      var l := sc.First(s[o..]).value;
      FirstBounds(sc, s[o..], l);
      FirstCloses(sc, s[o..], l);
      if o + l.next == |s| {
        assert s[o..][l.next - 1] == s[at - 1];
      }
    }
  }

  lemma InsertOkBefore(sc: Scanner, s: string, at: nat)
    requires at <= |s| && LineStart(s, at) && Before(sc, s, at)
    ensures InsertOk(sc, s, at) && Slot(sc, s, at) == 0
  {
  }

  lemma InsertOkAfter(sc: Scanner, s: string, at: nat, o: nat, l: Located)
    requires at <= |s| && LineStart(s, at) && Head(sc, s, o, l) && 0 < l.next && o + l.next <= at
    requires InsertOk(sc, s[o + l.next..], at - o - l.next)
    ensures InsertOk(sc, s, at) && Slot(sc, s, at) == 1 + Slot(sc, s[o + l.next..], at - o - l.next)
  {
    hide sc.First, sc.Start;
  }

  /** Only the text before a line start says whether it is safe, and which statement it precedes. */
  lemma {:induction false} SlotLocal(sc: Scanner, s: string, t: string, at: nat)
    requires InsertOk(sc, s, at) && at <= |t| && t[..at] == s[..at]
    ensures InsertOk(sc, t, at) && Slot(sc, t, at) == Slot(sc, s, at)
    decreases |s|
  {
    hide *;
    InsertSplit(sc, s, at);
    SameLineStart(s, t, at);
    SomeIsBefore(sc, s, at);
    if Before(sc, s, at) {
      BlankBeforeLine(sc, s, at);
      BlankSkips(sc, s[..at], t[at..]);
      AfterBlank(sc, t, at);
      InsertOkBefore(sc, t, at);
    } else {
      var o := sc.Start(s).value;
      var l := sc.First(s[o..]).value;
      var n := o + l.next;
      SameParts(s, t, n, at);
      HeadKept(sc, s, o, l, t[n..]);
      SlotLocal(sc, s[n..], t[n..], at - n);
      InsertOkAfter(sc, t, at, o, l);
    }
  }

  lemma SameLineStart(s: string, t: string, at: nat)
    requires at <= |s| && at <= |t| && t[..at] == s[..at]
    ensures LineStart(t, at) <==> LineStart(s, at)
    ensures t == s[..at] + t[at..]
  {
    assert at > 0 ==> t[at - 1] == t[..at][at - 1] == s[..at][at - 1] == s[at - 1];
  }

  lemma SomeIsBefore(sc: Scanner, s: string, at: nat)
    ensures Before(sc, s, at) <==> (sc.Start(s).Some? ==> at <= sc.Start(s).value)
  {
    hide sc.Start;
  }

  lemma AfterBlank(sc: Scanner, t: string, at: nat)
    requires at <= |t| && sc.Start(t) == AfterSkip(at, sc.Start(t[at..]))
    ensures Before(sc, t, at)
  {
    hide sc.Start;
  }

  lemma SameParts(s: string, t: string, n: nat, at: nat)
    requires n <= at <= |s| && at <= |t| && t[..at] == s[..at]
    ensures t == s[..n] + t[n..] && t[n..][..at - n] == s[n..][..at - n]
  {
    assert s[..n] == s[..at][..n] == t[..at][..n] == t[..n];
    assert t[n..][..at - n] == t[..at][n..] == s[..at][n..] == s[n..][..at - n];
  }

  /** The statements once a declaration of `n` bytes stands before the `k`-th. */
  function InsertedAt(sts: seq<Statement>, k: nat, decl: Statement, n: nat): seq<Statement>
    requires k <= |sts|
  {
    sts[..k] + [decl] + ShiftAll(sts[k..], n)
  }

  lemma {:induction false} InsertScan(sc: Scanner, s: string, sts: seq<Statement>, at: nat,
                                      name: string, v: string, eol: string)
    requires InsertOk(sc, s, at) && sc.Scan(s) == Ok(sts)
    requires ValidName(name) && SafeValue(v) && eol in EOLS
    ensures at <= |s| && Slot(sc, s, at) <= |sts|
    ensures sc.Scan(Splice(s, at, at, DeclarationLine(name, v, eol)))
         == Ok(InsertedAt(sts, Slot(sc, s, at), Declaration(name, v, at), |DeclarationLine(name, v, eol)|))
    decreases |s|
  {
    hide sc.First, sc.Start, sc.Scan, InsertOk, Slot, Closed, Blank, SafeValue, ValidName, DeclarationLine, InsertedAt;
    InsertSplit(sc, s, at);
    if Before(sc, s, at) {
      InsertBefore(sc, s, sts, at, name, v, eol);
    } else {
      var o := sc.Start(s).value;
      var l := sc.First(s[o..]).value;
      var n := o + l.next;
      HeadIsScanned(sc, s, o, l, sts);
      var rest := sc.Scan(s[n..]).value;
      InsertScan(sc, s[n..], rest, at - n, name, v, eol);
      InsertAfter(sc, s, sts, o, l, rest, at, name, v, eol);
    }
  }

  lemma HeadIsScanned(sc: Scanner, s: string, o: nat, l: Located, sts: seq<Statement>)
    requires Head(sc, s, o, l) && sc.Scan(s) == Ok(sts)
    ensures sc.Scan(s[o + l.next..]).Ok?
    ensures sts == [Shift(l.st, o)] + ShiftAll(sc.Scan(s[o + l.next..]).value, o + l.next)
  {
    hide sc.First, sc.Start;
  }

  lemma InsertBefore(sc: Scanner, s: string, sts: seq<Statement>, at: nat, name: string, v: string, eol: string)
    requires at <= |s| && LineStart(s, at) && Before(sc, s, at) && sc.Scan(s) == Ok(sts)
    requires ValidName(name) && SafeValue(v) && eol in EOLS
    ensures sc.Scan(Splice(s, at, at, DeclarationLine(name, v, eol)))
         == Ok(InsertedAt(sts, 0, Declaration(name, v, at), |DeclarationLine(name, v, eol)|))
  {
    hide sc.First, sc.Start, sc.Scan, Blank, SafeValue, ValidName, DeclarationLine;
    var line := DeclarationLine(name, v, eol);
    var x, u := s[..at], s[at..];
    BlankBeforeLine(sc, s, at);
    SkipBlank(sc, x, u);
    assert s == x + u;
    SkipBlank(sc, x, line + u);
    assert Splice(s, at, at, line) == x + (line + u);
    LineScan(sc, name, v, eol, u);
    InsertedFirst(sts, sc.Scan(u).value, name, v, at, |line|);
  }

  lemma InsertedFirst(sts: seq<Statement>, sub: seq<Statement>, name: string, v: string, at: int, len: nat)
    requires sts == ShiftAll(sub, at)
    ensures [] + ShiftAll([Declaration(name, v, 0)] + ShiftAll(sub, len), at)
         == InsertedAt(sts, 0, Declaration(name, v, at), len)
  {
  }

  lemma SkipBlank(sc: Scanner, x: string, u: string)
    requires Blank(x)
    ensures sc.Scan(x + u) == Later([], |x|, sc.Scan(u))
    ensures sc.Scan(x + u).Ok? ==> sc.Scan(u).Ok? && sc.Scan(x + u).value == ShiftAll(sc.Scan(u).value, |x|)
  {
    hide sc.First, sc.Start, sc.Scan, Blank;
    BlankSkips(sc, x, u);
    assert (x + u)[|x|..] == u;
    sc.ScanAfterSkip(x + u, |x|);
  }

  lemma InsertAfter(sc: Scanner, s: string, sts: seq<Statement>, o: nat, l: Located, rest: seq<Statement>,
                    at: nat, name: string, v: string, eol: string)
    requires Head(sc, s, o, l) && 0 < l.next && o + l.next <= at <= |s| && Closed(s[o..], l)
    requires sts == [Shift(l.st, o)] + ShiftAll(rest, o + l.next)
    requires InsertOk(sc, s[o + l.next..], at - o - l.next) && Slot(sc, s[o + l.next..], at - o - l.next) <= |rest|
    requires var line := DeclarationLine(name, v, eol);
      sc.Scan(Splice(s[o + l.next..], at - o - l.next, at - o - l.next, line))
      == Ok(InsertedAt(rest, Slot(sc, s[o + l.next..], at - o - l.next), Declaration(name, v, at - o - l.next), |line|))
    ensures var line := DeclarationLine(name, v, eol);
      sc.Scan(Splice(s, at, at, line))
      == Ok(InsertedAt(sts, 1 + Slot(sc, s[o + l.next..], at - o - l.next), Declaration(name, v, at), |line|))
  {
    hide sc.First, sc.Start, sc.Scan, InsertOk, Slot, Closed, DeclarationLine, Head, Splice;
    var n := o + l.next;
    var line := DeclarationLine(name, v, eol);
    var u := Splice(s[n..], at - n, at - n, line);
    HeadKept(sc, s, o, l, u);
    SpliceLater(s, n, at - n, at - n, line);
    InsertedTail(sts, Shift(l.st, o), rest, n, Slot(sc, s[n..], at - n), name, v, at, |line|);
  }

  lemma InsertedTail(sts: seq<Statement>, st: Statement, rest: seq<Statement>, n: int, k: nat,
                     name: string, v: string, at: int, len: nat)
    requires sts == [st] + ShiftAll(rest, n) && k <= |rest|
    ensures InsertedAt(sts, 1 + k, Declaration(name, v, at), len)
         == [st] + ShiftAll(InsertedAt(rest, k, Declaration(name, v, at - n), len), n)
  {
    assert sts[..1 + k] == [st] + ShiftAll(rest[..k], n);
    assert ShiftAll(sts[1 + k..], len) == ShiftAll(ShiftAll(rest[k..], len), n);
    assert Shift(Declaration(name, v, at - n), n) == Declaration(name, v, at);
    ShiftJoined(rest[..k], Declaration(name, v, at - n), ShiftAll(rest[k..], len), n);
    hide Shift;
  }

  lemma ShiftJoined(a: seq<Statement>, st: Statement, b: seq<Statement>, n: int)
    ensures ShiftAll(a + [st] + b, n) == ShiftAll(a, n) + [Shift(st, n)] + ShiftAll(b, n)
  {
    hide Shift;
  }

  /** The insertion point separates the statements before it from those after. */
  lemma {:induction false} SlotSeparates(sc: Scanner, s: string, sts: seq<Statement>, at: nat)
    requires InsertOk(sc, s, at) && sc.Scan(s) == Ok(sts)
    ensures Slot(sc, s, at) <= |sts|
    ensures forall i :: 0 <= i < Slot(sc, s, at) && !sts[i].inherited ==> sts[i].valueEnd < at
    ensures forall i :: Slot(sc, s, at) <= i < |sts| && !sts[i].inherited ==>
      at <= sts[i].valueStart && (sts[i].key != "" ==> at < sts[i].valueStart)
    decreases |s|
  {
    hide sc.First, sc.Start, sc.Scan, InsertOk, Slot, Closed, Ordered;
    InsertSplit(sc, s, at);
    if Before(sc, s, at) {
      StatementsFollowStart(sc, s, sts, at);
    } else {
      var o := sc.Start(s).value;
      var l := sc.First(s[o..]).value;
      var n := o + l.next;
      HeadIsScanned(sc, s, o, l, sts);
      var rest := sc.Scan(s[n..]).value;
      FirstCloses(sc, s[o..], l);
      SlotSeparates(sc, s[n..], rest, at - n);
      assert forall i :: 0 < i < |sts| ==> sts[i] == Shift(rest[i - 1], n);
    }
  }

  lemma StatementsFollowStart(sc: Scanner, s: string, sts: seq<Statement>, at: nat)
    requires Before(sc, s, at) && sc.Scan(s) == Ok(sts)
    ensures forall i :: 0 <= i < |sts| && !sts[i].inherited ==>
      at <= sts[i].valueStart && (sts[i].key != "" ==> at < sts[i].valueStart)
  {
    if sts != [] {
      hide sc.First, sc.Start, sc.Scan, Ordered;
      var o, l, rest := ScanHead(sc, s, sts);
      FirstBounds(sc, s[o..], l);
      if !l.st.inherited && l.st.key != "" {
        KeyPrecedesValue(sc, s[o..], l);
      }
      ScanOrdered(sc, s[o + l.next..], rest);
      FollowOnto(sts, l, o, rest, |s| - o - l.next);
    }
  }

  lemma FollowOnto(sts: seq<Statement>, l: Located, o: nat, rest: seq<Statement>, to: int)
    requires sts == [Shift(l.st, o)] + ShiftAll(rest, o + l.next) && Ordered(rest, 0, to)
    requires 0 < l.next && 0 <= l.st.valueStart
    requires !l.st.inherited && l.st.key != "" ==> 0 < l.st.valueStart
    ensures forall i :: 0 <= i < |sts| && !sts[i].inherited ==>
      o <= sts[i].valueStart && (sts[i].key != "" ==> o < sts[i].valueStart)
  {
    assert forall i :: 0 < i < |sts| ==> sts[i] == Shift(rest[i - 1], o + l.next);
  }

  lemma KeyPrecedesValue(sc: Scanner, s: string, l: Located)
    requires s != "" && sc.First(s) == Ok(l) && !l.st.inherited && l.st.key != ""
    ensures 0 < l.st.valueStart
  {
    hide sc.First, sc.LocateKey, Value, EnvSpaces, TrimRight, Separated;
    var head, at, m := ValuedOfFirst(sc, s, l);
    KeyIsSeparated(sc, s, head);
    LocateKeyLocal(sc, s, s, head);
    ValueIsInside(s[at..], TrimRight(head.key), m);
  }

  lemma ValueIsInside(v: string, key: string, m: Located)
    requires Value(v, key) == Ok(m)
    ensures 0 <= m.st.valueStart <= m.st.valueEnd <= m.next <= |v|
  {
  }
}
