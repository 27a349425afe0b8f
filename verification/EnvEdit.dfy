/**
  What editing an env file does to its statements: replacing one value token
  changes that value and nothing else, and a declaration inserted at a line start
  outside every quoted value is one new statement and nothing else.
 */
module EnvEdit {
  import opened Text
  import opened EnvScan
  import opened EnvLocal

  /** fileSafeImageRune (imageref.go): the alphabet of docker's reference grammar. */
  predicate FileSafe(c: char) {
    || 'a' <= c <= 'z' || 'A' <= c <= 'Z' || '0' <= c <= '9'
    || c in "._-/:@+[]"
  }

  /** A value the agent writes: an image reference or a tag. */
  predicate SafeValue(v: string) {
    v != "" && forall i :: 0 <= i < |v| ==> FileSafe(v[i])
  }

  function Splice(s: string, start: int, end: int, text: string): string
    requires 0 <= start <= end <= |s|
  {
    s[..start] + text + s[end..]
  }

  // ---- white space and comments before a statement -------------------------

  /** White space and complete comment lines: skipped whatever follows. */
  ghost predicate Blank(x: string)
    decreases |x|
  {
    || x == ""
    || (if IsSpace(DecodeRune(x).code) then Blank(x[DecodeRune(x).size..])
        else
          && x[0] == '#'
          && IndexByte(x, '\n').Some?
          && IndexByte(x, '\n').value > 0
          && Blank(x[IndexByte(x, '\n').value..]))
  }

  lemma BlankParts(x: string)
    requires Blank(x) && x != ""
    ensures IsSpace(DecodeRune(x).code) ==> StartsWell(x) && Blank(x[DecodeRune(x).size..])
    ensures !IsSpace(DecodeRune(x).code) ==>
      x[0] == '#' && IndexByte(x, '\n').Some? && Blank(x[IndexByte(x, '\n').value..])
  {
    if IsSpace(DecodeRune(x).code) {
      SpaceStartsWell(x);
    }
  }

  /** One more white-space rune before blank text. */
  lemma SpaceThenBlank(s: string, at: nat)
    requires s != "" && IsSpace(DecodeRune(s).code) && DecodeRune(s).size <= at <= |s|
    requires Blank(s[DecodeRune(s).size..][..at - DecodeRune(s).size])
    ensures Blank(s[..at])
  {
    hide IsSpace;
    SpaceStartsWell(s);
    var n := DecodeRune(s).size;
    assert s[n..][..at - n] == s[..at][n..];
    assert s[..n] == s[..at][..n];
    DecodeOwnBytes(s, s[..at]);
    hide DecodeRune;
  }

  /** One more comment line before blank text that starts with its line break. */
  lemma CommentThenBlank(s: string, i: nat, at: nat)
    requires s != "" && s[0] == '#' && IndexByte(s, '\n') == Some(i) && 0 < i < at <= |s|
    requires Blank(s[i..][..at - i])
    ensures Blank(s[..at])
  {
    hide IsSpace;
    assert s[i..][..at - i] == s[..at][i..];
    assert s[..at][..i] == s[..i];
    IndexByteAt(s[..at], '\n', i);
    assert s[..at][0] == '#';
    HashIsNoSpace(s[..at]);
  }

  lemma HashIsNoSpace(s: string)
    requires s != "" && s[0] == '#'
    ensures !IsSpace(DecodeRune(s).code)
  {
  }

  lemma {:induction false} BlankSkips(sc: Scanner, x: string, z: string)
    requires Blank(x)
    ensures sc.Start(x + z) == AfterSkip(|x|, sc.Start(z))
    decreases |x|
  {
    hide DecodeRune, IsSpace, sc.Start, Blank, StartsWell;
    var t := x + z;
    if x == "" {
      assert t == z;
    } else if IsSpace(DecodeRune(x).code) {
      BlankParts(x);
      var n := DecodeRune(x).size;
      assert x[..n] == t[..n];
      DecodeOwnBytes(x, t);
      sc.StartOfSpace(t);
      assert t[n..] == x[n..] + z;
      BlankSkips(sc, x[n..], z);
    } else {
      BlankParts(x);
      var i := IndexByte(x, '\n').value;
      assert t[..i] == x[..i];
      IndexByteAt(t, '\n', i);
      HashIsNoSpace(t);
      sc.StartOfText(t);
      assert t[i..] == x[i..] + z;
      BlankSkips(sc, x[i..], z);
    }
  }

  lemma {:induction false} StartBlank(sc: Scanner, s: string, o: nat)
    requires sc.Start(s) == Some(o)
    ensures Blank(s[..o]) && sc.Start(s[o..]) == Some(0)
    decreases |s|
  {
    hide DecodeRune, IsSpace, sc.Start, Blank;
    if s == "" {
      sc.StartOfText(s);
    } else if IsSpace(DecodeRune(s).code) {
      sc.StartOfSpace(s);
      var n := DecodeRune(s).size;
      StartBlank(sc, s[n..], o - n);
      SpaceThenBlank(s, o);
      assert s[n..][o - n..] == s[o..];
    } else if s[0] == '#' {
      sc.StartOfText(s);
      var i := IndexByte(s, '\n').value;
      StartBlank(sc, s[i..], o - i);
      BreakIsSkipped(sc, s[i..]);
      CommentThenBlank(s, i, o);
      assert s[i..][o - i..] == s[o..];
    } else {
      sc.StartOfText(s);
      assert s[0..] == s;
      EmptyIsBlank();
    }
  }

  lemma EmptyIsBlank()
    ensures Blank("")
  {
  }

  lemma BreakIsSkipped(sc: Scanner, s: string)
    requires s != "" && s[0] == '\n'
    ensures IsSpace(DecodeRune(s).code) && DecodeRune(s).size == 1
    ensures sc.Start(s) != Some(0)
  {
    sc.StartOfSpace(s);
  }

  /** Whether a position is the start of a line. */
  predicate LineStart(s: string, at: nat)
    requires at <= |s|
  {
    at == 0 || s[at - 1] == '\n'
  }

  /** What the search skips before a line start is skipped whatever follows. */
  lemma {:induction false} BlankBeforeLine(sc: Scanner, s: string, at: nat)
    requires at <= |s| && LineStart(s, at)
    requires sc.Start(s).Some? ==> at <= sc.Start(s).value
    ensures Blank(s[..at])
    decreases |s|
  {
    hide DecodeRune, IsSpace, sc.Start, Blank;
    if at == 0 {
      EmptyIsBlank();
    } else if IsSpace(DecodeRune(s).code) {
      SpaceHoldsNoBreak(s, at - 1);
      var n := DecodeRune(s).size;
      sc.StartOfSpace(s);
      BlankBeforeLine(sc, s[n..], at - n);
      SpaceThenBlank(s, at);
    } else {
      sc.StartOfText(s);
      assert s[0] == '#';
      FirstBreakBy(s, at - 1);
      var i := IndexByte(s, '\n').value;
      BlankBeforeLine(sc, s[i..], at - i);
      CommentThenBlank(s, i, at);
    }
  }

  lemma FirstBreakBy(s: string, j: nat)
    requires j < |s| && s[j] == '\n'
    ensures IndexByte(s, '\n').Some? && IndexByte(s, '\n').value <= j
  {
    var i := IndexByte(s, '\n');
    assert i.Some? ==> forall k :: 0 <= k < i.value ==> s[k] in s[..i.value];
  }

  lemma SpaceHoldsNoBreak(s: string, i: nat)
    requires s != "" && IsSpace(DecodeRune(s).code) && i < |s| && s[i] == '\n'
    ensures DecodeRune(s).size <= i + 1
  {
    assert 0 < i < DecodeRune(s).size ==> IsContinuation(s[i]);
  }

  // ---- the first statement ------------------------------------------------

  /** The first statement of a text, taken apart. */
  ghost predicate Head(sc: Scanner, s: string, o: nat, l: Located) {
    && sc.Start(s) == Some(o) && sc.First(s[o..]) == Ok(l)
  }

  lemma {:induction false} StartZeroLocal(sc: Scanner, s: string, t: string, k: nat)
    requires sc.Start(s) == Some(0) && k < |s| && k < |t| && s[..k + 1] == t[..k + 1] && IsAscii(s[k])
    ensures sc.Start(t) == Some(0)
  {
    DecodeStopsAtAscii(s, t, k);
    assert s[0] == s[..k + 1][0] == t[0];
    hide DecodeRune, IsSpace;
    if IsSpace(DecodeRune(s).code) {
      sc.StartOfSpace(s);
      assert false;
    }
    sc.StartOfText(t);
  }

  /** A closed first statement stays the first statement whatever follows it. */
  lemma HeadKept(sc: Scanner, s: string, o: nat, l: Located, u: string)
    requires Head(sc, s, o, l) && Closed(s[o..], l)
    ensures Head(sc, s[..o + l.next] + u, o, l)
    ensures sc.Scan(s[..o + l.next] + u) == Later([Shift(l.st, o)], o + l.next, sc.Scan(u))
  {
    hide sc.First, sc.Start, Closed, sc.Scan, Blank;
    var n := o + l.next;
    var t := s[..n] + u;
    HeadKeptAt(sc, s[o..], t[o..], l) by {
      assert s[o..][..l.next] == t[o..][..l.next];
      StartBlank(sc, s, o);
    }
    StartBlank(sc, s, o);
    assert t == s[..o] + t[o..];
    BlankSkips(sc, s[..o], t[o..]);
    assert t[n..] == u;
    sc.ScanContinues([], 0, t, o, l);
    LaterZero(sc.Scan(t));
    assert [] + [Shift(l.st, 0 + o)] == [Shift(l.st, o)];
  }

  lemma HeadKeptAt(sc: Scanner, x: string, y: string, l: Located)
    requires sc.Start(x) == Some(0) && sc.First(x) == Ok(l) && Closed(x, l)
    requires l.next <= |y| && x[..l.next] == y[..l.next]
    ensures sc.Start(y) == Some(0) && sc.First(y) == Ok(l)
  {
    hide sc.First, sc.Start, Closed;
    ClosedIsSeparated(sc, x, l);
    StartZeroLocal(sc, x, y, l.next - 1);
    FirstLocal(sc, x, y, l);
  }

  // ---- replacing a value --------------------------------------------------

  lemma EnvSpacesStep(s: string)
    requires s != ""
    ensures IsEnvSpace(DecodeRune(s).code) ==>
      StartsWell(s) && EnvSpaces(s) == DecodeRune(s).size + EnvSpaces(s[DecodeRune(s).size..])
    ensures !IsEnvSpace(DecodeRune(s).code) ==> EnvSpaces(s) == 0
  {
  }

  lemma VisibleAscii(s: string)
    requires s != "" && IsAscii(s[0]) && !IsEnvSpace(s[0] as int)
    ensures EnvSpaces(s) == 0
  {
  }

  lemma FrontRest(s: string, t: string, e: nat, n: nat)
    requires n <= e <= |s| && e < |t| && s[..e] == t[..e]
    ensures s[..n] == t[..n] && s[n..][..e - n] == t[n..][..e - n]
    ensures t[n..][e - n] == t[e]
  {
    assert s[..n] == s[..e][..n];
    assert t[..n] == t[..e][..n];
    assert s[n..][..e - n] == s[..e][n..];
    assert t[n..][..e - n] == t[..e][n..];
  }

  lemma NoEnvSpaces(s: string)
    ensures s == "" ==> EnvSpaces(s) == 0
  {
  }

  lemma {:induction false} EnvSpacesBefore(s: string, t: string)
    requires EnvSpaces(s) < |t| && s[..EnvSpaces(s)] == t[..EnvSpaces(s)]
    requires IsAscii(t[EnvSpaces(s)]) && !IsEnvSpace(t[EnvSpaces(s)] as int)
    ensures EnvSpaces(t) == EnvSpaces(s)
    decreases |s|
  {
    hide *;
    var e := EnvSpaces(s);
    NoEnvSpaces(s);
    if e == 0 {
      VisibleAscii(t);
    } else {
      EnvSpacesStep(s);
      var n := DecodeRune(s).size;
      FrontRest(s, t, e, n);
      DecodeOwnBytes(s, t);
      EnvSpacesStep(t);
      EnvSpacesBefore(s[n..], t[n..]);
    }
  }

  lemma {:induction false} QuotedOver(s: string, quote: char, v: string, i: nat)
    requires 1 <= i <= 1 + |v| < |s| && s[1..1 + |v|] == v && s[1 + |v|] == quote
    requires IsQuote(quote) && SafeValue(v)
    ensures QuotedEnd(s, quote, i, false) == Some(1 + |v|)
    decreases |s| - i
  {
    if i < 1 + |v| {
      assert s[i] == v[i - 1];
      QuotedOver(s, quote, v, i + 1);
    }
  }

  lemma {:induction false} CommentAfter(v: string, w: string)
    requires forall i :: 0 <= i < |v| ==> v[i] != ' ' && v[i] != '#'
    ensures IndexComment(v + w) == AfterSkip(|v|, IndexComment(w))
    decreases |v|
  {
    if v == "" {
      assert v + w == w;
    } else {
      assert (v + w)[1..] == v[1..] + w;
      CommentAfter(v[1..], w);
    }
  }

  lemma {:induction false} CommentPast(s: string, k: nat)
    requires k <= |BeforeComment(s)|
    ensures IndexComment(s) == AfterSkip(k, IndexComment(s[k..]))
    decreases k
  {
    if k == 0 {
      assert s[0..] == s;
    } else if |s| >= 2 {
      assert s[1..][k - 1..] == s[k..];
      CommentPast(s[1..], k - 1);
    }
  }

  /** An unquoted value is exactly the text written over the old one. */
  lemma UnquotedReplaced(s: string, v: string)
    requires SafeValue(v)
    ensures var tok := UnquotedValue(s);
      && UnquotedLine(v + s[|tok|..]) == v + UnquotedLine(s)[|tok|..]
      && UnquotedValue(v + s[|tok|..]) == v
  {
    hide TrimRight, BeforeComment, UnquotedLine, IsSpace, IsAscii;
    assert FileSafe(v[|v| - 1]);
    assert IsAscii(v[|v| - 1]) && !IsSpace(v[|v| - 1] as int) by { FileSafeIsVisible(v[|v| - 1]); }
    assert '\n' !in v by { assert forall i :: 0 <= i < |v| ==> FileSafe(v[i]); }
    var line := UnquotedLine(s);
    var kept := BeforeComment(line);
    var k := |TrimRight(kept)|;
    assert UnquotedValue(s) == kept[..k];
    LineReplaced(s, k, v);
    BeforeCommentReplaced(line, k, v);
    assert kept == kept[..k] + kept[k..];
    TrimRightReplaced(kept[..k], kept[k..], v);
  }

  lemma FileSafeIsVisible(c: char)
    requires FileSafe(c)
    ensures IsAscii(c) && !IsSpace(c as int)
  {
  }

  lemma BeforeCommentReplaced(line: string, k: nat, v: string)
    requires SafeValue(v) && k <= |BeforeComment(line)|
    ensures BeforeComment(v + line[k..]) == v + BeforeComment(line)[k..]
  {
    assert forall i :: 0 <= i < |v| ==> FileSafe(v[i]);
    CommentPast(line, k);
    CommentAfter(v, line[k..]);
    hide IndexComment;
  }

  lemma UnquotedFits(s: string)
    ensures |UnquotedValue(s)| <= |UnquotedLine(s)|
  {
  }

  lemma LineReplaced(s: string, k: nat, v: string)
    requires k <= |UnquotedLine(s)| && '\n' !in v
    ensures UnquotedLine(v + s[k..]) == v + UnquotedLine(s)[k..]
  {
    var line := UnquotedLine(s);
    var t := v + s[k..];
    if |line| < |s| {
      var i := |v| + |line| - k;
      assert t[i] == '\n';
      assert t[..i] == v + line[k..];
      IndexByteAt(t, '\n', i);
    } else {
      assert '\n' !in t;
    }
  }

  /** `m`, over a new value of `n` bytes. */
  function Resized(m: Located, n: int): Located
    requires n >= 0 && 0 <= m.st.valueStart <= m.st.valueEnd <= m.next
  {
    Located(m.st.(valueEnd := m.st.valueStart + n), m.next + n - (m.st.valueEnd - m.st.valueStart))
  }

  lemma ValueReplaced(s: string, key: string, m: Located, v: string)
    requires Value(s, key) == Ok(m) && SafeValue(v)
    ensures Value(Splice(s, m.st.valueStart, m.st.valueEnd, v), key) == Ok(Resized(m, |v|))
  {
    hide *;
    if s != "" && IsQuote(s[0]) {
      QuotedReplaced(s, key, m, v);
    } else {
      PlainReplaced(s, key, m, v);
    }
  }

  lemma QuotedReplaced(s: string, key: string, m: Located, v: string)
    requires Value(s, key) == Ok(m) && SafeValue(v) && s != "" && IsQuote(s[0])
    ensures Value(Splice(s, m.st.valueStart, m.st.valueEnd, v), key) == Ok(Resized(m, |v|))
  {
    hide UnquotedValue, UnquotedLine, QuotedEnd;
    QuotedOver(Splice(s, m.st.valueStart, m.st.valueEnd, v), s[0], v, 1);
  }

  lemma PlainReplaced(s: string, key: string, m: Located, v: string)
    requires Value(s, key) == Ok(m) && SafeValue(v) && !(s != "" && IsQuote(s[0]))
    ensures Value(Splice(s, m.st.valueStart, m.st.valueEnd, v), key) == Ok(Resized(m, |v|))
  {
    hide UnquotedValue, UnquotedLine, QuotedEnd;
    UnquotedReplaced(s, v);
    assert FileSafe(v[0]);
    var tok := UnquotedValue(s);
    assert m.st.valueEnd == |tok| && m.st.valueStart == 0;
    assert s[..0] + v == v;
    assert Splice(s, 0, |tok|, v) == v + s[|tok|..];
    UnquotedFits(s);
  }

  lemma FirstReplaced(sc: Scanner, s: string, l: Located, v: string)
    requires s != "" && sc.First(s) == Ok(l) && !l.st.inherited && l.st.key != "" && SafeValue(v)
    ensures var t := Splice(s, l.st.valueStart, l.st.valueEnd, v);
      t != "" && sc.First(t) == Ok(Resized(l, |v|)) && t[Resized(l, |v|).next..] == s[l.next..]
  {
    hide sc.First, sc.LocateKey, Value, EnvSpaces, TrimRight, Separated, SafeValue, ValuedAt;
    var head, at, m := ValuedOfFirst(sc, s, l);
    ValuedReplaced(sc, s, head, at, m, v);
    var t := Splice(s, l.st.valueStart, l.st.valueEnd, v);
    FirstOfValued(sc, t, head, at, Resized(m, |v|));
  }

  lemma SpliceParts(s: string, k: nat, at: nat, start: int, end: int, v: string)
    requires k <= at <= |s| && 0 <= start <= end <= |s| - at
    ensures var t := Splice(s, at + start, at + end, v);
      && at <= |t| && t[at..] == Splice(s[at..], start, end, v)
      && t[..k] == s[..k] && t[k..][..at - k] == s[k..][..at - k]
      && (at < |t| ==> t[k..][at - k] == t[at..][0])
  {
  }

  lemma ValuedReplaced(sc: Scanner, s: string, head: KeyHead, at: nat, m: Located, v: string)
    requires ValuedAt(sc, s, head, at, m) && at + m.next <= |s| && m.st.key != "" && SafeValue(v)
    ensures 0 <= m.st.valueStart <= m.st.valueEnd <= m.next
    ensures ValuedAt(sc, Splice(s, at + m.st.valueStart, at + m.st.valueEnd, v), head, at, Resized(m, |v|))
  {
    hide sc.LocateKey, Value, EnvSpaces, TrimRight, Separated, SafeValue, Splice;
    var t := Splice(s, at + m.st.valueStart, at + m.st.valueEnd, v);
    var k := head.keyEnd;
    SpliceParts(s, k, at, m.st.valueStart, m.st.valueEnd, v);
    KeyIsSeparated(sc, s, head);
    LocateKeyLocal(sc, s, t, head);
    ValueReplaced(s[at..], TrimRight(head.key), m, v);
    ValueFront(s[at..], TrimRight(head.key), m, v);
    EnvSpacesBefore(s[k..], t[k..]);
    assert t != "";
  }

  lemma ValueFront(s: string, key: string, m: Located, v: string)
    requires Value(s, key) == Ok(m) && SafeValue(v)
    ensures var w := Splice(s, m.st.valueStart, m.st.valueEnd, v);
      w != "" && IsAscii(w[0]) && !IsEnvSpace(w[0] as int)
  {
    hide UnquotedValue, UnquotedLine, QuotedEnd;
    assert FileSafe(v[0]);
  }

  lemma KeyIsSeparated(sc: Scanner, s: string, head: KeyHead)
    requires sc.LocateKey(s) == Ok(head) && TrimRight(head.key) != ""
    ensures Separated(sc, s)
  {
    assert TrimRight("") == "";
  }
}
