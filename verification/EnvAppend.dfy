/**
  Appending declarations to an env file, whatever its end. A line break of its own
  makes an append safe unless the file ends in a bare name; without one, the first
  line is safe exactly when the file's end is free. The planner gives a line break to
  the first append only, so a later one kept alone becomes part of the last line.
 */
module EnvAppend {
  import opened Text
  import opened EnvScan
  import opened EnvLocal
  import opened EnvEdit
  import opened EnvLaws
  import opened EnvEnd
  import opened EnvInsert
  import opened EnvRewrite

  // ---- a line break after the last line --------------------------------------------

  /** What an append starts with: an ASCII byte that is no part of a rune before it. */
  predicate StartsAscii(y: string) {
    y != "" && IsAscii(y[0])
  }

  lemma DecodeThen(x: string, y: string)
    requires x != "" && StartsAscii(y)
    ensures DecodeRune(x + y) == DecodeRune(x)
  {
    var t := x + y;
    assert forall i :: 0 <= i < |x| ==> t[i] == x[i];
    assert t[|x|] == y[0] && !IsContinuation(y[0]);
  }

  lemma {:induction false} EnvSpacesThen(s: string, y: string)
    requires StartsAscii(y)
    ensures EnvSpaces(s) < |s| ==> EnvSpaces(s + y) == EnvSpaces(s)
    ensures EnvSpaces(s) == |s| ==> EnvSpaces(s + y) == |s| + EnvSpaces(y)
    decreases |s|
  {
    if s == "" {
      assert s + y == y;
    } else {
      DecodeThen(s, y);
      var n := DecodeRune(s).size;
      assert (s + y)[n..] == s[n..] + y;
      hide DecodeRune, IsEnvSpace;
      if IsEnvSpace(DecodeRune(s).code) {
        EnvSpacesThen(s[n..], y);
      }
    }
  }

  lemma EnvSpacesOfEol(eol: string, u: string)
    requires eol in EOLS
    ensures EnvSpaces(eol + u) == |eol| - 1
  {
    assert ("\n" + u)[0] == '\n';
    assert EnvSpaces("\n" + u) == 0;
    if eol == "\r\n" {
      assert (eol + u)[1..] == "\n" + u;
      assert DecodeRune(eol + u) == Rune(13, 1);
    }
  }

  // ---- the last value ---------------------------------------------------------------

  lemma {:induction false} NoCommentAtEnd(line: string, blank: string)
    requires blank == "" || blank == "\r"
    ensures IndexComment(line + blank) == IndexComment(line)
    decreases |line|
  {
    if |line| < 2 {
      if |line| == 1 && blank == "\r" {
        assert (line + blank)[1..] == blank;
      } else if line == "" {
        assert line + blank == blank;
      } else {
        assert line + blank == line;
      }
    } else {
      assert (line + blank)[1..] == line[1..] + blank;
      NoCommentAtEnd(line[1..], blank);
    }
  }

  lemma CarriageIsTrimmed(x: string, blank: string)
    requires blank == "" || blank == "\r"
    ensures TrimRight(x + blank) == TrimRight(x)
  {
    if blank == "\r" {
      assert Last(x + blank, 1) == "\r";
      assert LastSpace(x + blank) == 1;
      assert (x + blank)[..|x|] == x;
    } else {
      assert x + blank == x;
    }
  }

  lemma LineThen(v: string, w: string, u: string)
    requires '\n' !in v && '\n' !in w
    ensures UnquotedLine(v + (w + "\n" + u)) == v + w
  {
    assert v + (w + "\n" + u) == (v + w) + "\n" + u;
    LineStops(v + w, u);
  }

  /** An unquoted value with a rest of a line after it. */
  lemma ValueThen(v: string, w: string, u: string, key: string)
    requires '\n' !in v && '\n' !in w && !IsQuote((v + (w + "\n" + u))[0])
    ensures Value(v + (w + "\n" + u), key)
         == Ok(Located(Statement(key, false, NO_QUOTE, 0, |UnquotedValue(v + w)|), |v| + |w| + 1))
  {
    LineThen(v, w, u);
    UnquotedLineOf(v + w);
    hide UnquotedLine, QuotedEnd, IndexComment, TrimRight, BeforeComment;
  }

  lemma UnquotedLineOf(v: string)
    requires '\n' !in v
    ensures UnquotedLine(v) == v
  {
  }

  /** What follows a last line: the rest `w` of that line, a line break, and more. */
  predicate Follows(y: string, w: string, u: string) {
    && y == w + "\n" + u && '\n' !in w && StartsAscii(y)
    && EnvSpaces(y) <= |w| && !IsQuote(y[EnvSpaces(y)])
  }

  lemma EolFollows(eol: string, u: string)
    requires eol in EOLS
    ensures Follows(eol + u, eol[..|eol| - 1], u)
  {
    EnvSpacesOfEol(eol, u);
    hide EnvSpaces;
  }

  lemma LineFollows(name: string, v: string, eol: string, u: string)
    requires ValidName(name) && SafeValue(v) && eol in EOLS
    ensures Follows(DeclarationLine(name, v, eol) + u, name + "=" + v + eol[..|eol| - 1], u)
    ensures EnvSpaces(DeclarationLine(name, v, eol) + u) == 0
  {
    var y := DeclarationLine(name, v, eol) + u;
    assert y[0] == name[0] && NameByte(name[0]);
    VisibleAscii(y);
    NoBreakInside(name, v, eol);
    hide EnvSpaces;
    assert y == (name + "=" + v + eol[..|eol| - 1]) + "\n" + u;
  }

  lemma NoBreakInside(name: string, v: string, eol: string)
    requires ValidName(name) && SafeValue(v) && eol in EOLS
    ensures '\n' !in name + "=" + v + eol[..|eol| - 1]
  {
    assert forall i :: 0 <= i < |name| ==> NameByte(name[i]);
    assert forall i :: 0 <= i < |v| ==> FileSafe(v[i]);
  }

  lemma OpenIsValued(sc: Scanner, s: string, l: Located)
    requires s != "" && sc.First(s) == Ok(l) && !Closed(s, l)
    ensures !l.st.inherited && l.st.quote == NO_QUOTE && l.next == |s| && s[|s| - 1] != '\n'
  {
    FirstCloses(sc, s, l);
    if l.st.inherited {
      BareEndsInBreak(sc, s, l);
    }
    hide sc.First;
  }

  lemma HeadParts(sc: Scanner, s: string, head: KeyHead, at: nat, m: Located)
    requires ValuedAt(sc, s, head, at, m)
    ensures sc.LocateKey(s) == Ok(head) && !head.inherited && m.st.key == TrimRight(head.key) && ' ' !in TrimRight(head.key)
    ensures head.keyEnd <= |s| && at == head.keyEnd + EnvSpaces(s[head.keyEnd..]) <= |s|
    ensures Value(s[at..], TrimRight(head.key)) == Ok(m)
    ensures 0 <= m.st.valueStart <= m.st.valueEnd <= m.next <= |s| - at
  {
    hide sc.LocateKey, EnvSpaces, TrimRight;
  }

  lemma ShiftedParts(st: Statement, d: int)
    requires !st.inherited
    ensures Shift(st, d) == st.(valueStart := st.valueStart + d, valueEnd := st.valueEnd + d)
  {
  }

  lemma PlainValue(v: string, key: string, m: Located)
    requires Value(v, key) == Ok(m) && m.st.quote == NO_QUOTE
    ensures m.st == Statement(key, false, NO_QUOTE, 0, |UnquotedValue(v)|) && (v != "" ==> !IsQuote(v[0]))
  {
    hide UnquotedValue, UnquotedLine, QuotedEnd;
  }

  /** The value that reaches the end of `b`, once `y` follows. */
  function Grown(b: string, st: Statement, y: string, w: string): Statement
    requires 0 <= st.valueStart <= |b| && EnvSpaces(y) <= |w|
  {
    if st.valueStart < |b|
    then st.(valueEnd := st.valueStart + |UnquotedValue(b[st.valueStart..] + w)|)
    else var e := EnvSpaces(y);
         st.(valueStart := |b| + e, valueEnd := |b| + e + |UnquotedValue(w[e..])|)
  }

  /** A separated last statement takes the rest of the line that follows it. */
  lemma FirstThen(sc: Scanner, b: string, l: Located, y: string, w: string, u: string)
    requires b != "" && sc.First(b) == Ok(l) && !Closed(b, l) && Separated(sc, b) && Follows(y, w, u)
    ensures 0 <= l.st.valueStart <= |b| && EnvSpaces(y) <= |w|
    ensures sc.First(b + y) == Ok(Located(Grown(b, l.st, y, w), |b| + |w| + 1))
  {
    hide *;
    OpenIsValued(sc, b, l);
    var head, at, m := ValuedOfFirst(sc, b, l);
    HeadParts(sc, b, head, at, m);
    ShiftedParts(m.st, at);
    NoBreakLeft(sc, b, head, at, m);
    PlainValue(b[at..], TrimRight(head.key), m);
    FollowParts(y, w, u);
    KeyThen(sc, b, head, y);
    if at < |b| {
      FirstBefore(sc, b, head, at, y, w, u, l.st.valueEnd);
    } else {
      FirstAt(sc, b, head, at, y, w, u, l.st.valueEnd);
    }
  }

  lemma FirstBefore(sc: Scanner, b: string, head: KeyHead, at: nat, y: string, w: string, u: string, end: int)
    requires Follows(y, w, u) && EnvSpaces(y) <= |w| && sc.LocateKey(b + y) == Ok(head) && !head.inherited && ' ' !in TrimRight(head.key)
    requires head.keyEnd <= at < |b| && at == head.keyEnd + EnvSpaces((b + y)[head.keyEnd..])
    requires '\n' !in b[at..] && !IsQuote(b[at..][0])
    ensures sc.First(b + y)
         == Ok(Located(Grown(b, Statement(TrimRight(head.key), false, NO_QUOTE, at, end), y, w), |b| + |w| + 1))
  {
    hide *;
    FollowParts(y, w, u);
    var v := b[at..];
    AfterFront(b, y, at);
    assert (v + (w + "\n" + u))[0] == v[0];
    ValueThen(v, w, u, TrimRight(head.key));
    ThenBefore(sc, b, head, at, y, w, TrimRight(head.key), end);
  }

  lemma AfterFront(b: string, y: string, at: nat)
    requires at <= |b|
    ensures (b + y)[at..] == b[at..] + y
  {
  }

  lemma FirstAt(sc: Scanner, b: string, head: KeyHead, at: nat, y: string, w: string, u: string, end: int)
    requires Follows(y, w, u) && EnvSpaces(y) <= |w| && sc.LocateKey(b + y) == Ok(head) && !head.inherited && ' ' !in TrimRight(head.key)
    requires head.keyEnd <= at == |b| && EnvSpaces((b + y)[head.keyEnd..]) == |b| - head.keyEnd + EnvSpaces(y)
    ensures sc.First(b + y)
         == Ok(Located(Grown(b, Statement(TrimRight(head.key), false, NO_QUOTE, at, end), y, w), |b| + |w| + 1))
  {
    hide *;
    FollowParts(y, w, u);
    var e := EnvSpaces(y);
    BehindFront(b, y, w, u, e);
    ValueThen("", w[e..], u, TrimRight(head.key));
    assert "" + w[e..] == w[e..];
    ThenAt(sc, b, head, at, y, w, TrimRight(head.key), end);
  }

  lemma BehindFront(b: string, y: string, w: string, u: string, e: nat)
    requires y == w + "\n" + u && e <= |w|
    ensures (b + y)[|b| + e..] == "" + (w[e..] + "\n" + u) && ("" + (w[e..] + "\n" + u))[0] == y[e]
  {
  }

  lemma FollowParts(y: string, w: string, u: string)
    requires Follows(y, w, u)
    ensures y == w + "\n" + u && '\n' !in w && StartsAscii(y) && EnvSpaces(y) <= |w| < |y| && !IsQuote(y[EnvSpaces(y)])
    ensures '\n' !in w[EnvSpaces(y)..]
  {
    hide EnvSpaces;
  }

  lemma KeyThen(sc: Scanner, b: string, head: KeyHead, y: string)
    requires sc.LocateKey(b) == Ok(head) && Separated(sc, b) && head.keyEnd <= |b| && StartsAscii(y)
    ensures sc.LocateKey(b + y) == Ok(head)
    ensures var n := EnvSpaces(b[head.keyEnd..]);
      EnvSpaces((b + y)[head.keyEnd..]) == if n < |b| - head.keyEnd then n else |b| - head.keyEnd + EnvSpaces(y)
  {
    hide *;
    assert (b + y)[..head.keyEnd] == b[..head.keyEnd];
    LocateKeyLocal(sc, b, b + y, head);
    EnvSpacesThen(b[head.keyEnd..], y);
    assert (b + y)[head.keyEnd..] == b[head.keyEnd..] + y;
  }

  lemma ThenBefore(sc: Scanner, b: string, head: KeyHead, at: nat, y: string, w: string, key: string, end: int)
    requires sc.LocateKey(b + y) == Ok(head) && !head.inherited && key == TrimRight(head.key) && ' ' !in key
    requires head.keyEnd <= at < |b| && at == head.keyEnd + EnvSpaces((b + y)[head.keyEnd..]) && EnvSpaces(y) <= |w|
    requires Value((b + y)[at..], key)
          == Ok(Located(Statement(key, false, NO_QUOTE, 0, |UnquotedValue(b[at..] + w)|), |b[at..]| + |w| + 1))
    ensures sc.First(b + y) == Ok(Located(Grown(b, Statement(key, false, NO_QUOTE, at, end), y, w), |b| + |w| + 1))
  {
    hide *;
    var m := Located(Statement(key, false, NO_QUOTE, 0, |UnquotedValue(b[at..] + w)|), |b[at..]| + |w| + 1);
    IsValued(sc, b + y, head, at, m);
    FirstOfValued(sc, b + y, head, at, m);
    ShiftedParts(m.st, at);
    GrownBefore(b, Statement(key, false, NO_QUOTE, at, end), y, w);
  }

  lemma GrownBefore(b: string, st: Statement, y: string, w: string)
    requires 0 <= st.valueStart < |b| && EnvSpaces(y) <= |w|
    ensures Grown(b, st, y, w) == st.(valueEnd := st.valueStart + |UnquotedValue(b[st.valueStart..] + w)|)
  {
    hide EnvSpaces, UnquotedValue;
  }

  lemma GrownAt(b: string, st: Statement, y: string, w: string)
    requires st.valueStart == |b| && EnvSpaces(y) <= |w|
    ensures var e := EnvSpaces(y);
      Grown(b, st, y, w) == st.(valueStart := |b| + e, valueEnd := |b| + e + |UnquotedValue(w[e..])|)
  {
    hide EnvSpaces, UnquotedValue;
  }

  lemma ThenAt(sc: Scanner, b: string, head: KeyHead, at: nat, y: string, w: string, key: string, end: int)
    requires sc.LocateKey(b + y) == Ok(head) && !head.inherited && key == TrimRight(head.key) && ' ' !in key
    requires head.keyEnd <= at == |b| && EnvSpaces(y) <= |w| < |y|
    requires EnvSpaces((b + y)[head.keyEnd..]) == |b| - head.keyEnd + EnvSpaces(y)
    requires Value((b + y)[at + EnvSpaces(y)..], key)
          == Ok(Located(Statement(key, false, NO_QUOTE, 0, |UnquotedValue(w[EnvSpaces(y)..])|), 0 + |w[EnvSpaces(y)..]| + 1))
    ensures sc.First(b + y) == Ok(Located(Grown(b, Statement(key, false, NO_QUOTE, at, end), y, w), |b| + |w| + 1))
  {
    hide *;
    var e := EnvSpaces(y);
    var m := Located(Statement(key, false, NO_QUOTE, 0, |UnquotedValue(w[e..])|), |w[e..]| + 1);
    IsValued(sc, b + y, head, at + e, m);
    FirstOfValued(sc, b + y, head, at + e, m);
    ShiftedParts(m.st, at + e);
    GrownAt(b, Statement(key, false, NO_QUOTE, at, end), y, w);
  }

  lemma IsValued(sc: Scanner, s: string, head: KeyHead, at: nat, m: Located)
    requires s != "" && sc.LocateKey(s) == Ok(head) && !head.inherited && ' ' !in TrimRight(head.key) && head.keyEnd <= at <= |s|
    requires at == head.keyEnd + EnvSpaces(s[head.keyEnd..]) && Value(s[at..], TrimRight(head.key)) == Ok(m)
    ensures ValuedAt(sc, s, head, at, m)
  {
    hide sc.LocateKey, EnvSpaces, Value, TrimRight;
  }

  lemma NoBreakLeft(sc: Scanner, s: string, head: KeyHead, at: nat, m: Located)
    requires ValuedAt(sc, s, head, at, m) && at + m.next == |s| && m.st.quote == NO_QUOTE && !(s != "" && s[|s| - 1] == '\n')
    ensures '\n' !in s[at..]
  {
    hide TrimRight, sc.LocateKey, EnvSpaces, Value;
    var v := s[at..];
    if at < |s| {
      LastByte(s, at);
    }
    if '\n' in v {
      BreakEndsLine(v, TrimRight(head.key), m);
    }
  }

  lemma LastByte(s: string, at: nat)
    requires at < |s|
    ensures s[at..][|s| - at - 1] == s[|s| - 1]
  {
  }

  lemma BreakEndsLine(v: string, key: string, m: Located)
    requires Value(v, key) == Ok(m) && m.st.quote == NO_QUOTE && '\n' in v
    ensures 0 < m.next <= |v| && v[m.next - 1] == '\n'
  {
    hide UnquotedValue;
  }

  // ---- a bare name, and a comment, with more after them ------------------------------------

  lemma {:induction false} NoSeparatorThen(sc: Scanner, x: string, k: string, y: string)
    requires sc.FindSeparator(x) == Missing && StartsAscii(k + y) && sc.FindSeparator(k + y) == At(|k|)
    ensures sc.FindSeparator(x + k + y) == At(|x| + |k|)
    decreases |x|
  {
    hide *;
    if x == "" {
      assert x + k + y == k + y;
    } else {
      DecodeThen(x, k + y);
      var n := DecodeRune(x).size;
      MissingStep(sc, x);
      NoSeparatorThen(sc, x[n..], k, y);
      TextAfter(x, k, y, n);
      SeparatorStep(sc, x + k + y);
      FurtherAt(n, |x| - n + |k|);
    }
  }

  lemma TextAfter(x: string, k: string, y: string, n: nat)
    requires n <= |x|
    ensures x + k + y == x + (k + y) && (x + k + y)[n..] == x[n..] + k + y
  {
  }

  lemma FurtherAt(n: nat, i: nat)
    ensures Further(n, At(i)) == At(n + i)
  {
  }

  lemma MissingStep(sc: Scanner, x: string)
    requires x != "" && sc.FindSeparator(x) == Missing
    ensures sc.IsKeyRune(DecodeRune(x).code) && sc.FindSeparator(x[DecodeRune(x).size..]) == Missing
  {
    hide DecodeRune, sc.IsKeyRune;
  }

  lemma SeparatorStep(sc: Scanner, t: string)
    requires t != "" && sc.IsKeyRune(DecodeRune(t).code)
    ensures sc.FindSeparator(t) == Further(DecodeRune(t).size, sc.FindSeparator(t[DecodeRune(t).size..]))
  {
    hide DecodeRune, sc.IsKeyRune;
  }

  predicate NoExportSpace(c: char) {
    c as int !in {9, 10, 12, 13, 32}
  }

  /** What follows a bare name leaves its `export` as it was, unless it makes one. */
  lemma ExportThen(s: string, y: string)
    requires StartsAscii(y) && ExportLength(s) < |s|
    requires |s| <= 6 && |s + y| > 6 && (s + y)[..6] == EXPORT ==> NoExportSpace((s + y)[6])
    ensures ExportLength(s + y) == ExportLength(s)
  {
    var t := s + y;
    if |s| > 6 {
      assert t[..6] == s[..6] && t[6] == s[6];
      if ExportLength(s) > 0 {
        assert t[6..] == s[6..] + y;
        EnvSpacesThen(s[6..], y);
      }
    }
  }

  /** A name and its `=` make no `export` prefix. */
  lemma NameMakesNoExport(s: string, name: string, rest: string)
    requires ValidName(name) && |s| <= 6
    ensures var t := s + (name + ("=" + rest)); |t| > 6 && t[..6] == EXPORT ==> NoExportSpace(t[6])
  {
    var t := s + (name + ("=" + rest));
    assert t[|s| + |name|] == '=';
    assert forall i :: 0 <= i < |name| ==> t[|s| + i] == name[i] && NameByte(name[i]);
    assert |t| > 6 && |s| + |name| < 6 ==> t[..6][|s| + |name|] == '=';
  }

  /** A bare last name: the part of it before its key is scanned. */
  lemma BareParts(sc: Scanner, b: string, l: Located)
    requires b != "" && sc.First(b) == Ok(l) && !Separated(sc, b)
    ensures var e := ExportLength(b); e < |b| && sc.FindSeparator(b[e..]) == Missing
  {
    hide Value, EnvSpaces, TrimRight;
  }

  /** A declaration after a bare name becomes one statement with it, or an error. */
  lemma BareThenLine(sc: Scanner, b: string, l: Located, name: string, v: string, eol: string, u: string)
    requires b != "" && sc.First(b) == Ok(l) && !Closed(b, l) && !Separated(sc, b)
    requires ValidName(name) && SafeValue(v) && eol in EOLS
    ensures var t := b + (DeclarationLine(name, v, eol) + u);
      sc.First(t).Ok? ==> sc.First(t).value.next == |b| + |DeclarationLine(name, v, eol)|
  {
    hide *;
    BareParts(sc, b, l);
    var e := ExportLength(b);
    var w := v + eol + u;
    var y := name + ("=" + w);
    var t := b + y;
    LineText(name, v, eol, u);
    NameStartsAscii(name, "=" + w);
    if |b| <= 6 { NameMakesNoExport(b, name, w); }
    ExportThen(b, y);
    NameIsBytes(name);
    EqualsFirst(w);
    NameThenSeparator(sc, name, "=" + w);
    NoSeparatorThen(sc, b[e..], name, "=" + w);
    GluedParts(b, e, name, w);
    KeyedByLine(sc, t, e, |b| - e + |name|, v, eol, u);
  }

  /** A first statement whose key ends with `=`, and whose value is the rest of a declaration's line. */
  lemma KeyedByLine(sc: Scanner, t: string, e: nat, k: nat, v: string, eol: string, u: string)
    requires ExportLength(t) == e && e <= |t| && sc.FindSeparator(t[e..]) == At(k) && k < |t[e..]| && t[e..][k] == '='
    requires t[e + k + 1..] == v + eol + u && SafeValue(v) && eol in EOLS
    ensures t != "" && (sc.First(t).Ok? ==> sc.First(t).value.next == e + k + 1 + |v| + |eol|)
  {
    hide *;
    SeparatedAt(sc, t, e, k);
    var key := t[e..][..k];
    LineValue(v, eol, u, TrimRight(key));
    FirstAfterKey(sc, t, e, k, v + eol + u);
  }

  lemma GluedParts(b: string, e: nat, name: string, w: string)
    requires e <= |b|
    ensures var t := b + (name + ("=" + w));
      t[e..] == b[e..] + name + ("=" + w) && t[|b| + |name| + 1..] == w && t[e..][|b| - e + |name|] == '='
  {
    var t := b + (name + ("=" + w));
    assert t[e..] == b[e..] + name + ("=" + w);
  }

  lemma EqualsFirst(w: string)
    ensures "=" + w != "" && ("=" + w)[0] == '='
  {
  }

  lemma LineText(name: string, v: string, eol: string, u: string)
    ensures DeclarationLine(name, v, eol) + u == name + ("=" + (v + eol + u))
    ensures |DeclarationLine(name, v, eol)| == |name| + 1 + |v| + |eol|
  {
  }

  lemma NameStartsAscii(name: string, rest: string)
    requires ValidName(name)
    ensures StartsAscii(name + rest)
  {
    assert NameByte(name[0]) && (name + rest)[0] == name[0];
  }

  lemma NameIsBytes(name: string)
    requires ValidName(name)
    ensures forall i :: 0 <= i < |name| ==> NameByte(name[i])
  {
  }

  lemma SeparatedAt(sc: Scanner, t: string, e: nat, k: nat)
    requires ExportLength(t) == e && e <= |t| && sc.FindSeparator(t[e..]) == At(k)
    ensures k < |t[e..]| && sc.LocateKey(t) == Ok(KeyHead(t[e..][..k], e + k + 1, t[e..][k] == '\n'))
  {
    hide ExportLength, sc.FindSeparator;
  }

  /** The first statement, when its key ends with `=` and its value is `w`. */
  lemma FirstAfterKey(sc: Scanner, t: string, e: nat, k: nat, w: string)
    requires e <= |t| && k < |t[e..]| && t[e..][k] == '='
    requires sc.LocateKey(t) == Ok(KeyHead(t[e..][..k], e + k + 1, false)) && t[e + k + 1..] == w
    requires EnvSpaces(w) == 0 && Value(w, TrimRight(t[e..][..k])).Ok?
    ensures t != ""
    ensures sc.First(t).Ok? ==> sc.First(t).value.next == e + k + 1 + Value(w, TrimRight(t[e..][..k])).value.next
  {
    hide sc.LocateKey, EnvSpaces, TrimRight, Value;
  }

  /** A line break after a bare name makes it a bare line, or an error. */
  lemma BareThenEol(sc: Scanner, b: string, l: Located, eol: string, u: string)
    requires b != "" && sc.First(b) == Ok(l) && !Closed(b, l) && !Separated(sc, b) && eol in EOLS
    ensures var t := b + (eol + u); sc.First(t).Ok? ==> sc.First(t).value.st.inherited
  {
    hide *;
    BareParts(sc, b, l);
    var e := ExportLength(b);
    var y := eol + u;
    var t := b + y;
    EolText(eol, u);
    var k := eol[..|eol| - 1];
    BreakSeparates(sc, k, u);
    assert y == k + ("\n" + u);
    var e', j;
    if b == EXPORT {
      EolMakesExport(eol, u);
      e', j := ExportLength(t), 0;
      SeparatedFirst(sc, t[e'..]);
    } else {
      EolMakesNoExport(b, eol, u);
      ExportThen(b, y);
      NoSeparatorThen(sc, b[e..], k, "\n" + u);
      assert t[e..] == b[e..] + k + ("\n" + u);
      e', j := e, |b| - e + |k|;
    }
    SeparatedAt(sc, t, e', j);
    InheritedFirst(sc, t);
  }

  lemma EolText(eol: string, u: string)
    requires eol in EOLS
    ensures eol != ""
    ensures StartsAscii(eol + u) && eol + u == eol[..|eol| - 1] + ("\n" + u)
    ensures eol[..|eol| - 1] == "" || eol[..|eol| - 1] == "\r"
  {
  }

  lemma BreakSeparates(sc: Scanner, k: string, u: string)
    requires k == "" || k == "\r"
    ensures StartsAscii(k + ("\n" + u)) && sc.FindSeparator(k + ("\n" + u)) == At(|k|)
  {
    var y := "\n" + u;
    assert DecodeRune(y) == Rune(10, 1) && !sc.IsKeyRune(10);
    assert sc.FindSeparator(y) == At(0);
    if k == "\r" {
      assert DecodeRune(k + y) == Rune(13, 1) && sc.IsKeyRune(13);
      assert (k + y)[1..] == y;
    } else {
      assert k + y == y;
    }
  }

  lemma SeparatedFirst(sc: Scanner, y: string)
    requires y != "" && y[0] == '\n'
    ensures sc.FindSeparator(y) == At(0)
  {
    assert DecodeRune(y) == Rune(10, 1) && !sc.IsKeyRune(10);
  }

  lemma EolMakesExport(eol: string, u: string)
    requires eol in EOLS
    ensures var t := EXPORT + (eol + u); ExportLength(t) < |t| && t[ExportLength(t)..] != "" && t[ExportLength(t)] == '\n'
    ensures var t := EXPORT + (eol + u); t[ExportLength(t)..][0] == '\n'
  {
    var t := EXPORT + (eol + u);
    assert t[..6] == EXPORT && t[6] == eol[0];
    assert t[6..] == eol + u;
    EnvSpacesOfEol(eol, u);
  }

  lemma EolMakesNoExport(b: string, eol: string, u: string)
    requires b != EXPORT && eol in EOLS
    ensures var t := b + (eol + u); |b| <= 6 && |t| > 6 && t[..6] == EXPORT ==> NoExportSpace(t[6])
  {
    var t := b + (eol + u);
    if |b| < 6 && |t| > 6 {
      assert t[..6][|b|] == eol[0];
      assert |b| == 0 || t[|b|] == eol[0];
      assert eol[0] !in EXPORT;
    } else if |b| == 6 {
      assert t[..6] == b;
    }
  }

  lemma InheritedFirst(sc: Scanner, t: string)
    requires t != "" && sc.LocateKey(t).Ok? && sc.LocateKey(t).value.inherited
    ensures sc.First(t).Ok? ==> sc.First(t).value.st.inherited
  {
    hide sc.LocateKey, EnvSpaces, TrimRight, Value;
  }

  /** A last comment swallows the rest `x` of its line. */
  lemma {:induction false} CommentThen(sc: Scanner, b: string, x: string, u: string)
    requires sc.Start(b) == None && !Blank(b) && '\n' !in x && StartsAscii(x + "\n" + u)
    ensures sc.Start(b + (x + "\n" + u)) == AfterSkip(|b| + |x|, sc.Start("\n" + u))
    ensures Blank(b + (x + "\n" + u)) <==> Blank("\n" + u)
    decreases |b|
  {
    hide *;
    EmptyIsFree(sc);
    var y := x + "\n" + u;
    var t := b + y;
    DecodeThen(b, y);
    if IsSpace(DecodeRune(b).code) {
      var n := DecodeRune(b).size;
      sc.StartOfSpace(b);
      sc.StartOfSpace(t);
      BlankSpace(b);
      BlankSpace(t);
      AfterFront(b, y, n);
      SkipsInside(n, sc.Start(b[n..]));
      CommentThen(sc, b[n..], x, u);
      SkipsTwice(n, |b| - n + |x|, sc.Start("\n" + u));
    } else {
      sc.StartOfText(b);
      HashIsNoSpace(b);
      assert t[0] == b[0];
      HashIsNoSpace(t);
      sc.StartOfText(t);
      var i := IndexByte(b, '\n');
      if i.Some? {
        assert t[..i.value] == b[..i.value];
        IndexByteAt(t, '\n', i.value);
        AfterFront(b, y, i.value);
        BlankComment(b, i.value);
        BlankComment(t, i.value);
        SkipsInside(i.value, sc.Start(b[i.value..]));
        CommentThen(sc, b[i.value..], x, u);
        SkipsTwice(i.value, |b| - i.value + |x|, sc.Start("\n" + u));
      } else {
        var j := |b| + |x|;
        LineEnds(b, x, u);
        IndexByteAt(t, '\n', j);
        BlankComment(t, j);
      }
    }
  }

  lemma SkipsInside(n: nat, r: Option<nat>)
    ensures AfterSkip(n, r) == None <==> r == None
  {
  }

  lemma SkipsTwice(n: nat, m: nat, r: Option<nat>)
    ensures AfterSkip(n, AfterSkip(m, r)) == AfterSkip(n + m, r)
  {
  }

  lemma LineEnds(b: string, x: string, u: string)
    requires '\n' !in b && '\n' !in x
    ensures var t := b + (x + "\n" + u);
      var j := |b| + |x|;
      t[j] == '\n' && '\n' !in t[..j] && t[j..] == "\n" + u
  {
    assert (b + (x + "\n" + u))[..|b| + |x|] == b + x;
  }

  // ---- the statements of what is appended ------------------------------------------------

  /** A declaration, and the line break that ends its line. */
  datatype Decl = Decl(name: string, value: string, eol: string)

  predicate ValidDecls(ds: seq<Decl>) {
    forall i :: 0 <= i < |ds| ==> ValidDecl(ds[i])
  }

  predicate ValidDecl(d: Decl) {
    ValidName(d.name) && SafeValue(d.value) && d.eol in EOLS
  }

  /** The lines of some declarations. */
  function Lines(ds: seq<Decl>): string {
    if ds == [] then "" else DeclarationLine(ds[0].name, ds[0].value, ds[0].eol) + Lines(ds[1..])
  }

  function DeclBindings(ds: seq<Decl>): (r: seq<Binding>)
    ensures |r| == |ds|
  {
    seq(|ds|, i requires 0 <= i < |ds| => Binding(ds[i].name, false, NO_QUOTE, ds[i].value))
  }

  /** A text scans, and says `bs`. */
  ghost predicate Reads(sc: Scanner, t: string, bs: seq<Binding>) {
    sc.Scan(t).Ok? && Bindings(t, sc.Scan(t).value) == bs
  }

  lemma OneLine(sc: Scanner, d: Decl)
    requires ValidDecl(d)
    ensures var line := DeclarationLine(d.name, d.value, d.eol);
      && sc.Scan(line) == Ok([Declaration(d.name, d.value, 0)]) && EndOf(sc, line) == Free
      && Bindings(line, [Declaration(d.name, d.value, 0)]) == [Binding(d.name, false, NO_QUOTE, d.value)]
  {
    hide *;
    DeclParts(d);
    var line := DeclarationLine(d.name, d.value, d.eol);
    EmptyIsFree(sc);
    LineScan(sc, d.name, d.value, d.eol, "");
    assert line + "" == line;
    LaterOk([Declaration(d.name, d.value, 0)], |line|, []);
    ShiftedNothing(|line|);
    assert [Declaration(d.name, d.value, 0)] + [] == [Declaration(d.name, d.value, 0)];
    LineFirst(sc, d.name, d.value, d.eol, "");
    assert line[0..] == line && line[0 + |line|..] == "";
    var l := Located(Declaration(d.name, d.value, 0), |line|);
    LineIsThere(d.name, d.value, d.eol);
    HeadZero(sc, line, l);
    EndAfterHead(sc, line, 0, l);
    LineIsClosed(d.name, d.value, d.eol);
    LineBinding(d.name, d.value, d.eol);
  }

  lemma DeclParts(d: Decl)
    requires ValidDecl(d)
    ensures ValidName(d.name) && SafeValue(d.value) && d.eol in EOLS
  {
  }

  lemma LineIsThere(name: string, v: string, eol: string)
    requires ValidName(name)
    ensures DeclarationLine(name, v, eol) != ""
  {
  }

  lemma LineIsClosed(name: string, v: string, eol: string)
    requires ValidName(name) && eol in EOLS
    ensures var line := DeclarationLine(name, v, eol);
      0 < |line| && Closed(line, Located(Declaration(name, v, 0), |line|))
  {
  }

  lemma LineBinding(name: string, v: string, eol: string)
    ensures Bindings(DeclarationLine(name, v, eol), [Declaration(name, v, 0)]) == [Binding(name, false, NO_QUOTE, v)]
  {
    assert DeclarationLine(name, v, eol)[|name| + 1..|name| + 1 + |v|] == v;
  }

  /** Bindings of a text made of two, whose statements are those of both. */
  lemma BindingsConcat(s: string, sts: seq<Statement>, u: string, us: seq<Statement>)
    requires Ordered(sts, 0, |s|) && Ordered(us, 0, |u|)
    ensures Bindings(s + u, sts + ShiftAll(us, |s|)) == Bindings(s, sts) + Bindings(u, us)
  {
    var t, all := s + u, sts + ShiftAll(us, |s|);
    forall i | 0 <= i < |all|
      ensures BindingOf(t, all[i]) == if i < |sts| then BindingOf(s, sts[i]) else BindingOf(u, us[i - |sts|])
    {
      if i < |sts| {
        if !sts[i].inherited { TokenInFront(s, u, sts[i].valueStart, sts[i].valueEnd); }
      } else {
        var st := us[i - |sts|];
        assert all[i] == Shift(st, |s|);
        if !st.inherited { TokenBehind(s, u, st.valueStart, st.valueEnd); }
      }
    }
  }

  lemma TokenInFront(s: string, u: string, a: int, b: int)
    requires 0 <= a <= b <= |s|
    ensures (s + u)[a..b] == s[a..b]
  {
  }

  lemma TokenBehind(s: string, u: string, a: int, b: int)
    requires 0 <= a <= b <= |u|
    ensures (s + u)[a + |s|..b + |s|] == u[a..b]
  {
  }

  lemma {:induction false} LinesRead(sc: Scanner, ds: seq<Decl>)
    requires ValidDecls(ds)
    ensures Reads(sc, Lines(ds), DeclBindings(ds)) && EndOf(sc, Lines(ds)) == Free
    ensures sc.Scan(Lines(ds)).Ok? && |sc.Scan(Lines(ds)).value| == |ds|
    decreases |ds|
  {
    hide *;
    EmptyIsFree(sc);
    if ds == [] {
      NoLines(sc);
    } else {
      var line, rest := DeclarationLine(ds[0].name, ds[0].value, ds[0].eol), Lines(ds[1..]);
      ValidFirst(ds);
      LinesFirst(ds);
      OneLine(sc, ds[0]);
      LinesRead(sc, ds[1..]);
      ConcatReads(sc, line, [Declaration(ds[0].name, ds[0].value, 0)], rest);
      DeclBindingsFirst(ds);
      ReadsIs(sc, rest, DeclBindings(ds[1..]));
      ReadsIs(sc, line + rest, DeclBindings(ds));
    }
  }

  lemma NoLines(sc: Scanner)
    requires sc.Scan("") == Ok([])
    ensures Lines([]) == "" && Reads(sc, "", DeclBindings([]))
  {
    hide sc.Scan;
    assert Bindings("", []) == DeclBindings([]);
  }

  lemma ValidFirst(ds: seq<Decl>)
    requires ValidDecls(ds) && ds != []
    ensures ValidDecl(ds[0]) && ValidDecls(ds[1..])
  {
    hide ValidDecl;
  }

  lemma LinesFirst(ds: seq<Decl>)
    requires ds != []
    ensures Lines(ds) == DeclarationLine(ds[0].name, ds[0].value, ds[0].eol) + Lines(ds[1..])
  {
  }

  lemma DeclBindingsFirst(ds: seq<Decl>)
    requires ds != []
    ensures DeclBindings(ds) == [Binding(ds[0].name, false, NO_QUOTE, ds[0].value)] + DeclBindings(ds[1..])
  {
  }

  lemma ReadsIs(sc: Scanner, t: string, bs: seq<Binding>)
    ensures Reads(sc, t, bs) <==> sc.Scan(t).Ok? && Bindings(t, sc.Scan(t).value) == bs
  {
  }

  /** After a free end, what a text and its continuation say is what both say. */
  lemma ConcatReads(sc: Scanner, s: string, sts: seq<Statement>, u: string)
    requires sc.Scan(s) == Ok(sts) && EndOf(sc, s) == Free && sc.Scan(u).Ok?
    ensures sc.Scan(s + u) == Ok(sts + ShiftAll(sc.Scan(u).value, |s|)) && EndOf(sc, s + u) == EndOf(sc, u)
    ensures Bindings(s + u, sts + ShiftAll(sc.Scan(u).value, |s|)) == Bindings(s, sts) + Bindings(u, sc.Scan(u).value)
  {
    hide *;
    FreeConcat(sc, s, sts, u);
    LaterOk(sts, |s|, sc.Scan(u).value);
    ScanOrdered(sc, s, sts);
    ScanOrdered(sc, u, sc.Scan(u).value);
    BindingsConcat(s, sts, u, sc.Scan(u).value);
  }

  // ---- the part left open, with more after it ------------------------------------------------

  lemma StartThen(sc: Scanner, b: string, y: string)
    requires sc.Start(b) == Some(0) && b != "" && StartsAscii(y)
    ensures sc.Start(b + y) == Some(0)
  {
    hide DecodeRune, IsSpace, sc.Start;
    DecodeThen(b, y);
    if IsSpace(DecodeRune(b).code) {
      sc.StartOfSpace(b);
    } else {
      sc.StartOfText(b);
      assert (b + y)[0] == b[0];
      sc.StartOfText(b + y);
    }
  }

  lemma LineScansOn(sc: Scanner, t: string)
    requires sc.Start(t) == Some(0) && t != ""
    ensures sc.First(t).Err? ==> sc.Scan(t).Err?
    ensures sc.First(t).Ok? ==> var l := sc.First(t).value;
      l.next <= |t| && sc.Scan(t) == Later([l.st], l.next, sc.Scan(t[l.next..]))
  {
    hide sc.First, sc.Start;
    assert t[0..] == t;
    if sc.First(t).Ok? {
      var l := sc.First(t).value;
      assert t[0 + l.next..] == t[l.next..];
      NotShifted(l.st);
    }
  }

  lemma NotShifted(st: Statement)
    ensures Shift(st, 0) == st
  {
  }

  lemma LaterCount(a: seq<Statement>, n: int, r: Result<seq<Statement>>)
    ensures Later(a, n, r).Ok? <==> r.Ok?
    ensures r.Ok? ==> Later(a, n, r) == Ok(a + ShiftAll(r.value, n)) && |Later(a, n, r).value| == |a| + |r.value|
  {
  }

  lemma SplitParts(sc: Scanner, b: string, bsts: seq<Statement>)
    requires OpenPart(sc, b, bsts)
    ensures sc.Scan(b) == Ok(bsts)
    ensures sc.Start(b) == None ==> !Blank(b) && bsts == []
    ensures sc.Start(b) != None ==> OpenLine(sc, b, bsts)
    ensures sc.Start(b) != None ==> sc.Start(b) == Some(0) && b != "" && sc.First(b).Ok?
    ensures sc.Start(b) != None ==> !Closed(b, sc.First(b).value) && bsts == [sc.First(b).value.st]
  {
    hide sc.Start, sc.First, sc.Scan, Blank, Closed;
  }

  lemma BreakScans(sc: Scanner, u: string)
    ensures sc.Scan("\n" + u).Ok? <==> sc.Scan(u).Ok?
    ensures sc.Scan(u).Ok? ==> |sc.Scan("\n" + u).value| == |sc.Scan(u).value|
  {
    hide *;
    BreakIsEol();
    EolIsFree(sc, "\n");
    FreeConcat(sc, "\n", [], u);
    LaterCount([], |"\n"|, sc.Scan(u));
  }

  lemma BreakIsEol()
    ensures "\n" in EOLS
  {
  }

  lemma EolIsFree(sc: Scanner, eol: string)
    requires eol in EOLS
    ensures sc.Scan(eol) == Ok([]) && EndOf(sc, eol) == Free && Blank(eol)
  {
    hide *;
    EolIsBlank(eol);
    BlankIsFree(sc, eol);
  }

  lemma EolIsBlank(eol: string)
    requires eol in EOLS
    ensures Blank(eol)
  {
    assert Blank("");
    assert DecodeRune("\n") == Rune(10, 1) && "\n"[1..] == "";
    assert Blank("\n");
    assert DecodeRune("\r\n") == Rune(13, 1) && "\r\n"[1..] == "\n";
  }

  /** A declaration swallowed: the part left open takes its whole line. */
  lemma PartSwallows(sc: Scanner, b: string, bsts: seq<Statement>, name: string, v: string, eol: string, u: string)
    requires OpenPart(sc, b, bsts) && ValidName(name) && SafeValue(v) && eol in EOLS && sc.Scan(u).Ok?
    ensures var t := b + (DeclarationLine(name, v, eol) + u);
      sc.Scan(t).Ok? ==> |sc.Scan(t).value| == |bsts| + |sc.Scan(u).value|
  {
    hide *;
    SplitParts(sc, b, bsts);
    EolText(eol, "");
    var line := DeclarationLine(name, v, eol);
    var w := name + "=" + v + eol[..|eol| - 1];
    var t := b + (line + u);
    LineFollows(name, v, eol, u);
    FollowParts(line + u, w, u);
    if sc.Start(b) == None {
      CommentThen(sc, b, w, u);
      BreakScans(sc, u);
      LineLength(name, v, eol);
      CommentSwallows(sc, b, w, u);
    } else {
      var l := sc.First(b).value;
      StartThen(sc, b, line + u);
      LineScansOn(sc, t);
      if Separated(sc, b) {
        FirstThen(sc, b, l, line + u, w, u);
      } else {
        BareThenLine(sc, b, l, name, v, eol, u);
      }
      LineLength(name, v, eol);
      AfterFront(b, line + u, |b|);
      if sc.First(t).Ok? {
        var l' := sc.First(t).value;
        RestIs(b, line, u);
        LaterCount([l'.st], l'.next, sc.Scan(u));
      }
    }
  }

  lemma RestIs(b: string, line: string, u: string)
    ensures (b + (line + u))[|b| + |line|..] == u
  {
  }

  lemma LineLength(name: string, v: string, eol: string)
    requires eol in EOLS
    ensures |name + "=" + v + eol[..|eol| - 1]| + 1 == |DeclarationLine(name, v, eol)|
  {
  }

  lemma CommentSwallows(sc: Scanner, b: string, w: string, u: string)
    requires sc.Start(b + (w + "\n" + u)) == AfterSkip(|b| + |w|, sc.Start("\n" + u))
    ensures var r, t := sc.Scan("\n" + u), sc.Scan(b + (w + "\n" + u));
      (t.Ok? <==> r.Ok?) && (r.Ok? ==> |t.value| == |r.value|)
  {
    hide sc.Scan, sc.Start;
    var t := b + (w + "\n" + u);
    assert t[|b| + |w|..] == "\n" + u;
    sc.ScanAfterSkip(t, |b| + |w|);
  }

  /** At an end that is not free the first line of an append declares nothing. */
  lemma Swallowed(sc: Scanner, s: string, sts: seq<Statement>, name: string, v: string, eol: string, u: string)
    requires sc.Scan(s) == Ok(sts) && EndOf(sc, s) != Free
    requires ValidName(name) && SafeValue(v) && eol in EOLS && sc.Scan(u).Ok?
    ensures var t := s + (DeclarationLine(name, v, eol) + u);
      sc.Scan(t).Ok? ==> |sc.Scan(t).value| == |sts| + |sc.Scan(u).value|
  {
    hide *;
    var a, b, init, bsts := Split(sc, s, sts);
    var y := DeclarationLine(name, v, eol) + u;
    PartSwallows(sc, b, bsts, name, v, eol, u);
    FreeConcat(sc, a, init, b + y);
    assert s + y == a + (b + y);
    LaterCount(init, |a|, sc.Scan(b + y));
    assert |sts| == |init| + |bsts|;
  }

  /** A bare last name becomes a bare line once a line break follows it. */
  lemma BareBreaks(sc: Scanner, s: string, sts: seq<Statement>, eol: string, u: string)
    requires sc.Scan(s) == Ok(sts) && EndOf(sc, s) == Bare && eol in EOLS
    ensures sts != [] && !sts[|sts| - 1].inherited
    ensures var t := s + (eol + u);
      sc.Scan(t).Ok? ==> |sc.Scan(t).value| >= |sts| && sc.Scan(t).value[|sts| - 1].inherited
  {
    hide *;
    var a, b, init, bsts := Split(sc, s, sts);
    SplitParts(sc, b, bsts);
    BareIsLine(sc, b);
    var l := sc.First(b).value;
    OpenIsValued(sc, b, l);
    OpenSeparated(sc, b, l);
    EolText(eol, u);
    StartThen(sc, b, eol + u);
    LineScansOn(sc, b + (eol + u));
    BareThenEol(sc, b, l, eol, u);
    FreeConcat(sc, a, init, b + (eol + u));
    assert s + (eol + u) == a + (b + (eol + u));
    var r := sc.Scan(b + (eol + u));
    LaterCount(init, |a|, r);
    if sc.First(b + (eol + u)).Ok? {
      var l' := sc.First(b + (eol + u)).value;
      LaterCount([l'.st], l'.next, sc.Scan((b + (eol + u))[l'.next..]));
      ShiftedInherited(l'.st, |a|);
    }
    ShiftedInherited(l.st, |a|);
  }

  lemma ShiftedInherited(st: Statement, d: int)
    ensures Shift(st, d).inherited == st.inherited
  {
  }

  lemma BareIsLine(sc: Scanner, b: string)
    requires EndOf(sc, b) == Bare && sc.Scan(b).Ok?
    ensures sc.Start(b) != None
  {
    hide sc.Start, sc.First, Blank;
  }

  lemma OpenSeparated(sc: Scanner, b: string, l: Located)
    requires sc.Start(b) == Some(0) && b != "" && sc.First(b) == Ok(l) && !Closed(b, l)
    ensures EndOf(sc, b) == if Separated(sc, b) then Open else Bare
  {
    hide *;
    assert b[0..] == b;
    HeadZero(sc, b, l);
    HeadInside(sc, b, 0, l);
    OpenIsValued(sc, b, l);
    EndAfterHead(sc, b, 0, l);
  }

  // ---- a line break after the last line --------------------------------------------------------

  /** An open last value runs to the end of its text. */
  lemma OpenValue(sc: Scanner, b: string, l: Located)
    requires b != "" && sc.First(b) == Ok(l) && !Closed(b, l)
    ensures !l.st.inherited && l.st.quote == NO_QUOTE && l.next == |b| && 0 <= l.st.valueStart <= |b|
    ensures l.st.valueEnd == l.st.valueStart + |UnquotedValue(b[l.st.valueStart..])| && '\n' !in b[l.st.valueStart..]
  {
    hide *;
    OpenIsValued(sc, b, l);
    var head, at, m := ValuedOfFirst(sc, b, l);
    HeadParts(sc, b, head, at, m);
    ShiftedParts(m.st, at);
    NoBreakLeft(sc, b, head, at, m);
    PlainValue(b[at..], TrimRight(head.key), m);
  }

  lemma CarriageValue(v: string, cr: string)
    requires '\n' !in v && (cr == "" || cr == "\r")
    ensures UnquotedValue(v + cr) == UnquotedValue(v)
  {
    hide TrimRight, IndexComment, UnquotedLine;
    UnquotedLineOf(v);
    UnquotedLineOf(v + cr);
    NoCommentAtEnd(v, cr);
    if IndexComment(v).Some? {
      assert (v + cr)[..IndexComment(v).value] == v[..IndexComment(v).value];
    } else {
      CarriageIsTrimmed(v, cr);
    }
  }

  /** What a statement says is what it says of its own text. */
  predicate Says(t: string, st: Statement, key: string, text: string) {
    && !st.inherited && st.key == key && st.quote == NO_QUOTE
    && 0 <= st.valueStart <= st.valueEnd <= |t| && t[st.valueStart..st.valueEnd] == text
  }

  lemma SaysBinding(t: string, st: Statement, key: string, text: string)
    requires Says(t, st, key, text)
    ensures BindingOf(t, st) == Binding(key, false, NO_QUOTE, text)
  {
  }

  lemma SliceOf(t: string, at: nat, x: string, rest: string, n: nat)
    requires at <= |t| && t[at..] == x + rest && n <= |x|
    ensures at + n <= |t| && t[at..at + n] == x[..n]
  {
    assert t[at..][..n] == t[at..at + n];
  }

  lemma RestBefore(b: string, y: string, at: nat, w: string, u: string)
    requires at <= |b| && y == w + "\n" + u
    ensures (b + y)[at..] == (b[at..] + w) + ("\n" + u)
  {
  }

  lemma RestAt(b: string, y: string, e: nat, w: string, u: string)
    requires e <= |w| && y == w + "\n" + u
    ensures (b + y)[|b| + e..] == w[e..] + ("\n" + u)
  {
  }

  lemma IsValue(t: string, key: string, at: nat, n: nat, x: string)
    requires n == |UnquotedValue(x)| <= |x| && at + n <= |t| && t[at..at + n] == x[..n]
    ensures Says(t, Statement(key, false, NO_QUOTE, at, at + n), key, UnquotedValue(x))
  {
    hide UnquotedLine, BeforeComment, TrimRight;
  }

  lemma ValueFits(x: string)
    ensures |UnquotedValue(x)| <= |x|
  {
  }

  lemma GrownSaysBefore(b: string, st: Statement, y: string, w: string, u: string)
    requires 0 <= st.valueStart < |b| && EnvSpaces(y) <= |w| && y == w + "\n" + u
    requires !st.inherited && st.quote == NO_QUOTE
    ensures Says(b + y, Grown(b, st, y, w), st.key, UnquotedValue(b[st.valueStart..] + w))
  {
    hide *;
    GrownBefore(b, st, y, w);
    var x := b[st.valueStart..] + w;
    ValueFits(x);
    RestBefore(b, y, st.valueStart, w, u);
    SliceOf(b + y, st.valueStart, x, "\n" + u, |UnquotedValue(x)|);
    IsValue(b + y, st.key, st.valueStart, |UnquotedValue(x)|, x);
  }

  lemma GrownSaysAt(b: string, st: Statement, y: string, w: string, u: string)
    requires st.valueStart == |b| && EnvSpaces(y) <= |w| && y == w + "\n" + u && !st.inherited && st.quote == NO_QUOTE
    ensures Says(b + y, Grown(b, st, y, w), st.key, UnquotedValue(w[EnvSpaces(y)..]))
  {
    hide *;
    GrownAt(b, st, y, w);
    var e := EnvSpaces(y);
    var x := w[e..];
    ValueFits(x);
    RestAt(b, y, e, w, u);
    SliceOf(b + y, |b| + e, x, "\n" + u, |UnquotedValue(x)|);
    IsValue(b + y, st.key, |b| + e, |UnquotedValue(x)|, x);
  }

  /** A part left open by a value, with a line break: the same statement, and a free end. */
  lemma LineEnded(sc: Scanner, b: string, bsts: seq<Statement>, eol: string) returns (bsts': seq<Statement>)
    requires OpenPart(sc, b, bsts) && sc.Start(b) != None && EndOf(sc, b) != Bare && eol in EOLS
    ensures sc.Scan(b + eol) == Ok(bsts') && EndOf(sc, b + eol) == Free && Bindings(b + eol, bsts') == Bindings(b, bsts)
  {
    hide *;
    SplitParts(sc, b, bsts);
    var l := sc.First(b).value;
    OpenSeparated(sc, b, l);
    OpenValue(sc, b, l);
    EolText(eol, "");
    assert eol + "" == eol;
    EolFollows(eol, "");
    var w := eol[..|eol| - 1];
    FirstThen(sc, b, l, eol, w, "");
    StartThen(sc, b, eol);
    var l' := Located(Grown(b, l.st, eol, w), |b| + |w| + 1);
    OpenScan(sc, b + eol, l') by { assert (b + eol)[0..] == b + eol; }
    bsts' := [l'.st];
    OneLineEnd(sc, b + eol, l');
    var text := UnquotedValue(b[l.st.valueStart..]);
    OpenSays(b, l.st);
    if l.st.valueStart < |b| {
      GrownSaysBefore(b, l.st, eol, w, "");
      CarriageValue(b[l.st.valueStart..], w);
    } else {
      GrownSaysAt(b, l.st, eol, w, "");
      EnvSpacesOfEol(eol, "");
      assert w[EnvSpaces(eol)..] == "" && b[l.st.valueStart..] == "";
    }
    SaysBinding(b, l.st, l.st.key, text);
    SaysBinding(b + eol, l'.st, l.st.key, text);
    OneSaid(b, l.st, b + eol, l'.st);
  }

  lemma OpenSays(b: string, st: Statement)
    requires !st.inherited && st.quote == NO_QUOTE && 0 <= st.valueStart <= |b|
    requires st.valueEnd == st.valueStart + |UnquotedValue(b[st.valueStart..])|
    ensures Says(b, st, st.key, UnquotedValue(b[st.valueStart..]))
  {
    hide UnquotedValue;
    var n := |UnquotedValue(b[st.valueStart..])|;
    assert b[st.valueStart..st.valueStart + n] == b[st.valueStart..][..n];
  }

  lemma OneSaid(s: string, st: Statement, t: string, st': Statement)
    requires BindingOf(s, st) == BindingOf(t, st')
    ensures Bindings(t, [st']) == Bindings(s, [st])
  {
    hide BindingOf;
  }

  lemma OneLineEnd(sc: Scanner, t: string, l: Located)
    requires t != "" && sc.Start(t) == Some(0) && sc.First(t) == Ok(l) && l.next == |t| && t[|t| - 1] == '\n'
    ensures EndOf(sc, t) == Free
  {
    hide *;
    assert t[0..] == t && t[0 + l.next..] == "";
    HeadZero(sc, t, l);
    BreakCloses(t, l);
    EndAfterHead(sc, t, 0, l);
    EmptyIsFree(sc);
  }

  lemma BreakCloses(t: string, l: Located)
    requires 0 < l.next <= |t| && t[l.next - 1] == '\n'
    ensures Closed(t, l)
  {
  }

  lemma CommentEnded(sc: Scanner, b: string, bsts: seq<Statement>, eol: string)
    requires OpenPart(sc, b, bsts) && sc.Start(b) == None && eol in EOLS
    ensures sc.Scan(b + eol) == Ok([]) && EndOf(sc, b + eol) == Free && bsts == []
  {
    hide *;
    SplitParts(sc, b, bsts);
    EolText(eol, "");
    EolParts(eol);
    var x := eol[..|eol| - 1];
    CarriageHoldsNoBreak(x);
    CommentThen(sc, b, x, "");
    BreakIsEol();
    EolIsFree(sc, "\n");
    BlankIsFree(sc, b + eol);
  }

  lemma EolParts(eol: string)
    requires eol in EOLS
    ensures |eol| > 0 && eol + "" == eol && "\n" + "" == "\n"
    ensures var x := eol[..|eol| - 1]; (x == "" || x == "\r") && eol == x + "\n" + ""
  {
  }

  lemma CarriageHoldsNoBreak(x: string)
    requires x == "" || x == "\r"
    ensures '\n' !in x
  {
  }

  /**
    A line break after a text that does not end in a bare name changes none of its
    bindings, and what follows it is read on its own.
   */
  lemma Ended(sc: Scanner, s: string, sts: seq<Statement>, eol: string) returns (sts': seq<Statement>)
    requires sc.Scan(s) == Ok(sts) && EndOf(sc, s) != Bare && eol in EOLS
    ensures sc.Scan(s + eol) == Ok(sts') && EndOf(sc, s + eol) == Free && Bindings(s + eol, sts') == Bindings(s, sts)
  {
    hide *;
    if EndOf(sc, s) == Free {
      EolIsFree(sc, eol);
      ConcatReads(sc, s, sts, eol);
      sts' := sts + ShiftAll([], |s|);
      SaysNothing(eol);
      assert Bindings(s, sts) + [] == Bindings(s, sts);
    } else {
      var a, b, init, bsts := Split(sc, s, sts);
      var bsts';
      if sc.Start(b) == None {
        CommentEnded(sc, b, bsts, eol);
        bsts' := [];
        SaysNothing(b);
        SaysNothing(b + eol);
      } else {
        bsts' := LineEnded(sc, b, bsts, eol);
      }
      SplitScan(sc, b, bsts);
      ConcatReads(sc, a, init, b);
      ConcatReads(sc, a, init, b + eol);
      assert a + (b + eol) == s + eol;
      sts' := init + ShiftAll(bsts', |a|);
    }
  }

  lemma SplitScan(sc: Scanner, b: string, bsts: seq<Statement>)
    requires OpenPart(sc, b, bsts)
    ensures sc.Scan(b) == Ok(bsts)
  {
    hide sc.Scan, OpenComment, OpenLine;
  }

  lemma SaysNothing(t: string)
    ensures Bindings(t, []) == []
  {
  }

  // ---- appended declarations, exactly ------------------------------------------------------------

  /** Whether declarations hold after an end: with a line break before them unless it is bare, else only when it is free. */
  predicate HoldsAfter(end: End, lead: string) {
    if lead != "" then end != Bare else end == Free
  }

  lemma LinesHold(sc: Scanner, s: string, sts: seq<Statement>, lead: string, ds: seq<Decl>)
    requires sc.Scan(s) == Ok(sts) && ValidDecls(ds) && HoldsAfter(EndOf(sc, s), lead) && (lead == "" || lead in EOLS)
    ensures Reads(sc, s + (lead + Lines(ds)), Bindings(s, sts) + DeclBindings(ds))
  {
    hide *;
    LinesRead(sc, ds);
    ReadsIs(sc, Lines(ds), DeclBindings(ds));
    HoldsIf(EndOf(sc, s), lead);
    var t, ended := s, sts;
    if lead != "" {
      t := s + lead;
      ended := Ended(sc, s, sts, lead);
    }
    ConcatReads(sc, t, ended, Lines(ds));
    ReadsIs(sc, t + Lines(ds), Bindings(s, sts) + DeclBindings(ds));
    assert t + Lines(ds) == s + (lead + Lines(ds));
  }

  lemma HoldsIf(end: End, lead: string)
    ensures HoldsAfter(end, lead) <==> if lead != "" then end != Bare else end == Free
  {
  }

  lemma ReadCount(sc: Scanner, t: string, bs: seq<Binding>)
    requires Reads(sc, t, bs)
    ensures sc.Scan(t).Ok? && |sc.Scan(t).value| == |bs|
    ensures forall i :: 0 <= i < |bs| ==> BindingOf(t, sc.Scan(t).value[i]) == bs[i]
  {
    hide sc.Scan, BindingOf;
  }

  lemma LinesSwallowed(sc: Scanner, s: string, sts: seq<Statement>, ds: seq<Decl>)
    requires sc.Scan(s) == Ok(sts) && ValidDecls(ds) && ds != [] && EndOf(sc, s) != Free
    ensures !Reads(sc, s + Lines(ds), Bindings(s, sts) + DeclBindings(ds))
  {
    hide *;
    LinesFirst(ds);
    ValidFirst(ds);
    DeclParts(ds[0]);
    LinesRead(sc, ds[1..]);
    Swallowed(sc, s, sts, ds[0].name, ds[0].value, ds[0].eol, Lines(ds[1..]));
    var bs := Bindings(s, sts) + DeclBindings(ds);
    assert |bs| == |sts| + |ds|;
    if Reads(sc, s + Lines(ds), bs) {
      ReadCount(sc, s + Lines(ds), bs);
      assert false;
    }
  }

  lemma LastSaid(s: string, sts: seq<Statement>, more: seq<Binding>)
    requires sts != []
    ensures (Bindings(s, sts) + more)[|sts| - 1] == BindingOf(s, sts[|sts| - 1])
  {
    hide BindingOf;
  }

  lemma InheritedSaid(s: string, st: Statement)
    ensures BindingOf(s, st).inherited == st.inherited
  {
  }

  lemma BareBroken(sc: Scanner, s: string, sts: seq<Statement>, lead: string, ds: seq<Decl>)
    requires sc.Scan(s) == Ok(sts) && EndOf(sc, s) == Bare && lead in EOLS
    ensures !Reads(sc, s + (lead + Lines(ds)), Bindings(s, sts) + DeclBindings(ds))
  {
    hide *;
    var t, bs := s + (lead + Lines(ds)), Bindings(s, sts) + DeclBindings(ds);
    BareBreaks(sc, s, sts, lead, Lines(ds));
    if Reads(sc, t, bs) {
      ReadCount(sc, t, bs);
      LastSaid(s, sts, DeclBindings(ds));
      InheritedSaid(s, sts[|sts| - 1]);
      InheritedSaid(t, sc.Scan(t).value[|sts| - 1]);
      assert false;
    }
  }

  /**
    Declarations appended to a file, after a line break or without one, are new last
    bindings with every other binding as it was, exactly when the end of the file
    holds them.
   */
  lemma AppendedExactly(sc: Scanner, s: string, sts: seq<Statement>, lead: string, ds: seq<Decl>)
    requires sc.Scan(s) == Ok(sts) && ValidDecls(ds) && ds != [] && (lead == "" || lead in EOLS)
    ensures Reads(sc, s + (lead + Lines(ds)), Bindings(s, sts) + DeclBindings(ds)) <==> HoldsAfter(EndOf(sc, s), lead)
  {
    hide *;
    HoldsIf(EndOf(sc, s), lead);
    if HoldsAfter(EndOf(sc, s), lead) {
      LinesHold(sc, s, sts, lead, ds);
    } else if lead == "" {
      LinesSwallowed(sc, s, sts, ds);
      assert lead + Lines(ds) == Lines(ds);
    } else {
      BareBroken(sc, s, sts, lead, ds);
    }
  }

  // ---- an empty last value -------------------------------------------------------------------------

  lemma {:induction false} NoBlankNoComment(s: string)
    requires ' ' !in s
    ensures IndexComment(s) == None
    decreases |s|
  {
    if |s| >= 2 {
      NoBlankNoComment(s[1..]);
    }
  }

  /** Text a value keeps as it is. */
  predicate Solid(v: string) {
    forall i :: 0 <= i < |v| ==> v[i] == '=' || v[i] == '_' || FileSafe(v[i])
  }

  lemma SolidValue(v: string, cr: string)
    requires Solid(v) && (cr == "" || cr == "\r")
    ensures UnquotedValue(v + cr) == v && '\n' !in v
  {
    hide *;
    SolidEnds(v);
    SolidLine(v);
    CarriageValue(v, cr);
  }

  lemma SolidEnds(v: string)
    requires Solid(v)
    ensures '\n' !in v && ' ' !in v && TrimRight(v) == v
  {
    hide LastSpace;
    if v != "" {
      assert v[|v| - 1] == '=' || FileSafe(v[|v| - 1]) || v[|v| - 1] == '_';
      LastSpaceVisible(v);
    } else {
      NothingToTrim();
    }
  }

  lemma NothingToTrim()
    ensures TrimRight("") == ""
  {
  }

  lemma SolidLine(v: string)
    requires '\n' !in v && ' ' !in v && TrimRight(v) == v
    ensures UnquotedValue(v) == v
  {
    hide UnquotedLine, IndexComment, TrimRight;
    UnquotedLineOf(v);
    NoBlankNoComment(v);
  }

  /** A last statement whose value is empty and ends the text. */
  predicate EmptyLast(s: string, sts: seq<Statement>) {
    && sts != []
    && var st := sts[|sts| - 1];
       !st.inherited && st.key != "" && st.quote == NO_QUOTE && st.valueStart == st.valueEnd == |s|
  }

  /** An empty last value takes the visible text that follows it on its line. */
  lemma EmptyTakes(sc: Scanner, s: string, sts: seq<Statement>, x: string, eol: string, u: string)
    requires sc.Scan(s) == Ok(sts) && EmptyLast(s, sts) && Solid(x) && eol in EOLS
    ensures var t := s + (x + eol + u);
      sc.Scan(t).Ok? ==> |sc.Scan(t).value| >= |sts| && BindingOf(t, sc.Scan(t).value[|sts| - 1]).text == x
  {
    hide *;
    EmptyIsOpen(sc, s, sts);
    var a, b, init, bsts := Split(sc, s, sts);
    SplitParts(sc, b, bsts);
    ScanOrdered(sc, a, init);
    NotBlankIsText(b);
    if sc.Start(b) == None { NoneIsEmpty(s, sts, a, b, init); assert false; }
    EmptyIsLine(s, sts, a, b, init, bsts);
    var y := x + eol + u;
    var t := b + y;
    PartTakes(sc, b, bsts, x, eol, u);
    FreeConcat(sc, a, init, t);
    assert s + y == a + t;
    if sc.Scan(a + t).Ok? {
      LaterCount(init, |a|, sc.Scan(t));
      ScanOrdered(sc, t, sc.Scan(t).value);
      LaterSaid(a, init, t, sc.Scan(t).value, |bsts| - 1);
      assert |sts| == |init| + |bsts|;
    }
  }

  lemma LaterSaid(a: string, init: seq<Statement>, t: string, us: seq<Statement>, i: nat)
    requires i < |us| && Ordered(us, 0, |t|)
    ensures BindingOf(a + t, (init + ShiftAll(us, |a|))[|init| + i]) == BindingOf(t, us[i])
  {
    var st := us[i];
    assert (init + ShiftAll(us, |a|))[|init| + i] == Shift(st, |a|);
    if !st.inherited { TokenBehind(a, t, st.valueStart, st.valueEnd); }
  }

  lemma EmptyIsLine(s: string, sts: seq<Statement>, a: string, b: string, init: seq<Statement>, bsts: seq<Statement>)
    requires EmptyLast(s, sts) && s == a + b && sts == init + ShiftAll(bsts, |a|) && |bsts| == 1
    ensures !bsts[0].inherited && bsts[0].key != "" && bsts[0].valueStart == |b|
  {
    assert sts[|sts| - 1] == Shift(bsts[0], |a|);
  }

  lemma NotBlankIsText(b: string)
    ensures b == "" ==> Blank(b)
  {
  }

  lemma NoneIsEmpty(s: string, sts: seq<Statement>, a: string, b: string, init: seq<Statement>)
    requires s == a + b && b != "" && sts == init + ShiftAll([], |a|) && Ordered(init, 0, |a|)
    ensures !EmptyLast(s, sts)
  {
    assert sts == init;
  }

  lemma {:induction false} EmptyIsOpen(sc: Scanner, s: string, sts: seq<Statement>)
    requires sc.Scan(s) == Ok(sts) && EmptyLast(s, sts)
    ensures EndOf(sc, s) == Open
    decreases |s|
  {
    hide *;
    EmptyHas(s, sts);
    var o, l, rest := ScanHead(sc, s, sts);
    HeadInside(sc, s, o, l);
    EndAfterHead(sc, s, o, l);
    HeadOf(sc, s, o, l);
    FirstCloses(sc, s[o..], l);
    if Closed(s[o..], l) {
      EmptyLater(s, sts, o, l, rest);
      EmptyIsOpen(sc, s[o + l.next..], rest);
    } else {
      assert o + l.next == |s|;
      EndHoldsNothing(sc, s[o + l.next..], rest);
      EmptyNow(s, sts, o, l, rest);
      KeyedIsSeparated(sc, s[o..], l);
    }
  }

  lemma EmptyHas(s: string, sts: seq<Statement>)
    requires EmptyLast(s, sts)
    ensures sts != []
  {
  }

  lemma EmptyLater(s: string, sts: seq<Statement>, o: nat, l: Located, rest: seq<Statement>)
    requires EmptyLast(s, sts) && sts == [Shift(l.st, o)] + ShiftAll(rest, o + l.next) && o + l.next <= |s|
    requires !l.st.inherited ==> l.st.valueEnd < l.next
    ensures EmptyLast(s[o + l.next..], rest)
  {
    var last := sts[|sts| - 1];
    assert last == if rest == [] then Shift(l.st, o) else Shift(rest[|rest| - 1], o + l.next);
    if rest == [] {
      assert false;
    }
  }

  lemma EmptyNow(s: string, sts: seq<Statement>, o: nat, l: Located, rest: seq<Statement>)
    requires EmptyLast(s, sts) && sts == [Shift(l.st, o)] + ShiftAll(rest, o + l.next) && rest == []
    ensures l.st.key != "" && !l.st.inherited
  {
    assert sts[|sts| - 1] == Shift(l.st, o);
  }

  lemma KeyedIsSeparated(sc: Scanner, b: string, l: Located)
    requires b != "" && sc.First(b) == Ok(l) && !l.st.inherited && l.st.key != ""
    ensures Separated(sc, b)
  {
    hide *;
    var head, at, m := ValuedOfFirst(sc, b, l);
    HeadParts(sc, b, head, at, m);
    ShiftedKey(m.st, at);
    KeyIsSeparated(sc, b, head);
  }

  lemma ShiftedKey(st: Statement, d: int)
    ensures Shift(st, d).key == st.key
  {
  }

  lemma SolidFollows(x: string, eol: string, u: string)
    requires Solid(x) && eol in EOLS
    ensures var cr := eol[..|eol| - 1];
      && Follows(x + eol + u, x + cr, u) && EnvSpaces(x + eol + u) <= |x + cr|
      && UnquotedValue((x + cr)[EnvSpaces(x + eol + u)..]) == x
  {
    hide *;
    EolText(eol, u);
    var cr, y := eol[..|eol| - 1], x + eol + u;
    if x == "" {
      assert y == eol + u && x + cr == cr;
      EolFollows(eol, u);
      EnvSpacesOfEol(eol, u);
      assert cr[|cr|..] == "";
      NoneIsSolid();
      SolidValue("", "");
      assert "" + "" == "";
    } else {
      SolidFirst(x);
      assert y[0] == x[0];
      VisibleAscii(y);
      SolidValue(x, cr);
      assert x + (cr + ("\n" + u)) == (x + cr) + "\n" + u;
      assert x + eol + u == x + (eol + u);
      CarriageHoldsNoBreak(cr);
      FollowsOf(y, x + cr, u);
      assert (x + cr)[0..] == x + cr;
    }
  }

  lemma NoneIsSolid()
    ensures Solid("")
  {
  }

  lemma SolidFirst(x: string)
    requires Solid(x) && x != ""
    ensures !IsQuote(x[0]) && IsAscii(x[0]) && !IsEnvSpace(x[0] as int)
  {
    assert x[0] == '=' || x[0] == '_' || FileSafe(x[0]);
  }

  lemma FollowsOf(y: string, w: string, u: string)
    requires y == w + "\n" + u && '\n' !in w && IsAscii(y[0]) && EnvSpaces(y) == 0 && !IsQuote(y[0])
    ensures Follows(y, w, u)
  {
  }

  lemma PartTakes(sc: Scanner, b: string, bsts: seq<Statement>, x: string, eol: string, u: string)
    requires OpenLine(sc, b, bsts) && bsts[0].key != "" && bsts[0].valueStart == |b| && Solid(x) && eol in EOLS
    ensures var t := b + (x + eol + u);
      sc.Scan(t).Ok? ==> |sc.Scan(t).value| >= 1 && BindingOf(t, sc.Scan(t).value[0]).text == x
  {
    hide *;
    LineParts(sc, b, bsts);
    var l := sc.First(b).value;
    EolText(eol, u);
    OpenValue(sc, b, l);
    KeyedIsSeparated(sc, b, l);
    var y, w := x + eol + u, x + eol[..|eol| - 1];
    SolidFollows(x, eol, u);
    FollowParts(y, w, u);
    FirstThen(sc, b, l, y, w, u);
    GrownSaysAt(b, l.st, y, w, u);
    var l' := Located(Grown(b, l.st, y, w), |b| + |w| + 1);
    SaysBinding(b + y, l'.st, l.st.key, x);
    StartThen(sc, b, y);
    LineScansOn(sc, b + y);
    LaterCount([l'.st], l'.next, sc.Scan((b + y)[l'.next..]));
  }

  lemma LineParts(sc: Scanner, b: string, bsts: seq<Statement>)
    requires OpenLine(sc, b, bsts)
    ensures sc.Start(b) == Some(0) && b != "" && sc.First(b).Ok? && !Closed(b, sc.First(b).value)
    ensures bsts == [sc.First(b).value.st]
  {
    hide sc.Start, sc.First, Closed;
  }
}
