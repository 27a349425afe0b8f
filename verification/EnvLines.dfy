/**
  What written lines read as. A text is put together from the parts a person writes:
  blanks, comments, an `export`, a name, a separator, a value, its quotes. The scan gives
  each value back where it was put, and says of every other text which of the four errors
  it is. Nothing here is stated through the functions of the scan.
 */
module EnvLines {
  import opened Text
  import opened EnvScan
  import opened EnvLocal
  import opened EnvEdit
  import opened EnvInsert

  // ---- trimming --------------------------------------------------------------------------

  predicate AllSpace(w: string)
    decreases |w|
  {
    w == "" || exists k: nat :: 1 <= k <= |w| && SpaceEncoding(Last(w, k)) && AllSpace(w[..|w| - k])
  }

  predicate EndsVisible(t: string) {
    forall k: nat :: 1 <= k <= |t| ==> !SpaceEncoding(Last(t, k))
  }

  lemma EncodingIsShort(e: string)
    requires SpaceEncoding(e)
    ensures 1 <= |e| <= 3
  {
  }

  /** Of two encodings at the end of a text, neither starts inside the other. */
  lemma OneLastRune(s: string, j: nat, k: nat)
    requires 1 <= j < k <= |s| && SpaceEncoding(Last(s, k))
    ensures !SpaceEncoding(Last(s, j))
  {
    EncodingIsShort(Last(s, k));
    assert Last(s, j)[0] == Last(s, k)[k - j];
    assert IsContinuation(Last(s, k)[k - j]);
  }

  lemma LastSpaceIs(s: string, k: nat)
    requires 1 <= k <= |s| && SpaceEncoding(Last(s, k))
    ensures LastSpace(s) == k
  {
    EncodingIsShort(Last(s, k));
    if k > 1 {
      OneLastRune(s, 1, k);
    }
    if k > 2 {
      OneLastRune(s, 2, k);
    }
    hide SpaceEncoding;
  }

  lemma NoLastSpace(s: string)
    ensures LastSpace(s) == 0 <==> EndsVisible(s)
  {
    if k: nat :| 1 <= k <= |s| && SpaceEncoding(Last(s, k)) {
      LastSpaceIs(s, k);
    }
    hide SpaceEncoding;
  }

  lemma LastOfSum(t: string, w: string, k: nat)
    requires k <= |w|
    ensures Last(t + w, k) == Last(w, k) && (t + w)[..|t + w| - k] == t + w[..|w| - k]
  {
  }

  lemma {:induction false} SpaceIsTrimmed(t: string, w: string)
    requires EndsVisible(t) && AllSpace(w)
    ensures TrimRight(t + w) == t
    decreases |w|
  {
    hide SpaceEncoding, LastSpace;
    if w == "" {
      assert t + w == t;
      NoLastSpace(t);
    } else {
      var k: nat :| 1 <= k <= |w| && SpaceEncoding(Last(w, k)) && AllSpace(w[..|w| - k]);
      LastOfSum(t, w, k);
      LastSpaceIs(t + w, k);
      SpaceIsTrimmed(t, w[..|w| - k]);
    }
  }

  lemma AllSpaceAnd(w: string, k: nat)
    requires 1 <= k <= |w| && SpaceEncoding(Last(w, k)) && AllSpace(w[..|w| - k])
    ensures AllSpace(w)
  {
  }

  lemma {:induction false} TrimmedIsSpace(s: string)
    ensures EndsVisible(TrimRight(s)) && AllSpace(s[|TrimRight(s)|..])
    decreases |s|
  {
    hide SpaceEncoding, LastSpace, AllSpace, EndsVisible;
    var k := LastSpace(s);
    if k == 0 {
      NoLastSpace(s);
      NoneIsSpace();
    } else {
      var x := s[..|s| - k];
      TrimmedIsSpace(x);
      var w := s[|TrimRight(x)|..];
      assert w[..|w| - k] == x[|TrimRight(x)|..];
      assert Last(w, k) == Last(s, k);
      AllSpaceAnd(w, k);
    }
  }

  lemma NoneIsSpace()
    ensures AllSpace("")
  {
  }

  /** What is cut from the right is white space, and all of it. */
  lemma TrimRightExactly(s: string, n: nat)
    requires n <= |s|
    ensures |TrimRight(s)| == n <==> AllSpace(s[n..]) && EndsVisible(s[..n])
  {
    hide *;
    TrimmedIsSpace(s);
    if AllSpace(s[n..]) && EndsVisible(s[..n]) {
      SpaceIsTrimmed(s[..n], s[n..]);
      Halves(s, n);
    }
    TrimRightIsFront(s);
  }

  lemma Halves(s: string, n: nat)
    requires n <= |s|
    ensures s[..n] + s[n..] == s && |s[..n]| == n
  {
  }

  lemma TrimRightIsFront(s: string)
    ensures |TrimRight(s)| <= |s| && TrimRight(s) == s[..|TrimRight(s)|]
  {
  }

  // ---- comments --------------------------------------------------------------------------

  predicate CommentAt(line: string, i: nat) {
    i + 1 < |line| && line[i] == ' ' && line[i + 1] == '#'
  }

  /** The first ` #` is at `m`, or there is none and the line has `m` bytes. */
  predicate CommentFrom(line: string, m: nat) {
    && m <= |line|
    && (m == |line| || CommentAt(line, m))
    && forall j: nat :: j < m ==> !CommentAt(line, j)
  }

  lemma {:induction false} CutAtComment(line: string)
    ensures CommentFrom(line, |BeforeComment(line)|)
  {
    if |line| >= 2 && !CommentAt(line, 0) {
      var rest := line[1..];
      CutAtComment(rest);
      assert |BeforeComment(line)| == 1 + |BeforeComment(rest)|;
      assert forall j: nat :: 0 < j <= |rest| ==> CommentAt(line, j) == CommentAt(rest, j - 1);
    }
  }

  lemma CommentFromOnce(line: string, m: nat, n: nat)
    requires CommentFrom(line, m) && CommentFrom(line, n)
    ensures m == n
  {
  }

  // ---- unquoted values -------------------------------------------------------------------

  /** The value a line starts with: the longest trimmed front of what is before the first ` #`. */
  ghost predicate EndsValue(line: string, n: nat) {
    n <= |line| && exists m: nat :: n <= m && CommentFrom(line, m) && AllSpace(line[n..m]) && EndsVisible(line[..n])
  }

  /** The value's end, whether a line break follows the line or the file ends. */
  lemma UnquotedExactly(line: string, u: string, n: nat)
    requires '\n' !in line && (u == "" || u[0] == '\n')
    ensures |UnquotedValue(line + u)| == n <==> EndsValue(line, n)
  {
    hide *;
    LineIsCut(line, u);
    ValueIsTrimmed(line + u);
    var m := |BeforeComment(line)|;
    CutAtComment(line);
    CutIsFront(line);
    var x := BeforeComment(line);
    if |UnquotedValue(line + u)| == n {
      TrimRightIsFront(x);
      TrimRightExactly(x, n);
      FrontOfFront(line, m, n);
      EndsValueAt(line, n, m);
    }
    if EndsValue(line, n) {
      var k := EndOfValue(line, n);
      CommentFromOnce(line, m, k);
      FrontOfFront(line, m, n);
      TrimRightExactly(x, n);
    }
  }

  lemma LineIsCut(line: string, u: string)
    requires '\n' !in line && (u == "" || u[0] == '\n')
    ensures UnquotedLine(line + u) == line
  {
    var s := line + u;
    if u == "" {
      assert s == line;
    } else {
      assert s[..|line|] == line;
      IndexByteAt(s, '\n', |line|);
    }
  }

  lemma ValueIsTrimmed(s: string)
    ensures UnquotedValue(s) == TrimRight(BeforeComment(UnquotedLine(s)))
  {
  }

  lemma CutIsFront(line: string)
    ensures |BeforeComment(line)| <= |line| && BeforeComment(line) == line[..|BeforeComment(line)|]
  {
  }

  lemma FrontOfFront(line: string, m: nat, n: nat)
    requires n <= m <= |line|
    ensures line[..m][..n] == line[..n] && line[..m][n..] == line[n..m]
  {
  }

  lemma EndsValueAt(line: string, n: nat, m: nat)
    requires n <= m && CommentFrom(line, m) && AllSpace(line[n..m]) && EndsVisible(line[..n])
    ensures EndsValue(line, n)
  {
  }

  lemma EndOfValue(line: string, n: nat) returns (m: nat)
    requires EndsValue(line, n)
    ensures n <= m && CommentFrom(line, m) && AllSpace(line[n..m]) && EndsVisible(line[..n])
  {
    m :| n <= m && CommentFrom(line, m) && AllSpace(line[n..m]) && EndsVisible(line[..n]);
  }

  // ---- quoted values ---------------------------------------------------------------------

  /** How many backslashes in a row the first `i` bytes end with. */
  function Backslashes(body: string, i: nat): nat
    requires i <= |body|
  {
    if i > 0 && body[i - 1] == '\\' then 1 + Backslashes(body, i - 1) else 0
  }

  predicate Escaped(body: string, i: nat)
    requires i <= |body|
  {
    Backslashes(body, i) % 2 == 1
  }

  /** What follows an opening quote holds it only escaped, as far as its `n`-th byte. */
  predicate QuotesEscaped(body: string, quote: char, n: nat)
    requires n <= |body|
  {
    forall i: nat :: i < n && body[i] == quote ==> Escaped(body, i)
  }

  lemma {:induction false} QuotedScan(body: string, quote: char, i: nat)
    requires IsQuote(quote) && i <= |body| && QuotesEscaped(body, quote, i)
    ensures match QuotedEnd([quote] + body, quote, 1 + i, Escaped(body, i))
      case None => QuotesEscaped(body, quote, |body|)
      case Some(e) => i + 1 <= e <= |body| && body[e - 1] == quote && !Escaped(body, e - 1) && QuotesEscaped(body, quote, e - 1)
    decreases |body| - i
  {
    if i < |body| {
      assert ([quote] + body)[1 + i] == body[i];
      assert Escaped(body, i + 1) == (!Escaped(body, i) && body[i] == '\\');
      if body[i] != quote || Escaped(body, i) {
        QuotedScan(body, quote, i + 1);
      }
    }
  }

  /** The closing quote is the first that an even number of backslashes precedes; there is none exactly when all are escaped. */
  lemma QuotedExactly(body: string, quote: char, n: nat)
    requires IsQuote(quote) && n < |body|
    ensures QuotedEnd([quote] + body, quote, 1, false) == Some(1 + n) <==>
      body[n] == quote && !Escaped(body, n) && QuotesEscaped(body, quote, n)
    ensures QuotedEnd([quote] + body, quote, 1, false).None? <==> QuotesEscaped(body, quote, |body|)
  {
    hide QuotedEnd, Escaped;
    assert !Escaped(body, 0) by { NoneEscapes(body); }
    QuotedScan(body, quote, 0);
  }

  lemma NoneEscapes(body: string)
    ensures !Escaped(body, 0)
  {
  }

  // ---- names -----------------------------------------------------------------------------

  predicate KeyByte(c: char) {
    NameByte(c) || c in ".-[]"
  }

  /** The ASCII white space that ends no line. */
  predicate BlankByte(c: char) {
    c in " \t\r" || c as int == 11 || c as int == 12
  }

  predicate Blanks(b: string) {
    forall i :: 0 <= i < |b| ==> BlankByte(b[i])
  }

  predicate KeyText(k: string) {
    k != "" && forall i :: 0 <= i < |k| ==> KeyByte(k[i])
  }

  /** `export` and at least one blank, or nothing. A vertical tab is no blank to the expression that looks for it. */
  predicate Prefix(p: string) {
    p == "" || (|p| > 6 && p[..6] == EXPORT && Blanks(p[6..]) && p[6] as int != 11)
  }

  datatype Name = Name(prefix: string, key: string, gap: string) {
    function Written(): string {
      prefix + key + gap
    }

    /** A name that is not itself read as a prefix. */
    predicate Fits(sep: char) {
      && Prefix(prefix) && KeyText(key) && Blanks(gap)
      && (prefix == "" && key == EXPORT ==> gap == "" && sep != '\n')
    }
  }

  lemma AsciiDecodes(s: string)
    requires s != "" && IsAscii(s[0])
    ensures DecodeRune(s) == Rune(s[0] as int, 1)
  {
  }

  lemma {:induction false} BlanksAreSkipped(b: string, y: string)
    requires Blanks(b) && EnvSpaces(y) == 0
    ensures EnvSpaces(b + y) == |b|
  {
    hide DecodeRune;
    if b == "" {
      assert b + y == y;
    } else {
      assert (b + y)[1..] == b[1..] + y;
      AsciiDecodes(b + y);
      BlanksAreSkipped(b[1..], y);
    }
  }

  /** Key bytes and blanks up to a byte that is neither. */
  lemma {:induction false} NameIsFound(sc: Scanner, k: string, rest: string)
    requires forall i :: 0 <= i < |k| ==> KeyByte(k[i]) || BlankByte(k[i])
    requires rest != "" && IsAscii(rest[0]) && !KeyByte(rest[0]) && !BlankByte(rest[0])
    ensures sc.FindSeparator(k + rest) == if rest[0] in "=:\n" then At(|k|) else Unexpected
    decreases |k|
  {
    hide DecodeRune;
    AsciiDecodes(k + rest);
    if k == "" {
      assert k + rest == rest;
    } else {
      assert (k + rest)[1..] == k[1..] + rest;
      NameIsFound(sc, k[1..], rest);
    }
  }

  lemma VisibleIsNoSpace(y: string)
    requires y != "" && KeyByte(y[0])
    ensures EnvSpaces(y) == 0
  {
  }

  /** The prefix is read as the prefix, whatever the name. */
  lemma PrefixIsRead(n: Name, rest: string)
    requires rest != "" && n.Fits(rest[0]) && rest[0] in "=:\n"
    ensures ExportLength(n.Written() + rest) == |n.prefix|
  {
    hide EnvSpaces;
    var s := n.Written() + rest;
    if n.prefix == "" {
      assert s == n.key + n.gap + rest;
      NoPrefix(n.key, n.gap + rest);
    } else {
      var p := n.prefix;
      var y := n.key + n.gap + rest;
      assert s == p + y;
      assert s[..6] == p[..6];
      assert s[6..] == p[6..] + y;
      assert s[6] == p[6] == p[6..][0];
      assert y[0] == n.key[0];
      VisibleIsNoSpace(y);
      BlanksAreSkipped(p[6..], y);
    }
  }

  lemma NoPrefix(key: string, rest: string)
    requires forall i :: 0 <= i < |key| ==> KeyByte(key[i])
    requires rest != "" ==> !KeyByte(rest[0])
    requires key == EXPORT ==> rest != "" && rest[0] as int !in {9, 10, 12, 13, 32}
    ensures ExportLength(key + rest) == 0
  {
    var s := key + rest;
    assert |s| > 6 && |key| < 6 ==> s[..6][|key|] == rest[0];
    assert |s| > 6 && |key| >= 6 ==> s[..6] == key[..6];
    assert forall i :: 0 <= i < 6 ==> KeyByte(EXPORT[i]);
    assert |key| == 6 ==> key[..6] == key;
  }

  lemma BlanksAreSpace(b: string)
    requires Blanks(b)
    ensures AllSpace(b)
  {
    if b != "" {
      assert BlankByte(Last(b, 1)[0]);
      BlanksAreSpace(b[..|b| - 1]);
    }
  }

  lemma KeyEndsVisible(k: string)
    requires KeyText(k)
    ensures EndsVisible(k)
  {
    assert KeyByte(k[|k| - 1]);
    LastSpaceVisible(k);
    NoLastSpace(k);
  }

  lemma KeyIsTrimmed(k: string, gap: string)
    requires KeyText(k) && Blanks(gap)
    ensures TrimRight(k + gap) == k && ' ' !in k
  {
    hide AllSpace, EndsVisible, TrimRight;
    BlanksAreSpace(gap);
    KeyEndsVisible(k);
    SpaceIsTrimmed(k, gap);
  }

  lemma NameIsRead(sc: Scanner, n: Name, rest: string)
    requires rest != "" && n.Fits(rest[0]) && rest[0] in "=:\n"
    ensures sc.LocateKey(n.Written() + rest)
         == Ok(KeyHead(n.key + n.gap, |n.Written()| + 1, rest[0] == '\n'))
  {
    hide ExportLength, sc.FindSeparator;
    var s := n.Written() + rest;
    var k := n.key + n.gap;
    PrefixIsRead(n, rest);
    assert s[|n.prefix|..] == k + rest;
    NameIsFound(sc, k, rest);
    assert (k + rest)[..|k|] == k && (k + rest)[|k|] == rest[0];
  }

  // ---- one statement ---------------------------------------------------------------------

  lemma NameStartsHere(sc: Scanner, n: Name, rest: string)
    requires rest != "" && n.Fits(rest[0])
    ensures n.Written() + rest != "" && sc.Start(n.Written() + rest) == Some(0)
  {
    var s := n.Written() + rest;
    if n.prefix == "" {
      assert s[0] == n.key[0];
    } else {
      assert s[0] == n.prefix[0] == n.prefix[..6][0];
    }
    AsciiDecodes(s);
    hide DecodeRune;
  }

  /** A name, a separator and blanks, and what the text after them is as a value. */
  lemma ValuedIsRead(sc: Scanner, n: Name, sep: char, blanks: string, y: string, m: Located)
    requires (sep == '=' || sep == ':') && n.Fits(sep) && Blanks(blanks)
    requires EnvSpaces(y) == 0 && Value(y, n.key) == Ok(m)
    ensures var at := |n.Written()| + 1 + |blanks|;
      sc.First(n.Written() + ([sep] + blanks + y)) == Ok(Located(Shift(m.st, at), at + m.next))
  {
    hide *;
    hide Value;
    var rest := [sep] + blanks + y;
    var s := n.Written() + rest;
    NameIsRead(sc, n, rest) by { assert rest[0] == sep; }
    FitsParts(n, sep);
    KeyIsTrimmed(n.key, n.gap);
    BlanksAreSkipped(blanks, y);
    ValuePlace(n.Written(), sep, blanks, y);
    FirstOfValued(sc, s, KeyHead(n.key + n.gap, |n.Written()| + 1, false), |n.Written()| + 1 + |blanks|, m) by {
      ValuedAtIs(sc, s, KeyHead(n.key + n.gap, |n.Written()| + 1, false), |n.Written()| + 1 + |blanks|, m);
    }
  }

  lemma FitsParts(n: Name, sep: char)
    requires n.Fits(sep)
    ensures KeyText(n.key) && Blanks(n.gap)
  {
  }

  lemma ValuePlace(w: string, sep: char, blanks: string, y: string)
    ensures var s := w + ([sep] + blanks + y);
      s != "" && s[|w| + 1..] == blanks + y && s[|w| + 1 + |blanks|..] == y
  {
  }

  lemma ValuedAtIs(sc: Scanner, s: string, head: KeyHead, at: nat, m: Located)
    requires s != "" && sc.LocateKey(s) == Ok(head) && !head.inherited && ' ' !in TrimRight(head.key)
    requires at == head.keyEnd + EnvSpaces(s[head.keyEnd..]) && Value(s[at..], TrimRight(head.key)) == Ok(m)
    ensures ValuedAt(sc, s, head, at, m)
  {
    hide sc.LocateKey, Value, EnvSpaces, TrimRight;
  }

  /** A line that is no quoted value and starts with no white space but a line break. */
  predicate VisibleFront(line: string) {
    line == "" || (!IsQuote(line[0]) && !IsEnvSpace(DecodeRune(line).code))
  }

  lemma PlainValue(line: string, u: string, key: string, n: nat)
    requires '\n' !in line && (u == "" || u[0] == '\n') && EndsValue(line, n)
    requires VisibleFront(line)
    ensures Value(line + u, key)
         == Ok(Located(Statement(key, false, NO_QUOTE, 0, n), |line| + if u == "" then 0 else 1))
  {
    hide EndsValue, UnquotedValue, UnquotedLine, QuotedEnd;
    UnquotedExactly(line, u, n);
    LineIsCut(line, u);
    assert u == "" ==> line + u == line;
  }

  lemma QuotedValue(value: string, quote: char, u: string, key: string)
    requires IsQuote(quote) && QuotesEscaped(value, quote, |value|) && !Escaped(value, |value|)
    ensures Value([quote] + value + [quote] + u, key)
         == Ok(Located(Statement(key, false, quote, 1, 1 + |value|), |value| + 2))
  {
    hide QuotedEnd, Escaped;
    var body := value + [quote] + u;
    var n := |value|;
    assert [quote] + value + [quote] + u == [quote] + body;
    forall i: nat | i <= n
      ensures Escaped(body, i) == Escaped(value, i)
    {
      SameBackslashes(value, [quote] + u, i);
      assert body == value + ([quote] + u);
    }
    QuotedExactly(body, quote, n);
  }

  lemma SameBackslashes(value: string, u: string, i: nat)
    requires i <= |value|
    ensures Escaped(value + u, i) == Escaped(value, i)
  {
    SameRun(value, u, i);
  }

  lemma {:induction false} SameRun(value: string, u: string, i: nat)
    requires i <= |value|
    ensures Backslashes(value + u, i) == Backslashes(value, i)
  {
    if i > 0 {
      SameRun(value, u, i - 1);
    }
  }

  // ---- pieces of a file --------------------------------------------------------------------

  datatype Piece =
    /** A blank line or a comment line. */
    | Skipped(comment: Option<string>)
    /** A name alone on its line. */
    | Bare(name: Name)
    /** A value without quotes, and what its line holds after it. */
    | Plain(name: Name, sep: char, blanks: string, value: string, tail: string)
    /** A value in quotes, up to the closing one. */
    | Quoted(name: Name, sep: char, blanks: string, quote: char, value: string)
  {
    function Written(): (s: string)
      ensures s != ""
    {
      match this
      case Skipped(None) => "\n"
      case Skipped(Some(c)) => "#" + c + "\n"
      case Bare(n) => n.Written() + "\n"
      case Plain(n, sep, b, v, t) => n.Written() + [sep] + b + v + t + "\n"
      case Quoted(n, sep, b, q, v) => n.Written() + [sep] + b + [q] + v + [q]
    }

    /** That the parts are what they are called. */
    ghost predicate Fits() {
      match this
      case Skipped(c) => c.Some? ==> '\n' !in c.value
      case Bare(n) => n.Fits('\n')
      case Plain(n, sep, b, v, t) =>
        && (sep == '=' || sep == ':') && n.Fits(sep) && Blanks(b)
        && '\n' !in v + t && EndsValue(v + t, |v|)
        && VisibleFront(v + t)
      case Quoted(n, sep, b, q, v) =>
        && (sep == '=' || sep == ':') && n.Fits(sep) && Blanks(b)
        && IsQuote(q) && QuotesEscaped(v, q, |v|) && !Escaped(v, |v|)
    }

    /** The statements it is. */
    function Said(): (sts: seq<Statement>) {
      match this
      case Skipped(_) => []
      case Bare(n) => [Statement(n.key, true, NO_QUOTE, 0, 0)]
      case Plain(n, sep, b, v, t) =>
        var at := |n.Written()| + 1 + |b|;
        [Statement(n.key, false, NO_QUOTE, at, at + |v|)]
      case Quoted(n, sep, b, q, v) =>
        var at := |n.Written()| + 1 + |b| + 1;
        [Statement(n.key, false, q, at, at + |v|)]
    }
  }

  lemma SkippedReads(sc: Scanner, c: Option<string>, u: string)
    requires Skipped(c).Fits()
    ensures sc.Scan(Skipped(c).Written() + u) == Later([], |Skipped(c).Written()|, sc.Scan(u))
  {
    hide sc.Scan, Blank;
    SkippedIsBlank(c);
    SkipBlank(sc, Skipped(c).Written(), u);
  }

  lemma SkippedIsBlank(c: Option<string>)
    requires Skipped(c).Fits()
    ensures Blank(Skipped(c).Written())
  {
    var s := Skipped(c).Written();
    if c.None? {
      assert s[1..] == "";
    } else {
      var x := "#" + c.value;
      assert s == x + "\n" && s[..|x|] == x;
      IndexByteAt(s, '\n', |x|);
      assert s[|x|..] == "\n";
      assert "\n"[1..] == "";
      assert Blank("\n");
      HashIsNoSpace(s);
    }
  }

  lemma FirstThenRest(sc: Scanner, s: string, l: Located, u: string)
    requires s != "" && sc.Start(s) == Some(0) && sc.First(s) == Ok(l) && s[l.next..] == u
    ensures sc.Scan(s) == Later([l.st], l.next, sc.Scan(u))
  {
    hide sc.Scan, sc.First, sc.Start;
    assert s[0..] == s;
    sc.ScanContinues([], 0, s, 0, l);
    LaterZero(sc.Scan(s));
    assert [] + [Shift(l.st, 0)] == [l.st];
  }

  lemma BareReads(sc: Scanner, n: Name, u: string)
    requires n.Fits('\n')
    ensures sc.Scan(Bare(n).Written() + u) == Later(Bare(n).Said(), |Bare(n).Written()|, sc.Scan(u))
  {
    hide sc.Scan, sc.First, sc.Start;
    var s := n.Written() + ("\n" + u);
    assert Bare(n).Written() + u == s;
    BareIsFirst(sc, n, "\n" + u);
    NameStartsHere(sc, n, "\n" + u);
    assert s[|n.Written()| + 1..] == u;
    FirstThenRest(sc, s, Located(Statement(n.key, true, NO_QUOTE, 0, 0), |n.Written()| + 1), u);
  }

  lemma BareIsFirst(sc: Scanner, n: Name, rest: string)
    requires rest != "" && rest[0] == '\n' && n.Fits('\n')
    ensures n.Written() + rest != ""
    ensures sc.First(n.Written() + rest) == Ok(Located(Statement(n.key, true, NO_QUOTE, 0, 0), |n.Written()| + 1))
  {
    hide sc.LocateKey, TrimRight;
    NameIsRead(sc, n, rest);
    KeyIsTrimmed(n.key, n.gap);
  }

  lemma QuoteIsVisible(s: string)
    requires s != "" && IsQuote(s[0])
    ensures EnvSpaces(s) == 0
  {
  }

  lemma FrontIsRead(line: string, u: string)
    requires VisibleFront(line) && (u == "" || u[0] == '\n')
    ensures EnvSpaces(line + u) == 0
  {
    if line == "" {
      assert line + u == u;
    } else {
      DecodeBefore(line, u);
      hide DecodeRune;
    }
  }

  /** A line break after a text ends no rune of it. */
  lemma DecodeBefore(s: string, u: string)
    requires s != "" && (u == "" || u[0] == '\n')
    ensures DecodeRune(s + u) == DecodeRune(s)
  {
    var t := s + u;
    if u == "" {
      assert t == s;
    } else {
      assert forall i :: 0 <= i < |s| ==> t[i] == s[i];
      assert t[|s|] == '\n';
    }
  }

  /** An unquoted value; the file may end on its line. */
  lemma PlainIsFirst(sc: Scanner, p: Piece, u: string)
    requires p.Plain? && p.Fits() && (u == "" || u[0] == '\n')
    ensures var s := p.name.Written() + ([p.sep] + p.blanks + (p.value + p.tail + u));
      && s != "" && sc.Start(s) == Some(0)
      && sc.First(s) == Ok(Located(p.Said()[0], |p.name.Written()| + 1 + |p.blanks| + |p.value + p.tail| + if u == "" then 0 else 1))
  {
    hide sc.First, sc.Start, EnvSpaces, Value, EndsValue;
    var line := p.value + p.tail;
    PlainValue(line, u, p.name.key, |p.value|);
    FrontIsRead(line, u);
    NameStartsHere(sc, p.name, [p.sep] + p.blanks + (line + u));
    ValuedIsRead(sc, p.name, p.sep, p.blanks, line + u,
                 Located(Statement(p.name.key, false, NO_QUOTE, 0, |p.value|), |line| + if u == "" then 0 else 1));
  }

  lemma PlainReads(sc: Scanner, p: Piece, u: string)
    requires p.Plain? && p.Fits()
    ensures sc.Scan(p.Written() + u) == Later(p.Said(), |p.Written()|, sc.Scan(u))
  {
    hide *;
    PlainIsFirst(sc, p, "\n" + u);
    var s := p.name.Written() + ([p.sep] + p.blanks + (p.value + p.tail + ("\n" + u)));
    PlainWritten(p, u);
    FirstThenRest(sc, s, Located(p.Said()[0], |p.Written()|), u);
  }

  lemma PlainWritten(p: Piece, u: string)
    requires p.Plain?
    ensures |("\n" + u)| > 0 && ("\n" + u)[0] == '\n'
    ensures |p.Written()| == |p.name.Written()| + 1 + |p.blanks| + |p.value + p.tail| + 1
    ensures p.Written() + u == p.name.Written() + ([p.sep] + p.blanks + (p.value + p.tail + ("\n" + u)))
    ensures (p.Written() + u)[|p.Written()|..] == u
    ensures |p.Said()| == 1 && p.Said() == [p.Said()[0]]
  {
    hide Name.Written;
  }

  lemma QuotedReads(sc: Scanner, p: Piece, u: string)
    requires p.Quoted? && p.Fits()
    ensures sc.Scan(p.Written() + u) == Later(p.Said(), |p.Written()|, sc.Scan(u))
  {
    hide sc.Scan, sc.First, sc.Start, EnvSpaces, Value, Escaped;
    var y := [p.quote] + p.value + [p.quote] + u;
    QuotedValue(p.value, p.quote, u, p.name.key);
    QuoteIsVisible(y);
    var s := p.name.Written() + ([p.sep] + p.blanks + y);
    NameStartsHere(sc, p.name, [p.sep] + p.blanks + y);
    ValuedIsRead(sc, p.name, p.sep, p.blanks, y,
                 Located(Statement(p.name.key, false, p.quote, 1, 1 + |p.value|), |p.value| + 2));
    assert p.Written() + u == s;
    assert s[|p.Written()|..] == u;
    FirstThenRest(sc, s, Located(p.Said()[0], |p.Written()|), u);
    assert p.Said() == [p.Said()[0]];
  }

  /** A piece reads as its own statements, and what follows as what it is alone. */
  lemma PieceReads(sc: Scanner, p: Piece, u: string)
    requires p.Fits()
    ensures sc.Scan(p.Written() + u) == Later(p.Said(), |p.Written()|, sc.Scan(u))
  {
    match p
    case Skipped(c) => SkippedReads(sc, c, u);
    case Bare(n) => BareReads(sc, n, u);
    case Plain(_, _, _, _, _) => PlainReads(sc, p, u);
    case Quoted(_, _, _, _, _) => QuotedReads(sc, p, u);
  }

  // ---- whole files ---------------------------------------------------------------------------

  function FileText(ps: seq<Piece>): string {
    if ps == [] then "" else ps[0].Written() + FileText(ps[1..])
  }

  /** Each piece's statements, where the piece is. */
  function FileSaid(ps: seq<Piece>): seq<Statement> {
    if ps == [] then [] else ps[0].Said() + ShiftAll(FileSaid(ps[1..]), |ps[0].Written()|)
  }

  ghost predicate AllFit(ps: seq<Piece>) {
    forall i :: 0 <= i < |ps| ==> ps[i].Fits()
  }

  /** Pieces written one after the other read as what each says; what follows reads as what it is alone. */
  lemma {:induction false} PiecesRead(sc: Scanner, ps: seq<Piece>, u: string)
    requires AllFit(ps)
    ensures sc.Scan(FileText(ps) + u) == Later(FileSaid(ps), |FileText(ps)|, sc.Scan(u))
  {
    hide *;
    PiecesApart(ps, u);
    if ps == [] {
      LaterZero(sc.Scan(u));
    } else {
      PieceReads(sc, ps[0], FileText(ps[1..]) + u);
      PiecesRead(sc, ps[1..], u);
      LaterJoins(ps[0].Said(), |ps[0].Written()|, FileSaid(ps[1..]), |FileText(ps[1..])|, sc.Scan(u));
    }
  }

  lemma PiecesApart(ps: seq<Piece>, u: string)
    requires AllFit(ps)
    ensures ps == [] ==> FileText(ps) == "" && FileSaid(ps) == [] && FileText(ps) + u == u
    ensures ps != [] ==> ps[0].Fits() && AllFit(ps[1..])
    ensures ps != [] ==> FileText(ps) + u == ps[0].Written() + (FileText(ps[1..]) + u)
    ensures ps != [] ==> |FileText(ps)| == |ps[0].Written()| + |FileText(ps[1..])|
    ensures ps != [] ==> FileSaid(ps) == ps[0].Said() + ShiftAll(FileSaid(ps[1..]), |ps[0].Written()|)
  {
    hide *;
    FirstFits(ps);
    FirstWritten(ps, u);
    FirstSaid(ps);
  }

  lemma FirstFits(ps: seq<Piece>)
    requires AllFit(ps)
    ensures ps != [] ==> ps[0].Fits() && AllFit(ps[1..])
  {
    hide Piece.Fits;
  }

  lemma FirstWritten(ps: seq<Piece>, u: string)
    ensures ps == [] ==> FileText(ps) == "" && FileText(ps) + u == u
    ensures ps != [] ==> FileText(ps) + u == ps[0].Written() + (FileText(ps[1..]) + u)
    ensures ps != [] ==> |FileText(ps)| == |ps[0].Written()| + |FileText(ps[1..])|
  {
    hide Piece.Written;
  }

  lemma FirstSaid(ps: seq<Piece>)
    ensures ps == [] ==> FileSaid(ps) == []
    ensures ps != [] ==> FileSaid(ps) == ps[0].Said() + ShiftAll(FileSaid(ps[1..]), |ps[0].Written()|)
  {
    hide Piece.Said, Piece.Written, ShiftAll;
  }

  lemma LaterJoins(a: seq<Statement>, d: int, b: seq<Statement>, e: int, r: Result<seq<Statement>>)
    ensures Later(a, d, Later(b, e, r)) == Later(a + ShiftAll(b, d), d + e, r)
  {
    hide ShiftAll;
    if r.Ok? {
      ShiftSum(b, ShiftAll(r.value, e), d);
      ShiftTwice(r.value, e, d);
      assert a + (ShiftAll(b, d) + ShiftAll(r.value, d + e)) == a + ShiftAll(b, d) + ShiftAll(r.value, d + e);
    }
  }

  lemma ShiftSum(a: seq<Statement>, b: seq<Statement>, d: int)
    ensures ShiftAll(a + b, d) == ShiftAll(a, d) + ShiftAll(b, d)
  {
  }

  lemma ShiftTwice(a: seq<Statement>, d: int, e: int)
    ensures ShiftAll(ShiftAll(a, d), e) == ShiftAll(a, d + e)
  {
  }

  /** A written file reads as what its pieces say, behind a byte order mark too. */
  lemma FileReadsBack(sc: Scanner, ps: seq<Piece>)
    requires AllFit(ps)
    ensures sc.ScanFile(FileText(ps)) == Ok(FileSaid(ps))
    ensures sc.ScanFile(BOM + FileText(ps)) == Ok(ShiftAll(FileSaid(ps), 3))
  {
    hide sc.Scan, AllFit, FileSaid;
    PiecesRead(sc, ps, "");
    var s := FileText(ps);
    assert s + "" == s;
    EmptyScans(sc);
    assert FileSaid(ps) + ShiftAll([], |s|) == FileSaid(ps);
    WrittenIsAscii(ps);
    assert (BOM + s)[3..] == s;
    assert [] + ShiftAll(FileSaid(ps), 3) == ShiftAll(FileSaid(ps), 3);
  }

  lemma EmptyScans(sc: Scanner)
    ensures sc.Scan("") == Ok([])
  {
  }

  lemma WrittenIsAscii(ps: seq<Piece>)
    requires AllFit(ps)
    ensures FileText(ps) != "" ==> IsAscii(FileText(ps)[0])
  {
    if ps != [] && !ps[0].Skipped? {
      NameIsAscii(ps[0].name, if ps[0].Bare? then '\n' else ps[0].sep);
    }
  }

  lemma NameIsAscii(n: Name, sep: char)
    requires n.Fits(sep)
    ensures n.Written() != "" && IsAscii(n.Written()[0])
  {
    if n.prefix == "" {
      assert n.Written()[0] == n.key[0];
    } else {
      assert n.Written()[0] == n.prefix[..6][0];
    }
  }

  /** The bytes of a piece's statement are the value it was written with. */
  lemma SaidIsWritten(p: Piece)
    requires p.Fits() && (p.Plain? || p.Quoted?)
    ensures var st := p.Said()[0];
      && 0 <= st.valueStart <= st.valueEnd <= |p.Written()|
      && p.Written()[st.valueStart..st.valueEnd] == p.value
  {
    hide Piece.Fits, Name.Fits;
  }

  // ---- a last line without a line break, and any line ------------------------------------------

  /** A file may end on the line of its last value. */
  lemma UnendedReads(sc: Scanner, p: Piece)
    requires p.Plain? && p.Fits()
    ensures sc.Scan(p.name.Written() + [p.sep] + p.blanks + p.value + p.tail) == Ok(p.Said())
  {
    hide sc.Scan, sc.First, sc.Start;
    PlainIsFirst(sc, p, "");
    var s := p.name.Written() + [p.sep] + p.blanks + p.value + p.tail;
    assert s == p.name.Written() + ([p.sep] + p.blanks + (p.value + p.tail + ""));
    assert s[|s|..] == "";
    FirstThenRest(sc, s, Located(p.Said()[0], |s|), "");
    EmptyScans(sc);
    assert [p.Said()[0]] + ShiftAll([], |s|) == p.Said();
  }

  /** Any line after a name and a separator: its value is `n` bytes exactly when they are all up to the comment but white space. */
  lemma LineReadsExactly(sc: Scanner, name: Name, sep: char, blanks: string, line: string, n: nat)
    requires (sep == '=' || sep == ':') && name.Fits(sep) && Blanks(blanks)
    requires '\n' !in line && VisibleFront(line)
    ensures var at := |name.Written()| + 1 + |blanks|;
      sc.Scan(name.Written() + [sep] + blanks + line + "\n") == Ok([Statement(name.key, false, NO_QUOTE, at, at + n)])
      <==> EndsValue(line, n)
  {
    hide *;
    var k := |UnquotedValue(line + "")|;
    UnquotedExactly(line, "", k) by { LineIsCut(line, ""); UnquotedInLine(line); }
    LinePieceReads(sc, name, sep, blanks, line, k);
    if EndsValue(line, n) {
      EndOfFits(line, n);
      UnquotedExactly(line, "", n);
    }
  }

  lemma EndOfFits(line: string, n: nat)
    requires EndsValue(line, n)
    ensures n <= |line|
  {
  }

  lemma UnquotedInLine(line: string)
    ensures |UnquotedValue(line + "")| <= |line|
  {
    assert line + "" == line;
  }

  lemma LinePieceReads(sc: Scanner, name: Name, sep: char, blanks: string, line: string, k: nat)
    requires (sep == '=' || sep == ':') && name.Fits(sep) && Blanks(blanks)
    requires '\n' !in line && VisibleFront(line) && EndsValue(line, k)
    ensures var at := |name.Written()| + 1 + |blanks|;
      sc.Scan(name.Written() + [sep] + blanks + line + "\n") == Ok([Statement(name.key, false, NO_QUOTE, at, at + k)])
  {
    hide *;
    EndOfFits(line, k);
    var p := Plain(name, sep, blanks, line[..k], line[k..]);
    Halves(line, k);
    PlainFits(p, line);
    PieceAlone(sc, p);
    PlainParts(p, line);
  }

  lemma PlainFits(p: Piece, line: string)
    requires p.Plain? && p.value + p.tail == line && (p.sep == '=' || p.sep == ':') && p.name.Fits(p.sep) && Blanks(p.blanks)
    requires '\n' !in line && VisibleFront(line) && EndsValue(line, |p.value|)
    ensures p.Fits()
  {
    hide EndsValue, VisibleFront, Name.Fits;
  }

  lemma PlainParts(p: Piece, line: string)
    requires p.Plain? && p.value + p.tail == line
    ensures p.Written() == p.name.Written() + [p.sep] + p.blanks + line + "\n"
    ensures var at := |p.name.Written()| + 1 + |p.blanks|;
      p.Said() == [Statement(p.name.key, false, NO_QUOTE, at, at + |p.value|)]
  {
    hide Name.Written;
  }

  lemma PieceAlone(sc: Scanner, p: Piece)
    requires p.Fits()
    ensures sc.Scan(p.Written()) == Ok(p.Said())
  {
    hide Piece.Fits, Piece.Said, Piece.Written, sc.Scan;
    PieceReads(sc, p, "");
    EmptyScans(sc);
    assert p.Written() + "" == p.Written();
    assert p.Said() + ShiftAll([], |p.Written()|) == p.Said();
  }

  /** In particular a comment: `name=value #...`, the value visible ASCII without a ` #`. */
  lemma CommentedReads(sc: Scanner, name: Name, sep: char, blanks: string, value: string, gap: string, comment: string, u: string)
    requires (sep == '=' || sep == ':') && name.Fits(sep) && Blanks(blanks) && Blanks(gap)
    requires value != "" && !IsQuote(value[0]) && '\n' !in comment
    requires forall i :: 0 <= i < |value| ==> '!' <= value[i] <= '~'
    ensures var at := |name.Written()| + 1 + |blanks|;
      var line := name.Written() + [sep] + blanks + value + gap + " #" + comment + "\n";
      sc.Scan(line + u) == Later([Statement(name.key, false, NO_QUOTE, at, at + |value|)], |line|, sc.Scan(u))
  {
    hide sc.Scan, Name.Fits, EndsValue;
    var tail := gap + " #" + comment;
    VisibleValue(value, gap, comment);
    var p := Plain(name, sep, blanks, value, tail);
    assert '\n' !in value + tail;
    assert (value + tail)[0] == value[0];
    AsciiDecodes(value + tail);
    hide DecodeRune;
    PieceReads(sc, p, u);
    assert p.Written() == name.Written() + [sep] + blanks + value + gap + " #" + comment + "\n";
  }

  lemma VisibleValue(value: string, gap: string, comment: string)
    requires value != "" && forall i :: 0 <= i < |value| ==> '!' <= value[i] <= '~'
    requires Blanks(gap)
    ensures EndsValue(value + (gap + " #" + comment), |value|)
  {
    hide AllSpace, EndsVisible;
    var line := value + (gap + " #" + comment);
    var n, m := |value|, |value| + |gap|;
    assert CommentFrom(line, m) by {
      forall j: nat | j < m
        ensures !CommentAt(line, j)
      {
        assert j < n ==> line[j] == value[j];
        assert n <= j < m - 1 ==> line[j + 1] == gap[j + 1 - n];
        assert j == m - 1 ==> line[j + 1] == ' ';
      }
    }
    assert line[n..m] == gap && line[..n] == value;
    BlanksAreSpace(gap);
    LastSpaceVisible(value);
    NoLastSpace(value);
    EndsValueAt(line, n, m);
  }

  /** `name=value` on a line of its own. */
  function Simple(key: string, value: string): Piece {
    Plain(Name("", key, ""), '=', "", value, "")
  }

  lemma SimpleFits(key: string, value: string)
    requires KeyText(key) && value != "" && !IsQuote(value[0]) && forall i :: 0 <= i < |value| ==> '!' <= value[i] <= '~'
    ensures Simple(key, value).Fits()
  {
    hide *;
    VisibleAlone(value);
    VisibleText(value);
    SimpleParts(key, value);
  }

  lemma SimpleParts(key: string, value: string)
    requires KeyText(key) && '\n' !in value && EndsValue(value, |value|) && VisibleFront(value)
    ensures Simple(key, value).Fits()
  {
    hide KeyText, EndsValue, VisibleFront;
    assert value + "" == value;
  }

  lemma VisibleText(value: string)
    requires value != "" && !IsQuote(value[0]) && forall i :: 0 <= i < |value| ==> '!' <= value[i] <= '~'
    ensures VisibleFront(value) && '\n' !in value && CommentFrom(value, |value|)
    ensures IsAscii(value[|value| - 1]) && !IsSpace(value[|value| - 1] as int)
  {
    AsciiDecodes(value);
    hide DecodeRune;
  }

  lemma VisibleAlone(value: string)
    requires value != "" && !IsQuote(value[0]) && forall i :: 0 <= i < |value| ==> '!' <= value[i] <= '~'
    ensures EndsValue(value, |value|)
  {
    VisibleText(value);
    hide AllSpace, EndsVisible, CommentFrom, VisibleFront, IsSpace, DecodeRune;
    assert value[..|value|] == value && value[|value|..|value|] == "";
    NoneIsSpace();
    LastSpaceVisible(value);
    NoLastSpace(value);
    EndsValueAt(value, |value|, |value|);
  }

  // ---- texts that are refused ------------------------------------------------------------------

  lemma FirstFails(sc: Scanner, s: string, e: ScanError)
    requires s != "" && sc.Start(s) == Some(0) && sc.First(s) == Err(e)
    ensures sc.Scan(s) == Err(e)
  {
    hide sc.First, sc.Start;
    assert s[0..] == s;
  }

  lemma KeyStarts(sc: Scanner, s: string)
    requires s != "" && '!' <= s[0] <= '~' && s[0] != '#'
    ensures sc.Start(s) == Some(0)
  {
    AsciiDecodes(s);
    hide DecodeRune;
  }

  /** A byte no name holds, before any separator. */
  lemma UnexpectedByte(sc: Scanner, key: string, c: char, u: string)
    requires (key == "" && c != '#') || KeyText(key)
    requires '!' <= c <= '~' && !KeyByte(c) && c != '=' && c != ':'
    ensures sc.Scan(key + [c] + u) == Err(UnexpectedCharacter)
  {
    hide sc.Start;
    var rest := [c] + u;
    var s := key + rest;
    assert s == key + [c] + u;
    assert key != "" ==> s[0] == key[0] && KeyByte(key[0]);
    KeyStarts(sc, s);
    NoPrefix(key, rest);
    NameIsFound(sc, key, rest);
    assert s[0..] == s;
    hide sc.FindSeparator, ExportLength;
    FirstFails(sc, s, UnexpectedCharacter);
  }

  /** Two names with a blank between them, the first no `export`. */
  lemma SpaceInKey(sc: Scanner, key: string, gap: string, more: string, sep: char, u: string)
    requires KeyText(key) && key != EXPORT && Blanks(gap) && ' ' in gap && KeyText(more) && sep in "=:\n"
    ensures sc.Scan(key + gap + more + [sep] + u) == Err(KeyWithSpace)
  {
    hide sc.Start;
    var k := key + gap + more;
    var s := k + ([sep] + u);
    assert s == key + gap + more + [sep] + u;
    assert s[0] == key[0] && KeyByte(key[0]);
    KeyStarts(sc, s);
    assert s == key + (gap + more + [sep] + u);
    NoPrefix(key, gap + more + [sep] + u);
    NameIsFound(sc, k, [sep] + u);
    assert s[0..] == s && s[..|k|] == k;
    KeyEndsVisible(more);
    TrimEndsVisible(key + gap, more);
    SpaceIsThere(key, gap, more);
    hide sc.FindSeparator, ExportLength, TrimRight;
    FirstFails(sc, s, KeyWithSpace);
  }

  lemma SpaceIsThere(key: string, gap: string, more: string)
    requires ' ' in gap
    ensures ' ' in key + gap + more
  {
    var i :| 0 <= i < |gap| && gap[i] == ' ';
    assert (key + gap + more)[|key| + i] == ' ';
  }

  lemma TrimEndsVisible(x: string, more: string)
    requires KeyText(more)
    ensures TrimRight(x + more) == x + more
  {
    assert KeyByte((x + more)[|x + more| - 1]);
    LastSpaceVisible(x + more);
  }

  /** Every quote after the opening one is escaped. */
  lemma UnclosedQuote(sc: Scanner, name: Name, sep: char, blanks: string, quote: char, body: string)
    requires (sep == '=' || sep == ':') && name.Fits(sep) && Blanks(blanks)
    requires IsQuote(quote) && QuotesEscaped(body, quote, |body|)
    ensures sc.Scan(name.Written() + [sep] + blanks + [quote] + body) == Err(UnterminatedQuote)
  {
    hide *;
    var y := [quote] + body;
    var rest := [sep] + blanks + y;
    var s := name.Written() + rest;
    assert s == name.Written() + [sep] + blanks + [quote] + body;
    UnclosedValue(quote, body, name.key);
    QuoteIsVisible(y);
    assert rest[0] == sep;
    NameStartsHere(sc, name, rest);
    NameIsRead(sc, name, rest);
    FitsParts(name, sep);
    KeyIsTrimmed(name.key, name.gap);
    BlanksAreSkipped(blanks, y);
    ValuePlace(name.Written(), sep, blanks, y);
    ValueFails(sc, s, KeyHead(name.key + name.gap, |name.Written()| + 1, false), |blanks|, UnterminatedQuote);
    FirstFails(sc, s, UnterminatedQuote);
  }

  lemma ValueFails(sc: Scanner, s: string, head: KeyHead, d: nat, e: ScanError)
    requires s != "" && sc.LocateKey(s) == Ok(head) && !head.inherited && ' ' !in TrimRight(head.key)
    requires head.keyEnd + d <= |s| && EnvSpaces(s[head.keyEnd..]) == d
    requires Value(s[head.keyEnd + d..], TrimRight(head.key)) == Err(e)
    ensures sc.First(s) == Err(e)
  {
    hide sc.LocateKey, Value, EnvSpaces, TrimRight;
  }

  lemma UnclosedValue(quote: char, body: string, key: string)
    requires IsQuote(quote) && QuotesEscaped(body, quote, |body|)
    ensures Value([quote] + body, key) == Err(UnterminatedQuote)
  {
    hide QuotedEnd, Escaped;
    if body == "" {
      EmptyIsUnclosed(quote);
    } else {
      QuotedExactly(body, quote, 0);
    }
  }

  lemma EmptyIsUnclosed(quote: char)
    ensures QuotedEnd([quote] + "", quote, 1, false).None?
  {
  }

  /** An `export` with nothing after it but blanks. */
  lemma ExportOfNothing(sc: Scanner, p: string)
    requires p != "" && Prefix(p)
    ensures sc.Scan(p) == Err(ZeroLengthString)
  {
    hide sc.Start, EnvSpaces;
    assert p[0] == p[..6][0];
    KeyStarts(sc, p);
    var b := p[6..];
    assert p[6] == b[0];
    NoEnvSpaces("");
    BlanksAreSkipped(b, "");
    assert b + "" == b;
    assert p[|p|..] == "";
    FirstFails(sc, p, ZeroLengthString);
  }
}
