/**
  Where each assignment in an env file is, byte for byte (envscan.go).

  The functions of `Scanner` say which statements a text holds, by recursion on
  what is left of it; the methods below them are the loops of the source, each
  proved to compute its function.
 */
module EnvScan {
  import opened Text

  datatype ScanError = UnexpectedCharacter | ZeroLengthString | KeyWithSpace | UnterminatedQuote

  datatype Result<+T> = Ok(value: T) | Err(error: ScanError)

  const NO_QUOTE := '\0'

  /** One statement of an env file. A bare `KEY` line is `inherited` and has no value of its own. */
  datatype Statement = Statement(key: string, inherited: bool, quote: char, valueStart: int, valueEnd: int)

  function Shift(st: Statement, d: int): Statement {
    if st.inherited then st else st.(valueStart := st.valueStart + d, valueEnd := st.valueEnd + d)
  }

  function ShiftAll(sts: seq<Statement>, d: int): (r: seq<Statement>)
    ensures |r| == |sts|
    ensures forall i :: 0 <= i < |sts| ==> r[i] == Shift(sts[i], d)
  {
    seq(|sts|, i requires 0 <= i < |sts| => Shift(sts[i], d))
  }

  /** `r` seen from `d` bytes earlier, after the statements `before`. */
  function Later(before: seq<Statement>, d: int, r: Result<seq<Statement>>): Result<seq<Statement>> {
    match r
    case Err(e) => Err(e)
    case Ok(sts) => Ok(before + ShiftAll(sts, d))
  }

  function AfterSkip(d: nat, r: Option<nat>): Option<nat> {
    match r
    case None => None
    case Some(n) => Some(d + n)
  }

  const BOM: string := ['\U{EF}', '\U{BB}', '\U{BF}']

  /** envIsSpace: white space other than a line break. */
  predicate IsEnvSpace(r: int) {
    r in {9, 11, 12, 13, 32, 0x85, 0xA0}
  }

  /** How many bytes strings.TrimLeftFunc(s, envIsSpace) drops. */
  function EnvSpaces(s: string): (n: nat)
    ensures n <= |s|
  {
    if s == "" then 0
    else
      var r := DecodeRune(s);
      if IsEnvSpace(r.code) then r.size + EnvSpaces(s[r.size..]) else 0
  }

  const EXPORT := "export"

  /** How many bytes an `export` prefix and the blanks after it take; 0 when there is none. */
  function ExportLength(s: string): (n: nat)
    ensures n <= |s|
  {
    if |s| > 6 && s[..6] == EXPORT && s[6] as int in {9, 10, 12, 13, 32} then 6 + EnvSpaces(s[6..]) else 0
  }

  /** The line break, comment and white space an unquoted value ends before. */
  function UnquotedLine(s: string): (line: string)
    ensures |line| <= |s| && line == s[..|line|]
  {
    match IndexByte(s, '\n')
    case None => s
    case Some(i) => s[..i]
  }

  /** The position of the first ` #`. */
  function IndexComment(s: string): (r: Option<nat>)
    ensures r.Some? ==> r.value + 1 < |s|
  {
    if |s| < 2 then None
    else if s[0] == ' ' && s[1] == '#' then Some(0)
    else AfterSkip(1, IndexComment(s[1..]))
  }

  function BeforeComment(line: string): (r: string)
    ensures |r| <= |line| && r == line[..|r|]
  {
    match IndexComment(line)
    case None => line
    case Some(i) => line[..i]
  }

  function UnquotedValue(s: string): (v: string)
    ensures |v| <= |s| && v == s[..|v|]
  {
    TrimRight(BeforeComment(UnquotedLine(s)))
  }

  predicate IsQuote(c: char) {
    c == '"' || c == '\''
  }

  /** The closing quote at or after `i`, honouring backslash escapes. */
  function QuotedEnd(s: string, quote: char, i: nat, escaped: bool): (r: Option<nat>)
    requires i <= |s|
    ensures r.Some? ==> i <= r.value < |s| && s[r.value] == quote
    decreases |s| - i
  {
    if i == |s| then None
    else if s[i] != quote then QuotedEnd(s, quote, i + 1, !escaped && s[i] == '\\')
    else if escaped then QuotedEnd(s, quote, i + 1, false)
    else Some(i)
  }

  /** Where the key before a separator ends. */
  datatype Separator = At(pos: nat) | Missing | Unexpected

  function Further(d: nat, r: Separator): Separator {
    match r
    case At(i) => At(d + i)
    case Missing => Missing
    case Unexpected => Unexpected
  }

  datatype KeyHead = KeyHead(key: string, keyEnd: nat, inherited: bool)

  /** A statement and where the search for the next one resumes. */
  datatype Located = Located(st: Statement, next: nat)

  /** The statement for `key` whose value is at the front of `v`. */
  function Value(v: string, key: string): (r: Result<Located>)
    ensures r.Ok? ==> r.value.next <= |v| && (v != "" ==> r.value.next > 0)
    ensures r.Ok? ==> !r.value.st.inherited && r.value.st.key == key
    ensures r.Ok? ==> 0 <= r.value.st.valueStart <= r.value.st.valueEnd <= r.value.next
    ensures r.Ok? && r.value.st.quote != NO_QUOTE ==> r.value.st.valueEnd < r.value.next
  {
    if v != "" && IsQuote(v[0]) then
      match QuotedEnd(v, v[0], 1, false)
      case None => Err(UnterminatedQuote)
      case Some(end) => Ok(Located(Statement(key, false, v[0], 1, end), end + 1))
    else
      var line := UnquotedLine(v);
      Ok(Located(Statement(key, false, NO_QUOTE, 0, |UnquotedValue(v)|),
                 if |line| < |v| then |line| + 1 else |line|))
  }

  /**
    The scan over one table of letters and numbers: `isWord` says of each rune
    outside ASCII whether unicode.IsLetter or unicode.IsNumber holds. Everything
    proved here holds for every table.
   */
  datatype Scanner = Scanner(isWord: int -> bool) {

    predicate IsKeyRune(r: int) {
      || IsEnvSpace(r)
      || r in {'_' as int, '.' as int, '-' as int, '[' as int, ']' as int}
      || 'a' as int <= r <= 'z' as int || 'A' as int <= r <= 'Z' as int || '0' as int <= r <= '9' as int
      || (r >= 0x80 && isWord(r))
    }

    /** The first `=`, `:` or line break, when only key runes precede it. */
    function FindSeparator(s: string): (r: Separator)
      ensures r.At? ==> r.pos < |s| && s[r.pos] in "=:\n"
    {
      if s == "" then Missing
      else
        var r := DecodeRune(s);
        if IsKeyRune(r.code) then
          Further(r.size, FindSeparator(s[r.size..]))
        else if s[0] in "=:\n" then At(0)
        else Unexpected
    }

    /** envLocateKey. A text without a separator has an empty key and is all value. */
    function LocateKey(s: string): (r: Result<KeyHead>)
      ensures r.Ok? ==> r.value.keyEnd <= |s| && (r.value.inherited ==> r.value.keyEnd > 0)
    {
      var e := ExportLength(s);
      var rest := s[e..];
      match FindSeparator(rest)
      case Unexpected => Err(UnexpectedCharacter)
      case Missing => if rest == "" then Err(ZeroLengthString) else Ok(KeyHead("", e, false))
      case At(i) => Ok(KeyHead(rest[..i], e + i + 1, rest[i] == '\n'))
    }

    /** The statement a text starts with. A bare line ends at its line break. */
    function First(s: string): (r: Result<Located>)
      requires s != ""
      ensures r.Ok? ==> 0 < r.value.next <= |s|
      ensures r.Ok? ==> 0 <= r.value.st.valueStart <= r.value.st.valueEnd <= r.value.next
    {
      match LocateKey(s)
      case Err(e) => Err(e)
      case Ok(head) =>
        var key := TrimRight(head.key);
        if ' ' in key then Err(KeyWithSpace)
        else if head.inherited then Ok(Located(Statement(key, true, NO_QUOTE, 0, 0), head.keyEnd))
        else
          var at := head.keyEnd + EnvSpaces(s[head.keyEnd..]);
          match Value(s[at..], key)
          case Err(e) => Err(e)
          case Ok(l) => Ok(Located(Shift(l.st, at), at + l.next))
    }

    /** envStatementStart: past white space and comment lines; None at the end of the text. */
    function Start(s: string): (r: Option<nat>)
      ensures r.Some? ==> r.value < |s|
    {
      if s == "" then None
      else
        var r := DecodeRune(s);
        if IsSpace(r.code) then AfterSkip(r.size, Start(s[r.size..]))
        else if s[0] != '#' then Some(0)
        else
          match IndexByte(s, '\n')
          case None => None
          case Some(i) => AfterSkip(i, Start(s[i..]))
    }

    /** The statements of a text, in order. */
    function Scan(s: string): Result<seq<Statement>>
      decreases |s|
    {
      match Start(s)
      case None => Ok([])
      case Some(o) =>
        match First(s[o..])
        case Err(e) => Err(e)
        case Ok(l) => Later([Shift(l.st, o)], o + l.next, Scan(s[o + l.next..]))
    }

    /** The statements of a file: a byte order mark is skipped, and counted in the offsets. */
    function ScanFile(data: string): Result<seq<Statement>> {
      if BOM <= data then Later([], 3, Scan(data[3..])) else Scan(data)
    }

    // ---- the loops -----------------------------------------------------

    method EnvStatementStart(src: string) returns (off: nat, ok: bool)
      ensures Start(src) == if ok then Some(off) else None
    {
      hide Spaces, Start;
      off := 0;
      var s := src;
      while true
        invariant off <= |src| && s == src[off..]
        invariant Start(src) == AfterSkip(off, Start(s))
        decreases |s|
      {
        StartAfterSpaces(s);
        var pos := Spaces(s);
        off, s := off + pos, s[pos..];
        StartOfText(s);
        if s == "" {
          return 0, false;
        }
        if s[0] != '#' {
          return off, true;
        }
        var nl := IndexByte(s, '\n');
        if nl.None? {
          return 0, false;
        }
        off, s := off + nl.value, s[nl.value..];
      }
    }

    lemma StartOfText(s: string)
      requires s != "" ==> !IsSpace(DecodeRune(s).code)
      ensures s == "" ==> Start(s).None?
      ensures s != "" && s[0] != '#' ==> Start(s) == Some(0)
      ensures s != "" && s[0] == '#' ==>
        Start(s) == match IndexByte(s, '\n') case None => None case Some(i) => AfterSkip(i, Start(s[i..]))
      ensures s != "" && s[0] == '#' && IndexByte(s, '\n').Some? ==> IndexByte(s, '\n').value > 0
    {
    }

    lemma StartOfSpace(s: string)
      requires s != "" && IsSpace(DecodeRune(s).code)
      ensures Start(s) == AfterSkip(DecodeRune(s).size, Start(s[DecodeRune(s).size..]))
      ensures Spaces(s) == DecodeRune(s).size + Spaces(s[DecodeRune(s).size..])
    {
    }

    lemma {:induction false} StartAfterSpaces(s: string)
      ensures Start(s) == AfterSkip(Spaces(s), Start(s[Spaces(s)..]))
      ensures Spaces(s) < |s| ==> !IsSpace(DecodeRune(s[Spaces(s)..]).code)
    {
      hide DecodeRune, IsSpace, Start;
      if s == "" || !IsSpace(DecodeRune(s).code) {
        assert s[0..] == s;
      } else {
        hide Spaces;
        var n := DecodeRune(s).size;
        var t := s[n..];
        StartOfSpace(s);
        StartAfterSpaces(t);
        assert t[Spaces(t)..] == s[Spaces(s)..];
      }
    }

    method EnvLocateKey(src: string) returns (r: Result<KeyHead>)
      ensures r == LocateKey(src)
    {
      hide DecodeRune, IsKeyRune, FindSeparator;
      var keyEnd := ExportLength(src);
      var s := src[keyEnd..];
      var i, rest := 0, s;
      while i < |s|
        invariant i <= |s| && rest == s[i..]
        invariant FindSeparator(s) == Further(i, FindSeparator(rest))
      {
        SeparatorAt(rest);
        var d := DecodeRune(rest);
        if !IsKeyRune(d.code) {
          if s[i] in "=:\n" {
            return Ok(KeyHead(s[..i], keyEnd + i + 1, s[i] == '\n'));
          }
          return Err(UnexpectedCharacter);
        }
        i, rest := i + d.size, rest[d.size..];
      }
      SeparatorAt(rest);
      if s == "" {
        return Err(ZeroLengthString);
      }
      return Ok(KeyHead("", keyEnd, false));
    }

    lemma SeparatorAt(s: string)
      ensures s == "" ==> FindSeparator(s) == Missing
      ensures s != "" && IsKeyRune(DecodeRune(s).code) ==>
        FindSeparator(s) == Further(DecodeRune(s).size, FindSeparator(s[DecodeRune(s).size..]))
      ensures s != "" && !IsKeyRune(DecodeRune(s).code) ==>
        FindSeparator(s) == if s[0] in "=:\n" then At(0) else Unexpected
    {
    }

    method EnvQuotedEnd(src: string, quote: char) returns (r: Result<nat>)
      requires src != ""
      ensures r == match QuotedEnd(src, quote, 1, false) case None => Err(UnterminatedQuote) case Some(i) => Ok(i)
    {
      var escaped := false;
      var i := 1;
      while i < |src|
        invariant 1 <= i <= |src|
        invariant QuotedEnd(src, quote, 1, false) == QuotedEnd(src, quote, i, escaped)
      {
        var c := src[i];
        if c != quote {
          escaped := !escaped && c == '\\';
        } else if escaped {
          escaped := false;
        } else {
          return Ok(i);
        }
        i := i + 1;
      }
      return Err(UnterminatedQuote);
    }

    /** The statement at the front of `stmt`, as one turn of the source's loop reads it. */
    method EnvStatement(stmt: string) returns (r: Result<Located>)
      requires stmt != ""
      ensures r == First(stmt)
    {
      hide DecodeRune, LocateKey, EnvSpaces, TrimRight, UnquotedLine, UnquotedValue, QuotedEnd;
      var head := EnvLocateKey(stmt);
      if head.Err? {
        return Err(head.error);
      }
      var key := TrimRight(head.value.key);
      if ' ' in key {
        return Err(KeyWithSpace);
      }
      if head.value.inherited {
        return Ok(Located(Statement(key, true, NO_QUOTE, 0, 0), head.value.keyEnd));
      }
      var rest := stmt[head.value.keyEnd..];
      var consumed := head.value.keyEnd + EnvSpaces(rest);
      var trimmed := stmt[consumed..];
      if trimmed != "" && IsQuote(trimmed[0]) {
        var end := EnvQuotedEnd(trimmed, trimmed[0]);
        if end.Err? {
          return Err(end.error);
        }
        return Ok(Located(Statement(key, false, trimmed[0], consumed + 1, consumed + end.value),
                          consumed + end.value + 1));
      }
      var line := UnquotedLine(trimmed);
      var next := if |line| < |trimmed| then |line| + 1 else |trimmed|;
      return Ok(Located(Statement(key, false, NO_QUOTE, consumed, consumed + |UnquotedValue(trimmed)|),
                        consumed + next));
    }

    method ScanEnvStatements(data: string) returns (r: Result<seq<Statement>>)
      ensures r == ScanFile(data)
    {
      hide Start, First, Scan, EnvSpaces;
      var base: nat := 0;
      if BOM <= data {
        base := 3;
      }
      var src := data[base..];
      var out: seq<Statement> := [];
      LaterZero(Scan(data));
      while true
        invariant ScanFile(data) == Later(out, base, Scan(src))
        decreases |src|
      {
        var start, ok := EnvStatementStart(src);
        if !ok {
          ScanEnds(out, base, src);
          return Ok(out);
        }
        var located := EnvStatement(src[start..]);
        if located.Err? {
          ScanFails(out, base, src, start, located.error);
          return Err(located.error);
        }
        var Located(st, next) := located.value;
        ScanContinues(out, base, src, start, located.value);
        out := out + [Shift(st, base + start)];
        base := base + start + next;
        src := src[start + next..];
        if st.inherited {
          // the source drops the blanks after a bare line before it looks on
          ScanAfterSpaces(src);
          LaterLater0(out, base, EnvSpaces(src), Scan(src[EnvSpaces(src)..]));
          base, src := base + EnvSpaces(src), src[EnvSpaces(src)..];
        }
      }
    }

    lemma ScanEnds(out: seq<Statement>, base: int, src: string)
      requires Start(src).None?
      ensures Later(out, base, Scan(src)) == Ok(out)
    {
      assert out + ShiftAll([], base) == out;
    }

    lemma ScanFails(out: seq<Statement>, base: int, src: string, start: nat, e: ScanError)
      requires Start(src) == Some(start) && First(src[start..]) == Err(e)
      ensures Later(out, base, Scan(src)) == Err(e)
    {
      hide Start, First;
    }

    lemma ScanContinues(out: seq<Statement>, base: int, src: string, start: nat, l: Located)
      requires Start(src) == Some(start) && First(src[start..]) == Ok(l)
      ensures Later(out, base, Scan(src))
           == Later(out + [Shift(l.st, base + start)], base + start + l.next, Scan(src[start + l.next..]))
    {
      hide Start, First;
      LaterLater(out, base, Shift(l.st, start), start + l.next, Scan(src[start + l.next..]));
      assert Shift(Shift(l.st, start), base) == Shift(l.st, base + start);
    }

    lemma ScanAfterSpaces(s: string)
      ensures Scan(s) == Later([], EnvSpaces(s), Scan(s[EnvSpaces(s)..]))
    {
      if EnvSpaces(s) == 0 {
        LaterZero(Scan(s));
        assert s[0..] == s;
      } else {
        var n := DecodeRune(s).size;
        assert s[n..][EnvSpaces(s[n..])..] == s[EnvSpaces(s)..];
        ScanAfterSpaces(s[n..]);
        ScanAfterSkip(s, n);
        LaterLater0([], n, EnvSpaces(s[n..]), Scan(s[EnvSpaces(s)..]));
      }
    }

    /** Skipping what the search skips changes nothing but the offsets. */
    lemma ScanAfterSkip(s: string, n: nat)
      requires n <= |s| && Start(s) == AfterSkip(n, Start(s[n..]))
      ensures Scan(s) == Later([], n, Scan(s[n..]))
    {
      hide Start, First, Later;
      var t := s[n..];
      match Start(t) {
        case None =>
          ScanEnds([], n, t);
          ScanEnds([], 0, s);
          LaterZero(Scan(s));
        case Some(o) =>
          assert s[n + o..] == t[o..];
          match First(t[o..]) {
            case Err(e) =>
              ScanFails([], n, t, o, e);
              ScanFails([], 0, s, n + o, e);
              LaterZero(Scan(s));
            case Ok(l) =>
              ScanContinues([], n, t, o, l);
              ScanContinues([], 0, s, n + o, l);
              LaterZero(Scan(s));
              assert s[n + o + l.next..] == t[o + l.next..];
          }
      }
    }
  }

  lemma LaterZero(r: Result<seq<Statement>>)
    ensures Later([], 0, r) == r
  {
    if r.Ok? {
      assert [] + ShiftAll(r.value, 0) == r.value;
    }
  }

  lemma LaterLater0(before: seq<Statement>, d: int, d': int, r: Result<seq<Statement>>)
    ensures Later(before, d, Later([], d', r)) == Later(before, d + d', r)
  {
    if r.Ok? {
      assert ShiftAll([] + ShiftAll(r.value, d'), d) == ShiftAll(r.value, d + d');
    }
  }

  lemma LaterLater(before: seq<Statement>, d: int, st: Statement, d': int, r: Result<seq<Statement>>)
    ensures Later(before, d, Later([st], d', r)) == Later(before + [Shift(st, d)], d + d', r)
  {
    if r.Ok? {
      assert before + ShiftAll([st] + ShiftAll(r.value, d'), d)
          == before + [Shift(st, d)] + ShiftAll(r.value, d + d');
    }
  }
}
