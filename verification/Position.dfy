/**
  A YAML position as a byte offset (tagwrite.go): lines are counted by their breaks,
  columns by runes.
 */
module Positions {
  import opened Text

  function Past(d: nat, r: Option<nat>): Option<nat> {
    match r
    case None => None
    case Some(n) => Some(d + n)
  }

  /** Where the `line`-th line starts. */
  function LineAt(s: string, line: int): (r: Option<nat>)
    ensures r.Some? ==> r.value <= |s|
    decreases line
  {
    if line <= 1 then Some(0)
    else
      match IndexByte(s, '\n')
      case None => None
      case Some(i) => Past(i + 1, LineAt(s[i + 1..], line - 1))
  }

  /** Where the `column`-th rune of the first line starts; one past its last rune counts. */
  function ColumnAt(s: string, column: int): (r: Option<nat>)
    ensures r.Some? ==> r.value <= |s|
    decreases column
  {
    if column <= 1 then Some(0)
    else if s == "" || s[0] == '\n' then None
    else
      var n := DecodeRune(s).size;
      Past(n, ColumnAt(s[n..], column - 1))
  }

  function OffsetOf(s: string, line: int, column: int): Option<nat> {
    match LineAt(s, line)
    case None => None
    case Some(n) => Past(n, ColumnAt(s[n..], column))
  }

  /** byteOffset. */
  method ByteOffset(src: string, line: int, column: int) returns (off: nat, ok: bool)
    ensures OffsetOf(src, line, column) == if ok then Some(off) else None
  {
    hide *;
    off := 0;
    var l := 1;
    LineHere(src, line);
    assert src[0..] == src;
    while l < line
      invariant off <= |src| && (l <= line || l == 1)
      invariant LineAt(src, line) == Past(off, LineAt(src[off..], line - l + 1))
      decreases line - l
    {
      var i := IndexByte(src[off..], '\n');
      LineNext(src, line, off, line - l + 1);
      if i.None? {
        NoLine(src, line, column);
        return 0, false;
      }
      off := off + i.value + 1;
      l := l + 1;
    }
    LineFound(src, line, column, off, line - l + 1);
    var c := 1;
    while c < column
      invariant off <= |src| && (c <= column || c == 1)
      invariant OffsetOf(src, line, column) == Past(off, ColumnAt(src[off..], column - c + 1))
      decreases column - c
    {
      ColumnNext(src, off, column - c + 1);
      if off >= |src| || src[off] == '\n' {
        return 0, false;
      }
      off := off + DecodeRune(src[off..]).size;
      c := c + 1;
    }
    ColumnFound(src, off, column - c + 1);
    return off, off <= |src|;
  }

  lemma LineHere(s: string, line: int)
    ensures LineAt(s, line) == Past(0, LineAt(s, line))
    ensures Past(0, LineAt(s, line)) == Past(0, LineAt(s[0..], line))
  {
    assert s[0..] == s;
  }

  lemma LineNext(src: string, line: int, off: nat, l: int)
    requires off <= |src| && l > 1 && LineAt(src, line) == Past(off, LineAt(src[off..], l))
    ensures var i := IndexByte(src[off..], '\n');
      if i.None? then LineAt(src, line) == None
      else off + i.value < |src| && LineAt(src, line) == Past(off + i.value + 1, LineAt(src[off + i.value + 1..], l - 1))
  {
    hide IndexByte;
    var i := IndexByte(src[off..], '\n');
    if i.Some? {
      assert src[off..][i.value + 1..] == src[off + i.value + 1..];
    }
  }

  lemma NoLine(src: string, line: int, column: int)
    requires LineAt(src, line) == None
    ensures OffsetOf(src, line, column) == None
  {
  }

  lemma LineFound(src: string, line: int, column: int, off: nat, l: int)
    requires off <= |src| && l <= 1 && LineAt(src, line) == Past(off, LineAt(src[off..], l))
    ensures OffsetOf(src, line, column) == Past(off, ColumnAt(src[off..], column))
  {
    hide ColumnAt;
  }

  lemma ColumnNext(src: string, off: nat, column: int)
    requires off <= |src| && column > 1
    ensures off == |src| || src[off] == '\n' ==> Past(off, ColumnAt(src[off..], column)) == None
    ensures off < |src| && src[off] != '\n' ==>
      var n := DecodeRune(src[off..]).size;
      off + n <= |src| && Past(off, ColumnAt(src[off..], column)) == Past(off + n, ColumnAt(src[off + n..], column - 1))
  {
    hide DecodeRune;
    if off < |src| && src[off] != '\n' {
      assert src[off..][DecodeRune(src[off..]).size..] == src[off + DecodeRune(src[off..]).size..];
    }
  }

  lemma ColumnFound(src: string, off: nat, column: int)
    requires off <= |src| && column <= 1
    ensures Past(off, ColumnAt(src[off..], column)) == Some(off)
  {
  }

  // ---- the position of an offset ----------------------------------------------------------

  /** A rune starts at `p`, or the text ends there. */
  predicate RuneStart(s: string, p: nat)
    decreases |s|
  {
    p == 0 || (s != "" && DecodeRune(s).size <= p && RuneStart(s[DecodeRune(s).size..], p - DecodeRune(s).size))
  }

  datatype Place = Place(line: nat, column: nat)

  /** One more than the runes before `p`. */
  function ColumnOf(s: string, p: nat): (n: nat)
    ensures n >= 1
    decreases |s|
  {
    if p == 0 || s == "" || DecodeRune(s).size > p then 1
    else 1 + ColumnOf(s[DecodeRune(s).size..], p - DecodeRune(s).size)
  }

  /** The line and rune column of an offset, both from 1. */
  function PlaceOf(s: string, p: nat): (r: Place)
    ensures r.line >= 1 && r.column >= 1
    decreases |s|
  {
    match IndexByte(s, '\n')
    case None => Place(1, ColumnOf(s, p))
    case Some(i) =>
      if p <= i then Place(1, ColumnOf(s, p))
      else
        var r := PlaceOf(s[i + 1..], p - i - 1);
        Place(r.line + 1, r.column)
  }

  lemma BreakIsRune(s: string, i: nat)
    requires i < |s| && s[i] == '\n'
    ensures i == 0 ==> DecodeRune(s).size == 1
    ensures i > 0 ==> DecodeRune(s).size <= i
  {
    DecodeStopsAtAscii(s, s, i);
  }

  /** A line break is a rune of its own, so runes after it are those of what follows it. */
  lemma {:induction false} RunesAfterBreak(s: string, i: nat, p: nat)
    requires i < |s| && s[i] == '\n' && i < p
    ensures RuneStart(s, p) <==> RuneStart(s[i + 1..], p - i - 1)
    decreases |s|
  {
    BreakIsRune(s, i);
    var n := DecodeRune(s).size;
    hide DecodeRune;
    if i > 0 {
      assert s[n..][i - n + 1..] == s[i + 1..];
      RunesAfterBreak(s[n..], i - n, p - n);
    }
  }

  lemma {:induction false} RuneStartInside(s: string, p: nat)
    requires RuneStart(s, p)
    ensures p <= |s|
    decreases |s|
  {
    if p > 0 {
      RuneStartInside(s[DecodeRune(s).size..], p - DecodeRune(s).size);
    }
  }

  lemma {:induction false} ColumnExactly(s: string, column: int, p: nat)
    requires column >= 1 && p <= |s|
    ensures ColumnAt(s, column) == Some(p) <==>
      RuneStart(s, p) && '\n' !in s[..p] && ColumnOf(s, p) == column
    decreases |s|
  {
    hide DecodeRune;
    if s != "" && p > 0 {
      var n := DecodeRune(s).size;
      FirstRune(s, p);
      if column > 1 && n <= p && s[0] != '\n' {
        ColumnExactly(s[n..], column - 1, p - n);
      }
    }
  }

  /** A first rune holds a line break only when it is one. */
  lemma FirstRune(s: string, p: nat)
    requires s != "" && p <= |s|
    ensures var n := DecodeRune(s).size; n <= p ==>
      ('\n' !in s[..p] <==> s[0] != '\n' && '\n' !in s[n..][..p - n])
  {
    var n := DecodeRune(s).size;
    if n <= p {
      assert s[..p] == s[..n] + s[n..][..p - n];
      if i :| 0 < i < n && s[i] == '\n' {
        BreakIsRune(s, i);
      }
    }
  }

  /**
    Positions and offsets are inverse: byteOffset of a line and column is `p` exactly
    when `p` starts a rune, or ends the text, and stands on that line and column.
   */
  lemma {:induction false} PositionExactly(s: string, line: int, column: int, p: nat)
    requires line >= 1 && column >= 1
    ensures OffsetOf(s, line, column) == Some(p) <==> RuneStart(s, p) && PlaceOf(s, p) == Place(line, column)
    decreases |s|
  {
    hide DecodeRune, ColumnAt, ColumnOf, IndexByte, RuneStart, OffsetOf;
    var i := IndexByte(s, '\n');
    if line == 1 {
      FirstLineExactly(s, column, p);
    } else if i.Some? {
      OffsetAfterBreak(s, line, column, i.value);
      if p > i.value {
        PositionExactly(s[i.value + 1..], line - 1, column, p - i.value - 1);
        RunesAfterBreak(s, i.value, p);
      }
    } else {
      NoSuchLine(s, line, column);
    }
  }

  lemma NoSuchLine(s: string, line: int, column: int)
    requires IndexByte(s, '\n').None? && line > 1
    ensures OffsetOf(s, line, column) == None
  {
    hide IndexByte;
  }

  lemma FirstLineExactly(s: string, column: int, p: nat)
    requires column >= 1
    ensures OffsetOf(s, 1, column) == Some(p) <==> RuneStart(s, p) && PlaceOf(s, p) == Place(1, column)
  {
    hide DecodeRune, ColumnAt, ColumnOf, IndexByte, RuneStart;
    assert s[0..] == s;
    assert LineAt(s, 1) == Some(0);
    if RuneStart(s, p) {
      RuneStartInside(s, p);
    }
    if p <= |s| {
      ColumnExactly(s, column, p);
      BreakBefore(s, p);
    }
  }

  lemma BreakBefore(s: string, p: nat)
    requires p <= |s|
    ensures '\n' !in s[..p] <==> IndexByte(s, '\n').None? || p <= IndexByte(s, '\n').value
  {
    hide IndexByte;
    var i := IndexByte(s, '\n');
    if i.Some? {
      if p <= i.value {
        assert s[..i.value] == s[..p] + s[p..i.value];
      } else {
        assert s[..p][i.value] == '\n';
      }
    }
  }

  lemma LineAfterBreak(s: string, line: int, i: nat)
    requires IndexByte(s, '\n') == Some(i) && line > 1
    ensures i < |s| && LineAt(s, line) == Past(i + 1, LineAt(s[i + 1..], line - 1))
  {
    hide IndexByte;
  }

  lemma OffsetAfterBreak(s: string, line: int, column: int, i: nat)
    requires IndexByte(s, '\n') == Some(i) && line > 1
    ensures i < |s| && OffsetOf(s, line, column) == Past(i + 1, OffsetOf(s[i + 1..], line - 1, column))
  {
    hide *;
    LineAfterBreak(s, line, i);
    match LineAt(s[i + 1..], line - 1)
    case None =>
      NothingPast(i + 1);
      NoLine(s, line, column);
      NoLine(s[i + 1..], line - 1, column);
    case Some(n) =>
      PastSome(i + 1, n);
      OffsetInLine(s, line, column, i + 1 + n);
      OffsetInLine(s[i + 1..], line - 1, column, n);
      SliceTwice(s, i + 1, n);
      PastTwice(i + 1, n, ColumnAt(s[i + 1 + n..], column));
  }

  lemma NothingPast(d: nat)
    ensures Past(d, None) == None
  {
  }

  lemma PastSome(d: nat, n: nat)
    ensures Past(d, Some(n)) == Some(d + n)
  {
  }

  lemma PastTwice(d: nat, n: nat, r: Option<nat>)
    ensures Past(d, Past(n, r)) == Past(d + n, r)
  {
  }

  lemma SliceTwice(s: string, a: nat, b: nat)
    requires a + b <= |s|
    ensures s[a..][b..] == s[a + b..]
  {
  }

  lemma OffsetInLine(s: string, line: int, column: int, n: nat)
    requires LineAt(s, line) == Some(n)
    ensures n <= |s| && OffsetOf(s, line, column) == Past(n, ColumnAt(s[n..], column))
  {
    hide LineAt, ColumnAt;
  }
}
