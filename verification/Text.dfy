/**
  Bytes and runes. A file is the sequence of its bytes; each `char` of a `string`
  here stands for one byte, and a char above 255 is treated as an invalid byte.
  Decoding follows section 3 of RFC 3629, with Go's convention for bytes that do
  not decode: one byte is consumed and the rune is U+FFFD.
 */
module Text {

  datatype Option<+T> = None | Some(value: T)

  datatype Rune = Rune(code: int, size: nat)

  const RUNE_ERROR := 0xFFFD

  predicate IsContinuation(c: char) {
    0x80 <= c as int <= 0xBF
  }

  /** How many bytes the lead byte announces; 0 for a byte that starts nothing. */
  function Announced(lead: int): nat {
    if lead < 0x80 then 1
    else if 0xC2 <= lead <= 0xDF then 2
    else if 0xE0 <= lead <= 0xEF then 3
    else if 0xF0 <= lead <= 0xF4 then 4
    else 0
  }

  /** The second bytes a lead byte accepts: no overlong form, surrogate or code above U+10FFFF. */
  predicate SecondAccepted(lead: int, c: char) {
    && IsContinuation(c)
    && (lead == 0xE0 ==> 0xA0 <= c as int)
    && (lead == 0xED ==> c as int <= 0x9F)
    && (lead == 0xF0 ==> 0x90 <= c as int)
    && (lead == 0xF4 ==> c as int <= 0x8F)
  }

  /** The size of the well-formed encoding `s` starts with, 0 when it starts with none. */
  function EncodedSize(s: string): (n: nat)
    requires s != ""
    ensures n <= |s| && n <= 4
  {
    var lead := s[0] as int;
    var n := Announced(lead);
    if n == 1 then 1
    else if n == 0 || |s| < n || !SecondAccepted(lead, s[1]) then 0
    else if n >= 3 && !IsContinuation(s[2]) then 0
    else if n == 4 && !IsContinuation(s[3]) then 0
    else n
  }

  function Bits(c: char): int {
    c as int - 0x80
  }

  /** Go's utf8.DecodeRune on a non-empty text. */
  function DecodeRune(s: string): (r: Rune)
    requires s != ""
    ensures 1 <= r.size <= |s|
  {
    match EncodedSize(s)
    case 1 => Rune(s[0] as int, 1)
    case 2 => Rune((s[0] as int - 0xC0) * 0x40 + Bits(s[1]), 2)
    case 3 => Rune((s[0] as int - 0xE0) * 0x1000 + Bits(s[1]) * 0x40 + Bits(s[2]), 3)
    case 4 => Rune((s[0] as int - 0xF0) * 0x40000 + Bits(s[1]) * 0x1000 + Bits(s[2]) * 0x40 + Bits(s[3]), 4)
    case _ => Rune(RUNE_ERROR, 1)
  }

  predicate IsAscii(c: char) {
    c as int < 0x80
  }

  /** Whether `s` decodes from its start without an invalid byte. */
  predicate StartsWell(s: string) {
    s != "" && EncodedSize(s) > 0
  }

  /** A well-formed rune is read from its own bytes alone. */
  lemma DecodeOwnBytes(s: string, t: string)
    requires StartsWell(s)
    requires DecodeRune(s).size <= |t| && s[..DecodeRune(s).size] == t[..DecodeRune(s).size]
    ensures StartsWell(t) && DecodeRune(t) == DecodeRune(s)
  {
    var n := DecodeRune(s).size;
    assert forall i :: 0 <= i < n ==> s[i] == s[..n][i] == t[..n][i] == t[i];
  }

  /** No decode looks past the first ASCII byte, and none but that byte's own consumes it. */
  lemma DecodeStopsAtAscii(s: string, t: string, k: nat)
    requires k < |s| && k < |t| && s[..k + 1] == t[..k + 1] && IsAscii(s[k])
    ensures DecodeRune(t) == DecodeRune(s)
    ensures k > 0 ==> DecodeRune(s).size <= k
  {
    assert forall i :: 0 <= i <= k ==> s[i] == s[..k + 1][i] == t[..k + 1][i] == t[i];
  }

  /** unicode.IsSpace. */
  predicate IsSpace(r: int) {
    || 9 <= r <= 13
    || r in {32, 0x85, 0xA0, 0x1680, 0x2028, 0x2029, 0x202F, 0x205F, 0x3000}
    || 0x2000 <= r <= 0x200A
  }

  /** The position of the first `c`. */
  function IndexByte(s: string, c: char): (r: Option<nat>)
    ensures r.None? ==> c !in s
    ensures r.Some? ==> r.value < |s| && s[r.value] == c && c !in s[..r.value]
  {
    if s == "" then None
    else if s[0] == c then Some(0)
    else
      match IndexByte(s[1..], c)
      case None => None
      case Some(i) => assert s[..i + 1] == [s[0]] + s[1..][..i]; Some(i + 1)
  }

  lemma IndexByteAt(s: string, c: char, i: nat)
    requires i < |s| && s[i] == c && c !in s[..i]
    ensures IndexByte(s, c) == Some(i)
  {
    if i > 0 {
      assert s[1..][..i - 1] == s[..i][1..];
      assert s[0] == s[..i][0];
      IndexByteAt(s[1..], c, i - 1);
    }
  }

  /** The encoding of one white-space rune, exactly. */
  predicate SpaceEncoding(e: string) {
    StartsWell(e) && DecodeRune(e).size == |e| && IsSpace(DecodeRune(e).code)
  }

  /** The last `n` bytes. */
  function Last(s: string, n: nat): string
    requires n <= |s|
  {
    s[|s| - n..]
  }

  /** The size of the white-space rune `s` ends with, 0 when it ends with none. */
  function LastSpace(s: string): (n: nat)
    ensures n <= |s|
    ensures n > 0 ==> SpaceEncoding(Last(s, n))
  {
    if |s| >= 1 && SpaceEncoding(Last(s, 1)) then 1
    else if |s| >= 2 && SpaceEncoding(Last(s, 2)) then 2
    else if |s| >= 3 && SpaceEncoding(Last(s, 3)) then 3
    else 0
  }

  /** strings.TrimRightFunc(s, unicode.IsSpace). */
  function TrimRight(s: string): (t: string)
    ensures |t| <= |s| && t == s[..|t|]
  {
    var n := LastSpace(s);
    if n == 0 then s else TrimRight(s[..|s| - n])
  }

  /** How many bytes of white space, line breaks included, a text starts with. */
  function Spaces(s: string): (n: nat)
    ensures n <= |s|
  {
    if s == "" then 0
    else
      var r := DecodeRune(s);
      if IsSpace(r.code) then r.size + Spaces(s[r.size..]) else 0
  }

  /** bytes.TrimSpace. */
  function Trim(s: string): string {
    TrimRight(s[Spaces(s)..])
  }

  /** What TrimRight strips is stripped after any text ending in a visible ASCII byte. */
  lemma {:induction false} TrimRightReplaced(kept: string, stripped: string, v: string)
    requires TrimRight(kept + stripped) == kept
    requires v != "" && IsAscii(v[|v| - 1]) && !IsSpace(v[|v| - 1] as int)
    ensures TrimRight(v + stripped) == v
    decreases |stripped|
  {
    hide LastSpace, SpaceEncoding, IsSpace;
    var s, t := kept + stripped, v + stripped;
    if stripped == "" {
      assert t == v;
      LastSpaceVisible(v);
    } else {
      var n := LastSpace(s);
      assert n > 0;
      assert n <= |stripped|;
      SameEnd(s, t, stripped);
      assert s[..|s| - n] == kept + stripped[..|stripped| - n];
      assert t[..|t| - n] == v + stripped[..|stripped| - n];
      TrimRightReplaced(kept, stripped[..|stripped| - n], v);
    }
  }

  lemma LastSpaceVisible(v: string)
    requires v != "" && IsAscii(v[|v| - 1]) && !IsSpace(v[|v| - 1] as int)
    ensures LastSpace(v) == 0
  {
    forall n: nat | 1 <= n <= |v|
      ensures !SpaceEncoding(Last(v, n))
    {
      assert Last(v, n)[n - 1] == v[|v| - 1];
    }
  }

  lemma SameEnd(s: string, t: string, e: string)
    requires |e| <= |s| && |e| <= |t| && Last(s, |e|) == e == Last(t, |e|)
    requires 0 < LastSpace(s) <= |e|
    ensures LastSpace(t) == LastSpace(s)
  {
    hide SpaceEncoding;
    var n := LastSpace(s);
    forall k: nat | 1 <= k <= |e|
      ensures Last(s, k) == Last(t, k) == Last(e, k)
    {
    }
  }

  lemma {:induction false} TrimRightTwice(s: string)
    ensures TrimRight(TrimRight(s)) == TrimRight(s)
  {
    hide LastSpace;
    if LastSpace(s) > 0 {
      TrimRightTwice(s[..|s| - LastSpace(s)]);
    }
  }

  lemma {:induction false} AfterSpaces(s: string)
    ensures Spaces(s[Spaces(s)..]) == 0
  {
    hide DecodeRune, IsSpace;
    if s != "" && IsSpace(DecodeRune(s).code) {
      var n := DecodeRune(s).size;
      AfterSpaces(s[n..]);
      assert s[n..][Spaces(s[n..])..] == s[Spaces(s)..];
    } else {
      assert s[0..] == s;
    }
  }

  lemma SpaceStartsWell(s: string)
    requires s != "" && IsSpace(DecodeRune(s).code)
    ensures StartsWell(s)
  {
  }

  /** A front of a text that does not start with white space does not either. */
  lemma FrontIsVisible(s: string, n: nat)
    requires n <= |s| && Spaces(s) == 0
    ensures Spaces(s[..n]) == 0
  {
    var t := s[..n];
    if t != "" && IsSpace(DecodeRune(t).code) {
      SpaceStartsWell(t);
      DecodeOwnBytes(t, s);
      assert false;
    }
  }

  /** Trimming is done once. */
  lemma TrimTwice(s: string)
    ensures Trim(Trim(s)) == Trim(s)
  {
    hide TrimRight, Spaces;
    var x := s[Spaces(s)..];
    AfterSpaces(s);
    FrontIsVisible(x, |TrimRight(x)|);
    TrimRightTwice(x);
    assert Trim(s)[0..] == Trim(s);
  }
}
