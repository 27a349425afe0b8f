/**
  Splitting a byte stream into lines as it arrives (dockerclient.go): the writer keeps
  the bytes after the last line break, and compacts its buffer in place.
 */
module LineWriters {
  import opened Text

  /** The complete lines of a text. */
  function Lines(s: string): seq<string> {
    match IndexByte(s, '\n')
    case None => []
    case Some(i) => [s[..i]] + Lines(s[i + 1..])
  }

  /** What follows the last line break. */
  function Rest(s: string): (r: string)
    ensures '\n' !in r
  {
    match IndexByte(s, '\n')
    case None => s
    case Some(i) => Rest(s[i + 1..])
  }

  lemma {:induction false} IndexConcat(a: string, b: string)
    ensures IndexByte(a, '\n').Some? ==> IndexByte(a + b, '\n') == IndexByte(a, '\n')
    ensures IndexByte(a, '\n').None? && IndexByte(b, '\n').Some? ==>
      IndexByte(a + b, '\n') == Some(|a| + IndexByte(b, '\n').value)
    ensures IndexByte(a, '\n').None? && IndexByte(b, '\n').None? ==> IndexByte(a + b, '\n').None?
    decreases |a|
  {
    if a == "" {
      assert a + b == b;
    } else {
      assert (a + b)[1..] == a[1..] + b;
      IndexConcat(a[1..], b);
    }
  }

  lemma LinesOf(s: string)
    ensures IndexByte(s, '\n').None? ==> Lines(s) == [] && Rest(s) == s
    ensures IndexByte(s, '\n').Some? ==>
      var i := IndexByte(s, '\n').value;
      Lines(s) == [s[..i]] + Lines(s[i + 1..]) && Rest(s) == Rest(s[i + 1..])
  {
    hide IndexByte;
    LinesAre(s);
    RestIs(s);
  }

  lemma LinesAre(s: string)
    ensures Lines(s) == match IndexByte(s, '\n') case None => [] case Some(i) => [s[..i]] + Lines(s[i + 1..])
  {
  }

  lemma RestIs(s: string)
    ensures Rest(s) == match IndexByte(s, '\n') case None => s case Some(i) => Rest(s[i + 1..])
  {
    hide IndexByte;
  }

  /** Splitting is a homomorphism: what is left of one part starts the next. */
  lemma {:induction false} LinesConcat(a: string, b: string)
    ensures Lines(a + b) == Lines(a) + Lines(Rest(a) + b)
    ensures Rest(a + b) == Rest(Rest(a) + b)
    decreases |a|
  {
    hide Lines, Rest, IndexByte;
    IndexConcat(a, b);
    LinesOf(a);
    if IndexByte(a, '\n').Some? {
      var i := IndexByte(a, '\n').value;
      LinesOf(a + b);
      assert (a + b)[..i] == a[..i] && (a + b)[i + 1..] == a[i + 1..] + b;
      LinesConcat(a[i + 1..], b);
    }
  }

  lemma RestHoldsNoLine(s: string)
    requires '\n' !in s
    ensures Lines(s) == [] && Rest(s) == s
  {
  }

  class LineWriter {
    var buf: array<char>
    var len: nat
    /** What emit has been called with. */
    var emitted: seq<string>

    ghost predicate Valid()
      reads this
    {
      len <= buf.Length
    }

    ghost function Held(): string
      reads this, buf
      requires Valid()
    {
      buf[..len]
    }

    constructor ()
      ensures Valid() && fresh(buf) && Held() == "" && emitted == []
    {
      buf, len, emitted := new char[0], 0, [];
    }

    /** append: in place while the buffer has room. */
    method Append(p: string)
      requires Valid()
      modifies this`buf, this`len, buf
      ensures Valid() && Held() == old(Held()) + p
      ensures buf == old(buf) || fresh(buf)
    {
      if len + |p| > buf.Length {
        var grown := new char[2 * (len + |p|)](_ => '\0');
        forall i | 0 <= i < len {
          grown[i] := buf[i];
        }
        buf := grown;
      }
      CopyIn(p);
      len := len + |p|;
    }

    method CopyIn(p: string)
      requires Valid() && len + |p| <= buf.Length
      modifies buf
      ensures buf[..len + |p|] == old(buf[..len]) + p
    {
      forall i | 0 <= i < |p| {
        buf[len + i] := p[i];
      }
      assert buf[..len] == old(buf[..len]);
      assert buf[len..len + |p|] == p;
      assert buf[..len + |p|] == buf[..len] + buf[len..len + |p|];
    }

    /** Emits every complete line, and keeps the rest at the front of the buffer. */
    method Write(p: string) returns (n: nat)
      requires Valid()
      modifies this, buf
      ensures Valid() && (buf == old(buf) || fresh(buf)) && n == |p|
      ensures emitted == old(emitted) + Lines(old(Held()) + p)
      ensures Held() == Rest(old(Held()) + p)
    {
      hide Lines, Rest, IndexByte;
      ghost var all := Held() + p;
      ghost var before := emitted;
      Append(p);
      var start := 0;
      assert all[0..] == all;
      while true
        invariant Valid() && start <= len && Held() == all
        invariant buf == old(buf) || fresh(buf)
        invariant before + Lines(all) == emitted + Lines(all[start..]) && Rest(all) == Rest(all[start..])
        decreases len - start
      {
        var rest := buf[start..len];
        assert rest == all[start..];
        var i := IndexByte(rest, '\n');
        LinesOf(rest);
        if i.None? {
          break;
        }
        assert rest[i.value + 1..] == all[start + i.value + 1..];
        emitted := emitted + [rest[..i.value]];
        start := start + i.value + 1;
      }
      if start > 0 {
        Compact(start);
      }
      return |p|;
    }

    /** copy(buf, buf[start:]): overlapping bytes move to the front, first to last. */
    method Compact(start: nat)
      requires Valid() && start <= len
      modifies this`len, buf
      ensures Valid() && Held() == old(Held())[start..]
    {
      ghost var held := Held();
      var n := len - start;
      for i := 0 to n
        invariant Valid() && len == start + n == |held|
        invariant forall k :: 0 <= k < i ==> buf[k] == held[start + k]
        invariant forall k :: i + start <= k < len ==> buf[k] == held[k]
      {
        buf[i] := buf[start + i];
      }
      len := n;
    }

    method Flush()
      requires Valid()
      modifies this`len, this`emitted
      ensures Valid() && Held() == ""
      ensures emitted == old(emitted) + if old(Held()) == "" then [] else [old(Held())]
    {
      if len > 0 {
        emitted := emitted + [buf[..len]];
        len := 0;
      }
    }

    /** A stream that arrives in any number of writes, then ends. */
    method Pump(chunks: seq<string>)
      requires Valid() && Held() == "" && emitted == []
      modifies this, buf
      ensures Valid() && Held() == ""
      ensures emitted == AllLines(Joined(chunks))
    {
      RestHoldsNoLine("");
      for c := 0 to |chunks|
        invariant Valid() && (buf == old(buf) || fresh(buf))
        invariant emitted == Lines(Joined(chunks[..c])) && Held() == Rest(Joined(chunks[..c]))
      {
        assert chunks[..c + 1][..c] == chunks[..c];
        LinesConcat(Joined(chunks[..c]), chunks[c]);
        var n := Write(chunks[c]);
      }
      assert chunks[..|chunks|] == chunks;
      Flush();
    }
  }

  function Joined(chunks: seq<string>): string {
    if chunks == [] then "" else Joined(chunks[..|chunks| - 1]) + chunks[|chunks| - 1]
  }

  /** The lines of a whole stream: a last piece without a line break is one, unless it is empty. */
  function AllLines(s: string): seq<string> {
    Lines(s) + if Rest(s) == "" then [] else [Rest(s)]
  }

  // ---- an independent definition ------------------------------------------------------------

  function Terminated(lines: seq<string>): string {
    if lines == [] then "" else lines[0] + "\n" + Terminated(lines[1..])
  }

  /** Lines, each ended by a line break, and what is left: that is the stream, and the only such reading of it. */
  lemma {:induction false} LinesExactly(s: string, lines: seq<string>, rest: string)
    requires '\n' !in rest && forall i :: 0 <= i < |lines| ==> '\n' !in lines[i]
    ensures s == Terminated(lines) + rest <==> lines == Lines(s) && rest == Rest(s)
    decreases |lines| + |s|
  {
    match IndexByte(s, '\n')
    case None =>
      if lines != [] {
        assert (Terminated(lines) + rest)[|lines[0]|] == '\n';
      }
    case Some(i) =>
      if lines == [] {
        assert s[i] in s;
      } else {
        FirstLine(s, i, lines, rest);
        LinesExactly(s[i + 1..], lines[1..], rest);
      }
  }

  lemma BreaksLater(line: string, tail: string)
    requires '\n' !in line
    ensures forall k :: 0 <= k < |line| ==> (line + "\n" + tail)[k] != '\n'
    ensures (line + "\n" + tail)[|line|] == '\n'
  {
    assert forall k :: 0 <= k < |line| ==> (line + "\n" + tail)[k] == line[k] && line[k] in line;
  }

  lemma FirstLineIsOne(a: string, x: string, b: string, y: string)
    requires '\n' !in a && '\n' !in b
    ensures a + "\n" + x == b + "\n" + y <==> a == b && x == y
  {
    var s, t := a + "\n" + x, b + "\n" + y;
    BreaksLater(a, x);
    BreaksLater(b, y);
    if s == t {
      assert |a| == |b|;
      assert s[..|a|] == a && t[..|b|] == b;
      assert s[|a| + 1..] == x && t[|b| + 1..] == y;
    }
  }

  lemma FirstLine(s: string, i: nat, lines: seq<string>, rest: string)
    requires lines != [] && i < |s| && s[i] == '\n' && '\n' !in s[..i] && '\n' !in lines[0]
    ensures s == Terminated(lines) + rest <==> lines[0] == s[..i] && s[i + 1..] == Terminated(lines[1..]) + rest
  {
    var tail := Terminated(lines[1..]) + rest;
    assert Terminated(lines) + rest == lines[0] + "\n" + tail;
    assert s == s[..i] + "\n" + s[i + 1..];
    FirstLineIsOne(s[..i], s[i + 1..], lines[0], tail);
  }
}
