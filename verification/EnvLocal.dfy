/**
  How far each step of the env scan looks. A statement that ends in a line break
  or a closing quote is read from its own bytes, and the white space and comment
  lines before a line start are skipped whatever follows them. Every law about
  editing an env file rests on these two facts.
 */
module EnvLocal {
  import opened Text
  import opened EnvScan

  predicate IsSeparator(c: char) {
    c in "=:\n"
  }

  lemma SameFront(s: string, t: string, k: nat, n: nat)
    requires n <= k < |s| && k < |t| && s[..k + 1] == t[..k + 1]
    ensures s[n..][..k - n + 1] == t[n..][..k - n + 1]
    ensures s[n..][k - n] == s[k] == t[k] == t[n..][k - n]
  {
    assert s[n..][..k - n + 1] == s[..k + 1][n..];
    assert t[n..][..k - n + 1] == t[..k + 1][n..];
    assert s[k] == s[..k + 1][k];
    assert t[k] == t[..k + 1][k];
  }

  lemma {:induction false} SeparatorLocal(sc: Scanner, s: string, t: string, k: nat)
    requires k < |s| && k < |t| && s[..k + 1] == t[..k + 1]
    requires sc.FindSeparator(s) == At(k)
    ensures sc.FindSeparator(t) == At(k)
    decreases k
  {
    hide DecodeRune, sc.IsKeyRune;
    assert IsAscii(s[k]);
    DecodeStopsAtAscii(s, t, k);
    var n := DecodeRune(s).size;
    assert s[0] == s[..k + 1][0] == t[0];
    if sc.IsKeyRune(DecodeRune(s).code) {
      assert k > 0;
      SameFront(s, t, k, n);
      SeparatorLocal(sc, s[n..], t[n..], k - n);
    }
  }

  lemma {:induction false} EnvSpacesLocal(s: string, t: string, k: nat)
    requires k < |s| && k < |t| && s[..k + 1] == t[..k + 1]
    requires IsAscii(s[k]) && !IsEnvSpace(s[k] as int)
    ensures EnvSpaces(t) == EnvSpaces(s) <= k
    decreases k
  {
    DecodeStopsAtAscii(s, t, k);
    var n := DecodeRune(s).size;
    if IsEnvSpace(DecodeRune(s).code) {
      hide DecodeRune, IsEnvSpace;
      assert k > 0;
      SameFront(s, t, k, n);
      EnvSpacesLocal(s[n..], t[n..], k - n);
    }
  }

  lemma ExportLocal(s: string, t: string, k: nat)
    requires k < |s| && k < |t| && s[..k + 1] == t[..k + 1] && IsSeparator(s[k])
    ensures ExportLength(t) == ExportLength(s) <= k
  {
    hide EnvSpaces;
    SameFront(s, t, k, 0);
    if k < 6 {
      assert |s| > 6 ==> s[..6][k] == s[k] != EXPORT[k];
      assert |t| > 6 ==> t[..6][k] == s[k] != EXPORT[k];
    } else {
      assert s[..6] == s[..k + 1][..6] == t[..6];
      SameFront(s, t, k, 6);
      assert s[6] == s[6..][..k - 5][0] == t[6..][..k - 5][0] == t[6];
      EnvSpacesLocal(s[6..], t[6..], k - 6);
    }
  }

  /** Whether the statement has a separator, so that its key is what is written before it. */
  predicate Separated(sc: Scanner, s: string) {
    sc.FindSeparator(s[ExportLength(s)..]).At?
  }

  lemma LocateKeyLocal(sc: Scanner, s: string, t: string, head: KeyHead)
    requires Separated(sc, s) && sc.LocateKey(s) == Ok(head)
    requires head.keyEnd <= |t| && s[..head.keyEnd] == t[..head.keyEnd]
    ensures Separated(sc, t) && sc.LocateKey(t) == Ok(head)
    ensures head.keyEnd > 0 && (head.inherited <==> s[head.keyEnd - 1] == '\n')
  {
    hide sc.FindSeparator, ExportLength;
    var k := head.keyEnd - 1;
    var e := ExportLength(s);
    assert s[e..][k - e] == s[k];
    ExportLocal(s, t, k);
    SameFront(s, t, k, e);
    SeparatorLocal(sc, s[e..], t[e..], k - e);
    assert s[e..][..k - e] == s[e..][..k - e + 1][..k - e] == t[e..][..k - e];
  }

  /** A text without a separator holds no line break and no quote. */
  lemma {:induction false} MissingSeparator(sc: Scanner, s: string, i: nat)
    requires sc.FindSeparator(s) == Missing && i < |s|
    ensures s[i] != '\n' && !IsQuote(s[i])
    decreases i
  {
    var n := DecodeRune(s).size;
    assert sc.IsKeyRune(DecodeRune(s).code);
    if i < n {
      assert i > 0 ==> IsContinuation(s[i]);
    } else {
      hide DecodeRune, sc.IsKeyRune;
      MissingSeparator(sc, s[n..], i - n);
    }
  }

  lemma {:induction false} QuotedEndLocal(s: string, t: string, quote: char, i: nat, escaped: bool)
    requires i <= |s| && QuotedEnd(s, quote, i, escaped).Some?
    requires QuotedEnd(s, quote, i, escaped).value < |t|
    requires s[..QuotedEnd(s, quote, i, escaped).value + 1] == t[..QuotedEnd(s, quote, i, escaped).value + 1]
    ensures QuotedEnd(t, quote, i, escaped) == QuotedEnd(s, quote, i, escaped)
    decreases |s| - i
  {
    var n := QuotedEnd(s, quote, i, escaped).value;
    SameFront(s, t, n, i);
    assert s[i] == s[..n + 1][i] == t[i];
    if s[i] != quote {
      QuotedEndLocal(s, t, quote, i + 1, !escaped && s[i] == '\\');
    } else if escaped {
      QuotedEndLocal(s, t, quote, i + 1, false);
    }
  }

  lemma UnquotedLineLocal(s: string, t: string, k: nat)
    requires k < |s| && k < |t| && s[..k + 1] == t[..k + 1]
    requires |UnquotedLine(s)| == k && s[k] == '\n'
    ensures UnquotedLine(t) == UnquotedLine(s)
  {
    SameFront(s, t, k, 0);
    assert s[..k] == s[..k + 1][..k] == t[..k];
    IndexByteAt(t, '\n', k);
    IndexByteAt(s, '\n', k);
  }

  /** Whether a statement's last byte ends it, so that what follows cannot extend it. */
  predicate Closed(s: string, l: Located)
    requires 0 < l.next <= |s|
  {
    l.st.quote != NO_QUOTE || s[l.next - 1] == '\n'
  }

  lemma ClosedIsSeparated(sc: Scanner, s: string, l: Located)
    requires s != "" && sc.First(s) == Ok(l) && Closed(s, l)
    ensures Separated(sc, s)
    ensures IsAscii(s[l.next - 1])
  {
    hide sc.FindSeparator, ExportLength, EnvSpaces, TrimRight, UnquotedLine, UnquotedValue, QuotedEnd;
    var e := ExportLength(s);
    if !Separated(sc, s) {
      assert sc.FindSeparator(s[e..]) == Missing;
      var at := e + EnvSpaces(s[e..]);
      if at < |s| && IsQuote(s[at]) {
        MissingSeparator(sc, s[e..], at - e);
        assert false;
      } else {
        assert l.st.quote == NO_QUOTE;
        assert s[e..] != "";
        MissingSeparator(sc, s[e..], l.next - 1 - e);
        assert false;
      }
    }
  }

  lemma {:induction false} EnvSpacesHoldNoBreak(s: string, i: nat)
    requires i < EnvSpaces(s)
    ensures s[i] != '\n'
    decreases i
  {
    var n := DecodeRune(s).size;
    if i < n {
      assert IsEnvSpace(DecodeRune(s).code);
      assert i > 0 ==> IsContinuation(s[i]);
    } else {
      hide DecodeRune, IsEnvSpace;
      EnvSpacesHoldNoBreak(s[n..], i - n);
    }
  }

  lemma UnquotedStopsAtBreak(v: string)
    ensures '\n' in v ==> |UnquotedLine(v)| < |v| && v[|UnquotedLine(v)|] == '\n'
    ensures '\n' !in UnquotedLine(v)
    ensures forall i :: 0 <= i < |UnquotedLine(v)| ==> v[i] != '\n'
    ensures |UnquotedLine(v)| < |v| ==> v[|UnquotedLine(v)|] == '\n'
  {
  }

  lemma ValueLocal(v: string, w: string, key: string, l: Located)
    requires Value(v, key) == Ok(l) && 0 < l.next && Closed(v, l)
    requires l.next <= |w| && v[..l.next] == w[..l.next]
    ensures Value(w, key) == Ok(l) && Closed(w, l)
    ensures !IsEnvSpace(v[l.next - 1] as int)
  {
    hide TrimRight, IndexByte, QuotedEnd, DecodeRune, UnquotedLine, BeforeComment;
    var end := l.next - 1;
    SameFront(v, w, end, 0);
    assert v[0] == v[..l.next][0] == w[0];
    if IsQuote(v[0]) {
      QuotedEndLocal(v, w, v[0], 1, false);
    } else {
      UnquotedStopsAtBreak(v);
      UnquotedLineLocal(v, w, end);
    }
  }

  /** A text whose first statement has a value, taken apart at the value. */
  ghost predicate ValuedAt(sc: Scanner, s: string, head: KeyHead, at: nat, m: Located) {
    && s != "" && sc.LocateKey(s) == Ok(head) && !head.inherited
    && ' ' !in TrimRight(head.key)
    && at == head.keyEnd + EnvSpaces(s[head.keyEnd..])
    && Value(s[at..], TrimRight(head.key)) == Ok(m)
  }

  lemma FirstOfValued(sc: Scanner, s: string, head: KeyHead, at: nat, m: Located)
    requires ValuedAt(sc, s, head, at, m)
    ensures sc.First(s) == Ok(Located(Shift(m.st, at), at + m.next))
  {
    hide sc.LocateKey, EnvSpaces, TrimRight, Value;
  }

  lemma ValuedOfFirst(sc: Scanner, s: string, l: Located) returns (head: KeyHead, at: nat, m: Located)
    requires s != "" && sc.First(s) == Ok(l) && !l.st.inherited
    ensures ValuedAt(sc, s, head, at, m)
    ensures l == Located(Shift(m.st, at), at + m.next) && at + m.next <= |s|
  {
    hide sc.LocateKey, EnvSpaces, TrimRight, Value;
    head := sc.LocateKey(s).value;
    at := head.keyEnd + EnvSpaces(s[head.keyEnd..]);
    m := Value(s[at..], TrimRight(head.key)).value;
  }

  /** A closed statement is read from its own bytes alone. */
  lemma FirstLocal(sc: Scanner, s: string, t: string, l: Located)
    requires s != "" && sc.First(s) == Ok(l) && Closed(s, l)
    requires l.next <= |t| && s[..l.next] == t[..l.next]
    ensures t != "" && sc.First(t) == Ok(l) && Closed(t, l)
  {
    hide sc.First;
    ClosedIsSeparated(sc, s, l);
    SameFront(s, t, l.next - 1, 0);
    if l.st.inherited {
      BareLocal(sc, s, t, l);
    } else {
      hide sc.LocateKey, Value, EnvSpaces, TrimRight, Separated, ValuedAt;
      var head, at, m := ValuedOfFirst(sc, s, l);
      ValuedFirstLocal(sc, s, t, l, head, at, m);
    }
  }

  lemma ValuedFirstLocal(sc: Scanner, s: string, t: string, l: Located, head: KeyHead, at: nat, m: Located)
    requires ValuedAt(sc, s, head, at, m) && l == Located(Shift(m.st, at), at + m.next)
    requires 0 < l.next <= |s| && Closed(s, l) && Separated(sc, s)
    requires l.next <= |t| && s[..l.next] == t[..l.next]
    ensures t != "" && sc.First(t) == Ok(l)
  {
    hide sc.First, sc.LocateKey, Value, EnvSpaces, TrimRight, Separated;
    var k := head.keyEnd;
    assert s[..k] == s[..l.next][..k] == t[..k];
    LocateKeyLocal(sc, s, t, head);
    ValuedLocal(s, t, TrimRight(head.key), k, at, m);
    assert t != "";
    FirstOfValued(sc, t, head, at, m);
  }

  lemma BareLocal(sc: Scanner, s: string, t: string, l: Located)
    requires s != "" && sc.First(s) == Ok(l) && l.st.inherited && Separated(sc, s)
    requires l.next <= |t| && s[..l.next] == t[..l.next]
    ensures t != "" && sc.First(t) == Ok(l)
  {
    hide sc.LocateKey, EnvSpaces, TrimRight, Value, Separated;
    var head := sc.LocateKey(s).value;
    assert head.keyEnd == l.next;
    LocateKeyLocal(sc, s, t, head);
  }

  lemma ValuedLocal(s: string, t: string, key: string, k: nat, at: nat, m: Located)
    requires 0 < k <= |s| && s[k - 1] != '\n' && at == k + EnvSpaces(s[k..])
    requires Value(s[at..], key) == Ok(m) && 0 < at + m.next <= |s| && at + m.next <= |t|
    requires m.st.quote != NO_QUOTE || s[at + m.next - 1] == '\n'
    requires s[..at + m.next] == t[..at + m.next]
    ensures at == k + EnvSpaces(t[k..]) && Value(t[at..], key) == Ok(m)
  {
    hide EnvSpaces, Value;
    var end := at + m.next - 1;
    if m.next == 0 {
      EnvSpacesHoldNoBreak(s[k..], at - 1 - k);
      assert false;
    }
    SameFront(s, t, end, at);
    ValueLocal(s[at..], t[at..], key, m);
    SameFront(s, t, end, k);
    assert IsAscii(s[end]) by { ClosedByte(s[at..], key, m); }
    EnvSpacesLocal(s[k..], t[k..], end - k);
  }

  lemma ClosedByte(v: string, key: string, m: Located)
    requires Value(v, key) == Ok(m) && 0 < m.next && Closed(v, m)
    ensures IsAscii(v[m.next - 1])
  {
    hide UnquotedValue, UnquotedLine;
  }
}
