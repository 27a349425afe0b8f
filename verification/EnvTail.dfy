/**
  The end of an edited env file. Changes before it never disturb it; declarations
  appended there hold exactly when the end of the original text lets them, which
  the last value, the line break and the services kept decide.
 */
module EnvTail {
  import opened Text
  import opened EnvScan
  import opened EnvLocal
  import opened EnvEdit
  import opened EnvLaws
  import opened EnvEnd
  import opened EnvInsert
  import opened TextEdits
  import opened EnvRewrite
  import opened EnvAppend
  import opened EnvFile

  // ---- the end under changes before it ------------------------------------------------

  lemma {:induction false} FrontIsFree(sc: Scanner, x: string)
    requires InsertOk(sc, x, |x|)
    ensures sc.Scan(x).Ok? && EndOf(sc, x) == Free
    decreases |x|
  {
    hide *;
    InsertSplit(sc, x, |x|);
    BeforeEnd(sc, x);
    if Before(sc, x, |x|) {
      BlankBeforeLine(sc, x, |x|);
      assert x[..|x|] == x;
      BlankIsFree(sc, x);
    } else {
      var o := sc.Start(x).value;
      var l := sc.First(x[o..]).value;
      var n := o + l.next;
      HeadInside(sc, x, o, l);
      assert |x| - n == |x[n..]|;
      FrontIsFree(sc, x[n..]);
      ScanOfHead(sc, x, o, l, sc.Scan(x[n..]).value);
      EndAfterHead(sc, x, o, l);
    }
  }

  lemma BeforeEnd(sc: Scanner, x: string)
    ensures Before(sc, x, |x|) <==> (sc.Start(x).Some? ==> |x| <= sc.Start(x).value)
  {
  }

  /** A file that is empty or ends in a line break has a free end. */
  lemma TerminatedIsFree(sc: Scanner, s: string, sts: seq<Statement>)
    requires sc.Scan(s) == Ok(sts) && InsertOk(sc, s, |s|)
    ensures EndOf(sc, s) == Free
  {
    hide *;
    FrontIsFree(sc, s);
  }

  lemma InsertEnd(sc: Scanner, s: string, at: nat, name: string, v: string, eol: string)
    requires InsertOk(sc, s, at) && ValidName(name) && SafeValue(v) && eol in EOLS && at <= |s|
    ensures EndOf(sc, Splice(s, at, at, DeclarationLine(name, v, eol))) == EndOf(sc, s)
  {
    hide *;
    var x, u, line := s[..at], s[at..], DeclarationLine(name, v, eol);
    assert x[..at] == s[..at];
    SlotLocal(sc, s, x, at);
    FrontIsFree(sc, x);
    var d := Decl(name, v, eol);
    IsDecl(d);
    OneLine(sc, d);
    FreeConcat(sc, line, [Declaration(name, v, 0)], u);
    FreeConcat(sc, x, sc.Scan(x).value, line + u);
    FreeConcat(sc, x, sc.Scan(x).value, u);
    SpliceIs(s, at, line);
  }

  lemma IsDecl(d: Decl)
    requires ValidName(d.name) && SafeValue(d.value) && d.eol in EOLS
    ensures ValidDecl(d)
  {
  }

  lemma SpliceIs(s: string, at: nat, line: string)
    requires at <= |s|
    ensures Splice(s, at, at, line) == s[..at] + (line + s[at..]) && s == s[..at] + s[at..]
  {
  }

  lemma {:induction false} ReplaceEnd(sc: Scanner, s: string, sts: seq<Statement>, i: nat, v: string)
    requires sc.Scan(s) == Ok(sts) && i < |sts| && !sts[i].inherited && sts[i].key != "" && SafeValue(v)
    ensures 0 <= sts[i].valueStart <= sts[i].valueEnd <= |s|
    ensures EndOf(sc, Splice(s, sts[i].valueStart, sts[i].valueEnd, v)) == EndOf(sc, s)
    decreases |s|
  {
    hide *;
    var o, l, rest := ScanHead(sc, s, sts);
    var n := o + l.next;
    HeadInside(sc, s, o, l);
    HeadOf(sc, s, o, l);
    FirstBounds(sc, s[o..], l);
    if i == 0 {
      ReplaceEndHead(sc, s, sts, o, l, rest, v);
    } else {
      LaterIs(sts, l, o, rest, i);
      ReplaceEnd(sc, s[n..], rest, i - 1, v);
      FirstCloses(sc, s[o..], l);
      if n == |s| { EndHoldsNothing(sc, s[n..], rest); assert false; }
      var u := Splice(s[n..], rest[i - 1].valueStart, rest[i - 1].valueEnd, v);
      HeadKept(sc, s, o, l, u);
      SpliceLater(s, n, rest[i - 1].valueStart, rest[i - 1].valueEnd, v);
      EndLater(sc, s, o, l, u);
    }
  }

  lemma LaterIs(sts: seq<Statement>, l: Located, o: nat, rest: seq<Statement>, i: nat)
    requires sts == [Shift(l.st, o)] + ShiftAll(rest, o + l.next) && 0 < i < |sts| && !sts[i].inherited
    ensures i - 1 < |rest| && !rest[i - 1].inherited && rest[i - 1].key == sts[i].key
    ensures sts[i].valueStart == rest[i - 1].valueStart + o + l.next && sts[i].valueEnd == rest[i - 1].valueEnd + o + l.next
  {
    assert sts[i] == Shift(rest[i - 1], o + l.next);
  }

  /** The end of a text whose first statement is closed is that of the rest. */
  lemma EndLater(sc: Scanner, s: string, o: nat, l: Located, u: string)
    requires Head(sc, s, o, l) && o + l.next <= |s| && 0 < l.next <= |s[o..]| && Closed(s[o..], l)
    requires Head(sc, s[..o + l.next] + u, o, l)
    ensures EndOf(sc, s) == EndOf(sc, s[o + l.next..]) && EndOf(sc, s[..o + l.next] + u) == EndOf(sc, u)
  {
    hide *;
    var n := o + l.next;
    var t := s[..n] + u;
    EndAfterHead(sc, s, o, l);
    HeadInside(sc, t, o, l);
    assert t[o..][..l.next] == s[o..][..l.next];
    ClosedByFront(s[o..], t[o..], l);
    EndAfterHead(sc, t, o, l);
    assert t[n..] == u;
  }

  lemma ReplaceEndHead(sc: Scanner, s: string, sts: seq<Statement>, o: nat, l: Located, rest: seq<Statement>, v: string)
    requires Head(sc, s, o, l) && o + l.next <= |s| && 0 < l.next <= |s[o..]|
    requires sts == [Shift(l.st, o)] + ShiftAll(rest, o + l.next)
    requires !sts[0].inherited && sts[0].key != "" && SafeValue(v)
    requires 0 <= l.st.valueStart <= l.st.valueEnd <= l.next
    ensures 0 <= sts[0].valueStart <= sts[0].valueEnd <= |s|
    ensures EndOf(sc, Splice(s, sts[0].valueStart, sts[0].valueEnd, v)) == EndOf(sc, s)
  {
    hide *;
    FirstIs(sts, l, o, rest);
    HeadOf(sc, s, o, l);
    var t := Splice(s, o + l.st.valueStart, o + l.st.valueEnd, v);
    var l' := Resized(l, |v|);
    ReplaceFirst(sc, s, o, l, v);
    HeadInside(sc, t, o, l');
    HeadOf(sc, t, o, l');
    ResizedParts(l, |v|);
    KeyedIsSeparated(sc, s[o..], l);
    KeyedIsSeparated(sc, t[o..], l');
    FirstCloses(sc, s[o..], l);
    ReplacedCloses(s, o, l, v);
    EndAfterHead(sc, s, o, l);
    EndAfterHead(sc, t, o, l');
  }

  lemma FirstIs(sts: seq<Statement>, l: Located, o: nat, rest: seq<Statement>)
    requires sts == [Shift(l.st, o)] + ShiftAll(rest, o + l.next) && !sts[0].inherited
    ensures !l.st.inherited && l.st.key == sts[0].key
    ensures sts[0].valueStart == o + l.st.valueStart && sts[0].valueEnd == o + l.st.valueEnd
  {
    assert sts[0] == Shift(l.st, o);
  }

  lemma ResizedParts(l: Located, n: nat)
    requires 0 <= l.st.valueStart <= l.st.valueEnd <= l.next
    ensures Resized(l, n).st.key == l.st.key && Resized(l, n).st.inherited == l.st.inherited
  {
  }

  lemma ReplacedCloses(s: string, o: nat, l: Located, v: string)
    requires o <= |s| && 0 <= l.st.valueStart <= l.st.valueEnd <= l.next && 0 < l.next <= |s[o..]| && SafeValue(v)
    requires Closed(s[o..], l) ==> l.st.valueEnd < l.next
    requires var t := Splice(s, o + l.st.valueStart, o + l.st.valueEnd, v); 0 < Resized(l, |v|).next <= |t[o..]|
    ensures var t := Splice(s, o + l.st.valueStart, o + l.st.valueEnd, v);
      Closed(t[o..], Resized(l, |v|)) <==> Closed(s[o..], l)
  {
    var t, n := Splice(s, o + l.st.valueStart, o + l.st.valueEnd, v), Resized(l, |v|).next;
    if l.st.valueEnd < l.next {
      assert t[o..][n - 1] == t[o + n - 1] == s[o + l.next - 1] == s[o..][l.next - 1];
    } else {
      assert t[o..][n - 1] == t[o + n - 1] == v[|v| - 1];
      assert FileSafe(v[|v| - 1]);
    }
  }

  // ---- changes before the end ------------------------------------------------------------

  predicate AtEnd(s: string, sts: seq<Statement>, c: Change) {
    EditOf(sts, c).start == |s|
  }

  predicate NoneAtEnd(s: string, sts: seq<Statement>, cs: seq<Change>) {
    forall i :: 0 <= i < |cs| ==> !AtEnd(s, sts, cs[i])
  }

  /** A change that does not reach an empty last value precedes it. */
  lemma FrontIndex(sc: Scanner, s: string, sts: seq<Statement>, c: Change)
    requires sc.Scan(s) == Ok(sts) && Planned(sc, s, sts, c) && EmptyLast(s, sts) && !AtEnd(s, sts, c)
    ensures if c.SetValue? then c.index < |sts| - 1 else c.index <= |sts| - 1
  {
    hide sc.Scan, InsertOk, Slot, ValidName, SafeValue, DeclarationLine;
    if c.Declare? {
      InsertSplit(sc, s, c.at);
      SlotSeparates(sc, s, sts, c.at);
    }
  }

  lemma LastReplaced(s: string, sts: seq<Statement>, i: nat, v: string)
    requires EmptyLast(s, sts) && i < |sts| - 1 && Ordered(sts, 0, |s|) && !sts[i].inherited
    ensures EmptyLast(Splice(s, sts[i].valueStart, sts[i].valueEnd, v), ReplacedAt(sts, i, |v|))
  {
    var d := |v| - (sts[i].valueEnd - sts[i].valueStart);
    assert ReplacedAt(sts, i, |v|)[|sts| - 1] == Shift(sts[|sts| - 1], d);
  }

  lemma LastPushed(s: string, sts: seq<Statement>, k: nat, at: nat, decl: Statement, line: string)
    requires EmptyLast(s, sts) && k <= |sts| - 1 && at <= |s|
    ensures EmptyLast(Splice(s, at, at, line), InsertedAt(sts, k, decl, |line|))
  {
    assert InsertedAt(sts, k, decl, |line|)[|sts|] == Shift(sts[|sts| - 1], |line|);
  }

  /** Changes leave the end of a text as it was; before an empty last value, that value too. */
  lemma {:induction false} FrontsKeep(sc: Scanner, s: string, sts: seq<Statement>, cs: seq<Change>)
    returns (sts': seq<Statement>)
    requires sc.Scan(s) == Ok(sts) && InOrder(sc, s, sts, cs)
    ensures InRange(s, EditsOf(sts, cs)) && sc.Scan(Rendered(s, EditsOf(sts, cs))) == Ok(sts')
    ensures EndOf(sc, Rendered(s, EditsOf(sts, cs))) == EndOf(sc, s)
    ensures EmptyLast(s, sts) && NoneAtEnd(s, sts, cs) ==> EmptyLast(Rendered(s, EditsOf(sts, cs)), sts')
    decreases |cs|
  {
    EditsInRange(sc, s, sts, cs);
    hide *;
    sts' := ChangesRender(sc, s, sts, cs);
    if cs == [] {
      RenderedNothing(s, sts);
    } else {
      RestInOrder(sc, s, sts, cs);
      EditsInRange(sc, s, sts, cs) by { OrderIsPlanned(sc, s, sts, cs); }
      EditsInRange(sc, s, sts, cs[1..]) by { OrderIsPlanned(sc, s, sts, cs[1..]); }
      var rest := FrontsKeep(sc, s, sts, cs[1..]);
      var again := ChangesRender(sc, s, sts, cs[1..]);
      RestNotAtEnd(s, sts, cs);
      FrontKept(sts, rest, cs);
      OrderIsPlanned(sc, s, sts, cs);
      RenderedUnfold(s, EditsOf(sts, cs));
      FrontUntouched(s, EditsOf(sts, cs));
      EditsFirst(sts, cs);
      StepKeeps(sc, s, sts, cs[0], Rendered(s, EditsOf(sts, cs[1..])), rest, Rendered(s, EditsOf(sts, cs)), sts');
    }
  }

  lemma OrderIsPlanned(sc: Scanner, s: string, sts: seq<Statement>, cs: seq<Change>)
    requires InOrder(sc, s, sts, cs)
    ensures AllPlanned(sc, s, sts, cs) && Disjoint(EditsOf(sts, cs))
  {
    hide AllPlanned, Disjoint;
  }

  lemma RenderedNothing(s: string, sts: seq<Statement>)
    ensures EditsOf(sts, []) == [] && Rendered(s, []) == s
  {
  }

  lemma RestNotAtEnd(s: string, sts: seq<Statement>, cs: seq<Change>)
    requires cs != []
    ensures NoneAtEnd(s, sts, cs) ==> NoneAtEnd(s, sts, cs[1..]) && !AtEnd(s, sts, cs[0])
  {
    hide AtEnd;
  }

  lemma EditsFirst(sts: seq<Statement>, cs: seq<Change>)
    requires cs != []
    ensures EditsOf(sts, cs)[0] == EditOf(sts, cs[0]) && EditsOf(sts, cs)[1..] == EditsOf(sts, cs[1..])
  {
    hide EditOf;
  }

  lemma StepKeeps(sc: Scanner, s: string, sts: seq<Statement>, c: Change, r: string, rest: seq<Statement>, t: string,
                  sts': seq<Statement>)
    requires sc.Scan(s) == Ok(sts) && Planned(sc, s, sts, c) && sc.Scan(r) == Ok(rest) && |sts| <= |rest|
    requires c.index <= |sts| && rest[..c.index] == sts[..c.index]
    requires c.SetValue? ==> c.index < |sts| && rest[c.index] == sts[c.index]
    requires var e := EditOf(sts, c);
      e.start <= e.end <= |s| && e.end <= |r| && r[..e.end] == s[..e.end] && t == Splice(r, e.start, e.end, e.text)
    requires sc.Scan(t) == Ok(sts')
    ensures EndOf(sc, t) == EndOf(sc, r)
    ensures EmptyLast(s, sts) && !AtEnd(s, sts, c) && EmptyLast(r, rest) ==> EmptyLast(t, sts')
  {
    hide sc.Scan, InsertOk, Slot, EndOf, SafeValue, ValidName, Splice, EmptyLast, AtEnd, DeclarationLine, InsertedAt, ReplacedAt;
    if EmptyLast(s, sts) && !AtEnd(s, sts, c) { FrontIndex(sc, s, sts, c); }
    ScanOrdered(sc, r, rest);
    match c
    case SetValue(i, v, _) =>
      ReplaceEnd(sc, r, rest, i, v);
      ReplaceScan(sc, r, rest, i, v);
      if EmptyLast(s, sts) && !AtEnd(s, sts, c) && EmptyLast(r, rest) { LastReplaced(r, rest, i, v); }
    case Declare(k, at, name, v, lead, eol, _) =>
      var line := DeclarationLine(name, v, eol);
      assert "" + line == line;
      SlotLocal(sc, s, r, at);
      InsertEnd(sc, r, at, name, v, eol);
      InsertScan(sc, r, rest, at, name, v, eol);
      if EmptyLast(s, sts) && !AtEnd(s, sts, c) && EmptyLast(r, rest) { LastPushed(r, rest, k, at, Declaration(name, v, at), line); }
  }

  // ---- the tail of a rendering ---------------------------------------------------------------

  function Texts(edits: seq<TextEdit>): string {
    if edits == [] then "" else edits[0].text + Texts(edits[1..])
  }

  predicate AllFrom(edits: seq<TextEdit>, p: nat) {
    forall i :: 0 <= i < |edits| ==> p <= edits[i].start
  }

  lemma {:induction false} RenderedTail(s: string, front: seq<TextEdit>, back: seq<TextEdit>)
    requires InRange(s, front + back) && Disjoint(front + back) && AllFrom(back, |s|)
    ensures InRange(s, front) && Disjoint(front)
    ensures Rendered(s, front + back) == Rendered(s, front) + Texts(back)
    decreases |front + back|
  {
    hide *;
    PartsInRange(s, front, back);
    if front != [] {
      FrontRest(front, back);
      RenderedUnfold(s, front + back);
      RenderedUnfold(s, front);
      RenderedTail(s, front[1..], back);
      SpliceBefore(Rendered(s, front[1..]), Texts(back), front[0]);
    } else {
      assert front + back == back;
      NothingRendered(s);
      if back == [] {
        NoTexts(s);
      } else {
        BackRest(s, back);
        assert [] + back[1..] == back[1..];
        RenderedUnfold(s, back);
        RenderedTail(s, [], back[1..]);
        SpliceStart(s, Texts(back[1..]), back[0].text);
      }
    }
  }

  lemma FrontRest(front: seq<TextEdit>, back: seq<TextEdit>)
    requires front != []
    ensures front + back != [] && (front + back)[0] == front[0] && (front + back)[1..] == front[1..] + back
  {
  }

  lemma BackRest(s: string, back: seq<TextEdit>)
    requires back != [] && InRange(s, back) && AllFrom(back, |s|)
    ensures back[0].start == back[0].end == |s| && AllFrom(back[1..], |s|) && Texts(back) == back[0].text + Texts(back[1..])
  {
  }

  lemma NoTexts(s: string)
    ensures s + Texts([]) == s
  {
  }

  lemma NothingRendered(s: string)
    ensures InRange(s, []) && Disjoint([]) && Rendered(s, []) == s
  {
  }

  lemma PartsInRange(s: string, front: seq<TextEdit>, back: seq<TextEdit>)
    requires InRange(s, front + back) && Disjoint(front + back)
    ensures InRange(s, front) && Disjoint(front)
  {
    assert forall i :: 0 <= i < |front| ==> (front + back)[i] == front[i];
  }

  lemma SpliceBefore(r: string, tail: string, e: TextEdit)
    requires e.start <= e.end <= |r|
    ensures Splice(r + tail, e.start, e.end, e.text) == Splice(r, e.start, e.end, e.text) + tail
  {
    assert (r + tail)[..e.start] == r[..e.start];
    assert (r + tail)[e.end..] == r[e.end..] + tail;
  }

  lemma SpliceStart(s: string, tail: string, text: string)
    ensures Splice(s + tail, |s|, |s|, text) == s + (text + tail)
  {
    assert (s + tail)[..|s|] == s && (s + tail)[|s|..] == tail;
  }

  // ---- changes at the end -----------------------------------------------------------------------

  /** A declaration written after everything else. */
  predicate IsAppend(s: string, c: Change) {
    c.Declare? && c.at == |s|
  }

  predicate Appendable(s: string, sts: seq<Statement>, c: Change) {
    && IsAppend(s, c) && c.index == |sts| && ValidDecl(DeclOf(c)) && (c.lead == "" || c.lead in EOLS)
  }

  function DeclOf(c: Change): Decl
    requires c.Declare?
  {
    Decl(c.name, c.value, c.eol)
  }

  function DeclsOf(cs: seq<Change>): (r: seq<Decl>)
    requires forall i :: 0 <= i < |cs| ==> cs[i].Declare?
    ensures |r| == |cs| && forall i :: 0 <= i < |cs| ==> r[i] == DeclOf(cs[i])
  {
    seq(|cs|, i requires 0 <= i < |cs| => DeclOf(cs[i]))
  }

  ghost predicate AllAppendable(s: string, sts: seq<Statement>, cs: seq<Change>) {
    forall i :: 0 <= i < |cs| ==> Appendable(s, sts, cs[i])
  }

  /** Only the first of the changes at the end brings a line break. */
  predicate LeadsFirst(s: string, sts: seq<Statement>, cs: seq<Change>) {
    forall i, j :: 0 <= i < j < |cs| && AtEnd(s, sts, cs[i]) && IsAppend(s, cs[j]) ==> cs[j].lead == ""
  }

  /** What the appends of a plan write. */
  lemma {:induction false} TextsOfAppends(s: string, sts: seq<Statement>, cs: seq<Change>)
    requires AllAppendable(s, sts, cs) && LeadsFirst(s, sts, cs) && cs != []
    ensures Texts(EditsOf(sts, cs)) == cs[0].lead + Lines(DeclsOf(cs))
    decreases |cs|
  {
    hide ValidDecl, DeclarationLine;
    var rest := cs[1..];
    assert EditsOf(sts, cs)[1..] == EditsOf(sts, rest);
    assert DeclsOf(cs)[1..] == DeclsOf(rest);
    assert Appendable(s, sts, cs[0]);
    var line := DeclarationLine(cs[0].name, cs[0].value, cs[0].eol);
    assert EditsOf(sts, cs)[0].text == cs[0].lead + line;
    AppendIsAtEnd(s, sts, cs[0]);
    if rest == [] {
      assert Texts(EditsOf(sts, rest)) == "" && Lines(DeclsOf(rest)) == "";
    } else {
      assert AllAppendable(s, sts, rest) && LeadsFirst(s, sts, rest);
      TextsOfAppends(s, sts, rest);
      assert rest[0] == cs[1] && Appendable(s, sts, cs[1]) && cs[1].lead == "";
    }
    TextJoined(cs[0].lead, line, Lines(DeclsOf(rest)));
  }

  lemma TextJoined(lead: string, line: string, rest: string)
    ensures (lead + line) + rest == lead + (line + rest) && "" + rest == rest
  {
  }

  lemma AppendIsAtEnd(s: string, sts: seq<Statement>, c: Change)
    requires IsAppend(s, c)
    ensures AtEnd(s, sts, c)
  {
  }

  /** What appends say. */
  lemma {:induction false} AppliedAppends(bs: seq<Binding>, cs: seq<Change>)
    requires forall i :: 0 <= i < |cs| ==> cs[i].Declare? && cs[i].index == |bs|
    ensures AllApplied(bs, cs) == bs + DeclBindings(DeclsOf(cs))
    decreases |cs|
  {
    if cs == [] {
      assert DeclBindings(DeclsOf(cs)) == [];
      assert bs + [] == bs;
    } else {
      AppliedAppends(bs, cs[1..]);
      assert DeclsOf(cs)[1..] == DeclsOf(cs[1..]);
      DeclBindingsFirst(DeclsOf(cs));
      InsertedBehind(bs, Binding(cs[0].name, false, NO_QUOTE, cs[0].value), DeclBindings(DeclsOf(cs[1..])));
    }
  }

  lemma InsertedBehind(bs: seq<Binding>, b: Binding, more: seq<Binding>)
    ensures (bs + more)[..|bs|] + [b] + (bs + more)[|bs|..] == bs + ([b] + more)
  {
    assert (bs + more)[..|bs|] == bs && (bs + more)[|bs|..] == more;
  }

  lemma {:induction false} AppliedTwice(bs: seq<Binding>, a: seq<Change>, b: seq<Change>)
    requires Inside(bs, a) && Inside(bs, b)
    ensures Inside(bs, a + b) && Inside(AllApplied(bs, b), a)
    ensures AllApplied(bs, a + b) == AllApplied(AllApplied(bs, b), a)
    decreases |a|
  {
    hide Applied;
    if a == [] {
      assert a + b == b;
    } else {
      assert (a + b)[1..] == a[1..] + b;
      assert Inside(bs, a[1..]);
      AppliedTwice(bs, a[1..], b);
    }
  }

  lemma {:induction false} AppliedBefore(bs: seq<Binding>, more: seq<Binding>, cs: seq<Change>)
    requires Inside(bs, cs)
    ensures Inside(bs + more, cs) && AllApplied(bs + more, cs) == AllApplied(bs, cs) + more
    decreases |cs|
  {
    hide Applied;
    if cs != [] {
      assert Inside(bs, cs[1..]);
      AppliedBefore(bs, more, cs[1..]);
      AppliedInFront(AllApplied(bs, cs[1..]), more, cs[0]);
    }
  }

  // ---- a plan in text order ------------------------------------------------------------------

  /** A change the planner makes: an append, or a change at a place the file has. */
  ghost predicate Plannable(sc: Scanner, s: string, sts: seq<Statement>, c: Change) {
    if IsAppend(s, c) then Appendable(s, sts, c) else Planned(sc, s, sts, c)
  }

  ghost predicate AllPlannable(sc: Scanner, s: string, sts: seq<Statement>, cs: seq<Change>) {
    forall i :: 0 <= i < |cs| ==> Plannable(sc, s, sts, cs[i])
  }

  /** Changes in text order, appends included. */
  ghost predicate Arranged(sc: Scanner, s: string, sts: seq<Statement>, cs: seq<Change>) {
    && AllPlannable(sc, s, sts, cs) && InRange(s, EditsOf(sts, cs)) && Disjoint(EditsOf(sts, cs))
    && DistinctTargets(cs) && LeadsFirst(s, sts, cs)
  }

  predicate HasAppend(s: string, cs: seq<Change>) {
    exists c :: c in cs && IsAppend(s, c)
  }

  /** Some appended declaration brings a line break. */
  predicate HasLead(s: string, cs: seq<Change>) {
    exists c :: c in cs && IsAppend(s, c) && c.lead != ""
  }

  /** Some change sets an empty last value. */
  predicate SetsEnd(s: string, sts: seq<Statement>, cs: seq<Change>) {
    exists c :: c in cs && c.SetValue? && AtEnd(s, sts, c)
  }

  /**
    When the end of a file holds what a plan appends: no change gives the last value
    its first bytes there, and the text's own end admits the first append.
   */
  ghost predicate TailHolds(sc: Scanner, s: string, sts: seq<Statement>, cs: seq<Change>) {
    HasAppend(s, cs) ==>
      && !SetsEnd(s, sts, cs)
      && EndOf(sc, s) != Bare && (EndOf(sc, s) == Open ==> HasLead(s, cs))
  }

  predicate AllAtEnd(s: string, sts: seq<Statement>, cs: seq<Change>) {
    forall i :: 0 <= i < |cs| ==> AtEnd(s, sts, cs[i])
  }

  lemma {:induction false} SplitEnd(s: string, sts: seq<Statement>, cs: seq<Change>) returns (m: nat)
    requires InRange(s, EditsOf(sts, cs)) && Disjoint(EditsOf(sts, cs))
    ensures m <= |cs| && NoneAtEnd(s, sts, cs[..m]) && AllAtEnd(s, sts, cs[m..])
    decreases |cs|
  {
    hide EditOf;
    var n := |cs| - 1;
    if cs == [] {
      m := 0;
    } else if AtEnd(s, sts, cs[n]) {
      EditsEnd(sts, cs);
      PartsInRange(s, EditsOf(sts, cs[..n]), [EditOf(sts, cs[n])]);
      m := SplitEnd(s, sts, cs[..n]);
      assert cs[..n][..m] == cs[..m] && cs[m..] == cs[..n][m..] + [cs[n]];
    } else {
      m := |cs|;
      assert cs[..m] == cs && cs[m..] == [];
      forall i | 0 <= i < |cs|
        ensures !AtEnd(s, sts, cs[i])
      {
        assert EditsOf(sts, cs)[i].start <= EditsOf(sts, cs)[i].end;
        if i < n { assert EditsOf(sts, cs)[i].end <= EditsOf(sts, cs)[n].start <= EditsOf(sts, cs)[n].end <= |s|; }
      }
    }
  }

  lemma EditsJoined(sts: seq<Statement>, a: seq<Change>, b: seq<Change>)
    ensures EditsOf(sts, a + b) == EditsOf(sts, a) + EditsOf(sts, b)
  {
    hide EditOf;
  }

  /** A text with a plan applied is its text before the end, and what the changes there write. */
  lemma ArrangedText(sc: Scanner, s: string, sts: seq<Statement>, a: seq<Change>, b: seq<Change>)
    requires Arranged(sc, s, sts, a + b) && NoneAtEnd(s, sts, a) && AllAtEnd(s, sts, b)
    ensures InOrder(sc, s, sts, a) && InRange(s, EditsOf(sts, a)) && Disjoint(EditsOf(sts, a))
    ensures Rendered(s, EditsOf(sts, a + b)) == Rendered(s, EditsOf(sts, a)) + Texts(EditsOf(sts, b))
  {
    hide Rendered, Texts, Planned, Appendable, LeadsFirst, EditOf, DistinctTargets;
    EditsJoined(sts, a, b);
    assert AllFrom(EditsOf(sts, b), |s|);
    RenderedTail(s, EditsOf(sts, a), EditsOf(sts, b));
    forall i | 0 <= i < |a|
      ensures Planned(sc, s, sts, a[i])
    {
      assert (a + b)[i] == a[i];
      assert Plannable(sc, s, sts, (a + b)[i]);
      if IsAppend(s, a[i]) { AppendIsAtEnd(s, sts, a[i]); assert false; }
    }
    DistinctFront(a, b);
  }

  lemma DistinctFront(a: seq<Change>, b: seq<Change>)
    requires DistinctTargets(a + b)
    ensures DistinctTargets(a)
  {
    assert forall i :: 0 <= i < |a| ==> (a + b)[i] == a[i];
  }

  lemma ArrangedInside(sc: Scanner, s: string, sts: seq<Statement>, cs: seq<Change>)
    requires AllPlannable(sc, s, sts, cs)
    ensures Inside(Bindings(s, sts), cs)
  {
    hide InsertOk, Slot, ValidName, SafeValue, ValidDecl;
    forall i | 0 <= i < |cs|
      ensures cs[i].index <= |sts| && (cs[i].SetValue? ==> cs[i].index < |sts|)
    {
      assert Plannable(sc, s, sts, cs[i]);
    }
  }

  // ---- without appends ---------------------------------------------------------------------------

  lemma WithoutAppends(sc: Scanner, s: string, sts: seq<Statement>, cs: seq<Change>)
    requires sc.Scan(s) == Ok(sts) && Arranged(sc, s, sts, cs) && !HasAppend(s, cs)
    ensures Inside(Bindings(s, sts), cs)
    ensures Reads(sc, Rendered(s, EditsOf(sts, cs)), AllApplied(Bindings(s, sts), cs))
  {
    hide sc.Scan, Planned, Rendered, EditOf, LeadsFirst, AllApplied, Bindings, InRange, Disjoint;
    ArrangedInside(sc, s, sts, cs);
    forall i | 0 <= i < |cs|
      ensures Planned(sc, s, sts, cs[i])
    {
      assert Plannable(sc, s, sts, cs[i]);
      assert cs[i] in cs;
    }
    var sts' := ChangesRender(sc, s, sts, cs);
  }

  // ---- appends alone at the end -----------------------------------------------------------------

  lemma EndIsAppends(sc: Scanner, s: string, sts: seq<Statement>, a: seq<Change>, b: seq<Change>)
    requires Arranged(sc, s, sts, a + b) && NoneAtEnd(s, sts, a) && AllAtEnd(s, sts, b)
    requires HasAppend(s, a + b) && !SetsEnd(s, sts, a + b)
    ensures b != [] && AllAppendable(s, sts, b) && LeadsFirst(s, sts, b)
    ensures HasLead(s, a + b) <==> b[0].lead != ""
  {
    hide Planned, EditsOf, DistinctTargets, ValidDecl;
    assert forall i :: 0 <= i < |b| ==> (a + b)[|a| + i] == b[i];
    assert forall i :: 0 <= i < |a| ==> (a + b)[i] == a[i];
    forall i | 0 <= i < |b|
      ensures Appendable(s, sts, b[i])
    {
      assert Plannable(sc, s, sts, (a + b)[|a| + i]);
      assert b[i] in a + b;
      assert AtEnd(s, sts, b[i]);
      if b[i].Declare? { assert b[i].at == |s|; }
    }
    var c :| c in a + b && IsAppend(s, c);
    AppendIsLater(s, sts, a, b, c);
    assert b[0] in a + b;
    assert LeadsFirst(s, sts, b);
    forall d | d in a + b && IsAppend(s, d) && d.lead != ""
      ensures d == b[0]
    {
      AppendIsLater(s, sts, a, b, d);
      LaterLeadsNothing(s, sts, b, d);
    }
  }

  lemma LaterLeadsNothing(s: string, sts: seq<Statement>, b: seq<Change>, d: Change)
    requires AllAtEnd(s, sts, b) && LeadsFirst(s, sts, b) && d in b && IsAppend(s, d) && d.lead != ""
    ensures d == b[0]
  {
    hide AtEnd;
    var j :| 0 <= j < |b| && b[j] == d;
  }

  lemma AppendIsLater(s: string, sts: seq<Statement>, a: seq<Change>, b: seq<Change>, c: Change)
    requires NoneAtEnd(s, sts, a) && c in a + b && IsAppend(s, c)
    ensures c in b
  {
    AppendIsAtEnd(s, sts, c);
    assert forall i :: 0 <= i < |a| ==> a[i] != c;
  }

  lemma DeclsValid(s: string, sts: seq<Statement>, b: seq<Change>)
    requires AllAppendable(s, sts, b)
    ensures ValidDecls(DeclsOf(b)) && (forall i :: 0 <= i < |b| ==> b[i].Declare? && b[i].index == |sts|)
    ensures b != [] ==> b[0].lead == "" || b[0].lead in EOLS
  {
    hide ValidDecl;
    assert forall i :: 0 <= i < |b| ==> Appendable(s, sts, b[i]);
  }

  lemma WithAppends(sc: Scanner, s: string, sts: seq<Statement>, a: seq<Change>, b: seq<Change>)
    requires sc.Scan(s) == Ok(sts) && Arranged(sc, s, sts, a + b) && NoneAtEnd(s, sts, a) && AllAtEnd(s, sts, b)
    requires HasAppend(s, a + b) && !SetsEnd(s, sts, a + b)
    ensures Inside(Bindings(s, sts), a + b)
    ensures Reads(sc, Rendered(s, EditsOf(sts, a + b)), AllApplied(Bindings(s, sts), a + b))
       <==> HoldsAfter(EndOf(sc, s), if HasLead(s, a + b) then b[0].lead else "")
  {
    hide *;
    EndIsAppends(sc, s, sts, a, b);
    ArrangedParts(sc, s, sts, a + b);
    ArrangedInside(sc, s, sts, a + b);
    ArrangedText(sc, s, sts, a, b);
    DeclsValid(s, sts, b);
    TextsOfAppends(s, sts, b);
    var r := Rendered(s, EditsOf(sts, a));
    var kept := FrontsKeep(sc, s, sts, a);
    var same := ChangesRender(sc, s, sts, a);
    AppendedExactly(sc, r, kept, b[0].lead, DeclsOf(b));
    var bs := Bindings(s, sts);
    InsideParts(bs, a, b);
    AppliedTwice(bs, a, b);
    AppliedAppends(bs, b);
    AppliedBefore(bs, DeclBindings(DeclsOf(b)), a);
  }

  lemma InsideParts(bs: seq<Binding>, a: seq<Change>, b: seq<Change>)
    requires Inside(bs, a + b)
    ensures Inside(bs, a) && Inside(bs, b)
  {
    assert forall i :: 0 <= i < |b| ==> (a + b)[|a| + i] == b[i];
    assert forall i :: 0 <= i < |a| ==> (a + b)[i] == a[i];
  }

  lemma ArrangedParts(sc: Scanner, s: string, sts: seq<Statement>, cs: seq<Change>)
    requires Arranged(sc, s, sts, cs)
    ensures AllPlannable(sc, s, sts, cs) && InRange(s, EditsOf(sts, cs)) && Disjoint(EditsOf(sts, cs))
    ensures DistinctTargets(cs) && LeadsFirst(s, sts, cs)
  {
    hide AllPlannable, InRange, Disjoint, DistinctTargets, LeadsFirst, EditsOf;
  }

  // ---- an append beside an empty last value -------------------------------------------------------

  /** A statement whose value ends the text is the last one, and unquoted. */
  lemma {:induction false} EndIsLast(sc: Scanner, s: string, sts: seq<Statement>, i: nat)
    requires sc.Scan(s) == Ok(sts) && i < |sts| && !sts[i].inherited && sts[i].valueEnd == |s|
    ensures i == |sts| - 1 && sts[i].quote == NO_QUOTE
    decreases |s|
  {
    hide *;
    var o, l, rest := ScanHead(sc, s, sts);
    var n := o + l.next;
    HeadInside(sc, s, o, l);
    HeadOf(sc, s, o, l);
    if i == 0 {
      FirstIs(sts, l, o, rest);
      FirstCloses(sc, s[o..], l);
      OpenIsValued(sc, s[o..], l);
      EndHoldsNothing(sc, s[n..], rest);
      FirstQuote(sts, l, o, rest);
    } else {
      LaterIs(sts, l, o, rest, i);
      EndIsLast(sc, s[n..], rest, i - 1);
      LaterQuote(sts, l, o, rest, i);
    }
  }

  lemma FirstQuote(sts: seq<Statement>, l: Located, o: nat, rest: seq<Statement>)
    requires sts == [Shift(l.st, o)] + ShiftAll(rest, o + l.next)
    ensures sts[0].quote == l.st.quote && |sts| == 1 + |rest|
  {
  }

  lemma LaterQuote(sts: seq<Statement>, l: Located, o: nat, rest: seq<Statement>, i: nat)
    requires sts == [Shift(l.st, o)] + ShiftAll(rest, o + l.next) && 0 < i < |sts|
    ensures sts[i].quote == rest[i - 1].quote && |sts| == 1 + |rest|
  {
  }

  lemma EndSetIsLast(sc: Scanner, s: string, sts: seq<Statement>, c: Change)
    requires sc.Scan(s) == Ok(sts) && Planned(sc, s, sts, c) && c.SetValue? && AtEnd(s, sts, c)
    ensures c.index == |sts| - 1 && EmptyLast(s, sts)
  {
    hide sc.Scan, SafeValue;
    EndIsLast(sc, s, sts, c.index);
  }

  predicate AtLast(n: nat, c: Change) {
    if c.Declare? then c.index == n else c.index == n - 1
  }

  /** The value given to the last binding stays, whatever is declared after it. */
  lemma {:induction false} LastIsSet(bs: seq<Binding>, cs: seq<Change>, v: string)
    requires bs != [] && Inside(bs, cs)
    requires forall i :: 0 <= i < |cs| ==> AtLast(|bs|, cs[i]) && (cs[i].SetValue? ==> cs[i].value == v)
    requires exists i :: 0 <= i < |cs| && cs[i].SetValue?
    ensures AllApplied(bs, cs)[|bs| - 1].text == v
    decreases |cs|
  {
    assert Inside(bs, cs[1..]);
    assert AtLast(|bs|, cs[0]);
    if !cs[0].SetValue? {
      var i :| 0 <= i < |cs| && cs[i].SetValue?;
      assert cs[1..][i - 1] == cs[i];
      assert forall j :: 0 <= j < |cs| - 1 ==> cs[1..][j] == cs[j + 1];
      LastIsSet(bs, cs[1..], v);
    }
  }

  function Declares(cs: seq<Change>): nat {
    if cs == [] then 0 else (if cs[0].Declare? then 1 else 0) + Declares(cs[1..])
  }

  predicate AllBefore(n: nat, cs: seq<Change>) {
    forall i :: 0 <= i < |cs| ==> if cs[i].Declare? then cs[i].index <= n else cs[i].index < n
  }

  lemma {:induction false} AppliedCount(bs: seq<Binding>, cs: seq<Change>)
    requires Inside(bs, cs)
    ensures |AllApplied(bs, cs)| == |bs| + Declares(cs)
    decreases |cs|
  {
    if cs != [] {
      assert Inside(bs, cs[1..]);
      AppliedCount(bs, cs[1..]);
    }
  }

  /** A binding behind every change is pushed on by the declarations, and no more. */
  lemma {:induction false} BehindChanges(bs: seq<Binding>, cs: seq<Change>, n: nat)
    requires Inside(bs, cs) && n < |bs| && AllBefore(n, cs)
    ensures n + Declares(cs) < |AllApplied(bs, cs)| && AllApplied(bs, cs)[n + Declares(cs)] == bs[n]
    decreases |cs|
  {
    if cs != [] {
      assert Inside(bs, cs[1..]) && AllBefore(n, cs[1..]);
      BehindChanges(bs, cs[1..], n);
    }
  }

  lemma SolidName(name: string)
    requires ValidName(name)
    ensures Solid(name)
  {
    assert forall i :: 0 <= i < |name| ==> NameByte(name[i]);
  }

  lemma SolidDeclaration(v: string, d: Decl, w: string)
    requires ValidDecl(d) && SafeValue(w) && (v == "" || v == w)
    ensures Solid(v + d.name + "=" + d.value) && v + d.name + "=" + d.value != w
  {
    SolidName(d.name);
    var x := v + d.name + "=" + d.value;
    assert forall i :: 0 <= i < |v| ==> FileSafe(v[i]);
    assert forall i :: 0 <= i < |d.value| ==> FileSafe(d.value[i]);
    assert x[|v| + |d.name|] == '=';
  }

  /** What an empty last value takes when declarations and its own new value `v` are all written at the end. */
  lemma TakenText(sc: Scanner, s: string, sts: seq<Statement>, b: seq<Change>, v: string) returns (x: string, eol: string, u: string)
    requires AllPlannable(sc, s, sts, b) && AllAtEnd(s, sts, b) && LeadsFirst(s, sts, b) && DistinctTargets(b)
    requires forall i :: 0 <= i < |b| && b[i].SetValue? ==> b[i].index == |sts| - 1 && b[i].value == v
    requires HasAppend(s, b) && SafeValue(v)
    ensures Texts(EditsOf(sts, b)) == x + eol + u && Solid(x) && x != v && eol in EOLS
  {
    hide *;
    NotNothing(s, b);
    EndChange(sc, s, sts, b, 0);
    if b[0].SetValue? {
      x, eol, u := SetThenTaken(sc, s, sts, b, v);
    } else if b[0].lead != "" {
      x, eol, u := LeadTaken(s, sts, b, v);
    } else {
      x, eol, u := LineTaken(s, sts, b, v);
    }
  }

  lemma LeadTaken(s: string, sts: seq<Statement>, b: seq<Change>, v: string) returns (x: string, eol: string, u: string)
    requires b != [] && b[0].Declare? && b[0].lead in EOLS && SafeValue(v)
    requires EditOf(sts, b[0]).text == b[0].lead + DeclarationLine(b[0].name, b[0].value, b[0].eol)
    ensures Texts(EditsOf(sts, b)) == x + eol + u && Solid(x) && x != v && eol in EOLS
  {
    hide *;
    var line, more := DeclarationLine(b[0].name, b[0].value, b[0].eol), Texts(EditsOf(sts, b[1..]));
    EditsFirst(sts, b);
    TextsFirst(EditsOf(sts, b));
    x, eol, u := "", b[0].lead, line + more;
    NoneIsSolid();
    SafeIsThere(v);
    LeadFirst(b[0].lead, line, more);
  }

  lemma LeadFirst(lead: string, line: string, more: string)
    ensures (lead + line) + more == "" + lead + (line + more)
  {
  }

  lemma LineTaken(s: string, sts: seq<Statement>, b: seq<Change>, v: string) returns (x: string, eol: string, u: string)
    requires b != [] && b[0].Declare? && b[0].lead == "" && SafeValue(v) && ValidDecl(DeclOf(b[0]))
    requires EditOf(sts, b[0]).text == b[0].lead + DeclarationLine(b[0].name, b[0].value, b[0].eol)
    ensures Texts(EditsOf(sts, b)) == x + eol + u && Solid(x) && x != v && eol in EOLS
  {
    hide *;
    EditsFirst(sts, b);
    TextsFirst(EditsOf(sts, b));
    DeclHas(b[0]);
    var d := DeclOf(b[0]);
    DeclParts(d);
    x, eol, u := "" + d.name + "=" + d.value, d.eol, Texts(EditsOf(sts, b[1..]));
    SolidDeclaration("", d, v);
    LineIs("", d.name, d.value, d.eol, u);
    NothingFirst(Texts(EditsOf(sts, b)));
  }

  lemma NothingFirst(x: string)
    ensures "" + x == x
  {
  }

  lemma DeclHas(c: Change)
    requires c.Declare?
    ensures DeclOf(c).name == c.name && DeclOf(c).value == c.value && DeclOf(c).eol == c.eol
  {
  }

  lemma SetThenTaken(sc: Scanner, s: string, sts: seq<Statement>, b: seq<Change>, v: string)
    returns (x: string, eol: string, u: string)
    requires AllPlannable(sc, s, sts, b) && AllAtEnd(s, sts, b) && LeadsFirst(s, sts, b) && DistinctTargets(b)
    requires forall i :: 0 <= i < |b| && b[i].SetValue? ==> b[i].index == |sts| - 1 && b[i].value == v
    requires HasAppend(s, b) && SafeValue(v) && b != [] && b[0].SetValue?
    ensures Texts(EditsOf(sts, b)) == x + eol + u && Solid(x) && x != v && eol in EOLS
  {
    hide *;
    OnlyOneSet(s, sts, b);
    EndChange(sc, s, sts, b, 0);
    EndChange(sc, s, sts, b, 1);
    SetThenAppend(s, sts, b);
    EditsFirst(sts, b);
    TextsFirst(EditsOf(sts, b));
    EditsFirst(sts, b[1..]);
    TextsFirst(EditsOf(sts, b[1..]));
    DeclHas(b[1]);
    var d := DeclOf(b[1]);
    DeclParts(d);
    x, eol, u := v + d.name + "=" + d.value, d.eol, Texts(EditsOf(sts, b[1..][1..]));
    SolidDeclaration(v, d, v);
    LineIs(v, d.name, d.value, d.eol, u);
  }

  lemma NotNothing(s: string, b: seq<Change>)
    requires HasAppend(s, b)
    ensures b != []
  {
  }

  lemma SafeIsThere(v: string)
    requires SafeValue(v)
    ensures v != ""
  {
  }

  lemma TextsFirst(edits: seq<TextEdit>)
    requires edits != []
    ensures Texts(edits) == edits[0].text + Texts(edits[1..])
  {
  }

  lemma LineIs(v: string, name: string, value: string, eol: string, rest: string)
    ensures v + (("" + DeclarationLine(name, value, eol)) + rest) == (v + name + "=" + value) + eol + rest
  {
  }

  lemma EndChange(sc: Scanner, s: string, sts: seq<Statement>, b: seq<Change>, i: nat)
    requires AllPlannable(sc, s, sts, b) && AllAtEnd(s, sts, b) && i < |b|
    ensures b[i].Declare? ==> ValidDecl(DeclOf(b[i])) && (b[i].lead == "" || b[i].lead in EOLS)
    ensures b[i].Declare? ==> b[i].index == |sts| && IsAppend(s, b[i])
    ensures b[i].Declare? ==> EditOf(sts, b[i]).text == b[i].lead + DeclarationLine(b[i].name, b[i].value, b[i].eol)
    ensures b[i].SetValue? ==> Planned(sc, s, sts, b[i]) && EditOf(sts, b[i]).text == b[i].value
  {
    hide Planned, ValidDecl, DeclarationLine;
    assert Plannable(sc, s, sts, b[i]) && AtEnd(s, sts, b[i]);
  }

  lemma OnlyOneSet(s: string, sts: seq<Statement>, b: seq<Change>)
    requires b != [] && b[0].SetValue? && DistinctTargets(b) && HasAppend(s, b)
    requires forall i :: 0 <= i < |b| && b[i].SetValue? ==> b[i].index == |sts| - 1
    ensures |b| > 1 && b[1].Declare?
  {
    var c :| c in b && IsAppend(s, c);
    assert c != b[0];
  }

  lemma SetThenAppend(s: string, sts: seq<Statement>, b: seq<Change>)
    requires |b| > 1 && AllAtEnd(s, sts, b) && LeadsFirst(s, sts, b) && IsAppend(s, b[1])
    ensures b[1].lead == "" && b[1..] != [] && b[1..][0] == b[1]
  {
    hide AtEnd;
    assert AtEnd(s, sts, b[0]);
  }

  /** The place of the last original binding once the plan is applied, and what it says there. */
  lemma LastPlace(s: string, sts: seq<Statement>, a: seq<Change>, b: seq<Change>, v: string)
    requires Inside(Bindings(s, sts), a + b) && sts != [] && AllBefore(|sts| - 1, a)
    requires forall i :: 0 <= i < |b| ==> AtLast(|sts|, b[i]) && (b[i].SetValue? ==> b[i].value == v)
    requires exists i :: 0 <= i < |b| && b[i].SetValue?
    ensures Inside(Bindings(s, sts), a)
    ensures var n := |AllApplied(Bindings(s, sts), a)| - 1;
      0 <= n < |AllApplied(Bindings(s, sts), a + b)| && AllApplied(Bindings(s, sts), a + b)[n].text == v
  {
    hide *;
    var bs := Bindings(s, sts);
    InsideParts(bs, a, b);
    AppliedTwice(bs, a, b);
    LastIsSet(bs, b, v);
    AppliedCount(bs, a);
    AppliedGrows(bs, b);
    BehindChanges(AllApplied(bs, b), a, |sts| - 1);
  }

  lemma AppliedGrows(bs: seq<Binding>, cs: seq<Change>)
    requires Inside(bs, cs)
    ensures |AllApplied(bs, cs)| >= |bs|
  {
  }

  lemma SetAndAppend(sc: Scanner, s: string, sts: seq<Statement>, a: seq<Change>, b: seq<Change>)
    requires sc.Scan(s) == Ok(sts) && Arranged(sc, s, sts, a + b) && NoneAtEnd(s, sts, a) && AllAtEnd(s, sts, b)
    requires HasAppend(s, a + b) && SetsEnd(s, sts, a + b)
    ensures Inside(Bindings(s, sts), a + b)
    ensures !Reads(sc, Rendered(s, EditsOf(sts, a + b)), AllApplied(Bindings(s, sts), a + b))
  {
    hide *;
    ArrangedParts(sc, s, sts, a + b);
    ArrangedInside(sc, s, sts, a + b);
    ArrangedText(sc, s, sts, a, b);
    BackParts(sc, s, sts, a, b);
    var v := EndSets(sc, s, sts, a, b);
    FrontsBefore(sc, s, sts, a);
    LastPlace(s, sts, a, b, v);
    var kept := FrontsKeep(sc, s, sts, a);
    var same := ChangesRender(sc, s, sts, a);
    var x, eol, u := TakenText(sc, s, sts, b, v);
    var r, t := Rendered(s, EditsOf(sts, a)), Rendered(s, EditsOf(sts, a + b));
    EmptyTakes(sc, r, kept, x, eol, u);
    if Reads(sc, t, AllApplied(Bindings(s, sts), a + b)) {
      ReadCount(sc, t, AllApplied(Bindings(s, sts), a + b));
      assert false;
    }
  }

  lemma FrontsBefore(sc: Scanner, s: string, sts: seq<Statement>, a: seq<Change>)
    requires sc.Scan(s) == Ok(sts) && InOrder(sc, s, sts, a) && NoneAtEnd(s, sts, a) && EmptyLast(s, sts)
    ensures sts != [] && AllBefore(|sts| - 1, a)
  {
    hide sc.Scan, Planned, AtEnd;
    forall i | 0 <= i < |a|
      ensures if a[i].Declare? then a[i].index <= |sts| - 1 else a[i].index < |sts| - 1
    {
      assert Planned(sc, s, sts, a[i]);
      FrontIndex(sc, s, sts, a[i]);
    }
  }

  lemma BackParts(sc: Scanner, s: string, sts: seq<Statement>, a: seq<Change>, b: seq<Change>)
    requires Arranged(sc, s, sts, a + b) && NoneAtEnd(s, sts, a) && HasAppend(s, a + b)
    ensures AllPlannable(sc, s, sts, b) && LeadsFirst(s, sts, b) && DistinctTargets(b) && HasAppend(s, b)
  {
    hide Plannable, AtEnd, EditsOf;
    assert forall i :: 0 <= i < |b| ==> (a + b)[|a| + i] == b[i];
    var c :| c in a + b && IsAppend(s, c);
    AppendIsLater(s, sts, a, b, c);
  }

  /** The one change that sets the empty last value. */
  lemma EndSets(sc: Scanner, s: string, sts: seq<Statement>, a: seq<Change>, b: seq<Change>) returns (v: string)
    requires sc.Scan(s) == Ok(sts) && NoneAtEnd(s, sts, a) && AllAtEnd(s, sts, b) && AllPlannable(sc, s, sts, b) && DistinctTargets(b)
    requires SetsEnd(s, sts, a + b)
    ensures EmptyLast(s, sts) && SafeValue(v)
    ensures forall i :: 0 <= i < |b| ==> AtLast(|sts|, b[i]) && (b[i].SetValue? ==> b[i].index == |sts| - 1 && b[i].value == v)
    ensures exists i :: 0 <= i < |b| && b[i].SetValue?
  {
    hide *;
    var k := SetPlace(s, sts, a, b);
    v := b[k].value;
    EndChange(sc, s, sts, b, k);
    EndSetIsLast(sc, s, sts, b[k]) by { AtEndAt(s, sts, b, k); }
    PlannedValue(sc, s, sts, b[k]);
    forall i | 0 <= i < |b|
      ensures AtLast(|sts|, b[i]) && (b[i].SetValue? ==> b[i].index == |sts| - 1 && b[i].value == v)
    {
      EndChange(sc, s, sts, b, i);
      if b[i].SetValue? {
        AtEndAt(s, sts, b, i);
        EndSetIsLast(sc, s, sts, b[i]);
        SameSet(b, i, k);
      }
      AtLastIs(|sts|, b[i]);
    }
  }

  lemma AtLastIs(n: nat, c: Change)
    ensures AtLast(n, c) <==> if c.Declare? then c.index == n else c.index == n - 1
  {
  }

  lemma SameSet(b: seq<Change>, i: nat, k: nat)
    requires DistinctTargets(b) && i < |b| && k < |b| && b[i].SetValue? && b[k].SetValue? && b[i].index == b[k].index
    ensures i == k
  {
  }

  lemma PlannedValue(sc: Scanner, s: string, sts: seq<Statement>, c: Change)
    requires Planned(sc, s, sts, c) && c.SetValue?
    ensures SafeValue(c.value)
  {
  }

  lemma AtEndAt(s: string, sts: seq<Statement>, b: seq<Change>, i: nat)
    requires AllAtEnd(s, sts, b) && i < |b|
    ensures AtEnd(s, sts, b[i])
  {
  }

  lemma SetPlace(s: string, sts: seq<Statement>, a: seq<Change>, b: seq<Change>) returns (k: nat)
    requires NoneAtEnd(s, sts, a) && SetsEnd(s, sts, a + b)
    ensures k < |b| && b[k].SetValue?
  {
    hide AtEnd;
    var c :| c in a + b && c.SetValue? && AtEnd(s, sts, c);
    assert forall i :: 0 <= i < |a| ==> a[i] != c;
    k :| k < |b| && b[k] == c;
  }

  // ---- the law ----------------------------------------------------------------------------------------

  /**
    A plan in text order, applied to a text, gives the original bindings with exactly
    those changes applied, exactly when the end of the text holds what it appends.
   */
  lemma ArrangedExactly(sc: Scanner, s: string, sts: seq<Statement>, cs: seq<Change>)
    requires sc.Scan(s) == Ok(sts) && Arranged(sc, s, sts, cs)
    ensures Inside(Bindings(s, sts), cs) && InRange(s, EditsOf(sts, cs)) && Disjoint(EditsOf(sts, cs))
    ensures Reads(sc, Rendered(s, EditsOf(sts, cs)), AllApplied(Bindings(s, sts), cs)) <==> TailHolds(sc, s, sts, cs)
  {
    hide *;
    ArrangedParts(sc, s, sts, cs);
    TailIs(sc, s, sts, cs);
    if !HasAppend(s, cs) {
      WithoutAppends(sc, s, sts, cs);
    } else {
      var m := SplitEnd(s, sts, cs);
      var a, b := cs[..m], cs[m..];
      assert cs == a + b;
      if SetsEnd(s, sts, cs) {
        SetAndAppend(sc, s, sts, a, b);
      } else {
        WithAppends(sc, s, sts, a, b);
        EndIsAppends(sc, s, sts, a, b);
        DeclsValid(s, sts, b);
        HoldsIf(EndOf(sc, s), if HasLead(s, cs) then b[0].lead else "");
      }
    }
  }

  lemma TailIs(sc: Scanner, s: string, sts: seq<Statement>, cs: seq<Change>)
    ensures TailHolds(sc, s, sts, cs) <==>
      (HasAppend(s, cs) ==> !SetsEnd(s, sts, cs) && if HasLead(s, cs) then EndOf(sc, s) != Bare else EndOf(sc, s) == Free)
  {
    hide EndOf, HasAppend, SetsEnd, HasLead;
  }

  // ---- from plan order to text order -------------------------------------------------------------------

  lemma PlannableEdit(sc: Scanner, s: string, sts: seq<Statement>, c: Change)
    requires sc.Scan(s) == Ok(sts) && Plannable(sc, s, sts, c)
    ensures var e := EditOf(sts, c); e.start <= e.end <= |s| && (IsAppend(s, c) ==> e.start == |s|)
  {
    hide sc.Scan, Slot, ValidName, SafeValue, DeclarationLine, ValidDecl;
    if c.Declare? && !IsAppend(s, c) { InsertSplit(sc, s, c.at); }
  }

  lemma PlannablePairClear(sc: Scanner, s: string, sts: seq<Statement>, c: Change, d: Change)
    requires sc.Scan(s) == Ok(sts) && Plannable(sc, s, sts, c) && Plannable(sc, s, sts, d)
    requires c.SetValue? && d.SetValue? ==> c.index != d.index
    ensures Clear(EditOf(sts, c), EditOf(sts, d))
  {
    hide sc.Scan, Planned, Appendable, EditOf;
    PlannableEdit(sc, s, sts, c);
    PlannableEdit(sc, s, sts, d);
    if !IsAppend(s, c) && !IsAppend(s, d) {
      PlannedPairClear(sc, s, sts, c, d);
    }
  }

  /** The edits of a plan neither overlap nor cross: adding one is never refused, and one pass applies them. */
  lemma PlannableNeverCollide(sc: Scanner, s: string, sts: seq<Statement>, cs: seq<Change>)
    requires sc.Scan(s) == Ok(sts) && AllPlannable(sc, s, sts, cs) && DistinctTargets(cs)
    ensures InRange(s, EditsOf(sts, cs)) && NoOverlap(EditsOf(sts, cs)) && NoneCrossed(EditsOf(sts, cs))
  {
    hide sc.Scan, Plannable, EditOf;
    forall i | 0 <= i < |cs|
      ensures EditsOf(sts, cs)[i].start <= EditsOf(sts, cs)[i].end <= |s|
    {
      PlannableEdit(sc, s, sts, cs[i]);
    }
    forall i, j | 0 <= i < j < |cs|
      ensures Clear(EditsOf(sts, cs)[i], EditsOf(sts, cs)[j])
    {
      PlannablePairClear(sc, s, sts, cs[i], cs[j]);
    }
  }

  lemma LeadsLast(s: string, sts: seq<Statement>, front: seq<Change>, c: Change)
    ensures LeadsFirst(s, sts, front + [c]) <==>
      LeadsFirst(s, sts, front) && (IsAppend(s, c) && c.lead != "" ==> forall d :: d in front ==> !AtEnd(s, sts, d))
  {
    hide AtEnd;
    var all := front + [c];
    assert forall i :: 0 <= i < |front| ==> all[i] == front[i];
    assert all[|front|] == c;
    if LeadsFirst(s, sts, all) {
      forall d | d in front && IsAppend(s, c) && AtEnd(s, sts, d)
        ensures c.Declare? && c.lead == ""
      {
        var i :| 0 <= i < |front| && front[i] == d;
        assert AtEnd(s, sts, all[i]);
      }
    }
  }

  lemma {:induction false} LeadsPlaced(s: string, sts: seq<Statement>, sorted: seq<Change>, c: Change)
    requires LeadsFirst(s, sts, sorted + [c]) && (forall d :: d in sorted ==> EditOf(sts, d).start <= |s|)
    ensures LeadsFirst(s, sts, PlacedChange(sts, sorted, c))
    decreases |sorted|
  {
    hide EditOf, LeadsFirst, IsAppend;
    if sorted != [] && EditOf(sts, sorted[|sorted| - 1]).start > EditOf(sts, c).start {
      var n := |sorted| - 1;
      var front, last := sorted[..n], sorted[n];
      assert sorted == front + [last];
      LeadsLast(s, sts, sorted, c);
      LeadsLast(s, sts, front, last);
      LeadsLast(s, sts, front, c);
      LeadsPlaced(s, sts, front, c);
      LeadsLast(s, sts, PlacedChange(sts, front, c), last);
      ChangesHave(PlacedChange(sts, front, c), front + [c]);
    }
  }

  lemma {:induction false} LeadsSorted(s: string, sts: seq<Statement>, cs: seq<Change>)
    requires LeadsFirst(s, sts, cs) && (forall d :: d in cs ==> EditOf(sts, d).start <= |s|)
    ensures LeadsFirst(s, sts, InTextOrder(sts, cs))
    decreases |cs|
  {
    hide EditOf, LeadsFirst, IsAppend, PlacedChange;
    if cs != [] {
      var n := |cs| - 1;
      var front, c := cs[..n], cs[n];
      assert cs == front + [c];
      LeadsLast(s, sts, front, c);
      LeadsSorted(s, sts, front);
      var sorted := InTextOrder(sts, front);
      ChangesHave(sorted, front);
      LeadsLast(s, sts, sorted, c);
      LeadsPlaced(s, sts, sorted, c);
    } else {
      assert InTextOrder(sts, cs) == cs;
    }
  }

  lemma TextOrderIsArranged(sc: Scanner, s: string, sts: seq<Statement>, cs: seq<Change>)
    requires sc.Scan(s) == Ok(sts) && AllPlannable(sc, s, sts, cs) && DistinctTargets(cs) && LeadsFirst(s, sts, cs)
    ensures Arranged(sc, s, sts, InTextOrder(sts, cs))
    ensures EditsOf(sts, InTextOrder(sts, cs)) == SortedByStart(EditsOf(sts, cs))
  {
    hide sc.Scan, Plannable, EditOf, NoOverlap, NoneCrossed, InRange, Disjoint, LeadsFirst, InTextOrder, SortedByStart, DistinctTargets;
    SortedEdits(sts, cs);
    PlannableNeverCollide(sc, s, sts, cs);
    OneSortedPass(s, EditsOf(sts, cs));
    var sorted := InTextOrder(sts, cs);
    ChangesHave(sorted, cs);
    PlannableSorted(sc, s, sts, cs, sorted);
    DistinctOnceSorted(cs, sorted);
    StartsInside(sc, s, sts, cs);
    LeadsSorted(s, sts, cs);
  }

  lemma StartsInside(sc: Scanner, s: string, sts: seq<Statement>, cs: seq<Change>)
    requires sc.Scan(s) == Ok(sts) && AllPlannable(sc, s, sts, cs)
    ensures forall d :: d in cs ==> EditOf(sts, d).start <= |s|
  {
    hide sc.Scan, Plannable, EditOf;
    forall d | d in cs
      ensures EditOf(sts, d).start <= |s|
    {
      var i :| 0 <= i < |cs| && cs[i] == d;
      PlannableEdit(sc, s, sts, cs[i]);
    }
  }

  lemma PlannableSorted(sc: Scanner, s: string, sts: seq<Statement>, cs: seq<Change>, part: seq<Change>)
    requires AllPlannable(sc, s, sts, cs) && forall c :: c in part ==> c in cs
    ensures AllPlannable(sc, s, sts, part)
  {
    hide Plannable;
    forall i | 0 <= i < |part|
      ensures Plannable(sc, s, sts, part[i])
    {
      assert part[i] in cs;
      var j :| 0 <= j < |cs| && cs[j] == part[i];
    }
  }

  lemma {:induction false} LeadsKept(s: string, sts: seq<Statement>, cs: seq<Change>, reverting: set<string>)
    requires LeadsFirst(s, sts, cs)
    ensures LeadsFirst(s, sts, KeptChanges(cs, reverting))
    decreases |cs|
  {
    hide LeadsFirst, AtEnd, IsAppend, Needed;
    if cs != [] {
      var n := |cs| - 1;
      var front, c := cs[..n], cs[n];
      assert cs == front + [c];
      LeadsLast(s, sts, front, c);
      LeadsKept(s, sts, front, reverting);
      LeadsLast(s, sts, KeptChanges(front, reverting), c);
      assert KeptChanges(front, reverting) + [] == KeptChanges(front, reverting);
    } else {
      assert KeptChanges(cs, reverting) == cs;
    }
  }

  lemma KeptIsPlannable(sc: Scanner, s: string, sts: seq<Statement>, cs: seq<Change>, reverting: set<string>)
    requires AllPlannable(sc, s, sts, cs) && DistinctTargets(cs) && LeadsFirst(s, sts, cs)
    ensures AllPlannable(sc, s, sts, KeptChanges(cs, reverting)) && DistinctTargets(KeptChanges(cs, reverting))
    ensures LeadsFirst(s, sts, KeptChanges(cs, reverting))
  {
    hide AllPlannable, DistinctTargets, LeadsFirst, Needed;
    PlannableSorted(sc, s, sts, cs, KeptChanges(cs, reverting));
    KeptIsDistinct(cs, reverting);
    LeadsKept(s, sts, cs, reverting);
  }

  lemma SameTail(sc: Scanner, s: string, sts: seq<Statement>, cs: seq<Change>, part: seq<Change>)
    requires forall c :: c in part <==> c in cs
    ensures TailHolds(sc, s, sts, part) <==> TailHolds(sc, s, sts, cs)
  {
    hide EndOf, AtEnd, IsAppend;
    assert HasAppend(s, part) <==> HasAppend(s, cs);
    assert HasLead(s, part) <==> HasLead(s, cs);
    assert SetsEnd(s, sts, part) <==> SetsEnd(s, sts, cs);
  }

  // ---- the file ------------------------------------------------------------------------------------------

  lemma MarkedReads(sc: Scanner, mark: string, x: string, bs: seq<Binding>)
    requires mark == BOM || (mark == "" && !(BOM <= x))
    ensures FileBindings(sc, mark + x) == Ok(bs) <==> Reads(sc, x, bs)
  {
    hide sc.Scan, Bindings;
    if sc.Scan(x).Ok? {
      MarkedBindings(sc, mark, x, sc.Scan(x).value);
    } else if mark == BOM {
      assert (mark + x)[3..] == x;
    } else {
      assert mark + x == x;
    }
  }

  lemma {:induction false} TextsStart(edits: seq<TextEdit>)
    requires forall i :: 0 <= i < |edits| ==> StartsAscii(edits[i].text)
    ensures Texts(edits) == "" || StartsAscii(Texts(edits))
  {
  }

  lemma NoMarkBehind(r: string, tail: string)
    requires !(BOM <= r) && (tail == "" || StartsAscii(tail))
    ensures !(BOM <= r + tail)
  {
    var t := r + tail;
    if |r| >= 3 {
      assert t[..3] == r[..3];
    } else if tail != "" {
      assert t[|r|] == tail[0] != BOM[|r|];
    } else {
      assert t == r;
    }
  }

  lemma EndTextStarts(sc: Scanner, s: string, sts: seq<Statement>, c: Change)
    requires Plannable(sc, s, sts, c) && AtEnd(s, sts, c)
    ensures StartsAscii(EditOf(sts, c).text)
  {
    hide InsertOk, Slot;
    if c.SetValue? {
      assert FileSafe(c.value[0]);
    } else {
      var line := DeclarationLine(c.name, c.value, c.eol);
      assert line[0] == c.name[0] && NameByte(c.name[0]);
    }
  }

  /** No plan makes a text start with a byte order mark. */
  lemma ArrangedNoMark(sc: Scanner, s: string, sts: seq<Statement>, cs: seq<Change>)
    requires sc.Scan(s) == Ok(sts) && Arranged(sc, s, sts, cs) && !(BOM <= s)
    ensures InRange(s, EditsOf(sts, cs)) && Disjoint(EditsOf(sts, cs)) && !(BOM <= Rendered(s, EditsOf(sts, cs)))
  {
    hide *;
    ArrangedParts(sc, s, sts, cs);
    var m := SplitEnd(s, sts, cs);
    var a, b := cs[..m], cs[m..];
    assert cs == a + b;
    ArrangedText(sc, s, sts, a, b);
    NoMarkArises(sc, s, sts, a);
    PlannableTail(sc, s, sts, a, b);
    forall i | 0 <= i < |b|
      ensures StartsAscii(EditsOf(sts, b)[i].text)
    {
      AtEndAt(s, sts, b, i);
      EndTextStarts(sc, s, sts, b[i]) by { PlannableAt(sc, s, sts, b, i); }
    }
    assert |EditsOf(sts, b)| == |b|;
    TextsStart(EditsOf(sts, b));
    NoMarkBehind(Rendered(s, EditsOf(sts, a)), Texts(EditsOf(sts, b)));
  }

  lemma PlannableAt(sc: Scanner, s: string, sts: seq<Statement>, b: seq<Change>, i: nat)
    requires AllPlannable(sc, s, sts, b) && i < |b|
    ensures Plannable(sc, s, sts, b[i])
  {
  }

  lemma PlannableTail(sc: Scanner, s: string, sts: seq<Statement>, a: seq<Change>, b: seq<Change>)
    requires AllPlannable(sc, s, sts, a + b)
    ensures AllPlannable(sc, s, sts, b)
  {
    hide Plannable;
    assert forall i :: 0 <= i < |b| ==> (a + b)[|a| + i] == b[i];
  }

  /**
    A file rewritten by a plan: its edits never collide, and the text they leave gives
    the original bindings with exactly the plan's changes applied, exactly when the end
    of the file holds what the plan appends.
   */
  lemma FileRewritten(sc: Scanner, data: string, sts: seq<Statement>, cs: seq<Change>)
    requires sc.Scan(BodyOf(data)) == Ok(sts)
    requires AllPlannable(sc, BodyOf(data), sts, cs) && DistinctTargets(cs) && LeadsFirst(BodyOf(data), sts, cs)
    ensures var edits := FileEdits(data, sts, cs);
      && InRange(data, edits) && NoOverlap(edits) && NoneCrossed(edits)
      && InRange(data, SortedByStart(edits)) && Disjoint(SortedByStart(edits))
    ensures Inside(Bindings(BodyOf(data), sts), InTextOrder(sts, cs))
    ensures FileBindings(sc, Rendered(data, SortedByStart(FileEdits(data, sts, cs))))
         == Ok(AllApplied(Bindings(BodyOf(data), sts), InTextOrder(sts, cs)))
       <==> TailHolds(sc, BodyOf(data), sts, cs)
  {
    hide *;
    var body, mark := BodyOf(data), MarkOf(data);
    var sorted := InTextOrder(sts, cs);
    var edits := EditsOf(sts, cs);
    MarkAndBody(data);
    TextOrderIsArranged(sc, body, sts, cs);
    PlannableNeverCollide(sc, body, sts, cs);
    CollideShifted(body, mark, edits);
    OneSortedPass(body, edits);
    ArrangedExactly(sc, body, sts, sorted);
    ShiftSorted(edits, |mark|);
    RenderedAfterMark(mark, body, SortedByStart(edits));
    if mark == "" {
      ArrangedNoMark(sc, body, sts, sorted);
    }
    MarkedReads(sc, mark, Rendered(body, SortedByStart(edits)), AllApplied(Bindings(body, sts), sorted));
    ChangesHave(sorted, cs);
    SameTail(sc, body, sts, cs, sorted);
    FileEditsAre(data, sts, cs);
  }

  lemma FileEditsAre(data: string, sts: seq<Statement>, cs: seq<Change>)
    ensures FileEdits(data, sts, cs) == ShiftEdits(EditsOf(sts, cs), |MarkOf(data)|)
  {
  }

  lemma MarkAndBody(data: string)
    ensures data == MarkOf(data) + BodyOf(data)
    ensures MarkOf(data) == BOM || (MarkOf(data) == "" && !(BOM <= BodyOf(data)))
    ensures MarkOf(data) == "" ==> !(BOM <= BodyOf(data))
  {
  }

  /**
    Kept-edit closure: whichever services are reverted, the text rebuilt from the
    original bytes and the kept edits gives the original bindings with exactly the
    kept changes applied, exactly when the end of the file holds the appends kept.
   */
  lemma KeptEditsRewrite(sc: Scanner, data: string, sts: seq<Statement>, cs: seq<Change>, reverting: set<string>)
    requires sc.Scan(BodyOf(data)) == Ok(sts)
    requires AllPlannable(sc, BodyOf(data), sts, cs) && DistinctTargets(cs) && LeadsFirst(BodyOf(data), sts, cs)
    ensures var kept := KeptEdits(FileEdits(data, sts, cs), reverting);
      && InRange(data, kept) && NoOverlap(kept) && NoneCrossed(kept)
      && InRange(data, SortedByStart(kept)) && Disjoint(SortedByStart(kept))
    ensures Inside(Bindings(BodyOf(data), sts), InTextOrder(sts, KeptChanges(cs, reverting)))
    ensures FileBindings(sc, Rendered(data, SortedByStart(KeptEdits(FileEdits(data, sts, cs), reverting))))
         == Ok(AllApplied(Bindings(BodyOf(data), sts), InTextOrder(sts, KeptChanges(cs, reverting))))
       <==> TailHolds(sc, BodyOf(data), sts, KeptChanges(cs, reverting))
  {
    hide *;
    KeptFileEdits(data, sts, cs, reverting);
    KeptIsPlannable(sc, BodyOf(data), sts, cs, reverting);
    FileRewritten(sc, data, sts, KeptChanges(cs, reverting));
  }
}
