/**
  Rewriting an env file is a lens over its statements. A plan is a list of
  changes, each to one statement or before one; the file's text with any of those
  changes applied scans to exactly the original bindings with the same changes
  applied to them, and nothing else.
 */
module EnvRewrite {
  import opened EnvScan
  import opened EnvLocal
  import opened EnvEdit
  import opened EnvLaws
  import opened EnvInsert
  import opened TextEdits

  /** What a statement says: its key, how it is spelled, and its raw value bytes. */
  datatype Binding = Binding(key: string, inherited: bool, quote: char, text: string)

  function BindingOf(s: string, st: Statement): Binding {
    Binding(st.key, st.inherited, st.quote,
            if !st.inherited && 0 <= st.valueStart <= st.valueEnd <= |s| then s[st.valueStart..st.valueEnd] else "")
  }

  function Bindings(s: string, sts: seq<Statement>): (r: seq<Binding>)
    ensures |r| == |sts|
    ensures forall i :: 0 <= i < |sts| ==> r[i] == BindingOf(s, sts[i])
  {
    seq(|sts|, i requires 0 <= i < |sts| => BindingOf(s, sts[i]))
  }

  /**
    One planned change: a new value for the `index`-th statement, or a declaration
    before it, written after `lead` and ended by `eol`.
   */
  datatype Change =
    | SetValue(index: nat, value: string, owners: seq<string>)
    | Declare(index: nat, at: nat, name: string, value: string, lead: string, eol: string, owners: seq<string>)

  /** What a change does to the bindings, when it is the last one applied. */
  function Applied(bs: seq<Binding>, c: Change): seq<Binding>
    requires c.index <= |bs| && (c.SetValue? ==> c.index < |bs|)
  {
    match c
    case SetValue(i, v, _) => bs[i := bs[i].(text := v)]
    case Declare(i, _, name, v, _, _, _) => bs[..i] + [Binding(name, false, NO_QUOTE, v)] + bs[i..]
  }

  predicate Inside(bs: seq<Binding>, cs: seq<Change>) {
    forall i :: 0 <= i < |cs| ==> cs[i].index <= |bs| && (cs[i].SetValue? ==> cs[i].index < |bs|)
  }

  /** The changes in text order, applied from the last to the first so that indices stay those of the original. */
  function AllApplied(bs: seq<Binding>, cs: seq<Change>): (r: seq<Binding>)
    requires Inside(bs, cs)
    ensures |r| >= |bs|
  {
    if cs == [] then bs else Applied(AllApplied(bs, cs[1..]), cs[0])
  }

  lemma AppliedInFront(a: seq<Binding>, b: seq<Binding>, c: Change)
    requires c.index <= |a| && (c.SetValue? ==> c.index < |a|)
    ensures Applied(a + b, c) == Applied(a, c) + b
  {
    match c
    case SetValue(i, _, _) =>
    case Declare(i, _, _, _, _, _, _) =>
      assert (a + b)[..i] == a[..i];
      assert (a + b)[i..] == a[i..] + b;
  }

  /** The text edit of a change. */
  function EditOf(sts: seq<Statement>, c: Change): TextEdit {
    match c
    case SetValue(i, v, owners) =>
      if i < |sts| && 0 <= sts[i].valueStart <= sts[i].valueEnd
      then TextEdit(sts[i].valueStart, sts[i].valueEnd, v, owners)
      else TextEdit(0, 0, v, owners)
    case Declare(_, at, name, v, lead, eol, owners) => TextEdit(at, at, lead + DeclarationLine(name, v, eol), owners)
  }

  /** A change the planner may make to text `s` with statements `sts`. */
  ghost predicate Planned(sc: Scanner, s: string, sts: seq<Statement>, c: Change) {
    match c
    case SetValue(i, v, _) =>
      i < |sts| && !sts[i].inherited && sts[i].key != "" && SafeValue(v)
      && 0 <= sts[i].valueStart <= sts[i].valueEnd <= |s|
    case Declare(i, at, name, v, lead, eol, _) =>
      lead == "" && InsertOk(sc, s, at) && i == Slot(sc, s, at) && i <= |sts| && ValidName(name) && SafeValue(v) && eol in EOLS
  }

  ghost predicate AllPlanned(sc: Scanner, s: string, sts: seq<Statement>, cs: seq<Change>) {
    forall i :: 0 <= i < |cs| ==> Planned(sc, s, sts, cs[i])
  }

  function EditsOf(sts: seq<Statement>, cs: seq<Change>): (r: seq<TextEdit>)
    ensures |r| == |cs|
    ensures forall i :: 0 <= i < |cs| ==> r[i] == EditOf(sts, cs[i])
  {
    seq(|cs|, i requires 0 <= i < |cs| => EditOf(sts, cs[i]))
  }

  /** Changes in text order: no two to one statement, and no edit reaching into the next. */
  ghost predicate InOrder(sc: Scanner, s: string, sts: seq<Statement>, cs: seq<Change>) {
    && AllPlanned(sc, s, sts, cs)
    && Disjoint(EditsOf(sts, cs))
    && (forall i, j :: 0 <= i < j < |cs| && cs[i].SetValue? && cs[j].SetValue? ==> cs[i].index != cs[j].index)
  }

  // ---- text order is statement order ------------------------------------------------

  lemma {:induction false} SlotMonotone(sc: Scanner, s: string, at: nat, at': nat)
    requires InsertOk(sc, s, at) && InsertOk(sc, s, at') && at <= at'
    ensures Slot(sc, s, at) <= Slot(sc, s, at')
    decreases |s|
  {
    hide sc.First, sc.Start, InsertOk, Slot, Closed;
    InsertSplit(sc, s, at);
    InsertSplit(sc, s, at');
    if !Before(sc, s, at) {
      var o := sc.Start(s).value;
      var n := o + sc.First(s[o..]).value.next;
      SlotMonotone(sc, s[n..], at - n, at' - n);
    }
  }

  /** Of two changes, the one earlier in the text is at or before the other's statement. */
  lemma ChangesInOrder(sc: Scanner, s: string, sts: seq<Statement>, c: Change, d: Change)
    requires sc.Scan(s) == Ok(sts) && Planned(sc, s, sts, c) && Planned(sc, s, sts, d)
    requires EditOf(sts, c).end <= EditOf(sts, d).start
    requires c.SetValue? && d.SetValue? ==> c.index != d.index
    ensures if c.SetValue? then c.index < d.index else c.index <= d.index
  {
    hide sc.Scan, InsertOk, Slot, ValidName, SafeValue, DeclarationLine;
    ScanOrdered(sc, s, sts);
    if c.Declare? {
      SlotSeparates(sc, s, sts, c.at);
      if d.Declare? { SlotMonotone(sc, s, c.at, d.at); }
    } else if d.Declare? {
      SlotSeparates(sc, s, sts, d.at);
    }
  }

  // ---- one change, on texts and on bindings -----------------------------------------

  lemma TokenKept(s: string, t: string, st: Statement, st': Statement, d: int)
    requires st' == Shift(st, d)
    requires !st.inherited ==> 0 <= st.valueStart <= st.valueEnd <= |s|
    requires !st.inherited ==> 0 <= st.valueStart + d && st.valueEnd + d <= |t|
    requires !st.inherited ==> s[st.valueStart..st.valueEnd] == t[st.valueStart + d..st.valueEnd + d]
    ensures BindingOf(t, st') == BindingOf(s, st)
  {
  }

  lemma SpliceTokens(s: string, start: int, end: int, text: string, a: int, b: int)
    requires 0 <= start <= end <= |s| && 0 <= a <= b <= |s|
    ensures var t := Splice(s, start, end, text);
      && (b <= start ==> b <= |t| && t[a..b] == s[a..b])
      && (end <= a ==> var d := |text| - (end - start);
            0 <= a + d && b + d <= |t| && t[a + d..b + d] == s[a..b])
  {
    var t := Splice(s, start, end, text);
    SpliceKeeps(s, start, end, text);
    hide Splice;
    if b <= start {
      assert t[a..b] == s[a..b];
    }
    if end <= a {
      var d := |text| - (end - start);
      forall i | 0 <= i < b - a
        ensures t[a + d..b + d][i] == s[a..b][i]
      {
        assert t[a + i + d] == s[a + i];
      }
    }
  }

  lemma SetBindings(s: string, sts: seq<Statement>, i: nat, v: string)
    requires Ordered(sts, 0, |s|) && i < |sts| && !sts[i].inherited
    ensures 0 <= sts[i].valueStart <= sts[i].valueEnd <= |s|
    ensures var t := Splice(s, sts[i].valueStart, sts[i].valueEnd, v);
      Bindings(t, ReplacedAt(sts, i, |v|)) == Bindings(s, sts)[i := BindingOf(s, sts[i]).(text := v)]
  {
    var st := sts[i];
    var t := Splice(s, st.valueStart, st.valueEnd, v);
    var r := ReplacedAt(sts, i, |v|);
    var d := |v| - (st.valueEnd - st.valueStart);
    hide Splice;
    forall j | 0 <= j < |sts|
      ensures BindingOf(t, r[j]) == (if j == i then BindingOf(s, st).(text := v) else BindingOf(s, sts[j]))
    {
      if j == i {
        SetToken(s, st, v);
      } else {
        if !sts[j].inherited {
          SpliceTokens(s, st.valueStart, st.valueEnd, v, sts[j].valueStart, sts[j].valueEnd);
        }
        assert r[j] == Shift(sts[j], if j < i then 0 else d);
        hide BindingOf, ReplacedAt;
        TokenKept(s, t, sts[j], r[j], if j < i then 0 else d);
      }
    }
    hide BindingOf, ReplacedAt;
  }

  lemma SetToken(s: string, st: Statement, v: string)
    requires !st.inherited && 0 <= st.valueStart <= st.valueEnd <= |s|
    ensures BindingOf(Splice(s, st.valueStart, st.valueEnd, v), st.(valueEnd := st.valueStart + |v|)) == BindingOf(s, st).(text := v)
  {
    var t := Splice(s, st.valueStart, st.valueEnd, v);
    assert t[st.valueStart..st.valueStart + |v|] == v;
  }

  lemma DeclareBindings(s: string, sts: seq<Statement>, k: nat, at: nat, name: string, v: string, eol: string)
    requires Ordered(sts, 0, |s|) && k <= |sts| && at <= |s|
    requires forall i :: 0 <= i < k && !sts[i].inherited ==> sts[i].valueEnd < at
    requires forall i :: k <= i < |sts| && !sts[i].inherited ==> at <= sts[i].valueStart
    ensures var line := DeclarationLine(name, v, eol);
      Bindings(Splice(s, at, at, line), InsertedAt(sts, k, Declaration(name, v, at), |line|))
      == Bindings(s, sts)[..k] + [Binding(name, false, NO_QUOTE, v)] + Bindings(s, sts)[k..]
  {
    var line := DeclarationLine(name, v, eol);
    var t := Splice(s, at, at, line);
    var r := InsertedAt(sts, k, Declaration(name, v, at), |line|);
    DeclaredToken(s, at, name, v, eol);
    forall j | 0 <= j < |sts|
      ensures j < k ==> BindingOf(t, r[j]) == BindingOf(s, sts[j])
      ensures j >= k ==> BindingOf(t, r[j + 1]) == BindingOf(s, sts[j])
    {
      hide Splice, DeclarationLine, BindingOf;
      if !sts[j].inherited {
        SpliceTokens(s, at, at, line, sts[j].valueStart, sts[j].valueEnd);
      }
      if j < k {
        TokenKept(s, t, sts[j], r[j], 0);
      } else {
        assert r[j + 1] == Shift(sts[j], |line|);
        TokenKept(s, t, sts[j], r[j + 1], |line|);
      }
    }
    hide BindingOf, Splice, DeclarationLine;
    InsertedBindings(Bindings(s, sts), Bindings(t, r), k, Binding(name, false, NO_QUOTE, v));
  }

  lemma InsertedBindings(was: seq<Binding>, now: seq<Binding>, k: nat, b: Binding)
    requires k <= |was| && |now| == |was| + 1 && now[k] == b
    requires forall j :: 0 <= j < k ==> now[j] == was[j]
    requires forall j :: k <= j < |was| ==> now[j + 1] == was[j]
    ensures now == was[..k] + [b] + was[k..]
  {
    assert now[..k] == was[..k];
    assert now[k + 1..] == was[k..];
    assert now == now[..k] + [now[k]] + now[k + 1..];
  }

  lemma DeclaredToken(s: string, at: nat, name: string, v: string, eol: string)
    requires at <= |s|
    ensures BindingOf(Splice(s, at, at, DeclarationLine(name, v, eol)), Declaration(name, v, at))
         == Binding(name, false, NO_QUOTE, v)
  {
    var line := DeclarationLine(name, v, eol);
    var t := Splice(s, at, at, line);
    assert t[at..at + |line|] == line;
    assert line[|name| + 1..|name| + 1 + |v|] == v;
    assert t[at + |name| + 1..at + |name| + 1 + |v|] == t[at..at + |line|][|name| + 1..|name| + 1 + |v|];
  }

  // ---- any subset of the changes ------------------------------------------------------

  lemma RestInOrder(sc: Scanner, s: string, sts: seq<Statement>, cs: seq<Change>)
    requires sc.Scan(s) == Ok(sts) && InOrder(sc, s, sts, cs) && cs != []
    ensures InOrder(sc, s, sts, cs[1..]) && Planned(sc, s, sts, cs[0])
    ensures EditsOf(sts, cs)[1..] == EditsOf(sts, cs[1..])
    ensures |cs| > 1 ==> if cs[0].SetValue? then cs[0].index < cs[1].index else cs[0].index <= cs[1].index
  {
    hide sc.Scan, InsertOk, Slot, SafeValue, ValidName, EditOf;
    assert forall i :: 0 <= i < |cs| - 1 ==> cs[1..][i] == cs[i + 1];
    assert EditsOf(sts, cs)[1..] == EditsOf(sts, cs[1..]);
    if |cs| > 1 {
      assert Planned(sc, s, sts, cs[1]);
      assert EditsOf(sts, cs)[0].end <= EditsOf(sts, cs)[1].start;
      ChangesInOrder(sc, s, sts, cs[0], cs[1]);
    }
  }

  lemma EditsInRange(sc: Scanner, s: string, sts: seq<Statement>, cs: seq<Change>)
    requires AllPlanned(sc, s, sts, cs)
    ensures InRange(s, EditsOf(sts, cs))
    ensures forall i :: 0 <= i < |cs| ==> cs[i].index <= |sts| && (cs[i].SetValue? ==> cs[i].index < |sts|)
  {
    hide Slot, DeclarationLine, SafeValue, ValidName;
    forall i | 0 <= i < |cs|
      ensures EditsOf(sts, cs)[i].start <= EditsOf(sts, cs)[i].end <= |s|
    {
      assert Planned(sc, s, sts, cs[i]);
    }
    forall i | 0 <= i < |cs|
      ensures cs[i].index <= |sts| && (cs[i].SetValue? ==> cs[i].index < |sts|)
    {
      assert Planned(sc, s, sts, cs[i]);
    }
  }

  /**
    Rendering any planned changes is a new text whose scan succeeds, and whose
    bindings are the original's with exactly those changes applied.
   */
  lemma {:induction false} ChangesRender(sc: Scanner, s: string, sts: seq<Statement>, cs: seq<Change>)
    returns (sts': seq<Statement>)
    requires sc.Scan(s) == Ok(sts) && InOrder(sc, s, sts, cs)
    ensures InRange(s, EditsOf(sts, cs))
    ensures sc.Scan(Rendered(s, EditsOf(sts, cs))) == Ok(sts')
    ensures forall i :: 0 <= i < |cs| ==> cs[i].index <= |sts| && (cs[i].SetValue? ==> cs[i].index < |sts|)
    ensures Bindings(Rendered(s, EditsOf(sts, cs)), sts') == AllApplied(Bindings(s, sts), cs)
    ensures |sts'| >= |sts| && (cs == [] ==> sts' == sts)
    ensures cs != [] ==> sts'[..cs[0].index] == sts[..cs[0].index]
    decreases |cs|
  {
    EditsInRange(sc, s, sts, cs);
    if cs == [] {
      sts' := sts;
    } else {
      RestInOrder(sc, s, sts, cs);
      hide sc.Scan, InOrder, Planned, Rendered, EditOf, Applied, Bindings;
      var rest := ChangesRender(sc, s, sts, cs[1..]);
      sts' := ChangeStep(sc, s, sts, cs, rest);
    }
  }

  lemma ChangeStep(sc: Scanner, s: string, sts: seq<Statement>, cs: seq<Change>, rest: seq<Statement>)
    returns (sts': seq<Statement>)
    requires cs != [] && sc.Scan(s) == Ok(sts) && InOrder(sc, s, sts, cs) && InOrder(sc, s, sts, cs[1..])
    requires InRange(s, EditsOf(sts, cs)) && InRange(s, EditsOf(sts, cs[1..]))
    requires EditsOf(sts, cs)[1..] == EditsOf(sts, cs[1..])
    requires sc.Scan(Rendered(s, EditsOf(sts, cs[1..]))) == Ok(rest)
    requires forall i :: 0 <= i < |cs| ==> cs[i].index <= |sts| && (cs[i].SetValue? ==> cs[i].index < |sts|)
    requires Bindings(Rendered(s, EditsOf(sts, cs[1..])), rest) == AllApplied(Bindings(s, sts), cs[1..])
    requires |rest| >= |sts| && (|cs| == 1 ==> rest == sts)
    requires |cs| > 1 ==> rest[..cs[1].index] == sts[..cs[1].index]
    requires |cs| > 1 ==> if cs[0].SetValue? then cs[0].index < cs[1].index else cs[0].index <= cs[1].index
    requires Planned(sc, s, sts, cs[0])
    ensures sc.Scan(Rendered(s, EditsOf(sts, cs))) == Ok(sts')
    ensures Bindings(Rendered(s, EditsOf(sts, cs)), sts') == AllApplied(Bindings(s, sts), cs)
    ensures |sts'| >= |sts| && sts'[..cs[0].index] == sts[..cs[0].index]
  {
    var c, k := cs[0], cs[0].index;
    var edits := EditsOf(sts, cs);
    var r := Rendered(s, EditsOf(sts, cs[1..]));
    FrontUntouched(s, edits);
    assert edits[0] == EditOf(sts, c);
    assert Rendered(s, edits) == Splice(r, edits[0].start, edits[0].end, edits[0].text);
    assert AllApplied(Bindings(s, sts), cs) == Applied(Bindings(r, rest), c);
    hide sc.Scan, InOrder, Rendered, Applied, Bindings, EditsOf, InRange, Splice, Slot, InsertOk, AllApplied;
    FrontKept(sts, rest, cs);
    match c
    case SetValue(i, v, _) =>
      sts' := StepSet(sc, s, sts, r, rest, c);
    case Declare(_, _, _, _, _, _, _) =>
      sts' := StepDeclare(sc, s, sts, r, rest, c);
  }

  lemma FrontKept(sts: seq<Statement>, rest: seq<Statement>, cs: seq<Change>)
    requires cs != [] && cs[0].index <= |sts| <= |rest| && (cs[0].SetValue? ==> cs[0].index < |sts|)
    requires |cs| == 1 ==> rest == sts
    requires |cs| > 1 ==> cs[1].index <= |sts| && rest[..cs[1].index] == sts[..cs[1].index]
    requires |cs| > 1 ==> if cs[0].SetValue? then cs[0].index < cs[1].index else cs[0].index <= cs[1].index
    ensures rest[..cs[0].index] == sts[..cs[0].index]
    ensures cs[0].SetValue? ==> rest[cs[0].index] == sts[cs[0].index]
  {
    if |cs| > 1 {
      var k, m := cs[0].index, cs[1].index;
      assert rest[..k] == rest[..m][..k] == sts[..m][..k] == sts[..k];
      assert cs[0].SetValue? ==> rest[k] == rest[..m][k] == sts[..m][k];
    }
  }

  lemma StepSet(sc: Scanner, s: string, sts: seq<Statement>, r: string, rest: seq<Statement>, c: Change)
    returns (sts': seq<Statement>)
    requires c.SetValue? && Planned(sc, s, sts, c) && |sts| <= |rest| && sc.Scan(r) == Ok(rest)
    requires rest[..c.index] == sts[..c.index] && rest[c.index] == sts[c.index]
    requires EditOf(sts, c).end <= |r|
    ensures var e := EditOf(sts, c);
      && sc.Scan(Splice(r, e.start, e.end, e.text)) == Ok(sts')
      && Bindings(Splice(r, e.start, e.end, e.text), sts') == Applied(Bindings(r, rest), c)
    ensures |sts'| >= |sts| && sts'[..c.index] == sts[..c.index]
  {
    hide sc.Scan, Ordered, Splice;
    ReplaceScan(sc, r, rest, c.index, c.value);
    ScanOrdered(sc, r, rest);
    SetBindings(r, rest, c.index, c.value);
    sts' := ReplacedAt(rest, c.index, |c.value|);
    assert sts'[..c.index] == rest[..c.index];
  }

  lemma StepDeclare(sc: Scanner, s: string, sts: seq<Statement>, r: string, rest: seq<Statement>, c: Change)
    returns (sts': seq<Statement>)
    requires c.Declare? && Planned(sc, s, sts, c) && |sts| <= |rest| && sc.Scan(r) == Ok(rest)
    requires rest[..c.index] == sts[..c.index]
    requires c.at <= |s| && c.at <= |r| && r[..c.at] == s[..c.at]
    ensures var e := EditOf(sts, c);
      && sc.Scan(Splice(r, e.start, e.end, e.text)) == Ok(sts')
      && Bindings(Splice(r, e.start, e.end, e.text), sts') == Applied(Bindings(r, rest), c)
    ensures |sts'| >= |sts| && sts'[..c.index] == sts[..c.index]
  {
    hide sc.Scan, Ordered, Splice, InsertOk, Slot, SafeValue, ValidName, DeclarationLine, Bindings;
    SlotLocal(sc, s, r, c.at);
    InsertScan(sc, r, rest, c.at, c.name, c.value, c.eol);
    ScanOrdered(sc, r, rest);
    SlotSeparates(sc, r, rest, c.at);
    DeclareBindings(r, rest, c.index, c.at, c.name, c.value, c.eol);
    assert "" + DeclarationLine(c.name, c.value, c.eol) == DeclarationLine(c.name, c.value, c.eol);
    sts' := InsertedAt(rest, c.index, Declaration(c.name, c.value, c.at), |DeclarationLine(c.name, c.value, c.eol)|);
    assert sts'[..c.index] == rest[..c.index];
  }
}
