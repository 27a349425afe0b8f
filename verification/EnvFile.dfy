/**
  Whole env files: a byte order mark stays first, changes in plan order are put in
  text order, and a revert keeps the changes some service still needs.
 */
module EnvFile {
  import opened Text
  import opened EnvScan
  import opened EnvLocal
  import opened EnvEdit
  import opened EnvLaws
  import opened EnvInsert
  import opened TextEdits
  import opened EnvRewrite

  // ---- plan order and text order ------------------------------------------------

  function PlacedChange(sts: seq<Statement>, sorted: seq<Change>, c: Change): (r: seq<Change>)
    ensures |r| == |sorted| + 1 && multiset(r) == multiset(sorted) + multiset{c}
  {
    if sorted == [] || EditOf(sts, sorted[|sorted| - 1]).start <= EditOf(sts, c).start then sorted + [c]
    else
      var last := sorted[|sorted| - 1];
      assert sorted == sorted[..|sorted| - 1] + [last];
      PlacedChange(sts, sorted[..|sorted| - 1], c) + [last]
  }

  /** The changes in text order, those at one offset in plan order. */
  function InTextOrder(sts: seq<Statement>, cs: seq<Change>): (r: seq<Change>)
    ensures |r| == |cs| && multiset(r) == multiset(cs)
  {
    if cs == [] then []
    else
      assert cs == cs[..|cs| - 1] + [cs[|cs| - 1]];
      PlacedChange(sts, InTextOrder(sts, cs[..|cs| - 1]), cs[|cs| - 1])
  }

  lemma ChangesHave(a: seq<Change>, b: seq<Change>)
    requires multiset(a) == multiset(b)
    ensures forall c :: c in a <==> c in b
  {
    assert forall c :: c in a <==> c in multiset(a);
    assert forall c :: c in b <==> c in multiset(b);
  }

  lemma EditsEnd(sts: seq<Statement>, cs: seq<Change>)
    requires cs != []
    ensures var n := |cs| - 1;
      EditsOf(sts, cs) == EditsOf(sts, cs[..n]) + [EditOf(sts, cs[n])]
  {
  }

  lemma {:induction false} PlacedEdits(sts: seq<Statement>, sorted: seq<Change>, c: Change)
    ensures EditsOf(sts, PlacedChange(sts, sorted, c)) == Placed(EditsOf(sts, sorted), EditOf(sts, c))
  {
    hide EditOf;
    if sorted != [] {
      var n := |sorted| - 1;
      PlacedEdits(sts, sorted[..n], c);
      EditsEnd(sts, sorted);
      if EditOf(sts, sorted[n]).start > EditOf(sts, c).start {
        EditsEnd(sts, PlacedChange(sts, sorted[..n], c) + [sorted[n]]);
      } else {
        EditsEnd(sts, sorted + [c]);
      }
      hide EditsOf;
    }
  }

  lemma {:induction false} SortedEdits(sts: seq<Statement>, cs: seq<Change>)
    ensures EditsOf(sts, InTextOrder(sts, cs)) == SortedByStart(EditsOf(sts, cs))
  {
    hide EditOf, PlacedChange, Placed;
    if cs != [] {
      var n := |cs| - 1;
      SortedEdits(sts, cs[..n]);
      PlacedEdits(sts, InTextOrder(sts, cs[..n]), cs[n]);
      EditsEnd(sts, cs);
      SortedEnd(EditsOf(sts, cs[..n]), EditOf(sts, cs[n]));
      hide EditsOf, SortedByStart;
    }
  }

  // ---- planned changes never collide ------------------------------------------------

  ghost predicate DistinctTargets(cs: seq<Change>) {
    forall i, j :: 0 <= i < j < |cs| && cs[i].SetValue? && cs[j].SetValue? ==> cs[i].index != cs[j].index
  }

  lemma PlannedPairClear(sc: Scanner, s: string, sts: seq<Statement>, c: Change, d: Change)
    requires sc.Scan(s) == Ok(sts) && Planned(sc, s, sts, c) && Planned(sc, s, sts, d)
    requires c.SetValue? && d.SetValue? ==> c.index != d.index
    ensures Clear(EditOf(sts, c), EditOf(sts, d))
  {
    hide sc.Scan, InsertOk, Slot, ValidName, SafeValue, DeclarationLine;
    ScanOrdered(sc, s, sts);
    if c.Declare? {
      SlotSeparates(sc, s, sts, c.at);
    }
    if d.Declare? {
      SlotSeparates(sc, s, sts, d.at);
    }
  }

  lemma DistinctOnceSorted(cs: seq<Change>, sorted: seq<Change>)
    requires multiset(sorted) == multiset(cs) && DistinctTargets(cs)
    ensures DistinctTargets(sorted)
  {
    forall i, j | 0 <= i < j < |sorted| && sorted[i].SetValue? && sorted[j].SetValue?
      ensures sorted[i].index != sorted[j].index
    {
      var c, d := sorted[i], sorted[j];
      if c == d {
        assert sorted == sorted[..i] + [c] + sorted[i + 1..j] + [d] + sorted[j + 1..];
        assert multiset(sorted)[c] >= 2;
        TwiceMeansTwoPlaces(cs, c);
        assert false;
      } else {
        DifferentTargets(cs, sorted, i, j);
      }
    }
  }

  lemma DifferentTargets(cs: seq<Change>, sorted: seq<Change>, i: nat, j: nat)
    requires multiset(sorted) == multiset(cs) && DistinctTargets(cs)
    requires i < |sorted| && j < |sorted| && sorted[i] != sorted[j] && sorted[i].SetValue? && sorted[j].SetValue?
    ensures sorted[i].index != sorted[j].index
  {
    ChangesHave(sorted, cs);
    assert sorted[i] in cs && sorted[j] in cs;
    var k :| 0 <= k < |cs| && cs[k] == sorted[i];
    var m :| 0 <= m < |cs| && cs[m] == sorted[j];
    assert k < m || m < k;
  }

  lemma {:induction false} TwiceMeansTwoPlaces(cs: seq<Change>, c: Change)
    requires multiset(cs)[c] >= 2
    ensures exists i, j :: 0 <= i < j < |cs| && cs[i] == cs[j] == c
    decreases |cs|
  {
    var front, d := cs[..|cs| - 1], cs[|cs| - 1];
    assert cs == front + [d];
    if d == c {
      assert c in multiset(front);
      var i :| 0 <= i < |front| && front[i] == c;
      assert cs[i] == cs[|cs| - 1] == c;
    } else {
      TwiceMeansTwoPlaces(front, c);
      var i, j :| 0 <= i < j < |front| && front[i] == front[j] == c;
      assert cs[i] == cs[j] == c;
    }
  }

  // ---- the byte order mark ------------------------------------------------------------

  function MarkOf(data: string): (mark: string)
    ensures mark <= data
  {
    if BOM <= data then BOM else ""
  }

  function BodyOf(data: string): (body: string)
    ensures data == MarkOf(data) + body
  {
    data[|MarkOf(data)|..]
  }

  function ShiftEdit(e: TextEdit, d: nat): TextEdit {
    e.(start := e.start + d, end := e.end + d)
  }

  function ShiftEdits(edits: seq<TextEdit>, d: nat): (r: seq<TextEdit>)
    ensures |r| == |edits|
    ensures forall i :: 0 <= i < |edits| ==> r[i] == ShiftEdit(edits[i], d)
  {
    seq(|edits|, i requires 0 <= i < |edits| => ShiftEdit(edits[i], d))
  }

  /** The edits of a file's changes: offsets count the byte order mark. */
  function FileEdits(data: string, sts: seq<Statement>, cs: seq<Change>): seq<TextEdit> {
    ShiftEdits(EditsOf(sts, cs), |MarkOf(data)|)
  }

  lemma ShiftEnd(front: seq<TextEdit>, e: TextEdit, d: nat)
    ensures ShiftEdits(front + [e], d) == ShiftEdits(front, d) + [ShiftEdit(e, d)]
  {
  }

  lemma PlacedEnd(front: seq<TextEdit>, last: TextEdit, e: TextEdit)
    ensures Placed(front + [last], e) == if last.start <= e.start then front + [last] + [e] else Placed(front, e) + [last]
  {
    assert (front + [last])[..|front|] == front;
  }

  lemma {:induction false} ShiftPlaced(sorted: seq<TextEdit>, e: TextEdit, d: nat)
    ensures Placed(ShiftEdits(sorted, d), ShiftEdit(e, d)) == ShiftEdits(Placed(sorted, e), d)
  {
    if sorted == [] {
      assert ShiftEdits(sorted, d) == [];
      ShiftEnd([], e, d);
      assert [] + [e] == [e];
    } else {
      hide Placed, ShiftEdits;
      var n := |sorted| - 1;
      var front, last := sorted[..n], sorted[n];
      assert sorted == front + [last];
      ShiftPlaced(front, e, d);
      ShiftEnd(front, last, d);
      PlacedEnd(front, last, e);
      PlacedEnd(ShiftEdits(front, d), ShiftEdit(last, d), ShiftEdit(e, d));
      ShiftEnd(sorted, e, d);
      ShiftEnd(Placed(front, e), last, d);
    }
  }

  lemma SortedEnd(front: seq<TextEdit>, e: TextEdit)
    ensures SortedByStart(front + [e]) == Placed(SortedByStart(front), e)
  {
    assert (front + [e])[..|front|] == front;
  }

  lemma {:induction false} ShiftSorted(edits: seq<TextEdit>, d: nat)
    ensures SortedByStart(ShiftEdits(edits, d)) == ShiftEdits(SortedByStart(edits), d)
  {
    if edits == [] {
      assert ShiftEdits(edits, d) == [];
      assert ShiftEdits(SortedByStart(edits), d) == [];
    } else {
      hide Placed, SortedByStart, ShiftEdits;
      var n := |edits| - 1;
      var front, e := edits[..n], edits[n];
      assert edits == front + [e];
      ShiftSorted(front, d);
      ShiftEnd(front, e, d);
      SortedEnd(front, e);
      SortedEnd(ShiftEdits(front, d), ShiftEdit(e, d));
      ShiftPlaced(SortedByStart(front), e, d);
    }
  }

  lemma ShiftInRange(mark: string, s: string, edits: seq<TextEdit>)
    requires InRange(s, edits) && Disjoint(edits)
    ensures InRange(mark + s, ShiftEdits(edits, |mark|)) && Disjoint(ShiftEdits(edits, |mark|))
    ensures edits != [] ==> ShiftEdits(edits, |mark|)[1..] == ShiftEdits(edits[1..], |mark|)
  {
  }

  lemma RenderedUnfold(original: string, edits: seq<TextEdit>)
    requires InRange(original, edits) && Disjoint(edits) && edits != []
    ensures InRange(original, edits[1..]) && Disjoint(edits[1..])
    ensures var r := Rendered(original, edits[1..]);
      edits[0].end <= |r| && Rendered(original, edits) == Splice(r, edits[0].start, edits[0].end, edits[0].text)
  {
    FrontUntouched(original, edits);
  }

  lemma {:induction false} RenderedAfterMark(mark: string, s: string, edits: seq<TextEdit>)
    requires InRange(s, edits) && Disjoint(edits)
    ensures InRange(mark + s, ShiftEdits(edits, |mark|)) && Disjoint(ShiftEdits(edits, |mark|))
    ensures Rendered(mark + s, ShiftEdits(edits, |mark|)) == mark + Rendered(s, edits)
    decreases |edits|
  {
    hide InRange, Disjoint, Rendered;
    ShiftInRange(mark, s, edits);
    if edits != [] {
      RenderedUnfold(s, edits);
      RenderedAfterMark(mark, s, edits[1..]);
      RenderedUnfold(mark + s, ShiftEdits(edits, |mark|));
      SpliceAfter(mark, Rendered(s, edits[1..]), edits[0].start, edits[0].end, edits[0].text);
    }
  }

  lemma SpliceAfter(mark: string, r: string, start: nat, end: nat, text: string)
    requires start <= end <= |r|
    ensures Splice(mark + r, |mark| + start, |mark| + end, text) == mark + Splice(r, start, end, text)
  {
    assert (mark + r)[..|mark| + start] == mark + r[..start];
    assert (mark + r)[|mark| + end..] == r[end..];
  }

  /** The bindings a file declares, in order. */
  ghost function FileBindings(sc: Scanner, data: string): Result<seq<Binding>> {
    match sc.ScanFile(data)
    case Err(e) => Err(e)
    case Ok(sts) => Ok(Bindings(data, sts))
  }

  lemma MarkedBindings(sc: Scanner, mark: string, x: string, sts: seq<Statement>)
    requires sc.Scan(x) == Ok(sts)
    requires mark == BOM || (mark == "" && !(BOM <= x))
    ensures FileBindings(sc, mark + x) == Ok(Bindings(x, sts))
  {
    hide sc.Scan;
    ScanOrdered(sc, x, sts);
    if mark == BOM {
      assert (mark + x)[3..] == x;
      forall i | 0 <= i < |sts|
        ensures BindingOf(mark + x, Shift(sts[i], 3)) == BindingOf(x, sts[i])
      {
        var st := sts[i];
        if !st.inherited {
          assert (mark + x)[st.valueStart + 3..st.valueEnd + 3] == x[st.valueStart..st.valueEnd];
        }
      }
      assert Bindings(mark + x, [] + ShiftAll(sts, 3)) == Bindings(x, sts);
    } else {
      assert mark + x == x;
    }
  }

  lemma {:induction false} SeparatorBefore(sc: Scanner, s: string, sts: seq<Statement>, i: nat) returns (j: nat)
    requires sc.Scan(s) == Ok(sts) && i < |sts| && !sts[i].inherited && sts[i].key != ""
    ensures j < sts[i].valueStart && j < |s| && IsSeparator(s[j])
    decreases |s|
  {
    hide sc.Scan, sc.First, sc.Start, sc.LocateKey, Value, EnvSpaces, TrimRight, Separated;
    var o, l, rest := ScanHead(sc, s, sts);
    var n := o + l.next;
    FirstBounds(sc, s[o..], l);
    if i == 0 {
      var head, at, m := ValuedOfFirst(sc, s[o..], l);
      KeyIsSeparated(sc, s[o..], head);
      LocateKeyLocal(sc, s[o..], s[o..], head);
      SeparatorByte(sc, s[o..], head);
      ValueIsInside(s[o..][at..], TrimRight(head.key), m);
      j := o + head.keyEnd - 1;
      assert s[o..][head.keyEnd - 1] == s[j];
    } else {
      assert sts[i] == Shift(rest[i - 1], n);
      var k := SeparatorBefore(sc, s[n..], rest, i - 1);
      j := n + k;
      assert s[n..][k] == s[j];
    }
  }

  /** A byte order mark is not made by keeping a front with an ASCII byte early in it. */
  lemma NoMarkInFront(s: string, r: string, p: nat, j: nat)
    requires j < p <= |s| && p <= |r| && r[..p] == s[..p] && IsAscii(s[j]) && !(BOM <= s)
    ensures !(BOM <= r)
  {
    assert forall i :: 0 <= i < p ==> r[i] == r[..p][i] == s[..p][i] == s[i];
  }

  lemma FrontAscii(sc: Scanner, s: string, sts: seq<Statement>, c: Change) returns (j: nat)
    requires sc.Scan(s) == Ok(sts) && Planned(sc, s, sts, c)
    ensures var p := EditOf(sts, c).start; if p == 0 then c.Declare? && c.at == 0 else j < p <= |s| && IsAscii(s[j])
  {
    hide sc.Scan, InsertOk, Slot;
    if c.SetValue? {
      j := SeparatorBefore(sc, s, sts, c.index);
    } else {
      InsertSplit(sc, s, c.at);
      j := if c.at > 0 then c.at - 1 else 0;
    }
  }

  /** Editing never makes a text start with a byte order mark. */
  lemma NoMarkArises(sc: Scanner, s: string, sts: seq<Statement>, cs: seq<Change>)
    requires sc.Scan(s) == Ok(sts) && InOrder(sc, s, sts, cs) && !(BOM <= s)
    requires InRange(s, EditsOf(sts, cs))
    ensures !(BOM <= Rendered(s, EditsOf(sts, cs)))
  {
    if cs != [] {
      hide sc.Scan, Planned, EditOf, Rendered;
      var edits := EditsOf(sts, cs);
      var r := Rendered(s, edits);
      var p := edits[0].start;
      assert Planned(sc, s, sts, cs[0]);
      assert r[..p] == s[..p];
      var j := FrontAscii(sc, s, sts, cs[0]);
      if p == 0 {
        RenderedUnfold(s, edits);
        DeclaredFront(sc, s, sts, cs[0], Rendered(s, edits[1..]));
      } else {
        NoMarkInFront(s, r, p, j);
      }
    }
  }

  lemma DeclaredFront(sc: Scanner, s: string, sts: seq<Statement>, c: Change, r: string)
    requires Planned(sc, s, sts, c) && c.Declare? && c.at == 0
    ensures var e := EditOf(sts, c); e.start == e.end == 0 && !(BOM <= Splice(r, 0, 0, e.text))
  {
    hide InsertOk, Slot, SafeValue;
    assert Splice(r, 0, 0, EditOf(sts, c).text)[0] == c.name[0];
    assert NameByte(c.name[0]);
  }

  lemma CollideShifted(s: string, mark: string, edits: seq<TextEdit>)
    requires InRange(s, edits) && NoOverlap(edits) && NoneCrossed(edits)
    ensures InRange(mark + s, ShiftEdits(edits, |mark|))
    ensures NoOverlap(ShiftEdits(edits, |mark|)) && NoneCrossed(ShiftEdits(edits, |mark|))
  {
    forall i, j | 0 <= i < j < |edits|
      ensures Clear(ShiftEdits(edits, |mark|)[i], ShiftEdits(edits, |mark|)[j])
    {
      assert Clear(edits[i], edits[j]);
    }
  }

  // ---- what a revert keeps ---------------------------------------------------------------

  /** The changes some service outside `reverting` still needs. */
  function KeptChanges(cs: seq<Change>, reverting: set<string>): (r: seq<Change>)
    ensures forall c :: c in r <==> c in cs && Needed(c.owners, reverting)
  {
    if cs == [] then []
    else
      assert cs == cs[..|cs| - 1] + [cs[|cs| - 1]];
      KeptChanges(cs[..|cs| - 1], reverting) + if Needed(cs[|cs| - 1].owners, reverting) then [cs[|cs| - 1]] else []
  }

  lemma KeptLast(front: seq<Change>, c: Change, reverting: set<string>)
    ensures KeptChanges(front + [c], reverting) == KeptChanges(front, reverting) + if Needed(c.owners, reverting) then [c] else []
  {
    assert (front + [c])[..|front|] == front;
  }

  lemma {:induction false} KeptFileEdits(data: string, sts: seq<Statement>, cs: seq<Change>, reverting: set<string>)
    ensures KeptEdits(FileEdits(data, sts, cs), reverting) == FileEdits(data, sts, KeptChanges(cs, reverting))
  {
    if cs == [] {
      assert FileEdits(data, sts, cs) == [];
    } else {
      hide EditOf, Needed;
      var n := |cs| - 1;
      var front, c := cs[..n], cs[n];
      KeptFileEdits(data, sts, front, reverting);
      FileEditsEnd(data, sts, front, c);
      assert cs == front + [c];
      KeptEnd(FileEdits(data, sts, front), ShiftEdit(EditOf(sts, c), |MarkOf(data)|), reverting);
      FileEditsEnd(data, sts, KeptChanges(front, reverting), c);
      EditOwners(sts, c, |MarkOf(data)|);
      if !Needed(c.owners, reverting) {
        assert KeptChanges(cs, reverting) == KeptChanges(front, reverting);
      }
      hide FileEdits;
    }
  }

  lemma EditOwners(sts: seq<Statement>, c: Change, d: nat)
    ensures ShiftEdit(EditOf(sts, c), d).owners == c.owners
  {
  }

  lemma FileEditsEnd(data: string, sts: seq<Statement>, front: seq<Change>, c: Change)
    ensures FileEdits(data, sts, front + [c])
         == FileEdits(data, sts, front) + [ShiftEdit(EditOf(sts, c), |MarkOf(data)|)]
  {
    hide EditOf;
    EditsEnd(sts, front + [c]);
    assert (front + [c])[..|front|] == front;
    ShiftEnd(EditsOf(sts, front), EditOf(sts, c), |MarkOf(data)|);
  }

  lemma DistinctEnd(front: seq<Change>, c: Change)
    ensures DistinctTargets(front + [c]) <==>
      DistinctTargets(front) && (c.SetValue? ==> forall d :: d in front && d.SetValue? ==> d.index != c.index)
  {
    var all := front + [c];
    assert forall i :: 0 <= i < |front| ==> all[i] == front[i];
    assert all[|front|] == c;
    if DistinctTargets(all) {
      forall d | d in front && d.SetValue? && c.SetValue?
        ensures d.index != c.index
      {
        var i :| 0 <= i < |front| && front[i] == d;
        assert all[i].index != all[|front|].index;
      }
    }
  }

  lemma KeptAreChanges(cs: seq<Change>, reverting: set<string>)
    ensures forall c :: c in KeptChanges(cs, reverting) ==> c in cs
  {
    hide Needed;
  }

  lemma {:induction false} KeptIsDistinct(cs: seq<Change>, reverting: set<string>)
    requires DistinctTargets(cs)
    ensures DistinctTargets(KeptChanges(cs, reverting))
    decreases |cs|
  {
    hide *;
    if cs != [] {
      var front, c := cs[..|cs| - 1], cs[|cs| - 1];
      assert cs == front + [c];
      DistinctEnd(front, c);
      KeptIsDistinct(front, reverting);
      KeptLast(front, c, reverting);
      KeptAreChanges(front, reverting);
      DistinctEnd(KeptChanges(front, reverting), c);
      assert KeptChanges(front, reverting) + [] == KeptChanges(front, reverting);
    } else {
      NoneAreKept(reverting);
    }
  }

  lemma NoneAreKept(reverting: set<string>)
    ensures KeptChanges([], reverting) == [] && DistinctTargets([])
  {
  }
}
