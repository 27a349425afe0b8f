/**
  Edits of a file's text (tagwrite.go): planning refuses two edits that overlap,
  and applying copies the text around them. `Rendered` is the simple form, one
  splice per edit from the last to the first.
 */
module TextEdits {
  import opened EnvEdit

  /** Replaces `[start, end)` with `text`, for the services in `owners`. */
  datatype TextEdit = TextEdit(start: nat, end: nat, text: string, owners: seq<string>)

  predicate InRange(original: string, edits: seq<TextEdit>) {
    forall i :: 0 <= i < |edits| ==> edits[i].start <= edits[i].end <= |original|
  }

  /** In order, none reaching into the next. */
  predicate Disjoint(edits: seq<TextEdit>) {
    forall i, j :: 0 <= i < j < |edits| ==> edits[i].end <= edits[j].start
  }

  /** `original` with `edits` applied. */
  function Rendered(original: string, edits: seq<TextEdit>): (r: string)
    requires InRange(original, edits) && Disjoint(edits)
    ensures edits == [] ==> r == original
    ensures edits != [] ==> |r| >= edits[0].start && r[..edits[0].start] == original[..edits[0].start]
    decreases |edits|, 1
  {
    if edits == [] then original
    else
      var r := Rendered(original, edits[1..]);
      FrontUntouched(original, edits);
      Splice(r, edits[0].start, edits[0].end, edits[0].text)
  }

  lemma FrontUntouched(original: string, edits: seq<TextEdit>)
    requires edits != [] && InRange(original, edits) && Disjoint(edits)
    ensures InRange(original, edits[1..]) && Disjoint(edits[1..])
    ensures var r := Rendered(original, edits[1..]);
      edits[0].end <= |r| && r[..edits[0].end] == original[..edits[0].end]
    decreases |edits|, 0
  {
    if |edits| > 1 {
      var next := edits[1];
      assert edits[1..][0] == next;
      var r := Rendered(original, edits[1..]);
      assert r[..edits[0].end] == r[..next.start][..edits[0].end] == original[..next.start][..edits[0].end];
    }
  }

  // ---- the stable sort ---------------------------------------------------------

  /** `e` after every edit that starts no later. */
  function Placed(sorted: seq<TextEdit>, e: TextEdit): (r: seq<TextEdit>)
    ensures |r| == |sorted| + 1 && multiset(r) == multiset(sorted) + multiset{e}
  {
    if sorted == [] || sorted[|sorted| - 1].start <= e.start then sorted + [e]
    else
      var last := sorted[|sorted| - 1];
      assert sorted == sorted[..|sorted| - 1] + [last];
      Placed(sorted[..|sorted| - 1], e) + [last]
  }

  /** slices.SortStableFunc by start: edits at one offset keep their plan order. */
  function SortedByStart(edits: seq<TextEdit>): (r: seq<TextEdit>)
    ensures |r| == |edits| && multiset(r) == multiset(edits)
  {
    if edits == [] then []
    else
      assert edits == edits[..|edits| - 1] + [edits[|edits| - 1]];
      Placed(SortedByStart(edits[..|edits| - 1]), edits[|edits| - 1])
  }

  predicate Ascending(edits: seq<TextEdit>) {
    forall i, j :: 0 <= i < j < |edits| ==> edits[i].start <= edits[j].start
  }

  // ---- what planning guarantees ---------------------------------------------------

  /** addEdit's test. */
  predicate Overlap(e: TextEdit, o: TextEdit) {
    e.start < o.end && o.start < e.end
  }

  predicate NoOverlap(edits: seq<TextEdit>) {
    forall i, j :: 0 <= i < j < |edits| ==> !Overlap(edits[i], edits[j])
  }

  method AddEdit(edits: seq<TextEdit>, e: TextEdit) returns (ok: bool, r: seq<TextEdit>)
    requires NoOverlap(edits)
    ensures ok <==> forall i :: 0 <= i < |edits| ==> !Overlap(edits[i], e)
    ensures NoOverlap(r) && r == if ok then edits + [e] else edits
  {
    for i := 0 to |edits|
      invariant forall k :: 0 <= k < i ==> !Overlap(edits[k], e)
    {
      if e.start < edits[i].end && edits[i].start < e.end {
        return false, edits;
      }
    }
    return true, edits + [e];
  }

  /** An earlier edit that replaces text, and a later insertion where that text starts. */
  predicate Crossed(earlier: TextEdit, later: TextEdit) {
    earlier.start < earlier.end && later.start == later.end == earlier.start
  }

  predicate NoneCrossed(edits: seq<TextEdit>) {
    forall i, j :: 0 <= i < j < |edits| ==> !Crossed(edits[i], edits[j])
  }

  /** Whether `e`, planned after `x`, can be applied after it in one pass. */
  predicate Clear(x: TextEdit, e: TextEdit) {
    !Overlap(x, e) && !Crossed(x, e)
  }

  predicate WellFormed(edits: seq<TextEdit>) {
    forall i :: 0 <= i < |edits| ==> edits[i].start <= edits[i].end
  }

  predicate AllClear(xs: seq<TextEdit>, e: TextEdit) {
    forall x :: x in xs ==> Clear(x, e)
  }

  predicate AllEndBy(xs: seq<TextEdit>, p: nat) {
    forall x :: x in xs ==> x.end <= p
  }

  lemma {:induction false} PlacedDisjoint(sorted: seq<TextEdit>, e: TextEdit)
    requires Ascending(sorted) && WellFormed(sorted) && e.start <= e.end
    ensures Ascending(Placed(sorted, e)) && WellFormed(Placed(sorted, e))
    ensures forall x :: x in Placed(sorted, e) <==> x == e || x in sorted
    ensures Disjoint(Placed(sorted, e)) <==> Disjoint(sorted) && AllClear(sorted, e)
  {
    hide Disjoint, Clear, AllEndBy;
    if sorted != [] && e.start < sorted[|sorted| - 1].start {
      var last := sorted[|sorted| - 1];
      var front := sorted[..|sorted| - 1];
      assert sorted == front + [last];
      PlacedDisjoint(front, e);
      var r := Placed(front, e);
      assert Placed(sorted, e) == r + [last];
      LastDisjoint(front, last);
      LastDisjoint(r, last);
      ClearBefore(last, e);
      assert AllEndBy(r, last.start) <==> AllEndBy(front, last.start) && e.end <= last.start by { EndByAlso(r, front, e, last.start); }
      assert AllClear(sorted, e) <==> AllClear(front, e) && Clear(last, e);
      PlacedAscending(front, r, e, last);
    } else {
      LastDisjoint(sorted, e);
      assert Placed(sorted, e) == sorted + [e];
      ClearAfter(sorted, e);
    }
  }

  lemma PlacedAscending(front: seq<TextEdit>, r: seq<TextEdit>, e: TextEdit, last: TextEdit)
    requires Ascending(front + [last]) && Ascending(r) && WellFormed(r) && last.start <= last.end
    requires forall x :: x in r <==> x == e || x in front
    requires e.start < last.start
    ensures Ascending(r + [last]) && WellFormed(r + [last])
  {
    assert (front + [last])[|front|] == last;
    forall x | x in front
      ensures x.start <= last.start
    {
      var i :| 0 <= i < |front| && front[i] == x;
      assert (front + [last])[i] == x;
    }
    assert forall i :: 0 <= i < |r| ==> r[i] in r;
  }

  lemma EndByAlso(r: seq<TextEdit>, front: seq<TextEdit>, e: TextEdit, p: nat)
    requires forall x :: x in r <==> x == e || x in front
    ensures AllEndBy(r, p) <==> AllEndBy(front, p) && e.end <= p
  {
  }

  lemma ClearBefore(last: TextEdit, e: TextEdit)
    requires e.start < last.start <= last.end
    ensures Clear(last, e) <==> e.end <= last.start
  {
  }

  lemma ClearAfter(sorted: seq<TextEdit>, e: TextEdit)
    requires Ascending(sorted) && WellFormed(sorted) && e.start <= e.end
    requires sorted == [] || sorted[|sorted| - 1].start <= e.start
    ensures AllClear(sorted, e) <==> AllEndBy(sorted, e.start)
  {
    forall x | x in sorted
      ensures Clear(x, e) <==> x.end <= e.start
    {
      var i :| 0 <= i < |sorted| && sorted[i] == x;
      assert i < |sorted| - 1 ==> sorted[i].start <= sorted[|sorted| - 1].start;
    }
  }

  lemma LastDisjoint(front: seq<TextEdit>, last: TextEdit)
    ensures Disjoint(front + [last]) <==> Disjoint(front) && AllEndBy(front, last.start)
  {
    var r := front + [last];
    if Disjoint(r) {
      assert forall i :: 0 <= i < |front| ==> front[i] == r[i];
      assert r[|front|] == last;
    }
  }

  /** The order one pass needs holds exactly of edits that neither overlap nor cross. */
  lemma {:induction false} OnePassExactly(edits: seq<TextEdit>)
    requires WellFormed(edits)
    ensures Ascending(SortedByStart(edits)) && WellFormed(SortedByStart(edits))
    ensures Disjoint(SortedByStart(edits)) <==> NoOverlap(edits) && NoneCrossed(edits)
  {
    hide Disjoint, NoOverlap, NoneCrossed, Placed, Ascending;
    if edits != [] {
      var n := |edits| - 1;
      OnePassExactly(edits[..n]);
      OnePassStep(edits[..n], edits[n], SortedByStart(edits[..n]));
      assert edits == edits[..n] + [edits[n]];
    } else {
      assert SortedByStart(edits) == edits;
      NothingCollides();
    }
  }

  lemma NothingCollides()
    ensures Ascending([]) && Disjoint([]) && NoOverlap([]) && NoneCrossed([])
  {
  }

  lemma OnePassStep(front: seq<TextEdit>, e: TextEdit, sorted: seq<TextEdit>)
    requires Ascending(sorted) && WellFormed(sorted) && e.start <= e.end && multiset(sorted) == multiset(front)
    requires Disjoint(sorted) <==> NoOverlap(front) && NoneCrossed(front)
    ensures Ascending(Placed(sorted, e)) && WellFormed(Placed(sorted, e))
    ensures Disjoint(Placed(sorted, e)) <==> NoOverlap(front + [e]) && NoneCrossed(front + [e])
  {
    hide Disjoint, Clear, NoOverlap, NoneCrossed, Placed, Ascending, WellFormed;
    PlacedDisjoint(sorted, e);
    SameElements(sorted, front);
    LastClear(front, e);
  }

  lemma SameElements(a: seq<TextEdit>, b: seq<TextEdit>)
    requires multiset(a) == multiset(b)
    ensures forall x :: x in a <==> x in b
  {
    assert forall x :: x in a <==> x in multiset(a);
    assert forall x :: x in b <==> x in multiset(b);
  }

  lemma LastClear(front: seq<TextEdit>, e: TextEdit)
    ensures var edits := front + [e];
      NoOverlap(edits) && NoneCrossed(edits) <==> NoOverlap(front) && NoneCrossed(front) && AllClear(front, e)
  {
    var edits := front + [e];
    var n := |front|;
    hide Overlap, Crossed;
    assert forall i :: 0 <= i < n ==> edits[i] == front[i];
    assert edits[n] == e;
    if NoOverlap(edits) && NoneCrossed(edits) {
      forall x | x in front
        ensures Clear(x, e)
      {
        var i :| 0 <= i < n && front[i] == x;
        assert !Overlap(edits[i], edits[n]) && !Crossed(edits[i], edits[n]);
      }
    } else if NoOverlap(front) && NoneCrossed(front) && AllClear(front, e) {
      forall i, j | 0 <= i < j < |edits|
        ensures !Overlap(edits[i], edits[j]) && !Crossed(edits[i], edits[j])
      {
        if j == n { assert Clear(front[i], e); }
      }
      assert false;
    }
  }

  /** `text` is `data` with the edits applied in one pass. */
  ghost predicate WrittenAs(data: string, edits: seq<TextEdit>, text: string) {
    var sorted := SortedByStart(edits);
    InRange(data, sorted) && Disjoint(sorted) && text == Rendered(data, sorted)
  }

  // ---- the loop --------------------------------------------------------------------

  method ApplyEdits(original: string, edits: seq<TextEdit>) returns (out: string)
    requires InRange(original, edits) && NoOverlap(edits) && NoneCrossed(edits)
    ensures InRange(original, SortedByStart(edits)) && Disjoint(SortedByStart(edits))
    ensures out == Rendered(original, SortedByStart(edits))
  {
    hide *;
    var sorted := SortedByStart(edits);
    OneSortedPass(original, edits);
    var buf, pos: nat, i := "", 0, 0;
    ghost var rest := sorted;
    CopyStart(original, sorted);
    assert sorted[0..] == sorted;
    while i < |sorted|
      invariant i <= |sorted| && pos <= |original| && rest == sorted[i..]
      invariant CopyState(original, sorted, rest, buf, pos)
    {
      var e := sorted[i];
      CopyStep(original, sorted, rest, buf, pos);
      rest := rest[1..];
      buf := buf + original[pos..e.start] + e.text;
      pos := e.end;
      i := i + 1;
    }
    CopyEnd(original, sorted, rest, buf, pos);
    out := buf + original[pos..];
  }

  lemma OneSortedPass(original: string, edits: seq<TextEdit>)
    requires InRange(original, edits) && NoOverlap(edits) && NoneCrossed(edits)
    ensures InRange(original, SortedByStart(edits)) && Disjoint(SortedByStart(edits))
  {
    OnePassExactly(edits);
    SortedInRange(original, edits);
  }

  lemma CopyStart(original: string, sorted: seq<TextEdit>)
    requires InRange(original, sorted) && Disjoint(sorted)
    ensures CopyState(original, sorted, sorted, "", 0)
  {
  }

  lemma CopyEnd(original: string, sorted: seq<TextEdit>, rest: seq<TextEdit>, buf: string, pos: nat)
    requires CopyState(original, sorted, rest, buf, pos) && rest == [] && pos <= |original|
    ensures InRange(original, sorted) && Disjoint(sorted)
    ensures Rendered(original, sorted) == buf + original[pos..]
  {
  }

  /** What the loop has written, and what is left to write. */
  ghost predicate CopyState(original: string, sorted: seq<TextEdit>, rest: seq<TextEdit>, buf: string, pos: nat) {
    && InRange(original, sorted) && Disjoint(sorted)
    && InRange(original, rest) && Disjoint(rest)
    && (rest != [] ==> pos <= rest[0].start)
    && pos <= |Rendered(original, rest)|
    && Rendered(original, sorted) == buf + Rendered(original, rest)[pos..]
  }

  lemma SortedInRange(original: string, edits: seq<TextEdit>)
    requires InRange(original, edits)
    ensures InRange(original, SortedByStart(edits))
  {
    var sorted := SortedByStart(edits);
    SameElements(sorted, edits);
    assert forall i :: 0 <= i < |sorted| ==> sorted[i] in edits;
  }

  lemma CopyStep(original: string, sorted: seq<TextEdit>, rest: seq<TextEdit>, buf: string, pos: nat)
    requires CopyState(original, sorted, rest, buf, pos) && rest != []
    ensures pos <= rest[0].start <= rest[0].end <= |original|
    ensures CopyState(original, sorted, rest[1..], buf + original[pos..rest[0].start] + rest[0].text, rest[0].end)
  {
    FrontUntouched(original, rest);
    var e := rest[0];
    var r := Rendered(original, rest[1..]);
    assert rest[1..] != [] ==> rest[1..][0] == rest[1];
    assert r[..e.start] == original[..e.start] by { assert r[..e.start] == r[..e.end][..e.start]; }
    assert original[pos..e.start] == r[..e.start][pos..];
    assert Rendered(original, rest)[pos..] == original[pos..e.start] + e.text + r[e.end..];
  }

  // ---- what a rendering keeps ---------------------------------------------------------

  /** The sum of the edits' length differences. */
  function TotalGrowth(edits: seq<TextEdit>): int {
    if edits == [] then 0
    else |edits[0].text| - (edits[0].end - edits[0].start) + TotalGrowth(edits[1..])
  }

  /** The length law: the original length plus every edit's difference. */
  lemma {:induction false} RenderedLength(original: string, edits: seq<TextEdit>)
    requires InRange(original, edits) && Disjoint(edits)
    ensures |Rendered(original, edits)| == |original| + TotalGrowth(edits)
  {
    if edits != [] {
      FrontUntouched(original, edits);
      RenderedLength(original, edits[1..]);
    }
  }

  /** A byte no edit replaces. */
  predicate Outside(edits: seq<TextEdit>, p: nat) {
    forall i :: 0 <= i < |edits| ==> p < edits[i].start || edits[i].end <= p
  }

  /** Where byte `p` of the original stands in the rendering: insertions at `p` come before it. */
  function Moved(edits: seq<TextEdit>, p: nat): int {
    if edits == [] then p
    else
      (if edits[0].start <= p then |edits[0].text| - (edits[0].end - edits[0].start) else 0) + Moved(edits[1..], p)
  }

  /** Every byte outside the edits is kept. */
  lemma {:induction false} RenderedKeeps(original: string, edits: seq<TextEdit>, p: nat)
    requires InRange(original, edits) && Disjoint(edits) && p < |original| && Outside(edits, p)
    ensures 0 <= Moved(edits, p) < |Rendered(original, edits)|
    ensures Rendered(original, edits)[Moved(edits, p)] == original[p]
  {
    if edits != [] {
      FrontUntouched(original, edits);
      OutsideRest(edits, p);
      hide InRange, Disjoint, Outside;
      var e := edits[0];
      RenderedKeeps(original, edits[1..], p);
      if e.end <= p {
        MovedFloor(edits[1..], p, e.end) by { WellFormedRest(original, edits[1..]); }
      }
      KeepStep(original, Rendered(original, edits[1..]), e, p, Moved(edits[1..], p));
    }
  }

  lemma WellFormedRest(original: string, edits: seq<TextEdit>)
    requires InRange(original, edits)
    ensures WellFormed(edits)
  {
  }

  lemma OutsideRest(edits: seq<TextEdit>, p: nat)
    requires edits != [] && Disjoint(edits) && Outside(edits, p) && forall i :: 0 <= i < |edits| ==> edits[i].start <= edits[i].end
    ensures Outside(edits[1..], p) && (p < edits[0].start || edits[0].end <= p)
    ensures forall i :: 0 <= i < |edits[1..]| ==> edits[0].end <= edits[1..][i].start
    ensures p < edits[0].start ==> Moved(edits[1..], p) == p
  {
    assert forall i :: 0 <= i < |edits| - 1 ==> edits[1..][i] == edits[i + 1];
    if p < edits[0].start {
      NotMoved(edits[1..], p);
    }
  }

  lemma KeepStep(original: string, r: string, e: TextEdit, p: nat, m: int)
    requires e.start <= e.end <= |r| && e.end <= |original| && r[..e.end] == original[..e.end]
    requires p < |original| && 0 <= m < |r| && r[m] == original[p]
    requires if p < e.start then m == p else e.end <= p && e.end <= m
    ensures var m' := m + if e.start <= p then |e.text| - (e.end - e.start) else 0;
      var t := Splice(r, e.start, e.end, e.text);
      0 <= m' < |t| && t[m'] == original[p]
  {
    SpliceKeeps(r, e.start, e.end, e.text);
  }

  lemma SpliceKeeps(r: string, start: nat, end: nat, text: string)
    requires start <= end <= |r|
    ensures |Splice(r, start, end, text)| == |r| + |text| - (end - start)
    ensures forall q :: 0 <= q < start ==> Splice(r, start, end, text)[q] == r[q]
    ensures forall q :: end <= q < |r| ==> Splice(r, start, end, text)[q + |text| - (end - start)] == r[q]
  {
  }

  /** The bytes kept stay in order. */
  lemma {:induction false} RenderedKeepsOrder(edits: seq<TextEdit>, p: nat, q: nat)
    requires WellFormed(edits) && Disjoint(edits) && p < q && Outside(edits, p) && Outside(edits, q)
    ensures Moved(edits, p) < Moved(edits, q)
  {
    if edits != [] {
      var e := edits[0];
      assert forall i :: 0 <= i < |edits| - 1 ==> edits[1..][i] == edits[i + 1];
      RenderedKeepsOrder(edits[1..], p, q);
      if p < e.start <= q {
        NotMoved(edits, p);
        MovedFloor(edits[1..], q, e.end);
      }
    }
  }

  lemma {:induction false} MovedFloor(edits: seq<TextEdit>, p: nat, q: nat)
    requires WellFormed(edits) && Disjoint(edits) && Outside(edits, p) && q <= p
    requires forall i :: 0 <= i < |edits| ==> q <= edits[i].start
    ensures Moved(edits, p) >= q
  {
    if edits != [] {
      var e := edits[0];
      assert forall i :: 0 <= i < |edits| - 1 ==> edits[1..][i] == edits[i + 1];
      if p < e.start {
        NotMoved(edits, p);
      } else {
        MovedFloor(edits[1..], p, e.end);
      }
    }
  }

  lemma {:induction false} NotMoved(edits: seq<TextEdit>, p: nat)
    requires forall i :: 0 <= i < |edits| ==> p < edits[i].start
    ensures Moved(edits, p) == p
  {
    if edits != [] {
      assert forall i :: 0 <= i < |edits| - 1 ==> edits[1..][i] == edits[i + 1];
      NotMoved(edits[1..], p);
    }
  }

  // ---- what a revert keeps --------------------------------------------------------------

  /** Whether some owner of an edit keeps its new image. */
  predicate Needed(owners: seq<string>, reverting: set<string>) {
    exists i :: 0 <= i < |owners| && owners[i] !in reverting
  }

  /** The edits of services that keep their new image, in plan order. */
  function KeptEdits(edits: seq<TextEdit>, reverting: set<string>): (r: seq<TextEdit>)
    ensures forall e :: e in r <==> e in edits && Needed(e.owners, reverting)
  {
    if edits == [] then []
    else
      assert edits == edits[..|edits| - 1] + [edits[|edits| - 1]];
      var last := edits[|edits| - 1];
      KeptEdits(edits[..|edits| - 1], reverting) + if Needed(last.owners, reverting) then [last] else []
  }

  lemma KeptEnd(front: seq<TextEdit>, e: TextEdit, reverting: set<string>)
    ensures KeptEdits(front + [e], reverting) == KeptEdits(front, reverting) + if Needed(e.owners, reverting) then [e] else []
  {
    assert (front + [e])[..|front|] == front;
  }

  lemma OwnedIsNeeded(owners: seq<string>, reverting: set<string>)
    requires owners != [] && reverting == {}
    ensures Needed(owners, reverting)
  {
    assert owners[0] !in reverting;
  }

  lemma {:induction false} AllNeeded(edits: seq<TextEdit>, reverting: set<string>)
    requires reverting == {} && forall i :: 0 <= i < |edits| ==> edits[i].owners != []
    ensures KeptEdits(edits, reverting) == edits
  {
    hide Needed, KeptEdits;
    if edits != [] {
      var n := |edits| - 1;
      AllNeeded(edits[..n], reverting);
      OwnedIsNeeded(edits[n].owners, reverting);
      KeptEnd(edits[..n], edits[n], reverting);
      assert edits == edits[..n] + [edits[n]];
    } else {
      NoEditsKept(reverting);
    }
  }

  lemma NoEditsKept(reverting: set<string>)
    ensures KeptEdits([], reverting) == []
  {
  }
}
