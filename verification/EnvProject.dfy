/**
  A project's env files together: one environment is read from them in load order,
  and a plan changes several of them at once. Evaluating the rewritten files sets
  every planned variable and leaves every other key as it was.
 */
module EnvProject {
  import opened EnvScan
  import opened TextEdits
  import opened EnvRewrite
  import opened EnvFile
  import opened EnvEnd
  import opened EnvInsert
  import opened EnvAppend
  import opened EnvTail
  import opened EnvEval

  /** All bindings in load order. */
  function Flatten(bss: seq<seq<Binding>>): (r: seq<Binding>) {
    if bss == [] then [] else bss[0] + Flatten(bss[1..])
  }

  /** How many bindings precede the `f`-th file. */
  function Offset(bss: seq<seq<Binding>>, f: nat): nat
    requires f <= |bss|
  {
    if f == 0 then 0 else |bss[0]| + Offset(bss[1..], f - 1)
  }

  lemma {:induction false} FlattenAt(bss: seq<seq<Binding>>, f: nat, i: nat)
    requires f < |bss| && i < |bss[f]|
    ensures Offset(bss, f) + i < |Flatten(bss)| && Flatten(bss)[Offset(bss, f) + i] == bss[f][i]
  {
    if f > 0 {
      FlattenAt(bss[1..], f - 1, i);
    }
  }

  lemma {:induction false} OffsetInside(bss: seq<seq<Binding>>, f: nat)
    requires f < |bss|
    ensures Offset(bss, f) + |bss[f]| <= |Flatten(bss)|
    ensures Offset(bss, f + 1) == Offset(bss, f) + |bss[f]|
  {
    if f > 0 {
      OffsetInside(bss[1..], f - 1);
    } else {
      assert Offset(bss[1..], 0) == 0;
    }
  }

  lemma {:induction false} OffsetMonotone(bss: seq<seq<Binding>>, f: nat, g: nat)
    requires f < g <= |bss|
    ensures Offset(bss, f) + |bss[f]| <= Offset(bss, g)
    decreases g - f
  {
    OffsetInside(bss, f);
    if f + 1 < g {
      OffsetMonotone(bss, f + 1, g);
    }
  }

  /** A file's change, as a change to the bindings of the whole project. */
  function ShiftChange(c: Change, d: nat): Change {
    c.(index := c.index + d)
  }

  function ShiftChanges(cs: seq<Change>, d: nat): (r: seq<Change>)
    ensures |r| == |cs|
    ensures forall i :: 0 <= i < |cs| ==> r[i] == ShiftChange(cs[i], d)
  {
    seq(|cs|, i requires 0 <= i < |cs| => ShiftChange(cs[i], d))
  }

  /** The changes of all files, in load order. */
  function Global(bss: seq<seq<Binding>>, css: seq<seq<Change>>): seq<Change>
    requires |bss| == |css|
  {
    if bss == [] then [] else css[0] + ShiftChanges(Global(bss[1..], css[1..]), |bss[0]|)
  }

  predicate AllInside(bss: seq<seq<Binding>>, css: seq<seq<Change>>) {
    |bss| == |css| && forall f :: 0 <= f < |bss| ==> Inside(bss[f], css[f])
  }

  function AppliedEach(bss: seq<seq<Binding>>, css: seq<seq<Change>>): (r: seq<seq<Binding>>)
    requires AllInside(bss, css)
    ensures |r| == |bss|
    ensures forall f :: 0 <= f < |bss| ==> r[f] == AllApplied(bss[f], css[f])
  {
    seq(|bss|, f requires 0 <= f < |bss| => AllApplied(bss[f], css[f]))
  }

  lemma AppliedShifted(a: seq<Binding>, b: seq<Binding>, c: Change)
    requires c.index <= |b| && (c.SetValue? ==> c.index < |b|)
    ensures Applied(a + b, ShiftChange(c, |a|)) == a + Applied(b, c)
  {
    match c
    case SetValue(i, _, _) =>
    case Declare(i, _, _, _, _, _, _) =>
      assert (a + b)[..|a| + i] == a + b[..i];
      assert (a + b)[|a| + i..] == b[i..];
  }

  lemma {:induction false} AllAppliedShifted(a: seq<Binding>, b: seq<Binding>, cs: seq<Change>)
    requires Inside(b, cs)
    ensures Inside(a + b, ShiftChanges(cs, |a|))
    ensures AllApplied(a + b, ShiftChanges(cs, |a|)) == a + AllApplied(b, cs)
    decreases |cs|
  {
    if cs != [] {
      assert ShiftChanges(cs, |a|)[1..] == ShiftChanges(cs[1..], |a|);
      assert Inside(b, cs[1..]);
      AllAppliedShifted(a, b, cs[1..]);
      AppliedShifted(a, AllApplied(b, cs[1..]), cs[0]);
      hide Applied;
    }
  }

  lemma {:induction false} AllAppliedInFront(a: seq<Binding>, b: seq<Binding>, cs: seq<Change>, ds: seq<Change>)
    requires Inside(a, cs) && Inside(b, ds)
    ensures Inside(a + b, cs + ShiftChanges(ds, |a|))
    ensures AllApplied(a + b, cs + ShiftChanges(ds, |a|)) == AllApplied(a, cs) + AllApplied(b, ds)
    decreases |cs|
  {
    var all := cs + ShiftChanges(ds, |a|);
    AllAppliedShifted(a, b, ds);
    assert Inside(a + b, all);
    if cs == [] {
      assert all == ShiftChanges(ds, |a|);
    } else {
      assert all[1..] == cs[1..] + ShiftChanges(ds, |a|);
      assert Inside(a, cs[1..]);
      AllAppliedInFront(a, b, cs[1..], ds);
      AppliedInFront(AllApplied(a, cs[1..]), AllApplied(b, ds), cs[0]);
      hide Applied;
    }
  }

  /** Changing each file is changing the project's bindings. */
  lemma {:induction false} AppliedEachIsGlobal(bss: seq<seq<Binding>>, css: seq<seq<Change>>)
    requires AllInside(bss, css)
    ensures Inside(Flatten(bss), Global(bss, css))
    ensures Flatten(AppliedEach(bss, css)) == AllApplied(Flatten(bss), Global(bss, css))
  {
    if bss != [] {
      assert AllInside(bss[1..], css[1..]);
      AppliedEachIsGlobal(bss[1..], css[1..]);
      assert AppliedEach(bss, css)[1..] == AppliedEach(bss[1..], css[1..]);
      AllAppliedInFront(bss[0], Flatten(bss[1..]), css[0], Global(bss[1..], css[1..]));
      hide AllApplied;
    } else {
      assert AppliedEach(bss, css) == [];
    }
  }

  // ---- a sound plan --------------------------------------------------------------

  function GlobalChange(bss: seq<seq<Binding>>, css: seq<seq<Change>>, f: nat, k: nat): Change
    requires f < |css| == |bss| && k < |css[f]|
  {
    ShiftChange(css[f][k], Offset(bss, f))
  }

  /** The variable a change sets. */
  function GlobalTarget(bss: seq<seq<Binding>>, css: seq<seq<Change>>, f: nat, k: nat): string
    requires f < |css| == |bss| && k < |css[f]|
  {
    TargetOf(Flatten(bss), GlobalChange(bss, css, f, k))
  }

  /** Every change takes effect in the whole project, and no two have one target. */
  ghost predicate Sound(process: set<string>, bss: seq<seq<Binding>>, css: seq<seq<Change>>) {
    && AllInside(bss, css)
    && (forall f, k :: 0 <= f < |css| && 0 <= k < |css[f]| ==>
          Effective(process, Flatten(bss), GlobalChange(bss, css, f, k)))
    && (forall f, k, g, m ::
          (0 <= f < |css| && 0 <= k < |css[f]| && 0 <= g < |css| && 0 <= m < |css[g]| && (f != g || k != m)) ==>
            GlobalTarget(bss, css, f, k) != GlobalTarget(bss, css, g, m))
  }

  /** Each file's changes in the order of its statements. */
  predicate EachAscending(css: seq<seq<Change>>) {
    forall f, k, m :: 0 <= f < |css| && 0 <= k < m < |css[f]| ==>
      css[f][k].index <= css[f][m].index && (css[f][k].SetValue? ==> css[f][k].index < css[f][m].index)
  }

  /** Where the `i`-th change of the project is. */
  lemma {:induction false} GlobalAt(bss: seq<seq<Binding>>, css: seq<seq<Change>>, i: nat) returns (f: nat, k: nat)
    requires |bss| == |css| && i < |Global(bss, css)|
    ensures f < |css| && k < |css[f]| && Global(bss, css)[i] == GlobalChange(bss, css, f, k)
    ensures i == CountBefore(css, f) + k
  {
    if i < |css[0]| {
      f, k := 0, i;
      assert ShiftChange(css[0][i], 0) == css[0][i];
    } else {
      var rest := Global(bss[1..], css[1..]);
      var g, m := GlobalAt(bss[1..], css[1..], i - |css[0]|);
      f, k := g + 1, m;
      assert Global(bss, css)[i] == ShiftChange(rest[i - |css[0]|], |bss[0]|);
    }
  }

  function CountBefore(css: seq<seq<Change>>, f: nat): nat
    requires f <= |css|
  {
    if f == 0 then 0 else |css[0]| + CountBefore(css[1..], f - 1)
  }

  lemma {:induction false} GlobalHas(bss: seq<seq<Binding>>, css: seq<seq<Change>>, f: nat, k: nat)
    requires |bss| == |css| && f < |css| && k < |css[f]|
    ensures CountBefore(css, f) + k < |Global(bss, css)|
    ensures Global(bss, css)[CountBefore(css, f) + k] == GlobalChange(bss, css, f, k)
  {
    if f > 0 {
      GlobalHas(bss[1..], css[1..], f - 1, k);
    } else {
      assert ShiftChange(css[0][k], 0) == css[0][k];
    }
  }

  lemma {:induction false} BeforeMonotone(css: seq<seq<Change>>, f: nat, g: nat)
    requires f < g <= |css|
    ensures CountBefore(css, f) + |css[f]| <= CountBefore(css, g)
  {
    if f > 0 {
      BeforeMonotone(css[1..], f - 1, g - 1);
    }
  }

  lemma SoundIsConsistent(process: set<string>, bss: seq<seq<Binding>>, css: seq<seq<Change>>)
    requires Sound(process, bss, css) && EachAscending(css)
    ensures Consistent(process, Flatten(bss), Global(bss, css))
  {
    hide Effective, TargetOf, Global, Flatten, CountBefore;
    var all := Global(bss, css);
    forall i | 0 <= i < |all|
      ensures Effective(process, Flatten(bss), all[i])
    {
      var f, k := GlobalAt(bss, css, i);
    }
    forall i, j | 0 <= i < j < |all|
      ensures TargetOf(Flatten(bss), all[i]) != TargetOf(Flatten(bss), all[j])
      ensures all[i].index <= all[j].index && (all[i].SetValue? ==> all[i].index < all[j].index)
    {
      var f, k := GlobalAt(bss, css, i);
      var g, m := GlobalAt(bss, css, j);
      GlobalOrder(bss, css, f, k, g, m);
      assert GlobalTarget(bss, css, f, k) != GlobalTarget(bss, css, g, m);
    }
  }

  lemma GlobalOrder(bss: seq<seq<Binding>>, css: seq<seq<Change>>, f: nat, k: nat, g: nat, m: nat)
    requires AllInside(bss, css) && EachAscending(css)
    requires f < |css| && k < |css[f]| && g < |css| && m < |css[g]| && CountBefore(css, f) + k < CountBefore(css, g) + m
    ensures var c, d := GlobalChange(bss, css, f, k), GlobalChange(bss, css, g, m);
      c.index <= d.index && (c.SetValue? ==> c.index < d.index)
    ensures f != g || k != m
  {
    if g < f {
      BeforeMonotone(css, g, f);
      assert false;
    } else if f < g {
      OffsetMonotone(bss, f, g);
      assert Inside(bss[f], css[f]);
    }
  }

  /** Reordering or dropping changes within files keeps a plan sound. */
  lemma SoundPart(process: set<string>, bss: seq<seq<Binding>>, css: seq<seq<Change>>, part: seq<seq<Change>>)
    requires Sound(process, bss, css) && |part| == |css|
    requires forall f :: 0 <= f < |css| ==> multiset(part[f]) <= multiset(css[f])
    ensures Sound(process, bss, part)
  {
    hide Effective, TargetOf, Flatten, Offset;
    forall f, k | 0 <= f < |part| && 0 <= k < |part[f]|
      ensures part[f][k].index <= |bss[f]| && (part[f][k].SetValue? ==> part[f][k].index < |bss[f]|)
      ensures Effective(process, Flatten(bss), GlobalChange(bss, part, f, k))
    {
      var j := PlaceOf(part[f], css[f], k);
      assert Inside(bss[f], css[f]);
      assert GlobalChange(bss, part, f, k) == GlobalChange(bss, css, f, j);
    }
    assert AllInside(bss, part);
    forall f, k, g, m | 0 <= f < |part| && 0 <= k < |part[f]| && 0 <= g < |part| && 0 <= m < |part[g]| && (f != g || k != m)
      ensures GlobalTarget(bss, part, f, k) != GlobalTarget(bss, part, g, m)
    {
      if f == g && part[f][k] == part[f][m] {
        var a, b := if k < m then k else m, if k < m then m else k;
        TwoPlacesOf(part[f], css[f], a, b);
        var i, j :| 0 <= i < j < |css[f]| && css[f][i] == css[f][j] == part[f][a];
        SoundHasNoTwins(process, bss, css, f, i, j);
        assert false;
      } else {
        var i := PlaceOf(part[f], css[f], k);
        var j := PlaceOf(part[g], css[g], m);
        assert GlobalTarget(bss, css, f, i) != GlobalTarget(bss, css, g, j);
      }
    }
  }

  lemma SoundHasNoTwins(process: set<string>, bss: seq<seq<Binding>>, css: seq<seq<Change>>, f: nat, i: nat, j: nat)
    requires Sound(process, bss, css) && f < |css| && i < j < |css[f]|
    ensures css[f][i] != css[f][j]
  {
    assert GlobalTarget(bss, css, f, i) != GlobalTarget(bss, css, f, j);
  }

  lemma PlaceOf(part: seq<Change>, cs: seq<Change>, k: nat) returns (j: nat)
    requires multiset(part) <= multiset(cs) && k < |part|
    ensures j < |cs| && cs[j] == part[k]
  {
    assert part[k] in multiset(part);
    assert part[k] in multiset(cs);
    j :| j < |cs| && cs[j] == part[k];
  }

  lemma TwoPlacesOf(part: seq<Change>, cs: seq<Change>, a: nat, b: nat)
    requires multiset(part) <= multiset(cs) && a < b < |part| && part[a] == part[b]
    ensures exists i, j :: 0 <= i < j < |cs| && cs[i] == cs[j] == part[a]
  {
    var c := part[a];
    assert part == part[..a] + [c] + part[a + 1..b] + [c] + part[b + 1..];
    assert multiset(part)[c] >= 2;
    TwiceMeansTwoPlaces(cs, c);
    var i, j :| 0 <= i < j < |cs| && cs[i] == cs[j] == c;
    assert cs[i] == cs[j] == part[a];
  }

  lemma {:induction false} KeptIsPart(cs: seq<Change>, reverting: set<string>)
    ensures multiset(KeptChanges(cs, reverting)) <= multiset(cs)
  {
    hide Needed;
    if cs != [] {
      KeptIsPart(cs[..|cs| - 1], reverting);
      assert cs == cs[..|cs| - 1] + [cs[|cs| - 1]];
    }
  }

  // ---- what the environment becomes ---------------------------------------------------

  predicate SameAt(after: Environment, before: Environment, name: string) {
    (name in after <==> name in before) && (name in before ==> after[name] == before[name])
  }

  predicate IsSet(after: Environment, name: string, source: Source) {
    name in after && after[name] == source
  }

  lemma {:induction false} WithTargetsAt(m: Environment, bs: seq<Binding>, cs: seq<Change>, name: string)
    requires forall i, j :: 0 <= i < j < |cs| ==> TargetOf(bs, cs[i]) != TargetOf(bs, cs[j])
    ensures forall i :: 0 <= i < |cs| ==> IsSet(WithTargets(m, bs, cs), TargetOf(bs, cs[i]), SourceOf(bs, cs[i]))
    ensures name !in Targets(bs, cs) ==> SameAt(WithTargets(m, bs, cs), m, name)
  {
    hide TargetOf, SourceOf;
    if cs != [] {
      assert forall i :: 0 <= i < |cs| - 1 ==> cs[1..][i] == cs[i + 1];
      WithTargetsAt(m, bs, cs[1..], name);
      assert TargetOf(bs, cs[0]) in Targets(bs, cs);
      assert forall i :: 0 <= i < |cs| - 1 ==> TargetOf(bs, cs[1..][i]) in Targets(bs, cs);
      forall i | 0 <= i < |cs|
        ensures IsSet(WithTargets(m, bs, cs), TargetOf(bs, cs[i]), SourceOf(bs, cs[i]))
      {
        if i > 0 {
          assert cs[1..][i - 1] == cs[i];
        }
      }
    }
  }

  /** The variables a plan sets. */
  ghost predicate IsTarget(bss: seq<seq<Binding>>, css: seq<seq<Change>>, name: string)
    requires |bss| == |css|
  {
    exists f, k :: 0 <= f < |css| && 0 <= k < |css[f]| && GlobalTarget(bss, css, f, k) == name
  }

  /** `after` is `before` with the plan's variables set, and nothing else. */
  ghost predicate SetsExactly(bss: seq<seq<Binding>>, css: seq<seq<Change>>, before: Environment, after: Environment)
    requires |bss| == |css|
  {
    && (forall f, k :: 0 <= f < |css| && 0 <= k < |css[f]| ==>
          IsSet(after, GlobalTarget(bss, css, f, k), SourceOf(Flatten(bss), GlobalChange(bss, css, f, k))))
    && (forall name :: !IsTarget(bss, css, name) ==> SameAt(after, before, name))
  }

  lemma TargetsAreGlobal(bss: seq<seq<Binding>>, css: seq<seq<Change>>, name: string)
    requires |bss| == |css| && name in Targets(Flatten(bss), Global(bss, css))
    ensures IsTarget(bss, css, name)
  {
    hide TargetOf, Flatten, Global;
    var i :| 0 <= i < |Global(bss, css)| && TargetOf(Flatten(bss), Global(bss, css)[i]) == name;
    var f, k := GlobalAt(bss, css, i);
    assert GlobalTarget(bss, css, f, k) == name;
  }

  lemma PlanSetsExactly(process: set<string>, bss: seq<seq<Binding>>, css: seq<seq<Change>>)
    requires Sound(process, bss, css) && EachAscending(css)
    ensures SetsExactly(bss, css, Eval(process, Flatten(bss)), Eval(process, Flatten(AppliedEach(bss, css))))
  {
    hide Effective, TargetOf, SourceOf, Eval, Flatten, Global, AllApplied, WithTargets, GlobalChange, Offset;
    SoundIsConsistent(process, bss, css);
    AppliedEachIsGlobal(bss, css);
    var bs, cs := Flatten(bss), Global(bss, css);
    var before, after := Eval(process, bs), Eval(process, Flatten(AppliedEach(bss, css)));
    EvalAll(process, bs, cs);
    assert after == WithTargets(before, bs, cs);
    ConsistentDistinct(process, bs, cs);
    forall f, k | 0 <= f < |css| && 0 <= k < |css[f]|
      ensures IsSet(after, GlobalTarget(bss, css, f, k), SourceOf(Flatten(bss), GlobalChange(bss, css, f, k)))
    {
      GlobalHas(bss, css, f, k);
      WithTargetsAt(before, bs, cs, "");
      assert TargetOf(bs, cs[CountBefore(css, f) + k]) in after;
    }
    forall name | !IsTarget(bss, css, name)
      ensures SameAt(after, before, name)
    {
      if name in Targets(bs, cs) {
        TargetsAreGlobal(bss, css, name);
        assert false;
      }
      WithTargetsAt(before, bs, cs, name);
    }
  }

  lemma ConsistentDistinct(process: set<string>, bs: seq<Binding>, cs: seq<Change>)
    requires Consistent(process, bs, cs)
    ensures forall i, j :: 0 <= i < j < |cs| ==> TargetOf(bs, cs[i]) != TargetOf(bs, cs[j])
  {
  }

  // ---- the files themselves --------------------------------------------------------------

  /** A file, what it declares, and the changes planned to it, in plan order. */
  datatype FilePlan = FilePlan(data: string, sts: seq<Statement>, changes: seq<Change>)

  ghost predicate WellPlanned(sc: Scanner, p: FilePlan) {
    && sc.Scan(BodyOf(p.data)) == Ok(p.sts) && AllPlannable(sc, BodyOf(p.data), p.sts, p.changes)
    && LeadsFirst(BodyOf(p.data), p.sts, p.changes)
  }

  /** Whether the end of a file holds what a revert of `reverting` leaves appended to it. */
  ghost predicate EndHolds(sc: Scanner, p: FilePlan, reverting: set<string>) {
    TailHolds(sc, BodyOf(p.data), p.sts, KeptChanges(p.changes, reverting))
  }

  function Declared(ps: seq<FilePlan>): (r: seq<seq<Binding>>)
    ensures |r| == |ps| && forall f :: 0 <= f < |ps| ==> r[f] == Bindings(BodyOf(ps[f].data), ps[f].sts)
  {
    seq(|ps|, f requires 0 <= f < |ps| => Bindings(BodyOf(ps[f].data), ps[f].sts))
  }

  /** The changes a revert of `reverting` keeps, file by file, in text order. */
  function KeptInTextOrder(ps: seq<FilePlan>, reverting: set<string>): (r: seq<seq<Change>>)
    ensures |r| == |ps|
    ensures forall f :: 0 <= f < |ps| ==> r[f] == InTextOrder(ps[f].sts, KeptChanges(ps[f].changes, reverting))
  {
    seq(|ps|, f requires 0 <= f < |ps| => InTextOrder(ps[f].sts, KeptChanges(ps[f].changes, reverting)))
  }

  function Planning(ps: seq<FilePlan>): (r: seq<seq<Change>>)
    ensures |r| == |ps| && forall f :: 0 <= f < |ps| ==> r[f] == ps[f].changes
  {
    seq(|ps|, f requires 0 <= f < |ps| => ps[f].changes)
  }

  ghost predicate SoundPlan(sc: Scanner, process: set<string>, ps: seq<FilePlan>) {
    && (forall f :: 0 <= f < |ps| ==> WellPlanned(sc, ps[f]))
    && Sound(process, Declared(ps), Planning(ps))
  }

  /** The bytes of a file after a revert of `reverting`. */
  ghost predicate LeftBy(p: FilePlan, reverting: set<string>, text: string) {
    var edits := SortedByStart(KeptEdits(FileEdits(p.data, p.sts, p.changes), reverting));
    InRange(p.data, edits) && Disjoint(edits) && text == Rendered(p.data, edits)
  }

  lemma SoundIsDistinct(process: set<string>, bss: seq<seq<Binding>>, css: seq<seq<Change>>, f: nat)
    requires Sound(process, bss, css) && f < |css|
    ensures DistinctTargets(css[f])
  {
    hide Effective, Flatten, Offset;
    forall i, j | 0 <= i < j < |css[f]| && css[f][i].SetValue? && css[f][j].SetValue?
      ensures css[f][i].index != css[f][j].index
    {
      assert GlobalTarget(bss, css, f, i) != GlobalTarget(bss, css, f, j);
    }
  }

  lemma PairAscends(sc: Scanner, s: string, sts: seq<Statement>, c: Change, d: Change)
    requires sc.Scan(s) == Ok(sts) && Plannable(sc, s, sts, c) && Plannable(sc, s, sts, d)
    requires EditOf(sts, c).end <= EditOf(sts, d).start && (c.SetValue? && d.SetValue? ==> c.index != d.index)
    requires IsAppend(s, c) ==> IsAppend(s, d)
    ensures c.index <= d.index && (c.SetValue? ==> c.index < d.index)
  {
    hide sc.Scan, Slot, InsertOk, EditOf, ValidDecl;
    if !IsAppend(s, c) && !IsAppend(s, d) {
      ChangesInOrder(sc, s, sts, c, d);
    }
  }

  lemma ArrangedAscends(sc: Scanner, s: string, sts: seq<Statement>, cs: seq<Change>)
    requires sc.Scan(s) == Ok(sts) && Arranged(sc, s, sts, cs) && TailHolds(sc, s, sts, cs)
    ensures forall k, m :: 0 <= k < m < |cs| ==>
      cs[k].index <= cs[m].index && (cs[k].SetValue? ==> cs[k].index < cs[m].index)
  {
    hide sc.Scan, Plannable, EditOf, LeadsFirst, IsAppend;
    forall k, m | 0 <= k < m < |cs|
      ensures cs[k].index <= cs[m].index && (cs[k].SetValue? ==> cs[k].index < cs[m].index)
    {
      assert EditsOf(sts, cs)[k].end <= EditsOf(sts, cs)[m].start;
      PlannableEdit(sc, s, sts, cs[k]);
      PlannableEdit(sc, s, sts, cs[m]);
      if IsAppend(s, cs[k]) {
        BehindAppend(sc, s, sts, cs, k, m);
      }
      PairAscends(sc, s, sts, cs[k], cs[m]);
    }
  }

  /** Behind an append there are only appends, when the end of the text holds them. */
  lemma BehindAppend(sc: Scanner, s: string, sts: seq<Statement>, cs: seq<Change>, k: nat, m: nat)
    requires k < |cs| && m < |cs| && IsAppend(s, cs[k]) && TailHolds(sc, s, sts, cs) && Plannable(sc, s, sts, cs[m])
    requires EditOf(sts, cs[m]).start == |s|
    ensures IsAppend(s, cs[m])
  {
    hide EndOf, InsertOk;
    assert cs[k] in cs && cs[m] in cs;
    assert HasAppend(s, cs);
    assert AtEnd(s, sts, cs[m]);
  }

  lemma KeptTextOrderIsPart(process: set<string>, ps: seq<FilePlan>, reverting: set<string>)
    requires Sound(process, Declared(ps), Planning(ps))
    ensures Sound(process, Declared(ps), KeptInTextOrder(ps, reverting))
  {
    hide Sound;
    forall f | 0 <= f < |ps|
      ensures multiset(KeptInTextOrder(ps, reverting)[f]) <= multiset(Planning(ps)[f])
    {
      KeptIsPart(ps[f].changes, reverting);
    }
    SoundPart(process, Declared(ps), Planning(ps), KeptInTextOrder(ps, reverting));
  }

  /** One file of the project, after a revert: what it declares, and that its changes are in statement order. */
  lemma KeptFile(sc: Scanner, p: FilePlan, reverting: set<string>, text: string)
    requires WellPlanned(sc, p) && DistinctTargets(p.changes) && LeftBy(p, reverting, text) && EndHolds(sc, p, reverting)
    ensures var cs := InTextOrder(p.sts, KeptChanges(p.changes, reverting));
      && Inside(Bindings(BodyOf(p.data), p.sts), cs)
      && FileBindings(sc, text) == Ok(AllApplied(Bindings(BodyOf(p.data), p.sts), cs))
      && (forall k, m :: 0 <= k < m < |cs| ==>
            cs[k].index <= cs[m].index && (cs[k].SetValue? ==> cs[k].index < cs[m].index))
  {
    hide sc.Scan, AllPlannable, DistinctTargets, FileEdits, Rendered, AllApplied, FileBindings, SortedByStart, InTextOrder,
      TailHolds, LeadsFirst, Arranged, InRange, Disjoint, NoOverlap, NoneCrossed, Bindings, Inside, KeptChanges;
    var body, kept := BodyOf(p.data), KeptChanges(p.changes, reverting);
    KeptEditsRewrite(sc, p.data, p.sts, p.changes, reverting);
    KeptIsPlannable(sc, body, p.sts, p.changes, reverting);
    TextOrderIsArranged(sc, body, p.sts, kept);
    ChangesHave(InTextOrder(p.sts, kept), kept);
    SameTail(sc, body, p.sts, kept, InTextOrder(p.sts, kept));
    ArrangedAscends(sc, body, p.sts, InTextOrder(p.sts, kept));
  }

  /**
    Whichever services are reverted, the env files left on disk all scan, and the
    environment they give is the original one with exactly the kept variables set, as
    long as the end of each file holds what is left appended to it.
   */
  lemma ProjectLeft(sc: Scanner, process: set<string>, ps: seq<FilePlan>, reverting: set<string>, texts: seq<string>)
    returns (bss: seq<seq<Binding>>)
    requires SoundPlan(sc, process, ps)
    requires |texts| == |ps| && forall f :: 0 <= f < |ps| ==> LeftBy(ps[f], reverting, texts[f]) && EndHolds(sc, ps[f], reverting)
    ensures |bss| == |texts| && forall f :: 0 <= f < |texts| ==> FileBindings(sc, texts[f]) == Ok(bss[f])
    ensures SetsExactly(Declared(ps), KeptInTextOrder(ps, reverting),
                        Eval(process, Flatten(Declared(ps))), Eval(process, Flatten(bss)))
  {
    hide Sound, WellPlanned, LeftBy, EndHolds, FileBindings, AllApplied, SetsExactly, Eval, Flatten, Inside;
    var before, css := Declared(ps), KeptInTextOrder(ps, reverting);
    KeptTextOrderIsPart(process, ps, reverting);
    SoundInside(process, before, css);
    bss := AppliedEach(before, css);
    forall f | 0 <= f < |ps|
      ensures FileBindings(sc, texts[f]) == Ok(bss[f])
      ensures forall k, m :: 0 <= k < m < |css[f]| ==>
        css[f][k].index <= css[f][m].index && (css[f][k].SetValue? ==> css[f][k].index < css[f][m].index)
    {
      SoundIsDistinct(process, before, Planning(ps), f);
      KeptFile(sc, ps[f], reverting, texts[f]);
    }
    PlanSetsExactly(process, before, css);
  }

  lemma SoundInside(process: set<string>, bss: seq<seq<Binding>>, css: seq<seq<Change>>)
    requires Sound(process, bss, css)
    ensures AllInside(bss, css)
  {
  }
}
