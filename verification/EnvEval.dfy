/**
  What the project's env files say together. The files are read in load order into
  one environment: an assignment sets its key, and a bare `KEY` line declares KEY
  only when the process or an earlier statement already has it. Values are compared
  as raw tokens; expansion is compose's own and is not modelled.
 */
module EnvEval {
  import opened EnvScan
  import opened EnvRewrite

  /** Where a key's value comes from. */
  datatype Source = FromProcess | FromFile(quote: char, text: string)

  type Environment = map<string, Source>

  function Step(process: set<string>, m: Environment, b: Binding): Environment {
    if !b.inherited then m[b.key := FromFile(b.quote, b.text)]
    else if b.key in process then m[b.key := FromProcess]
    else m
  }

  /** The environment after `bs`, from `m`. */
  function EvalFrom(process: set<string>, m: Environment, bs: seq<Binding>): Environment
    decreases |bs|
  {
    if bs == [] then m else EvalFrom(process, Step(process, m, bs[0]), bs[1..])
  }

  function Eval(process: set<string>, bs: seq<Binding>): Environment {
    EvalFrom(process, map[], bs)
  }

  lemma {:induction false} EvalConcat(process: set<string>, m: Environment, a: seq<Binding>, b: seq<Binding>)
    ensures EvalFrom(process, m, a + b) == EvalFrom(process, EvalFrom(process, m, a), b)
    decreases |a|
  {
    if a == [] {
      assert a + b == b;
    } else {
      assert (a + b)[1..] == a[1..] + b;
      EvalConcat(process, Step(process, m, a[0]), a[1..], b);
    }
  }

  /** No statement mentions `name`. */
  predicate Unmentioned(bs: seq<Binding>, name: string) {
    forall i :: 0 <= i < |bs| ==> bs[i].key != name
  }

  /** No statement assigns `name`; bare lines may mention it. */
  predicate Unassigned(bs: seq<Binding>, name: string) {
    forall i :: 0 <= i < |bs| && bs[i].key == name ==> bs[i].inherited
  }

  /** The `i`-th binding is the assignment compose takes its key from. */
  predicate LastAssignment(bs: seq<Binding>, i: nat) {
    i < |bs| && !bs[i].inherited && Unmentioned(bs[i + 1..], bs[i].key)
  }

  /** Statements that do not assign `name` do not see what it is, once it is there. */
  lemma {:induction false} EvalWith(process: set<string>, m: Environment, bs: seq<Binding>, name: string, v: Source)
    requires Unassigned(bs, name) && name !in process
    ensures EvalFrom(process, m[name := v], bs) == EvalFrom(process, m, bs)[name := v]
    decreases |bs|
  {
    if bs != [] {
      var b := bs[0];
      assert Step(process, m[name := v], b) == Step(process, m, b)[name := v];
      assert Unassigned(bs[1..], name);
      EvalWith(process, Step(process, m, b), bs[1..], name, v);
    }
  }

  /** Setting the assignment a key is taken from changes that key and nothing else. */
  lemma EvalSet(process: set<string>, bs: seq<Binding>, i: nat, v: string)
    requires LastAssignment(bs, i) && bs[i].key !in process
    ensures Eval(process, bs[i := bs[i].(text := v)]) == Eval(process, bs)[bs[i].key := FromFile(bs[i].quote, v)]
  {
    hide *;
    LastParts(bs, i);
    var b := bs[i];
    var front, rest := bs[..i], bs[i + 1..];
    var m := EvalFrom(process, map[], front);
    SplitAt(bs, i, b.(text := v));
    EvalThrough(process, front, b, rest);
    EvalThrough(process, front, b.(text := v), rest);
    EvalWith(process, m[b.key := FromFile(b.quote, b.text)], rest, b.key, FromFile(b.quote, v));
    SetTwice(m, b.key, FromFile(b.quote, b.text), FromFile(b.quote, v));
  }

  lemma SplitAt(bs: seq<Binding>, i: nat, b: Binding)
    requires i < |bs|
    ensures bs == bs[..i] + ([bs[i]] + bs[i + 1..]) && bs[i := b] == bs[..i] + ([b] + bs[i + 1..])
  {
  }

  lemma LastParts(bs: seq<Binding>, i: nat)
    requires LastAssignment(bs, i)
    ensures i < |bs| && !bs[i].inherited && Unassigned(bs[i + 1..], bs[i].key)
  {
  }

  lemma SetTwice(m: Environment, name: string, a: Source, b: Source)
    ensures m[name := a][name := b] == m[name := b]
  {
  }

  /** Evaluating through an assignment. */
  lemma EvalThrough(process: set<string>, front: seq<Binding>, b: Binding, rest: seq<Binding>)
    requires !b.inherited && b.key !in process
    ensures Eval(process, front + ([b] + rest))
         == EvalFrom(process, EvalFrom(process, map[], front)[b.key := FromFile(b.quote, b.text)], rest)
  {
    hide EvalFrom;
    var m := EvalFrom(process, map[], front);
    EvalConcat(process, map[], front, [b] + rest);
    EvalConcat(process, m, [b], rest);
    EvalOne(process, m, b);
  }

  lemma EvalOne(process: set<string>, m: Environment, b: Binding)
    ensures EvalFrom(process, m, [b]) == Step(process, m, b)
  {
    assert [b][1..] == [];
  }

  /** Declaring a key nothing assigns adds that key and nothing else. */
  lemma EvalDeclare(process: set<string>, bs: seq<Binding>, k: nat, name: string, v: string)
    requires k <= |bs| && Unassigned(bs, name) && name !in process
    ensures Eval(process, bs[..k] + [Binding(name, false, NO_QUOTE, v)] + bs[k..])
         == Eval(process, bs)[name := FromFile(NO_QUOTE, v)]
  {
    var b := Binding(name, false, NO_QUOTE, v);
    var front, rest := bs[..k], bs[k..];
    var m := EvalFrom(process, map[], front);
    assert bs == front + rest;
    assert front + [b] + rest == front + ([b] + rest);
    EvalConcat(process, map[], front, rest);
    EvalConcat(process, map[], front, [b] + rest);
    EvalConcat(process, m, [b], rest);
    EvalOne(process, m, b);
    EvalWith(process, m, rest, name, FromFile(NO_QUOTE, v));
  }

  // ---- a whole plan --------------------------------------------------------------

  function TargetOf(bs: seq<Binding>, c: Change): string {
    match c
    case SetValue(i, _, _) => if i < |bs| then bs[i].key else ""
    case Declare(_, _, name, _, _, _, _) => name
  }

  function SourceOf(bs: seq<Binding>, c: Change): Source {
    match c
    case SetValue(i, v, _) => FromFile(if i < |bs| then bs[i].quote else NO_QUOTE, v)
    case Declare(_, _, _, v, _, _, _) => FromFile(NO_QUOTE, v)
  }

  /** A change to the assignment its key is taken from, or a declaration of a key nothing assigns. */
  predicate Effective(process: set<string>, bs: seq<Binding>, c: Change) {
    && TargetOf(bs, c) !in process
    && c.index <= |bs|
    && match c
       case SetValue(i, _, _) => LastAssignment(bs, i)
       case Declare(_, _, name, _, _, _, _) => Unassigned(bs, name)
  }

  /** Effective changes to different keys, in text order. */
  ghost predicate Consistent(process: set<string>, bs: seq<Binding>, cs: seq<Change>) {
    && (forall i :: 0 <= i < |cs| ==> Effective(process, bs, cs[i]))
    && (forall i, j :: 0 <= i < j < |cs| ==> TargetOf(bs, cs[i]) != TargetOf(bs, cs[j]))
    && (forall i, j :: 0 <= i < j < |cs| ==> cs[i].index <= cs[j].index)
    && (forall i, j :: 0 <= i < j < |cs| && cs[i].SetValue? ==> cs[i].index < cs[j].index)
  }

  /** The environment with each target set. */
  function WithTargets(m: Environment, bs: seq<Binding>, cs: seq<Change>): Environment {
    if cs == [] then m
    else WithTargets(m, bs, cs[1..])[TargetOf(bs, cs[0]) := SourceOf(bs, cs[0])]
  }

  /** Applying later changes leaves everything before them, and mentions no new key but their targets. */
  ghost predicate Extends(bs: seq<Binding>, r: seq<Binding>, k: nat, targets: set<string>) {
    && k <= |bs| <= |r| && r[..k] == bs[..k]
    && (forall j :: k <= j < |r| ==>
          || (r[j].key in targets)
          || (exists i :: k <= i < |bs| && bs[i].key == r[j].key && bs[i].inherited == r[j].inherited))
  }

  function Targets(bs: seq<Binding>, cs: seq<Change>): set<string> {
    set i | 0 <= i < |cs| :: TargetOf(bs, cs[i])
  }

  function FirstIndex(bs: seq<Binding>, cs: seq<Change>): nat {
    if cs == [] then |bs| else cs[0].index
  }

  lemma RestConsistent(process: set<string>, bs: seq<Binding>, cs: seq<Change>)
    requires Consistent(process, bs, cs) && cs != []
    ensures Consistent(process, bs, cs[1..]) && Effective(process, bs, cs[0])
    ensures TargetOf(bs, cs[0]) !in Targets(bs, cs[1..])
    ensures Targets(bs, cs) == Targets(bs, cs[1..]) + {TargetOf(bs, cs[0])}
    ensures FirstIndex(bs, cs) <= FirstIndex(bs, cs[1..]) <= |bs|
    ensures cs[0].SetValue? ==> cs[0].index < FirstIndex(bs, cs[1..])
  {
    hide Effective, TargetOf;
    assert forall i :: 0 <= i < |cs| - 1 ==> cs[1..][i] == cs[i + 1];
    assert Effective(process, bs, cs[0]);
    if |cs| > 1 {
      assert Effective(process, bs, cs[1]);
    }
    IndexInside(process, bs, cs[0]);
    if |cs| > 1 {
      IndexInside(process, bs, cs[1]);
    }
    assert forall t :: t in Targets(bs, cs) ==> t == TargetOf(bs, cs[0]) || t in Targets(bs, cs[1..]) by {
      forall i | 0 <= i < |cs|
        ensures TargetOf(bs, cs[i]) == TargetOf(bs, cs[0]) || TargetOf(bs, cs[i]) in Targets(bs, cs[1..])
      {
        if i > 0 { assert cs[1..][i - 1] == cs[i]; }
      }
    }
  }

  lemma IndexInside(process: set<string>, bs: seq<Binding>, c: Change)
    requires Effective(process, bs, c)
    ensures c.index <= |bs| && (c.SetValue? ==> c.index < |bs|)
  {
  }

  lemma ConsistentInside(process: set<string>, bs: seq<Binding>, cs: seq<Change>)
    requires Consistent(process, bs, cs)
    ensures forall i :: 0 <= i < |cs| ==> cs[i].index <= |bs| && (cs[i].SetValue? ==> cs[i].index < |bs|)
  {
    forall i | 0 <= i < |cs|
      ensures cs[i].index <= |bs| && (cs[i].SetValue? ==> cs[i].index < |bs|)
    {
      IndexInside(process, bs, cs[i]);
    }
  }

  lemma ExtendsStep(process: set<string>, bs: seq<Binding>, r: seq<Binding>, c: Change, k: nat, targets: set<string>)
    requires Extends(bs, r, k, targets) && Effective(process, bs, c)
    requires if c.SetValue? then c.index < k else c.index <= k
    ensures c.index <= |r| && (c.SetValue? ==> c.index < |r|)
    ensures Extends(bs, Applied(r, c), c.index, targets + {TargetOf(bs, c)})
  {
    hide Effective;
    IndexInside(process, bs, c);
    var i := c.index;
    var t := Applied(r, c);
    ExtendsFront(bs, r, k, targets, i);
    AppliedAt(r, c);
    hide Applied, Extends;
    forall j | i <= j < |t|
      ensures t[j].key in targets + {TargetOf(bs, c)} || Known(bs, i, t[j])
    {
      if c.Declare? && j == i {
        DeclaredTarget(bs, c);
      }
    }
    StillExtends(bs, t, i, targets + {TargetOf(bs, c)});
  }

  /** A statement of `bs` from the `i`-th on has this one's key and form. */
  ghost predicate Known(bs: seq<Binding>, i: nat, b: Binding) {
    exists m :: i <= m < |bs| && bs[m].key == b.key && bs[m].inherited == b.inherited
  }

  lemma DeclaredTarget(bs: seq<Binding>, c: Change)
    requires c.Declare?
    ensures TargetOf(bs, c) == c.name
  {
  }

  lemma AppliedAt(r: seq<Binding>, c: Change)
    requires c.index <= |r| && (c.SetValue? ==> c.index < |r|)
    ensures Applied(r, c)[..c.index] == r[..c.index]
    ensures c.SetValue? ==> |Applied(r, c)| == |r|
    ensures c.SetValue? ==>
      forall j :: 0 <= j < |r| ==> Applied(r, c)[j].key == r[j].key && Applied(r, c)[j].inherited == r[j].inherited
    ensures c.Declare? ==> |Applied(r, c)| == |r| + 1 && Applied(r, c)[c.index].key == c.name
    ensures c.Declare? ==> forall j :: c.index < j <= |r| ==> Applied(r, c)[j] == r[j - 1]
  {
  }

  lemma ExtendsFront(bs: seq<Binding>, r: seq<Binding>, k: nat, targets: set<string>, i: nat)
    requires Extends(bs, r, k, targets) && i <= k
    ensures k <= |bs| <= |r| && r[..i] == bs[..i]
    ensures forall j :: i <= j < |r| ==> r[j].key in targets || Known(bs, i, r[j])
  {
    assert r[..i] == r[..k][..i] == bs[..k][..i] == bs[..i];
    forall j | i <= j < |r|
      ensures r[j].key in targets || Known(bs, i, r[j])
    {
      if j < k {
        assert r[j] == r[..k][j] == bs[..k][j] == bs[j];
      }
    }
  }

  lemma StillExtends(bs: seq<Binding>, t: seq<Binding>, i: nat, targets: set<string>)
    requires i <= |bs| <= |t| && t[..i] == bs[..i]
    requires forall j :: i <= j < |t| ==> t[j].key in targets || Known(bs, i, t[j])
    ensures Extends(bs, t, i, targets)
  {
  }

  lemma StillEffective(process: set<string>, bs: seq<Binding>, r: seq<Binding>, c: Change, k: nat, targets: set<string>)
    requires Extends(bs, r, k, targets) && Effective(process, bs, c) && TargetOf(bs, c) !in targets
    requires if c.SetValue? then c.index < k else c.index <= k
    ensures Effective(process, r, c) && TargetOf(r, c) == TargetOf(bs, c) && SourceOf(r, c) == SourceOf(bs, c)
  {
    assert forall j :: 0 <= j < k ==> r[j] == r[..k][j] == bs[..k][j] == bs[j];
    var name := TargetOf(bs, c);
    match c
    case SetValue(i, _, _) =>
      forall j | i < j < |r|
        ensures r[j].key != name
      {
        if j < k {
          assert bs[i + 1..][j - i - 1] == bs[j];
        } else if r[j].key !in targets {
          var m :| k <= m < |bs| && bs[m].key == r[j].key && bs[m].inherited == r[j].inherited;
          assert bs[i + 1..][m - i - 1] == bs[m];
        }
      }
    case Declare(_, _, _, _, _, _, _) =>
  }

  /** Evaluating a rewritten file sets every planned variable and changes no other key. */
  lemma {:induction false} EvalAll(process: set<string>, bs: seq<Binding>, cs: seq<Change>)
    requires Consistent(process, bs, cs)
    ensures forall i :: 0 <= i < |cs| ==> cs[i].index <= |bs| && (cs[i].SetValue? ==> cs[i].index < |bs|)
    ensures Extends(bs, AllApplied(bs, cs), FirstIndex(bs, cs), Targets(bs, cs))
    ensures Eval(process, AllApplied(bs, cs)) == WithTargets(Eval(process, bs), bs, cs)
    decreases |cs|
  {
    ConsistentInside(process, bs, cs);
    if cs != [] {
      hide Consistent, Extends, Effective, TargetOf, SourceOf, Applied, Targets, Eval;
      RestConsistent(process, bs, cs);
      EvalAll(process, bs, cs[1..]);
      var r := AllApplied(bs, cs[1..]);
      var k := FirstIndex(bs, cs[1..]);
      var targets := Targets(bs, cs[1..]);
      StillEffective(process, bs, r, cs[0], k, targets);
      ExtendsStep(process, bs, r, cs[0], k, targets);
      EvalChange(process, r, cs[0]);
    } else {
      assert bs[..|bs|] == bs;
    }
  }

  lemma EvalChange(process: set<string>, bs: seq<Binding>, c: Change)
    requires Effective(process, bs, c)
    ensures c.index <= |bs| && (c.SetValue? ==> c.index < |bs|)
    ensures Eval(process, Applied(bs, c)) == Eval(process, bs)[TargetOf(bs, c) := SourceOf(bs, c)]
  {
    match c
    case SetValue(i, v, _) => EvalSet(process, bs, i, v);
    case Declare(i, _, name, v, _, _, _) => EvalDeclare(process, bs, i, name, v);
  }
}
