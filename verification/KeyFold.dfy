/**
  Folding a key as JSON objects are bound (idempotency.go): ASCII upper-cased, every
  other rune replaced by the smallest rune of its case-folding orbit. Unicode's table
  is a parameter: `next` is unicode.SimpleFold and `orbit` the cycle it runs through.
 */
module KeyFold {
  import opened Json

  predicate Ascends(orbit: seq<int>) {
    forall i, j :: 0 <= i < j < |orbit| ==> orbit[i] < orbit[j]
  }

  predicate OrbitAt(next: int -> int, orbit: int -> seq<int>, r: int, i: nat) {
    && i < |orbit(r)| && orbit(r)[i] == r
    && next(r) == (if i + 1 < |orbit(r)| then orbit(r)[i + 1] else orbit(r)[0])
  }

  predicate InCycle(next: int -> int, orbit: int -> seq<int>, r: int) {
    exists i :: 0 <= i < |orbit(r)| && OrbitAt(next, orbit, r, i)
  }

  function Upper(r: int): int {
    if 'a' as int <= r <= 'z' as int then r - 32 else r
  }

  /** SimpleFold steps up through a rune's orbit, and from its largest rune to its smallest. */
  ghost predicate SimpleFold(next: int -> int, orbit: int -> seq<int>) {
    && (forall r :: Ascends(orbit(r)))
    && (forall r :: InCycle(next, orbit, r))
    && (forall r, s :: s in orbit(r) ==> orbit(s) == orbit(r))
    && (forall r :: 0 <= r < 0x80 ==> orbit(r) != [] && orbit(r)[0] == Upper(r))
  }

  /** The smallest rune of every orbit. */
  ghost function Folded(k: Name, orbit: int -> seq<int>): (r: Name)
    ensures |r| == |k|
  {
    seq(|k|, i requires 0 <= i < |k| => if orbit(k[i]) == [] then 0 else orbit(k[i])[0])
  }

  method FoldJSONKey(k: Name, next: int -> int, ghost orbit: int -> seq<int>) returns (b: Name)
    requires SimpleFold(next, orbit) && forall i :: 0 <= i < |k| ==> k[i] >= 0
    ensures b == Folded(k, orbit)
  {
    b := [];
    for i := 0 to |k|
      invariant b == Folded(k[..i], orbit)
    {
      assert k[..i + 1] == k[..i] + [k[i]];
      var r := k[i];
      assert InCycle(next, orbit, r);
      if r < 0x80 {
        if 'a' as int <= r && r <= 'z' as int {
          r := r - 32;
        }
        b := b + [r];
        continue;
      }
      r := Smallest(r, next, orbit);
      b := b + [r];
    }
    assert k[..|k|] == k;
  }

  /** foldJSONKey's inner loop: up the orbit until it wraps. */
  method Smallest(from: int, next: int -> int, ghost orbit: int -> seq<int>) returns (r: int)
    requires SimpleFold(next, orbit)
    ensures orbit(from) != [] && r == orbit(from)[0]
  {
    r := from;
    assert InCycle(next, orbit, r);
    ghost var i: nat :| OrbitAt(next, orbit, r, i);
    while true
      invariant OrbitAt(next, orbit, r, i) && orbit(r) == orbit(from)
      decreases |orbit(from)| - i
    {
      var r2 := next(r);
      StepUp(next, orbit, r, i);
      if r2 <= r {
        return r2;
      }
      r, i := r2, i + 1;
    }
  }

  lemma StepUp(next: int -> int, orbit: int -> seq<int>, r: int, i: nat)
    requires SimpleFold(next, orbit) && OrbitAt(next, orbit, r, i)
    ensures next(r) <= r ==> next(r) == orbit(r)[0]
    ensures next(r) > r ==> orbit(next(r)) == orbit(r) && OrbitAt(next, orbit, next(r), i + 1)
  {
    assert Ascends(orbit(r));
    var r2 := next(r);
    if r2 > r {
      assert r2 in orbit(r);
      assert orbit(r2) == orbit(r);
      assert InCycle(next, orbit, r2);
      var j :| 0 <= j < |orbit(r2)| && OrbitAt(next, orbit, r2, j);
      PlaceIsUnique(orbit(r), i + 1, j);
    }
  }

  lemma PlaceIsUnique(orbit: seq<int>, i: nat, j: nat)
    requires Ascends(orbit) && i < |orbit| && j < |orbit| && orbit[i] == orbit[j]
    ensures i == j
  {
  }

  /** Two keys fold to one exactly when they are equal rune by rune up to case folding. */
  lemma FoldedExactly(a: Name, b: Name, next: int -> int, orbit: int -> seq<int>)
    requires SimpleFold(next, orbit)
    ensures Folded(a, orbit) == Folded(b, orbit) <==>
      |a| == |b| && forall i :: 0 <= i < |a| ==> orbit(a[i]) == orbit(b[i])
  {
    if Folded(a, orbit) == Folded(b, orbit) {
      assert |a| == |Folded(a, orbit)| == |b|;
      forall i | 0 <= i < |a|
        ensures orbit(a[i]) == orbit(b[i])
      {
        assert Folded(a, orbit)[i] == Folded(b, orbit)[i];
        SameOrbit(a[i], b[i], next, orbit);
      }
    }
  }

  lemma SameOrbit(r: int, s: int, next: int -> int, orbit: int -> seq<int>)
    requires SimpleFold(next, orbit)
    ensures orbit(r) != [] && orbit(s) != [] && (orbit(r)[0] == orbit(s)[0] ==> orbit(r) == orbit(s))
  {
    assert InCycle(next, orbit, r) && InCycle(next, orbit, s);
    var x, y := orbit(r)[0], orbit(s)[0];
    assert x in orbit(r) && y in orbit(s);
    assert orbit(x) == orbit(r) && orbit(y) == orbit(s);
  }
}
