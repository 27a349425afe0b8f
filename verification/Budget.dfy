/**
  The time budgets of an update (stackengine.go). Durations are 64-bit counts of
  nanoseconds: `Wrap` is the arithmetic the source has.
 */
module Budgets {
  import opened Text

  const SECOND := 1_000_000_000
  const MINUTE := 60 * SECOND
  const RESERVE := 5 * MINUTE
  const ROLLBACK_SLACK := RESERVE
  const MIN_ROLLBACK := 10 * MINUTE
  const MIN_HEALTH := 30 * SECOND
  const MAX_BUDGET := 24 * 60 * MINUTE
  const TWO_63 := 0x8000_0000_0000_0000

  /** A signed 64-bit result. */
  function Wrap(x: int): int {
    (x + TWO_63) % (2 * TWO_63) - TWO_63
  }

  predicate Fits64(x: int) {
    -TWO_63 <= x < TWO_63
  }

  lemma WrapFits(x: int)
    ensures Fits64(Wrap(x))
    ensures Fits64(x) ==> Wrap(x) == x
  {
  }

  // ---- the clamp ------------------------------------------------------------------------

  /** What of the whole operation's budget is left for swap and health. */
  function Net(op: int): int {
    op - if RESERVE > op / 3 then op / 3 else RESERVE
  }

  datatype Clamped = Clamped(swap: int, health: int, clamped: bool)

  function ClampOf(op: int, swap: int, health: int): Clamped {
    if op <= 0 || Net(op) <= 0 || Wrap(swap + health) <= Net(op) then Clamped(swap, health, false)
    else
      var h0 := if health > Net(op) - MIN_HEALTH then Net(op) - MIN_HEALTH else health;
      var h := if h0 < MIN_HEALTH then MIN_HEALTH else h0;
      var s := if swap > Net(op) - h then Net(op) - h else swap;
      Clamped(if s < 0 then 0 else s, h, true)
  }

  /** clampBudget. */
  method ClampBudget(op: int, swap0: int, health0: int) returns (swap: int, health: int, clamped: bool)
    ensures Clamped(swap, health, clamped) == ClampOf(op, swap0, health0)
  {
    hide Wrap;
    swap, health := swap0, health0;
    if op <= 0 {
      return swap, health, false;
    }
    var reserve := RESERVE;
    if reserve > op / 3 {
      reserve := op / 3;
    }
    var budget := op - reserve;
    if budget <= 0 || Wrap(swap + health) <= budget {
      return swap, health, false;
    }
    if health > budget - MIN_HEALTH {
      health := budget - MIN_HEALTH;
    }
    if health < MIN_HEALTH {
      health := MIN_HEALTH;
    }
    if swap > budget - health {
      swap := budget - health;
    }
    if swap < 0 {
      swap := 0;
    }
    return swap, health, true;
  }

  /**
    With at least 30 seconds of net budget the pair fits it; swap never grows nor goes
    negative, and health yields only what swap cannot.
   */
  lemma ClampKeepsHealth(op: int, swap: int, health: int)
    requires Fits64(op) && 0 <= swap && 0 <= health && Fits64(swap + health) && op > 0 && Net(op) >= MIN_HEALTH
    ensures var c := ClampOf(op, swap, health);
      && c.swap + c.health <= Net(op) <= op
      && 0 <= c.swap <= swap && 0 <= c.health
      && (c.clamped <==> swap + health > Net(op))
      && (c.clamped ==> c.health >= MIN_HEALTH)
      && (c.swap < swap ==> c.swap + c.health == Net(op))
      && (MIN_HEALTH <= health <= Net(op) - MIN_HEALTH ==> c.health == health)
      && (c.clamped && health < MIN_HEALTH ==> c.health == MIN_HEALTH)
  {
    WrapFits(swap + health);
    hide Wrap;
  }

  /** Clamping twice is clamping once. */
  lemma ClampTwice(op: int, swap: int, health: int)
    requires Fits64(op) && 0 <= swap && 0 <= health && Fits64(swap + health) && op > 0 && Net(op) >= MIN_HEALTH
    ensures var c := ClampOf(op, swap, health); ClampOf(op, c.swap, c.health) == c.(clamped := false)
  {
    var c := ClampOf(op, swap, health);
    ClampKeepsHealth(op, swap, health);
    WrapFits(swap + health);
    WrapFits(c.swap + c.health);
    hide Wrap, Net;
  }

  /** A clamped pair fits exactly when 30 seconds do. */
  lemma ClampFitsExactly(op: int, swap: int, health: int)
    requires Fits64(op) && 0 <= swap && 0 <= health && Fits64(swap + health) && op > 0 && ClampOf(op, swap, health).clamped
    ensures var c := ClampOf(op, swap, health);
      (c.swap + c.health <= Net(op) <==> Net(op) >= MIN_HEALTH) && c.health >= MIN_HEALTH
  {
    hide Wrap, Net;
  }

  /** A clamp that cuts health leaves swap at most 30 seconds, and health all else the budget leaves. */
  lemma SwapYieldsFirst(op: int, swap: int, health: int)
    requires Fits64(op) && 0 <= swap && 0 <= health && Fits64(swap + health) && op > 0 && Net(op) >= 2 * MIN_HEALTH
    requires ClampOf(op, swap, health).health < health
    ensures ClampOf(op, swap, health).swap <= MIN_HEALTH && ClampOf(op, swap, health).health == Net(op) - MIN_HEALTH
  {
    hide Wrap, Net;
  }

  // ---- the rollback's deadline --------------------------------------------------------------

  function RollbackDeadline(swap: int, health: int): (d: int)
    ensures 0 <= swap <= MAX_BUDGET && 0 <= health <= MAX_BUDGET ==>
      d >= MIN_ROLLBACK && d >= swap + health + ROLLBACK_SLACK && (d == MIN_ROLLBACK || d == swap + health + ROLLBACK_SLACK)
    ensures d >= MIN_ROLLBACK
  {
    var d := Wrap(Wrap(swap + health) + ROLLBACK_SLACK);
    if d < MIN_ROLLBACK then MIN_ROLLBACK else d
  }

  // ---- budgets from seconds ---------------------------------------------------------------------

  /** budgetOf: what it accepts is in range, even when the multiplication wraps. */
  function BudgetOf(seconds: int): (r: Option<int>)
    ensures r.Some? ==> 0 < r.value <= MAX_BUDGET
    ensures 0 < seconds <= 86400 ==> r == Some(seconds * SECOND)
    ensures seconds <= 0 ==> r.None?
    ensures 86400 < seconds <= TWO_63 / SECOND ==> r.None?
  {
    if seconds <= 0 then None
    else
      var d := Wrap(seconds * SECOND);
      if d <= 0 || d > MAX_BUDGET then None else Some(d)
  }

  /** Exactly which seconds are accepted, and as what. */
  lemma BudgetOfExactly(seconds: int, d: int)
    ensures BudgetOf(seconds) == Some(d) <==>
      seconds > 0 && 0 < d <= MAX_BUDGET && (seconds * SECOND - d) % (2 * TWO_63) == 0
  {
    var n := 2 * TWO_63;
    var x := seconds * SECOND;
    var q := (x + TWO_63) / n;
    assert Wrap(x) == x - q * n;
    if 0 < d <= MAX_BUDGET && (x - d) % n == 0 {
      var k := (x - d) / n;
      assert x == d + k * n;
      WrapOf(d, k);
    }
    if BudgetOf(seconds) == Some(d) {
      assert x - d == q * n;
      MultipleOf(q, n);
    }
  }

  lemma WrapOf(d: int, k: int)
    requires Fits64(d)
    ensures Wrap(d + k * (2 * TWO_63)) == d
  {
    var n := 2 * TWO_63;
    var y := d + TWO_63;
    assert 0 <= y < n;
    ModOf(y, k, n);
    assert d + k * n + TWO_63 == y + k * n;
  }

  lemma ModOf(y: int, k: int, n: int)
    requires 0 <= y < n
    ensures (y + k * n) % n == y
  {
    var q, r := (y + k * n) / n, (y + k * n) % n;
    assert y - r == (q - k) * n;
    Times(q - k, n);
  }

  lemma Times(m: int, n: int)
    requires n > 0
    ensures m >= 1 ==> m * n >= n
    ensures m <= -1 ==> m * n <= -n
  {
  }

  lemma MultipleOf(q: int, n: int)
    requires n > 0
    ensures (q * n) % n == 0
  {
    ModOf(0, q, n);
  }

  /** Some absurd number of seconds is accepted as half a microsecond. */
  lemma BudgetWraps()
    ensures BudgetOf(20211507185753197) == Some(512)
  {
  }

  // ---- where a budget comes from ------------------------------------------------------------------

  /** Seconds of a job's request; None when there is no job. */
  datatype Seconds = Seconds(swap: int, health: int)

  /** A budget comes from the request when its seconds are usable, else from the project when its are, else from the host. */
  ghost predicate ComesFrom(budget: int, request: Option<int>, project: int, host: int) {
    && (request.Some? && BudgetOf(request.value).Some? ==> budget == BudgetOf(request.value).value)
    && ((request.None? || BudgetOf(request.value).None?) && BudgetOf(project).Some? ==> budget == BudgetOf(project).value)
    && ((request.None? || BudgetOf(request.value).None?) && BudgetOf(project).None? ==> budget == host)
  }

  /** In seconds, as a request writes them: from 1 to 86400 they are the budget, and none or negative are not. */
  lemma RequestWins(budget: int, request: int, project: int, host: int)
    requires ComesFrom(budget, Some(request), project, host)
    ensures 1 <= request <= 86400 ==> budget == request * SECOND
    ensures request <= 0 && 1 <= project <= 86400 ==> budget == project * SECOND
    ensures request <= 0 && project <= 0 ==> budget == host
  {
  }

  /**
    effectiveHealthTimeouts: for swap and for health separately the request's, else the
    project's, else the host's; `wanted` is that pair, it is the result when it fits the
    net budget or there is none, and otherwise it is the pair that is clamped.
   */
  method EffectiveHealthTimeouts(op: int, hostSwap: int, hostHealth: int, project: Seconds, job: Option<Seconds>)
    returns (swap: int, health: int, ghost wanted: (int, int))
    requires Fits64(op)
    ensures ComesFrom(wanted.0, if job.Some? then Some(job.value.swap) else None, project.swap, hostSwap)
    ensures ComesFrom(wanted.1, if job.Some? then Some(job.value.health) else None, project.health, hostHealth)
    ensures op <= 0 || (Fits64(wanted.0 + wanted.1) && wanted.0 + wanted.1 <= Net(op)) ==> (swap, health) == wanted
    ensures swap == ClampOf(op, wanted.0, wanted.1).swap && health == ClampOf(op, wanted.0, wanted.1).health
    ensures 0 <= hostSwap <= MAX_BUDGET && 0 <= hostHealth <= MAX_BUDGET && op > 0 && Net(op) >= MIN_HEALTH ==>
      0 <= swap && 0 <= health && swap + health <= Net(op)
  {
    hide BudgetOf, ClampOf, Net, ComesFrom, Fits64;
    swap, health := hostSwap, hostHealth;
    var v := BudgetOf(project.swap);
    if v.Some? {
      swap := v.value;
    }
    v := BudgetOf(project.health);
    if v.Some? {
      health := v.value;
    }
    if job.Some? {
      v := BudgetOf(job.value.swap);
      if v.Some? {
        swap := v.value;
      }
      v := BudgetOf(job.value.health);
      if v.Some? {
        health := v.value;
      }
    }
    wanted := (swap, health);
    Chosen(swap, if job.Some? then Some(job.value.swap) else None, project.swap, hostSwap);
    Chosen(health, if job.Some? then Some(job.value.health) else None, project.health, hostHealth);
    if op <= 0 || (Fits64(swap + health) && swap + health <= Net(op)) {
      FitsAsItIs(op, swap, health);
    }
    var clamped;
    swap, health, clamped := ClampBudget(op, swap, health);
    UsableFits(op, wanted.0, wanted.1);
  }

  lemma UsableFits(op: int, swap: int, health: int)
    requires Fits64(op)
    ensures 0 <= swap <= MAX_BUDGET && 0 <= health <= MAX_BUDGET && op > 0 && Net(op) >= MIN_HEALTH ==>
      0 <= ClampOf(op, swap, health).swap && 0 <= ClampOf(op, swap, health).health
      && ClampOf(op, swap, health).swap + ClampOf(op, swap, health).health <= Net(op)
  {
    if 0 <= swap <= MAX_BUDGET && 0 <= health <= MAX_BUDGET && op > 0 && Net(op) >= MIN_HEALTH {
      ClampKeepsHealth(op, swap, health);
    }
  }

  lemma Chosen(budget: int, request: Option<int>, project: int, host: int)
    requires var own := if request.Some? then BudgetOf(request.value) else None;
      budget == if own.Some? then own.value else if BudgetOf(project).Some? then BudgetOf(project).value else host
    ensures ComesFrom(budget, request, project, host)
  {
    hide BudgetOf;
  }

  /** A pair that fits is not touched. */
  lemma FitsAsItIs(op: int, swap: int, health: int)
    requires op <= 0 || (Fits64(swap + health) && swap + health <= Net(op))
    ensures ClampOf(op, swap, health) == Clamped(swap, health, false)
  {
    WrapFits(swap + health);
    hide Wrap;
  }

  /** What is kept back of the operation's budget: five minutes, or a third of a short one. */
  lemma NetIs(op: int)
    requires op > 0
    ensures op >= 15 * MINUTE ==> Net(op) == op - 5 * MINUTE
    ensures op <= 15 * MINUTE ==> 2 * op <= 3 * Net(op) < 2 * op + 3
  {
  }
}
