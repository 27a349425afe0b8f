/**
  The wait that decides whether a deploy is verified (healthwait.go): containers must
  be replaced, then come up healthy. Polls, the clock and cancellation are functions
  of the number of the poll; Docker's health values are the only ones.
 */
module HealthWait {
  import opened Text

  type Name = string

  datatype Health = Healthy | Unhealthy | Starting | NoCheck

  datatype Container = Container(id: string, restarts: int, running: bool, health: Health)

  const SECOND := 1_000_000_000
  const GRACE := 20 * SECOND
  const DEFAULT_THRESHOLD := 3

  /**
    `poll(i)` holds every container the `i`-th poll could inspect, `now(i)` its time;
    `ended(i)` says the wait was cancelled before it, `slept(i)` that the second after
    it passed undisturbed.
   */
  datatype World = World(poll: nat -> map<Name, Container>, now: nat -> int, ended: nat -> bool, slept: nat -> bool)

  ghost predicate Ticks(w: World) {
    forall i: nat :: w.now(i + 1) >= w.now(i) + if w.slept(i) then SECOND else 0
  }

  // ---- the swap ---------------------------------------------------------------------------

  predicate MissingIn(w: World, from: nat, i: nat, name: Name) {
    exists j :: from <= j < i && name !in w.poll(j)
  }

  /** The `i`-th poll sees another container, or one that was missing in an earlier poll. */
  predicate SeenSwapped(w: World, from: nat, i: nat, previous: map<Name, string>, name: Name) {
    name in previous && name in w.poll(i) && (w.poll(i)[name].id != previous[name] || MissingIn(w, from, i, name))
  }

  predicate SwappedBy(w: World, from: nat, n: nat, previous: map<Name, string>, name: Name) {
    exists i :: from <= i < n && (name !in previous || SeenSwapped(w, from, i, previous, name))
  }

  /** The containers found swapped by the first polls. A new container counts as swapped. */
  function Swapped(w: World, from: nat, n: nat, previous: map<Name, string>, containers: seq<Name>): set<Name> {
    set name | name in containers && SwappedBy(w, from, n, previous, name)
  }

  predicate SomeSeen(w: World, from: nat, i: nat, previous: map<Name, string>, containers: seq<Name>) {
    exists name :: name in containers && SeenSwapped(w, from, i, previous, name)
  }

  /** The `i`-th poll is the first to see a known container swapped. */
  ghost predicate FirstSwapAt(w: World, from: nat, i: nat, previous: map<Name, string>, containers: seq<Name>) {
    SomeSeen(w, from, i, previous, containers) && forall j :: from <= j < i ==> !SomeSeen(w, from, j, previous, containers)
  }

  datatype Sighting = Sighting(swapped: set<Name>, missing: set<Name>, first: Option<int>)

  /** What the loop knows after the polls before the `n`-th. */
  ghost predicate SwapState(w: World, from: nat, n: nat, previous: map<Name, string>, containers: seq<Name>, s: Sighting) {
    && s.swapped == Swapped(w, from, n, previous, containers)
    && (forall name :: name in containers && name in previous && name !in s.swapped ==>
          (name in s.missing <==> MissingIn(w, from, n, name)))
    && (s.first.None? ==> forall j :: from <= j < n ==> !SomeSeen(w, from, j, previous, containers))
    && (s.first.Some? ==> exists j :: from <= j < n && FirstSwapAt(w, from, j, previous, containers) && s.first.value == w.now(j))
  }

  /** What the `i`-th poll adds to the containers swapped. */
  predicate NewlySwapped(w: World, i: nat, previous: map<Name, string>, s: Sighting, name: Name) {
    && name !in s.swapped
    && (name !in previous || (name in w.poll(i) && (w.poll(i)[name].id != previous[name] || name in s.missing)))
  }

  predicate NewlyMissing(w: World, i: nat, previous: map<Name, string>, s: Sighting, name: Name) {
    name !in s.swapped && name in previous && name !in w.poll(i)
  }

  ghost predicate Polled(w: World, i: nat, previous: map<Name, string>, done: seq<Name>, s: Sighting, t: Sighting) {
    && (forall name :: name in t.swapped <==> name in s.swapped || (name in done && NewlySwapped(w, i, previous, s, name)))
    && (forall name :: name in t.missing <==> name in s.missing || (name in done && NewlyMissing(w, i, previous, s, name)))
    && (s.first.Some? ==> t.first == s.first)
    && (s.first.None? && t.first.Some? ==>
          t.first == Some(w.now(i)) && exists name :: name in done && name in previous && NewlySwapped(w, i, previous, s, name))
    && (t.first.None? ==> forall name :: name in done && name in previous ==> !NewlySwapped(w, i, previous, s, name))
  }

  lemma PolledKeeps(w: World, from: nat, i: nat, previous: map<Name, string>, containers: seq<Name>, s: Sighting, t: Sighting)
    requires from <= i && SwapState(w, from, i, previous, containers, s) && Polled(w, i, previous, containers, s, t)
    ensures SwapState(w, from, i + 1, previous, containers, t)
  {
    forall name | name in containers
      ensures name in t.swapped <==> SwappedBy(w, from, i + 1, previous, name)
      ensures name in previous && name !in t.swapped ==> (name in t.missing <==> MissingIn(w, from, i + 1, name))
    {
      NameKeeps(w, from, i, previous, containers, s, t, name);
    }
    NotListed(w, from, i, previous, containers, s, t);
    FirstKeeps(w, from, i, previous, containers, s, t);
  }

  lemma NotListed(w: World, from: nat, i: nat, previous: map<Name, string>, containers: seq<Name>, s: Sighting, t: Sighting)
    requires SwapState(w, from, i, previous, containers, s) && Polled(w, i, previous, containers, s, t)
    ensures forall name :: name in t.swapped ==> name in containers
  {
  }

  lemma SwappedNext(w: World, from: nat, i: nat, previous: map<Name, string>, name: Name)
    requires from <= i
    ensures SwappedBy(w, from, i + 1, previous, name) <==>
      SwappedBy(w, from, i, previous, name) || name !in previous || SeenSwapped(w, from, i, previous, name)
    ensures MissingIn(w, from, i + 1, name) <==> MissingIn(w, from, i, name) || name !in w.poll(i)
  {
    var seen := SeenSwapped(w, from, i, previous, name);
    hide SeenSwapped;
    if SwappedBy(w, from, i, previous, name) {
      var j :| from <= j < i && (name !in previous || SeenSwapped(w, from, j, previous, name));
      assert from <= j < i + 1;
    }
  }

  lemma NameKeeps(w: World, from: nat, i: nat, previous: map<Name, string>, containers: seq<Name>, s: Sighting, t: Sighting, name: Name)
    requires from <= i && SwapState(w, from, i, previous, containers, s) && Polled(w, i, previous, containers, s, t)
    requires name in containers
    ensures name in t.swapped <==> SwappedBy(w, from, i + 1, previous, name)
    ensures name in previous && name !in t.swapped ==> (name in t.missing <==> MissingIn(w, from, i + 1, name))
    ensures name in previous ==> (NewlySwapped(w, i, previous, s, name) <==>
      name !in s.swapped && SeenSwapped(w, from, i, previous, name))
  {
    SwappedNext(w, from, i, previous, name);
    assert name in s.swapped <==> SwappedBy(w, from, i, previous, name);
    hide SwappedBy, MissingIn;
  }

  /** A known container swapped by some poll was seen so. */
  lemma SwappedIsSeen(w: World, from: nat, n: nat, previous: map<Name, string>, containers: seq<Name>, name: Name)
    requires SwappedBy(w, from, n, previous, name) && name in previous && name in containers
    ensures exists j :: from <= j < n && SomeSeen(w, from, j, previous, containers)
  {
    var j :| from <= j < n && (name !in previous || SeenSwapped(w, from, j, previous, name));
    assert SomeSeen(w, from, j, previous, containers);
  }

  lemma FirstKeeps(w: World, from: nat, i: nat, previous: map<Name, string>, containers: seq<Name>, s: Sighting, t: Sighting)
    requires from <= i && SwapState(w, from, i, previous, containers, s) && Polled(w, i, previous, containers, s, t)
    ensures t.first.None? ==> forall j :: from <= j < i + 1 ==> !SomeSeen(w, from, j, previous, containers)
    ensures t.first.Some? ==>
      exists j :: from <= j < i + 1 && FirstSwapAt(w, from, j, previous, containers) && t.first.value == w.now(j)
  {
    hide SwappedBy, NewlySwapped, NewlyMissing, SeenSwapped, MissingIn;
    if s.first.None? {
      if SomeSeen(w, from, i, previous, containers) {
        var name :| name in containers && SeenSwapped(w, from, i, previous, name);
        NameKeeps(w, from, i, previous, containers, s, t, name);
        SeenIsKnown(w, from, i, previous, name);
        if name in s.swapped { SwappedIsSeen(w, from, i, previous, containers, name); }
        assert FirstSwapAt(w, from, i, previous, containers);
      }
      if t.first.Some? {
        var name :| name in containers && name in previous && NewlySwapped(w, i, previous, s, name);
        NameKeeps(w, from, i, previous, containers, s, t, name);
        assert SomeSeen(w, from, i, previous, containers);
      }
    }
  }

  lemma SeenIsKnown(w: World, from: nat, i: nat, previous: map<Name, string>, name: Name)
    requires SeenSwapped(w, from, i, previous, name)
    ensures name in previous
  {
  }

  lemma SwapStateIs(w: World, from: nat, n: nat, previous: map<Name, string>, containers: seq<Name>, s: Sighting)
    requires SwapState(w, from, n, previous, containers, s)
    ensures s.swapped == Swapped(w, from, n, previous, containers)
    ensures s.first.Some? ==> exists j :: from <= j < n && FirstSwapAt(w, from, j, previous, containers) && s.first.value == w.now(j)
  {
  }

  /** The grace period has passed since the first known container was seen swapped. */
  ghost predicate GraceOver(w: World, from: nat, n: nat, previous: map<Name, string>, containers: seq<Name>)
    requires n > from
  {
    exists j :: from <= j < n && FirstSwapAt(w, from, j, previous, containers) && w.now(n - 1) - w.now(j) >= GRACE
  }

  lemma GraceIsOver(w: World, from: nat, n: nat, previous: map<Name, string>, containers: seq<Name>, s: Sighting)
    requires n > from && SwapState(w, from, n, previous, containers, s)
    requires s.first.Some? && w.now(n - 1) - s.first.value >= GRACE
    ensures GraceOver(w, from, n, previous, containers)
  {
    hide FirstSwapAt, Swapped;
  }

  lemma GraceIsNotOver(w: World, from: nat, n: nat, previous: map<Name, string>, containers: seq<Name>, s: Sighting)
    requires n > from && SwapState(w, from, n, previous, containers, s)
    requires s.first.None? || w.now(n - 1) - s.first.value < GRACE
    ensures !GraceOver(w, from, n, previous, containers)
  {
    hide Swapped, SomeSeen;
    forall j | from <= j < n && FirstSwapAt(w, from, j, previous, containers)
      ensures w.now(n - 1) - w.now(j) < GRACE
    {
      if s.first.Some? {
        var i :| from <= i < n && FirstSwapAt(w, from, i, previous, containers) && s.first.value == w.now(i);
        FirstIsOnce(w, from, i, j, previous, containers);
      }
    }
  }

  lemma FirstIsOnce(w: World, from: nat, i: nat, j: nat, previous: map<Name, string>, containers: seq<Name>)
    requires from <= i && from <= j && FirstSwapAt(w, from, i, previous, containers) && FirstSwapAt(w, from, j, previous, containers)
    ensures i == j
  {
    hide SomeSeen;
  }

  lemma SwapStart(w: World, from: nat, previous: map<Name, string>, containers: seq<Name>)
    ensures SwapState(w, from, from, previous, containers, Sighting({}, {}, None))
  {
  }

  lemma ASecondPassed(w: World, i: nat)
    requires Ticks(w) && w.slept(i)
    ensures w.now(i + 1) >= w.now(i) + SECOND
  {
  }

  /** A container new in this update counts as swapped, so the wait cannot then end stuck. */
  lemma NewContainerIsSwapped(w: World, from: nat, n: nat, previous: map<Name, string>, containers: seq<Name>, name: Name)
    requires from < n && name in containers && name !in previous
    ensures name in Swapped(w, from, n, previous, containers)
  {
    var seen := SeenSwapped(w, from, from, previous, name);
  }

  /** Without new containers, swapped is exactly replaced, or missing for a while. */
  lemma SwappedExactly(w: World, from: nat, n: nat, previous: map<Name, string>, containers: seq<Name>, name: Name)
    requires name in containers && name in previous
    ensures name in Swapped(w, from, n, previous, containers) <==>
      exists i :: from <= i < n && name in w.poll(i) && (w.poll(i)[name].id != previous[name] || MissingIn(w, from, i, name))
  {
    if name in Swapped(w, from, n, previous, containers) {
      var i :| from <= i < n && (name !in previous || SeenSwapped(w, from, i, previous, name));
    }
    if i :| from <= i < n && name in w.poll(i) && (w.poll(i)[name].id != previous[name] || MissingIn(w, from, i, name)) {
      assert SeenSwapped(w, from, i, previous, name);
    }
  }

  datatype SwapResult = AllSwapped | GracePassed | PartlySwapped | Stuck | Cancelled

  /** After the polls before the `n`-th the swap wait goes on. */
  ghost predicate SwapGoesOn(w: World, from: nat, n: nat, deadline: int, previous: map<Name, string>, containers: seq<Name>)
    requires n > from
  {
    && |Swapped(w, from, n, previous, containers)| != |containers| && !GraceOver(w, from, n, previous, containers)
    && w.now(n - 1) <= deadline && w.slept(n - 1)
  }

  /** The swap wait polls from `from` on, and ends before the `next`-th poll. */
  ghost predicate SwapWaits(w: World, from: nat, next: nat, deadline: int, previous: map<Name, string>, containers: seq<Name>) {
    && from <= next && (forall n :: from <= n < next ==> !w.ended(n))
    && (forall n :: from < n < next ==> SwapGoesOn(w, from, n, deadline, previous, containers))
    && (w.ended(next) || (from < next && !SwapGoesOn(w, from, next, deadline, previous, containers)))
  }

  /** Where the swap wait ends is a fact of the world. */
  lemma SwapWaitsOnce(w: World, from: nat, n: nat, m: nat, deadline: int, previous: map<Name, string>, containers: seq<Name>)
    requires SwapWaits(w, from, n, deadline, previous, containers) && SwapWaits(w, from, m, deadline, previous, containers)
    ensures n == m
  {
    hide SwapGoesOn;
  }

  /** What each result of the swap wait says when it ends before the `next`-th poll. */
  ghost predicate SwapReports(w: World, from: nat, next: nat, deadline: int, previous: map<Name, string>, containers: seq<Name>, r: SwapResult) {
    match r
    case AllSwapped => next > from && |Swapped(w, from, next, previous, containers)| == |containers|
    case GracePassed => next > from && GraceOver(w, from, next, previous, containers)
    case PartlySwapped =>
      next > from && w.now(next - 1) > deadline && Swapped(w, from, next, previous, containers) != {}
    case Stuck =>
      next > from && w.now(next - 1) > deadline && Swapped(w, from, next, previous, containers) == {}
    case Cancelled => w.ended(next) || (next > from && !w.slept(next - 1))
  }

  // ---- health -----------------------------------------------------------------------------

  datatype Status = Reported(health: Health) | InspectError | CrashLoop | NotRunning | Excluded

  predicate Fine(s: Status) {
    s == Excluded || s == Reported(Healthy) || s == Reported(NoCheck)
  }

  function BaseRestarts(base: map<Name, Container>, name: Name): int {
    if name in base then base[name].restarts else 0
  }

  /** What the `i`-th poll says of a container. An exclusion is of the health check only. */
  function StatusIn(w: World, i: nat, base: map<Name, Container>, excluded: set<Name>, threshold: int, name: Name): Status {
    if name !in w.poll(i) then InspectError
    else if w.poll(i)[name].restarts > BaseRestarts(base, name) + threshold then CrashLoop
    else if !w.poll(i)[name].running then NotRunning
    else if name in excluded then Excluded
    else Reported(w.poll(i)[name].health)
  }

  predicate AllFine(w: World, i: nat, base: map<Name, Container>, containers: seq<Name>, excluded: set<Name>, threshold: int) {
    forall name :: name in containers ==> Fine(StatusIn(w, i, base, excluded, threshold, name))
  }

  predicate SomeLoops(w: World, i: nat, base: map<Name, Container>, containers: seq<Name>, excluded: set<Name>, threshold: int) {
    exists name :: name in containers && StatusIn(w, i, base, excluded, threshold, name) == CrashLoop
  }

  datatype HealthResult = HealthResult(health: map<Name, Status>, unhealthy: set<Name>, crashLoop: bool, aborted: bool)

  /** After the polls before the `n`-th the health wait goes on; its baseline is the poll `from`. */
  ghost predicate HealthGoesOn(w: World, from: nat, n: nat, deadline: int, containers: seq<Name>, excluded: set<Name>, threshold: int)
    requires n > from + 1
  {
    && !AllFine(w, n - 1, w.poll(from), containers, excluded, threshold)
    && !SomeLoops(w, n - 1, w.poll(from), containers, excluded, threshold)
    && w.now(n - 1) <= deadline && w.slept(n - 1)
  }

  /** The health wait takes its baseline from the poll `from`, polls on, and ends before the `next`-th poll. */
  ghost predicate HealthWaits(w: World, from: nat, next: nat, deadline: int, containers: seq<Name>, excluded: set<Name>, threshold: int) {
    && from < next && (forall n :: from < n < next ==> !w.ended(n))
    && (forall n :: from + 1 < n < next ==> HealthGoesOn(w, from, n, deadline, containers, excluded, threshold))
    && (w.ended(next) || (from + 1 < next && !HealthGoesOn(w, from, next, deadline, containers, excluded, threshold)))
  }

  lemma WaitsOn(w: World, from: nat, next: nat, deadline: int, containers: seq<Name>, excluded: set<Name>, threshold: int)
    requires HealthWaits(w, from, next, deadline, containers, excluded, threshold)
    ensures from < next
  {
    hide HealthGoesOn;
  }

  lemma HealthWaitsOnce(w: World, from: nat, n: nat, m: nat, deadline: int, containers: seq<Name>, excluded: set<Name>, threshold: int)
    requires HealthWaits(w, from, n, deadline, containers, excluded, threshold)
    requires HealthWaits(w, from, m, deadline, containers, excluded, threshold)
    ensures n == m
  {
    hide HealthGoesOn;
  }

  function StatusesIn(w: World, i: nat, base: map<Name, Container>, containers: seq<Name>, excluded: set<Name>, threshold: int): map<Name, Status> {
    map name | name in containers :: StatusIn(w, i, base, excluded, threshold, name)
  }

  function NotFine(w: World, i: nat, base: map<Name, Container>, containers: seq<Name>, excluded: set<Name>, threshold: int): set<Name> {
    set name | name in containers && !Fine(StatusIn(w, i, base, excluded, threshold, name))
  }

  /** What the health wait reports when it ends before the `next`-th poll: what its last poll saw, and why it ended. */
  function ReportAt(w: World, from: nat, next: nat, deadline: int, containers: seq<Name>, excluded: set<Name>, threshold: int): HealthResult
    requires from < next
  {
    if next == from + 1 then HealthResult(map[], {}, false, true)
    else
      var base := w.poll(from);
      HealthResult(StatusesIn(w, next - 1, base, containers, excluded, threshold),
                   NotFine(w, next - 1, base, containers, excluded, threshold),
                   SomeLoops(w, next - 1, base, containers, excluded, threshold),
                   !AllFine(w, next - 1, base, containers, excluded, threshold)
                     && !SomeLoops(w, next - 1, base, containers, excluded, threshold) && w.now(next - 1) <= deadline)
  }

  lemma LoopsEnd(w: World, from: nat, next: nat, deadline: int, containers: seq<Name>, excluded: set<Name>, threshold: int, i: nat)
    requires HealthWaits(w, from, next, deadline, containers, excluded, threshold)
    requires from < i < next && SomeLoops(w, i, w.poll(from), containers, excluded, threshold)
    ensures i == next - 1
  {
    hide SomeLoops, AllFine;
    assert i + 1 < next ==> HealthGoesOn(w, from, i + 1, deadline, containers, excluded, threshold);
  }

  lemma FineNeverLoops(w: World, i: nat, base: map<Name, Container>, containers: seq<Name>, excluded: set<Name>, threshold: int)
    ensures AllFine(w, i, base, containers, excluded, threshold) <==> NotFine(w, i, base, containers, excluded, threshold) == {}
    ensures SomeLoops(w, i, base, containers, excluded, threshold) ==> !AllFine(w, i, base, containers, excluded, threshold)
  {
    hide StatusIn;
    if !AllFine(w, i, base, containers, excluded, threshold) {
      var name :| name in containers && !Fine(StatusIn(w, i, base, excluded, threshold, name));
      assert name in NotFine(w, i, base, containers, excluded, threshold);
    }
  }

  /** The report, by how the wait ended. */
  lemma ReportIs(w: World, from: nat, next: nat, deadline: int, containers: seq<Name>, excluded: set<Name>, threshold: int)
    requires from + 1 < next
    ensures AllFine(w, next - 1, w.poll(from), containers, excluded, threshold) ==>
      ReportAt(w, from, next, deadline, containers, excluded, threshold)
      == HealthResult(StatusesIn(w, next - 1, w.poll(from), containers, excluded, threshold), {}, false, false)
    ensures !AllFine(w, next - 1, w.poll(from), containers, excluded, threshold) ==>
      NotFine(w, next - 1, w.poll(from), containers, excluded, threshold) != {}
    ensures !AllFine(w, next - 1, w.poll(from), containers, excluded, threshold) ==>
      var loops := SomeLoops(w, next - 1, w.poll(from), containers, excluded, threshold);
      ReportAt(w, from, next, deadline, containers, excluded, threshold)
      == HealthResult(StatusesIn(w, next - 1, w.poll(from), containers, excluded, threshold),
                      NotFine(w, next - 1, w.poll(from), containers, excluded, threshold),
                      loops, !loops && w.now(next - 1) <= deadline)
  {
    hide StatusIn, AllFine, NotFine, SomeLoops, StatusesIn;
    FineNeverLoops(w, next - 1, w.poll(from), containers, excluded, threshold);
  }

  /** A container found in a crash loop by any poll of the health wait makes it fail, at once. */
  lemma CrashLoopFails(w: World, from: nat, next: nat, deadline: int, containers: seq<Name>, excluded: set<Name>, threshold: int, i: nat)
    requires HealthWaits(w, from, next, deadline, containers, excluded, threshold)
    requires from < i < next && SomeLoops(w, i, w.poll(from), containers, excluded, threshold)
    ensures i == next - 1 && Fails(ReportAt(w, from, next, deadline, containers, excluded, threshold))
  {
    LoopsEnd(w, from, next, deadline, containers, excluded, threshold, i);
    var name :| name in containers && StatusIn(w, i, w.poll(from), excluded, threshold, name) == CrashLoop;
    assert name in ReportAt(w, from, next, deadline, containers, excluded, threshold).unhealthy;
  }

  /** healthVerdict. */
  predicate Fails(r: HealthResult) {
    r.aborted || r.unhealthy != {}
  }

  predicate SwapFailed(swap: Option<SwapResult>) {
    swap.Some? && (swap.value.Stuck? || swap.value.Cancelled?)
  }

  datatype Params = Params(containers: seq<Name>, previous: map<Name, string>, excluded: set<Name>, onlyHealth: seq<Name>,
                           swapTimeout: int, healthTimeout: int, restartThreshold: int)

  function ExcludedBy(p: Params): set<Name> {
    p.excluded + if p.onlyHealth == [] then {} else set name | name in p.containers && name !in p.onlyHealth
  }

  /** A container that is up as far as a deploy is concerned. */
  predicate Up(c: Container, restarts: int, excluded: bool) {
    c.running && c.restarts <= restarts && (excluded || c.health == Healthy || c.health == NoCheck)
  }

  function ThresholdOf(p: Params): int {
    if p.restartThreshold <= 0 then DEFAULT_THRESHOLD else p.restartThreshold
  }

  /** The last poll before `next` saw every container up, counted from the poll `first`. */
  ghost predicate Verified(w: World, p: Params, first: nat, next: nat) {
    && first + 1 < next
    && forall name :: name in p.containers ==>
         && name in w.poll(next - 1)
         && Up(w.poll(next - 1)[name], BaseRestarts(w.poll(first), name) + ThresholdOf(p), name in ExcludedBy(p))
  }

  lemma VerifiedIs(w: World, p: Params, first: nat, next: nat)
    requires first + 1 < next
    ensures Verified(w, p, first, next) <==> AllFine(w, next - 1, w.poll(first), p.containers, ExcludedBy(p), ThresholdOf(p))
  {
    forall name | name in p.containers
      ensures Fine(StatusIn(w, next - 1, w.poll(first), ExcludedBy(p), ThresholdOf(p), name)) <==>
        && name in w.poll(next - 1)
        && Up(w.poll(next - 1)[name], BaseRestarts(w.poll(first), name) + ThresholdOf(p), name in ExcludedBy(p))
    {
    }
    hide StatusIn, Fine, Up, BaseRestarts, ExcludedBy, ThresholdOf;
  }

  /** The report has no fault exactly when the last poll saw every container up. */
  lemma VerifiedExactly(w: World, p: Params, first: nat, next: nat, excluded: set<Name>, threshold: int, r: HealthResult)
    requires excluded == ExcludedBy(p) && threshold == ThresholdOf(p) && first < next
    requires !r.aborted && r.unhealthy == {} <==>
      !r.aborted && next > first + 1 && AllFine(w, next - 1, w.poll(first), p.containers, excluded, threshold)
    requires r == ReportAt(w, first, next, w.now(first) + p.healthTimeout, p.containers, excluded, threshold)
    ensures !Fails(r) <==> Verified(w, p, first, next)
  {
    if first + 1 < next {
      VerifiedIs(w, p, first, next);
    }
    hide StatusIn, Fine, Up, BaseRestarts, ExcludedBy, ThresholdOf;
  }

  /** A poll finds a container that restarted too often since the poll `first`, running or not, excluded or not. */
  predicate SeenLooping(w: World, p: Params, first: nat, i: nat) {
    exists name :: name in p.containers && name in w.poll(i)
                   && w.poll(i)[name].restarts > BaseRestarts(w.poll(first), name) + ThresholdOf(p)
  }

  lemma LoopingIs(w: World, p: Params, first: nat, i: nat)
    ensures SeenLooping(w, p, first, i) <==> SomeLoops(w, i, w.poll(first), p.containers, ExcludedBy(p), ThresholdOf(p))
  {
    forall name | name in p.containers
      ensures StatusIn(w, i, w.poll(first), ExcludedBy(p), ThresholdOf(p), name) == CrashLoop <==>
        name in w.poll(i) && w.poll(i)[name].restarts > BaseRestarts(w.poll(first), name) + ThresholdOf(p)
    {
    }
    hide StatusIn, ThresholdOf, ExcludedBy, BaseRestarts;
  }

  /** A container the last poll did not find up. */
  predicate Down(w: World, p: Params, first: nat, i: nat, name: Name) {
    name in p.containers
    && !(name in w.poll(i) && Up(w.poll(i)[name], BaseRestarts(w.poll(first), name) + ThresholdOf(p), name in ExcludedBy(p)))
  }

  /** The report names the containers that were not up in the last poll, no more and no fewer. */
  lemma UnhealthyExactly(w: World, p: Params, first: nat, next: nat)
    requires first + 1 < next
    ensures var r := ReportAt(w, first, next, w.now(first) + p.healthTimeout, p.containers, ExcludedBy(p), ThresholdOf(p));
      forall name :: name in r.unhealthy <==> Down(w, p, first, next - 1, name)
  {
    var i := next - 1;
    forall name
      ensures name in NotFine(w, i, w.poll(first), p.containers, ExcludedBy(p), ThresholdOf(p)) <==> Down(w, p, first, i, name)
    {
    }
    hide NotFine, Down, ExcludedBy, ThresholdOf, StatusIn, AllFine, SomeLoops, StatusesIn;
  }

  lemma NamesDown(w: World, p: Params, first: nat, next: nat)
    requires first < next
    ensures var r := ReportAt(w, first, next, w.now(first) + p.healthTimeout, p.containers, ExcludedBy(p), ThresholdOf(p));
      if next == first + 1 then r.unhealthy == {} else forall name :: name in r.unhealthy <==> Down(w, p, first, next - 1, name)
  {
    if first + 1 < next {
      UnhealthyExactly(w, p, first, next);
      hide ReportAt, Down, ExcludedBy, ThresholdOf;
    }
  }

  /** A crash loop ends the wait, with an error that says so. */
  lemma LoopingFails(w: World, p: Params, first: nat, next: nat)
    requires HealthWaits(w, first, next, w.now(first) + p.healthTimeout, p.containers, ExcludedBy(p), ThresholdOf(p))
    ensures first < next
    ensures (exists i :: first < i < next && SeenLooping(w, p, first, i)) ==>
      var r := ReportAt(w, first, next, w.now(first) + p.healthTimeout, p.containers, ExcludedBy(p), ThresholdOf(p));
      Fails(r) && r.crashLoop
  {
    hide HealthWaits, ReportAt, SeenLooping, SomeLoops, ExcludedBy, ThresholdOf;
    LoopsFail(w, first, next, w.now(first) + p.healthTimeout, p.containers, ExcludedBy(p), ThresholdOf(p));
    if i :| first < i < next && SeenLooping(w, p, first, i) {
      LoopingIs(w, p, first, i);
    }
  }

  lemma LoopsFail(w: World, from: nat, next: nat, deadline: int, containers: seq<Name>, excluded: set<Name>, threshold: int)
    requires HealthWaits(w, from, next, deadline, containers, excluded, threshold)
    ensures from < next
    ensures (exists i :: from < i < next && SomeLoops(w, i, w.poll(from), containers, excluded, threshold)) ==>
      var r := ReportAt(w, from, next, deadline, containers, excluded, threshold); Fails(r) && r.crashLoop
  {
    hide StatusIn, Fine, SomeLoops, AllFine;
    if i :| from < i < next && SomeLoops(w, i, w.poll(from), containers, excluded, threshold) {
      CrashLoopFails(w, from, next, deadline, containers, excluded, threshold, i);
    }
  }

  lemma NothingSeen(w: World, from: nat, deadline: int, containers: seq<Name>, excluded: set<Name>, threshold: int)
    ensures ReportAt(w, from, from + 1, deadline, containers, excluded, threshold) == HealthResult(map[], {}, false, true)
  {
  }

  lemma BadAre(w: World, i: nat, base: map<Name, Container>, containers: seq<Name>, excluded: set<Name>, threshold: int, u: set<Name>)
    requires var seen := StatusesIn(w, i, base, containers, excluded, threshold); u == set name | name in seen && !Fine(seen[name])
    ensures u == NotFine(w, i, base, containers, excluded, threshold)
  {
    hide StatusIn, Fine;
  }

  lemma PollIs(w: World, i: nat, base: map<Name, Container>, containers: seq<Name>, excluded: set<Name>, threshold: int,
               before: map<Name, Status>, after: map<Name, Status>, from: nat)
    requires i > from && before == if i == from + 1 then map[] else StatusesIn(w, i - 1, base, containers, excluded, threshold)
    requires forall name :: name in after <==> name in before || name in containers
    requires forall name :: name in after ==>
      after[name] == if name in containers then StatusIn(w, i, base, excluded, threshold, name) else before[name]
    ensures after == StatusesIn(w, i, base, containers, excluded, threshold)
  {
    hide StatusIn;
  }

  /** A wait that would go on and is cut short says so. */
  lemma CutShort(w: World, from: nat, next: nat, deadline: int, containers: seq<Name>, excluded: set<Name>, threshold: int)
    requires from + 1 < next && HealthGoesOn(w, from, next, deadline, containers, excluded, threshold)
    ensures ReportAt(w, from, next, deadline, containers, excluded, threshold)
         == HealthResult(StatusesIn(w, next - 1, w.poll(from), containers, excluded, threshold),
                         NotFine(w, next - 1, w.poll(from), containers, excluded, threshold), false, true)
  {
    hide AllFine, SomeLoops, NotFine, StatusesIn;
    ReportIs(w, from, next, deadline, containers, excluded, threshold);
  }

  lemma GoesOnIf(w: World, from: nat, next: nat, deadline: int, containers: seq<Name>, excluded: set<Name>, threshold: int)
    requires from + 1 < next
    ensures HealthGoesOn(w, from, next, deadline, containers, excluded, threshold) <==>
      && !AllFine(w, next - 1, w.poll(from), containers, excluded, threshold)
      && !SomeLoops(w, next - 1, w.poll(from), containers, excluded, threshold)
      && w.now(next - 1) <= deadline && w.slept(next - 1)
  {
    hide AllFine, SomeLoops;
  }

  lemma PollSays(w: World, i: nat, base: map<Name, Container>, containers: seq<Name>, excluded: set<Name>, threshold: int)
    ensures AllFine(w, i, base, containers, excluded, threshold) <==>
      forall name :: name in containers ==> Fine(StatusIn(w, i, base, excluded, threshold, name))
    ensures SomeLoops(w, i, base, containers, excluded, threshold) <==>
      exists name :: name in containers && StatusIn(w, i, base, excluded, threshold, name) == CrashLoop
  {
    hide StatusIn, Fine;
  }

  class Waiter {
    const w: World

    /** One poll of waitForSwap. */
    method SwapPoll(i: nat, previous: map<Name, string>, containers: seq<Name>, s: Sighting) returns (t: Sighting)
      ensures Polled(w, i, previous, containers, s, t)
    {
      var swapped, missing, first := s.swapped, s.missing, s.first;
      var states := w.poll(i);
      for c := 0 to |containers|
        invariant Polled(w, i, previous, containers[..c], s, Sighting(swapped, missing, first))
      {
        var name := containers[c];
        assert containers[..c + 1] == containers[..c] + [name];
        if name in swapped {
          continue;
        }
        if name !in previous {
          swapped := swapped + {name};
          continue;
        }
        if name !in states {
          missing := missing + {name};
          continue;
        }
        if states[name].id != previous[name] || name in missing {
          swapped := swapped + {name};
          if first.None? {
            first := Some(w.now(i));
          }
        }
      }
      assert containers[..|containers|] == containers;
      return Sighting(swapped, missing, first);
    }

    /**
      waitForSwap: `next` is the first poll it leaves unused. It ends by the deadline,
      and fails only for cancellation or when no container was found swapped.
     */
    method WaitForSwap(from: nat, start: int, timeout: int, previous: map<Name, string>, containers: seq<Name>)
      returns (r: SwapResult, next: nat)
      requires Ticks(w)
      ensures SwapWaits(w, from, next, start + timeout, previous, containers)
      ensures SwapReports(w, from, next, start + timeout, previous, containers, r)
      ensures next > from + 1 ==> w.now(next - 2) <= start + timeout
      ensures (next - from - 2) * SECOND <= start + timeout - w.now(from) || next <= from + 1
    {
      hide SwapState, Polled, Swapped, FirstSwapAt, GraceOver, Ticks;
      var deadline := start + timeout;
      var s := Sighting({}, {}, None);
      next := from;
      SwapStart(w, from, previous, containers);
      while true
        invariant from <= next && SwapState(w, from, next, previous, containers, s)
        invariant forall n :: from <= n < next ==> !w.ended(n)
        invariant forall n :: from < n <= next ==> SwapGoesOn(w, from, n, deadline, previous, containers)
        invariant next > from ==> w.now(next - 1) <= deadline && w.now(next) >= w.now(next - 1) + SECOND
        invariant next > from + 1 ==> w.now(next - 2) <= deadline
        invariant next > from ==> (next - from - 1) * SECOND <= deadline - w.now(from)
        invariant w.now(next) >= w.now(from) + (next - from) * SECOND
        decreases deadline - w.now(next)
      {
        if w.ended(next) {
          return Cancelled, next;
        }
        var t := SwapPoll(next, previous, containers, s);
        PolledKeeps(w, from, next, previous, containers, s, t);
        s := t;
        var now := w.now(next);
        next := next + 1;
        SwapStateIs(w, from, next, previous, containers, s);
        if |s.swapped| == |containers| {
          return AllSwapped, next;
        }
        if s.first.Some? && now - s.first.value >= GRACE {
          GraceIsOver(w, from, next, previous, containers, s);
          return GracePassed, next;
        }
        GraceIsNotOver(w, from, next, previous, containers, s);
        if now > deadline {
          break;
        }
        if !w.slept(next - 1) {
          return Cancelled, next;
        }
        ASecondPassed(w, next - 1);
      }
      return if |s.swapped| > 0 then PartlySwapped else Stuck, next;
    }

    /** One poll of waitForHealth, over every container. */
    method HealthPoll(i: nat, base: map<Name, Container>, containers: seq<Name>, excluded: set<Name>, threshold: int,
                      before: map<Name, Status>)
      returns (after: map<Name, Status>, allHealthy: bool, crashLoop: bool)
      ensures forall name :: name in after <==> name in before || name in containers
      ensures forall name :: name in after ==>
        after[name] == if name in containers then StatusIn(w, i, base, excluded, threshold, name) else before[name]
      ensures allHealthy <==> forall name :: name in containers ==> Fine(StatusIn(w, i, base, excluded, threshold, name))
      ensures crashLoop <==> exists name :: name in containers && StatusIn(w, i, base, excluded, threshold, name) == CrashLoop
    {
      after, allHealthy, crashLoop := before, true, false;
      var states := w.poll(i);
      for c := 0 to |containers|
        invariant forall name :: name in after <==> name in before || name in containers[..c]
        invariant forall name :: name in after ==>
          after[name] == if name in containers[..c] then StatusIn(w, i, base, excluded, threshold, name) else before[name]
        invariant allHealthy <==> forall name :: name in containers[..c] ==> Fine(StatusIn(w, i, base, excluded, threshold, name))
        invariant crashLoop <==>
          exists name :: name in containers[..c] && StatusIn(w, i, base, excluded, threshold, name) == CrashLoop
      {
        var name := containers[c];
        assert containers[..c + 1] == containers[..c] + [name];
        ghost var status := StatusIn(w, i, base, excluded, threshold, name);
        if name !in states {
          after, allHealthy := after[name := InspectError], false;
          continue;
        }
        var st := states[name];
        if st.restarts > (if name in base then base[name].restarts else 0) + threshold {
          after, crashLoop, allHealthy := after[name := CrashLoop], true, false;
        } else if !st.running {
          after, allHealthy := after[name := NotRunning], false;
        } else if name in excluded {
          after := after[name := Excluded];
        } else {
          after := after[name := Reported(st.health)];
          if st.health != Healthy && st.health != NoCheck {
            allHealthy := false;
          }
        }
        assert after[name] == status;
      }
      assert containers[..|containers|] == containers;
    }

    /** notHealthy: by status, whatever is excluded. */
    method NotHealthyIn(health: map<Name, Status>) returns (bad: set<Name>)
      ensures bad == set name | name in health && !Fine(health[name])
    {
      bad := {};
      var names := health.Keys;
      while names != {}
        invariant names <= health.Keys
        invariant bad == set name | name in health && name !in names && !Fine(health[name])
        decreases names
      {
        var name :| name in names;
        names := names - {name};
        if health[name] == Excluded {
          continue;
        }
        if health[name] != Reported(Healthy) && health[name] != Reported(NoCheck) {
          bad := bad + {name};
        }
      }
    }

    /**
      waitForHealth: no problem is reported exactly when its last poll found every
      container fine; a timeout and a crash loop always name a container, and a wait
      cut short says so.
     */
    method WaitForHealth(from: nat, timeout: int, containers: seq<Name>, excluded: set<Name>, threshold: int)
      returns (r: HealthResult, next: nat)
      requires Ticks(w)
      ensures HealthWaits(w, from, next, w.now(from) + timeout, containers, excluded, threshold)
      ensures r == ReportAt(w, from, next, w.now(from) + timeout, containers, excluded, threshold)
      ensures !r.aborted && r.unhealthy == {} <==>
        !r.aborted && next > from + 1 && AllFine(w, next - 1, w.poll(from), containers, excluded, threshold)
      ensures r.crashLoop ==> r.unhealthy != {} && !r.aborted
      ensures r.aborted ==> w.ended(next) || (next > from + 1 && !w.slept(next - 1))
      ensures !r.aborted ==> next > from + 1
      ensures next > from + 2 ==> w.now(next - 2) <= w.now(from) + timeout
    {
      hide StatusIn, Fine, AllFine, SomeLoops, NotFine, StatusesIn, ReportAt, HealthGoesOn;
      var deadline := w.now(from) + timeout;
      var base := w.poll(from);
      var health: map<Name, Status> := map[];
      next := from + 1;
      NothingSeen(w, from, deadline, containers, excluded, threshold);
      while true
        invariant from < next
        invariant forall n :: from < n < next ==> !w.ended(n)
        invariant forall n :: from + 1 < n <= next ==> HealthGoesOn(w, from, n, deadline, containers, excluded, threshold)
        invariant next > from + 1 ==> w.now(next - 1) <= deadline && w.now(next) >= w.now(next - 1) + SECOND
        invariant health == if next == from + 1 then map[] else StatusesIn(w, next - 1, base, containers, excluded, threshold)
        decreases deadline - w.now(next)
      {
        if w.ended(next) {
          var u := NotHealthyIn(health);
          if next > from + 1 {
            BadAre(w, next - 1, base, containers, excluded, threshold, u);
            CutShort(w, from, next, deadline, containers, excluded, threshold);
          } else {
            assert u == {};
          }
          return HealthResult(health, u, false, true), next;
        }
        var allHealthy, crashLoop;
        ghost var before := health;
        health, allHealthy, crashLoop := HealthPoll(next, base, containers, excluded, threshold, health);
        PollIs(w, next, base, containers, excluded, threshold, before, health, from);
        PollSays(w, next, base, containers, excluded, threshold);
        var now := w.now(next);
        next := next + 1;
        ReportIs(w, from, next, deadline, containers, excluded, threshold);
        GoesOnIf(w, from, next, deadline, containers, excluded, threshold);
        if allHealthy {
          return HealthResult(health, {}, false, false), next;
        }
        var u := NotHealthyIn(health);
        BadAre(w, next - 1, base, containers, excluded, threshold, u);
        if crashLoop {
          return HealthResult(health, u, true, false), next;
        }
        if now > deadline {
          return HealthResult(health, u, false, false), next;
        }
        if !w.slept(next - 1) {
          return HealthResult(health, u, false, true), next;
        }
      }
    }

    /** The explicit exclusions, and everything outside `onlyHealth`. */
    method Exclusions(p: Params) returns (excluded: set<Name>)
      ensures excluded == ExcludedBy(p)
    {
      excluded := p.excluded;
      if |p.onlyHealth| > 0 {
        for c := 0 to |p.containers|
          invariant excluded == p.excluded + set name | name in p.containers[..c] && name !in p.onlyHealth
        {
          assert p.containers[..c + 1] == p.containers[..c] + [p.containers[c]];
          if p.containers[c] !in p.onlyHealth {
            excluded := excluded + {p.containers[c]};
          }
        }
      }
      assert p.containers[..|p.containers|] == p.containers;
    }

    /**
      healthWait: the health wait starts where the swap wait, if there is one, ended,
      and it reports an error exactly when that wait failed or the health wait's own
      report does. No error means that the last poll inspected every container, running,
      within its restarts, and healthy or without a check unless it is excluded.
     */
    method Wait(p: Params) returns (err: bool, swap: Option<SwapResult>, health: Option<HealthResult>, next: nat, ghost first: nat)
      requires Ticks(w)
      ensures p.previous == map[] ==> swap.None? && first == 0
      ensures p.previous != map[] ==>
        && swap.Some? && SwapWaits(w, 0, first, w.now(0) + p.swapTimeout, p.previous, p.containers)
        && SwapReports(w, 0, first, w.now(0) + p.swapTimeout, p.previous, p.containers, swap.value)
      ensures health.None? <==> SwapFailed(swap)
      ensures health.None? ==> next == first
      ensures health.Some? ==>
        && HealthWaits(w, first, next, w.now(first) + p.healthTimeout, p.containers, ExcludedBy(p), ThresholdOf(p))
        && health.value == ReportAt(w, first, next, w.now(first) + p.healthTimeout, p.containers, ExcludedBy(p), ThresholdOf(p))
      ensures err <==> SwapFailed(swap) || health.None? || Fails(health.value)
      ensures health.Some? ==> (!err <==> Verified(w, p, first, next))
      ensures health.Some? && (exists i :: first < i < next && SeenLooping(w, p, first, i)) ==> err && health.value.crashLoop
      ensures health.Some? && next > first + 1 ==> forall name :: name in health.value.unhealthy <==> Down(w, p, first, next - 1, name)
    {
      hide SwapWaits, SwapReports, HealthWaits, ReportAt, Verified, SomeLoops, HealthGoesOn, AllFine, ExcludedBy, SeenLooping, Down;
      var threshold := if p.restartThreshold <= 0 then DEFAULT_THRESHOLD else p.restartThreshold;
      var excluded := Exclusions(p);
      next, first, swap, health := 0, 0, None, None;
      if |p.previous| > 0 {
        var s;
        s, next := WaitForSwap(0, w.now(0), p.swapTimeout, p.previous, p.containers);
        first := next;
        swap := Some(s);
        if s.Stuck? || s.Cancelled? {
          return true, swap, None, next, first;
        }
      }
      var res;
      res, next := WaitForHealth(next, p.healthTimeout, p.containers, excluded, threshold);
      health := Some(res);
      err := Fails(res);
      WaitsOn(w, first, next, w.now(first) + p.healthTimeout, p.containers, excluded, threshold);
      VerifiedExactly(w, p, first, next, excluded, threshold, res);
      LoopingFails(w, p, first, next);
      NamesDown(w, p, first, next);
    }
  }
}
