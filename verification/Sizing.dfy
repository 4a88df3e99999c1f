/** Model of `InstanceCalculator.calculate_instances` and `AwsGlueClusterSize.from_desired_cores` of
    cluster_sizing.py, and of the poll budget and lookback of _glue.py that are sized beside them.
  */
module Sizing {
  import opened Wrappers

  /** The core count of an instance type, as configured. */
  datatype Cores = Cores(n: int) | NotAnInt

  datatype InstanceType = InstanceType(name: string, cores: Cores)

  /** The instance types, in the order of the dict. */
  type Catalog = seq<InstanceType>

  datatype ValueError = CoresNotPositive | CatalogEmpty | BadCores(name: string)

  datatype Result = Ok(name: string, count: int) | Raised(error: ValueError)

  predicate GoodType(t: InstanceType) {
    t.cores.Cores? && t.cores.n > 0
  }

  predicate GoodCatalog(catalog: Catalog) {
    forall i :: 0 <= i < |catalog| ==> GoodType(catalog[i])
  }

  function Max(a: int, b: int): int {
    if a >= b then a else b
  }

  function Distance(a: int, b: int): nat {
    if a >= b then a - b else b - a
  }

  /** The worker count for one instance type. */
  function Required(floor: int, desired: int, cores: int): int
    requires cores > 0
  {
    Max(floor, (desired + cores - 1) / cores)
  }

  /** It is the least count that reaches the floor and has the desired cores. */
  lemma RequiredIsLeast(floor: int, desired: int, cores: int, n: int)
    requires cores > 0
    ensures Required(floor, desired, cores) <= n <==> floor <= n && n * cores >= desired
  {
    var q := (desired + cores - 1) / cores;
    QuotientBounds(desired + cores - 1, cores);
    if n >= q {
      TimesOrdered(q, n, cores);
    } else {
      TimesOrdered(n, q - 1, cores);
      assert (q - 1) * cores == cores * q - cores;
    }
  }

  lemma QuotientBounds(x: int, c: int)
    requires c > 0
    ensures c * (x / c) <= x < c * (x / c) + c
  {
  }

  lemma TimesOrdered(a: int, b: int, c: int)
    requires c > 0 && a <= b
    ensures a * c <= b * c
  {
  }

  /** The cores are always met, and one worker fewer would fall short unless the floor binds. */
  lemma RequiredMeets(floor: int, desired: int, cores: int)
    requires cores > 0
    ensures var r := Required(floor, desired, cores);
            r * cores >= desired && r >= floor && (r > floor ==> (r - 1) * cores < desired)
  {
    var r := Required(floor, desired, cores);
    RequiredIsLeast(floor, desired, cores, r);
    RequiredIsLeast(floor, desired, cores, r - 1);
  }

  function Count(catalog: Catalog, floor: int, desired: int, i: nat): int
    requires i < |catalog| && GoodCatalog(catalog)
  {
    Required(floor, desired, catalog[i].cores.n)
  }

  /** What is minimised: the count, or its distance to the desired number of workers. */
  function Cost(catalog: Catalog, floor: int, desired: int, workers: Option<int>, i: nat): int
    requires i < |catalog| && GoodCatalog(catalog)
  {
    var n := Count(catalog, floor, desired, i);
    if workers.None? then n else Distance(n, workers.value)
  }

  /** The first type, in catalog order, of least cost. */
  predicate IsBest(catalog: Catalog, floor: int, desired: int, workers: Option<int>, i: nat)
    requires GoodCatalog(catalog)
  {
    && i < |catalog|
    && (forall j :: 0 <= j < |catalog| ==>
      Cost(catalog, floor, desired, workers, i) <= Cost(catalog, floor, desired, workers, j))
    && (forall j :: 0 <= j < i ==>
      Cost(catalog, floor, desired, workers, i) < Cost(catalog, floor, desired, workers, j))
  }

  /** With desired workers, no count lies closer to them, on either side. */
  lemma NoneCloser(catalog: Catalog, floor: int, desired: int, workers: int, i: nat, j: nat)
    requires GoodCatalog(catalog) && IsBest(catalog, floor, desired, Some(workers), i) && j < |catalog|
    ensures var best, other := Count(catalog, floor, desired, i), Count(catalog, floor, desired, j);
            && (best >= workers ==> other >= best || other <= workers - (best - workers))
            && (best <= workers ==> other <= best || other >= workers + (workers - best))
            && (j < i ==> other != best && other != 2 * workers - best)
  {
    hide Required;
    assert Cost(catalog, floor, desired, Some(workers), i) <= Cost(catalog, floor, desired, Some(workers), j);
  }

  /** The first type whose core count is refused. */
  predicate FirstBad(catalog: Catalog, i: nat) {
    && i < |catalog| && !GoodType(catalog[i])
    && forall j :: 0 <= j < i ==> GoodType(catalog[j])
  }

  method CheckInputs(desired: int, catalog: Catalog) returns (error: Option<ValueError>)
    ensures error == None <==> desired > 0 && catalog != [] && GoodCatalog(catalog)
    ensures desired <= 0 ==> error == Some(CoresNotPositive)
    ensures desired > 0 && catalog == [] ==> error == Some(CatalogEmpty)
    ensures forall i: nat :: desired > 0 && FirstBad(catalog, i) ==> error == Some(BadCores(catalog[i].name))
  {
    if desired <= 0 {
      return Some(CoresNotPositive);
    }
    if catalog == [] {
      return Some(CatalogEmpty);
    }
    for i := 0 to |catalog|
      invariant forall j :: 0 <= j < i ==> GoodType(catalog[j])
    {
      if !catalog[i].cores.Cores? || catalog[i].cores.n <= 0 {
        return Some(BadCores(catalog[i].name));
      }
    }
    error := None;
  }

  /** The loops never leave the catalog without a type: neither the fall through from the first loop to
      the second nor the error after the second can happen. */
  method CalculateInstances(floor: int, desired: int, catalog: Catalog, workers: Option<int>)
    returns (r: Result, ghost best: nat)
    ensures r.Ok? <==> desired > 0 && catalog != [] && GoodCatalog(catalog)
    ensures r.Ok? ==> IsBest(catalog, floor, desired, workers, best)
                      && r == Ok(catalog[best].name, Count(catalog, floor, desired, best))
    ensures desired <= 0 ==> r == Raised(CoresNotPositive)
    ensures desired > 0 && catalog == [] ==> r == Raised(CatalogEmpty)
    ensures forall i: nat :: desired > 0 && FirstBad(catalog, i) ==> r == Raised(BadCores(catalog[i].name))
  {
    best := 0;
    var error := CheckInputs(desired, catalog);
    if error.Some? {
      return Raised(error.value), best;
    }
    hide Required;
    var bestType: Option<string> := None;
    var bestCount := 0;
    if workers.Some? {
      var bestDiff := 0;
      for i := 0 to |catalog|
        invariant bestType.None? <==> i == 0
        invariant bestType.Some? ==> best < i && bestType.value == catalog[best].name
        invariant bestType.Some? ==> bestCount == Count(catalog, floor, desired, best)
                                     && bestDiff == Cost(catalog, floor, desired, workers, best)
        invariant bestType.Some? ==> BestAmong(catalog, floor, desired, workers, best, i)
      {
        var cores := catalog[i].cores.n;
        var required := Required(floor, desired, cores);
        RequiredMeets(floor, desired, cores);
        var diff := Distance(required, workers.value);
        if required * cores >= desired && (bestType.None? || diff < bestDiff) {
          bestType, bestCount, bestDiff, best := Some(catalog[i].name), required, diff, i;
        }
      }
      return Ok(bestType.value, bestCount), best;
    }
    for i := 0 to |catalog|
      invariant bestType.None? <==> i == 0
      invariant bestType.Some? ==> best < i && bestType.value == catalog[best].name
      invariant bestType.Some? ==> bestCount == Count(catalog, floor, desired, best)
      invariant bestType.Some? ==> BestAmong(catalog, floor, desired, workers, best, i)
    {
      var cores := catalog[i].cores.n;
      var required := Required(floor, desired, cores);
      RequiredMeets(floor, desired, cores);
      if (bestType.None? || required < bestCount) && required * cores >= desired {
        bestType, bestCount, best := Some(catalog[i].name), required, i;
      }
    }
    return Ok(bestType.value, bestCount), best;
  }

  predicate BestAmong(catalog: Catalog, floor: int, desired: int, workers: Option<int>, i: nat, n: nat)
    requires GoodCatalog(catalog) && i < n <= |catalog|
  {
    && (forall j :: 0 <= j < n ==>
      Cost(catalog, floor, desired, workers, i) <= Cost(catalog, floor, desired, workers, j))
    && (forall j :: 0 <= j < i ==>
      Cost(catalog, floor, desired, workers, i) < Cost(catalog, floor, desired, workers, j))
  }

  /** When no more workers are desired than the floor, both loops choose the same type. */
  lemma FewWorkersDesired(catalog: Catalog, floor: int, desired: int, workers: int, i: nat)
    requires GoodCatalog(catalog) && workers <= floor
    ensures IsBest(catalog, floor, desired, Some(workers), i) <==> IsBest(catalog, floor, desired, None, i)
  {
    if i < |catalog| {
      forall j | 0 <= j < |catalog|
        ensures Cost(catalog, floor, desired, Some(workers), j) == Cost(catalog, floor, desired, None, j) - workers
      {
        RequiredMeets(floor, desired, catalog[j].cores.n);
      }
    }
  }

  lemma FewerCores(floor: int, few: int, many: int, cores: int)
    requires cores > 0 && few <= many
    ensures Required(floor, few, cores) <= Required(floor, many, cores)
  {
    hide Required;
    var n := Required(floor, many, cores);
    RequiredIsLeast(floor, many, cores, n);
    RequiredIsLeast(floor, few, cores, n);
  }

  /** Without desired workers, more cores never need fewer workers. */
  lemma CountMonotone(catalog: Catalog, floor: int, few: int, many: int, i: nat, j: nat)
    requires GoodCatalog(catalog) && few <= many
    requires IsBest(catalog, floor, few, None, i) && IsBest(catalog, floor, many, None, j)
    ensures Count(catalog, floor, few, i) <= Count(catalog, floor, many, j)
  {
    hide Required;
    FewerCores(floor, few, many, catalog[j].cores.n);
    assert Cost(catalog, floor, few, None, i) <= Cost(catalog, floor, few, None, j);
  }

  /** With desired workers they may: a larger type can come closer. */
  lemma NotMonotoneWithWorkers(catalog: Catalog)
    requires catalog == [InstanceType("small", Cores(4)), InstanceType("large", Cores(8))]
    ensures GoodCatalog(catalog)
    ensures IsBest(catalog, 1, 44, Some(10), 0) && Count(catalog, 1, 44, 0) == 11
    ensures IsBest(catalog, 1, 60, Some(10), 1) && Count(catalog, 1, 60, 1) == 8
  {
  }

  const GLUE_FLOOR := 2

  function GlueTypes(): (catalog: Catalog)
    ensures GoodCatalog(catalog)
  {
    [InstanceType("G.1X", Cores(4)), InstanceType("G.2X", Cores(8)),
     InstanceType("G.4X", Cores(16)), InstanceType("G.8X", Cores(32))]
  }

  /** Glue always asks for a number of workers, 1 if none is configured, but no more than the floor is
      the same as asking for the fewest workers. */
  method GlueFromDesiredCores(desired: int, configured: Option<int>) returns (r: Result, ghost best: nat)
    ensures r.Ok? <==> desired > 0
    ensures r.Ok? && (configured == None || configured.value <= GLUE_FLOOR) ==>
      IsBest(GlueTypes(), GLUE_FLOOR, desired, None, best)
    ensures r.Ok? && configured.Some? && configured.value > GLUE_FLOOR ==>
      IsBest(GlueTypes(), GLUE_FLOOR, desired, configured, best)
    ensures r.Ok? ==> best < 4 && r == Ok(GlueTypes()[best].name, Count(GlueTypes(), GLUE_FLOOR, desired, best))
    ensures r.Ok? ==> Offered(r.name, r.count, desired)
  {
    hide IsBest, Count;
    var workers := if configured.Some? && configured.value != 0 then configured.value else 1;
    r, best := CalculateInstances(GLUE_FLOOR, desired, GlueTypes(), Some(workers));
    if r.Ok? {
      BestInRange(GlueTypes(), GLUE_FLOOR, desired, Some(workers), best);
      if workers <= GLUE_FLOOR {
        FewWorkersDesired(GlueTypes(), GLUE_FLOOR, desired, workers, best);
      }
      OfferedByCount(desired, best);
    }
  }

  /** At least two workers of a type that Glue has, with the desired cores; one fewer would not do. */
  predicate Offered(name: string, count: int, desired: int) {
    && name in {"G.1X", "G.2X", "G.4X", "G.8X"}
    && var cores := if name == "G.1X" then 4 else if name == "G.2X" then 8 else if name == "G.4X" then 16 else 32;
       count >= 2 && count * cores >= desired && (count > 2 ==> (count - 1) * cores < desired)
  }

  lemma OfferedByCount(desired: int, i: nat)
    requires i < 4
    ensures Offered(GlueTypes()[i].name, Count(GlueTypes(), GLUE_FLOOR, desired, i), desired)
  {
    RequiredMeets(GLUE_FLOOR, desired, GlueTypes()[i].cores.n);
    hide Required;
  }

  lemma BestInRange(catalog: Catalog, floor: int, desired: int, workers: Option<int>, i: nat)
    requires GoodCatalog(catalog) && IsBest(catalog, floor, desired, workers, i)
    ensures i < |catalog|
  {
  }

  // ---------------------------------------------------------------------------------------
  // Lookback and poll budget
  // ---------------------------------------------------------------------------------------

  /** In seconds. */
  function Lookback(timeoutHours: int, queueHours: int): int {
    3600 * (timeoutHours + queueHours)
  }

  function CeilDiv(a: int, b: int): int
    requires b > 0
  {
    -((-a) / b)
  }

  function MaxAttempts(timeoutHours: int, queueHours: int, delay: int): int
    requires delay > 0
  {
    CeilDiv(Lookback(timeoutHours, queueHours), delay)
  }

  /** The `Timeout` of the job, in minutes. */
  function JobTimeout(timeoutHours: int): int {
    60 * timeoutHours
  }

  /** When a run was submitted, left the queue and ended; its `StartedOn` is not before its submission. */
  datatype RunTimes = RunTimes(submitted: real, startedOn: real, begun: real, ended: real)

  /** The run waited and ran no longer than configured. */
  predicate Respects(r: RunTimes, timeoutHours: int, queueHours: int) {
    && r.submitted <= r.startedOn <= r.begun <= r.ended
    && r.begun <= r.submitted + (3600 * queueHours) as real
    && r.ended <= r.begun + (60 * JobTimeout(timeoutHours)) as real
  }

  /** A scan that looks `lookback` back takes the run for too old to be alive. */
  predicate PastCutoff(r: RunTimes, now: real, lookback: real) {
    r.startedOn < now - lookback
  }

  ghost predicate NeverOverlooked(lookback: real, timeoutHours: int, queueHours: int) {
    forall r, now :: Respects(r, timeoutHours, queueHours) && PastCutoff(r, now, lookback) ==> r.ended <= now
  }

  /** The lookback is the shortest one that overlooks no run within its limits. */
  lemma LookbackIsLeast(lookback: real, timeoutHours: int, queueHours: int)
    requires timeoutHours >= 0 && queueHours >= 0
    ensures NeverOverlooked(lookback, timeoutHours, queueHours)
       <==> lookback >= Lookback(timeoutHours, queueHours) as real
  {
    var least := Lookback(timeoutHours, queueHours) as real;
    if lookback < least {
      var r := RunTimes(0.0, 0.0, (3600 * queueHours) as real, least);
      var now := (lookback + least) / 2.0;
      assert Respects(r, timeoutHours, queueHours) && PastCutoff(r, now, lookback);
    }
  }

  /** When the k-th poll happens, after the submit: the waiter of the Amazon provider is not part of this model, so it
      may poll at once or wait first. */
  function PollTime(k: int, delay: int, atOnce: bool): int {
    (if atOnce then k - 1 else k) * delay
  }

  /** One of the first `n` polls finds the run ended. */
  ghost predicate SeenEnded(r: RunTimes, n: int, delay: int, atOnce: bool) {
    exists k :: 1 <= k <= n && r.submitted + PollTime(k, delay, atOnce) as real >= r.ended
  }

  ghost predicate BudgetSuffices(n: int, timeoutHours: int, queueHours: int, delay: int, atOnce: bool) {
    forall r :: Respects(r, timeoutHours, queueHours) ==> SeenEnded(r, n, delay, atOnce)
  }

  lemma CeilDivBounds(a: int, b: int)
    requires b > 0
    ensures (CeilDiv(a, b) - 1) * b < a <= CeilDiv(a, b) * b
  {
    QuotientBounds(-a, b);
    var q := (-a) / b;
    assert -q * b == -(b * q) && (-q - 1) * b == -(b * q) - b;
  }

  /** The k-th poll is late enough for every run exactly if it does not come before the window is over. */
  lemma PollLateEnough(j: int, window: int, delay: int)
    requires delay > 0
    ensures j * delay >= window <==> j >= CeilDiv(window, delay)
  {
    CeilDivBounds(window, delay);
    if j >= CeilDiv(window, delay) {
      TimesOrdered(CeilDiv(window, delay), j, delay);
    } else {
      TimesOrdered(j, CeilDiv(window, delay) - 1, delay);
    }
  }

  /** The poll budget outlasts every run within its limits, and one attempt fewer would not, if the first poll comes
      after one delay. A waiter that polls at once needs one attempt more. */
  lemma MaxAttemptsIsLeast(n: int, timeoutHours: int, queueHours: int, delay: int, atOnce: bool)
    requires timeoutHours >= 0 && queueHours >= 0 && delay > 0
    ensures var attempts := MaxAttempts(timeoutHours, queueHours, delay);
            BudgetSuffices(n, timeoutHours, queueHours, delay, atOnce)
            <==> n >= 1 && n >= (if atOnce then attempts + 1 else attempts)
  {
    var window := Lookback(timeoutHours, queueHours);
    var last := if atOnce then n - 1 else n;
    PollLateEnough(last, window, delay);
    if n >= 1 && last * delay >= window {
      forall r | Respects(r, timeoutHours, queueHours) ensures SeenEnded(r, n, delay, atOnce) {
        assert r.submitted + PollTime(n, delay, atOnce) as real >= r.ended;
      }
    } else {
      var r := RunTimes(0.0, 0.0, (3600 * queueHours) as real, window as real);
      assert Respects(r, timeoutHours, queueHours);
      forall k | 1 <= k <= n ensures r.submitted + PollTime(k, delay, atOnce) as real < r.ended {
        TimesOrdered(if atOnce then k - 1 else k, last, delay);
      }
      assert !SeenEnded(r, n, delay, atOnce);
    }
  }
}
