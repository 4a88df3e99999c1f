/** The single-writer protocol of Glue tasks as a transition system: tries of any number of task
    instances scan, stop, poll, launch and record, and between any two steps they may crash, be cleared
    or be cancelled, other writers launch runs of the same job, runs move on, and time passes.

    A read of one page of the run list is one step; a request that stops a batch is one step; a look at
    the state of one run is one step. Everything else interleaves.
  */
module SingleWriter {
  import GlueGuard
  import opened GlueRuns
  import opened Wrappers

  type Key = string

  /** How long a run can stay active at most (`window`), how far back a scan looks (`lookback`), and how
      many pages of which size it reads. */
  datatype Config = Config(window: nat, lookback: nat, maxPages: nat, pageSize: nat) {
    ghost predicate Valid() {
      maxPages > 0 && pageSize > 0
    }

    function Cap(): nat {
      maxPages * pageSize
    }
  }

  /** Where the current try of a task instance is. */
  datatype Phase =
    | Idle
    | Scanning(cutoff: int, pages: nat, top: nat, next: nat, found: set<RunId>, toStop: set<RunId>)
    | StoppingRuns(found: set<RunId>, toStop: set<RunId>)
    | Polling(pending: set<RunId>)
    | Ready
    | Launched(id: RunId)
    | Deferred(id: RunId)

  /** `xcom` holds the run each task instance has recorded. */
  datatype State = State(runs: History, clock: int, jobExists: bool, phases: map<Key, Phase>, xcom: map<Key, RunId>)

  function PhaseOf(s: State, k: Key): Phase {
    if k in s.phases then s.phases[k] else Idle
  }

  /** The steps. `End` is every way a try stops being alive: it completes, raises, is killed as a zombie,
      or is cleared while deferred. `Cancel` is what the failure callback and `on_kill` do. */
  datatype Step =
    | StartTry(k: Key)
    | ReadPage(k: Key, lo: nat, stop: nat)
    | StopBatch(k: Key, batch: set<RunId>, accepted: set<RunId>)
    | StartPolling(k: Key)
    | Poll(k: Key, id: RunId)
    | Launch(k: Key)
    | Record(k: Key)
    | End(k: Key)
    | Cancel(k: Key)
    | Progress(run: RunId, state: RunState)
    | OthersLaunch(n: nat)
    | Tick(seconds: nat)

  predicate Init(s: State) {
    s == State([], 0, false, map[], map[])
  }

  predicate TryStarted(cfg: Config, s: State, s': State, k: Key) {
    && PhaseOf(s, k) == Idle
    && var p := if s.jobExists then Scanning(s.clock - cfg.lookback, 0, 0, 0, {}, {}) else Ready;
       s' == s.(phases := s.phases[k := p], xcom := s.xcom - {k})
  }

  /** Runs `stop` to `hi - 1` are looked at: the page ends at `lo`, or at the first run that is old. */
  predicate Examined(runs: History, lo: nat, stop: nat, hi: nat, cutoff: int) {
    && lo <= stop <= hi <= |runs|
    && (forall i :: stop <= i < hi ==> !IsOld(runs[i], cutoff))
    && (stop > lo ==> IsOld(runs[stop - 1], cutoff))
  }

  function LiveIn(runs: History, lo: nat, hi: nat, k: Key): set<RunId>
    requires hi <= |runs|
  {
    set i | lo <= i < hi && IsLive(runs[i], k)
  }

  function ToStopIn(runs: History, lo: nat, hi: nat, k: Key): set<RunId>
    requires hi <= |runs|
  {
    set i | lo <= i < hi && IsLive(runs[i], k) && runs[i].state != Stopping
  }

  /** The phase after a page: on to the next one, or the scan is over: the boundary was reached, the list
      is exhausted, or the page cap was hit. */
  function AfterPage(cfg: Config, p: Phase, top: nat, lo: nat, stop: nat, found: set<RunId>, toStop: set<RunId>): Phase
    requires p.Scanning?
  {
    if stop == lo && lo > 0 && p.pages + 1 < cfg.maxPages then Scanning(p.cutoff, p.pages + 1, top, lo, found, toStop)
    else if found == {} then Ready
    else StoppingRuns(found, toStop)
  }

  /** A page holds the runs from `lo` on, not more than the page size; how many it holds is up to the service. */
  predicate PageRead(cfg: Config, s: State, s': State, k: Key, lo: nat, stop: nat) {
    var p := PhaseOf(s, k);
    && p.Scanning? && p.next <= |s.runs|
    && var hi := PageTop(s, p);
       var top := if p.pages == 0 then |s.runs| else p.top;
       && lo <= hi <= lo + cfg.pageSize
       && Examined(s.runs, lo, stop, hi, p.cutoff)
       && s' == s.(phases := s.phases[k := AfterPage(cfg, p, top, lo, stop, p.found + LiveIn(s.runs, stop, hi, k),
                                                     p.toStop + ToStopIn(s.runs, stop, hi, k))])
  }

  /** Where the next page of a scan begins, read downwards. */
  function PageTop(s: State, p: Phase): nat
    requires p.Scanning?
  {
    if p.pages == 0 then |s.runs| else p.next
  }

  /** The runs after those in `ids` that were active have been told to stop. */
  function Stopped(runs: History, ids: set<RunId>): (r: History)
    ensures |r| == |runs|
  {
    seq(|runs|, i requires 0 <= i < |runs| =>
      if i in ids && IsActive(runs[i].state) then runs[i].(state := Stopping) else runs[i])
  }

  predicate BatchStopped(s: State, s': State, k: Key, batch: set<RunId>, accepted: set<RunId>) {
    var p := PhaseOf(s, k);
    && p.StoppingRuns?
    && batch <= p.toStop && 0 < |batch| <= BATCH_SIZE && accepted <= batch
    && s' == s.(runs := Stopped(s.runs, accepted), phases := s.phases[k := StoppingRuns(p.found, p.toStop - batch)])
  }

  predicate PollingStarted(s: State, s': State, k: Key) {
    var p := PhaseOf(s, k);
    && p.StoppingRuns? && p.toStop == {}
    && s' == s.(phases := s.phases[k := Polling(p.found)])
  }

  predicate Polled(s: State, s': State, k: Key, id: RunId) {
    var p := PhaseOf(s, k);
    && p.Polling? && id in p.pending && id < |s.runs| && !IsActive(s.runs[id].state)
    && s' == s.(phases := s.phases[k := if p.pending == {id} then Ready else Polling(p.pending - {id})])
  }

  predicate RunLaunched(s: State, s': State, k: Key) {
    && PhaseOf(s, k) == Ready
    && s' == s.(runs := s.runs + [JobRun(Starting, Some(s.clock), Some(k))], jobExists := true,
                phases := s.phases[k := Launched(|s.runs|)])
  }

  predicate RunRecorded(s: State, s': State, k: Key) {
    var p := PhaseOf(s, k);
    && p.Launched?
    && s' == s.(phases := s.phases[k := Deferred(p.id)], xcom := s.xcom[k := p.id])
  }

  predicate TryEnded(s: State, s': State, k: Key) {
    PhaseOf(s, k) != Idle && s' == s.(phases := s.phases[k := Idle])
  }

  predicate Cancelled(s: State, s': State, k: Key) {
    k in s.xcom && s' == s.(runs := Stopped(s.runs, {s.xcom[k]}))
  }

  predicate Progressed(s: State, s': State, id: RunId, state: RunState) {
    id < |s.runs| && IsActive(s.runs[id].state) && s' == s.(runs := s.runs[id := s.runs[id].(state := state)])
  }

  /** `n` runs without a marker. */
  function Unmarked(clock: int, n: nat): (r: History)
    ensures |r| == n
  {
    seq(n, i => JobRun(Starting, Some(clock), None))
  }

  predicate OthersLaunched(s: State, s': State, n: nat) {
    s' == s.(runs := s.runs + Unmarked(s.clock, n), jobExists := true)
  }

  /** The platform ends every run before it is older than the window. */
  predicate Ticked(cfg: Config, s: State, s': State, seconds: nat) {
    && s' == s.(clock := s.clock + seconds)
    && WithinWindow(s.runs, s'.clock, cfg.window)
  }

  predicate WithinWindow(runs: History, clock: int, window: nat) {
    forall i :: 0 <= i < |runs| && StartedBefore(runs[i].startedOn, clock - window) ==> runs[i].state.Ended?
  }

  predicate StepTo(cfg: Config, s: State, s': State, step: Step) {
    match step
    case StartTry(k) => TryStarted(cfg, s, s', k)
    case ReadPage(k, lo, stop) => PageRead(cfg, s, s', k, lo, stop)
    case StopBatch(k, batch, accepted) => BatchStopped(s, s', k, batch, accepted)
    case StartPolling(k) => PollingStarted(s, s', k)
    case Poll(k, id) => Polled(s, s', k, id)
    case Launch(k) => RunLaunched(s, s', k)
    case Record(k) => RunRecorded(s, s', k)
    case End(k) => TryEnded(s, s', k)
    case Cancel(k) => Cancelled(s, s', k)
    case Progress(id, state) => Progressed(s, s', id, state)
    case OthersLaunch(n) => OthersLaunched(s, s', n)
    case Tick(seconds) => Ticked(cfg, s, s', seconds)
  }

  /** The scan ends at the page cap, and the next run, which it does not see, did not start before the cutoff. */
  predicate CutShort(cfg: Config, s: State, step: Step) {
    && step.ReadPage?
    && var p := PhaseOf(s, step.k);
       && p.Scanning? && p.pages + 1 >= cfg.maxPages
       && step.stop == step.lo && 0 < step.lo <= |s.runs| && !IsOld(s.runs[step.lo - 1], p.cutoff)
  }

  /** The page is full, or the last one, and when the scan begins, no more runs than it can read are younger than
      the cutoff. */
  predicate FullPage(cfg: Config, s: State, step: Step) {
    step.ReadPage? && PhaseOf(s, step.k).Scanning? ==>
      var p := PhaseOf(s, step.k);
      var hi := PageTop(s, p);
      && step.lo == (if hi > cfg.pageSize then hi - cfg.pageSize else 0)
      && (p.pages == 0 ==> Uncrowded(cfg, s.runs, |s.runs|, p.cutoff))
  }

  /** At most `Cap()` of the first `top` runs did not start before the cutoff. */
  predicate Uncrowded(cfg: Config, runs: History, top: nat, cutoff: int) {
    top <= cfg.Cap() || (top <= |runs| && IsOld(runs[top - cfg.Cap() - 1], cutoff))
  }

  /** Which runs of the system are considered: all, those in which no scan is cut short, or those with full pages and
      not too many runs. */
  datatype Scope = Any | Calm | Orderly

  predicate Within(cfg: Config, scope: Scope, s: State, step: Step) {
    match scope
    case Any => true
    case Calm => !CutShort(cfg, s, step)
    case Orderly => FullPage(cfg, s, step)
  }

  /** `s` is a state after `n` steps, all of them within the scope. */
  ghost predicate Reached(cfg: Config, s: State, n: nat, scope: Scope)
    decreases n
  {
    if n == 0 then Init(s)
    else exists p, step :: Reached(cfg, p, n - 1, scope) && StepTo(cfg, p, s, step) && Within(cfg, scope, p, step)
  }

  /** The safety property: of two runs of a task instance, one has ended. */
  ghost predicate OneWriter(s: State) {
    forall i, j :: 0 <= i < j < |s.runs| && s.runs[i].key.Some? && s.runs[i].key == s.runs[j].key ==>
      s.runs[i].state.Ended? || s.runs[j].state.Ended?
  }

  // ---------------------------------------------------------------------------------------
  // The invariant
  // ---------------------------------------------------------------------------------------

  /** All of `ids` are runs of the task instance. */
  ghost predicate Mine(ids: set<RunId>, runs: History, k: Key) {
    forall i :: i in ids ==> i < |runs| && runs[i].key == Some(k)
  }

  /** Every live run of the task instance is below `next` or in `ids`. */
  ghost predicate LiveAmong(runs: History, k: Key, next: nat, ids: set<RunId>) {
    forall i :: 0 <= i < |runs| && IsLive(runs[i], k) ==> i < next || i in ids
  }

  ghost predicate NoneActiveBelow(runs: History, n: int) {
    forall i :: 0 <= i < |runs| && i < n ==> !IsActive(runs[i].state)
  }

  ghost predicate ScanOk(cfg: Config, runs: History, clock: int, k: Key, p: Phase)
    requires p.Scanning?
  {
    && p.cutoff <= clock - cfg.lookback
    && p.pages < cfg.maxPages
    && Mine(p.found, runs, k) && p.toStop <= p.found
    && (p.pages == 0 ==> p.next == 0 && p.found == {})
    && (p.pages > 0 ==> p.next <= |runs| && LiveAmong(runs, k, p.next, p.found))
  }

  /** What is known about the runs of a task instance in each phase of its try. */
  ghost predicate PhaseOk(cfg: Config, runs: History, clock: int, k: Key, p: Phase) {
    match p
    case Idle => true
    case Scanning(_, _, _, _, _, _) => ScanOk(cfg, runs, clock, k, p)
    case StoppingRuns(found, toStop) => Mine(found, runs, k) && toStop <= found && LiveAmong(runs, k, 0, found)
    case Polling(pending) => Mine(pending, runs, k) && LiveAmong(runs, k, 0, pending)
    case Ready => LiveAmong(runs, k, 0, {})
    case Launched(id) => Mine({id}, runs, k) && LiveAmong(runs, k, 0, {id})
    case Deferred(id) => Mine({id}, runs, k) && LiveAmong(runs, k, 0, {id})
  }

  /** What is known about the run list, whoever launched the runs. */
  ghost predicate HistoryOk(cfg: Config, runs: History, clock: int) {
    && NewestFirst(runs)
    && (forall i :: 0 <= i < |runs| ==> runs[i].startedOn.value <= clock)
    && WithinWindow(runs, clock, cfg.window)
  }

  ghost predicate PhasesOk(cfg: Config, s: State) {
    forall k :: k in s.phases ==> PhaseOk(cfg, s.runs, s.clock, k, s.phases[k])
  }

  ghost predicate XComOk(s: State) {
    forall k :: k in s.xcom ==> Mine({s.xcom[k]}, s.runs, k)
  }

  ghost predicate Inv(cfg: Config, s: State) {
    && HistoryOk(cfg, s.runs, s.clock)
    && (!s.jobExists ==> s.runs == [])
    && XComOk(s)
    && PhasesOk(cfg, s)
    && OneWriter(s)
  }

  // ---------------------------------------------------------------------------------------
  // What time and other writers cannot break
  // ---------------------------------------------------------------------------------------

  lemma MineLater(ids: set<RunId>, a: History, b: History, k: Key)
    requires Mine(ids, a, k) && Evolves(a, b, k)
    ensures Mine(ids, b, k)
  {
    forall i | i in ids ensures i < |b| && b[i].key == Some(k) {
      assert Later(a[i], b[i]);
    }
  }

  lemma LiveAmongLater(a: History, b: History, k: Key, next: nat, ids: set<RunId>)
    requires LiveAmong(a, k, next, ids) && Evolves(a, b, k)
    ensures LiveAmong(b, k, next, ids)
  {
    forall i | 0 <= i < |b| && IsLive(b[i], k) ensures i < next || i in ids {
      assert i < |a| && Later(a[i], b[i]);
    }
  }

  /** What is known about a task instance in its phase survives whatever does not launch a run of it. */
  lemma PhaseLater(cfg: Config, a: History, b: History, t: int, t': int, k: Key, p: Phase)
    requires PhaseOk(cfg, a, t, k, p) && Evolves(a, b, k) && t <= t'
    ensures PhaseOk(cfg, b, t', k, p)
  {
    hide Mine, LiveAmong, Evolves;
    match p
    case Idle =>
    case Scanning(_, pages, _, next, found, _) =>
      EvolvesLonger(a, b, k);
      MineLater(found, a, b, k);
      if pages > 0 {
        LiveAmongLater(a, b, k, next, found);
      }
    case StoppingRuns(found, _) =>
      MineLater(found, a, b, k);
      LiveAmongLater(a, b, k, 0, found);
    case Polling(pending) =>
      MineLater(pending, a, b, k);
      LiveAmongLater(a, b, k, 0, pending);
    case Ready =>
      LiveAmongLater(a, b, k, 0, {});
    case Launched(id) =>
      MineLater({id}, a, b, k);
      LiveAmongLater(a, b, k, 0, {id});
    case Deferred(id) =>
      MineLater({id}, a, b, k);
      LiveAmongLater(a, b, k, 0, {id});
  }

  lemma EvolvesLonger(a: History, b: History, k: Key)
    requires Evolves(a, b, k)
    ensures |a| <= |b|
  {
  }

  /** The phases of all other task instances, after a step that changed only the phase of `k`. */
  lemma OtherPhasesOk(cfg: Config, s: State, s': State, k: Key, p: Phase)
    requires PhasesOk(cfg, s) && s'.phases == s.phases[k := p] && s.clock <= s'.clock
    requires forall x: Key :: x != k ==> Evolves(s.runs, s'.runs, x)
    requires PhaseOk(cfg, s'.runs, s'.clock, k, p)
    ensures PhasesOk(cfg, s')
  {
    hide PhaseOk, Evolves;
    forall x | x in s'.phases ensures PhaseOk(cfg, s'.runs, s'.clock, x, s'.phases[x]) {
      if x != k {
        PhaseLater(cfg, s.runs, s'.runs, s.clock, s'.clock, x, s.phases[x]);
      }
    }
  }

  lemma AllPhasesOk(cfg: Config, s: State, s': State)
    requires PhasesOk(cfg, s) && s'.phases == s.phases && s.clock <= s'.clock
    requires forall x: Key :: Evolves(s.runs, s'.runs, x)
    ensures PhasesOk(cfg, s')
  {
    hide PhaseOk, Evolves;
    forall x | x in s'.phases ensures PhaseOk(cfg, s'.runs, s'.clock, x, s'.phases[x]) {
      PhaseLater(cfg, s.runs, s'.runs, s.clock, s'.clock, x, s.phases[x]);
    }
  }

  lemma XComLater(s: State, s': State)
    requires XComOk(s) && s'.xcom == s.xcom
    requires |s.runs| <= |s'.runs| && forall i :: 0 <= i < |s.runs| ==> s'.runs[i].key == s.runs[i].key
    ensures XComOk(s')
  {
  }

  lemma OneWriterLater(s: State, s': State)
    requires OneWriter(s) && forall x: Key :: Evolves(s.runs, s'.runs, x)
    ensures OneWriter(s')
  {
    forall i, j | 0 <= i < j < |s'.runs| && s'.runs[i].key.Some? && s'.runs[i].key == s'.runs[j].key
      ensures s'.runs[i].state.Ended? || s'.runs[j].state.Ended?
    {
      assert Evolves(s.runs, s'.runs, s'.runs[i].key.value);
      assert i < |s.runs| && Later(s.runs[i], s'.runs[i]);
      assert j < |s.runs| && Later(s.runs[j], s'.runs[j]);
    }
  }

  /** Changing states of runs, where what has ended stays as it is. */
  ghost predicate SameRuns(a: History, b: History) {
    |a| == |b| && forall i :: 0 <= i < |a| ==> Later(a[i], b[i])
  }

  lemma SameRunsEvolve(a: History, b: History)
    requires SameRuns(a, b)
    ensures forall x: Key :: Evolves(a, b, x)
  {
  }

  lemma SameHistoryOk(cfg: Config, a: History, b: History, clock: int)
    requires HistoryOk(cfg, a, clock) && SameRuns(a, b)
    ensures HistoryOk(cfg, b, clock)
  {
    assert forall i :: 0 <= i < |a| ==> Later(a[i], b[i]) && b[i].startedOn == a[i].startedOn;
  }

  // ---------------------------------------------------------------------------------------
  // Every step keeps the invariant
  // ---------------------------------------------------------------------------------------

  /** A step that changes states of runs and, at most, the phase of one task instance. */
  lemma RunsChanged(cfg: Config, s: State, s': State)
    requires Inv(cfg, s) && SameRuns(s.runs, s'.runs)
    requires s'.clock == s.clock && s'.jobExists == s.jobExists && s'.xcom == s.xcom
    ensures HistoryOk(cfg, s'.runs, s'.clock) && (!s'.jobExists ==> s'.runs == []) && XComOk(s') && OneWriter(s')
    ensures forall x: Key :: Evolves(s.runs, s'.runs, x)
  {
    hide HistoryOk, OneWriter, PhasesOk, XComOk, Evolves;
    SameRunsEvolve(s.runs, s'.runs);
    SameHistoryOk(cfg, s.runs, s'.runs, s.clock);
    assert forall i :: 0 <= i < |s.runs| ==> Later(s.runs[i], s'.runs[i]) && s'.runs[i].key == s.runs[i].key;
    XComLater(s, s');
    OneWriterLater(s, s');
  }

  lemma SameRunsReflexive(runs: History)
    ensures SameRuns(runs, runs)
  {
  }

  lemma StoppedSameRuns(runs: History, ids: set<RunId>)
    ensures SameRuns(runs, Stopped(runs, ids))
  {
  }

  /** The runs that are older than the lookback have ended, if no run outlives the lookback. */
  lemma OldHaveEnded(cfg: Config, runs: History, clock: int, cutoff: int, n: nat)
    requires HistoryOk(cfg, runs, clock) && cfg.window <= cfg.lookback && cutoff <= clock - cfg.lookback
    requires 0 < n <= |runs| && IsOld(runs[n - 1], cutoff)
    ensures NoneActiveBelow(runs, n)
  {
    forall i | 0 <= i < n ensures !IsActive(runs[i].state) {
      assert runs[i].startedOn.value <= runs[n - 1].startedOn.value;
      assert IsOld(runs[i], clock - cfg.window);
    }
  }

  /** What a page adds: below `lo` everything is still open, unless the scan has ended there. */
  lemma PageCovers(runs: History, k: Key, stop: nat, hi: nat, found: set<RunId>)
    requires stop <= hi <= |runs| && LiveAmong(runs, k, hi, found)
    ensures LiveAmong(runs, k, stop, found + LiveIn(runs, stop, hi, k))
  {
  }

  lemma BelowIsOver(runs: History, k: Key, stop: nat, found: set<RunId>)
    requires LiveAmong(runs, k, stop, found) && NoneActiveBelow(runs, stop)
    ensures LiveAmong(runs, k, 0, found)
  {
  }

  lemma PageIsMine(runs: History, k: Key, stop: nat, hi: nat, found: set<RunId>, toStop: set<RunId>)
    requires stop <= hi <= |runs| && Mine(found, runs, k) && toStop <= found
    ensures Mine(found + LiveIn(runs, stop, hi, k), runs, k)
    ensures toStop + ToStopIn(runs, stop, hi, k) <= found + LiveIn(runs, stop, hi, k)
  {
  }

  /** The heart of the matter: a page read keeps what the scan knows, and a scan that ends, but for one that is cut
      short, has found every live run of its task instance. */
  lemma PageKeepsPhase(cfg: Config, runs: History, clock: int, k: Key, p: Phase, lo: nat, stop: nat, hi: nat, top: nat)
    requires cfg.window <= cfg.lookback && HistoryOk(cfg, runs, clock)
    requires p.Scanning? && ScanOk(cfg, runs, clock, k, p) && hi == (if p.pages == 0 then |runs| else p.next)
    requires Examined(runs, lo, stop, hi, p.cutoff)
    requires p.pages + 1 >= cfg.maxPages && stop == lo && lo > 0 ==> IsOld(runs[lo - 1], p.cutoff)
    ensures PhaseOk(cfg, runs, clock, k,
                    AfterPage(cfg, p, top, lo, stop, p.found + LiveIn(runs, stop, hi, k),
                              p.toStop + ToStopIn(runs, stop, hi, k)))
  {
    hide HistoryOk, Mine, LiveAmong, NoneActiveBelow, LiveIn, ToStopIn, IsOld;
    var found := p.found + LiveIn(runs, stop, hi, k);
    if p.pages == 0 {
      AllBelow(runs, k, p.found);
    }
    PageIsMine(runs, k, stop, hi, p.found, p.toStop);
    PageCovers(runs, k, stop, hi, p.found);
    if !(stop == lo && lo > 0 && p.pages + 1 < cfg.maxPages) {
      if stop > 0 {
        OldHaveEnded(cfg, runs, clock, p.cutoff, stop);
      } else {
        NothingBelow(runs);
      }
      BelowIsOver(runs, k, stop, found);
    }
  }

  lemma AllBelow(runs: History, k: Key, found: set<RunId>)
    ensures LiveAmong(runs, k, |runs|, found)
  {
  }

  lemma NothingBelow(runs: History)
    ensures NoneActiveBelow(runs, 0)
  {
  }

  /** A step that changes only the phase of one task instance. */
  lemma PhaseChanged(cfg: Config, s: State, s': State, k: Key, p: Phase)
    requires Inv(cfg, s) && s' == s.(phases := s.phases[k := p], xcom := s'.xcom)
    requires XComOk(s') && PhaseOk(cfg, s.runs, s.clock, k, p)
    ensures Inv(cfg, s')
  {
    hide HistoryOk, PhasesOk, XComOk, PhaseOk, Evolves;
    SameRunsReflexive(s.runs);
    SameRunsEvolve(s.runs, s.runs);
    OtherPhasesOk(cfg, s, s', k, p);
    OneWriterLater(s, s');
  }

  lemma PhaseIsOk(cfg: Config, s: State, k: Key)
    requires PhasesOk(cfg, s)
    ensures PhaseOk(cfg, s.runs, s.clock, k, PhaseOf(s, k))
  {
  }

  lemma TryStartedKeeps(cfg: Config, s: State, s': State, k: Key)
    requires cfg.Valid() && Inv(cfg, s) && TryStarted(cfg, s, s', k)
    ensures Inv(cfg, s')
  {
    hide HistoryOk, PhasesOk, OneWriter;
    PhaseChanged(cfg, s, s', k, s'.phases[k]);
  }

  lemma PageReadKeeps(cfg: Config, s: State, s': State, k: Key, lo: nat, stop: nat)
    requires cfg.window <= cfg.lookback && !CutShort(cfg, s, ReadPage(k, lo, stop))
    requires Inv(cfg, s) && PageRead(cfg, s, s', k, lo, stop)
    ensures Inv(cfg, s')
  {
    hide HistoryOk, PhasesOk, OneWriter, XComOk, ScanOk, AfterPage, LiveIn, ToStopIn;
    PhaseIsOk(cfg, s, k);
    var p := PhaseOf(s, k);
    PageKeepsPhase(cfg, s.runs, s.clock, k, p, lo, stop, PageTop(s, p), if p.pages == 0 then |s.runs| else p.top);
    XComLater(s, s');
    PhaseChanged(cfg, s, s', k, s'.phases[k]);
  }

  lemma BatchStoppedKeeps(cfg: Config, s: State, s': State, k: Key, batch: set<RunId>, accepted: set<RunId>)
    requires Inv(cfg, s) && BatchStopped(s, s', k, batch, accepted)
    ensures Inv(cfg, s')
  {
    hide HistoryOk, PhasesOk, OneWriter, XComOk, Stopped, Evolves, Mine, LiveAmong;
    PhaseIsOk(cfg, s, k);
    var p := PhaseOf(s, k);
    StoppedSameRuns(s.runs, accepted);
    RunsChanged(cfg, s, s');
    MineLater(p.found, s.runs, s'.runs, k);
    LiveAmongLater(s.runs, s'.runs, k, 0, p.found);
    OtherPhasesOk(cfg, s, s', k, s'.phases[k]);
  }

  lemma PollingStartedKeeps(cfg: Config, s: State, s': State, k: Key)
    requires Inv(cfg, s) && PollingStarted(s, s', k)
    ensures Inv(cfg, s')
  {
    hide HistoryOk, PhasesOk, OneWriter, XComOk, Mine, LiveAmong;
    PhaseIsOk(cfg, s, k);
    XComLater(s, s');
    PhaseChanged(cfg, s, s', k, s'.phases[k]);
  }

  lemma PolledKeeps(cfg: Config, s: State, s': State, k: Key, id: RunId)
    requires Inv(cfg, s) && Polled(s, s', k, id)
    ensures Inv(cfg, s')
  {
    hide HistoryOk, PhasesOk, OneWriter, XComOk;
    PhaseIsOk(cfg, s, k);
    XComLater(s, s');
    var p := PhaseOf(s, k);
    assert LiveAmong(s.runs, k, 0, p.pending - {id});
    assert p.pending == {id} ==> p.pending - {id} == {};
    PhaseChanged(cfg, s, s', k, s'.phases[k]);
  }

  lemma RunLaunchedKeeps(cfg: Config, s: State, s': State, k: Key)
    requires Inv(cfg, s) && RunLaunched(s, s', k)
    ensures Inv(cfg, s')
  {
    hide PhasesOk;
    PhaseIsOk(cfg, s, k);
    LaunchedHistoryOk(cfg, s.runs, s.clock, JobRun(Starting, Some(s.clock), Some(k)));
    XComLater(s, s');
    OtherPhasesOk(cfg, s, s', k, Launched(|s.runs|));
    NewWriterIsAlone(s, s', k);
  }

  lemma NewWriterIsAlone(s: State, s': State, k: Key)
    requires OneWriter(s) && LiveAmong(s.runs, k, 0, {}) && RunLaunched(s, s', k)
    ensures OneWriter(s')
  {
    forall i, j | 0 <= i < j < |s'.runs| && s'.runs[i].key.Some? && s'.runs[i].key == s'.runs[j].key
      ensures s'.runs[i].state.Ended? || s'.runs[j].state.Ended?
    {
      assert s'.runs[i] == s.runs[i];
      assert j < |s.runs| ==> s'.runs[j] == s.runs[j];
      if j == |s.runs| {
        assert !IsLive(s.runs[i], k);
      }
    }
  }

  lemma LaunchedHistoryOk(cfg: Config, runs: History, clock: int, run: JobRun)
    requires HistoryOk(cfg, runs, clock) && run.startedOn == Some(clock)
    ensures HistoryOk(cfg, runs + [run], clock)
  {
  }

  lemma RunRecordedKeeps(cfg: Config, s: State, s': State, k: Key)
    requires Inv(cfg, s) && RunRecorded(s, s', k)
    ensures Inv(cfg, s')
  {
    hide HistoryOk, PhasesOk, OneWriter, LiveAmong;
    PhaseIsOk(cfg, s, k);
    PhaseChanged(cfg, s, s', k, s'.phases[k]);
  }

  lemma TryEndedKeeps(cfg: Config, s: State, s': State, k: Key)
    requires Inv(cfg, s) && TryEnded(s, s', k)
    ensures Inv(cfg, s')
  {
    hide HistoryOk, PhasesOk, OneWriter, XComOk;
    XComLater(s, s');
    PhaseChanged(cfg, s, s', k, Idle);
  }

  lemma CancelledKeeps(cfg: Config, s: State, s': State, k: Key)
    requires Inv(cfg, s) && Cancelled(s, s', k)
    ensures Inv(cfg, s')
  {
    hide HistoryOk, PhasesOk, OneWriter, XComOk, Stopped, Evolves;
    StoppedSameRuns(s.runs, {s.xcom[k]});
    RunsChanged(cfg, s, s');
    AllPhasesOk(cfg, s, s');
  }

  lemma ProgressedKeeps(cfg: Config, s: State, s': State, id: RunId, state: RunState)
    requires Inv(cfg, s) && Progressed(s, s', id, state)
    ensures Inv(cfg, s')
  {
    hide HistoryOk, PhasesOk, OneWriter, XComOk, Evolves;
    RunsChanged(cfg, s, s');
    AllPhasesOk(cfg, s, s');
  }

  lemma OthersLaunchedKeeps(cfg: Config, s: State, s': State, n: nat)
    requires Inv(cfg, s) && OthersLaunched(s, s', n)
    ensures Inv(cfg, s')
  {
    hide PhasesOk;
    OthersHistoryOk(cfg, s.runs, s.clock, n);
    XComLater(s, s');
    OthersEvolve(s.runs, s.clock, n);
    AllPhasesOk(cfg, s, s');
    OneWriterLater(s, s');
  }

  lemma OthersHistoryOk(cfg: Config, runs: History, clock: int, n: nat)
    requires HistoryOk(cfg, runs, clock)
    ensures HistoryOk(cfg, runs + Unmarked(clock, n), clock)
  {
  }

  lemma OthersEvolve(runs: History, clock: int, n: nat)
    ensures forall x: Key :: Evolves(runs, runs + Unmarked(clock, n), x)
  {
  }

  lemma TickedKeeps(cfg: Config, s: State, s': State, seconds: nat)
    requires Inv(cfg, s) && Ticked(cfg, s, s', seconds)
    ensures Inv(cfg, s')
  {
    hide PhasesOk, OneWriter, Evolves, WithinWindow;
    SameRunsReflexive(s.runs);
    SameRunsEvolve(s.runs, s.runs);
    XComLater(s, s');
    AllPhasesOk(cfg, s, s');
    OneWriterLater(s, s');
  }

  lemma StepKeeps(cfg: Config, s: State, s': State, step: Step)
    requires cfg.Valid() && cfg.window <= cfg.lookback && !CutShort(cfg, s, step)
    requires Inv(cfg, s) && StepTo(cfg, s, s', step)
    ensures Inv(cfg, s')
  {
    hide Inv, CutShort, TryStarted, PageRead, BatchStopped, PollingStarted, Polled, RunLaunched, RunRecorded,
         TryEnded, Cancelled, Progressed, OthersLaunched, Ticked;
    match step
    case StartTry(k) => TryStartedKeeps(cfg, s, s', k);
    case ReadPage(k, lo, stop) => PageReadKeeps(cfg, s, s', k, lo, stop);
    case StopBatch(k, batch, accepted) => BatchStoppedKeeps(cfg, s, s', k, batch, accepted);
    case StartPolling(k) => PollingStartedKeeps(cfg, s, s', k);
    case Poll(k, id) => PolledKeeps(cfg, s, s', k, id);
    case Launch(k) => RunLaunchedKeeps(cfg, s, s', k);
    case Record(k) => RunRecordedKeeps(cfg, s, s', k);
    case End(k) => TryEndedKeeps(cfg, s, s', k);
    case Cancel(k) => CancelledKeeps(cfg, s, s', k);
    case Progress(id, state) => ProgressedKeeps(cfg, s, s', id, state);
    case OthersLaunch(n) => OthersLaunchedKeeps(cfg, s, s', n);
    case Tick(seconds) => TickedKeeps(cfg, s, s', seconds);
  }

  lemma InitInv(cfg: Config, s: State)
    requires Init(s)
    ensures Inv(cfg, s)
  {
  }

  lemma {:induction false} ReachedInv(cfg: Config, s: State, n: nat)
    requires cfg.Valid() && cfg.window <= cfg.lookback && Reached(cfg, s, n, Calm)
    ensures Inv(cfg, s)
    decreases n
  {
    hide Inv, CutShort, StepTo;
    if n == 0 {
      InitInv(cfg, s);
    } else {
      var p, step :| Reached(cfg, p, n - 1, Calm) && StepTo(cfg, p, s, step) && Within(cfg, Calm, p, step);
      ReachedInv(cfg, p, n - 1);
      StepKeeps(cfg, p, s, step);
    }
  }

  // ---------------------------------------------------------------------------------------
  // Full pages
  // ---------------------------------------------------------------------------------------

  /** A scan that has read only full pages. */
  ghost predicate ScanFull(cfg: Config, runs: History, p: Phase) {
    p.Scanning? ==>
      && p.pages < cfg.maxPages
      && (p.pages > 0 ==>
        p.top <= |runs| && p.top == p.next + p.pages * cfg.pageSize && Uncrowded(cfg, runs, p.top, p.cutoff))
  }

  ghost predicate AllFull(cfg: Config, s: State) {
    forall k: Key :: ScanFull(cfg, s.runs, PhaseOf(s, k))
  }

  /** Runs keep their start time, and stay in the list. */
  ghost predicate Grows(a: History, b: History) {
    |a| <= |b| && forall i :: 0 <= i < |a| ==> b[i].startedOn == a[i].startedOn
  }

  lemma StepGrows(cfg: Config, s: State, s': State, step: Step)
    requires StepTo(cfg, s, s', step)
    ensures Grows(s.runs, s'.runs)
  {
    hide AfterPage, Examined, LiveIn, ToStopIn, WithinWindow;
  }

  /** Only the start of a try and a page read put a task instance into a scan. */
  lemma StepScans(cfg: Config, s: State, s': State, step: Step, k: Key)
    requires StepTo(cfg, s, s', step) && PhaseOf(s', k).Scanning? && PhaseOf(s', k).pages > 0
    ensures PhaseOf(s', k) == PhaseOf(s, k) || (step.ReadPage? && step.k == k)
  {
    hide Examined, LiveIn, ToStopIn, Stopped, Unmarked, WithinWindow;
  }

  lemma StepScansFresh(cfg: Config, s: State, s': State, step: Step, k: Key)
    requires cfg.Valid() && StepTo(cfg, s, s', step) && ScanFull(cfg, s.runs, PhaseOf(s, k))
    ensures PhaseOf(s', k).Scanning? ==> PhaseOf(s', k).pages < cfg.maxPages
  {
    hide Examined, LiveIn, ToStopIn, Stopped, Unmarked, WithinWindow, Uncrowded;
  }

  lemma ScanFullLater(cfg: Config, a: History, b: History, p: Phase)
    requires ScanFull(cfg, a, p) && Grows(a, b)
    ensures ScanFull(cfg, b, p)
  {
  }

  /** A full page of a scan that has read only full pages. */
  lemma FullPageRead(cfg: Config, s: State, s': State, k: Key, lo: nat, stop: nat)
    requires cfg.Valid() && ScanFull(cfg, s.runs, PhaseOf(s, k)) && PageRead(cfg, s, s', k, lo, stop)
    requires FullPage(cfg, s, ReadPage(k, lo, stop))
    ensures ScanFull(cfg, s'.runs, PhaseOf(s', k)) && !CutShort(cfg, s, ReadPage(k, lo, stop))
  {
    hide Examined, LiveIn, ToStopIn, IsOld;
    var p := PhaseOf(s, k);
    OnePageMore(p.pages, cfg.pageSize);
    if lo > 0 && p.pages + 1 >= cfg.maxPages {
      assert p.pages + 1 == cfg.maxPages;
    }
  }

  lemma OnePageMore(pages: nat, pageSize: nat)
    ensures (pages + 1) * pageSize == pages * pageSize + pageSize
  {
  }

  lemma OrderlyStep(cfg: Config, s: State, s': State, step: Step)
    requires cfg.Valid() && AllFull(cfg, s) && StepTo(cfg, s, s', step) && FullPage(cfg, s, step)
    ensures AllFull(cfg, s') && !CutShort(cfg, s, step)
  {
    StepGrows(cfg, s, s', step);
    if step.ReadPage? {
      FullPageRead(cfg, s, s', step.k, step.lo, step.stop);
    }
    hide StepTo, FullPage, PhaseOf, Grows, ScanFull;
    forall k: Key ensures ScanFull(cfg, s'.runs, PhaseOf(s', k)) {
      if !(step.ReadPage? && step.k == k) {
        OrderlyOther(cfg, s, s', step, k);
      }
    }
  }

  lemma OrderlyOther(cfg: Config, s: State, s': State, step: Step, k: Key)
    requires cfg.Valid() && AllFull(cfg, s) && StepTo(cfg, s, s', step) && Grows(s.runs, s'.runs)
    requires !(step.ReadPage? && step.k == k)
    ensures ScanFull(cfg, s'.runs, PhaseOf(s', k))
  {
    hide StepTo, PhaseOf, Grows, Uncrowded;
    assert ScanFull(cfg, s.runs, PhaseOf(s, k));
    StepScansFresh(cfg, s, s', step, k);
    var p := PhaseOf(s', k);
    if p.Scanning? && p.pages > 0 {
      StepScans(cfg, s, s', step, k);
      ScanFullLater(cfg, s.runs, s'.runs, p);
    }
  }

  /** With full pages, and no more runs than the page cap within a lookback, no scan is cut short. */
  lemma {:induction false} OrderlyIsCalm(cfg: Config, s: State, n: nat)
    requires cfg.Valid() && Reached(cfg, s, n, Orderly)
    ensures Reached(cfg, s, n, Calm) && AllFull(cfg, s)
    decreases n
  {
    hide AllFull, CutShort, FullPage, StepTo;
    if n == 0 {
      InitFull(cfg, s);
    } else {
      var p, step :| Reached(cfg, p, n - 1, Orderly) && StepTo(cfg, p, s, step) && Within(cfg, Orderly, p, step);
      OrderlyIsCalm(cfg, p, n - 1);
      OrderlyStep(cfg, p, s, step);
      assert Within(cfg, Calm, p, step);
    }
  }

  lemma InitFull(cfg: Config, s: State)
    requires Init(s)
    ensures AllFull(cfg, s)
  {
  }

  // ---------------------------------------------------------------------------------------
  // What the protocol does
  // ---------------------------------------------------------------------------------------

  /** A page step collects what the scan loop and the stop loop of the guard make of the same page. */
  lemma PageIsTheGuards(runs: History, lo: nat, hi: nat, k: Key, id: RunId)
    requires lo <= hi <= |runs|
    ensures id in LiveIn(runs, lo, hi, k) <==> id in Ids(Matching(Newest(runs, lo, hi), k))
    ensures id in ToStopIn(runs, lo, hi, k) <==> id in GlueGuard.ToStop(Matching(Newest(runs, lo, hi), k))
  {
    hide Newest, Matching;
    var page := Newest(runs, lo, hi);
    var found := Matching(page, k);
    GlueGuard.ToStopExactly(found, id);
    forall i | 0 <= i < |found| ensures lo <= found[i].id < hi && found[i].run == runs[found[i].id] {
      MatchingMember(page, found[i], k);
      var j :| 0 <= j < |page| && page[j] == found[i];
      NewestAt(runs, lo, hi, j);
    }
    forall i | 0 <= i < |found| ensures IsLive(found[i].run, k) {
      MatchingMember(page, found[i], k);
    }
    if lo <= id < hi && IsLive(runs[id], k) {
      NewestAt(runs, lo, hi, hi - 1 - id);
      MatchingMember(page, page[hi - 1 - id], k);
      var i :| 0 <= i < |found| && found[i] == page[hi - 1 - id];
      assert Ids(found)[i] == id;
    }
  }

  /** Where a page ends if it is read from `hi` down to `lo`: at its first old run, if it has one. */
  lemma PageEnd(runs: History, lo: nat, hi: nat, cutoff: int) returns (stop: nat)
    requires lo <= hi <= |runs|
    ensures Examined(runs, lo, stop, hi, cutoff)
  {
    stop := hi;
    while stop > lo && !IsOld(runs[stop - 1], cutoff)
      invariant lo <= stop <= hi && forall i :: stop <= i < hi ==> !IsOld(runs[i], cutoff)
    {
      stop := stop - 1;
    }
  }

  /** A scan can always go on with a full page, or the last one, wherever it is. */
  lemma FullPagePossible(cfg: Config, s: State, k: Key) returns (s': State, lo: nat, stop: nat)
    requires PhaseOf(s, k).Scanning? && PhaseOf(s, k).next <= |s.runs|
    requires PhaseOf(s, k).pages == 0 ==> Uncrowded(cfg, s.runs, |s.runs|, PhaseOf(s, k).cutoff)
    ensures StepTo(cfg, s, s', ReadPage(k, lo, stop)) && FullPage(cfg, s, ReadPage(k, lo, stop))
    ensures PageTop(s, PhaseOf(s, k)) == lo + cfg.pageSize || (lo == 0 && PageTop(s, PhaseOf(s, k)) <= cfg.pageSize)
  {
    hide Uncrowded, IsOld, Examined, LiveIn, ToStopIn, AfterPage;
    var p := PhaseOf(s, k);
    var hi := PageTop(s, p);
    lo := if hi > cfg.pageSize then hi - cfg.pageSize else 0;
    stop := PageEnd(s.runs, lo, hi, p.cutoff);
    ExaminedRange(s.runs, lo, stop, hi, p.cutoff);
    var top := if p.pages == 0 then |s.runs| else p.top;
    s' := s.(phases := s.phases[k := AfterPage(cfg, p, top, lo, stop, p.found + LiveIn(s.runs, stop, hi, k),
                                               p.toStop + ToStopIn(s.runs, stop, hi, k))]);
  }

  lemma ExaminedRange(runs: History, lo: nat, stop: nat, hi: nat, cutoff: int)
    requires Examined(runs, lo, stop, hi, cutoff)
    ensures lo <= stop <= hi <= |runs|
  {
  }

  /** What a retry is for: it finds the run of the first try and asks it to stop. */
  lemma RetryStops(cfg: Config, k: Key, scope: Scope)
    requires cfg.Valid()
    ensures Reached(cfg, State([FirstRun(k).(state := Stopping)], 0, true, map[k := StoppingRuns({0}, {})], map[]), 6,
                    scope)
  {
    hide Reached;
    CapPositive(cfg);
    FirstTry(cfg, k, scope);
    var s3 := State([FirstRun(k)], 0, true, map[k := Idle], map[]);
    var p := Scanning(0 - cfg.lookback, 0, 0, 0, {}, {});
    var s4 := s3.(phases := map[k := p]);
    assert s3.phases[k := p] == s4.phases && s3.xcom - {k} == map[];
    assert StepTo(cfg, s3, s4, StartTry(k));
    Extend(cfg, s3, s4, StartTry(k), 3, scope);
    var s5 := s3.(phases := map[k := StoppingRuns({0}, {0})]);
    assert s4.phases[k := StoppingRuns({0}, {0})] == s5.phases;
    assert LiveIn(s4.runs, 0, 1, k) == {0} && {} + LiveIn(s4.runs, 0, 1, k) == {0};
    assert ToStopIn(s4.runs, 0, 1, k) == {0} && {} + ToStopIn(s4.runs, 0, 1, k) == {0};
    assert Examined(s4.runs, 0, 0, 1, 0 - cfg.lookback);
    assert StepTo(cfg, s4, s5, ReadPage(k, 0, 0));
    Extend(cfg, s4, s5, ReadPage(k, 0, 0), 4, scope);
    var s6 := State([FirstRun(k).(state := Stopping)], 0, true, map[k := StoppingRuns({0}, {})], map[]);
    assert s5.phases[k := StoppingRuns({0}, {0} - {0})] == s6.phases;
    assert Stopped(s5.runs, {0}) == s6.runs;
    assert StepTo(cfg, s5, s6, StopBatch(k, {0}, {0}));
    Extend(cfg, s5, s6, StopBatch(k, {0}, {0}), 5, scope);
  }

  /** And when that run has ended, the retry launches and records one of its own. */
  lemma RetryReplaces(cfg: Config, k: Key, scope: Scope)
    requires cfg.Valid()
    ensures Reached(cfg, State([FirstRun(k).(state := Ended("STOPPED")), FirstRun(k)], 0, true, map[k := Deferred(1)],
                               map[k := 1]), 11, scope)
  {
    hide Reached;
    RetryStops(cfg, k, scope);
    var s6 := State([FirstRun(k).(state := Stopping)], 0, true, map[k := StoppingRuns({0}, {})], map[]);
    var s7 := s6.(phases := map[k := Polling({0})]);
    assert s6.phases[k := Polling({0})] == s7.phases;
    assert StepTo(cfg, s6, s7, StartPolling(k));
    Extend(cfg, s6, s7, StartPolling(k), 6, scope);
    var ended := [FirstRun(k).(state := Ended("STOPPED"))];
    var s8 := s7.(runs := ended);
    assert s7.runs[0 := s7.runs[0].(state := Ended("STOPPED"))] == ended;
    assert StepTo(cfg, s7, s8, Progress(0, Ended("STOPPED")));
    Extend(cfg, s7, s8, Progress(0, Ended("STOPPED")), 7, scope);
    var s9 := s8.(phases := map[k := Ready]);
    assert s8.phases[k := Ready] == s9.phases;
    assert StepTo(cfg, s8, s9, Poll(k, 0));
    Extend(cfg, s8, s9, Poll(k, 0), 8, scope);
    var s10 := State(ended + [FirstRun(k)], 0, true, map[k := Launched(1)], map[]);
    assert s9.phases[k := Launched(1)] == s10.phases;
    assert StepTo(cfg, s9, s10, Launch(k));
    Extend(cfg, s9, s10, Launch(k), 9, scope);
    var s11 := State(ended + [FirstRun(k)], 0, true, map[k := Deferred(1)], map[k := 1]);
    assert s10.phases[k := Deferred(1)] == s11.phases && s10.xcom[k := 1] == s11.xcom;
    assert StepTo(cfg, s10, s11, Step.Record(k));
    Extend(cfg, s10, s11, Step.Record(k), 10, scope);
    assert ended + [FirstRun(k)] == [FirstRun(k).(state := Ended("STOPPED")), FirstRun(k)];
  }

  /** A cancel asks for the recorded run to stop. */
  lemma CancelStops(cfg: Config, k: Key, scope: Scope)
    requires cfg.Valid()
    ensures Reached(cfg, State([FirstRun(k).(state := Ended("STOPPED")), FirstRun(k).(state := Stopping)], 0, true,
                               map[k := Deferred(1)], map[k := 1]), 12, scope)
  {
    hide Reached;
    RetryReplaces(cfg, k, scope);
    var ended := FirstRun(k).(state := Ended("STOPPED"));
    var s11 := State([ended, FirstRun(k)], 0, true, map[k := Deferred(1)], map[k := 1]);
    var s12 := s11.(runs := [ended, FirstRun(k).(state := Stopping)]);
    assert Stopped(s11.runs, {1}) == s12.runs;
    assert StepTo(cfg, s11, s12, Cancel(k));
    Extend(cfg, s11, s12, Cancel(k), 11, scope);
  }

  /** `n` steps of anybody, through which the task instance keeps stopping the runs its scan found; `asked` holds the
      runs it asked to stop meanwhile. */
  ghost predicate KeepsStopping(cfg: Config, s: State, s': State, n: nat, k: Key, asked: set<RunId>)
    decreases n
  {
    && PhaseOf(s', k).StoppingRuns?
    && if n == 0 then s' == s && asked == {}
       else exists p, step, before ::
         && KeepsStopping(cfg, s, p, n - 1, k, before) && StepTo(cfg, p, s', step)
         && asked == before + BatchOf(step, k)
  }

  function BatchOf(step: Step, k: Key): set<RunId> {
    if step.StopBatch? && step.k == k then step.batch else {}
  }

  lemma StoppingStep(cfg: Config, s: State, s': State, step: Step, k: Key)
    requires StepTo(cfg, s, s', step) && PhaseOf(s, k).StoppingRuns? && PhaseOf(s', k).StoppingRuns?
    ensures PhaseOf(s', k).found == PhaseOf(s, k).found
    ensures PhaseOf(s', k).toStop == PhaseOf(s, k).toStop - BatchOf(step, k) && BatchOf(step, k) <= PhaseOf(s, k).toStop
  {
    hide AfterPage, Examined, LiveIn, ToStopIn, Stopped, Unmarked, WithinWindow;
  }

  lemma {:induction false} AskedSoFar(cfg: Config, s: State, s': State, n: nat, k: Key, asked: set<RunId>)
    requires PhaseOf(s, k).StoppingRuns? && KeepsStopping(cfg, s, s', n, k, asked)
    ensures PhaseOf(s', k).StoppingRuns? && PhaseOf(s', k).found == PhaseOf(s, k).found
    ensures PhaseOf(s', k).toStop == PhaseOf(s, k).toStop - asked && asked <= PhaseOf(s, k).toStop
    decreases n
  {
    hide StepTo, PhaseOf;
    if n > 0 {
      var p, step, before :| KeepsStopping(cfg, s, p, n - 1, k, before) && StepTo(cfg, p, s', step)
                             && asked == before + BatchOf(step, k);
      AskedSoFar(cfg, s, p, n - 1, k, before);
      StoppingStep(cfg, p, s', step, k);
    }
  }

  /** Whatever happens in between: polling begins when exactly the runs that the scan did not see stopping have been
      asked to stop, and waits for all that it found. */
  lemma AllAskedBeforePolling(cfg: Config, s: State, p: State, s': State, n: nat, k: Key, asked: set<RunId>)
    requires PhaseOf(s, k).StoppingRuns? && KeepsStopping(cfg, s, p, n, k, asked)
    requires StepTo(cfg, p, s', StartPolling(k))
    ensures asked == PhaseOf(s, k).toStop && PhaseOf(s', k) == Polling(PhaseOf(s, k).found)
  {
    AskedSoFar(cfg, s, p, n, k, asked);
    hide KeepsStopping;
    NothingLeft(PhaseOf(s, k).toStop, asked);
  }

  lemma NothingLeft(all: set<RunId>, some: set<RunId>)
    requires some <= all && all - some == {}
    ensures some == all
  {
    assert forall x :: x in all ==> x in some || x in all - some;
  }

  /** The runs that a try still has to see ended. */
  function WaitedFor(p: Phase): set<RunId> {
    if p.Polling? then p.pending else {}
  }

  /** A poll that goes on has seen one run ended, and waits for the others. */
  lemma PollSeesOneEnded(cfg: Config, s: State, s': State, k: Key, id: RunId)
    requires StepTo(cfg, s, s', Poll(k, id))
    ensures id < |s.runs| && s.runs[id].state.Ended? && id in WaitedFor(PhaseOf(s, k))
    ensures WaitedFor(PhaseOf(s', k)) == WaitedFor(PhaseOf(s, k)) - {id}
    ensures PhaseOf(s', k) == Ready <==> WaitedFor(PhaseOf(s', k)) == {}
  {
    var pending := PhaseOf(s, k).pending;
    assert pending - {id} == {} ==> pending == {id} by {
      assert forall x :: x in pending ==> x == id || x in pending - {id};
    }
  }

  // ---------------------------------------------------------------------------------------
  // Two writers
  // ---------------------------------------------------------------------------------------

  lemma Extend(cfg: Config, p: State, s: State, step: Step, n: nat, scope: Scope)
    requires Reached(cfg, p, n, scope) && StepTo(cfg, p, s, step) && Within(cfg, scope, p, step)
    ensures Reached(cfg, s, n + 1, scope)
  {
  }

  function FirstRun(k: Key): JobRun {
    JobRun(Starting, Some(0), Some(k))
  }

  /** A first try launches, and ends. */
  lemma FirstTry(cfg: Config, k: Key, scope: Scope)
    requires cfg.Valid()
    ensures Reached(cfg, State([FirstRun(k)], 0, true, map[k := Idle], map[]), 3, scope)
  {
    hide Reached;
    var s0 := State([], 0, false, map[], map[]);
    var s1 := s0.(phases := map[k := Ready]);
    var s2 := State([FirstRun(k)], 0, true, map[k := Launched(0)], map[]);
    var s3 := s2.(phases := map[k := Idle]);
    assert s0.phases[k := Ready] == map[k := Ready] && s0.xcom - {k} == map[];
    assert s1.phases[k := Launched(0)] == map[k := Launched(0)] && s2.phases[k := Idle] == map[k := Idle];
    ReachedFirst(cfg, s0, scope);
    assert StepTo(cfg, s0, s1, StartTry(k));
    Extend(cfg, s0, s1, StartTry(k), 0, scope);
    assert s1.runs + [FirstRun(k)] == [FirstRun(k)];
    assert StepTo(cfg, s1, s2, Launch(k));
    Extend(cfg, s1, s2, Launch(k), 1, scope);
    Extend(cfg, s2, s3, End(k), 2, scope);
  }

  lemma ReachedFirst(cfg: Config, s: State, scope: Scope)
    requires Init(s)
    ensures Reached(cfg, s, 0, scope)
  {
  }

  lemma CapPositive(cfg: Config)
    requires cfg.Valid()
    ensures cfg.Cap() >= 1
  {
    assert cfg.maxPages * cfg.pageSize >= 1 * cfg.pageSize;
  }

  /** A run that outlives the lookback is overlooked by the next scan, and has company. */
  lemma LongRunTwoWriters(cfg: Config, k: Key) returns (s: State)
    requires cfg.Valid() && cfg.window > cfg.lookback
    ensures Reached(cfg, s, 7, Orderly) && !OneWriter(s)
  {
    hide Reached, OneWriter;
    CapPositive(cfg);
    FirstTry(cfg, k, Orderly);
    var now := cfg.lookback + 1;
    var s3 := State([FirstRun(k)], 0, true, map[k := Idle], map[]);
    var s4 := s3.(clock := now);
    Extend(cfg, s3, s4, Tick(now), 3, Orderly);
    var p := Scanning(1, 0, 0, 0, {}, {});
    var s5 := s4.(phases := map[k := p]);
    assert s4.phases[k := p] == s5.phases && s4.xcom - {k} == map[];
    assert StepTo(cfg, s4, s5, StartTry(k));
    Extend(cfg, s4, s5, StartTry(k), 4, Orderly);
    var s6 := s4.(phases := map[k := Ready]);
    assert s5.phases[k := Ready] == s6.phases;
    assert LiveIn(s5.runs, 1, 1, k) == {} && {} + LiveIn(s5.runs, 1, 1, k) == {};
    assert Examined(s5.runs, 0, 1, 1, 1);
    assert StepTo(cfg, s5, s6, ReadPage(k, 0, 1));
    Extend(cfg, s5, s6, ReadPage(k, 0, 1), 5, Orderly);
    s := State([FirstRun(k), JobRun(Starting, Some(now), Some(k))], now, true, map[k := Launched(1)], map[]);
    assert s6.runs + [JobRun(Starting, Some(now), Some(k))] == s.runs && s6.phases[k := Launched(1)] == s.phases;
    assert StepTo(cfg, s6, s, Launch(k));
    Extend(cfg, s6, s, Launch(k), 6, Orderly);
    TwoWriters(s, k, 0, 1);
  }

  lemma TwoWriters(s: State, k: Key, i: nat, j: nat)
    requires i < |s.runs| && j < |s.runs| && i != j && s.runs[i].key == s.runs[j].key == Some(k)
    requires !s.runs[i].state.Ended? && !s.runs[j].state.Ended?
    ensures !OneWriter(s)
  {
  }

  /** The state of a retry whose scan is behind `Cap()` newer runs of other writers, after some pages. */
  function BehindOthers(cfg: Config, k: Key, p: Phase): State {
    State([FirstRun(k)] + Unmarked(0, cfg.Cap()), 0, true, map[k := p], map[])
  }

  function ScanAt(cfg: Config, pages: nat): Phase
    requires pages * cfg.pageSize <= cfg.Cap()
  {
    if pages == 0 then Scanning(0 - cfg.lookback, 0, 0, 0, {}, {})
    else Scanning(0 - cfg.lookback, pages, cfg.Cap() + 1, cfg.Cap() + 1 - pages * cfg.pageSize, {}, {})
  }

  lemma PagesFit(cfg: Config, pages: nat)
    requires pages <= cfg.maxPages
    ensures pages * cfg.pageSize <= cfg.Cap()
  {
    assert cfg.Cap() == pages * cfg.pageSize + (cfg.maxPages - pages) * cfg.pageSize;
  }

  lemma NoOwnAmongOthers(cfg: Config, k: Key, lo: nat, hi: nat)
    requires 1 <= lo <= hi <= cfg.Cap() + 1
    ensures var runs := BehindOthers(cfg, k, Idle).runs;
            && LiveIn(runs, lo, hi, k) == {} && ToStopIn(runs, lo, hi, k) == {}
            && Examined(runs, lo, lo, hi, 0 - cfg.lookback)
  {
  }

  /** The page read after `pages` full ones. */
  function NextPage(cfg: Config, k: Key, pages: nat): Step
    requires (pages + 1) * cfg.pageSize <= cfg.Cap()
  {
    var lo := cfg.Cap() + 1 - (pages + 1) * cfg.pageSize;
    ReadPage(k, lo, lo)
  }

  lemma OnePageRead(cfg: Config, k: Key, pages: nat)
    requires cfg.Valid() && pages < cfg.maxPages
    requires pages * cfg.pageSize <= cfg.Cap() && (pages + 1) * cfg.pageSize <= cfg.Cap()
    ensures StepTo(cfg, BehindOthers(cfg, k, ScanAt(cfg, pages)),
                   BehindOthers(cfg, k, if pages + 1 == cfg.maxPages then Ready else ScanAt(cfg, pages + 1)),
                   NextPage(cfg, k, pages))
  {
    hide LiveIn, ToStopIn, Examined;
    var p := ScanAt(cfg, pages);
    var s := BehindOthers(cfg, k, p);
    OnePageMore(pages, cfg.pageSize);
    assert pages == 0 ==> pages * cfg.pageSize == 0;
    var hi, lo := cfg.Cap() + 1 - pages * cfg.pageSize, cfg.Cap() + 1 - (pages + 1) * cfg.pageSize;
    assert hi == if p.pages == 0 then |s.runs| else p.next;
    assert lo == if hi > cfg.pageSize then hi - cfg.pageSize else 0;
    NoOwnAmongOthers(cfg, k, lo, hi);
    assert p.found + LiveIn(s.runs, lo, hi, k) == {} && p.toStop + ToStopIn(s.runs, lo, hi, k) == {};
    var p' := if pages + 1 == cfg.maxPages then Ready else ScanAt(cfg, pages + 1);
    assert AfterPage(cfg, p, cfg.Cap() + 1, lo, lo, {}, {}) == p';
    assert s.phases[k := p'] == map[k := p'];
  }

  lemma {:induction false} ScanBehindOthers(cfg: Config, k: Key, pages: nat)
    requires cfg.Valid() && pages < cfg.maxPages && pages * cfg.pageSize <= cfg.Cap()
    ensures Reached(cfg, BehindOthers(cfg, k, ScanAt(cfg, pages)), 5 + pages, Any)
  {
    hide Reached;
    if pages == 0 {
      FirstTry(cfg, k, Any);
      var s3 := State([FirstRun(k)], 0, true, map[k := Idle], map[]);
      var s4 := BehindOthers(cfg, k, Idle);
      assert StepTo(cfg, s3, s4, OthersLaunch(cfg.Cap()));
      Extend(cfg, s3, s4, OthersLaunch(cfg.Cap()), 3, Any);
      var s5 := BehindOthers(cfg, k, ScanAt(cfg, 0));
      assert s4.phases[k := ScanAt(cfg, 0)] == s5.phases && s4.xcom - {k} == map[];
      assert StepTo(cfg, s4, s5, StartTry(k));
      Extend(cfg, s4, s5, StartTry(k), 4, Any);
    } else {
      hide StepTo, ScanAt, BehindOthers, NextPage;
      PagesFit(cfg, pages - 1);
      ScanBehindOthers(cfg, k, pages - 1);
      OnePageRead(cfg, k, pages - 1);
      Extend(cfg, BehindOthers(cfg, k, ScanAt(cfg, pages - 1)), BehindOthers(cfg, k, ScanAt(cfg, pages)),
             NextPage(cfg, k, pages - 1), 4 + pages, Any);
    }
  }

  /** Whatever the window and the lookback: a scan cut off by the page cap can miss a live run. */
  lemma CrowdedTwoWriters(cfg: Config, k: Key) returns (s: State, n: nat)
    requires cfg.Valid()
    ensures Reached(cfg, s, n, Any) && !OneWriter(s)
  {
    hide Reached, OneWriter;
    var last := cfg.maxPages - 1;
    PagesFit(cfg, last);
    PagesFit(cfg, last + 1);
    ScanBehindOthers(cfg, k, last);
    OnePageRead(cfg, k, last);
    var s6 := BehindOthers(cfg, k, Ready);
    Extend(cfg, BehindOthers(cfg, k, ScanAt(cfg, last)), s6, NextPage(cfg, k, last), 5 + last, Any);
    n := 7 + last;
    s := s6.(runs := s6.runs + [FirstRun(k)], phases := map[k := Launched(|s6.runs|)]);
    assert s6.phases[k := Launched(|s6.runs|)] == s.phases;
    assert StepTo(cfg, s6, s, Launch(k));
    Extend(cfg, s6, s, Launch(k), 6 + last, Any);
    TwoWriters(s, k, 0, |s6.runs|);
  }

  // ---------------------------------------------------------------------------------------
  // The main theorem
  // ---------------------------------------------------------------------------------------

  /** Each task instance has at most one active Glue run at any time exactly if no run outlives the lookback: in every
      run of the system in which no scan is cut short, and as well in every one with full pages in which no more runs
      than the page cap start within a lookback. */
  lemma SingleWriterExactly(cfg: Config, scope: Scope)
    requires cfg.Valid() && scope != Any
    ensures (forall s, n: nat :: Reached(cfg, s, n, scope) ==> OneWriter(s)) <==> cfg.window <= cfg.lookback
  {
    hide Reached, OneWriter;
    if cfg.window <= cfg.lookback {
      forall s, n: nat | Reached(cfg, s, n, scope) ensures OneWriter(s) {
        if scope == Orderly {
          OrderlyIsCalm(cfg, s, n);
        }
        ReachedInv(cfg, s, n);
      }
    } else {
      var s := LongRunTwoWriters(cfg, "k");
      OrderlyIsCalm(cfg, s, 7);
    }
  }

  /** Without a bound on how crowded the run list is, no lookback is long enough. */
  lemma NeverSafeWhenCrowded(cfg: Config)
    requires cfg.Valid()
    ensures exists s, n: nat :: Reached(cfg, s, n, Any) && !OneWriter(s)
  {
    hide Reached, OneWriter;
    var s, n := CrowdedTwoWriters(cfg, "k");
  }

  // ---------------------------------------------------------------------------------------
  // Task instances do not touch each other's runs
  // ---------------------------------------------------------------------------------------

  predicate StepOf(step: Step, k: Key) {
    !step.Progress? && !step.OthersLaunch? && !step.Tick? && step.k == k
  }

  /** What a try holds of the run list are runs of its task instance. */
  ghost predicate OwnPhase(runs: History, k: Key, p: Phase) {
    match p
    case Idle => true
    case Scanning(_, _, _, _, found, toStop) => Mine(found, runs, k) && toStop <= found
    case StoppingRuns(found, toStop) => Mine(found, runs, k) && toStop <= found
    case Polling(pending) => Mine(pending, runs, k)
    case Ready => true
    case Launched(id) => Mine({id}, runs, k)
    case Deferred(id) => Mine({id}, runs, k)
  }

  /** Every try and every record holds runs of its own task instance only. Unlike `Inv`, this needs neither a bound on
      the age of runs nor a scan that is not cut short. */
  ghost predicate Owned(s: State) {
    XComOk(s) && forall k: Key :: OwnPhase(s.runs, k, PhaseOf(s, k))
  }

  /** Runs keep their key, and stay in the list. */
  ghost predicate KeepsKeys(a: History, b: History) {
    |a| <= |b| && forall i :: 0 <= i < |a| ==> b[i].key == a[i].key
  }

  lemma StepKeepsKeys(cfg: Config, s: State, s': State, step: Step)
    requires StepTo(cfg, s, s', step)
    ensures KeepsKeys(s.runs, s'.runs)
  {
    hide AfterPage, Examined, LiveIn, ToStopIn, WithinWindow;
  }

  lemma MineGrows(ids: set<RunId>, a: History, b: History, k: Key)
    requires Mine(ids, a, k) && KeepsKeys(a, b)
    ensures Mine(ids, b, k)
  {
  }

  lemma OwnPhaseGrows(a: History, b: History, k: Key, p: Phase)
    requires OwnPhase(a, k, p) && KeepsKeys(a, b)
    ensures OwnPhase(b, k, p)
  {
    hide Mine, KeepsKeys;
    match p
    case Idle =>
    case Scanning(_, _, _, _, found, _) => MineGrows(found, a, b, k);
    case StoppingRuns(found, _) => MineGrows(found, a, b, k);
    case Polling(pending) => MineGrows(pending, a, b, k);
    case Ready =>
    case Launched(id) => MineGrows({id}, a, b, k);
    case Deferred(id) => MineGrows({id}, a, b, k);
  }

  /** A step of one task instance leaves the phases and the records of the others alone, and so does a step of none. */
  lemma OthersStay(cfg: Config, s: State, s': State, step: Step, x: Key)
    requires StepTo(cfg, s, s', step) && !StepOf(step, x)
    ensures PhaseOf(s', x) == PhaseOf(s, x)
    ensures (x in s.xcom <==> x in s'.xcom) && (x in s.xcom ==> s'.xcom[x] == s.xcom[x])
  {
    hide AfterPage, Examined, LiveIn, ToStopIn, Stopped, Unmarked, WithinWindow;
  }

  /** Any page adds own runs only, whether or not it ends a scan that is cut short. */
  lemma PageIsOwn(cfg: Config, s: State, s': State, k: Key, lo: nat, stop: nat)
    requires OwnPhase(s.runs, k, PhaseOf(s, k)) && PageRead(cfg, s, s', k, lo, stop)
    ensures OwnPhase(s'.runs, k, PhaseOf(s', k))
  {
    hide Mine, LiveIn, ToStopIn, IsOld;
    var p := PhaseOf(s, k);
    PageIsMine(s.runs, k, stop, PageTop(s, p), p.found, p.toStop);
  }

  lemma StepOwnsPhase(cfg: Config, s: State, s': State, step: Step, k: Key)
    requires Owned(s) && StepTo(cfg, s, s', step) && StepOf(step, k)
    ensures OwnPhase(s'.runs, k, PhaseOf(s', k))
  {
    assert OwnPhase(s.runs, k, PhaseOf(s, k));
    StepKeepsKeys(cfg, s, s', step);
    if step.ReadPage? {
      PageIsOwn(cfg, s, s', k, step.lo, step.stop);
    } else if step.Cancel? {
      OwnPhaseGrows(s.runs, s'.runs, k, PhaseOf(s, k));
    } else {
      hide Owned, XComOk, PageRead, Cancelled, Stopped;
    }
  }

  lemma StepOwnsRecord(cfg: Config, s: State, s': State, step: Step, k: Key)
    requires Owned(s) && StepTo(cfg, s, s', step) && StepOf(step, k)
    ensures k in s'.xcom ==> Mine({s'.xcom[k]}, s'.runs, k)
  {
    assert OwnPhase(s.runs, k, PhaseOf(s, k));
    StepKeepsKeys(cfg, s, s', step);
    hide AfterPage, Examined, LiveIn, ToStopIn, Stopped;
  }

  /** Every step keeps the ownership. */
  lemma StepKeepsOwned(cfg: Config, s: State, s': State, step: Step)
    requires Owned(s) && StepTo(cfg, s, s', step)
    ensures Owned(s')
  {
    StepKeepsKeys(cfg, s, s', step);
    hide StepTo, PhaseOf, OwnPhase, Mine, KeepsKeys, StepOf;
    forall x: Key
      ensures OwnPhase(s'.runs, x, PhaseOf(s', x)) && (x in s'.xcom ==> Mine({s'.xcom[x]}, s'.runs, x))
    {
      if StepOf(step, x) {
        StepOwnsPhase(cfg, s, s', step, x);
        StepOwnsRecord(cfg, s, s', step, x);
      } else {
        OthersStay(cfg, s, s', step, x);
        OwnPhaseGrows(s.runs, s'.runs, x, PhaseOf(s, x));
        if x in s.xcom {
          MineGrows({s.xcom[x]}, s.runs, s'.runs, x);
        }
      }
    }
  }

  /** In every reachable state, crowded and overlong runs or not, what a task instance holds is its own. */
  lemma {:induction false} ReachedOwned(cfg: Config, s: State, n: nat, scope: Scope)
    requires Reached(cfg, s, n, scope)
    ensures Owned(s)
    decreases n
  {
    hide Owned, Within, StepTo;
    if n == 0 {
      InitOwned(s);
    } else {
      var p, step :| Reached(cfg, p, n - 1, scope) && StepTo(cfg, p, s, step) && Within(cfg, scope, p, step);
      ReachedOwned(cfg, p, n - 1, scope);
      StepKeepsOwned(cfg, p, s, step);
    }
  }

  lemma InitOwned(s: State)
    requires Init(s)
    ensures Owned(s)
  {
  }

  /** Only own runs are changed, and only own runs are added. */
  ghost predicate ChangesOnly(a: History, b: History, k: Key) {
    && |a| <= |b|
    && (forall i :: 0 <= i < |a| && a[i].key != Some(k) ==> b[i] == a[i])
    && (forall i :: |a| <= i < |b| ==> b[i].key == Some(k))
  }

  lemma StepChangesOwn(cfg: Config, s: State, s': State, step: Step, k: Key)
    requires Owned(s) && StepTo(cfg, s, s', step) && StepOf(step, k)
    ensures ChangesOnly(s.runs, s'.runs, k)
  {
    assert OwnPhase(s.runs, k, PhaseOf(s, k));
    hide AfterPage, Examined, LiveIn, ToStopIn;
  }

  /** In every reachable state, also one with two writers: no step of one task instance changes a run that does not
      carry its key, nor what another one knows. */
  lemma StepIsolation(cfg: Config, s: State, n: nat, scope: Scope, s': State, step: Step, k: Key)
    requires Reached(cfg, s, n, scope) && StepTo(cfg, s, s', step) && StepOf(step, k)
    ensures |s.runs| <= |s'.runs|
    ensures forall i :: 0 <= i < |s.runs| && s.runs[i].key != Some(k) ==> s'.runs[i] == s.runs[i]
    ensures forall i :: |s.runs| <= i < |s'.runs| ==> s'.runs[i].key == Some(k)
    ensures forall x: Key :: x != k ==> PhaseOf(s', x) == PhaseOf(s, x)
    ensures forall x: Key :: x != k ==> (x in s.xcom <==> x in s'.xcom) && (x in s.xcom ==> s'.xcom[x] == s.xcom[x])
  {
    hide Reached, StepTo, Owned, PhaseOf;
    ReachedOwned(cfg, s, n, scope);
    StepChangesOwn(cfg, s, s', step, k);
    forall x: Key | x != k
      ensures PhaseOf(s', x) == PhaseOf(s, x)
      ensures (x in s.xcom <==> x in s'.xcom) && (x in s.xcom ==> s'.xcom[x] == s.xcom[x])
    {
      OthersStay(cfg, s, s', step, x);
    }
  }
}
