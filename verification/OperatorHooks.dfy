/** Model of `execute` and of the cancel of the operator in _operator.py, with the XCom slots of _retry_guard.py, on
    top of the guarded submit of GlueGuard.

    Airflow has cleared the XComs of the task instance before `execute` runs.
  */
module OperatorHooks {
  import Failures
  import opened GlueGuard
  import opened GlueRuns
  import opened Wrappers

  /** The XComs of one task instance; which push or pull raises is given. */
  class TaskInstance {
    var agnostic: bool
    var recorded: Option<RunId>
    var accesses: nat
    const fails: nat -> bool

    constructor (fails: nat -> bool)
      ensures !agnostic && recorded == None && this.fails == fails
    {
      agnostic, recorded, accesses := false, None, 0;
      this.fails := fails;
    }

    method PushAgnostic() returns (ok: bool)
      modifies this`agnostic, this`accesses
      ensures ok == !fails(old(accesses)) && agnostic == (old(agnostic) || ok)
      ensures accesses == old(accesses) + 1
    {
      ok := !fails(accesses);
      agnostic := agnostic || ok;
      accesses := accesses + 1;
    }

    /** `_run_launched`: a pull that raises counts as not launched. */
    method RunLaunched() returns (launched: bool)
      modifies this`accesses
      ensures launched == (agnostic && !fails(old(accesses))) && accesses == old(accesses) + 1
    {
      launched := agnostic && !fails(accesses);
      accesses := accesses + 1;
    }

    /** `record_launched_run`: never raises. */
    method Record(id: RunId)
      modifies this`recorded, this`accesses
      ensures recorded == if fails(old(accesses)) then old(recorded) else Some(id)
    {
      if !fails(accesses) {
        recorded := Some(id);
      }
      accesses := accesses + 1;
    }

    /** `read_recorded_run`: never raises. */
    method Read() returns (id: Option<RunId>)
      modifies this`accesses
      ensures id == if fails(old(accesses)) then None else recorded
    {
      id := if fails(accesses) then None else recorded;
      accesses := accesses + 1;
    }
  }

  /** `cause` is the failure of the guard, if that is what failed. */
  datatype Executed = Deferring(id: RunId) | Raising(exc: Failures.Exc, cause: Option<Failure>)

  /** `execute`, for Glue. A task that defers has launched one run, the newest. A failure of the guard has
      launched nothing. Every failure is one that Airflow may retry, also that of a task whose run is
      launched: that happens exactly when the XCom that says so cannot be pushed. Then the run goes on, and
      only the next scan of the guard can find it. */
  method Execute(ti: TaskInstance, client: GlueClient, key: Option<string>, jobExists: bool, now: int, lookback: int,
                 timeout: nat, interval: nat, startedOn: int)
    returns (r: Executed, ghost submitted: Result<RunId>, ghost t: Trace)
    requires interval > 0 && (key.Some? ==> client.Exclusive(key.value))
    requires !jobExists ==> client.runs == []
    requires !ti.agnostic && ti.recorded == None
    modifies client, ti`agnostic, ti`recorded, ti`accesses
    // the guard, and the launch
    ensures jobExists && key.Some? ==>
      Guarded(GuardOutcome(submitted, t, key.value), t, old(client.Now()), BeforeLaunch(client.Now(), submitted.Ok?),
              key.value, now - lookback, timeout, interval)
    ensures !(jobExists && key.Some?) ==> submitted.Ok? && BeforeLaunch(client.Now(), true) == old(client.Now())
    ensures submitted.Ok? ==>
      |client.runs| == submitted.value + 1 && client.runs[submitted.value] == JobRun(Starting, Some(startedOn), key)
    ensures submitted.Ok? && key.Some? && (jobExists ==> !Capped(t.read, now - lookback, 10)) ==>
      NoneLive(client.runs[..submitted.value], key.value, now - lookback)
    // what comes of it
    ensures submitted.Raised? ==> r == Raising(Failures.Plain, Some(submitted.failure))
    ensures submitted.Ok? && ti.fails(old(ti.accesses)) ==> r == Raising(Failures.Plain, None)
    ensures submitted.Ok? && !ti.fails(old(ti.accesses)) ==> r == Deferring(submitted.value) && ti.agnostic
    ensures r.Deferring? ==> ti.recorded == if ti.fails(old(ti.accesses) + 1) then None else Some(r.id)
    ensures r.Raising? ==> ti.recorded == None && !ti.agnostic
  {
    hide *;
    var done;
    done, t := SubmitGlueJob(client, key, jobExists, now, lookback, timeout, interval, startedOn);
    submitted := done;
    client.NowIs();
    var pushed := false;
    if done.Ok? {
      pushed := ti.PushAgnostic();
    }
    if !pushed {
      var cause := if done.Raised? then Some(done.failure) else None;
      var known := ti.RunLaunched();
      client.NowIs();
      return Raising(if known then Failures.Fail else Failures.Plain, cause), submitted, t;
    }
    ti.Record(done.value);
    client.NowIs();
    return Deferring(done.value), submitted, t;
  }

  /** A run launched and yet retried: the first run of a job, when no XCom can be pushed. */
  method LaunchedYetRetried(client: GlueClient, key: Option<string>, startedOn: int)
    returns (ti: TaskInstance, r: Executed)
    requires client.runs == [] && (key.Some? ==> client.Exclusive(key.value))
    modifies client
    ensures client.runs != [] && client.runs[|client.runs| - 1] == JobRun(Starting, Some(startedOn), key)
    ensures r == Raising(Failures.Plain, None) && ti.recorded == None
  {
    ti := new TaskInstance(n => true);
    ghost var submitted, t;
    r, submitted, t := Execute(ti, client, key, false, 0, 0, 0, 1, startedOn);
  }

  /** `_cancel_recorded_run`: asks for exactly the recorded run to stop, and never raises. */
  method CancelRecordedRun(ti: TaskInstance, client: GlueClient, ghost key: string)
    requires client.Exclusive(key)
    requires ti.recorded.Some? ==> ti.recorded.value < |client.runs| && client.runs[ti.recorded.value].key == Some(key)
    modifies client`runs, client`calls, client`clock, client`batches, client`reported, ti`accesses
    ensures Evolves(old(client.runs), client.runs, key)
    ensures client.batches == old(client.batches)
                              + if ti.recorded.Some? && !ti.fails(old(ti.accesses)) then [[ti.recorded.value]] else []
  {
    EvolvesReflexive(client.runs, key);
    hide Evolves, Later;
    var id := ti.Read();
    if id.Some? {
      var errors := client.BatchStopJobRun([id.value], key);
    }
  }
}
