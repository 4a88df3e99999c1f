/** Model of `stop_stale_glue_runs` and the guard of `submit_glue_job` of _glue.py, against the
    service of GlueRuns.
  */
module GlueGuard {
  import opened GlueRuns
  import opened Wrappers

  /** The two exceptions `stop_stale_glue_runs` raises. */
  datatype Failure = StopRefused(id: RunId, state: RunState) | StopTimedOut(pending: seq<RunId>)

  datatype Result<T> = Ok(value: T) | Raised(failure: Failure)

  /** What a stop did: the pages it read and the runs it looked at there; the ids it asked to stop and those reported
      back; the looks it took at those reported, and at those it waited for, between so many rounds of sleep. */
  datatype Trace = Trace(read: seq<ListCall>, seen: seq<Listed>, top: nat, sent: seq<seq<RunId>>, said: seq<RunId>,
                         looked: seq<Look>, awaited: seq<Look>, rounds: nat)

  /** The ids that still have to be asked to stop. */
  function ToStop(active: seq<Listed>): (ids: seq<RunId>) {
    if active == [] then []
    else (if active[0].run.state != Stopping then [active[0].id] else []) + ToStop(active[1..])
  }

  /** Exactly the ids that were not seen stopping already. */
  lemma {:induction false} ToStopExactly(active: seq<Listed>, id: RunId)
    ensures id in ToStop(active)
       <==> (exists i :: 0 <= i < |active| && active[i].id == id && active[i].run.state != Stopping)
  {
    if active != [] {
      var rest := active[1..];
      ToStopExactly(rest, id);
      forall i | 0 < i < |active| ensures rest[i - 1] == active[i] {
      }
      if exists i :: 0 <= i < |rest| && rest[i].id == id && rest[i].run.state != Stopping {
        var i :| 0 <= i < |rest| && rest[i].id == id && rest[i].run.state != Stopping;
        assert active[i + 1] == rest[i];
      }
    }
  }

  lemma ToStopMember(active: seq<Listed>, id: RunId)
    requires id in ToStop(active)
    ensures id in Ids(active)
  {
    ToStopExactly(active, id);
    var i :| 0 <= i < |active| && active[i].id == id;
    assert Ids(active)[i] == id;
  }

  /** The requests one after the other. */
  function Concat(batches: seq<seq<RunId>>): seq<RunId> {
    if batches == [] then [] else Concat(batches[..|batches| - 1]) + batches[|batches| - 1]
  }

  lemma ConcatSnoc(batches: seq<seq<RunId>>, b: seq<RunId>)
    ensures Concat(batches + [b]) == Concat(batches) + b
  {
    assert (batches + [b])[..|batches|] == batches;
  }

  /** All ids are runs that carry the key. */
  ghost predicate Own(ids: seq<RunId>, runs: History, key: string) {
    forall i :: 0 <= i < |ids| ==> ids[i] < |runs| && runs[ids[i]].key == Some(key)
  }

  lemma OwnLater(ids: seq<RunId>, a: History, b: History, key: string)
    requires Own(ids, a, key) && Evolves(a, b, key)
    ensures Own(ids, b, key)
  {
    forall i | 0 <= i < |ids| ensures b[ids[i]].key == Some(key) {
      assert Later(a[ids[i]], b[ids[i]]);
    }
  }

  /** Every one of the ids is a run that is no longer active. */
  ghost predicate AllEnded(ids: seq<RunId>, runs: History) {
    forall i :: 0 <= i < |ids| ==> ids[i] < |runs| && runs[ids[i]].state.Ended?
  }

  /** Each of the ids has ended, unless it is among those still pending. */
  ghost predicate EndedBut(ids: seq<RunId>, pending: seq<RunId>, runs: History) {
    forall i :: 0 <= i < |ids| ==> ids[i] < |runs| && (ids[i] in pending || runs[ids[i]].state.Ended?)
  }

  lemma EndedButLater(ids: seq<RunId>, pending: seq<RunId>, a: History, b: History, key: string)
    requires EndedBut(ids, pending, a) && Evolves(a, b, key)
    ensures EndedBut(ids, pending, b)
  {
    forall i | 0 <= i < |ids| ensures ids[i] in pending || b[ids[i]].state.Ended? {
      assert Later(a[ids[i]], b[ids[i]]);
    }
  }

  // ---------------------------------------------------------------------------------------
  // Looks
  // ---------------------------------------------------------------------------------------

  /** The last look at a run. */
  function LastLook(looks: seq<Look>, id: RunId): Option<Look> {
    if looks == [] then None
    else if looks[|looks| - 1].id == id then Some(looks[|looks| - 1])
    else LastLook(looks[..|looks| - 1], id)
  }

  lemma {:induction false} LastLookConcat(a: seq<Look>, b: seq<Look>, id: RunId)
    ensures LastLook(a + b, id) == if LastLook(b, id).Some? then LastLook(b, id) else LastLook(a, id)
    decreases |b|
  {
    if b == [] {
      assert a + b == a;
    } else {
      assert (a + b)[..|a| + |b| - 1] == a + b[..|b| - 1];
      LastLookConcat(a, b[..|b| - 1], id);
    }
  }

  lemma LastLookSnoc(a: seq<Look>, l: Look, id: RunId)
    ensures LastLook(a + [l], id) == if l.id == id then Some(l) else LastLook(a, id)
  {
    assert (a + [l])[..|a|] == a;
  }

  lemma {:induction false} LastLookAmong(looks: seq<Look>, id: RunId)
    requires LastLook(looks, id).Some?
    ensures exists j :: 0 <= j < |looks| && looks[j].id == id
  {
    if looks[|looks| - 1].id != id {
      LastLookAmong(looks[..|looks| - 1], id);
      var j :| 0 <= j < |looks| - 1 && looks[..|looks| - 1][j].id == id;
      assert looks[j].id == id;
    }
  }

  /** When last looked at, the run was active or not; if it was, nobody has slept since. */
  predicate SeenAs(looks: seq<Look>, id: RunId, active: bool, sleeps: nat) {
    var l := LastLook(looks, id);
    l.Some? && l.value.state.Ended? == !active && (active ==> l.value.sleeps == sleeps)
  }

  /** All ids were looked at, and those in `pending` are the ones that were active when last looked at. */
  ghost predicate LooksDecide(ids: seq<RunId>, pending: seq<RunId>, looks: seq<Look>, sleeps: nat) {
    forall j :: 0 <= j < |ids| ==> SeenAs(looks, ids[j], ids[j] in pending, sleeps)
  }

  /** All ids but those in `pending` had ended when last looked at. */
  ghost predicate DecidedBut(ids: seq<RunId>, pending: seq<RunId>, looks: seq<Look>) {
    forall j :: 0 <= j < |ids| ==> ids[j] in pending || SeenAs(looks, ids[j], false, 0)
  }

  ghost predicate OnlyOf(looks: seq<Look>, ids: seq<RunId>) {
    forall j :: 0 <= j < |looks| ==> looks[j].id in ids
  }

  ghost predicate Distinct(ids: seq<RunId>) {
    forall i, j :: 0 <= i < j < |ids| ==> ids[i] != ids[j]
  }

  lemma LookOnce(ids: seq<RunId>, id: RunId, still: seq<RunId>, looks: seq<Look>, state: RunState, sleeps: nat)
    requires LooksDecide(ids, still, looks, sleeps) && id !in ids && Among(still, ids)
    ensures LooksDecide(ids + [id], if IsActive(state) then still + [id] else still,
                        looks + [Look(id, state, sleeps)], sleeps)
  {
    hide LastLook;
    var all, now := ids + [id], if IsActive(state) then still + [id] else still;
    forall j | 0 <= j < |all| ensures SeenAs(looks + [Look(id, state, sleeps)], all[j], all[j] in now, sleeps) {
      LastLookSnoc(looks, Look(id, state, sleeps), all[j]);
      if j < |ids| {
        assert SeenAs(looks, ids[j], ids[j] in still, sleeps) && ids[j] != id;
      }
    }
  }

  /** One round decides those that were pending, and leaves the others as they were. */
  lemma LookRound(ids: seq<RunId>, pending: seq<RunId>, still: seq<RunId>, before: seq<Look>, looks: seq<Look>,
                  sleeps: nat)
    requires DecidedBut(ids, pending, before) && LooksDecide(pending, still, looks, sleeps)
    requires OnlyOf(looks, pending) && Among(still, pending)
    ensures LooksDecide(ids, still, before + looks, sleeps)
  {
    hide LastLook;
    forall j | 0 <= j < |ids| ensures SeenAs(before + looks, ids[j], ids[j] in still, sleeps) {
      var id := ids[j];
      LastLookConcat(before, looks, id);
      if id in pending {
        var k :| 0 <= k < |pending| && pending[k] == id;
        assert SeenAs(looks, pending[k], pending[k] in still, sleeps);
      } else if LastLook(looks, id).Some? {
        LastLookAmong(looks, id);
      }
    }
  }

  lemma DecidedMeans(ids: seq<RunId>, still: seq<RunId>, looks: seq<Look>, sleeps: nat)
    requires LooksDecide(ids, still, looks, sleeps)
    ensures DecidedBut(ids, still, looks)
  {
    forall j | 0 <= j < |ids| ensures ids[j] in still || SeenAs(looks, ids[j], false, 0) {
      assert SeenAs(looks, ids[j], ids[j] in still, sleeps);
    }
  }

  lemma AllDecided(ids: seq<RunId>, looks: seq<Look>, sleeps: nat)
    requires DecidedBut(ids, [], looks)
    ensures LooksDecide(ids, [], looks, sleeps)
  {
  }

  /** All of the ids were active runs. */
  ghost predicate ActiveIn(ids: seq<RunId>, runs: History) {
    forall j :: 0 <= j < |ids| ==> ids[j] < |runs| && !runs[ids[j]].state.Ended?
  }

  /** What is active now was so before: nobody launched it in between. */
  lemma ActiveEarlier(ids: seq<RunId>, a: History, b: History, key: string)
    requires Evolves(a, b, key) && Own(ids, b, key) && ActiveIn(ids, b)
    ensures ActiveIn(ids, a)
  {
    forall j | 0 <= j < |ids| ensures ids[j] < |a| && !a[ids[j]].state.Ended? {
      assert b[ids[j]].key == Some(key);
      assert ids[j] < |a| && Later(a[ids[j]], b[ids[j]]);
    }
  }

  lemma OwnEarlier(ids: seq<RunId>, a: History, b: History, key: string)
    requires Evolves(a, b, key) && Own(ids, b, key)
    ensures Own(ids, a, key)
  {
    forall j | 0 <= j < |ids| ensures ids[j] < |a| && a[ids[j]].key == Some(key) {
      assert b[ids[j]].key == Some(key);
      assert ids[j] < |a| && Later(a[ids[j]], b[ids[j]]);
    }
  }

  /** What one look at a pending run adds to a round that began with the history `a`. */
  lemma LookedAt(pending: seq<RunId>, i: nat, still: seq<RunId>, looks: seq<Look>, state: RunState, sleeps: nat,
                 a: History, b: History, key: string)
    requires i < |pending| && Distinct(pending) && Among(still, pending[..i]) && Distinct(still)
    requires LooksDecide(pending[..i], still, looks, sleeps) && OnlyOf(looks, pending) && ActiveIn(still, a)
    requires Evolves(a, b, key) && Own(pending, b, key) && state == b[pending[i]].state
    ensures var now := if IsActive(state) then still + [pending[i]] else still;
            var more := looks + [Look(pending[i], state, sleeps)];
            && LooksDecide(pending[..i + 1], now, more, sleeps) && OnlyOf(more, pending)
            && Among(now, pending[..i + 1]) && Distinct(now) && ActiveIn(now, a)
  {
    hide Evolves, Later, LooksDecide;
    var id := pending[i];
    assert pending[..i + 1] == pending[..i] + [id];
    forall j | 0 <= j < i ensures pending[..i][j] != id {
    }
    LookOnce(pending[..i], id, still, looks, state, sleeps);
    if IsActive(state) {
      assert Own([id], b, key) && ActiveIn([id], b);
      ActiveEarlier([id], a, b, key);
      assert [id][0] == id;
    }
  }

  /** One round of the poll loop: asks for each pending run and keeps those that were active when asked. */
  method PollOnce(client: GlueClient, pending: seq<RunId>, ghost ids: seq<RunId>, ghost key: string)
    returns (still: seq<RunId>, ghost looks: seq<Look>)
    requires client.Exclusive(key)
    requires EndedBut(ids, pending, client.runs) && Own(pending, client.runs, key) && Distinct(pending)
    modifies client`runs, client`calls, client`clock, client`looks
    ensures Evolves(old(client.runs), client.runs, key) && old(client.clock) <= client.clock
    ensures EndedBut(ids, still, client.runs) && Own(still, client.runs, key) && Distinct(still)
    ensures client.looks == old(client.looks) + looks && OnlyOf(looks, pending)
    ensures LooksDecide(pending, still, looks, |client.sleeps|) && Among(still, pending)
    ensures ActiveIn(still, old(client.runs))
  {
    hide LooksDecide, OnlyOf, Distinct, ActiveIn, Among, Later;
    still, looks := [], [];
    EvolvesReflexive(client.runs, key);
    NoLooks(pending, |client.sleeps|, client.runs);
    for i := 0 to |pending|
      invariant Evolves(old(client.runs), client.runs, key) && old(client.clock) <= client.clock
      invariant EndedBut(ids, pending[i..] + still, client.runs)
      invariant Own(pending, client.runs, key) && Own(still, client.runs, key)
      invariant client.looks == old(client.looks) + looks && OnlyOf(looks, pending)
      invariant LooksDecide(pending[..i], still, looks, |client.sleeps|)
      invariant Among(still, pending[..i]) && Distinct(still)
      invariant ActiveIn(still, old(client.runs))
    {
      hide Evolves, Own, EndedBut;
      ghost var before := client.runs;
      var id := pending[i];
      OwnMember(pending, i, client.runs, key);
      var state := client.GetJobRun(id, key);
      EvolvesTransitive(old(client.runs), before, client.runs, key);
      OwnLater(pending, before, client.runs, key);
      OwnLater(still, before, client.runs, key);
      EndedButLater(ids, pending[i..] + still, before, client.runs, key);
      OwnMember(pending, i, client.runs, key);
      LookedAt(pending, i, still, looks, state, |client.sleeps|, old(client.runs), client.runs, key);
      looks := looks + [Look(id, state, |client.sleeps|)];
      assert pending[i..] == [id] + pending[i + 1..];
      if IsActive(state) {
        StillPending(ids, id, pending[i + 1..], still, client.runs);
        OwnSnoc(still, id, client.runs, key);
        still := still + [id];
      } else {
        NoLongerPending(ids, id, pending[i + 1..], still, client.runs);
      }
    }
    assert pending[|pending|..] + still == still && pending[..|pending|] == pending;
  }

  lemma NoLooks(pending: seq<RunId>, sleeps: nat, runs: History)
    ensures LooksDecide(pending[..0], [], [], sleeps) && OnlyOf([], pending) && Among([], pending[..0])
    ensures Distinct([]) && ActiveIn([], runs)
  {
  }

  lemma OwnMember(ids: seq<RunId>, i: nat, runs: History, key: string)
    requires Own(ids, runs, key) && i < |ids|
    ensures ids[i] < |runs| && runs[ids[i]].key == Some(key)
  {
  }

  lemma OwnSnoc(ids: seq<RunId>, id: RunId, runs: History, key: string)
    requires Own(ids, runs, key) && id < |runs| && runs[id].key == Some(key)
    ensures Own(ids + [id], runs, key)
  {
  }

  lemma StillPending(ids: seq<RunId>, id: RunId, rest: seq<RunId>, still: seq<RunId>, runs: History)
    requires EndedBut(ids, [id] + rest + still, runs)
    ensures EndedBut(ids, rest + (still + [id]), runs)
  {
    forall x | x in [id] + rest + still ensures x in rest + (still + [id]) {
    }
  }

  lemma NoLongerPending(ids: seq<RunId>, id: RunId, rest: seq<RunId>, still: seq<RunId>, runs: History)
    requires EndedBut(ids, [id] + rest + still, runs) && id < |runs| && runs[id].state.Ended?
    ensures EndedBut(ids, rest + still, runs)
  {
    forall i | 0 <= i < |ids| ensures ids[i] in rest + still || runs[ids[i]].state.Ended? {
      assert ids[i] in [id] + rest + still ==> ids[i] == id || ids[i] in rest + still;
    }
  }

  /** Requests of at most 25 ids, all of them runs with the key. */
  ghost predicate GoodBatches(batches: seq<seq<RunId>>, runs: History, key: string) {
    forall i :: 0 <= i < |batches| ==> 0 < |batches[i]| <= 25 && Own(batches[i], runs, key)
  }

  lemma GoodBatchesLater(batches: seq<seq<RunId>>, a: History, b: History, key: string)
    requires GoodBatches(batches, a, key) && Evolves(a, b, key)
    ensures GoodBatches(batches, b, key)
  {
    forall i | 0 <= i < |batches| ensures Own(batches[i], b, key) {
      OwnLater(batches[i], a, b, key);
    }
  }

  /** Every one of `xs` is one of `ys`. */
  ghost predicate Among(xs: seq<RunId>, ys: seq<RunId>) {
    forall x :: x in xs ==> x in ys
  }

  /** The looks taken at reported ids, one after the other: none of them was active, but for the last one if that is
      refused. */
  ghost predicate LookedInto(errors: seq<RunId>, looks: seq<Look>, refused: Option<Failure>) {
    && |looks| <= |errors| && (forall i :: 0 <= i < |looks| ==> looks[i].id == errors[i])
    && (refused.None? ==> |looks| == |errors| && forall i :: 0 <= i < |looks| ==> looks[i].state.Ended?)
    && (refused.Some? ==>
      && looks != [] && !looks[|looks| - 1].state.Ended?
      && refused.value == StopRefused(looks[|looks| - 1].id, looks[|looks| - 1].state)
      && forall i :: 0 <= i < |looks| - 1 ==> looks[i].state.Ended?)
  }

  lemma LookedIntoOne(errors: seq<RunId>, i: nat, looks: seq<Look>, l: Look)
    requires i < |errors| && LookedInto(errors[..i], looks, None) && l.id == errors[i]
    ensures if !l.state.Ended? then LookedInto(errors, looks + [l], Some(StopRefused(l.id, l.state)))
            else LookedInto(errors[..i + 1], looks + [l], None)
  {
    forall j | 0 <= j < i ensures looks[j].id == errors[j] {
      assert errors[..i][j] == errors[j];
    }
  }

  lemma LookedIntoMore(a: seq<RunId>, before: seq<Look>, b: seq<RunId>, looks: seq<Look>, refused: Option<Failure>)
    requires LookedInto(a, before, None) && LookedInto(b, looks, refused)
    ensures LookedInto(a + b, before + looks, refused)
  {
    forall i | 0 <= i < |before + looks| ensures (before + looks)[i].id == (a + b)[i] {
      if i >= |before| {
        assert (before + looks)[i] == looks[i - |before|] && (a + b)[i] == b[i - |a|];
      }
    }
  }

  /** Looks into the ids a stop request reported: the first one still active is a refusal. */
  method ExamineErrors(client: GlueClient, errors: seq<RunId>, ghost key: string)
    returns (refused: Option<Failure>, ghost looks: seq<Look>)
    requires client.Exclusive(key) && Own(errors, client.runs, key)
    modifies client`runs, client`calls, client`clock, client`looks
    ensures Evolves(old(client.runs), client.runs, key) && old(client.clock) <= client.clock
    ensures client.looks == old(client.looks) + looks && LookedInto(errors, looks, refused)
    ensures refused.None? ==> AllEnded(errors, client.runs)
    ensures refused.Some? ==> Refusal(refused.value, errors, client.runs)
  {
    hide Evolves, Own, LookedInto;
    EvolvesReflexive(client.runs, key);
    looks := [];
    NothingLookedInto(errors);
    for i := 0 to |errors|
      invariant Evolves(old(client.runs), client.runs, key) && old(client.clock) <= client.clock
      invariant Own(errors, client.runs, key) && AllEnded(errors[..i], client.runs)
      invariant client.looks == old(client.looks) + looks && LookedInto(errors[..i], looks, None)
    {
      hide AllEnded;
      ghost var before := client.runs;
      var id := errors[i];
      OwnMember(errors, i, before, key);
      var state := client.GetJobRun(id, key);
      EvolvesTransitive(old(client.runs), before, client.runs, key);
      OwnLater(errors, before, client.runs, key);
      OwnMember(errors, i, client.runs, key);
      LookedIntoOne(errors, i, looks, Look(id, state, |client.sleeps|));
      looks := looks + [Look(id, state, |client.sleeps|)];
      if IsActive(state) {
        return Some(StopRefused(id, state)), looks;
      }
      AllEndedSnoc(errors[..i], id, before, client.runs, key);
      assert errors[..i + 1] == errors[..i] + [id];
    }
    assert errors[..|errors|] == errors;
    refused := None;
  }

  lemma NothingLookedInto(errors: seq<RunId>)
    ensures LookedInto(errors[..0], [], None) && LookedInto([], [], None)
  {
  }

  /** A run that was reported by a stop request, and its state, which is an active one. */
  predicate Refusal(f: Failure, reported: seq<RunId>, runs: History) {
    f.StopRefused? && f.id in reported && f.id < |runs| && runs[f.id].state == f.state && !f.state.Ended?
  }

  lemma AllEndedLater(ids: seq<RunId>, a: History, b: History, key: string)
    requires AllEnded(ids, a) && Evolves(a, b, key)
    ensures AllEnded(ids, b)
  {
    forall i | 0 <= i < |ids| ensures b[ids[i]].state.Ended? {
      assert Later(a[ids[i]], b[ids[i]]);
    }
  }

  lemma AllEndedSnoc(ids: seq<RunId>, id: RunId, a: History, b: History, key: string)
    requires AllEnded(ids, a) && Evolves(a, b, key)
    requires id < |b| && b[id].state.Ended?
    ensures AllEnded(ids + [id], b)
  {
    AllEndedLater(ids, a, b, key);
  }

  lemma AllEndedConcat(xs: seq<RunId>, ys: seq<RunId>, runs: History)
    requires AllEnded(xs, runs) && AllEnded(ys, runs)
    ensures AllEnded(xs + ys, runs)
  {
  }

  lemma AmongConcat(xs: seq<RunId>, ys: seq<RunId>, zs: seq<RunId>)
    requires Among(xs, zs) && Among(ys, zs)
    ensures Among(xs + ys, zs)
  {
  }

  lemma RefusalAmongMore(f: Failure, before: seq<RunId>, reported: seq<RunId>, runs: History)
    requires Refusal(f, reported, runs)
    ensures Refusal(f, before + reported, runs)
  {
  }

  /** The slice of `toStop` a request carries, and the ids it reports. */
  lemma BatchIsOwn(toStop: seq<RunId>, start: nat, end: nat, runs: History, key: string)
    requires Own(toStop, runs, key) && start <= end <= |toStop|
    ensures Own(toStop[start..end], runs, key) && Among(toStop[start..end], toStop)
    ensures toStop[..end] == toStop[..start] + toStop[start..end]
  {
  }

  lemma GoodBatchesSnoc(sent: seq<seq<RunId>>, batch: seq<RunId>, runs: History, key: string)
    requires GoodBatches(sent, runs, key) && Own(batch, runs, key) && 0 < |batch| <= 25
    ensures GoodBatches(sent + [batch], runs, key)
  {
  }

  /** One request, and a look into what it reports. */
  method StopBatch(client: GlueClient, batch: seq<RunId>, ghost key: string)
    returns (refused: Option<Failure>, ghost said: seq<RunId>, ghost looks: seq<Look>)
    requires client.Exclusive(key) && Own(batch, client.runs, key) && 0 < |batch| <= 25
    modifies client`runs, client`calls, client`clock, client`batches, client`reported, client`looks
    ensures Evolves(old(client.runs), client.runs, key) && old(client.clock) <= client.clock
    ensures client.batches == old(client.batches) + [batch]
    ensures client.reported == old(client.reported) + said && Among(said, batch)
    ensures client.looks == old(client.looks) + looks && LookedInto(said, looks, refused)
    ensures refused.None? ==> AllEnded(said, client.runs)
    ensures refused.Some? ==> Refusal(refused.value, said, client.runs)
  {
    hide Evolves, Own, Among, Refusal, AllEnded, LookedInto;
    OwnMembers(batch, client.runs, key);
    var errors := client.BatchStopJobRun(batch, key);
    said := errors;
    ghost var asked := client.runs;
    AmongMembers(errors, batch);
    OwnLater(batch, old(client.runs), asked, key);
    OwnAmong(errors, batch, asked, key);
    refused, looks := ExamineErrors(client, errors, key);
    EvolvesTransitive(old(client.runs), asked, client.runs, key);
  }

  /** The batch loop: asks all runs of `toStop` to stop and looks into every refusal. `said` are the ids that the
      requests reported. */
  method StopInBatches(client: GlueClient, toStop: seq<RunId>, ghost key: string)
    returns (refused: Option<Failure>, ghost sent: seq<seq<RunId>>, ghost said: seq<RunId>, ghost looks: seq<Look>)
    requires client.Exclusive(key) && Own(toStop, client.runs, key)
    modifies client`runs, client`calls, client`clock, client`batches, client`reported, client`looks
    ensures Evolves(old(client.runs), client.runs, key) && old(client.clock) <= client.clock
    ensures client.looks == old(client.looks) + looks && LookedInto(said, looks, refused)
    ensures client.batches == old(client.batches) + sent && GoodBatches(sent, client.runs, key)
    ensures client.reported == old(client.reported) + said && Among(said, toStop)
    ensures refused.None? ==> Concat(sent) == toStop && AllEnded(said, client.runs)
    ensures refused.Some? ==> Concat(sent) <= toStop && Refusal(refused.value, said, client.runs)
  {
    hide *;
    sent, said, looks := [], [], [];
    RoomForOne();
    NothingLookedInto([]);
    EvolvesReflexive(client.runs, key);
    NoBatches(client.runs, key);
    NothingSaid(toStop, client.runs);
    var start := 0;
    while start < |toStop|
      invariant 0 <= start <= |toStop|
      invariant Evolves(old(client.runs), client.runs, key) && old(client.clock) <= client.clock
      invariant client.batches == old(client.batches) + sent && GoodBatches(sent, client.runs, key)
      invariant client.reported == old(client.reported) + said
      invariant client.looks == old(client.looks) + looks && LookedInto(said, looks, None)
      invariant Among(said, toStop) && AllEnded(said, client.runs)
      invariant Concat(sent) == toStop[..start]
      invariant Own(toStop, client.runs, key)
    {
      var end := if start + BATCH_SIZE < |toStop| then start + BATCH_SIZE else |toStop|;
      var batch := toStop[start..end];
      ghost var before := client.runs;
      BatchIsOwn(toStop, start, end, before, key);
      ghost var errors, looked;
      refused, errors, looked := StopBatch(client, batch, key);
      BatchDone(toStop, batch, sent, said, errors, before, client.runs, key);
      EvolvesTransitive(old(client.runs), before, client.runs, key);
      LookedIntoMore(said, looks, errors, looked, refused);
      ghost var earlier := said;
      sent, said, looks := sent + [batch], said + errors, looks + looked;
      if refused.Some? {
        RefusalAmongMore(refused.value, earlier, errors, client.runs);
        return refused, sent, said, looks;
      }
      AllEndedConcat(earlier, errors, client.runs);
      start := end;
    }
    refused := None;
    assert toStop[..start] == toStop;
  }

  /** What is known about the earlier requests, and this one, after it. */
  lemma BatchDone(toStop: seq<RunId>, batch: seq<RunId>, sent: seq<seq<RunId>>, said: seq<RunId>, errors: seq<RunId>,
                  a: History, b: History, key: string)
    requires Evolves(a, b, key) && Own(toStop, a, key) && Own(batch, a, key) && 0 < |batch| <= 25
    requires GoodBatches(sent, a, key) && Among(said, toStop) && AllEnded(said, a)
    requires Among(errors, batch) && Among(batch, toStop)
    ensures Own(toStop, b, key) && GoodBatches(sent + [batch], b, key) && Concat(sent + [batch]) == Concat(sent) + batch
    ensures Among(said + errors, toStop) && AllEnded(said, b)
  {
    hide Evolves, Own, GoodBatches, Among, AllEnded, Concat;
    OwnLater(toStop, a, b, key);
    OwnLater(batch, a, b, key);
    GoodBatchesLater(sent, a, b, key);
    GoodBatchesSnoc(sent, batch, b, key);
    ConcatSnoc(sent, batch);
    AmongTransitive(errors, batch, toStop);
    AmongConcat(said, errors, toStop);
    AllEndedLater(said, a, b, key);
  }

  lemma RoomForOne()
    ensures 0 < BATCH_SIZE <= 25
  {
  }

  lemma NothingSaid(toStop: seq<RunId>, runs: History)
    ensures Among([], toStop) && AllEnded([], runs)
  {
  }

  lemma OwnMembers(ids: seq<RunId>, runs: History, key: string)
    requires Own(ids, runs, key)
    ensures forall i :: 0 <= i < |ids| ==> ids[i] < |runs| && runs[ids[i]].key == Some(key)
  {
  }

  lemma AmongMembers(xs: seq<RunId>, ys: seq<RunId>)
    requires forall x :: x in xs ==> x in ys
    ensures Among(xs, ys)
  {
  }

  /** `k` sleeps of the same length. */
  function Times(seconds: nat, k: nat): (s: seq<nat>)
    ensures |s| == k
  {
    if k == 0 then [] else Times(seconds, k - 1) + [seconds]
  }

  /** A timeout names exactly the runs that were active when last asked, in the last round; the others have ended. */
  ghost predicate Overdue(f: Failure, ids: seq<RunId>, looks: seq<Look>, sleeps: nat, a: History, b: History) {
    && f.StopTimedOut? && f.pending != [] && Among(f.pending, ids)
    && LooksDecide(ids, f.pending, looks, sleeps)
    && ActiveIn(f.pending, a) && EndedBut(ids, f.pending, b)
  }

  /** Polls until every run has ended or the deadline has passed. */
  method AwaitEnd(client: GlueClient, ids: seq<RunId>, timeout: nat, interval: nat, ghost key: string)
    returns (timedOut: Option<Failure>, ghost looks: seq<Look>, ghost rounds: nat)
    requires client.Exclusive(key) && Own(ids, client.runs, key) && Distinct(ids) && interval > 0
    modifies client`runs, client`calls, client`clock, client`looks, client`sleeps
    ensures Evolves(old(client.runs), client.runs, key) && old(client.clock) <= client.clock
    ensures client.looks == old(client.looks) + looks
    ensures client.sleeps == old(client.sleeps) + Times(interval, rounds)
    ensures rounds > 0 ==> (rounds - 1) * interval < timeout
    ensures timedOut.None? ==> AllEnded(ids, client.runs) && LooksDecide(ids, [], looks, |client.sleeps|)
    ensures timedOut.Some? ==> client.clock >= old(client.clock) + timeout
    ensures timedOut.Some? ==>
      Overdue(timedOut.value, ids, looks, |client.sleeps|, old(client.runs), client.runs)
  {
    hide Evolves, Own, Later, LooksDecide, DecidedBut, OnlyOf, Distinct, ActiveIn, Among;
    rounds, looks := 0, [];
    EvolvesReflexive(client.runs, key);
    var pending := ids;
    EverythingPending(ids);
    assert EndedBut(ids, pending, client.runs) by {
      forall i | 0 <= i < |ids| ensures ids[i] < |client.runs| {
        OwnMember(ids, i, client.runs, key);
      }
    }
    var deadline := client.clock + timeout;
    while pending != []
      invariant Evolves(old(client.runs), client.runs, key)
      invariant client.clock >= old(client.clock) + rounds * interval
      invariant client.sleeps == old(client.sleeps) + Times(interval, rounds)
      invariant client.looks == old(client.looks) + looks && DecidedBut(ids, pending, looks)
      invariant rounds > 0 ==> (rounds - 1) * interval < timeout
      invariant EndedBut(ids, pending, client.runs) && Own(pending, client.runs, key) && Distinct(pending)
      invariant Among(pending, ids)
      decreases deadline - client.clock
    {
      hide EndedBut;
      ghost var before := client.runs;
      var still;
      ghost var looked;
      still, looked := PollOnce(client, pending, ids, key);
      LookRound(ids, pending, still, looks, looked, |client.sleeps|);
      looks := looks + looked;
      DecidedMeans(ids, still, looks, |client.sleeps|);
      OwnEarlier(still, before, client.runs, key);
      ActiveEarlier(still, old(client.runs), before, key);
      AmongTransitive(still, pending, ids);
      EvolvesTransitive(old(client.runs), before, client.runs, key);
      pending := still;
      if pending == [] {
        break;
      }
      if client.clock >= deadline {
        return Some(StopTimedOut(pending)), looks, rounds;
      }
      ghost var previous := client.runs;
      client.Sleep(interval, key);
      EvolvesTransitive(old(client.runs), previous, client.runs, key);
      EndedButLater(ids, pending, previous, client.runs, key);
      OwnLater(pending, previous, client.runs, key);
      assert (rounds + 1) * interval == rounds * interval + interval;
      rounds := rounds + 1;
    }
    AllDecided(ids, looks, |client.sleeps|);
    timedOut := None;
  }

  lemma EverythingPending(ids: seq<RunId>)
    ensures DecidedBut(ids, ids, []) && Among(ids, ids)
  {
  }

  lemma AmongTransitive(xs: seq<RunId>, ys: seq<RunId>, zs: seq<RunId>)
    requires Among(xs, ys) && Among(ys, zs)
    ensures Among(xs, zs)
  {
  }

  /** The scan of a stop, over and done with: everything it found is a run with the key. */
  lemma FoundIsOwn(t: Trace, runs: History, key: string, cutoff: int)
    requires Scanned(t.seen, t.top, runs, cutoff)
    ensures Own(Ids(Matching(t.seen, key)), runs, key) && Own(ToStop(Matching(t.seen, key)), runs, key)
  {
    var found := Matching(t.seen, key);
    forall i | 0 <= i < |found| ensures Ids(found)[i] < |runs| && runs[Ids(found)[i]].key == Some(key) {
      ScanFindsOnlyTheKey(t.seen, t.top, runs, key, cutoff, Ids(found)[i]);
    }
    var ids := ToStop(found);
    forall i | 0 <= i < |ids| ensures ids[i] < |runs| && runs[ids[i]].key == Some(key) {
      ToStopMember(found, ids[i]);
      ScanFindsOnlyTheKey(t.seen, t.top, runs, key, cutoff, ids[i]);
    }
  }

  ghost predicate Descending(listing: seq<Listed>) {
    forall i, j :: 0 <= i < j < |listing| ==> listing[i].id > listing[j].id
  }

  lemma {:induction false} MatchingDescends(listing: seq<Listed>, key: string)
    requires Descending(listing)
    ensures Descending(Matching(listing, key))
  {
    if listing != [] {
      var n := |listing| - 1;
      MatchingDescends(listing[..n], key);
      forall x | x in Matching(listing[..n], key) ensures x.id > listing[n].id {
        MatchingMember(listing[..n], x, key);
        assert x in listing[..n];
      }
    }
  }

  lemma FoundIsDistinct(t: Trace, runs: History, key: string, cutoff: int)
    requires Scanned(t.seen, t.top, runs, cutoff)
    ensures Distinct(Ids(Matching(t.seen, key)))
  {
    assert Descending(t.seen);
    MatchingDescends(t.seen, key);
  }

  /** The runs that are still live are those hidden behind a run that started before the cutoff. */
  ghost predicate NoneLive(runs: History, key: string, cutoff: int) {
    forall id :: 0 <= id < |runs| && runs[id].key == Some(key) && NoneOldFrom(runs, id, cutoff) ==>
      runs[id].state.Ended?
  }

  lemma EndedMeansNoneLive(before: History, middle: History, runs: History, t: Trace, key: string, cutoff: int)
    requires Evolves(before, middle, key) && Evolves(middle, runs, key)
    requires Scanned(t.seen, t.top, middle, cutoff) && ReachedBoundary(t.seen, t.top, middle, cutoff)
    requires |before| <= t.top
    requires AllEnded(Ids(Matching(t.seen, key)), runs)
    ensures NoneLive(runs, key, cutoff)
  {
    forall id | 0 <= id < |runs| && runs[id].key == Some(key) && NoneOldFrom(runs, id, cutoff)
      ensures runs[id].state.Ended?
    {
      if !runs[id].state.Ended? {
        assert id < |middle|;
        assert Later(middle[id], runs[id]);
        assert NoneOldFrom(middle, id, cutoff) by {
          forall j | id <= j < |middle| ensures !StartedBefore(middle[j].startedOn, cutoff) {
            assert Later(middle[j], runs[j]);
          }
        }
        ScanFindsTheLive(before, middle, t.seen, t.top, key, cutoff, id);
      }
    }
  }

  // ---------------------------------------------------------------------------------------
  // The guard
  // ---------------------------------------------------------------------------------------

  /** What a stop did, from the record `a` to the record `b`, whatever it came to: the pages it read until the boundary
      or the page cap, the requests it sent, and how it waited. */
  ghost predicate GuardDid(t: Trace, a: Record, b: Record, key: string, cutoff: int, timeout: nat, interval: nat) {
    && Evolves(a.runs, b.runs, key) && a.clock <= b.clock
    && b.pages == a.pages + t.read && ScanPages(t.read, cutoff, MAX_PAGES)
    && t.seen == UpToOld(Flat(t.read), cutoff) && Scanned(t.seen, t.top, b.runs, cutoff)
    && b.batches == a.batches + t.sent && GoodBatches(t.sent, b.runs, key)
    && b.reported == a.reported + t.said
    && b.looks == a.looks + t.looked + t.awaited
    && b.sleeps == a.sleeps + Times(interval, t.rounds) && (t.rounds > 0 ==> (t.rounds - 1) * interval < timeout)
  }

  /** Normal return: what the scan found was asked to stop, unless it was stopping, and was seen ended, each run of it;
      no run of the task instance is live but behind an old run, unless the page cap was hit. */
  ghost predicate GuardOk(ids: seq<RunId>, t: Trace, b: Record, key: string, cutoff: int) {
    var found := Matching(t.seen, key);
    && ids == Ids(found) && AllEnded(ids, b.runs)
    && Concat(t.sent) == ToStop(found) && LookedInto(t.said, t.looked, None)
    && LooksDecide(ids, [], t.awaited, |b.sleeps|)
    && (!Capped(t.read, cutoff, MAX_PAGES) ==> NoneLive(b.runs, key, cutoff))
  }

  /** A refusal: a reported run that was active when asked, and is. */
  ghost predicate GuardRefused(f: Failure, t: Trace, b: Record, key: string) {
    && Concat(t.sent) <= ToStop(Matching(t.seen, key))
    && LookedInto(t.said, t.looked, Some(f)) && Refusal(f, t.said, b.runs)
    && t.awaited == [] && t.rounds == 0
  }

  /** A timeout: all were asked to stop, the time is up, and some were active when last asked. */
  ghost predicate GuardTimedOut(f: Failure, t: Trace, a: Record, b: Record, key: string, timeout: nat) {
    var found := Matching(t.seen, key);
    && Concat(t.sent) == ToStop(found) && LookedInto(t.said, t.looked, None)
    && b.clock >= a.clock + timeout
    && Overdue(f, Ids(found), t.awaited, |b.sleeps|, a.runs, b.runs)
  }

  /** The whole contract of a stop. */
  ghost predicate Guarded(r: Result<seq<RunId>>, t: Trace, a: Record, b: Record, key: string, cutoff: int,
                          timeout: nat, interval: nat)
  {
    && GuardDid(t, a, b, key, cutoff, timeout, interval)
    && match r
       case Ok(ids) => GuardOk(ids, t, b, key, cutoff)
       case Raised(f) =>
         if f.StopRefused? then GuardRefused(f, t, b, key) else GuardTimedOut(f, t, a, b, key, timeout)
  }

  lemma GuardDidIs(t: Trace, a: Record, b: Record, key: string, cutoff: int, timeout: nat, interval: nat)
    requires Evolves(a.runs, b.runs, key) && a.clock <= b.clock
    requires b.pages == a.pages + t.read && ScanPages(t.read, cutoff, MAX_PAGES)
    requires t.seen == UpToOld(Flat(t.read), cutoff) && Scanned(t.seen, t.top, b.runs, cutoff)
    requires b.batches == a.batches + t.sent && GoodBatches(t.sent, b.runs, key)
    requires b.reported == a.reported + t.said
    requires b.looks == a.looks + t.looked + t.awaited
    requires b.sleeps == a.sleeps + Times(interval, t.rounds) && (t.rounds > 0 ==> (t.rounds - 1) * interval < timeout)
    ensures GuardDid(t, a, b, key, cutoff, timeout, interval)
  {
  }

  lemma GuardIsOk(ids: seq<RunId>, t: Trace, a: Record, b: Record, key: string, cutoff: int, timeout: nat,
                  interval: nat)
    requires GuardDid(t, a, b, key, cutoff, timeout, interval)
    requires ids == Ids(Matching(t.seen, key)) && AllEnded(ids, b.runs)
    requires Concat(t.sent) == ToStop(Matching(t.seen, key)) && LookedInto(t.said, t.looked, None)
    requires LooksDecide(ids, [], t.awaited, |b.sleeps|)
    requires !Capped(t.read, cutoff, MAX_PAGES) ==> NoneLive(b.runs, key, cutoff)
    ensures Guarded(Ok(ids), t, a, b, key, cutoff, timeout, interval)
  {
    hide GuardDid;
  }

  lemma GuardIsRefused(f: Failure, t: Trace, a: Record, b: Record, key: string, cutoff: int, timeout: nat,
                       interval: nat)
    requires GuardDid(t, a, b, key, cutoff, timeout, interval)
    requires Concat(t.sent) <= ToStop(Matching(t.seen, key))
    requires LookedInto(t.said, t.looked, Some(f)) && Refusal(f, t.said, b.runs)
    requires t.awaited == [] && t.rounds == 0
    ensures Guarded(Raised(f), t, a, b, key, cutoff, timeout, interval)
  {
    hide GuardDid;
  }

  lemma GuardIsTimedOut(f: Failure, t: Trace, a: Record, b: Record, c: Record, key: string, cutoff: int, timeout: nat,
                        interval: nat)
    requires GuardDid(t, a, b, key, cutoff, timeout, interval)
    requires Concat(t.sent) == ToStop(Matching(t.seen, key)) && LookedInto(t.said, t.looked, None)
    requires a.clock <= c.clock && b.clock >= c.clock + timeout && Evolves(a.runs, c.runs, key)
    requires Own(Ids(Matching(t.seen, key)), c.runs, key)
    requires Overdue(f, Ids(Matching(t.seen, key)), t.awaited, |b.sleeps|, c.runs, b.runs)
    ensures Guarded(Raised(f), t, a, b, key, cutoff, timeout, interval)
  {
    hide GuardDid, Evolves;
    OwnAmong(f.pending, Ids(Matching(t.seen, key)), c.runs, key);
    ActiveEarlier(f.pending, a.runs, c.runs, key);
  }

  lemma OwnAmong(xs: seq<RunId>, ys: seq<RunId>, runs: History, key: string)
    requires Own(ys, runs, key) && Among(xs, ys)
    ensures Own(xs, runs, key)
  {
    forall i | 0 <= i < |xs| ensures xs[i] < |runs| && runs[xs[i]].key == Some(key) {
      assert xs[i] in ys;
    }
  }

  method StopStaleGlueRuns(client: GlueClient, key: string, now: int, lookback: int, timeout: nat, interval: nat)
    returns (r: Result<seq<RunId>>, ghost t: Trace)
    requires client.Exclusive(key) && interval > 0
    modifies client
    ensures Guarded(r, t, old(client.Now()), client.Now(), key, now - lookback, timeout, interval)
  {
    hide *;
    client.NowIs();
    ghost var start, cutoff := client.Now(), now - lookback;
    var active, capped, read, seen, top := FindActiveGlueRuns(client, key, now - lookback, MAX_PAGES);
    client.NowIs();
    ghost var scanned := client.Now();
    t := Trace(read, seen, top, [], [], [], [], 0);
    FoundIsOwn(t, scanned.runs, key, cutoff);
    FoundIsDistinct(t, scanned.runs, key, cutoff);
    NothingDone(scanned.runs, key, interval, |scanned.sleeps|);
    EvolvesReflexive(scanned.runs, key);
    if active == [] {
      if !capped {
        EndedMeansNoneLive(start.runs, scanned.runs, scanned.runs, t, key, cutoff);
      }
      GuardDidIs(t, start, scanned, key, cutoff, timeout, interval);
      GuardIsOk([], t, start, scanned, key, cutoff, timeout, interval);
      return Ok([]), t;
    }
    var runIds := Ids(active);
    var toStop := ToStop(active);
    var refused;
    ghost var sent, said, looked;
    refused, sent, said, looked := StopInBatches(client, toStop, key);
    client.NowIs();
    ghost var stopped := client.Now();
    t := Trace(read, seen, top, sent, said, looked, [], 0);
    EvolvesTransitive(start.runs, scanned.runs, stopped.runs, key);
    ScannedLater(seen, top, scanned.runs, stopped.runs, cutoff, key);
    if refused.Some? {
      GuardDidIs(t, start, stopped, key, cutoff, timeout, interval);
      GuardIsRefused(refused.value, t, start, stopped, key, cutoff, timeout, interval);
      return Raised(refused.value), t;
    }
    OwnLater(runIds, scanned.runs, stopped.runs, key);
    var timedOut;
    ghost var awaited, rounds;
    timedOut, awaited, rounds := AwaitEnd(client, runIds, timeout, interval, key);
    client.NowIs();
    ghost var ended := client.Now();
    t := Trace(read, seen, top, sent, said, looked, awaited, rounds);
    EvolvesTransitive(start.runs, stopped.runs, ended.runs, key);
    EvolvesTransitive(scanned.runs, stopped.runs, ended.runs, key);
    ScannedLater(seen, top, stopped.runs, ended.runs, cutoff, key);
    GoodBatchesLater(sent, stopped.runs, ended.runs, key);
    GuardDidIs(t, start, ended, key, cutoff, timeout, interval);
    if timedOut.Some? {
      GuardIsTimedOut(timedOut.value, t, start, ended, stopped, key, cutoff, timeout, interval);
      return Raised(timedOut.value), t;
    }
    if !capped {
      EndedMeansNoneLive(start.runs, scanned.runs, ended.runs, t, key, cutoff);
    }
    GuardIsOk(runIds, t, start, ended, key, cutoff, timeout, interval);
    return Ok(runIds), t;
  }

  /** A scan that found nothing has nothing to stop, to look into or to wait for. */
  lemma NothingDone(runs: History, key: string, interval: nat, sleeps: nat)
    ensures GoodBatches([], runs, key) && Concat([]) == [] && Times(interval, 0) == []
    ensures Ids([]) == [] && ToStop([]) == [] && AllEnded([], runs)
    ensures LookedInto([], [], None) && LooksDecide([], [], [], sleeps)
  {
  }

  lemma NoBatches(runs: History, key: string)
    ensures GoodBatches([], runs, key) && Concat([]) == []
  {
  }

  /** What the guard of a launch came to. */
  function GuardOutcome(r: Result<RunId>, t: Trace, key: string): Result<seq<RunId>> {
    if r.Ok? then Ok(Ids(Matching(t.seen, key))) else Raised(r.failure)
  }

  /** The record but for the last run. */
  function BeforeLaunch(b: Record, launched: bool): Record {
    if launched && b.runs != [] then b.(runs := b.runs[..|b.runs| - 1]) else b
  }

  /** The guard order of `submit_glue_job`: a job that exists is scanned, and its stale runs are stopped and waited for,
      before anything is launched. */
  method SubmitGlueJob(client: GlueClient, key: Option<string>, jobExists: bool, now: int, lookback: int,
                       timeout: nat, interval: nat, startedOn: int)
    returns (r: Result<RunId>, ghost t: Trace)
    requires interval > 0 && (key.Some? ==> client.Exclusive(key.value))
    requires !jobExists ==> client.runs == []
    modifies client
    ensures jobExists && key.Some? ==>
      Guarded(GuardOutcome(r, t, key.value), t, old(client.Now()), BeforeLaunch(client.Now(), r.Ok?), key.value,
              now - lookback, timeout, interval)
    ensures !(jobExists && key.Some?) ==> r.Ok? && BeforeLaunch(client.Now(), true) == old(client.Now())
    ensures r.Ok? ==> |client.runs| == r.value + 1 && client.runs[r.value] == JobRun(Starting, Some(startedOn), key)
    ensures r.Ok? && key.Some? && (jobExists ==> !Capped(t.read, now - lookback, 10)) ==>
      NoneLive(client.runs[..r.value], key.value, now - lookback)
  {
    hide *;
    client.NowIs();
    ghost var start := client.Now();
    t := Trace([], [], 0, [], [], [], [], 0);
    var stopped: Result<seq<RunId>> := Ok([]);
    if jobExists && key.Some? {
      stopped, t := StopStaleGlueRuns(client, key.value, now, lookback, timeout, interval);
      client.NowIs();
      GuardedMeans(stopped, t, start, client.Now(), key.value, now - lookback, timeout, interval);
      if stopped.Raised? {
        r := Raised(stopped.failure);
        GuardOutcomeIs(r, t, key.value, client.Now());
        return;
      }
    }
    client.NowIs();
    ghost var ready := client.Now();
    var id := client.StartJobRun(key, startedOn);
    client.NowIs();
    assert client.runs[..id] == ready.runs;
    r := Ok(id);
    LaunchIs(ready, client.Now());
    if key.Some? {
      GuardOutcomeIs(r, t, key.value, client.Now());
      if !jobExists {
        NoRunsNoneLive(key.value, now - lookback);
      }
    }
  }

  lemma GuardedMeans(r: Result<seq<RunId>>, t: Trace, a: Record, b: Record, key: string, cutoff: int, timeout: nat,
                     interval: nat)
    requires Guarded(r, t, a, b, key, cutoff, timeout, interval)
    ensures r.Ok? ==> r.value == Ids(Matching(t.seen, key))
    ensures r.Ok? && !Capped(t.read, cutoff, 10) ==> NoneLive(b.runs, key, cutoff)
  {
    hide GuardDid;
  }

  lemma GuardOutcomeIs(r: Result<RunId>, t: Trace, key: string, b: Record)
    ensures GuardOutcome(r, t, key) == if r.Ok? then Ok(Ids(Matching(t.seen, key))) else Raised(r.failure)
    ensures BeforeLaunch(b, false) == b
  {
  }

  lemma LaunchIs(a: Record, b: Record)
    requires |b.runs| == |a.runs| + 1 && b.runs[..|a.runs|] == a.runs && b == a.(runs := b.runs)
    ensures BeforeLaunch(b, true) == a
  {
  }

  lemma NoRunsNoneLive(key: string, cutoff: int)
    ensures NoneLive([], key, cutoff)
  {
  }

  /** After a launch whose scan was not cut off, with no live run older than the lookback, the new run is
      the only live one of its task instance. */
  lemma OneWriterAfterLaunch(runs: History, id: RunId, key: string, cutoff: int)
    requires |runs| == id + 1 && NoneLive(runs[..id], key, cutoff)
    requires NewestFirst(runs) && NoneLiveBefore(runs, key, cutoff)
    ensures forall j :: 0 <= j < |runs| && runs[j].key == Some(key) && j != id ==> runs[j].state.Ended?
  {
    forall j | 0 <= j < id && runs[j].key == Some(key) ensures runs[j].state.Ended? {
      assert runs[..id][j] == runs[j];
      if !runs[j].state.Ended? {
        assert NoneOldFrom(runs[..id], j, cutoff);
      }
    }
  }
}
