/** Model of the Glue service as the pre-submit guard of _glue.py sees it, and of `find_active_glue_runs`.

    The run history moves on at every call: runs change state, other writers launch runs, stop requests are
    accepted or refused, and time passes. What the service does is fixed by functions given to its
    constructor, so every contract holds for every behaviour that respects `Later`: a run keeps its key and
    start time, and a run that is no longer active never changes again. The service also keeps a record of
    what it was asked and what it answered, for the contracts to speak about.
  */
module GlueRuns {
  import opened Wrappers

  datatype RunState = Starting | Running | Stopping | Waiting | Ended(state: string)

  predicate IsActive(s: RunState) {
    !s.Ended?
  }

  /** One entry of the run list; `key` is what the run carries under the task-instance argument. */
  datatype JobRun = JobRun(state: RunState, startedOn: Option<int>, key: Option<string>)

  type RunId = nat

  /** All runs of a job, oldest first; a run's id is its position. */
  type History = seq<JobRun>

  /** The same run at a later time. */
  predicate Later(a: JobRun, b: JobRun) {
    && a.startedOn == b.startedOn
    && a.key == b.key
    && (a.state.Ended? ==> a.state == b.state)
  }

  /** The history at a later time, when nobody launched a run with this key in between. */
  ghost predicate Evolves(a: History, b: History, key: string) {
    && |a| <= |b|
    && (forall i :: 0 <= i < |a| ==> Later(a[i], b[i]))
    && (forall i :: |a| <= i < |b| ==> b[i].key != Some(key))
  }

  lemma EvolvesTransitive(a: History, b: History, c: History, key: string)
    requires Evolves(a, b, key) && Evolves(b, c, key)
    ensures Evolves(a, c, key)
  {
    forall i | 0 <= i < |a| ensures Later(a[i], c[i]) {
      assert Later(a[i], b[i]) && Later(b[i], c[i]);
    }
    forall i | |a| <= i < |c| ensures c[i].key != Some(key) {
      if i < |b| {
        assert Later(b[i], c[i]);
      }
    }
  }

  lemma EvolvesReflexive(a: History, key: string)
    ensures Evolves(a, a, key)
  {
  }

  predicate IsLive(r: JobRun, key: string) {
    IsActive(r.state) && r.key == Some(key)
  }

  predicate IsOld(r: JobRun, cutoff: int) {
    r.startedOn.Some? && r.startedOn.value < cutoff
  }

  // ---------------------------------------------------------------------------------------
  // The service
  // ---------------------------------------------------------------------------------------

  const PAGE_SIZE: nat := 200
  const MAX_PAGES: nat := 10
  const BATCH_SIZE: nat := 25

  datatype Listed = Listed(id: RunId, run: JobRun)

  datatype Page = Page(runs: seq<Listed>, nextToken: Option<nat>)

  /** A request for a page, and the page. */
  datatype ListCall = ListCall(token: Option<nat>, page: Page)

  /** A request for the state of a run, its answer, and how often the client had slept before. */
  datatype Look = Look(id: RunId, state: RunState, sleeps: nat)

  /** The history, the time, and all that was asked so far: pages read, runs told to stop, ids reported back, runs
      looked at, and seconds slept. */
  datatype Record = Record(runs: History, clock: nat, pages: seq<ListCall>, batches: seq<seq<RunId>>,
                           reported: seq<RunId>, looks: seq<Look>, sleeps: seq<nat>)

  /** Runs `lo` to `hi - 1`, newest first. */
  function Newest(runs: History, lo: nat, hi: nat): (page: seq<Listed>)
    requires lo <= hi <= |runs|
    ensures |page| == hi - lo
    decreases hi - lo
  {
    if lo == hi then [] else [Listed(hi - 1, runs[hi - 1])] + Newest(runs, lo, hi - 1)
  }

  lemma {:induction false} NewestAt(runs: History, lo: nat, hi: nat, j: nat)
    requires lo <= hi <= |runs| && j < hi - lo
    ensures Newest(runs, lo, hi)[j] == Listed(hi - 1 - j, runs[hi - 1 - j])
    decreases j
  {
    if j > 0 {
      NewestAt(runs, lo, hi - 1, j - 1);
    }
  }

  /** What the service does at its n-th call. */
  datatype Behaviour = Behaviour(
    progress: (nat, History) -> History,
    pageLength: nat -> nat,
    refuses: (nat, RunId) -> bool,
    latency: nat -> nat)

  class GlueClient {
    var runs: History
    var calls: nat
    var clock: nat
    ghost var pages: seq<ListCall>
    ghost var looks: seq<Look>
    ghost var sleeps: seq<nat>
    ghost var batches: seq<seq<RunId>>
    ghost var reported: seq<RunId>
    const behaviour: Behaviour

    constructor (runs: History, behaviour: Behaviour)
      ensures this.behaviour == behaviour && Now() == Record(runs, 0, [], [], [], [], [])
    {
      this.runs := runs;
      this.behaviour := behaviour;
      calls := 0;
      clock := 0;
      pages := [];
      looks := [];
      sleeps := [];
      batches := [];
      reported := [];
    }

    ghost function Now(): Record
      reads this
    {
      Record(runs, clock, pages, batches, reported, looks, sleeps)
    }

    lemma NowIs()
      ensures Now() == Record(runs, clock, pages, batches, reported, looks, sleeps)
    {
    }

    /** No other writer launches runs with this key: one live try per task instance. */
    ghost predicate Exclusive(key: string) {
      forall t: nat, h: History :: Evolves(h, behaviour.progress(t, h), key)
    }

    /** Nothing happens on the platform while the scan runs. */
    ghost predicate Still() {
      forall t: nat, h: History :: behaviour.progress(t, h) == h
    }

    method Proceed(ghost key: string)
      requires Exclusive(key)
      modifies this`runs, this`calls, this`clock
      ensures runs == behaviour.progress(old(calls), old(runs))
      ensures Evolves(old(runs), runs, key)
      ensures Still() ==> runs == old(runs)
      ensures old(clock) <= clock
    {
      runs := behaviour.progress(calls, runs);
      clock := clock + behaviour.latency(calls);
      calls := calls + 1;
    }

    method GetJobRuns(token: Option<nat>, ghost key: string) returns (page: Page)
      requires Exclusive(key) && (token.Some? ==> token.value <= |runs|)
      modifies this`runs, this`calls, this`clock, this`pages
      ensures Evolves(old(runs), runs, key)
      ensures Still() ==> runs == old(runs)
      ensures old(clock) <= clock
      ensures pages == old(pages) + [ListCall(token, page)]
      ensures var hi := if token.Some? then token.value else |runs|;
              hi <= |runs| && |page.runs| <= 200 && |page.runs| <= hi
              && page.runs == Newest(runs, hi - |page.runs|, hi)
              && page.nextToken == if |page.runs| == hi then None else Some(hi - |page.runs|)
    {
      var n := behaviour.pageLength(calls);
      Proceed(key);
      var hi := if token.Some? then token.value else |runs|;
      var length := if n > PAGE_SIZE then PAGE_SIZE else n;
      length := if length > hi then hi else length;
      page := Page(Newest(runs, hi - length, hi), if length == hi then None else Some(hi - length));
      pages := pages + [ListCall(token, page)];
    }

    method GetJobRun(id: RunId, ghost key: string) returns (state: RunState)
      requires Exclusive(key) && id < |runs|
      modifies this`runs, this`calls, this`clock, this`looks
      ensures Evolves(old(runs), runs, key)
      ensures old(clock) <= clock
      ensures state == runs[id].state && looks == old(looks) + [Look(id, state, |sleeps|)]
    {
      Proceed(key);
      state := runs[id].state;
      looks := looks + [Look(id, state, |sleeps|)];
    }

    /** `BatchStopJobRun`: the ids it reports are those it refuses and those no longer active. */
    method BatchStopJobRun(ids: seq<RunId>, ghost key: string) returns (errors: seq<RunId>)
      requires Exclusive(key) && 0 < |ids| <= 25
      requires forall i :: 0 <= i < |ids| ==> ids[i] < |runs| && runs[ids[i]].key == Some(key)
      modifies this`runs, this`calls, this`clock, this`batches, this`reported
      ensures batches == old(batches) + [ids] && reported == old(reported) + errors
      ensures Evolves(old(runs), runs, key)
      ensures old(clock) <= clock
      ensures forall id :: id in errors ==> id in ids
      ensures forall id :: id in ids && id !in errors ==> runs[id].state == Stopping
      ensures var before := behaviour.progress(old(calls), old(runs));
              |runs| == |before| && forall id :: 0 <= id < |runs| && id !in ids ==> runs[id] == before[id]
    {
      var t := calls;
      Proceed(key);
      batches := batches + [ids];
      errors := [];
      ghost var before := runs;
      for i := 0 to |ids|
        modifies this`runs
        invariant Evolves(before, runs, key) && |runs| == |before|
        invariant forall id :: id in errors ==> id in ids
        invariant forall id :: id in ids[..i] && id !in errors ==> runs[id].state == Stopping
        invariant forall id :: 0 <= id < |runs| && id !in ids ==> runs[id] == before[id]
      {
        var id := ids[i];
        if !IsActive(runs[id].state) || behaviour.refuses(t, id) {
          errors := errors + [id];
        } else {
          runs := runs[id := runs[id].(state := Stopping)];
        }
      }
      reported := reported + errors;
      EvolvesTransitive(old(runs), before, runs, key);
    }

    method Sleep(seconds: nat, ghost key: string)
      requires Exclusive(key)
      modifies this`runs, this`calls, this`clock, this`sleeps
      ensures Evolves(old(runs), runs, key)
      ensures clock >= old(clock) + seconds && sleeps == old(sleeps) + [seconds]
    {
      Proceed(key);
      clock := clock + seconds;
      sleeps := sleeps + [seconds];
    }

    method StartJobRun(key: Option<string>, startedOn: int) returns (id: RunId)
      modifies this`runs
      ensures id == |old(runs)| && runs == old(runs) + [JobRun(Starting, Some(startedOn), key)]
    {
      id := |runs|;
      runs := runs + [JobRun(Starting, Some(startedOn), key)];
    }
  }

  // ---------------------------------------------------------------------------------------
  // The scan
  // ---------------------------------------------------------------------------------------

  /** The entries of live runs with this key. */
  function Matching(listing: seq<Listed>, key: string): seq<Listed> {
    if listing == [] then []
    else
      var n := |listing| - 1;
      Matching(listing[..n], key) + if IsLive(listing[n].run, key) then [listing[n]] else []
  }

  lemma MatchingSnoc(listing: seq<Listed>, x: Listed, key: string)
    ensures Matching(listing + [x], key) == Matching(listing, key) + if IsLive(x.run, key) then [x] else []
  {
    assert (listing + [x])[..|listing|] == listing;
  }

  lemma {:induction false} MatchingMember(listing: seq<Listed>, x: Listed, key: string)
    ensures x in Matching(listing, key) <==> x in listing && IsLive(x.run, key)
  {
    if listing != [] {
      var n := |listing| - 1;
      MatchingMember(listing[..n], x, key);
      assert listing == listing[..n] + [listing[n]];
    }
  }

  lemma {:induction false} MatchingConcat(a: seq<Listed>, b: seq<Listed>, key: string)
    ensures Matching(a + b, key) == Matching(a, key) + Matching(b, key)
    decreases |b|
  {
    if b == [] {
      assert a + b == a;
    } else {
      var n := |b| - 1;
      assert (a + b)[..|a| + n] == a + b[..n];
      MatchingConcat(a, b[..n], key);
    }
  }

  /** Of the runs looked at, those with the key that are starting, running, stopping or waiting. */
  ghost predicate ActiveOnes(matches: seq<Listed>, seen: seq<Listed>, key: string) {
    forall x ::
      x in matches <==> x in seen && x.run.key == Some(key) && x.run.state in {Starting, Running, Stopping, Waiting}
  }

  lemma StatesAreTold(s: RunState)
    ensures IsActive(s) <==> s in {Starting, Running, Stopping, Waiting}
    ensures IsActive(s) <==> !s.Ended?
  {
  }

  /** What a scan has looked at: runs `top - 1` downwards, none of them old, each as it was at some
      moment before the present. */
  ghost predicate Scanned(seen: seq<Listed>, top: nat, runs: History, cutoff: int) {
    && |seen| <= top <= |runs|
    && forall j :: 0 <= j < |seen| ==>
      && seen[j].id == top - 1 - j
      && !IsOld(seen[j].run, cutoff)
      && Later(seen[j].run, runs[seen[j].id])
  }

  lemma ScannedLater(seen: seq<Listed>, top: nat, a: History, b: History, cutoff: int, key: string)
    requires Scanned(seen, top, a, cutoff) && Evolves(a, b, key)
    ensures Scanned(seen, top, b, cutoff)
  {
    forall j | 0 <= j < |seen| ensures Later(seen[j].run, b[seen[j].id]) {
      assert Later(a[seen[j].id], b[seen[j].id]);
    }
  }

  /** A start time that is known, and before the cutoff. */
  predicate StartedBefore(startedOn: Option<int>, cutoff: int) {
    match startedOn
    case None => false
    case Some(time) => time < cutoff
  }

  /** The scan ended at the oldest run or at one that started before the cutoff. */
  ghost predicate ReachedBoundary(seen: seq<Listed>, top: nat, runs: History, cutoff: int) {
    |seen| <= top <= |runs| && (|seen| == top || StartedBefore(runs[top - 1 - |seen|].startedOn, cutoff))
  }

  /** All runs of the pages, one page after the other. */
  function Flat(read: seq<ListCall>): seq<Listed> {
    if read == [] then [] else Flat(read[..|read| - 1]) + read[|read| - 1].page.runs
  }

  /** The entries before the first run that started before the cutoff. */
  function UpToOld(listing: seq<Listed>, cutoff: int): seq<Listed> {
    if listing == [] || IsOld(listing[0].run, cutoff) then [] else [listing[0]] + UpToOld(listing[1..], cutoff)
  }

  ghost predicate NoneOld(listing: seq<Listed>, cutoff: int) {
    forall j :: 0 <= j < |listing| ==> !IsOld(listing[j].run, cutoff)
  }

  lemma {:induction false} UpToOldAt(listing: seq<Listed>, cutoff: int, k: nat)
    requires k <= |listing| && NoneOld(listing[..k], cutoff) && (k < |listing| ==> IsOld(listing[k].run, cutoff))
    ensures UpToOld(listing, cutoff) == listing[..k]
    decreases k
  {
    hide IsOld;
    if k > 0 {
      var head, rest := listing[..k], listing[1..][..k - 1];
      assert head[0] == listing[0] && head == [listing[0]] + rest;
      forall j | 0 <= j < |rest| ensures !IsOld(rest[j].run, cutoff) {
        assert rest[j] == head[j + 1];
      }
      UpToOldAt(listing[1..], cutoff, k - 1);
    }
  }

  /** There is another page, and no run of this one started before the cutoff. */
  ghost predicate GoesOn(page: Page, cutoff: int) {
    page.nextToken.Some? && NoneOld(page.runs, cutoff)
  }

  predicate TokenAt(read: seq<ListCall>, i: nat)
    requires i < |read|
  {
    read[i].token == if i == 0 then None else read[i - 1].page.nextToken
  }

  /** The scan begins at the newest run, and asks for each further page with the token of the one before. */
  ghost predicate Chained(read: seq<ListCall>) {
    forall i :: 0 <= i < |read| ==> TokenAt(read, i)
  }

  /** The pages a scan reads: as long as it goes on, and no more than `maxPages`. */
  ghost predicate ScanPages(read: seq<ListCall>, cutoff: int, maxPages: nat) {
    && |read| <= maxPages && Chained(read)
    && (forall i :: 0 <= i < |read| - 1 ==> GoesOn(read[i].page, cutoff))
    && (|read| < maxPages ==> read != [] && !GoesOn(read[|read| - 1].page, cutoff))
  }

  /** The page cap was hit: the scan read all the pages it may and would go on. */
  ghost predicate Capped(read: seq<ListCall>, cutoff: int, maxPages: nat) {
    |read| == maxPages && forall i :: 0 <= i < |read| ==> GoesOn(read[i].page, cutoff)
  }

  lemma FlatSnoc(read: seq<ListCall>, c: ListCall)
    ensures Flat(read + [c]) == Flat(read) + c.page.runs
  {
    assert (read + [c])[..|read|] == read;
  }

  lemma ChainedSnoc(read: seq<ListCall>, c: ListCall)
    requires Chained(read) && c.token == if read == [] then None else read[|read| - 1].page.nextToken
    ensures Chained(read + [c])
  {
    var longer := read + [c];
    forall i | 0 <= i < |longer| ensures TokenAt(longer, i) {
      if i < |read| {
        assert TokenAt(read, i);
      }
    }
  }

  /** All pages so far go on, and the next one is asked for. */
  ghost predicate ScanOpen(read: seq<ListCall>, cutoff: int, nextToken: Option<nat>) {
    && Chained(read) && (forall i :: 0 <= i < |read| ==> GoesOn(read[i].page, cutoff))
    && nextToken == if read == [] then None else read[|read| - 1].page.nextToken
  }

  lemma ScanGoesOn(read: seq<ListCall>, c: ListCall, cutoff: int, nextToken: Option<nat>)
    requires ScanOpen(read, cutoff, nextToken) && c.token == nextToken && GoesOn(c.page, cutoff)
    ensures ScanOpen(read + [c], cutoff, c.page.nextToken)
  {
    hide GoesOn, Chained;
    ChainedSnoc(read, c);
    var longer := read + [c];
    assert longer[|read|] == c && forall i :: 0 <= i < |read| ==> longer[i] == read[i];
  }

  lemma ScanEnds(read: seq<ListCall>, c: ListCall, cutoff: int, nextToken: Option<nat>, maxPages: nat)
    requires ScanOpen(read, cutoff, nextToken) && c.token == nextToken && !GoesOn(c.page, cutoff) && |read| < maxPages
    ensures ScanPages(read + [c], cutoff, maxPages) && !Capped(read + [c], cutoff, maxPages)
  {
    hide GoesOn, Chained;
    ChainedSnoc(read, c);
    var longer := read + [c];
    assert longer[|read|] == c && forall i :: 0 <= i < |read| ==> longer[i] == read[i];
    assert !GoesOn(longer[|read|].page, cutoff);
  }

  lemma ScanCapped(read: seq<ListCall>, cutoff: int, nextToken: Option<nat>, maxPages: nat)
    requires ScanOpen(read, cutoff, nextToken) && |read| == maxPages
    ensures ScanPages(read, cutoff, maxPages) && Capped(read, cutoff, maxPages)
  {
    hide GoesOn;
  }

  /** What one more page adds to what the scan has looked at. */
  lemma SeenOn(read: seq<ListCall>, c: ListCall, seen: seq<Listed>, cutoff: int, k: nat)
    requires seen == Flat(read) && NoneOld(seen, cutoff) && k <= |c.page.runs| && NoneOld(c.page.runs[..k], cutoff)
    requires k < |c.page.runs| ==> IsOld(c.page.runs[k].run, cutoff)
    ensures seen + c.page.runs[..k] == UpToOld(Flat(read + [c]), cutoff)
    ensures k == |c.page.runs| ==>
      seen + c.page.runs[..k] == Flat(read + [c]) && NoneOld(seen + c.page.runs[..k], cutoff)
  {
    hide IsOld, UpToOld, Flat;
    var runs := c.page.runs;
    FlatSnoc(read, c);
    var all := seen + runs;
    assert all[..|seen| + k] == seen + runs[..k];
    UpToOldAt(all, cutoff, |seen| + k);
    assert runs[..|runs|] == runs;
  }

  /** The loop over one page: it stops at the first run that started before the cutoff. */
  method ScanPage(page: seq<Listed>, key: string, cutoff: int, matches: seq<Listed>,
                  ghost runs: History, ghost seen: seq<Listed>, ghost top: nat)
    returns (matches': seq<Listed>, old': bool, ghost seen': seq<Listed>)
    requires Scanned(seen, top, runs, cutoff) && matches == Matching(seen, key)
    requires |page| <= top - |seen| && page == Newest(runs, top - |seen| - |page|, top - |seen|)
    ensures Scanned(seen', top, runs, cutoff) && matches' == Matching(seen', key)
    ensures |seen| <= |seen'| <= |seen| + |page| && seen' == seen + page[..|seen'| - |seen|]
    ensures old' ==> |seen'| < |seen| + |page| && StartedBefore(runs[top - 1 - |seen'|].startedOn, cutoff)
    ensures old' ==> IsOld(page[|seen'| - |seen|].run, cutoff)
    ensures NoneOld(page[..|seen'| - |seen|], cutoff)
    ensures !old' ==> |seen'| == |seen| + |page|
  {
    hide Matching, Newest;
    matches' := matches;
    seen' := seen;
    for i := 0 to |page|
      invariant |seen'| == |seen| + i && seen' == seen + page[..i]
      invariant Scanned(seen', top, runs, cutoff)
      invariant matches' == Matching(seen', key)
      invariant NoneOld(page[..i], cutoff)
    {
      var run := page[i];
      NewestAt(runs, top - |seen| - |page|, top - |seen|, i);
      if IsOld(run.run, cutoff) {
        return matches', true, seen';
      }
      MatchingSnoc(seen', run, key);
      ghost var longer := seen' + [run];
      ScannedSnoc(seen', run, top, runs, cutoff);
      seen' := longer;
      if IsActive(run.run.state) && run.run.key == Some(key) {
        matches' := matches' + [run];
      }
    }
    old' := false;
  }

  lemma ScannedSnoc(seen: seq<Listed>, x: Listed, top: nat, runs: History, cutoff: int)
    requires Scanned(seen, top, runs, cutoff) && |seen| < top
    requires x == Listed(top - 1 - |seen|, runs[top - 1 - |seen|]) && !IsOld(x.run, cutoff)
    ensures Scanned(seen + [x], top, runs, cutoff)
  {
  }

  /** Reading on from where the last page ended reads the same list. */
  lemma NewestOn(runs: History, seen: seq<Listed>, page: seq<Listed>, n: nat, top: nat)
    requires |seen| + |page| <= top <= |runs| && n <= |page|
    requires seen == Newest(runs, top - |seen|, top)
    requires page == Newest(runs, top - |seen| - |page|, top - |seen|)
    ensures seen + page[..n] == Newest(runs, top - |seen| - n, top)
  {
    var mid := top - |seen|;
    NewestSplit(runs, mid - n, mid, top);
    NewestSplit(runs, mid - |page|, mid - n, mid);
  }

  lemma {:induction false} NewestSplit(runs: History, lo: nat, mid: nat, hi: nat)
    requires lo <= mid <= hi <= |runs|
    ensures Newest(runs, lo, hi) == Newest(runs, mid, hi) + Newest(runs, lo, mid)
    decreases hi - mid
  {
    if mid < hi {
      NewestSplit(runs, lo, mid, hi - 1);
    }
  }

  method FindActiveGlueRuns(client: GlueClient, key: string, cutoff: int, maxPages: nat)
    returns (matches: seq<Listed>, capped: bool, ghost read: seq<ListCall>, ghost seen: seq<Listed>, ghost top: nat)
    requires client.Exclusive(key)
    modifies client`runs, client`calls, client`clock, client`pages
    ensures Evolves(old(client.runs), client.runs, key)
    ensures old(client.clock) <= client.clock
    // the pages read, and what they say
    ensures client.pages == old(client.pages) + read && ScanPages(read, cutoff, maxPages)
    ensures capped == Capped(read, cutoff, maxPages)
    ensures seen == UpToOld(Flat(read), cutoff) && matches == Matching(seen, key)
    ensures ActiveOnes(matches, seen, key)
    // how that relates to the history
    ensures Scanned(seen, top, client.runs, cutoff)
    ensures !capped ==> ReachedBoundary(seen, top, client.runs, cutoff) && |old(client.runs)| <= top
    ensures client.Still() && maxPages > 0 ==>
      client.runs == old(client.runs) && top == |client.runs| && seen == Newest(client.runs, top - |seen|, top)
  {
    hide *;
    matches := [];
    seen := [];
    read := [];
    top := 0;
    NoMatches(key);
    NothingRead(cutoff);
    NothingScanned(client.runs, 0, cutoff);
    EvolvesReflexive(client.runs, key);
    var nextToken: Option<nat> := None;
    var pages := 0;
    while pages < maxPages
      invariant pages <= maxPages && |read| == pages && client.pages == old(client.pages) + read
      invariant ScanOpen(read, cutoff, nextToken) && seen == Flat(read) && NoneOld(seen, cutoff)
      invariant pages == 0 ==> nextToken == None && seen == [] && client.runs == old(client.runs)
      invariant pages > 0 ==> nextToken == Some(top - |seen|) && |old(client.runs)| <= top
      invariant Evolves(old(client.runs), client.runs, key) && old(client.clock) <= client.clock
      invariant Scanned(seen, top, client.runs, cutoff)
      invariant matches == Matching(seen, key)
      invariant client.Still() ==> client.runs == old(client.runs)
      invariant client.Still() && pages > 0 ==> top == |client.runs| && seen == Newest(client.runs, top - |seen|, top)
      decreases maxPages - pages
    {
      ghost var before, start := client.runs, seen;
      ScannedRange(seen, top, client.runs, cutoff);
      var response := client.GetJobRuns(nextToken, key);
      ghost var asked := ListCall(nextToken, response);
      EvolvesTransitive(old(client.runs), before, client.runs, key);
      ScannedLater(seen, top, before, client.runs, cutoff, key);
      if pages == 0 {
        top := |client.runs|;
        NothingListed(client.runs);
        NothingScanned(client.runs, top, cutoff);
      }
      var reachedOld;
      matches, reachedOld, seen := ScanPage(response.runs, key, cutoff, matches, client.runs, seen, top);
      if client.Still() {
        NewestOn(client.runs, start, response.runs, |seen| - |start|, top);
      }
      ScannedRange(seen, top, client.runs, cutoff);
      BoundaryIs(seen, top, client.runs, cutoff);
      SeenOn(read, asked, start, cutoff, |seen| - |start|);
      PageGoesOn(response, cutoff, |seen| - |start|);
      if reachedOld {
        ScanEnds(read, asked, cutoff, nextToken, maxPages);
        AllMatches(seen, key);
        return matches, false, read + [asked], seen, top;
      }
      ghost var token := nextToken;
      nextToken := response.nextToken;
      if nextToken.None? {
        ScanEnds(read, asked, cutoff, token, maxPages);
        AllMatches(seen, key);
        return matches, false, read + [asked], seen, top;
      }
      ScanGoesOn(read, asked, cutoff, token);
      read := read + [asked];
      pages := pages + 1;
    }
    ScanCapped(read, cutoff, nextToken, maxPages);
    SeenAll(read, seen, cutoff);
    AllMatches(seen, key);
    capped := true;
  }

  lemma AllMatches(seen: seq<Listed>, key: string)
    ensures ActiveOnes(Matching(seen, key), seen, key)
  {
    hide Matching;
    forall x
      ensures x in Matching(seen, key)
         <==> x in seen && x.run.key == Some(key) && x.run.state in {Starting, Running, Stopping, Waiting}
    {
      MatchingMember(seen, x, key);
      StatesAreTold(x.run.state);
    }
  }

  lemma NothingScanned(runs: History, top: nat, cutoff: int)
    requires top <= |runs|
    ensures Scanned([], top, runs, cutoff)
  {
  }

  lemma ScannedRange(seen: seq<Listed>, top: nat, runs: History, cutoff: int)
    requires Scanned(seen, top, runs, cutoff)
    ensures |seen| <= top <= |runs|
  {
  }

  lemma BoundaryIs(seen: seq<Listed>, top: nat, runs: History, cutoff: int)
    requires |seen| <= top <= |runs|
    ensures ReachedBoundary(seen, top, runs, cutoff)
       <==> |seen| == top || StartedBefore(runs[top - 1 - |seen|].startedOn, cutoff)
  {
  }

  lemma NothingRead(cutoff: int)
    ensures ScanOpen([], cutoff, None) && Flat([]) == [] && NoneOld([], cutoff)
  {
  }

  lemma SeenAll(read: seq<ListCall>, seen: seq<Listed>, cutoff: int)
    requires seen == Flat(read) && NoneOld(seen, cutoff)
    ensures seen == UpToOld(Flat(read), cutoff)
  {
    hide Flat;
    assert seen[..|seen|] == seen;
    UpToOldAt(seen, cutoff, |seen|);
  }

  /** After the first `k` runs of a page, none of them old, the page goes on exactly if these were all and there is
      another page. */
  lemma PageGoesOn(page: Page, cutoff: int, k: nat)
    requires k <= |page.runs| && NoneOld(page.runs[..k], cutoff)
    requires k < |page.runs| ==> IsOld(page.runs[k].run, cutoff)
    ensures GoesOn(page, cutoff) <==> k == |page.runs| && page.nextToken.Some?
  {
    hide IsOld;
    assert page.runs[..|page.runs|] == page.runs;
  }

  lemma NothingListed(runs: History)
    ensures Newest(runs, |runs|, |runs|) == []
  {
  }

  lemma NoMatches(key: string)
    ensures Matching([], key) == []
  {
  }

  /** The ids of a listing. */
  function Ids(listing: seq<Listed>): (ids: seq<RunId>)
    ensures |ids| == |listing|
    ensures forall i :: 0 <= i < |ids| ==> ids[i] == listing[i].id
  {
    seq(|listing|, i requires 0 <= i < |listing| => listing[i].id)
  }

  /** No run at or above `id` started before the cutoff. */
  ghost predicate NoneOldFrom(runs: History, id: RunId, cutoff: int) {
    forall j :: id <= j < |runs| ==> !StartedBefore(runs[j].startedOn, cutoff)
  }

  /** A finished scan has found every run that is live now, but for those behind an old run: what was
      live at no moment of the scan cannot be live after it. */
  lemma ScanFindsTheLive(before: History, runs: History, seen: seq<Listed>, top: nat, key: string, cutoff: int,
                         id: RunId)
    requires Evolves(before, runs, key) && |before| <= top
    requires Scanned(seen, top, runs, cutoff) && ReachedBoundary(seen, top, runs, cutoff)
    requires id < |runs| && runs[id].key == Some(key) && !runs[id].state.Ended? && NoneOldFrom(runs, id, cutoff)
    ensures id in Ids(Matching(seen, key))
  {
    assert id < top;
    assert id > top - 1 - |seen|;
    var x := seen[top - 1 - id];
    assert Later(x.run, runs[id]);
    MatchingMember(seen, x, key);
    hide Matching;
    var i :| 0 <= i < |Matching(seen, key)| && Matching(seen, key)[i] == x;
    assert Ids(Matching(seen, key))[i] == id;
  }

  /** Everything a finished scan returns is a run with the key that was live when it was looked at. */
  lemma ScanFindsOnlyTheKey(seen: seq<Listed>, top: nat, runs: History, key: string, cutoff: int, id: RunId)
    requires Scanned(seen, top, runs, cutoff) && id in Ids(Matching(seen, key))
    ensures id < |runs| && runs[id].key == Some(key)
  {
    var i :| 0 <= i < |Matching(seen, key)| && Ids(Matching(seen, key))[i] == id;
    MatchingMember(seen, Matching(seen, key)[i], key);
    var j :| 0 <= j < |seen| && seen[j] == Matching(seen, key)[i];
    assert Later(seen[j].run, runs[seen[j].id]);
  }

  // ---------------------------------------------------------------------------------------
  // The scan of a history that stands still
  // ---------------------------------------------------------------------------------------

  /** On a history that stands still, a scan that stopped after the runs from `stop` on returns what
      filtering the whole history returns, exactly if no live run with the key is left below `stop`. */
  lemma ScanIsFilter(runs: History, stop: nat, key: string)
    requires stop <= |runs|
    ensures (Matching(Newest(runs, stop, |runs|), key) == Matching(Newest(runs, 0, |runs|), key))
       <==> (forall id :: 0 <= id < stop && runs[id].key == Some(key) ==> runs[id].state.Ended?)
  {
    var above, below := Newest(runs, stop, |runs|), Newest(runs, 0, stop);
    NewestSplit(runs, 0, stop, |runs|);
    MatchingConcat(above, below, key);
    assert Matching(above, key) + Matching(below, key) == Matching(above, key) <==> Matching(below, key) == [];
    if forall id :: 0 <= id < stop && runs[id].key == Some(key) ==> runs[id].state.Ended? {
      forall j | 0 <= j < |below| ensures !IsLive(below[j].run, key) {
        NewestAt(runs, 0, stop, j);
      }
      NoMatch(below, key);
    } else {
      var id :| 0 <= id < stop && runs[id].key == Some(key) && !runs[id].state.Ended?;
      NewestAt(runs, 0, stop, stop - 1 - id);
      MatchingMember(below, below[stop - 1 - id], key);
    }
  }

  lemma {:induction false} NoMatch(listing: seq<Listed>, key: string)
    requires forall j :: 0 <= j < |listing| ==> !IsLive(listing[j].run, key)
    ensures Matching(listing, key) == []
  {
    if listing != [] {
      NoMatch(listing[..|listing| - 1], key);
    }
  }

  /** Start times never decrease from one run to the next, and every run has one. */
  ghost predicate NewestFirst(runs: History) {
    && (forall i :: 0 <= i < |runs| ==> runs[i].startedOn.Some?)
    && (forall i, j :: 0 <= i < j < |runs| ==> runs[i].startedOn.value <= runs[j].startedOn.value)
  }

  /** No run with this key is still live that started before the cutoff. */
  ghost predicate NoneLiveBefore(runs: History, key: string, cutoff: int) {
    forall i :: 0 <= i < |runs| && runs[i].key == Some(key) && StartedBefore(runs[i].startedOn, cutoff) ==>
      runs[i].state.Ended?
  }

  /** The paged early-exit scan of a newest-first history equals the plain filter of all of it, however
      it is cut into pages, if the page cap was not hit and no live run is older than the cutoff. */
  lemma PagedScanIsFilter(runs: History, seen: seq<Listed>, key: string, cutoff: int)
    requires NewestFirst(runs) && NoneLiveBefore(runs, key, cutoff)
    requires |seen| <= |runs| && seen == Newest(runs, |runs| - |seen|, |runs|)
    requires ReachedBoundary(seen, |runs|, runs, cutoff)
    ensures Matching(seen, key) == Matching(Newest(runs, 0, |runs|), key)
  {
    hide *;
    var stop := |runs| - |seen|;
    BoundaryMeans(seen, runs, cutoff);
    NoneLiveBelow(runs, stop, key, cutoff);
    ScanIsFilter(runs, stop, key);
  }

  lemma BoundaryMeans(seen: seq<Listed>, runs: History, cutoff: int)
    requires ReachedBoundary(seen, |runs|, runs, cutoff)
    ensures |seen| < |runs| ==> StartedBefore(runs[|runs| - |seen| - 1].startedOn, cutoff)
  {
  }

  lemma NoneLiveBelow(runs: History, stop: nat, key: string, cutoff: int)
    requires NewestFirst(runs) && NoneLiveBefore(runs, key, cutoff) && stop <= |runs|
    requires stop > 0 ==> StartedBefore(runs[stop - 1].startedOn, cutoff)
    ensures forall id :: 0 <= id < stop && runs[id].key == Some(key) ==> runs[id].state.Ended?
  {
    forall id | 0 <= id < stop && runs[id].key == Some(key) ensures runs[id].state.Ended? {
      assert StartedBefore(runs[id].startedOn, cutoff);
    }
  }
}
