/** Thread-fetch jobs from fan-out to delivery: which claims spawn, and that a job which fan-out queued for
    its own run is never refused. */
module FetchJobs {
  import opened Options
  import opened Observations
  import opened RunRecords
  import opened RunSafety
  import opened RunProtocol
  import opened Processing

  /** Some discovery row of the run lists exactly this id with exactly this URL. */
  predicate Durable(rows: seq<Observation>, externalId: string, url: string) {
    exists i, j :: 0 <= i < |rows| && 0 <= j < |rows[i].candidates|
      && rows[i].capability == Discovery && rows[i].candidates[j] == Candidate(Some(externalId), Some(url))
  }

  /** What a thread-fetch claim decides: it answers with the recorded row, spawns exactly for a durable
      Candidate under the run's own correlation id, and otherwise records a refusal that names what it can
      of the id, unless U+0000 aborts it. Nothing else changes. */
  lemma ClaimFetchDecides(r: RunRecord, externalId: string, url: string, correlationId: string)
    ensures
      var (t, marker) := ClaimFetch(r, externalId, url, correlationId);
      var recorded := exists i :: 0 <= i < |r.rows| && r.rows[i].queryId == "thread_" + DigestHex(externalId);
      var granted := correlationId == r.run.correlationId && |correlationId| <= 128 && |externalId| <= 512
        && Durable(r.rows, externalId, url);
      var unstorable := (exists i :: 0 <= i < |externalId| && i < 512 && externalId[i] == '\0')
        || (exists i :: 0 <= i < |url| && i < 2048 && url[i] == '\0');
      && (marker == FetchRecorded <==> recorded)
      && (marker == FetchClaimed <==> !recorded && granted)
      && (marker == FetchAborted <==> !recorded && !granted && unstorable)
      && (marker != FetchRefused ==> t == r)
      && (marker == FetchRefused ==>
            t.run == r.run && t.audit == r.audit && AddsFailure(r.rows, t.rows, externalId, ContractViolation))
  {
    DurableIsHeld(r.rows, externalId, url);
    hide HasCandidate, Durable;
    CutKeepsFront(externalId, MAX_EXTERNAL_ID);
    CutKeepsFront(url, MAX_URL);
    hide Cut;
  }

  lemma CutKeepsFront(text: string, width: nat)
    ensures Cut(text, width) <= text && |Cut(text, width)| == if |text| < width then |text| else width
    ensures NulFree(Cut(text, width)) <==> !exists i :: 0 <= i < |text| && i < width && text[i] == '\0'
  {
    if i :| 0 <= i < |text| && i < width && text[i] == '\0' {
      assert Cut(text, width)[i] == '\0';
    }
  }

  /** A failed fetch without evidence, under the fetch id of this Candidate, that stores the first 512
      characters of the id it was asked for. */
  predicate FailureRow(row: Observation, externalId: string, reason: FailureClass) {
    && row.queryId == "thread_" + DigestHex(externalId) && row.capability == ThreadFetch
    && row.status == Failed && row.failureClass == Some(reason)
    && row.evidenceState == NoEvidence && row.bundleId == None && row.evidenceDirectory == None
    && row.candidates == [] && row.candidateCount == 0 && row.elapsedMs == None && row.requests == None && row.textOk
    && if externalId == "" then row.externalSourceId == None
       else row.externalSourceId.Some? && row.externalSourceId.value <= externalId
            && |row.externalSourceId.value| == if |externalId| < 512 then |externalId| else 512
  }

  /** One more row, and it is such a failure. */
  predicate AddsFailure(rows: seq<Observation>, after: seq<Observation>, externalId: string, reason: FailureClass) {
    |after| == |rows| + 1 && after[..|rows|] == rows && FailureRow(after[|rows|], externalId, reason)
  }

  lemma DurableIsHeld(rows: seq<Observation>, externalId: string, url: string)
    ensures HasCandidate(rows, externalId, url) <==> Durable(rows, externalId, url)
  {
    if HasCandidate(rows, externalId, url) {
      var i :| 0 <= i < |rows| && rows[i].capability.Discovery? && Candidate(Some(externalId), Some(url)) in rows[i].candidates;
      var j :| 0 <= j < |rows[i].candidates| && rows[i].candidates[j] == Candidate(Some(externalId), Some(url));
    }
  }

  // ----- refused enqueues -----

  /** The first refused Candidate with its fetch id, if no row is recorded under that. */
  ghost predicate FirstUnrecorded(rows: seq<Observation>, ids: seq<string>, j: nat) {
    && j < |ids|
    && (forall i :: 0 <= i < |rows| ==> rows[i].queryId != ThreadQueryId(ids[j]))
    && forall k :: 0 <= k < j ==> ThreadQueryId(ids[k]) != ThreadQueryId(ids[j])
  }

  predicate IsFetchIdOf(ids: seq<string>, queryId: string) {
    exists k :: 0 <= k < |ids| && ThreadQueryId(ids[k]) == queryId
  }

  lemma FirstsAppend(rows: seq<Observation>, init: seq<string>, last: string)
    ensures forall j :: 0 <= j < |init| ==> (FirstUnrecorded(rows, init + [last], j) <==> FirstUnrecorded(rows, init, j))
    ensures FirstUnrecorded(rows, init + [last], |init|) <==>
      !(Recorded(rows, ThreadQueryId(last)) || IsFetchIdOf(init, ThreadQueryId(last)))
    ensures forall j: nat :: FirstUnrecorded(rows, init + [last], j) ==> j <= |init|
    ensures forall j: nat :: FirstUnrecorded(rows, init, j) ==> j < |init|
  {
    var n, ids := |init|, init + [last];
    assert ids[n] == last && forall k :: 0 <= k < n ==> ids[k] == init[k];
  }

  lemma FirstsStep(rows: seq<Observation>, init: seq<string>, last: string, at: seq<nat>) returns (more: seq<nat>)
    requires Increasing(at) && forall j :: j in at <==> FirstUnrecorded(rows, init, j)
    ensures Increasing(more) && forall j :: j in more <==> FirstUnrecorded(rows, init + [last], j)
    ensures more == if Recorded(rows, ThreadQueryId(last)) || IsFetchIdOf(init, ThreadQueryId(last)) then at else at + [|init|]
  {
    FirstsAppend(rows, init, last);
    hide FirstUnrecorded, Recorded, IsFetchIdOf;
    assert forall i :: 0 <= i < |at| ==> at[i] in at;
    more := if FirstUnrecorded(rows, init + [last], |init|) then at + [|init|] else at;
  }

  /** Recording refused fetches appends one transport-error row for each fetch id that has none, in order. */
  lemma {:induction false} PersistDecides(r: RunRecord, ids: seq<string>) returns (at: seq<nat>, added: seq<Observation>)
    ensures
      var t := PersistUnenqueued(r, ids);
      && t == r.(rows := r.rows + added) && |added| == |at|
      && (forall i :: 0 <= i < |at| ==> at[i] < |ids| && FailureRow(added[i], ids[at[i]], TransportError))
      && (forall q :: Recorded(t.rows, q) <==> Recorded(r.rows, q) || IsFetchIdOf(ids, q))
    ensures Increasing(at) && forall j :: j in at <==> FirstUnrecorded(r.rows, ids, j)
  {
    if ids == [] {
      at, added := [], [];
      assert r.rows + [] == r.rows;
    } else {
      var init, last := ids[..|ids| - 1], ids[|ids| - 1];
      PersistUnfolds(r, ids);
      hide *;
      assert ids == init + [last];
      var before, rows := PersistDecides(r, init);
      PersistStep(PersistUnenqueued(r, init), last);
      FetchIdsAppend(init, last);
      at := FirstsStep(r.rows, init, last, before);
      added := PersistAppends(r, init, last, before, at, rows);
    }
  }

  lemma PersistAppends(r: RunRecord, init: seq<string>, last: string, before: seq<nat>, at: seq<nat>, rows: seq<Observation>)
    returns (added: seq<Observation>)
    requires |rows| == |before|
    requires forall i :: 0 <= i < |before| ==>
      before[i] < |init| && FailureRow(rows[i], init[before[i]], TransportError)
    requires FailureRow(UnenqueuedRow(last), last, TransportError)
    requires
      var known := Recorded(r.rows, ThreadQueryId(last)) || IsFetchIdOf(init, ThreadQueryId(last));
      at == if known then before else before + [|init|]
    ensures
      var known := Recorded(r.rows, ThreadQueryId(last)) || IsFetchIdOf(init, ThreadQueryId(last));
      && added == (if known then rows else rows + [UnenqueuedRow(last)])
      && r.rows + added == if known then r.rows + rows else r.rows + rows + [UnenqueuedRow(last)]
    ensures |added| == |at|
    ensures forall i :: 0 <= i < |at| ==>
      at[i] < |init + [last]| && FailureRow(added[i], (init + [last])[at[i]], TransportError)
  {
    hide *;
    var known := Recorded(r.rows, ThreadQueryId(last)) || IsFetchIdOf(init, ThreadQueryId(last));
    added := if known then rows else rows + [UnenqueuedRow(last)];
    assert r.rows + (rows + [UnenqueuedRow(last)]) == r.rows + rows + [UnenqueuedRow(last)];
  }

  lemma PersistUnfolds(r: RunRecord, ids: seq<string>)
    requires ids != []
    ensures PersistUnenqueued(r, ids) ==
      AppendIfAbsent(PersistUnenqueued(r, ids[..|ids| - 1]), UnenqueuedRow(ids[|ids| - 1]))
  {
  }

  lemma FetchIdsAppend(init: seq<string>, last: string)
    ensures forall q :: IsFetchIdOf(init + [last], q) <==> IsFetchIdOf(init, q) || q == ThreadQueryId(last)
  {
    var ids := init + [last];
    assert ids[|init|] == last && forall k :: 0 <= k < |init| ==> ids[k] == init[k];
  }

  lemma PersistStep(r: RunRecord, id: string)
    ensures
      var t := AppendIfAbsent(r, UnenqueuedRow(id));
      && t == (if Recorded(r.rows, ThreadQueryId(id)) then r else r.(rows := r.rows + [UnenqueuedRow(id)]))
      && FailureRow(UnenqueuedRow(id), id, TransportError)
      && forall q :: Recorded(t.rows, q) <==> Recorded(r.rows, q) || q == ThreadQueryId(id)
  {
    CutKeepsFront(id, MAX_EXTERNAL_ID);
    ExtendRows(r.rows, UnenqueuedRow(id), []);
    hide Recorded, Cut;
  }

  // ----- what fan-out enqueues -----

  /** The first Fetchable element with its id. */
  ghost predicate FirstOfItsId(candidates: seq<RawCandidate>, j: nat) {
    && j < |candidates| && Fetchable(candidates[j])
    && forall k :: 0 <= k < j && Fetchable(candidates[k]) ==> candidates[k].externalSourceId != candidates[j].externalSourceId
  }

  /** Fan-out attempts the first Fetchable element of each id, with the URL that element has, in order. */
  lemma {:induction false} UniqueFetchesMeaning(candidates: seq<RawCandidate>) returns (at: seq<nat>)
    ensures Increasing(at) && |at| == |UniqueFetches(candidates)|
    ensures forall j :: j in at <==> FirstOfItsId(candidates, j)
    ensures forall i :: 0 <= i < |at| ==>
      && at[i] < |candidates|
      && candidates[at[i]] == Candidate(Some(UniqueFetches(candidates)[i].externalId), Some(UniqueFetches(candidates)[i].url))
  {
    at := [];
    if candidates != [] {
      var n := |candidates| - 1;
      var init, last := candidates[..n], candidates[n];
      FetchesUnfold(init, last);
      FirstsOfPrefix(init, last);
      LastIsFirst(init, last);
      assert candidates == init + [last];
      hide FirstOfItsId, UniqueFetches, HasFetch;
      at := UniqueFetchesMeaning(init);
      if FirstOfItsId(candidates, n) {
        at := at + [n];
      }
    }
  }

  lemma FetchesUnfold(init: seq<RawCandidate>, last: RawCandidate)
    ensures UniqueFetches(init + [last]) ==
      if Fetchable(last) && !HasFetch(UniqueFetches(init), last.externalSourceId.value)
      then UniqueFetches(init) + [Fetch(last.externalSourceId.value, last.url.value)]
      else UniqueFetches(init)
  {
    assert (init + [last])[..|init|] == init;
  }

  lemma FirstsOfPrefix(init: seq<RawCandidate>, last: RawCandidate)
    ensures forall j :: 0 <= j < |init| ==> (FirstOfItsId(init + [last], j) <==> FirstOfItsId(init, j))
    ensures forall j: nat :: FirstOfItsId(init + [last], j) ==> j <= |init|
    ensures forall j: nat :: FirstOfItsId(init, j) ==> j < |init|
  {
    var longer := init + [last];
    assert forall k :: 0 <= k < |init| ==> longer[k] == init[k];
  }

  lemma LastIsFirst(init: seq<RawCandidate>, last: RawCandidate)
    ensures FirstOfItsId(init + [last], |init|) <==> Fetchable(last) && !HasFetch(UniqueFetches(init), last.externalSourceId.value)
  {
    UniqueFetchesCoverNames(init);
    var longer := init + [last];
    assert longer[|init|] == last;
    assert forall k :: 0 <= k < |init| ==> longer[k] == init[k];
  }

  // ----- from fan-out to delivery -----

  predicate AllDurable(rows: seq<Observation>, fetches: seq<Fetch>) {
    forall i :: 0 <= i < |fetches| ==> Durable(rows, fetches[i].externalId, fetches[i].url)
  }

  predicate WorkerSourced(rows: seq<Observation>, worker: Worker) {
    match worker
    case DiscoveryClaimed(_, c) => |c| <= MAX_CORRELATION
    case DiscoverySpawned(_, c, _) => |c| <= MAX_CORRELATION
    case FanningOut(c, todo, _, _) => |c| <= MAX_CORRELATION && AllDurable(rows, todo)
    case _ => true
  }

  predicate JobSourced(rows: seq<Observation>, job: Job) {
    |job.correlationId| <= MAX_CORRELATION && Durable(rows, job.externalId, job.url)
  }

  /** Whatever is on its way to a fetch is a durable Candidate of the run. */
  predicate Sourced(s: System) {
    && (forall w :: w in s.workers ==> WorkerSourced(s.record.rows, s.workers[w]))
    && (forall id :: id in s.jobs ==> JobSourced(s.record.rows, s.jobs[id]))
  }

  lemma DurableStays(rows: seq<Observation>, more: seq<Observation>)
    requires rows <= more
    ensures forall e, url :: Durable(rows, e, url) ==> Durable(more, e, url)
  {
    forall e, url | Durable(rows, e, url) ensures Durable(more, e, url) {
      var i, j :| 0 <= i < |rows| && 0 <= j < |rows[i].candidates|
        && rows[i].capability == Discovery && rows[i].candidates[j] == Candidate(Some(e), Some(url));
      assert more[i] == rows[i];
    }
  }

  lemma RecordedFetchesAreDurable(rows: seq<Observation>, row: Observation)
    requires row.capability == Discovery
    ensures AllDurable(rows + [row], UniqueFetches(row.candidates))
  {
    var fetches, longer := UniqueFetches(row.candidates), rows + [row];
    var at := UniqueFetchesMeaning(row.candidates);
    assert longer[|rows|] == row;
    forall i | 0 <= i < |fetches| ensures Durable(longer, fetches[i].externalId, fetches[i].url) {
      assert at[i] in at;
      assert longer[|rows|].candidates[at[i]] == Candidate(Some(fetches[i].externalId), Some(fetches[i].url));
    }
  }

  lemma SettleAppends(r: RunRecord, row: Observation, now: int)
    ensures Settle(r, row, now).1.SettledRecorded? ==> Settle(r, row, now).0.rows == r.rows + [row]
  {
  }

  lemma ActionKeepsSourced(s: System, a: Action)
    requires SafeSystem(s) && Sourced(s) && Enabled(s, a)
    ensures Sourced(Apply(s, a))
  {
    hide Claim, Settle, ClaimFetch, PersistUnenqueued, Reap, UniqueFetches, KnownToQueue, AppendIfAbsent, ProcessingComplete;
    hide Durable, Safe, WorkerOk, FitsColumns;
    ActionKeepsRecordSafe(s, a);
    DurableStays(s.record.rows, Apply(s, a).record.rows);
    match a
    case DeliverDiscovery(w, q, c, now) => OnlyPlannedQueriesSpawn(s.record, q, c, now);
    case SettleAttempt(w, now) =>
      assert s.workers[w].row.capability.Discovery? by { WorkerIsOk(s, w); }
      SettleAppends(s.record, s.workers[w].row, now);
      RecordedFetchesAreDurable(s.record.rows, s.workers[w].row);
    case _ =>
  }

  /** A stray fetch goes on to fetch, or to publish, exactly as its claim is answered; one whose claim aborts
      ends there, and changes nothing else. */
  lemma StrayFetchMoves(s: System, w: nat, externalId: string, url: string, correlationId: string)
    requires Enabled(s, StrayFetch(w, externalId, url, correlationId))
    ensures
      var t, marker := Apply(s, StrayFetch(w, externalId, url, correlationId)), ClaimFetch(s.record, externalId, url, correlationId).1;
      && t.jobs == s.jobs && t.announced == s.announced
      && t.workers == s.workers[w := t.workers[w]]
      && (t.workers[w] == FetchClaimedBy(externalId) <==> marker == FetchClaimed)
      && (t.workers[w] == PublishingFetch <==> marker == FetchRecorded || marker == FetchRefused)
      && (t.workers[w] == Done <==> marker == FetchAborted)
      && (t.workers[w] == Done ==> t.record == s.record)
  {
    hide RefusesFetch, RefusalFits, Recorded;
  }

  /** What the system keeps about jobs, and what their claims need of it. */
  ghost predicate JobsKept(s: System) {
    SafeSystem(s) && Sourced(s) && JobsClean(s.jobs)
  }

  lemma {:induction false} EveryScheduleKeepsJobs(s: System, actions: seq<Action>)
    requires JobsKept(s) && Schedule(s, actions)
    ensures JobsKept(After(s, actions))
    decreases |actions|
  {
    hide Safe, WorkersOk, Sourced, JobsClean, Apply, Enabled;
    if actions != [] {
      ActionIsSafe(s, actions[0]);
      ActionKeepsSourced(s, actions[0]);
      ActionKeepsJobsClean(s, actions[0]);
      EveryScheduleKeepsJobs(Apply(s, actions[0]), actions[1..]);
    }
  }

  /**
   * From a fresh run, over every schedule, whatever else was delivered, refused, reaped or died: the
   * delivery of a waiting job finds the row recorded already, or spawns the fetch if fan-out queued it under
   * the run's own correlation id with an id that fits, and is refused only otherwise.
   */
  lemma DeliveredJobsAreFetched(
      plan: seq<string>, correlationId: string, variant: string, actions: seq<Action>, w: nat, jobId: string)
    requires PlanOk(plan) && Schedule(InitialSystem(plan, correlationId, variant), actions)
    requires
      var s := After(InitialSystem(plan, correlationId, variant), actions);
      w !in s.workers && jobId in s.jobs
    ensures
      var s := After(InitialSystem(plan, correlationId, variant), actions);
      var t, job := Apply(s, DeliverFetch(w, jobId)), s.jobs[jobId];
      && jobId == ThreadQueryId(job.externalId) && t.jobs == s.jobs - {jobId}
      && if Recorded(s.record.rows, jobId) then t.record == s.record && t.workers[w] == PublishingFetch
         else if job.correlationId == correlationId && |job.externalId| <= 512
         then t.record == s.record && t.workers[w] == FetchClaimedBy(job.externalId)
         else AddsFailure(s.record.rows, t.record.rows, job.externalId, ContractViolation) && t.workers[w] == PublishingFetch
  {
    var s0 := InitialSystem(plan, correlationId, variant);
    InitialIsSafe(plan, correlationId, variant);
    EveryScheduleKeepsJobs(s0, actions);
    EveryScheduleIsSafe(s0, actions);
    hide Schedule, After, Safe, WorkersOk, AddsFailure, Durable, ClaimFetch;
    DeliveryDecides(After(s0, actions), w, jobId);
  }

  lemma DeliveryDecides(s: System, w: nat, jobId: string)
    requires Sourced(s) && JobsClean(s.jobs) && w !in s.workers && jobId in s.jobs
    ensures
      var t, job := Apply(s, DeliverFetch(w, jobId)), s.jobs[jobId];
      && jobId == ThreadQueryId(job.externalId) && t.jobs == s.jobs - {jobId}
      && if Recorded(s.record.rows, jobId) then t.record == s.record && t.workers[w] == PublishingFetch
         else if job.correlationId == s.record.run.correlationId && |job.externalId| <= 512
         then t.record == s.record && t.workers[w] == FetchClaimedBy(job.externalId)
         else AddsFailure(s.record.rows, t.record.rows, job.externalId, ContractViolation) && t.workers[w] == PublishingFetch
  {
    var job := s.jobs[jobId];
    assert JobClean(jobId, job) && JobSourced(s.record.rows, job);
    ClaimFetchDecides(s.record, job.externalId, job.url, job.correlationId);
    hide ClaimFetch, Durable, AddsFailure, Sourced, JobsClean;
  }

  // ----- a run whose discovery jobs are its own -----

  predicate WorkerBears(worker: Worker, correlationId: string) {
    match worker
    case DiscoveryClaimed(_, c) => c == correlationId
    case DiscoverySpawned(_, c, _) => c == correlationId
    case FanningOut(c, _, _, _) => c == correlationId
    case _ => true
  }

  predicate AllBear(s: System, correlationId: string) {
    && (forall w :: w in s.workers ==> WorkerBears(s.workers[w], correlationId))
    && (forall id :: id in s.jobs ==> s.jobs[id].correlationId == correlationId)
  }

  /** Every discovery job delivered bears this correlation id, as those enqueued for the run do. */
  predicate OnlyOwnJobs(actions: seq<Action>, correlationId: string) {
    forall i :: 0 <= i < |actions| && actions[i].DeliverDiscovery? ==> actions[i].correlationId == correlationId
  }

  lemma {:induction false} JobsBearTheirRun(s: System, actions: seq<Action>, correlationId: string)
    requires AllBear(s, correlationId) && Schedule(s, actions) && OnlyOwnJobs(actions, correlationId)
    ensures AllBear(After(s, actions), correlationId)
    decreases |actions|
  {
    hide AllBear, Apply, Enabled;
    if actions != [] {
      ActionKeepsBearing(s, actions[0], correlationId);
      JobsBearTheirRun(Apply(s, actions[0]), actions[1..], correlationId);
    }
  }

  lemma ActionKeepsBearing(s: System, a: Action, correlationId: string)
    requires AllBear(s, correlationId) && Enabled(s, a)
    requires a.DeliverDiscovery? ==> a.correlationId == correlationId
    ensures AllBear(Apply(s, a), correlationId)
  {
    hide Claim, Settle, ClaimFetch, PersistUnenqueued, Reap, UniqueFetches, KnownToQueue, AppendIfAbsent, ProcessingComplete, FitsColumns;
  }

  /** So, from a fresh run whose discovery jobs are its own, over every schedule with whatever stray fetches,
      reaps and deaths: no delivered fetch job whose id fits is ever refused. Unless its row is there
      already, its worker goes on to fetch it. */
  lemma OwnJobsAreNeverRefused(
      plan: seq<string>, correlationId: string, variant: string, actions: seq<Action>, w: nat, jobId: string)
    requires PlanOk(plan) && Schedule(InitialSystem(plan, correlationId, variant), actions)
    requires OnlyOwnJobs(actions, correlationId)
    requires
      var s := After(InitialSystem(plan, correlationId, variant), actions);
      w !in s.workers && jobId in s.jobs && |s.jobs[jobId].externalId| <= 512
    ensures
      var s := After(InitialSystem(plan, correlationId, variant), actions);
      var t := Apply(s, DeliverFetch(w, jobId));
      && t.record == s.record
      && t.workers[w] ==
         if exists i :: 0 <= i < |s.record.rows| && s.record.rows[i].queryId == jobId then PublishingFetch
         else FetchClaimedBy(s.jobs[jobId].externalId)
  {
    DeliveredJobsAreFetched(plan, correlationId, variant, actions, w, jobId);
    JobsBearTheirRun(InitialSystem(plan, correlationId, variant), actions, correlationId);
    hide Schedule, After, Apply, AddsFailure, OnlyOwnJobs;
  }
}
