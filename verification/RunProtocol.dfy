/**
 * One run shared by any number of discovery workers, thread-fetch workers, redelivered or stray
 * jobs and the reaper. Every transaction is one atomic action; between them anything may happen.
 */
module RunProtocol {
  import opened Options
  import opened Observations
  import opened RunRecords
  import opened RunSafety

  datatype Fetch = Fetch(externalId: string, url: string)
  datatype Job = Job(externalId: string, url: string, correlationId: string)

  /** Where one job invocation stands between its transactions. */
  datatype Worker =
    | DiscoveryClaimed(queryId: string, correlationId: string)
    | DiscoverySpawned(queryId: string, correlationId: string, row: Observation)
    | FanningOut(correlationId: string, todo: seq<Fetch>, failed: seq<string>, closing: bool)
    | PublishingDiscovery(closing: bool)
    | FetchClaimedBy(externalId: string)
    | FetchSpawned(externalId: string, row: Observation)
    | PublishingFetch
    | Done

  /** jobs holds the queued thread-fetch jobs by job id; announced holds the workers that published
      the end of Candidate processing. */
  datatype System = System(
    record: RunRecord,
    workers: map<nat, Worker>,
    jobs: map<string, Job>,
    announced: set<nat>)

  /** Duplicate: the queue knows the job id already, and takes nothing. It may for a job that waits or is
      under way, and for one whose worker was killed or has finished, until the id's keys expire. */
  datatype QueueReply = Accepted | Duplicate | Refused

  datatype Action =
    | DeliverDiscovery(w: nat, queryId: string, correlationId: string, now: int)
    | FinishAttempt(w: nat, row: Observation)
    | SettleAttempt(w: nat, now: int)
    | EnqueueNext(w: nat, reply: QueueReply)
    | EndFanOut(w: nat)
    | PublishDiscovery(w: nat)
    | DeliverFetch(w: nat, jobId: string)
    | StrayFetch(w: nat, externalId: string, url: string, correlationId: string)
    | FinishFetch(w: nat, row: Observation)
    | SettleFetch(w: nat)
    | PublishFetch(w: nat)
    | ReapRun(cutoff: int, now: int)
    | Crash(w: nat)

  /** One fetch per distinct Candidate identity, first URL wins, in first-seen order. */
  function UniqueFetches(candidates: seq<RawCandidate>): seq<Fetch> {
    if candidates == [] then []
    else
      var init, last := UniqueFetches(candidates[..|candidates| - 1]), candidates[|candidates| - 1];
      if Fetchable(last) && !HasFetch(init, last.externalSourceId.value)
      then init + [Fetch(last.externalSourceId.value, last.url.value)]
      else init
  }

  predicate HasFetch(fetches: seq<Fetch>, externalId: string) {
    exists i :: 0 <= i < |fetches| && fetches[i].externalId == externalId
  }

  predicate Fetching(worker: Worker, externalId: string) {
    || (worker.FetchClaimedBy? && worker.externalId == externalId)
    || (worker.FetchSpawned? && worker.externalId == externalId)
  }

  /** The queue ignores a job id that is waiting or in progress. */
  predicate KnownToQueue(s: System, externalId: string) {
    || ThreadQueryId(externalId) in s.jobs
    || exists w :: w in s.workers && Fetching(s.workers[w], externalId)
  }

  predicate At(s: System, w: nat) {
    w in s.workers
  }

  function With(s: System, w: nat, worker: Worker): System {
    s.(workers := s.workers[w := worker])
  }

  function ApplyClaimFetch(s: System, w: nat, e: string, url: string, correlationId: string): System {
    var (r, marker) := ClaimFetch(s.record, e, url, correlationId);
    With(s.(record := r), w,
         if marker.FetchClaimed? then FetchClaimedBy(e) else if marker.FetchAborted? then Done else PublishingFetch)
  }

  ghost function Announce(s: System, w: nat): System {
    if ProcessingComplete(s.record) then s.(announced := s.announced + {w}) else s
  }

  predicate Enabled(s: System, a: Action) {
    match a
    case DeliverDiscovery(w, _, _, _) => !At(s, w)
    case FinishAttempt(w, row) =>
      At(s, w) && s.workers[w].DiscoveryClaimed? && row.queryId == s.workers[w].queryId && row.capability.Discovery?
    case SettleAttempt(w, _) => At(s, w) && s.workers[w].DiscoverySpawned?
    case EnqueueNext(w, reply) =>
      && At(s, w) && s.workers[w].FanningOut? && s.workers[w].todo != []
      && (reply.Accepted? ==> !KnownToQueue(s, s.workers[w].todo[0].externalId))
    case EndFanOut(w) => At(s, w) && s.workers[w].FanningOut? && s.workers[w].todo == []
    case PublishDiscovery(w) => At(s, w) && s.workers[w].PublishingDiscovery?
    case DeliverFetch(w, jobId) => !At(s, w) && jobId in s.jobs
    case StrayFetch(w, e, _, _) => !At(s, w) && e != ""  // an empty id has no query id
    case FinishFetch(w, row) =>
      && At(s, w) && s.workers[w].FetchClaimedBy?
      && row.queryId == ThreadQueryId(s.workers[w].externalId) && row.capability.ThreadFetch?
      && (row.externalSourceId.Some? ==> |row.externalSourceId.value| <= MAX_EXTERNAL_ID)  // the wire contract's bound
    case SettleFetch(w) => At(s, w) && s.workers[w].FetchSpawned?
    case PublishFetch(w) => At(s, w) && s.workers[w].PublishingFetch?
    case ReapRun(_, _) => true
    case Crash(w) => At(s, w)
  }

  ghost function Apply(s: System, a: Action): System
    requires Enabled(s, a)
  {
    match a
    case DeliverDiscovery(w, q, c, now) =>
      var (r, marker) := Claim(s.record, q, c, now);
      With(s.(record := r), w, if marker.Claimed? then DiscoveryClaimed(q, c) else Done)
    case FinishAttempt(w, row) =>
      With(s, w, DiscoverySpawned(s.workers[w].queryId, s.workers[w].correlationId, row))
    case SettleAttempt(w, now) =>
      var worker := s.workers[w];
      var (r, settled) := Settle(s.record, worker.row, now);
      With(s.(record := r), w,
           if settled.SettledRecorded?
           then FanningOut(worker.correlationId, UniqueFetches(worker.row.candidates), [], settled.completed)
           else Done)
    case EnqueueNext(w, reply) =>
      var worker := s.workers[w];
      var next := worker.todo[0];
      var job := Job(next.externalId, next.url, worker.correlationId);
      var jobs := if reply.Accepted? then s.jobs[ThreadQueryId(next.externalId) := job] else s.jobs;
      var failed := if reply.Refused? then worker.failed + [next.externalId] else worker.failed;
      With(s.(jobs := jobs), w, worker.(todo := worker.todo[1..], failed := failed))
    case EndFanOut(w) =>
      With(s.(record := PersistUnenqueued(s.record, s.workers[w].failed)), w,
           PublishingDiscovery(s.workers[w].closing))
    case PublishDiscovery(w) =>
      With(if s.workers[w].closing then Announce(s, w) else s, w, Done)
    case DeliverFetch(w, jobId) =>
      var job := s.jobs[jobId];
      ApplyClaimFetch(s.(jobs := s.jobs - {jobId}), w, job.externalId, job.url, job.correlationId)
    case StrayFetch(w, e, url, c) => ApplyClaimFetch(s, w, e, url, c)
    case FinishFetch(w, row) => With(s, w, FetchSpawned(s.workers[w].externalId, row))
    case SettleFetch(w) =>
      var row := s.workers[w].row;
      if Recorded(s.record.rows, row.queryId) || FitsColumns(row)
      then With(s.(record := AppendIfAbsent(s.record, row)), w, PublishingFetch)
      else With(s, w, Done)
    case PublishFetch(w) => With(Announce(s, w), w, Done)
    case ReapRun(cutoff, now) => s.(record := Reap(s.record, cutoff, now))
    case Crash(w) => With(s, w, Done)
  }

  function InitialSystem(plan: seq<string>, correlationId: string, variant: string): System {
    System(InitialRecord(plan, correlationId, variant), map[], map[], {})
  }

  /** Every prefix of the actions leads to a state where the next one is enabled. */
  ghost predicate Schedule(s: System, actions: seq<Action>)
    decreases |actions|
  {
    actions != [] ==> Enabled(s, actions[0]) && Schedule(Apply(s, actions[0]), actions[1..])
  }

  ghost function After(s: System, actions: seq<Action>): System
    requires Schedule(s, actions)
    decreases |actions|
  {
    if actions == [] then s else After(Apply(s, actions[0]), actions[1..])
  }

  // ----- safety of the protocol -----

  predicate WorkerOk(s: System, worker: Worker) {
    match worker
    case DiscoveryClaimed(q, _) => !s.record.run.status.Queued?
    case DiscoverySpawned(q, _, row) =>
      !s.record.run.status.Queued? && row.queryId == q && row.capability.Discovery?
    case FanningOut(_, todo, failed, _) => AllStored(todo) && forall i :: 0 <= i < |failed| ==> NulFree(failed[i])
    case FetchSpawned(e, row) => row.queryId == ThreadQueryId(e) && row.capability.ThreadFetch?
    case _ => true
  }

  /** Candidates on their way to the queue come from a stored row, so every later row takes their texts. */
  predicate AllStored(fetches: seq<Fetch>) {
    forall i :: 0 <= i < |fetches| ==> NulFree(fetches[i].externalId) && NulFree(fetches[i].url)
  }

  lemma {:induction false} StoredCandidatesFit(candidates: seq<RawCandidate>)
    requires forall i :: 0 <= i < |candidates| ==> NulFreeCandidate(candidates[i])
    ensures AllStored(UniqueFetches(candidates))
  {
    if candidates != [] { StoredCandidatesFit(candidates[..|candidates| - 1]); }
  }

  predicate WorkersOk(s: System) {
    forall w :: w in s.workers ==> WorkerOk(s, s.workers[w])
  }

  ghost predicate SafeSystem(s: System) {
    Safe(s.record) && WorkersOk(s)
  }

  /** The transaction an action commits, if any. */
  function TransactionOf(s: System, a: Action): Option<Transaction>
    requires Enabled(s, a)
  {
    match a
    case DeliverDiscovery(_, q, c, now) => Some(ClaimTxn(q, c, now))
    case SettleAttempt(w, now) => Some(SettleTxn(s.workers[w].row, now))
    case EndFanOut(w) => Some(PersistTxn(s.workers[w].failed))
    case DeliverFetch(_, id) => Some(ClaimFetchTxn(s.jobs[id].externalId, s.jobs[id].url, s.jobs[id].correlationId))
    case StrayFetch(_, e, url, c) => Some(ClaimFetchTxn(e, url, c))
    case SettleFetch(w) =>
      var row := s.workers[w].row;
      if Recorded(s.record.rows, row.queryId) || FitsColumns(row)
      then Some(SettleFetchTxn(s.workers[w].externalId, row)) else None
    case ReapRun(cutoff, now) => Some(ReapTxn(cutoff, now))
    case _ => None
  }

  lemma ActionCommitsTransaction(s: System, a: Action)
    requires WorkersOk(s) && Enabled(s, a)
    ensures
      match TransactionOf(s, a)
      case None => Apply(s, a).record == s.record
      case Some(t) => Legal(s.record, t) && Apply(s, a).record == Commit(s.record, t)
  {
  }

  lemma ActionKeepsRecordSafe(s: System, a: Action)
    requires SafeSystem(s) && Enabled(s, a)
    ensures Safe(Apply(s, a).record) && Advances(s.record, Apply(s, a).record)
  {
    ActionCommitsTransaction(s, a);
    if TransactionOf(s, a).Some? {
      TransactionIsSafe(s.record, TransactionOf(s, a).value);
    }
  }

  lemma ActionIsSafe(s: System, a: Action)
    requires SafeSystem(s) && Enabled(s, a)
    ensures SafeSystem(Apply(s, a)) && Advances(s.record, Apply(s, a).record)
  {
    ActionKeepsRecordSafe(s, a);
    ActionKeepsWorkersOk(s, a);
  }

  lemma ActionKeepsWorkersOk(s: System, a: Action)
    requires SafeSystem(s) && Enabled(s, a)
    requires Rank(s.record.run.status) <= Rank(Apply(s, a).record.run.status)
    ensures WorkersOk(Apply(s, a))
  {
    hide Enabled, Apply, WorkerOk, Rank, Safe;
    if a.ReapRun? {
      ReapKeepsWorkersOk(s, a);
    } else {
      if OfDiscoveryWorker(a) { ActorStaysOk(s, a); } else { FetcherStaysOk(s, a); }
      OthersStayOk(s, Apply(s, a), a.w);
    }
  }

  predicate OfDiscoveryWorker(a: Action) {
    a.DeliverDiscovery? || a.FinishAttempt? || a.SettleAttempt? || a.EnqueueNext? || a.EndFanOut? || a.PublishDiscovery?
  }

  lemma ReapKeepsWorkersOk(s: System, a: Action)
    requires WorkersOk(s) && Enabled(s, a) && a.ReapRun?
    requires Rank(s.record.run.status) <= Rank(Apply(s, a).record.run.status)
    ensures WorkersOk(Apply(s, a))
  {
    hide Reap;
  }

  lemma FetcherStaysOk(s: System, a: Action)
    requires WorkersOk(s) && Enabled(s, a) && !a.ReapRun? && !OfDiscoveryWorker(a)
    ensures
      var t := Apply(s, a);
      a.w in t.workers && t.workers == s.workers[a.w := t.workers[a.w]] && WorkerOk(t, t.workers[a.w])
  {
    hide AppendIfAbsent, ClaimFetch, FitsColumns, KnownToQueue, ProcessingComplete;
  }

  lemma ActorStaysOk(s: System, a: Action)
    requires Safe(s.record) && WorkersOk(s) && Enabled(s, a) && OfDiscoveryWorker(a)
    requires Rank(s.record.run.status) <= Rank(Apply(s, a).record.run.status)
    ensures
      var t := Apply(s, a);
      a.w in t.workers && t.workers == s.workers[a.w := t.workers[a.w]] && WorkerOk(t, t.workers[a.w])
  {
    hide Claim, Settle, Reap, PersistUnenqueued, AppendIfAbsent, ClaimFetch, Safe, UniqueFetches, KnownToQueue, WorkersOk;
    assert a.w in s.workers ==> WorkerOk(s, s.workers[a.w]) by { WorkerIsOk(s, a.w); }
    match a
    case DeliverDiscovery(w, q, c, now) => OnlyPlannedQueriesSpawn(s.record, q, c, now);
    case SettleAttempt(w, now) => SettledRowFits(s.record, s.workers[w].row, now);
    case _ =>
  }

  lemma WorkerIsOk(s: System, w: nat)
    requires WorkersOk(s)
    ensures w in s.workers ==> WorkerOk(s, s.workers[w])
  {
  }

  lemma OthersStayOk(s: System, t: System, w: nat)
    requires WorkersOk(s) && Rank(s.record.run.status) <= Rank(t.record.run.status)
    requires w in t.workers && t.workers == s.workers[w := t.workers[w]] && WorkerOk(t, t.workers[w])
    ensures WorkersOk(t)
  {
  }

  lemma SettledRowFits(r: RunRecord, row: Observation, now: int)
    ensures Settle(r, row, now).1.SettledRecorded? ==> FitsColumns(row) && AllStored(UniqueFetches(row.candidates))
  {
    if FitsColumns(row) { StoredCandidatesFit(row.candidates); }
  }

  /** In every interleaving with crashes, redeliveries and reaps: the record stays safe, and status,
      audit log and tables only ever move forward. */
  lemma {:induction false} EveryScheduleIsSafe(s: System, actions: seq<Action>)
    requires SafeSystem(s) && Schedule(s, actions)
    ensures SafeSystem(After(s, actions)) && Advances(s.record, After(s, actions).record)
    decreases |actions|
  {
    if actions != [] {
      var t := Apply(s, actions[0]);
      ActionIsSafe(s, actions[0]);
      EveryScheduleIsSafe(t, actions[1..]);
      AdvancesTransitively(s.record, t.record, After(s, actions).record);
    }
  }

  lemma FreshRunIsSafe(plan: seq<string>, correlationId: string, variant: string, actions: seq<Action>)
    requires PlanOk(plan) && Schedule(InitialSystem(plan, correlationId, variant), actions)
    ensures SafeSystem(After(InitialSystem(plan, correlationId, variant), actions))
  {
    InitialIsSafe(plan, correlationId, variant);
    EveryScheduleIsSafe(InitialSystem(plan, correlationId, variant), actions);
  }
}
