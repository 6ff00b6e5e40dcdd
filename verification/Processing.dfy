/**
 * Candidate-to-Conversation processing across a whole run: what is expected freezes when the run
 * ends, completion never reverts, and a run that goes quiet without losing a worker is complete.
 */
module Processing {
  import opened Options
  import opened Observations
  import opened RunRecords
  import opened RunSafety
  import opened RunProtocol

  // ----- effects of appending rows -----

  lemma AppendEffects(rows: seq<Observation>, row: Observation)
    ensures forall e :: Expected(rows + [row], e) <==> Expected(rows, e) || (row.capability.Discovery? && Names(row, e))
    ensures forall e :: Fetched(rows + [row], e) <==>
      Fetched(rows, e) || (row.capability.ThreadFetch? && row.externalSourceId == Some(e))
  {
    var longer := rows + [row];
    forall e ensures Expected(longer, e) <==> Expected(rows, e) || (row.capability.Discovery? && Names(row, e)) {
      if Expected(rows, e) {
        var i :| 0 <= i < |rows| && rows[i].capability.Discovery? && Names(rows[i], e);
        assert longer[i] == rows[i];
      }
      if row.capability.Discovery? && Names(row, e) { assert longer[|rows|] == row; }
    }
    forall e ensures Fetched(longer, e) <==>
      Fetched(rows, e) || (row.capability.ThreadFetch? && row.externalSourceId == Some(e))
    {
      if Fetched(rows, e) {
        var i :| 0 <= i < |rows| && rows[i].capability.ThreadFetch? && rows[i].externalSourceId == Some(e);
        assert longer[i] == rows[i];
      }
      if row.capability.ThreadFetch? && row.externalSourceId == Some(e) { assert longer[|rows|] == row; }
    }
  }

  /** Once a run is terminal its expected Candidates are frozen, and completion never reverts. */
  lemma CompletionIsPermanent(r: RunRecord, t: RunRecord)
    requires Advances(r, t) && Terminal(r.run.status)
    ensures forall e :: Expected(t.rows, e) <==> Expected(r.rows, e)
    ensures ProcessingComplete(r) ==> ProcessingComplete(t)
  {
  }

  // ----- enqueueing and reporting share one predicate -----

  predicate OffersFetch(candidates: seq<RawCandidate>, externalId: string) {
    exists j :: 0 <= j < |candidates| && Fetchable(candidates[j]) && candidates[j].externalSourceId.value == externalId
  }

  predicate DistinctIds(fetches: seq<Fetch>) {
    forall i, j :: 0 <= i < j < |fetches| ==> fetches[i].externalId != fetches[j].externalId
  }

  /** Exactly the Candidates a row will be reported to expect are enqueued, each once. */
  lemma {:induction false} UniqueFetchesCoverNames(candidates: seq<RawCandidate>)
    ensures forall e :: HasFetch(UniqueFetches(candidates), e) <==> OffersFetch(candidates, e)
    ensures DistinctIds(UniqueFetches(candidates))
  {
    if candidates != [] {
      var init, last := candidates[..|candidates| - 1], candidates[|candidates| - 1];
      UniqueFetchesCoverNames(init);
      var before, fetches := UniqueFetches(init), UniqueFetches(candidates);
      forall e ensures HasFetch(fetches, e) <==> OffersFetch(candidates, e) {
        if OffersFetch(init, e) {
          var j :| 0 <= j < |init| && Fetchable(init[j]) && init[j].externalSourceId.value == e;
          assert candidates[j] == init[j];
        }
        if HasFetch(before, e) {
          var i :| 0 <= i < |before| && before[i].externalId == e;
          assert fetches[i] == before[i];
        }
        if Fetchable(last) && last.externalSourceId.value == e {
          assert OffersFetch(candidates, e);
          if !HasFetch(before, e) { assert fetches[|before|].externalId == e; }
        }
      }
      forall i | 0 <= i < |before| ensures HasFetch(before, before[i].externalId) {}
    }
  }

  // ----- who still owes a Candidate its fetch row -----

  predicate Holds(worker: Worker, externalId: string) {
    || Fetching(worker, externalId)
    || (worker.FanningOut? && (HasFetch(worker.todo, externalId) || externalId in worker.failed))
  }

  predicate JobWaits(s: System, externalId: string) {
    ThreadQueryId(externalId) in s.jobs && s.jobs[ThreadQueryId(externalId)].externalId == externalId
  }

  predicate HeldElsewhere(s: System, w: nat, externalId: string) {
    exists v :: v in s.workers && v != w && Holds(s.workers[v], externalId)
  }

  predicate Pending(s: System, externalId: string) {
    JobWaits(s, externalId) || exists w :: w in s.workers && Holds(s.workers[w], externalId)
  }

  /** The Candidate has its fetch row, or somebody still has to see to it and no row stands in the way:
      one recorded under its fetch id ends every later claim for it, whatever the row names. */
  predicate Owed(s: System, externalId: string) {
    || Fetched(s.record.rows, externalId)
    || (Pending(s, externalId) && !Recorded(s.record.rows, ThreadQueryId(externalId)))
  }

  // ----- how a Candidate is lost, and how it comes back -----

  /** Only this worker still had to see to it. */
  predicate LastHolder(s: System, w: nat, e: string)
    requires w in s.workers
  {
    && Holds(s.workers[w], e)
    && !Fetched(s.record.rows, e) && !JobWaits(s, e) && !HeldElsewhere(s, w, e)
  }

  /** A row is recorded under the Candidate's fetch id, and none names it. */
  predicate Blocked(rows: seq<Observation>, e: string) {
    Recorded(rows, ThreadQueryId(e)) && !Fetched(rows, e)
  }

  /**
   * What loses a Candidate: its last holder dies (a queue connection that cannot be opened kills it inside
   * fan-out), settles with a row that a column refuses, or is told that the queue knows the job already
   * when nobody has it; or a row is recorded under its fetch id that does not name it, from a document
   * that names another thread or for a discovery job with an id of the thread form.
   */
  predicate Loses(s: System, a: Action, e: string)
    requires Enabled(s, a)
  {
    match a
    case Crash(w) => LastHolder(s, w, e)
    case EnqueueNext(w, reply) =>
      && reply.Duplicate? && s.workers[w].todo[0].externalId == e && LastHolder(s, w, e)
      && !HasFetch(s.workers[w].todo[1..], e) && e !in s.workers[w].failed
    case SettleFetch(w) =>
      var row := s.workers[w].row;
      && !Recorded(s.record.rows, row.queryId)
      && if FitsColumns(row)
         then s.workers[w].externalId == e && row.externalSourceId != Some(e) && !Fetched(s.record.rows, e)
         else LastHolder(s, w, e)
    case DeliverDiscovery(_, q, c, now) =>
      q == ThreadQueryId(e) && !Fetched(s.record.rows, e) && Claim(s.record, q, c, now).0.rows != s.record.rows
    case _ => false
  }

  predicate Serves(marker: FetchMarker) {
    marker.FetchRefused? || marker.FetchClaimed?
  }

  /** What brings a Candidate back: a settled search that names it, if nothing is recorded under its fetch
      id; a job for it from outside; or a row that names it recorded under another fetch id, from a
      document fetched for another Candidate or for a longer id that is cut to it. */
  predicate Heals(s: System, a: Action, e: string)
    requires Enabled(s, a)
  {
    match a
    case SettleAttempt(w, now) =>
      && Settle(s.record, s.workers[w].row, now).1.SettledRecorded? && Names(s.workers[w].row, e)
      && !Recorded(s.record.rows, ThreadQueryId(e))
    case SettleFetch(w) =>
      var row := s.workers[w].row;
      !Recorded(s.record.rows, row.queryId) && FitsColumns(row) && row.externalSourceId == Some(e)
    case StrayFetch(_, x, url, c) => Truncated(x) == Some(e) && Serves(ClaimFetch(s.record, x, url, c).1)
    case DeliverFetch(_, id) =>
      var job := s.jobs[id];
      Truncated(job.externalId) == Some(e) && Serves(ClaimFetch(s.record, job.externalId, job.url, job.correlationId).1)
    case EndFanOut(w) => WritesFor(s.record.rows, s.workers[w].failed, e)
    case _ => false
  }

  predicate WritesFor(rows: seq<Observation>, ids: seq<string>, e: string) {
    exists i :: 0 <= i < |ids| && Truncated(ids[i]) == Some(e) && !Recorded(rows, ThreadQueryId(ids[i]))
  }

  ghost function LostStep(s: System, a: Action, lost: iset<string>): iset<string>
    requires Enabled(s, a)
  {
    iset e | (e in lost && !Heals(s, a, e)) || Loses(s, a, e)
  }

  ghost function LostAfter(s: System, actions: seq<Action>, lost: iset<string>): iset<string>
    requires Schedule(s, actions)
    decreases |actions|
  {
    if actions == [] then lost
    else LostAfter(Apply(s, actions[0]), actions[1..], LostStep(s, actions[0], lost))
  }

  // ----- the invariant -----

  ghost predicate NotThreadForm(queryId: string) {
    forall e :: ThreadQueryId(e) != queryId
  }

  ghost predicate WorkerClean(worker: Worker) {
    match worker
    case DiscoveryClaimed(q, _) => NotThreadForm(q)
    case DiscoverySpawned(q, _, _) => NotThreadForm(q)
    case FetchSpawned(_, row) => row.externalSourceId.Some? ==> |row.externalSourceId.value| <= MAX_EXTERNAL_ID
    case _ => true
  }

  predicate JobClean(id: string, job: Job) {
    id == ThreadQueryId(job.externalId) && NulFree(job.externalId) && NulFree(job.url)
  }

  predicate JobsClean(jobs: map<string, Job>) {
    forall id :: id in jobs ==> JobClean(id, jobs[id])
  }

  /** A lost Candidate is owed nothing, a blocked one is lost, and an expected one that is not lost is owed
      its row or has it. */
  ghost predicate Accounted(s: System, lost: iset<string>) {
    forall e :: 0 < |e| <= MAX_EXTERNAL_ID ==>
      && (e in lost ==> !Owed(s, e))
      && (Blocked(s.record.rows, e) ==> e in lost)
      && (Expected(s.record.rows, e) && e !in lost ==> Owed(s, e))
  }

  /** No fetch row stores an id wider than the limit: longer ones are cut. */
  predicate StoredIdsFit(rows: seq<Observation>) {
    forall i :: 0 <= i < |rows| && rows[i].capability.ThreadFetch? && rows[i].externalSourceId.Some? ==>
      |rows[i].externalSourceId.value| <= MAX_EXTERNAL_ID
  }

  ghost predicate CleanSystem(s: System) {
    && StoredIdsFit(s.record.rows)
    && JobsClean(s.jobs)
    && forall w :: w in s.workers ==> WorkerClean(s.workers[w])
  }

  // ----- what single rows do -----

  /** Recording refused fetches fetches exactly the Candidates it writes rows for. */
  lemma {:induction false} PersistFetches(r: RunRecord, ids: seq<string>)
    requires CollisionFree()
    ensures
      var t := PersistUnenqueued(r, ids);
      && (forall x :: Expected(t.rows, x) <==> Expected(r.rows, x))
      && (forall x :: Recorded(t.rows, ThreadQueryId(x)) <==> Recorded(r.rows, ThreadQueryId(x)) || x in ids)
      && (forall x :: Fetched(t.rows, x) <==> Fetched(r.rows, x) || WritesFor(r.rows, ids, x))
  {
    hide Expected, Fetched, Recorded, Truncated, AppendIfAbsent;
    if ids != [] {
      var init, last := ids[..|ids| - 1], ids[|ids| - 1];
      PersistFetches(r, init);
      AddsRefusedRow(PersistUnenqueued(r, init), last);
      assert ids == init + [last];
      forall x { WritesForLast(r.rows, init, last, x); }
    }
  }

  lemma WritesForLast(rows: seq<Observation>, init: seq<string>, last: string, x: string)
    ensures WritesFor(rows, init + [last], x) <==>
      WritesFor(rows, init, x) || (Truncated(last) == Some(x) && !Recorded(rows, ThreadQueryId(last)) && last !in init)
  {
    hide Truncated, Recorded;
    var ids := init + [last];
    if i :| 0 <= i < |init| && Truncated(init[i]) == Some(x) && !Recorded(rows, ThreadQueryId(init[i])) {
      assert ids[i] == init[i];
    }
    if Truncated(last) == Some(x) && !Recorded(rows, ThreadQueryId(last)) {
      assert ids[|init|] == last;
      if last in init {
        var i :| 0 <= i < |init| && init[i] == last;
        assert WritesFor(rows, init, x);
      }
    }
  }

  lemma AddsRefusedRow(r: RunRecord, id: string)
    requires CollisionFree()
    ensures
      var t := AppendIfAbsent(r, UnenqueuedRow(id));
      && (forall x :: Expected(t.rows, x) <==> Expected(r.rows, x))
      && (forall x :: Recorded(t.rows, ThreadQueryId(x)) <==> Recorded(r.rows, ThreadQueryId(x)) || x == id)
      && (forall x :: Fetched(t.rows, x) <==>
            Fetched(r.rows, x) || (Truncated(id) == Some(x) && !Recorded(r.rows, ThreadQueryId(id))))
  {
    RowUnderFetchId(r.rows, id, UnenqueuedRow(id));
  }

  /** What one fetch row changes. */
  lemma RowUnderFetchId(rows: seq<Observation>, id: string, row: Observation)
    requires CollisionFree() && row.queryId == ThreadQueryId(id) && row.capability.ThreadFetch?
    ensures
      var longer := rows + [row];
      && (forall x :: Expected(longer, x) <==> Expected(rows, x))
      && (forall x :: Recorded(longer, ThreadQueryId(x)) <==> Recorded(rows, ThreadQueryId(x)) || x == id)
      && (forall x :: Fetched(longer, x) <==> Fetched(rows, x) || row.externalSourceId == Some(x))
  {
    AppendEffects(rows, row);
    ExtendRows(rows, row, []);
    forall x | ThreadQueryId(x) == ThreadQueryId(id) ensures x == id {
      ThreadQueryIdInjective(x, id);
    }
  }

  /** A discovery row fetches nothing; one under a fetch id only stands in its way. */
  lemma DiscoveryRow(rows: seq<Observation>, row: Observation)
    requires row.capability.Discovery?
    ensures
      var longer := rows + [row];
      && (forall x :: Fetched(longer, x) <==> Fetched(rows, x))
      && (forall x :: Recorded(longer, ThreadQueryId(x)) <==> Recorded(rows, ThreadQueryId(x)) || ThreadQueryId(x) == row.queryId)
      && (forall x :: Expected(longer, x) <==> Expected(rows, x) || Names(row, x))
  {
    AppendEffects(rows, row);
    ExtendRows(rows, row, []);
  }

  // ----- exactly which Candidates stay owed, action by action -----

  ghost predicate OnlyMoves(s: System, t: System, w: nat) {
    forall v :: v != w ==> (v in s.workers <==> v in t.workers) && (v in s.workers ==> t.workers[v] == s.workers[v])
  }

  predicate HeldHere(s: System, w: nat, e: string) {
    w in s.workers && Holds(s.workers[w], e)
  }

  lemma SplitHolders(s: System, t: System, w: nat, e: string)
    requires OnlyMoves(s, t, w)
    ensures Pending(s, e) <==> JobWaits(s, e) || HeldElsewhere(s, w, e) || HeldHere(s, w, e)
    ensures Pending(t, e) <==> JobWaits(t, e) || HeldElsewhere(s, w, e) || HeldHere(t, w, e)
  {
    hide Holds, JobWaits;
    if v :| v in t.workers && Holds(t.workers[v], e) {
      if v != w { assert v in s.workers && Holds(s.workers[v], e); }
    }
    if v :| v in s.workers && v != w && Holds(s.workers[v], e) {
      assert v in t.workers && Holds(t.workers[v], e);
    }
  }

  /** One action: who is owed a row afterwards, exactly. */
  ghost predicate OwesExactly(s: System, a: Action)
    requires Enabled(s, a)
  {
    forall e :: 0 < |e| <= MAX_EXTERNAL_ID ==>
      (Owed(Apply(s, a), e) <==> (Owed(s, e) || Heals(s, a, e)) && !Loses(s, a, e))
  }

  lemma ClaimOwes(s: System, a: Action)
    requires Enabled(s, a) && a.DeliverDiscovery?
    ensures OwesExactly(s, a)
  {
    var t := Apply(s, a);
    ClaimRows(s.record, a.queryId, a.correlationId, a.now);
    DiscoveryRow(s.record.rows, ViolationRow(a.queryId));
    hide Claim, Fetched, JobWaits, HeldElsewhere, Recorded;
    forall e ensures Owed(t, e) <==> Owed(s, e) && !Loses(s, a, e) {
      SplitHolders(s, t, a.w, e);
    }
  }

  lemma ClaimRows(r: RunRecord, queryId: string, correlationId: string, now: int)
    ensures
      var t := Claim(r, queryId, correlationId, now).0;
      t.rows == r.rows || t.rows == r.rows + [ViolationRow(queryId)]
  {
  }

  lemma SettleOwes(s: System, a: Action)
    requires WorkersOk(s) && CleanSystem(s) && Enabled(s, a) && a.SettleAttempt?
    ensures OwesExactly(s, a)
  {
    var t, row := Apply(s, a), s.workers[a.w].row;
    assert WorkerOk(s, s.workers[a.w]) && WorkerClean(s.workers[a.w]);
    DiscoveryRow(s.record.rows, row);
    UniqueFetchesCoverNames(row.candidates);
    hide Fetched, JobWaits, HeldElsewhere, UniqueFetches, FitsColumns, Fetchable, Recorded;
    forall e ensures Owed(t, e) <==> Owed(s, e) || Heals(s, a, e) {
      SplitHolders(s, t, a.w, e);
      assert OffersFetch(row.candidates, e) <==> Names(row, e);
    }
  }

  lemma EnqueueOwes(s: System, a: Action)
    requires CollisionFree() && Enabled(s, a) && a.EnqueueNext?
    ensures OwesExactly(s, a)
  {
    var t, worker := Apply(s, a), s.workers[a.w];
    var next := worker.todo[0].externalId;
    hide Fetched, Recorded, KnownToQueue, HeldElsewhere;
    forall e ensures Owed(t, e) <==> Owed(s, e) && !Loses(s, a, e) {
      SplitHolders(s, t, a.w, e);
      if e == next {
        assert HasFetch(worker.todo, e);
      } else {
        OthersStayHeld(worker.todo, e);
        if ThreadQueryId(e) == ThreadQueryId(next) { ThreadQueryIdInjective(e, next); }
      }
    }
  }

  lemma OthersStayHeld(todo: seq<Fetch>, e: string)
    requires todo != [] && todo[0].externalId != e
    ensures HasFetch(todo, e) <==> HasFetch(todo[1..], e)
  {
    if HasFetch(todo, e) {
      var i :| 0 <= i < |todo| && todo[i].externalId == e;
      assert todo[1..][i - 1] == todo[i];
    }
  }

  lemma EndFanOutOwes(s: System, a: Action)
    requires CollisionFree() && Enabled(s, a) && a.EndFanOut?
    ensures OwesExactly(s, a)
  {
    var t, rows, failed := Apply(s, a), s.record.rows, s.workers[a.w].failed;
    PersistFetches(s.record, failed);
    hide PersistUnenqueued, JobWaits, HeldElsewhere, Fetched, Recorded, WritesFor, KnownToQueue;
    forall e | 0 < |e| <= MAX_EXTERNAL_ID ensures Owed(t, e) <==> Owed(s, e) || Heals(s, a, e) {
      SplitHolders(s, t, a.w, e);
      if e in failed && !Recorded(rows, ThreadQueryId(e)) { FailedIsWritten(rows, failed, e); }
    }
  }

  lemma FailedIsWritten(rows: seq<Observation>, failed: seq<string>, e: string)
    requires e in failed && 0 < |e| <= MAX_EXTERNAL_ID && !Recorded(rows, ThreadQueryId(e))
    ensures WritesFor(rows, failed, e)
  {
    var i :| 0 <= i < |failed| && failed[i] == e;
    assert Truncated(failed[i]) == Some(e);
  }

  /** A delivered or stray fetch: either it leaves a row, or a worker that holds the Candidate. */
  lemma ClaimFetchOwes(s: System, w: nat, x: string, url: string, c: string)
    requires CollisionFree() && !At(s, w) && x != ""
    ensures
      var t, marker := ApplyClaimFetch(s, w, x, url, c), ClaimFetch(s.record, x, url, c).1;
      forall e :: 0 < |e| <= MAX_EXTERNAL_ID ==>
        (Owed(t, e) <==> Owed(s, e) || (Truncated(x) == Some(e) && Serves(marker)))
  {
    var t, row := ApplyClaimFetch(s, w, x, url, c), RefusedFetchRow(x);
    RowUnderFetchId(s.record.rows, x, row);
    hide Fetched, JobWaits, HeldElsewhere, Recorded, RefusalFits;
    forall e | 0 < |e| <= MAX_EXTERNAL_ID
      ensures Owed(t, e) <==> Owed(s, e) || (Truncated(x) == Some(e) && Serves(ClaimFetch(s.record, x, url, c).1))
    {
      SplitHolders(s, t, w, e);
    }
  }

  lemma StrayFetchOwes(s: System, a: Action)
    requires CollisionFree() && Enabled(s, a) && a.StrayFetch?
    ensures OwesExactly(s, a)
  {
    ClaimFetchOwes(s, a.w, a.externalId, a.url, a.correlationId);
  }

  lemma DeliverFetchOwes(s: System, a: Action)
    requires CollisionFree() && CleanSystem(s) && Enabled(s, a) && a.DeliverFetch? && s.jobs[a.jobId].externalId != ""
    ensures OwesExactly(s, a)
  {
    var job, s' := s.jobs[a.jobId], s.(jobs := s.jobs - {a.jobId});
    assert JobClean(a.jobId, job);
    TakesJob(s, a.jobId);
    ClaimOrRecorded(s.record, job);
    hide JobsClean, StoredIdsFit, WorkerClean, ClaimFetch, NulFree, ApplyClaimFetch, Pending, Recorded, Fetched;
    ClaimFetchOwes(s', a.w, job.externalId, job.url, job.correlationId);
  }

  /** Taking a job from the queue leaves what is owed of every other Candidate. */
  lemma TakesJob(s: System, id: string)
    requires CollisionFree() && id in s.jobs && JobClean(id, s.jobs[id])
    ensures forall e :: e != s.jobs[id].externalId ==> (Owed(s.(jobs := s.jobs - {id}), e) <==> Owed(s, e))
  {
    hide Fetched, Holds, Recorded;
    var x := s.jobs[id].externalId;
    forall e | e != x ensures JobWaits(s.(jobs := s.jobs - {id}), e) <==> JobWaits(s, e) {
      if ThreadQueryId(e) == id { ThreadQueryIdInjective(e, x); }
    }
  }

  /** A clean job is served unless a row is recorded under its id. */
  lemma ClaimOrRecorded(r: RunRecord, job: Job)
    requires NulFree(job.externalId) && NulFree(job.url)
    ensures
      var marker := ClaimFetch(r, job.externalId, job.url, job.correlationId).1;
      Serves(marker) <==> !Recorded(r.rows, ThreadQueryId(job.externalId))
  {
  }

  lemma SettleFetchOwes(s: System, a: Action)
    requires CollisionFree() && WorkersOk(s) && Enabled(s, a) && a.SettleFetch?
    ensures OwesExactly(s, a)
  {
    var t, x, row := Apply(s, a), s.workers[a.w].externalId, s.workers[a.w].row;
    assert WorkerOk(s, s.workers[a.w]);
    RowUnderFetchId(s.record.rows, x, row);
    hide Fetched, JobWaits, HeldElsewhere, Recorded, FitsColumns;
    forall e ensures Owed(t, e) <==> (Owed(s, e) || Heals(s, a, e)) && !Loses(s, a, e) {
      SplitHolders(s, t, a.w, e);
    }
  }

  /** Moves that touch neither rows nor jobs: a worker keeps what it holds, or dies with it. */
  lemma WorkerMoveOwes(s: System, a: Action)
    requires Enabled(s, a)
    requires a.FinishAttempt? || a.PublishDiscovery? || a.FinishFetch? || a.PublishFetch? || a.Crash?
    ensures OwesExactly(s, a) && Apply(s, a).record == s.record
  {
    var t := Apply(s, a);
    hide Fetched, JobWaits, HeldElsewhere, ProcessingComplete, KnownToQueue, Recorded, FitsColumns, HasFetch;
    forall e ensures Owed(t, e) <==> Owed(s, e) && !Loses(s, a, e) {
      SplitHolders(s, t, a.w, e);
    }
  }

  /** No id on its way to a fetch is empty: Fetchable Candidates have one, and so must stray jobs. */
  predicate Named(s: System) {
    && (forall id :: id in s.jobs ==> s.jobs[id].externalId != "")
    && (forall w :: w in s.workers && s.workers[w].FetchClaimedBy? ==> s.workers[w].externalId != "")
    && (forall w :: w in s.workers && s.workers[w].FetchSpawned? ==> s.workers[w].externalId != "")
    && (forall w, i :: w in s.workers && s.workers[w].FanningOut? && 0 <= i < |s.workers[w].todo| ==>
          s.workers[w].todo[i].externalId != "")
  }

  lemma {:induction false} FetchesAreNamed(candidates: seq<RawCandidate>)
    ensures forall i :: 0 <= i < |UniqueFetches(candidates)| ==> UniqueFetches(candidates)[i].externalId != ""
  {
    if candidates != [] { FetchesAreNamed(candidates[..|candidates| - 1]); }
  }

  lemma ActionKeepsNamed(s: System, a: Action)
    requires Named(s) && Enabled(s, a)
    ensures Named(Apply(s, a))
  {
    hide Claim, Settle, ClaimFetch, PersistUnenqueued, Reap, UniqueFetches, KnownToQueue, AppendIfAbsent, ProcessingComplete;
    if a.SettleAttempt? { FetchesAreNamed(s.workers[a.w].row.candidates); }
  }

  /** Every action changes who is owed a fetch row exactly by what it heals and loses. */
  lemma ActionOwesExactly(s: System, a: Action)
    requires CollisionFree() && WorkersOk(s) && CleanSystem(s) && Named(s) && Enabled(s, a)
    ensures OwesExactly(s, a)
  {
    hide OwesExactly, Apply;
    match a
    case DeliverDiscovery(_, _, _, _) => ClaimOwes(s, a);
    case SettleAttempt(_, _) => SettleOwes(s, a);
    case EnqueueNext(_, _) => EnqueueOwes(s, a);
    case EndFanOut(_) => EndFanOutOwes(s, a);
    case DeliverFetch(_, _) => DeliverFetchOwes(s, a);
    case StrayFetch(_, _, _, _) => StrayFetchOwes(s, a);
    case SettleFetch(_) => SettleFetchOwes(s, a);
    case ReapRun(_, _) => ReapOwes(s, a);
    case _ => WorkerMoveOwes(s, a);
  }

  lemma ReapOwes(s: System, a: Action)
    requires Enabled(s, a) && a.ReapRun?
    ensures OwesExactly(s, a)
  {
    assert Apply(s, a).record.rows == s.record.rows;
  }

  // ----- the invariant, action by action -----

  lemma ActionKeepsWorkersClean(s: System, a: Action)
    requires Safe(s.record) && CleanSystem(s) && Enabled(s, a)
    ensures forall w :: w in Apply(s, a).workers ==> WorkerClean(Apply(s, a).workers[w])
  {
    hide Reap, PersistUnenqueued, AppendIfAbsent, StoredIdsFit, JobsClean, Settle, Claim, HasCandidate, Recorded, Safe, KnownToQueue;
    if a.DeliverDiscovery? {
      OnlyPlannedQueriesSpawn(s.record, a.queryId, a.correlationId, a.now);
      PlannedIsNotThreadForm(s.record, a.queryId);
    }
  }

  lemma PlannedIsNotThreadForm(r: RunRecord, queryId: string)
    requires Safe(r)
    ensures queryId in r.run.plan ==> NotThreadForm(queryId)
  {
  }

  lemma ActionKeepsJobsClean(s: System, a: Action)
    requires WorkersOk(s) && JobsClean(s.jobs) && Enabled(s, a)
    ensures JobsClean(Apply(s, a).jobs)
  {
    hide Reap, PersistUnenqueued, AppendIfAbsent, ClaimFetch, Claim, Settle, KnownToQueue, NulFree, ProcessingComplete;
    if a.EnqueueNext? { assert WorkerOk(s, s.workers[a.w]); }
  }

  lemma {:induction false} PersistKeepsWidth(r: RunRecord, ids: seq<string>)
    requires StoredIdsFit(r.rows)
    ensures StoredIdsFit(PersistUnenqueued(r, ids).rows)
  {
    if ids != [] { PersistKeepsWidth(r, ids[..|ids| - 1]); }
  }

  lemma CommitKeepsWidth(r: RunRecord, t: Transaction)
    requires StoredIdsFit(r.rows) && Legal(r, t)
    requires t.SettleFetchTxn? && t.row.externalSourceId.Some? ==> |t.row.externalSourceId.value| <= MAX_EXTERNAL_ID
    ensures StoredIdsFit(Commit(r, t).rows)
  {
    hide FitsColumns, HasCandidate;
    if t.PersistTxn? { PersistKeepsWidth(r, t.failedIds); }
  }

  lemma ActionKeepsWidth(s: System, a: Action)
    requires WorkersOk(s) && CleanSystem(s) && Enabled(s, a)
    ensures StoredIdsFit(Apply(s, a).record.rows)
  {
    hide JobsClean, Legal, Commit, StoredIdsFit, Apply;
    ActionCommitsTransaction(s, a);
    if a.SettleFetch? { assert WorkerClean(s.workers[a.w]); }
    if TransactionOf(s, a).Some? { CommitKeepsWidth(s.record, TransactionOf(s, a).value); }
  }

  ghost predicate Tracked(s: System, lost: iset<string>) {
    SafeSystem(s) && CleanSystem(s) && Named(s) && Accounted(s, lost)
  }

  /** A Candidate becomes expected only by the settle that names it. */
  lemma ExpectedBecause(s: System, a: Action, e: string)
    requires CollisionFree() && WorkersOk(s) && Enabled(s, a)
    requires Expected(Apply(s, a).record.rows, e) && !Expected(s.record.rows, e)
    ensures Heals(s, a, e) || Recorded(s.record.rows, ThreadQueryId(e))
  {
    hide FitsColumns, KnownToQueue, RefusesFetch, Recorded, ProcessingComplete;
    var rows := s.record.rows;
    match a
    case DeliverDiscovery(_, q, c, now) =>
      ClaimRows(s.record, q, c, now);
      AppendEffects(rows, ViolationRow(q));
    case SettleAttempt(w, _) => AppendEffects(rows, s.workers[w].row);
    case EndFanOut(w) => PersistFetches(s.record, s.workers[w].failed);
    case DeliverFetch(_, id) => AppendEffects(rows, RefusedFetchRow(s.jobs[id].externalId));
    case StrayFetch(_, x, _, _) => AppendEffects(rows, RefusedFetchRow(x));
    case SettleFetch(w) =>
      assert WorkerOk(s, s.workers[w]);
      AppendEffects(rows, s.workers[w].row);
    case _ =>
  }

  /** A row comes to stand in a Candidate's way only by losing it. */
  lemma BlockedBecause(s: System, a: Action, e: string)
    requires CollisionFree() && WorkersOk(s) && CleanSystem(s) && Enabled(s, a) && 0 < |e| <= MAX_EXTERNAL_ID
    requires Blocked(Apply(s, a).record.rows, e) && !Blocked(s.record.rows, e)
    ensures Loses(s, a, e)
  {
    hide FitsColumns, KnownToQueue, RefusesFetch, Recorded, Fetched, ProcessingComplete, JobsClean, StoredIdsFit, WritesFor;
    var rows := s.record.rows;
    match a
    case DeliverDiscovery(_, q, c, now) =>
      ClaimRows(s.record, q, c, now);
      DiscoveryRow(rows, ViolationRow(q));
    case SettleAttempt(w, _) =>
      assert WorkerOk(s, s.workers[w]) && WorkerClean(s.workers[w]);
      DiscoveryRow(rows, s.workers[w].row);
    case EndFanOut(w) =>
      PersistFetches(s.record, s.workers[w].failed);
      FailedIsWritten(rows, s.workers[w].failed, e);
    case DeliverFetch(_, id) => RowUnderFetchId(rows, s.jobs[id].externalId, RefusedFetchRow(s.jobs[id].externalId));
    case StrayFetch(_, x, _, _) => RowUnderFetchId(rows, x, RefusedFetchRow(x));
    case SettleFetch(w) =>
      assert WorkerOk(s, s.workers[w]);
      RowUnderFetchId(rows, s.workers[w].externalId, s.workers[w].row);
    case _ =>
  }

  lemma ActionStaysAccounted(s: System, a: Action, lost: iset<string>)
    requires CollisionFree() && WorkersOk(s) && CleanSystem(s) && Accounted(s, lost) && Enabled(s, a) && OwesExactly(s, a)
    ensures Accounted(Apply(s, a), LostStep(s, a, lost))
  {
    hide CleanSystem, WorkersOk, Apply, Enabled, Expected, Loses, Heals, Pending, Recorded, Fetched;
    var t := Apply(s, a);
    forall e | 0 < |e| <= MAX_EXTERNAL_ID
      ensures e in LostStep(s, a, lost) ==> !Owed(t, e)
      ensures Blocked(t.record.rows, e) ==> e in LostStep(s, a, lost)
      ensures Expected(t.record.rows, e) && e !in LostStep(s, a, lost) ==> Owed(t, e)
    {
      if Blocked(t.record.rows, e) && !Blocked(s.record.rows, e) { BlockedBecause(s, a, e); }
      if Expected(t.record.rows, e) && !Expected(s.record.rows, e) { ExpectedBecause(s, a, e); }
    }
  }

  lemma ActionStaysTracked(s: System, a: Action, lost: iset<string>)
    requires CollisionFree() && Tracked(s, lost) && Enabled(s, a)
    ensures Tracked(Apply(s, a), LostStep(s, a, lost))
  {
    hide Safe, WorkersOk, Named, JobsClean, Apply, Enabled, StoredIdsFit, WorkerClean, LostStep, Accounted, OwesExactly;
    ActionIsSafe(s, a);
    ActionKeepsWorkersClean(s, a);
    ActionKeepsJobsClean(s, a);
    ActionKeepsWidth(s, a);
    ActionKeepsNamed(s, a);
    ActionOwesExactly(s, a);
    ActionStaysAccounted(s, a, lost);
  }

  /** Through every schedule, whatever dies, refuses, repeats or misnames: an expected Candidate whose id
      fits is owed its row, or has it, exactly when it is not lost. */
  lemma {:induction false} EveryScheduleIsTracked(s: System, actions: seq<Action>, lost: iset<string>)
    requires CollisionFree() && Tracked(s, lost) && Schedule(s, actions)
    ensures Tracked(After(s, actions), LostAfter(s, actions, lost))
    decreases |actions|
  {
    hide Tracked, Apply, Enabled, LostStep;
    if actions != [] {
      ActionStaysTracked(s, actions[0], lost);
      EveryScheduleIsTracked(Apply(s, actions[0]), actions[1..], LostStep(s, actions[0], lost));
    }
  }

  /** No fan-out or fetch is under way and no fetch job waits. */
  predicate Quiet(s: System) {
    && s.jobs == map[]
    && forall w :: w in s.workers ==>
         !s.workers[w].FanningOut? && !s.workers[w].FetchClaimedBy? && !s.workers[w].FetchSpawned?
  }

  lemma QuietMeansFetched(s: System, lost: iset<string>)
    requires Tracked(s, lost) && Quiet(s)
    ensures forall e :: Expected(s.record.rows, e) ==>
      (Fetched(s.record.rows, e) <==> |e| <= MAX_EXTERNAL_ID && e !in lost)
  {
    hide SafeSystem, Named, JobsClean, Expected;
    forall e | Expected(s.record.rows, e)
      ensures Fetched(s.record.rows, e) <==> |e| <= MAX_EXTERNAL_ID && e !in lost
    {
      assert !Pending(s, e);
      ExpectedIsNamed(s.record.rows, e);
    }
  }

  lemma ExpectedIsNamed(rows: seq<Observation>, e: string)
    requires Expected(rows, e)
    ensures e != ""
  {
  }

  /**
   * From a fresh run, through any schedule at all: whenever fan-outs and fetches have gone quiet, an
   * expected Candidate has its fetch row exactly when its id fits the stored width and it is not lost, so
   * processing of a terminal run is complete exactly when every expected Candidate is such.
   */
  lemma QuietRunsAreComplete(plan: seq<string>, correlationId: string, variant: string, actions: seq<Action>)
    requires CollisionFree() && PlanOk(plan)
    requires Schedule(InitialSystem(plan, correlationId, variant), actions)
    requires Quiet(After(InitialSystem(plan, correlationId, variant), actions))
    ensures
      var r := After(InitialSystem(plan, correlationId, variant), actions).record;
      var lost := LostAfter(InitialSystem(plan, correlationId, variant), actions, iset{});
      && (forall e :: Expected(r.rows, e) ==> (Fetched(r.rows, e) <==> |e| <= MAX_EXTERNAL_ID && e !in lost))
      && (ProcessingComplete(r) <==>
            Terminal(r.run.status) && forall e :: Expected(r.rows, e) ==> |e| <= MAX_EXTERNAL_ID && e !in lost)
  {
    hide Tracked, Expected, Fetched, Schedule, Quiet;
    InitialIsTracked(plan, correlationId, variant);
    EveryScheduleIsTracked(InitialSystem(plan, correlationId, variant), actions, iset{});
    QuietMeansFetched(After(InitialSystem(plan, correlationId, variant), actions),
                      LostAfter(InitialSystem(plan, correlationId, variant), actions, iset{}));
  }

  lemma InitialIsTracked(plan: seq<string>, correlationId: string, variant: string)
    requires PlanOk(plan)
    ensures Tracked(InitialSystem(plan, correlationId, variant), iset{})
  {
    InitialIsSafe(plan, correlationId, variant);
  }

  /** Over every schedule, disturbed or not: once the run is terminal the expected Candidates are
      frozen, and once processing is complete it stays complete. */
  lemma CompletionSurvivesEverySchedule(s: System, actions: seq<Action>)
    requires SafeSystem(s) && Schedule(s, actions) && Terminal(s.record.run.status)
    ensures forall e :: Expected(After(s, actions).record.rows, e) <==> Expected(s.record.rows, e)
    ensures ProcessingComplete(s.record) ==> ProcessingComplete(After(s, actions).record)
  {
    EveryScheduleIsSafe(s, actions);
    CompletionIsPermanent(s.record, After(s, actions).record);
  }
}
