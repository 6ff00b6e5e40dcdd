/** A run left alone can complete: some schedule closes it, fetches every Candidate it names and refuses none. */
module RunLiveness {
  import opened Options
  import opened Observations
  import opened RunRecords
  import opened RunSafety
  import opened RunProtocol
  import opened Processing
  import opened FetchJobs
  import opened RunCompletion

  /** Nobody is at work. */
  predicate Idle(s: System) {
    forall w :: w in s.workers ==> s.workers[w].Done?
  }

  predicate IdleBut(s: System, w: nat) {
    forall v :: v in s.workers && v != w ==> s.workers[v].Done?
  }

  /** Nothing has been lost, and whatever waits for a fetch is the run's own. */
  ghost predicate OnCourse(s: System, correlationId: string) {
    && Tracked(s, iset{}) && Sourced(s) && AllBear(s, correlationId)
    && s.record.run.correlationId == correlationId
  }

  lemma StaysOnCourse(s: System, a: Action, correlationId: string)
    requires CollisionFree() && OnCourse(s, correlationId) && Enabled(s, a)
    requires a.DeliverDiscovery? ==> a.correlationId == correlationId
    requires forall e :: !Loses(s, a, e)
    ensures OnCourse(Apply(s, a), correlationId)
  {
    hide Apply, Enabled, Loses, Heals, CleanSystem, Named, Accounted, Sourced, AllBear, Safe, WorkersOk;
    ActionStaysTracked(s, a, iset{});
    assert LostStep(s, a, iset{}) == iset{};
    ActionKeepsSourced(s, a);
    ActionKeepsBearing(s, a, correlationId);
    ActionKeepsRecordSafe(s, a);
  }

  lemma Then(s: System, a: Action, rest: seq<Action>)
    requires Enabled(s, a) && Schedule(Apply(s, a), rest)
    ensures Schedule(s, [a] + rest) && After(s, [a] + rest) == After(Apply(s, a), rest)
  {
    hide Apply, Enabled;
    assert ([a] + rest)[1..] == rest;
  }

  // ----- one fan-out -----

  /** The queue answers as it must: it takes what it does not know. */
  function Reply(s: System, e: string): QueueReply {
    if KnownToQueue(s, e) then Duplicate else Accepted
  }

  lemma EnqueueLosesNothing(s: System, w: nat)
    requires CollisionFree() && JobsClean(s.jobs) && IdleBut(s, w)
    requires At(s, w) && s.workers[w].FanningOut? && s.workers[w].todo != []
    ensures
      var a := EnqueueNext(w, Reply(s, s.workers[w].todo[0].externalId));
      Enabled(s, a) && forall e :: !Loses(s, a, e)
  {
    var e := s.workers[w].todo[0].externalId;
    if KnownToQueue(s, e) {
      var id := ThreadQueryId(e);
      assert id in s.jobs && JobClean(id, s.jobs[id]);
      ThreadQueryIdInjective(s.jobs[id].externalId, e);
      assert JobWaits(s, e);
    }
  }

  lemma {:induction false} DrainFanOut(s: System, w: nat, correlationId: string) returns (actions: seq<Action>)
    requires CollisionFree() && OnCourse(s, correlationId) && IdleBut(s, w)
    requires At(s, w) && s.workers[w].FanningOut? && s.workers[w].failed == []
    ensures Schedule(s, actions)
    ensures
      var t := After(s, actions);
      OnCourse(t, correlationId) && Idle(t) && t.record == s.record
    decreases |s.workers[w].todo|
  {
    hide OnCourse, Loses, CollisionFree;
    if s.workers[w].todo == [] {
      actions := EndsFanOut(s, w, correlationId);
    } else {
      var a := EnqueueNext(w, Reply(s, s.workers[w].todo[0].externalId));
      CourseKeepsJobs(s, correlationId);
      EnqueueLosesNothing(s, w);
      StaysOnCourse(s, a, correlationId);
      EnqueueMovesOn(s, w);
      hide Enabled, Apply, Schedule, After, Reply;
      var rest := DrainFanOut(Apply(s, a), w, correlationId);
      Then(s, a, rest);
      actions := [a] + rest;
    }
  }

  lemma CourseKeepsJobs(s: System, correlationId: string)
    requires OnCourse(s, correlationId)
    ensures JobsClean(s.jobs) && SafeSystem(s) && Safe(s.record)
  {
  }

  lemma EnqueueMovesOn(s: System, w: nat)
    requires At(s, w) && s.workers[w].FanningOut? && s.workers[w].failed == [] && s.workers[w].todo != [] && IdleBut(s, w)
    ensures
      var a := EnqueueNext(w, Reply(s, s.workers[w].todo[0].externalId));
      Enabled(s, a) &&
      var t := Apply(s, a);
      && At(t, w) && t.workers[w].FanningOut? && t.workers[w].failed == [] && IdleBut(t, w)
      && t.workers[w].todo == s.workers[w].todo[1..] && t.record == s.record
  {
    hide KnownToQueue;
  }

  lemma EndsFanOut(s: System, w: nat, correlationId: string) returns (actions: seq<Action>)
    requires CollisionFree() && OnCourse(s, correlationId) && IdleBut(s, w)
    requires At(s, w) && s.workers[w].FanningOut? && s.workers[w].failed == [] && s.workers[w].todo == []
    ensures Schedule(s, actions)
    ensures
      var t := After(s, actions);
      OnCourse(t, correlationId) && Idle(t) && t.record == s.record
  {
    hide OnCourse, ProcessingComplete, CollisionFree;
    var s1 := Apply(s, EndFanOut(w));
    StaysOnCourse(s, EndFanOut(w), correlationId);
    StaysOnCourse(s1, PublishDiscovery(w), correlationId);
    Then(s1, PublishDiscovery(w), []);
    Then(s, EndFanOut(w), [PublishDiscovery(w)]);
    actions := [EndFanOut(w)] + [PublishDiscovery(w)];
    assert [PublishDiscovery(w)] + [] == [PublishDiscovery(w)];
  }

  // ----- one query -----

  lemma AttemptStaysOnCourse(s: System, w: nat, queryId: string, correlationId: string, row: Observation)
    requires CollisionFree() && OnCourse(s, correlationId) && !Terminal(s.record.run.status) && w !in s.workers
    requires queryId in s.record.run.plan && !Recorded(s.record.rows, queryId)
    requires FitsCorrelation(correlationId) && Answers(row, queryId)
    requires Schedule(s, Attempt(w, queryId, correlationId, row, 0))
    ensures OnCourse(After(s, Attempt(w, queryId, correlationId, row, 0)), correlationId)
  {
    hide OnCourse, CollisionFree, FitsColumns, FitsCorrelation, Settle;
    var trace := Attempt(w, queryId, correlationId, row, 0);
    CourseKeepsJobs(s, correlationId);
    ClaimSpawns(s.record, queryId, correlationId, 0);
    hide Claim;
    var s1 := Apply(s, trace[0]);
    StaysOnCourse(s, trace[0], correlationId);
    var s2 := Apply(s1, trace[1]);
    StaysOnCourse(s1, trace[1], correlationId);
    StaysOnCourse(s2, trace[2], correlationId);
    FollowsThree(s, trace);
  }

  /** Where the attempt leaves its worker and the run. */
  lemma AttemptLeaves(s: System, w: nat, queryId: string, correlationId: string, row: Observation)
    requires SafeSystem(s) && Idle(s) && !Terminal(s.record.run.status) && w !in s.workers
    requires queryId in s.record.run.plan && !Recorded(s.record.rows, queryId)
    requires FitsCorrelation(correlationId) && Answers(row, queryId)
    ensures Schedule(s, Attempt(w, queryId, correlationId, row, 0))
    ensures
      var t := After(s, Attempt(w, queryId, correlationId, row, 0));
      && At(t, w) && t.workers[w].FanningOut? && t.workers[w].failed == [] && IdleBut(t, w)
      && t.record.rows == s.record.rows + [row] && t.record.run.plan == s.record.run.plan
      && (Terminal(t.record.run.status) <==> LastMissing(s.record, queryId))
  {
    hide FitsColumns, FitsCorrelation, LastMissing, Safe, WorkersOk, UniqueFetches;
    AttemptRecords(s, w, queryId, correlationId, row, 0);
    EveryScheduleIsSafe(s, Attempt(w, queryId, correlationId, row, 0));
    hide Attempt, Schedule, After;
  }

  /** A planned query without a row, taken from delivery to the end of its fan-out. */
  lemma QueryIsDone(s: System, queryId: string, correlationId: string, row: Observation) returns (actions: seq<Action>)
    requires CollisionFree() && OnCourse(s, correlationId) && Idle(s) && !Terminal(s.record.run.status)
    requires queryId in s.record.run.plan && !Recorded(s.record.rows, queryId)
    requires FitsCorrelation(correlationId) && Answers(row, queryId)
    ensures Schedule(s, actions)
    ensures
      var t := After(s, actions);
      && OnCourse(t, correlationId) && Idle(t) && t.record.rows == s.record.rows + [row]
      && t.record.run.plan == s.record.run.plan
      && (Terminal(t.record.run.status) <==> LastMissing(s.record, queryId))
  {
    var w := FreeWorker(s.workers.Keys);
    var first := Attempt(w, queryId, correlationId, row, 0);
    CourseKeepsJobs(s, correlationId);
    hide OnCourse, CollisionFree, FitsCorrelation, LastMissing, SafeSystem, Idle, IdleBut, Answers, Recorded, Attempt, Schedule, After;
    AttemptLeaves(s, w, queryId, correlationId, row);
    AttemptStaysOnCourse(s, w, queryId, correlationId, row);
    var rest := DrainFanOut(After(s, first), w, correlationId);
    Follows(s, first, rest);
    actions := first + rest;
  }

  // ----- all queries -----

  ghost predicate AllAnswer(answer: string -> Observation, plan: seq<string>) {
    forall q :: q in plan ==> Answers(answer(q), q)
  }

  /** Every row is the answer to its query. */
  predicate AllFrom(rows: seq<Observation>, answer: string -> Observation) {
    forall i :: 0 <= i < |rows| ==> rows[i] == answer(rows[i].queryId)
  }

  lemma {:induction false} QueriesAreDone(s: System, k: nat, correlationId: string, answer: string -> Observation)
    returns (actions: seq<Action>)
    requires CollisionFree() && OnCourse(s, correlationId) && Idle(s) && !Terminal(s.record.run.status)
    requires FitsCorrelation(correlationId) && AllAnswer(answer, s.record.run.plan) && AllFrom(s.record.rows, answer)
    requires k <= |s.record.run.plan| && forall j :: 0 <= j < k ==> Recorded(s.record.rows, s.record.run.plan[j])
    ensures Schedule(s, actions)
    ensures
      var t := After(s, actions);
      OnCourse(t, correlationId) && Idle(t) && Terminal(t.record.run.status) && AllFrom(t.record.rows, answer)
    decreases |s.record.run.plan| - k
  {
    hide *;
    CourseKeepsJobs(s, correlationId);
    OpenRunMissesOne(s.record, k);
    var q := s.record.run.plan[k];
    assert Answers(answer(q), q) by { PlannedAnswer(answer, s.record.run.plan, k); }
    if Recorded(s.record.rows, q) {
      actions := QueriesAreDone(s, k + 1, correlationId, answer);
    } else {
      var first := QueryIsDone(s, q, correlationId, answer(q));
      var t := After(s, first);
      AnswerIsRecorded(s.record.rows, q, answer);
      if Terminal(t.record.run.status) {
        actions := first;
      } else {
        var rest := QueriesAreDone(t, k + 1, correlationId, answer);
        Follows(s, first, rest);
        actions := first + rest;
      }
    }
  }

  lemma PlannedAnswer(answer: string -> Observation, plan: seq<string>, k: nat)
    requires AllAnswer(answer, plan) && k < |plan|
    ensures Answers(answer(plan[k]), plan[k])
  {
  }

  lemma AnswerIsRecorded(rows: seq<Observation>, q: string, answer: string -> Observation)
    requires AllFrom(rows, answer) && Answers(answer(q), q)
    ensures AllFrom(rows + [answer(q)], answer)
    ensures forall p :: Recorded(rows + [answer(q)], p) <==> Recorded(rows, p) || p == q
  {
    ExtendRows(rows, answer(q), []);
  }

  // ----- all fetches -----

  /** A row that a fetch of this Candidate can end with and its columns take. */
  predicate Fetches(row: Observation, externalId: string) {
    && row.queryId == ThreadQueryId(externalId) && row.capability.ThreadFetch? && FitsColumns(row)
    && row.externalSourceId == Some(externalId)
  }

  lemma FetchLosesNothing(s: System, w: nat)
    requires At(s, w) && s.workers[w].FetchSpawned? && Fetches(s.workers[w].row, s.workers[w].externalId)
    ensures Enabled(s, SettleFetch(w)) && forall e :: !Loses(s, SettleFetch(w), e)
  {
  }

  lemma FetchEnds(s: System, w: nat, correlationId: string) returns (actions: seq<Action>)
    requires CollisionFree() && OnCourse(s, correlationId) && IdleBut(s, w) && At(s, w) && s.workers[w].PublishingFetch?
    ensures Schedule(s, actions)
    ensures
      var t := After(s, actions);
      OnCourse(t, correlationId) && Idle(t) && t.record == s.record && t.jobs == s.jobs
  {
    hide OnCourse, ProcessingComplete, CollisionFree;
    StaysOnCourse(s, PublishFetch(w), correlationId);
    Then(s, PublishFetch(w), []);
    actions := [PublishFetch(w)] + [];
  }

  lemma FetchIsDone(s: System, w: nat, correlationId: string, row: Observation) returns (actions: seq<Action>)
    requires CollisionFree() && OnCourse(s, correlationId) && IdleBut(s, w) && At(s, w) && s.workers[w].FetchClaimedBy?
    requires |s.workers[w].externalId| <= MAX_EXTERNAL_ID && Fetches(row, s.workers[w].externalId)
    requires !Recorded(s.record.rows, row.queryId)
    ensures Schedule(s, actions)
    ensures
      var t := After(s, actions);
      && OnCourse(t, correlationId) && Idle(t) && t.record == Append(s.record, row) && t.jobs == s.jobs
  {
    hide OnCourse, CollisionFree, FitsColumns, Recorded, ProcessingComplete;
    var a1, a2 := FinishFetch(w, row), SettleFetch(w);
    var s1 := Apply(s, a1);
    StaysOnCourse(s, a1, correlationId);
    FetchLosesNothing(s1, w);
    StaysOnCourse(s1, a2, correlationId);
    var s2 := Apply(s1, a2);
    var rest := FetchEnds(s2, w, correlationId);
    hide Schedule, After;
    Then(s1, a2, rest);
    Then(s, a1, [a2] + rest);
    actions := [a1] + ([a2] + rest);
  }

  /** No Candidate that a discovery row lists has an id wider than its column. */
  predicate IdsFit(rows: seq<Observation>) {
    forall i, j :: 0 <= i < |rows| && rows[i].capability == Discovery && 0 <= j < |rows[i].candidates| ==>
      rows[i].candidates[j].Candidate? && rows[i].candidates[j].externalSourceId.Some? ==>
        |rows[i].candidates[j].externalSourceId.value| <= MAX_EXTERNAL_ID
  }

  /** A waiting job is a durable Candidate of the run, under the run's own correlation id. */
  lemma WaitingJob(s: System, id: string, correlationId: string)
    requires OnCourse(s, correlationId) && IdsFit(s.record.rows) && id in s.jobs
    ensures
      var job := s.jobs[id];
      && JobClean(id, job) && |job.externalId| <= MAX_EXTERNAL_ID && Durable(s.record.rows, job.externalId, job.url)
      && job.correlationId == s.record.run.correlationId && |job.correlationId| <= MAX_CORRELATION
  {
    hide Tracked, Accounted, CleanSystem;
    var job := s.jobs[id];
    CourseKeepsJobs(s, correlationId);
    assert JobClean(id, job) && JobSourced(s.record.rows, job);
    var i, j :| 0 <= i < |s.record.rows| && 0 <= j < |s.record.rows[i].candidates|
      && s.record.rows[i].capability == Discovery
      && s.record.rows[i].candidates[j] == Candidate(Some(job.externalId), Some(job.url));
  }

  lemma DeliverDecides(s: System, w: nat, id: string)
    requires Idle(s) && w !in s.workers && id in s.jobs && JobClean(id, s.jobs[id])
    requires
      var job := s.jobs[id];
      && |job.externalId| <= MAX_EXTERNAL_ID && Durable(s.record.rows, job.externalId, job.url)
      && job.correlationId == s.record.run.correlationId && |job.correlationId| <= MAX_CORRELATION
    ensures Enabled(s, DeliverFetch(w, id)) && forall e :: !Loses(s, DeliverFetch(w, id), e)
    ensures
      var t, e := Apply(s, DeliverFetch(w, id)), s.jobs[id].externalId;
      && t.record == s.record && t.jobs == s.jobs - {id} && At(t, w) && IdleBut(t, w)
      && t.workers[w] == if Recorded(s.record.rows, id) then PublishingFetch else FetchClaimedBy(e)
  {
    var job := s.jobs[id];
    ClaimFetchDecides(s.record, job.externalId, job.url, job.correlationId);
    hide ClaimFetch, Durable, AddsFailure, NulFree;
  }

  ghost predicate IsFetched(row: Observation, fetched: string -> Observation) {
    exists e :: row == fetched(e) && Fetches(row, e)
  }

  /** Each of these rows is the fetch of some Candidate. */
  ghost predicate AllFetched(rows: seq<Observation>, fetched: string -> Observation) {
    forall i :: 0 <= i < |rows| ==> IsFetched(rows[i], fetched)
  }

  ghost predicate AllFetch(fetched: string -> Observation) {
    forall e :: |e| <= MAX_EXTERNAL_ID && NulFree(e) ==> Fetches(fetched(e), e)
  }

  /** The first waiting job, taken to its end. */
  lemma JobIsDone(s: System, id: string, correlationId: string, fetched: string -> Observation) returns (actions: seq<Action>)
    requires CollisionFree() && OnCourse(s, correlationId) && IdsFit(s.record.rows) && Idle(s) && id in s.jobs
    requires AllFetch(fetched)
    ensures Schedule(s, actions)
    ensures
      var t := After(s, actions);
      && OnCourse(t, correlationId) && Idle(t) && t.jobs == s.jobs - {id} && t.record.run == s.record.run
      && (t.record.rows == s.record.rows
          || (exists e :: t.record.rows == s.record.rows + [fetched(e)] && Fetches(fetched(e), e)))
  {
    var w, e := |s.workers|, s.jobs[id].externalId;
    w := FreeWorker(s.workers.Keys);
    var a := DeliverFetch(w, id);
    CourseKeepsJobs(s, correlationId);
    assert id == ThreadQueryId(e) && NulFree(e) by { assert JobClean(id, s.jobs[id]); }
    assert |e| <= MAX_EXTERNAL_ID ==> Fetches(fetched(e), e);
    hide *;
    WaitingJob(s, id, correlationId);
    DeliverDecides(s, w, id);
    StaysOnCourse(s, a, correlationId);
    var t := Apply(s, a);
    var rest: seq<Action>;
    if Recorded(s.record.rows, id) {
      rest := FetchEnds(t, w, correlationId);
    } else {
      FetchesUnder(fetched(e), e);
      rest := FetchIsDone(t, w, correlationId, fetched(e));
      Appended(t.record, fetched(e));
    }
    Then(s, a, rest);
    actions := [a] + rest;
  }

  lemma FetchesUnder(row: Observation, e: string)
    requires Fetches(row, e)
    ensures row.queryId == ThreadQueryId(e)
  {
  }

  lemma Appended(r: RunRecord, row: Observation)
    ensures Append(r, row).rows == r.rows + [row] && Append(r, row).run == r.run
  {
  }

  lemma {:induction false} JobsAreDone(s: System, correlationId: string, fetched: string -> Observation) returns (actions: seq<Action>)
    requires CollisionFree() && OnCourse(s, correlationId) && IdsFit(s.record.rows) && Idle(s) && AllFetch(fetched)
    ensures Schedule(s, actions)
    ensures
      var t := After(s, actions);
      && OnCourse(t, correlationId) && Idle(t) && t.jobs == map[] && t.record.run == s.record.run
      && s.record.rows <= t.record.rows && AllFetched(t.record.rows[|s.record.rows|..], fetched)
    decreases |s.jobs|
  {
    hide OnCourse, CollisionFree, AllFetch, Idle, Schedule, After;
    if s.jobs == map[] {
      actions := [];
      assert Schedule(s, []) && After(s, []) == s by { NoActions(s); }
    } else {
      var id :| id in s.jobs;
      var first := JobIsDone(s, id, correlationId, fetched);
      var t := After(s, first);
      StillFit(s.record.rows, t.record.rows, fetched);
      hide IdsFit;
      assert |t.jobs| < |s.jobs| by { assert s.jobs.Keys == t.jobs.Keys + {id}; assert |s.jobs.Keys| == |s.jobs| && |t.jobs.Keys| == |t.jobs|; }
      var rest := JobsAreDone(t, correlationId, fetched);
      Follows(s, first, rest);
      actions := first + rest;
      MoreFetched(s.record.rows, t.record.rows, After(s, actions).record.rows, fetched);
    }
  }

  lemma NoActions(s: System)
    ensures Schedule(s, []) && After(s, []) == s
  {
  }

  lemma StillFit(rows: seq<Observation>, more: seq<Observation>, fetched: string -> Observation)
    requires IdsFit(rows)
    requires more == rows || exists e :: more == rows + [fetched(e)] && Fetches(fetched(e), e)
    ensures IdsFit(more) && rows <= more && AllFetched(more[|rows|..], fetched)
  {
    hide FitsColumns;
    if more != rows {
      var e :| more == rows + [fetched(e)] && Fetches(fetched(e), e);
      assert more[|rows|..] == [fetched(e)];
    }
  }

  lemma MoreFetched(a: seq<Observation>, b: seq<Observation>, c: seq<Observation>, fetched: string -> Observation)
    requires a <= b <= c && AllFetched(b[|a|..], fetched) && AllFetched(c[|b|..], fetched)
    ensures a <= c && AllFetched(c[|a|..], fetched)
  {
    hide IsFetched;
    var x, y, z := b[|a|..], c[|b|..], c[|a|..];
    forall i | 0 <= i < |z| ensures IsFetched(z[i], fetched) {
      if i < |x| { assert z[i] == x[i]; } else { assert z[i] == y[i - |x|]; }
    }
  }

  // ----- the run -----

  lemma FreshRunIsOnCourse(plan: seq<string>, correlationId: string, variant: string, answer: string -> Observation)
    requires PlanOk(plan)
    ensures
      var s := InitialSystem(plan, correlationId, variant);
      && OnCourse(s, correlationId) && Idle(s) && !Terminal(s.record.run.status)
      && s.record.run.plan == plan && AllFrom(s.record.rows, answer)
  {
    InitialIsTracked(plan, correlationId, variant);
  }

  lemma AnswersFit(rows: seq<Observation>, answer: string -> Observation)
    requires AllFrom(rows, answer) && forall q :: IdsFit([answer(q)])
    ensures IdsFit(rows)
  {
    forall i | 0 <= i < |rows| ensures IdsFit([rows[i]]) {
      assert rows[i] == answer(rows[i].queryId);
    }
    assert forall i :: 0 <= i < |rows| ==> [rows[i]][0] == rows[i];
  }

  lemma QuietRunIsComplete(s: System, correlationId: string)
    requires OnCourse(s, correlationId) && Idle(s) && s.jobs == map[] && Terminal(s.record.run.status) && IdsFit(s.record.rows)
    ensures ProcessingComplete(s.record)
  {
    QuietMeansFetched(s, iset{});
    hide OnCourse, IsHttpUrl;
  }

  /**
   * Whatever rows its searches and fetches end with, as long as columns take them and Candidate ids fit: a run
   * that is left alone can be brought to complete processing. It closes with each query's row, every Candidate
   * that a row names is fetched, and no fetch is refused.
   */
  lemma EveryRunCanComplete(plan: seq<string>, correlationId: string, variant: string,
                            answer: string -> Observation, fetched: string -> Observation)
    returns (actions: seq<Action>, n: nat)
    requires CollisionFree() && PlanOk(plan) && FitsCorrelation(correlationId)
    requires AllAnswer(answer, plan) && (forall q :: IdsFit([answer(q)])) && AllFetch(fetched)
    ensures Schedule(InitialSystem(plan, correlationId, variant), actions)
    ensures
      var r := After(InitialSystem(plan, correlationId, variant), actions).record;
      && ProcessingComplete(r)
      && n <= |r.rows| && AllFrom(r.rows[..n], answer) && AllFetched(r.rows[n..], fetched)
  {
    var s := InitialSystem(plan, correlationId, variant);
    hide *;
    FreshRunIsOnCourse(plan, correlationId, variant, answer);
    var first := QueriesAreDone(s, 0, correlationId, answer);
    var t := After(s, first);
    AnswersFit(t.record.rows, answer);
    var rest := JobsAreDone(t, correlationId, fetched);
    Follows(s, first, rest);
    actions, n := first + rest, |t.record.rows|;
    var end := After(s, actions);
    assert end.record.rows[..n] == t.record.rows;
    FetchesFit(t.record.rows, end.record.rows, fetched);
    QuietRunIsComplete(end, correlationId);
  }

  lemma FetchesFit(rows: seq<Observation>, more: seq<Observation>, fetched: string -> Observation)
    requires IdsFit(rows) && rows <= more && AllFetched(more[|rows|..], fetched)
    ensures IdsFit(more)
  {
    var tail := more[|rows|..];
    forall i | |rows| <= i < |more| ensures more[i].capability == ThreadFetch {
      assert more[i] == tail[i - |rows|];
    }
  }
}
