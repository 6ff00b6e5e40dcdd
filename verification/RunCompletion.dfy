/** What can always be done about an open run: any planned query without a row can be delivered, attempted
    and recorded, and the run brought to its close. */
module RunCompletion {
  import opened Options
  import opened Observations
  import opened RunRecords
  import opened RunSafety
  import opened RunProtocol

  /** A row that an attempt at this query can end with and its columns take. */
  predicate Answers(row: Observation, queryId: string) {
    row.queryId == queryId && row.capability.Discovery? && FitsColumns(row)
  }

  /** One worker's way from its job to its row. */
  function Attempt(w: nat, queryId: string, correlationId: string, row: Observation, now: int): seq<Action> {
    [DeliverDiscovery(w, queryId, correlationId, now), FinishAttempt(w, row), SettleAttempt(w, now)]
  }

  lemma FollowsThree(s: System, trace: seq<Action>)
    requires |trace| == 3
    requires Enabled(s, trace[0]) && Enabled(Apply(s, trace[0]), trace[1])
    requires Enabled(Apply(Apply(s, trace[0]), trace[1]), trace[2])
    ensures Schedule(s, trace) && After(s, trace) == Apply(Apply(Apply(s, trace[0]), trace[1]), trace[2])
  {
    hide Apply, Enabled;
    var t1 := trace[1..];
    var t2 := t1[1..];
    var s1 := Apply(s, trace[0]);
    var s2 := Apply(s1, t1[0]);
    assert t2[1..] == [];
    assert Schedule(s2, t2) && After(s2, t2) == Apply(s2, t2[0]);
    assert Schedule(s1, t1) && After(s1, t1) == After(s2, t2);
  }

  /** A planned query of an open run that has no row gets the row its attempt ends with, from any worker
      that is free, and the worker goes on to enqueue exactly what that row names. */
  lemma AttemptRecords(s: System, w: nat, queryId: string, correlationId: string, row: Observation, now: int)
    requires SafeSystem(s) && !Terminal(s.record.run.status) && w !in s.workers
    requires queryId in s.record.run.plan && forall i :: 0 <= i < |s.record.rows| ==> s.record.rows[i].queryId != queryId
    requires FitsCorrelation(correlationId) && Answers(row, queryId)
    ensures Schedule(s, Attempt(w, queryId, correlationId, row, now))
    ensures
      var t := After(s, Attempt(w, queryId, correlationId, row, now));
      && t.record.rows == s.record.rows + [row]
      && t.workers == s.workers[w := FanningOut(correlationId, UniqueFetches(row.candidates), [], Terminal(t.record.run.status))]
      && (Terminal(t.record.run.status) <==> LastMissing(s.record, queryId))
      && (Terminal(t.record.run.status) ==> LogHas(t.record.audit, Completed))
      && t.jobs == s.jobs
  {
    var trace := Attempt(w, queryId, correlationId, row, now);
    var r := Claim(s.record, queryId, correlationId, now).0;
    ClaimSpawns(s.record, queryId, correlationId, now);
    SettleRecords(r, row, now);
    hide Claim, Settle, UniqueFetches, Safe, WorkersOk, LastMissing, FitsColumns;
    var s1 := Apply(s, trace[0]);
    var s2 := Apply(s1, trace[1]);
    assert Apply(s2, trace[2]).workers == s.workers[w := Apply(s2, trace[2]).workers[w]];
    FollowsThree(s, trace);
  }

  lemma ClaimSpawns(r: RunRecord, queryId: string, correlationId: string, now: int)
    requires Safe(r) && !Terminal(r.run.status) && queryId in r.run.plan && !Recorded(r.rows, queryId)
    requires FitsCorrelation(correlationId)
    ensures
      var (t, marker) := Claim(r, queryId, correlationId, now);
      && marker.Claimed? && t.rows == r.rows && t.run.plan == r.run.plan && t.run.status.Running? && Safe(t)
      && (LastMissing(t, queryId) <==> LastMissing(r, queryId))
  {
    PlannedQueriesSpawn(r, queryId, correlationId, now);
    OnlyPlannedQueriesSpawn(r, queryId, correlationId, now);
    ClaimIsSafe(r, queryId, correlationId, now);
  }

  lemma SettleRecords(r: RunRecord, row: Observation, now: int)
    requires Safe(r) && r.run.status.Running? && !Recorded(r.rows, row.queryId) && FitsColumns(row) && row.capability.Discovery?
    ensures
      var (t, settled) := Settle(r, row, now);
      && t.rows == r.rows + [row] && settled == SettledRecorded(Terminal(t.run.status), t.run.status)
      && (Terminal(t.run.status) <==> LastMissing(r, row.queryId))
      && (Terminal(t.run.status) ==> LogHas(t.audit, Completed))
  {
    RecordAndRollUpIsSafe(r, row, now);
    ClosesAtLastMissing(r, SettleTxn(row, now));
  }

  /** A worker goes on exactly when its transaction let it: from a spawning claim to its attempt, from a settle
      that recorded its row to enqueueing what the row names, from a fetch with its row recorded to publishing.
      One that was answered otherwise, late, replayed or aborted does nothing more. */
  lemma WorkersMoveOn(s: System, a: Action)
    requires Enabled(s, a) && (a.DeliverDiscovery? || a.SettleAttempt? || a.SettleFetch?)
    ensures
      var t := Apply(s, a);
      && t.jobs == s.jobs && t.announced == s.announced && t.workers == s.workers[a.w := t.workers[a.w]]
      && match a
         case DeliverDiscovery(w, q, c, now) =>
           if Claim(s.record, q, c, now).1.Claimed? then t.workers[w] == DiscoveryClaimed(q, c) else t.workers[w] == Done
         case SettleAttempt(w, now) =>
           var worker, settled := s.workers[w], Settle(s.record, s.workers[w].row, now).1;
           if settled.SettledRecorded?
           then t.workers[w] == FanningOut(worker.correlationId, UniqueFetches(worker.row.candidates), [], settled.completed)
           else t.workers[w] == Done && t.record == s.record
         case SettleFetch(w) =>
           var row := s.workers[w].row;
           if Recorded(s.record.rows, row.queryId) || FitsColumns(row) then t.workers[w] == PublishingFetch
           else t.workers[w] == Done && t.record == s.record
         case _ => true
  {
    hide FitsColumns, Recorded, Claim;
  }

  /** A run that has been running since before the cutoff can be reaped whatever its workers are doing. */
  lemma StaleRunCanBeReaped(s: System, cutoff: int, now: int)
    requires SafeSystem(s) && s.record.run.status == Running && s.record.run.startedAt.value < cutoff
    ensures Schedule(s, [ReapRun(cutoff, now)])
    ensures
      var t := After(s, [ReapRun(cutoff, now)]);
      && t.record.run.status == RunFailed && t.record.run.completedAt == Some(now) && LogHas(t.record.audit, Reaped)
      && t.record.rows == s.record.rows && t.workers == s.workers && t.jobs == s.jobs
  {
    ReapIsSafe(s.record, cutoff, now);
    ReapDecides(s.record, cutoff, now);
    assert [ReapRun(cutoff, now)][1..] == [];
    assert After(s, [ReapRun(cutoff, now)]) == Apply(s, ReapRun(cutoff, now));
  }

  // ----- the whole run -----

  lemma {:induction false} FreeWorker(taken: set<nat>) returns (w: nat)
    ensures forall v :: v in taken ==> v < w
  {
    w := 0;
    if v :| v in taken {
      w := FreeWorker(taken - {v});
      w := if v < w then w else v + 1;
      assert forall u :: u in taken ==> u in taken - {v} || u == v;
    }
  }

  lemma {:induction false} Follows(s: System, first: seq<Action>, rest: seq<Action>)
    requires Schedule(s, first) && Schedule(After(s, first), rest)
    ensures Schedule(s, first + rest) && After(s, first + rest) == After(After(s, first), rest)
    decreases |first|
  {
    hide Apply, Enabled;
    if first == [] {
      assert first + rest == rest;
    } else {
      Follows(Apply(s, first[0]), first[1..], rest);
      assert (first + rest)[0] == first[0] && (first + rest)[1..] == first[1..] + rest;
    }
  }

  lemma OpenRunMissesOne(r: RunRecord, k: nat)
    requires Safe(r) && !Terminal(r.run.status)
    requires k <= |r.run.plan| && forall j :: 0 <= j < k ==> Recorded(r.rows, r.run.plan[j])
    ensures k < |r.run.plan|
  {
  }

  lemma AdvancingKeeps(r: RunRecord, t: RunRecord)
    requires Advances(r, t)
    ensures t.run.plan == r.run.plan && r.rows <= t.rows
  {
  }

  /** Brings the run to its close from a state where the first k planned queries have their rows. */
  lemma {:induction false} CloseFrom(s: System, k: nat, correlationId: string, answer: string -> Observation)
    returns (actions: seq<Action>)
    requires SafeSystem(s) && !Terminal(s.record.run.status) && FitsCorrelation(correlationId)
    requires k <= |s.record.run.plan| && forall j :: 0 <= j < k ==> Recorded(s.record.rows, s.record.run.plan[j])
    requires forall q :: q in s.record.run.plan ==> Answers(answer(q), q)
    ensures Schedule(s, actions)
    ensures
      var r := After(s, actions).record;
      && Terminal(r.run.status) && Advances(s.record, r) && LogHas(r.audit, Completed)
      && forall q :: q in r.run.plan && !Recorded(s.record.rows, q) ==> answer(q) in r.rows
    decreases |s.record.run.plan| - k, 1
  {
    hide Schedule, After, Answers, LogHas;
    OpenRunMissesOne(s.record, k);
    if Recorded(s.record.rows, s.record.run.plan[k]) {
      actions := CloseFrom(s, k + 1, correlationId, answer);
    } else {
      actions := AttemptThenClose(s, k, correlationId, answer);
    }
  }

  lemma {:induction false} AttemptThenClose(s: System, k: nat, correlationId: string, answer: string -> Observation)
    returns (actions: seq<Action>)
    requires SafeSystem(s) && !Terminal(s.record.run.status) && FitsCorrelation(correlationId)
    requires k < |s.record.run.plan| && forall j :: 0 <= j < k ==> Recorded(s.record.rows, s.record.run.plan[j])
    requires !Recorded(s.record.rows, s.record.run.plan[k])
    requires forall q :: q in s.record.run.plan ==> Answers(answer(q), q)
    ensures Schedule(s, actions)
    ensures
      var r := After(s, actions).record;
      && Terminal(r.run.status) && Advances(s.record, r) && LogHas(r.audit, Completed)
      && forall q :: q in r.run.plan && !Recorded(s.record.rows, q) ==> answer(q) in r.rows
    decreases |s.record.run.plan| - k, 0
  {
    hide Schedule, After, Safe, WorkersOk, Advances, FitsColumns, FitsCorrelation, LogHas;
    var w := FreeWorker(s.workers.Keys);
    var q := s.record.run.plan[k];
    var first := Attempt(w, q, correlationId, answer(q), 0);
    AttemptRecords(s, w, q, correlationId, answer(q), 0);
    EveryScheduleIsSafe(s, first);
    var t := After(s, first);
    AdvancingKeeps(s.record, t.record);
    ExtendRows(s.record.rows, answer(q), []);
    if Terminal(t.record.run.status) {
      actions := first;
      assert LastMissing(s.record, q);
    } else {
      var more := CloseFrom(t, k + 1, correlationId, answer);
      Follows(s, first, more);
      actions := first + more;
      AdvancesTransitively(s.record, t.record, After(s, actions).record);
      AdvancingKeeps(t.record, After(s, actions).record);
      StaysRecorded(t.record.rows, After(s, actions).record.rows, answer(q));
    }
  }

  lemma StaysRecorded(rows: seq<Observation>, more: seq<Observation>, row: Observation)
    requires rows <= more && row in rows
    ensures row in more
  {
  }

  /**
   * From every reachable state of an open run, whatever died or was refused before, whatever rows the
   * missing attempts end with and under any correlation id that fits: some continuation records those rows
   * and closes the run by its roll-up.
   */
  lemma OpenRunCanClose(s: System, correlationId: string, answer: string -> Observation) returns (actions: seq<Action>)
    requires SafeSystem(s) && !Terminal(s.record.run.status) && FitsCorrelation(correlationId)
    requires forall q :: q in s.record.run.plan ==> Answers(answer(q), q)
    ensures Schedule(s, actions)
    ensures
      var r := After(s, actions).record;
      && Terminal(r.run.status) && LogHas(r.audit, Completed) && s.record.rows <= r.rows
      && forall q :: q in r.run.plan && !Recorded(s.record.rows, q) ==> answer(q) in r.rows
  {
    actions := CloseFrom(s, 0, correlationId, answer);
  }
}
