/**
 * The tables behind every run, updated in place by the worker transactions. Each method is one
 * transaction, proved to have on its own run exactly the effect RunRecords specifies, and none on
 * any other run.
 */
module RunDatabase {
  import opened Options
  import opened Observations
  import opened RunRecords
  import opened Attempts
  import E = EvidenceStore

  datatype RunKey = RunKey(workspaceId: string, runId: string)
  datatype StoredRow = StoredRow(key: RunKey, row: Observation)
  datatype StoredEvent = StoredEvent(key: RunKey, event: AuditEvent)

  function RowsOf(rows: seq<StoredRow>, key: RunKey): seq<Observation> {
    if rows == [] then []
    else
      var init, last := RowsOf(rows[..|rows| - 1], key), rows[|rows| - 1];
      if last.key == key then init + [last.row] else init
  }

  function EventsOf(events: seq<StoredEvent>, key: RunKey): seq<AuditEvent> {
    if events == [] then []
    else
      var init, last := EventsOf(events[..|events| - 1], key), events[|events| - 1];
      if last.key == key then init + [last.event] else init
  }

  lemma RowsOfAppend(rows: seq<StoredRow>, added: StoredRow, key: RunKey)
    ensures RowsOf(rows + [added], key) == RowsOf(rows, key) + if added.key == key then [added.row] else []
  {
  }

  lemma EventsOfAppend(events: seq<StoredEvent>, added: StoredEvent, key: RunKey)
    ensures EventsOf(events + [added], key) == EventsOf(events, key) + if added.key == key then [added.event] else []
  {
  }

  lemma SummaryStep(rows: seq<Observation>, i: nat)
    requires i < |rows|
    ensures StatusCounts(rows[..i + 1]) == StatusCounts(rows[..i]) + multiset{rows[i].status}
    ensures TotalElapsed(rows[..i + 1]) == TotalElapsed(rows[..i]) + rows[i].elapsedMs.GetOr(0)
    ensures MeasuredRequests(rows[..i + 1]) ==
      var count := NetworkRequestCount(rows[i]);
      if count.None? then MeasuredRequests(rows[..i])
      else Some(MeasuredRequests(rows[..i]).GetOr(0) + count.value)
  {
    assert rows[..i + 1][..i] == rows[..i];
  }

  lemma StatusStep(rows: seq<Observation>, i: nat)
    requires i < |rows|
    ensures AllSucceeded(rows[..i + 1]) <==> AllSucceeded(rows[..i]) && rows[i].status in SUCCEEDED_STATUSES
    ensures AnyUsable(rows[..i + 1]) <==> AnyUsable(rows[..i]) || rows[i].status in USABLE_STATUSES
  {
  }

  lemma EmptySummary()
    ensures StatusCounts([]) == multiset{} && TotalElapsed([]) == 0 && MeasuredRequests([]) == None
    ensures AllSucceeded([]) && !AnyUsable([])
  {
  }

  /** One pass over the counted rows computes the closing status and the metrics. */
  method Summarize(rows: seq<Observation>) returns (metrics: RollUpMetrics, final: RunStatus)
    ensures metrics == MetricsOf(rows)
    ensures final == FinalStatus(rows)
  {
    hide StatusCounts, TotalElapsed, MeasuredRequests, AllSucceeded, AnyUsable, NetworkRequestCount;
    EmptySummary();
    assert rows[..0] == [];
    var counts: multiset<ObservationStatus> := multiset{};
    var elapsed := 0;
    var measured: Option<nat> := None;
    var allSucceeded, anyUsable := true, false;
    for i := 0 to |rows|
      invariant counts == StatusCounts(rows[..i])
      invariant elapsed == TotalElapsed(rows[..i])
      invariant measured == MeasuredRequests(rows[..i])
      invariant allSucceeded == AllSucceeded(rows[..i])
      invariant anyUsable == AnyUsable(rows[..i])
    {
      SummaryStep(rows, i);
      StatusStep(rows, i);
      counts := counts + multiset{rows[i].status};
      elapsed := elapsed + rows[i].elapsedMs.GetOr(0);
      var count := NetworkRequestCount(rows[i]);
      measured := if count.None? then measured else Some(measured.GetOr(0) + count.value);
      allSucceeded := allSucceeded && rows[i].status in SUCCEEDED_STATUSES;
      anyUsable := anyUsable || rows[i].status in USABLE_STATUSES;
    }
    assert rows[..|rows|] == rows;
    metrics := RollUpMetrics(counts, elapsed, measured);
    final := if allSucceeded then RunSucceeded else if !anyUsable then RunFailed else RunPartial;
  }

  type BundleRows = map<E.Key, E.Bundle>

  /** The bundle table after another transaction inserted its row for this bundle's identity, if it did so
      while there was none. */
  function Seen(bundles: BundleRows, b: E.Bundle, rival: Option<E.Bundle>): BundleRows {
    if E.KeyOf(b) in bundles || rival.None? then bundles else bundles[E.KeyOf(b) := rival.value]
  }

  /** A row for this bundle's identity that differs from it in any column. */
  predicate Conflicts(bundles: BundleRows, b: E.Bundle) {
    E.KeyOf(b) in bundles && bundles[E.KeyOf(b)] != b
  }

  /** The bundle an outcome carries, if any. */
  predicate Carries(outcome: Outcome, bundle: Option<E.Bundle>) {
    outcome.bundleId == if bundle.Some? then Some(bundle.value.id) else None
  }

  /** Whether a settle that reaches its insert gets a bundle row. */
  predicate BundleRefused(bundles: BundleRows, bundle: Option<E.Bundle>, rival: Option<E.Bundle>) {
    bundle.Some? && Conflicts(Seen(bundles, bundle.value, rival), bundle.value)
  }

  /** The bundle table a settle leaves that reached its insert. */
  function BundlesAfter(bundles: BundleRows, bundle: Option<E.Bundle>, rival: Option<E.Bundle>, recorded: bool): BundleRows {
    if bundle.None? then bundles
    else
      var seen := Seen(bundles, bundle.value, rival);
      if recorded then seen[E.KeyOf(bundle.value) := bundle.value] else seen
  }

  /** The bundle table after a settle, written out: a row that is there stays, a rival's row goes first, and
      the settle's own row stays only if the settle recorded its observation. */
  lemma BundleTableMeaning(bundles: BundleRows, bundle: Option<E.Bundle>, rival: Option<E.Bundle>, recorded: bool)
    requires recorded ==> !BundleRefused(bundles, bundle, rival)
    ensures
      var after := BundlesAfter(bundles, bundle, rival, recorded);
      if bundle.None? then after == bundles
      else
        var key := (bundle.value.workspace, bundle.value.digest);
        if key in bundles then after == bundles
        else if rival.Some? then after == bundles[key := rival.value]
        else if recorded then after == bundles[key := bundle.value]
        else after == bundles
    ensures BundleRefused(bundles, bundle, rival) <==>
      && bundle.Some?
      && var key := (bundle.value.workspace, bundle.value.digest);
         if key in bundles then bundles[key] != bundle.value else rival.Some? && rival.value != bundle.value
  {
  }

  class Database {
    var runs: map<RunKey, Run>
    var rows: seq<StoredRow>
    var audit: seq<StoredEvent>
    var bundles: BundleRows

    constructor ()
      ensures runs == map[] && rows == [] && audit == [] && bundles == map[]
    {
      runs, rows, audit, bundles := map[], [], [], map[];
    }

    function RecordOf(key: RunKey): RunRecord
      requires key in runs
      reads this
    {
      RunRecord(runs[key], RowsOf(rows, key), EventsOf(audit, key))
    }

    /** The transaction took this run from its old record to r, and touched no other run and no bundle. */
    twostate predicate Changed(key: RunKey, r: RunRecord)
      reads this
    {
      RecordChanged(key, r) && bundles == old(bundles)
    }

    twostate predicate RecordChanged(key: RunKey, r: RunRecord)
      reads this
    {
      && runs.Keys == old(runs.Keys)
      && key in runs && RecordOf(key) == r
      && forall k :: k in runs && k != key ==> RecordOf(k) == old(RecordOf(k))
    }

    /** Appends one observation row. */
    method AddRow(key: RunKey, row: Observation)
      requires key in runs
      modifies this`rows
      ensures Changed(key, Append(old(RecordOf(key)), row))
    {
      var added := StoredRow(key, row);
      forall k { RowsOfAppend(rows, added, k); }
      rows := rows + [added];
    }

    /** Updates the run row and appends the audit event that describes the update. */
    method UpdateRun(key: RunKey, run: Run, event: AuditEvent)
      requires key in runs
      modifies this`runs, this`audit
      ensures
        var r := old(RecordOf(key));
        Changed(key, RunRecord(run, r.rows, r.audit + [event]))
    {
      hide RowsOf, EventsOf;
      var added := StoredEvent(key, event);
      forall k { EventsOfAppend(audit, added, k); }
      runs := runs[key := run];
      audit := audit + [added];
    }

    method RollUpRun(key: RunKey, now: int) returns (closed: bool)
      requires key in runs
      modifies this
      ensures Changed(key, RollUp(old(RecordOf(key)), now))
      ensures closed <==> !Terminal(old(runs[key]).status) && Terminal(runs[key].status)
    {
      var run := runs[key];
      var counted := PlannedRows(RowsOf(rows, key), run.plan);
      if |counted| < |run.plan| {
        return false;
      }
      if Terminal(run.status) {
        return false;
      }
      var metrics, final := Summarize(counted);
      UpdateRun(
        key,
        run.(status := final, completedAt := Some(now), metrics := Some(Metrics(Some(metrics), false))),
        AuditEvent(Completed, Some(run.status), final));
      closed := true;
    }

    /** None means the run does not exist. An aborted claim leaves every table as it was. */
    method ClaimRun(key: RunKey, queryId: string, correlationId: string, now: int) returns (marker: Option<ClaimMarker>)
      modifies this
      ensures key !in old(runs) ==> marker.None? && unchanged(this)
      ensures key in old(runs) ==>
        var (r, m) := Claim(old(RecordOf(key)), queryId, correlationId, now);
        Changed(key, r) && marker == Some(m)
    {
      if key !in runs { return None; }
      var before := runs[key];
      if Terminal(before.status) { return Some(AlreadyDone); }
      var recorded := Recorded(RowsOf(rows, key), queryId);
      var refused := !recorded && ViolatesContract(before.plan, queryId, correlationId);
      // A statement PostgreSQL refuses rejects the transaction as a whole.
      if before.status.Queued? && !FitsCorrelation(correlationId) { return Some(ClaimAborted); }
      if !NulFree(queryId) { return Some(ClaimAborted); }
      if refused && !ViolationFits(queryId, correlationId, before.providerVariant) { return Some(ClaimAborted); }
      var started := before.status.Queued?;
      if started {
        UpdateRun(key, before.(status := Running, startedAt := Some(now)), AuditEvent(Started, Some(Queued), Running));
      }
      if recorded { return Some(AtStatus(runs[key].status)); }
      if refused {
        AddRow(key, ViolationRow(queryId));
        var _ := RollUpRun(key, now);
        return Some(AtStatus(runs[key].status));
      }
      marker := Some(Claimed(started));
    }

    /** Reuses the row of a bundle that is there, or inserts it in a savepoint; rival is what another
        transaction inserts for the same identity between look-up and flush. False is the raised conflict. */
    method EnsureBundleRow(b: E.Bundle, rival: Option<E.Bundle>) returns (ok: bool)
      modifies this`bundles
      ensures
        var seen := Seen(old(bundles), b, rival);
        ok == !Conflicts(seen, b) && bundles == if ok then seen[E.KeyOf(b) := b] else seen
      ensures
        var key, before := (b.workspace, b.digest), old(bundles);
        if key in before then bundles == before && (ok <==> before[key] == b)
        else if rival.Some? then bundles == before[key := rival.value] && (ok <==> rival.value == b)
        else bundles == before[key := b] && ok
    {
      var key := E.KeyOf(b);
      if key in bundles {
        return bundles[key] == b;
      }
      if rival.Some? {  // the unique index rejects the insert: look again
        bundles := bundles[key := rival.value];
        return bundles[key] == b;
      }
      bundles := bundles[key := b];
      return true;
    }

    method SettleRun(
        key: RunKey, queryId: string, correlationId: string, outcome: Outcome, bundle: Option<E.Bundle>,
        rival: Option<E.Bundle>, now: int)
      returns (settled: Option<Settlement>)
      requires WellFormed(outcome) && Carries(outcome, bundle)
      modifies this
      ensures key !in old(runs) ==> settled.None? && unchanged(this)
      ensures key in old(runs) ==>
        var before := old(RecordOf(key));
        var job := JobTexts(correlationId, before.run.providerVariant);
        var (r, s) := Settle(before, OutcomeToRow(queryId, job, outcome).value, now);
        var inserts := !Terminal(before.run.status) && !Recorded(before.rows, queryId);
        var refused := inserts && BundleRefused(old(bundles), bundle, rival);
        && RecordChanged(key, if refused then before else r)
        && settled == Some(if refused then SettleAborted else s)
        && bundles == if inserts then BundlesAfter(old(bundles), bundle, rival, settled.value.SettledRecorded?) else old(bundles)
    {
      if key !in runs { return None; }
      var job := JobTexts(correlationId, runs[key].providerVariant);
      OutcomesBecomeRows(outcome, queryId, job, "");
      if Terminal(runs[key].status) { return Some(SettledLate); }
      if Recorded(RowsOf(rows, key), queryId) { return Some(SettledReplay(runs[key].status)); }
      var seen := if bundle.Some? then Seen(bundles, bundle.value, rival) else bundles;
      if bundle.Some? {
        var ok := EnsureBundleRow(bundle.value, rival);
        if !ok { return Some(SettleAborted); }
      }
      var row := OutcomeToRow(queryId, job, outcome).value;
      if !FitsColumns(row) {
        bundles := seen;
        return Some(SettleAborted);
      }
      AddRow(key, row);
      var completed := RollUpRun(key, now);
      settled := Some(SettledRecorded(completed, runs[key].status));
    }

    method ClaimThread(key: RunKey, externalId: string, url: string, correlationId: string)
      returns (marker: Option<FetchMarker>)
      modifies this
      ensures key !in old(runs) ==> marker.None? && unchanged(this)
      ensures key in old(runs) ==>
        var (r, m) := ClaimFetch(old(RecordOf(key)), externalId, url, correlationId);
        Changed(key, r) && marker == Some(m)
    {
      if key !in runs { return None; }
      var r := RecordOf(key);
      if Recorded(r.rows, ThreadQueryId(externalId)) { return Some(FetchRecorded); }
      if RefusesFetch(r, externalId, url, correlationId) {
        if !RefusalFits(externalId, url) { return Some(FetchAborted); }
        AddRow(key, RefusedFetchRow(externalId));
        return Some(FetchRefused);
      }
      marker := Some(FetchClaimed);
    }

    method SettleThread(
        key: RunKey, externalId: string, outcome: Outcome, bundle: Option<E.Bundle>, rival: Option<E.Bundle>)
      returns (recorded: bool)
      requires WellFormed(outcome) && Carries(outcome, bundle)
      modifies this
      ensures key !in old(runs) ==> !recorded && unchanged(this)
      ensures key in old(runs) ==>
        var before := old(RecordOf(key));
        var row := ThreadOutcomeToRow(externalId, before.run.correlationId, outcome).value;
        var inserts := !Recorded(before.rows, ThreadQueryId(externalId));
        && RecordChanged(key, if recorded then AppendIfAbsent(before, row) else before)
        && (recorded <==> inserts && FitsColumns(row) && !BundleRefused(old(bundles), bundle, rival))
        && bundles == if inserts then BundlesAfter(old(bundles), bundle, rival, recorded) else old(bundles)
    {
      if key !in runs { return false; }
      var correlationId := runs[key].correlationId;
      OutcomesBecomeRows(outcome, "", JobTexts(correlationId, ""), externalId);
      if Recorded(RowsOf(rows, key), ThreadQueryId(externalId)) { return false; }
      var seen := if bundle.Some? then Seen(bundles, bundle.value, rival) else bundles;
      if bundle.Some? {
        var ok := EnsureBundleRow(bundle.value, rival);
        if !ok { return false; }
      }
      var row := ThreadOutcomeToRow(externalId, correlationId, outcome).value;
      if !FitsColumns(row) {
        bundles := seen;
        return false;
      }
      AddRow(key, row);
      recorded := true;
    }

    /** The ids are of Candidates the caller has just stored, so no text column refuses them. */
    method PersistUnenqueuedFetches(key: RunKey, failedIds: seq<string>) returns (written: nat)
      requires forall i :: 0 <= i < |failedIds| ==> NulFree(failedIds[i])
      modifies this
      ensures key !in old(runs) ==> written == 0 && unchanged(this)
      ensures key in old(runs) ==>
        var r := old(RecordOf(key));
        Changed(key, PersistUnenqueued(r, failedIds))
        && written == |PersistUnenqueued(r, failedIds).rows| - |r.rows|
    {
      written := 0;
      if key !in runs { return; }
      ghost var before := RecordOf(key);
      for i := 0 to |failedIds|
        invariant Changed(key, PersistUnenqueued(before, failedIds[..i]))
        invariant written == |RecordOf(key).rows| - |before.rows|
      {
        assert failedIds[..i + 1][..i] == failedIds[..i];
        if !Recorded(RowsOf(rows, key), ThreadQueryId(failedIds[i])) {
          AddRow(key, UnenqueuedRow(failedIds[i]));
          written := written + 1;
        }
      }
      assert failedIds[..|failedIds|] == failedIds;
    }

    /** Reaps every stale run in one transaction and returns how many there were. */
    method ReapStaleRuns(cutoff: int, now: int) returns (reaped: nat)
      modifies this
      ensures runs.Keys == old(runs.Keys)
      ensures forall k :: k in runs ==> RecordOf(k) == Reap(old(RecordOf(k)), cutoff, now)
      ensures reaped == |set k | k in old(runs) && Stale(old(RecordOf(k)), cutoff)|
    {
      var stale := set k | k in runs && Stale(RecordOf(k), cutoff);
      var todo := stale;
      reaped := 0;
      while todo != {}
        invariant runs.Keys == old(runs.Keys)
        invariant todo <= stale && reaped == |stale| - |todo|
        invariant forall k :: k in runs ==>
          RecordOf(k) == if k in todo then old(RecordOf(k)) else Reap(old(RecordOf(k)), cutoff, now)
        decreases todo
      {
        var key :| key in todo;
        var run := runs[key];
        UpdateRun(
          key,
          run.(status := RunFailed, completedAt := Some(now), metrics := ReapedMetrics(run.metrics)),
          AuditEvent(Reaped, Some(run.status), RunFailed));
        reaped := reaped + 1;
        todo := todo - {key};
      }
    }
  }
}
