/** What every committed transaction keeps about one run: lifecycle, coverage and frozen metrics. */
module RunSafety {
  import opened Options
  import opened Observations
  import opened RunRecords

  predicate Distinct(s: seq<string>) {
    forall i, j :: 0 <= i < j < |s| ==> s[i] != s[j]
  }

  /** What loading a plan guarantees, and the one assumption about its ids: none has the form of a
      thread-fetch query id. */
  ghost predicate PlanOk(plan: seq<string>) {
    && plan != []
    && Distinct(plan)
    && (forall i :: 0 <= i < |plan| ==> IsQueryId(plan[i]))
    && (forall e :: ThreadQueryId(e) !in plan)
  }

  predicate UniqueRows(rows: seq<Observation>) {
    forall i, j :: 0 <= i < j < |rows| ==> rows[i].queryId != rows[j].queryId
  }

  predicate Covers(rows: seq<Observation>, plan: seq<string>) {
    forall k :: 0 <= k < |plan| ==> Recorded(rows, plan[k])
  }

  // ----- counting equals coverage -----

  ghost function Ids(rows: seq<Observation>): set<string> {
    set i | 0 <= i < |rows| :: rows[i].queryId
  }

  ghost function Elements(s: seq<string>): set<string> {
    set i | 0 <= i < |s| :: s[i]
  }

  lemma ElementsAppend(init: seq<string>, last: string)
    ensures Elements(init + [last]) == Elements(init) + {last}
  {
    var s := init + [last];
    forall x | x in Elements(init) + {last} ensures x in Elements(s) {
      if x in Elements(init) {
        var i :| 0 <= i < |init| && init[i] == x;
        assert s[i] == x;
      } else {
        assert s[|init|] == x;
      }
    }
  }

  lemma {:induction false} DistinctCount(s: seq<string>)
    requires Distinct(s)
    ensures |Elements(s)| == |s|
  {
    if s != [] {
      var init := s[..|s| - 1];
      DistinctCount(init);
      ElementsAppend(init, s[|s| - 1]);
      assert s == init + [s[|s| - 1]];
      assert s[|s| - 1] !in Elements(init);
    }
  }

  lemma IdsOfAppend(rows: seq<Observation>, row: Observation)
    ensures Ids(rows + [row]) == Ids(rows) + {row.queryId}
  {
    var longer := rows + [row];
    forall q | q in Ids(rows) + {row.queryId} ensures q in Ids(longer) {
      if q in Ids(rows) {
        var i :| 0 <= i < |rows| && rows[i].queryId == q;
        assert longer[i].queryId == q;
      } else {
        assert longer[|rows|].queryId == q;
      }
    }
  }

  /** The counted rows are exactly the recorded planned ids, each once. */
  lemma {:induction false} PlannedRowsAreRecordedIds(rows: seq<Observation>, plan: seq<string>)
    requires UniqueRows(rows)
    ensures Ids(PlannedRows(rows, plan)) == Ids(rows) * Elements(plan)
    ensures |PlannedRows(rows, plan)| == |Ids(rows) * Elements(plan)|
  {
    if rows != [] {
      var init, last := rows[..|rows| - 1], rows[|rows| - 1];
      PlannedRowsAreRecordedIds(init, plan);
      assert rows == init + [last];
      IdsOfAppend(init, last);
      assert last.queryId !in Ids(init);
      assert last.queryId in plan <==> last.queryId in Elements(plan);
      if last.queryId in plan {
        IdsOfAppend(PlannedRows(init, plan), last);
        assert Ids(rows) * Elements(plan) == Ids(init) * Elements(plan) + {last.queryId};
      } else {
        assert Ids(rows) * Elements(plan) == Ids(init) * Elements(plan);
      }
    }
  }

  /** The count test of the roll-up decides set coverage of the plan. */
  lemma CountIsCoverage(rows: seq<Observation>, plan: seq<string>)
    requires UniqueRows(rows) && Distinct(plan)
    ensures |PlannedRows(rows, plan)| <= |plan|
    ensures |PlannedRows(rows, plan)| == |plan| <==> Covers(rows, plan)
  {
    PlannedRowsAreRecordedIds(rows, plan);
    DistinctCount(plan);
    var recorded, planned := Ids(rows) * Elements(plan), Elements(plan);
    SubsetCount(recorded, planned);
    if Covers(rows, plan) {
      forall q | q in planned ensures q in recorded {
        var k :| 0 <= k < |plan| && plan[k] == q;
        assert Recorded(rows, plan[k]);
      }
      assert recorded == planned;
    } else {
      var k :| 0 <= k < |plan| && !Recorded(rows, plan[k]);
      assert plan[k] in planned && plan[k] !in recorded;
    }
  }

  lemma SubsetCount<T>(a: set<T>, b: set<T>)
    requires a <= b
    ensures |a| <= |b| && (|a| == |b| <==> a == b)
  {
    assert b == a + (b - a);
  }

  // ----- the audit log is the lifecycle -----

  /** Replays an audit log: each event must start from the status the log has reached. */
  function ReplayAudit(audit: seq<AuditEvent>): Option<RunStatus> {
    if audit == [] then None
    else
      var last := audit[|audit| - 1];
      if ReplayAudit(audit[..|audit| - 1]) == last.before then Some(last.after) else None
  }

  predicate Closing(e: AuditEvent) {
    e.action.Completed? || e.action.Reaped?
  }

  function ClosingCount(audit: seq<AuditEvent>): nat {
    if audit == [] then 0
    else ClosingCount(audit[..|audit| - 1]) + if Closing(audit[|audit| - 1]) then 1 else 0
  }

  predicate LogHas(audit: seq<AuditEvent>, action: AuditAction) {
    exists i :: 0 <= i < |audit| && audit[i].action == action
  }

  predicate Lifecycle(r: RunRecord) {
    && ReplayAudit(r.audit) == Some(r.run.status)
    && ClosingCount(r.audit) == (if Terminal(r.run.status) then 1 else 0)
    && (r.run.startedAt.Some? <==> LogHas(r.audit, Started))
    && (r.run.startedAt.Some? <==> !r.run.status.Queued?)
    && (r.run.completedAt.Some? <==> Terminal(r.run.status))
    && (LogHas(r.audit, Completed) || LogHas(r.audit, Reaped) <==> Terminal(r.run.status))
    && !(LogHas(r.audit, Completed) && LogHas(r.audit, Reaped))
    && !r.run.status.RunCancelled?
  }

  /** A run the roll-up closed carries the metrics of its planned rows; a reaped run carries only
      the reaper's note; an open run carries none. */
  predicate MetricsAgree(r: RunRecord) {
    && (LogHas(r.audit, Completed) ==>
          var counted := PlannedRows(r.rows, r.run.plan);
          && r.run.metrics == Some(Metrics(Some(MetricsOf(counted)), false))
          && r.run.status == FinalStatus(counted)
          && Covers(r.rows, r.run.plan))
    && (LogHas(r.audit, Reaped) ==> r.run.metrics == Some(Metrics(None, true)))
    && (!Terminal(r.run.status) ==> r.run.metrics.None?)
  }

  ghost predicate Safe(r: RunRecord) {
    && PlanOk(r.run.plan)
    && UniqueRows(r.rows)
    && Lifecycle(r)
    && MetricsAgree(r)
    && (!Terminal(r.run.status) ==> !Covers(r.rows, r.run.plan))
  }

  function InitialRecord(plan: seq<string>, correlationId: string, variant: string): RunRecord {
    RunRecord(
      Run(Queued, plan, correlationId, variant, None, None, None),
      [],
      [AuditEvent(Created, None, Queued)])
  }

  lemma InitialIsSafe(plan: seq<string>, correlationId: string, variant: string)
    requires PlanOk(plan)
    ensures Safe(InitialRecord(plan, correlationId, variant))
  {
    var r := InitialRecord(plan, correlationId, variant);
    assert r.audit[..0] == [];
    assert !Recorded(r.rows, plan[0]);
  }

  // ----- single effects -----

  lemma ExtendRows(rows: seq<Observation>, row: Observation, plan: seq<string>)
    ensures forall q :: Recorded(rows + [row], q) <==> Recorded(rows, q) || row.queryId == q
    ensures PlannedRows(rows + [row], plan) == PlannedRows(rows, plan) + if row.queryId in plan then [row] else []
    ensures Covers(rows, plan) ==> Covers(rows + [row], plan)
    ensures UniqueRows(rows) && !Recorded(rows, row.queryId) ==> UniqueRows(rows + [row])
  {
    var longer := rows + [row];
    assert longer[..|longer| - 1] == rows;
    forall q ensures Recorded(longer, q) <==> Recorded(rows, q) || row.queryId == q {
      if Recorded(rows, q) {
        var i :| 0 <= i < |rows| && rows[i].queryId == q;
        assert longer[i].queryId == q;
      }
      if row.queryId == q { assert longer[|rows|].queryId == q; }
    }
  }

  lemma StartIsSafe(r: RunRecord, now: int)
    requires Safe(r)
    ensures Safe(Start(r, now))
  {
  }

  /** Recording one fresh row and rolling up closes the run exactly when no planned id is missing. */
  lemma RecordAndRollUpIsSafe(r: RunRecord, row: Observation, now: int)
    requires Safe(r) && r.run.status.Running? && !Recorded(r.rows, row.queryId)
    ensures
      var t := RollUp(Append(r, row), now);
      && Safe(t)
      && (Terminal(t.run.status) <==> Covers(r.rows + [row], r.run.plan))
      && t.rows == r.rows + [row]
      && (t == Append(r, row) || Terminal(t.run.status))
      && !LogHas(t.audit, Reaped)
  {
    var s := Append(r, row);
    ExtendRows(r.rows, row, r.run.plan);
    CountIsCoverage(s.rows, r.run.plan);
    if Covers(s.rows, r.run.plan) {
      CloseIsSafe(s, now);
    }
  }

  lemma CloseIsSafe(s: RunRecord, now: int)
    requires PlanOk(s.run.plan) && UniqueRows(s.rows) && Lifecycle(s) && s.run.status.Running?
    requires |PlannedRows(s.rows, s.run.plan)| == |s.run.plan| && Covers(s.rows, s.run.plan)
    ensures
      var t := RollUp(s, now);
      Safe(t) && Terminal(t.run.status) && t.rows == s.rows && LogHas(t.audit, Completed)
  {
  }

  lemma ReapIsSafe(r: RunRecord, cutoff: int, now: int)
    requires Safe(r)
    ensures Safe(Reap(r, cutoff, now))
    ensures Stale(r, cutoff) ==> LogHas(Reap(r, cutoff, now).audit, Reaped)
  {
  }

  /** A fetch row lies outside the plan, so it moves neither coverage nor counted metrics. */
  lemma ThreadRowIsSafe(r: RunRecord, row: Observation)
    requires Safe(r) && row.queryId !in r.run.plan
    ensures Safe(AppendIfAbsent(r, row))
  {
  }

  // ----- every transaction, and every run of them -----

  datatype Transaction =
    | ClaimTxn(queryId: string, correlationId: string, now: int)
    | SettleTxn(row: Observation, now: int)
    | ReapTxn(cutoff: int, now: int)
    | ClaimFetchTxn(externalId: string, url: string, correlationId: string)
    | SettleFetchTxn(externalId: string, row: Observation)
    | PersistTxn(failedIds: seq<string>)

  function Commit(r: RunRecord, t: Transaction): RunRecord {
    match t
    case ClaimTxn(q, c, now) => Claim(r, q, c, now).0
    case SettleTxn(row, now) => Settle(r, row, now).0
    case ReapTxn(cutoff, now) => Reap(r, cutoff, now)
    case ClaimFetchTxn(e, url, c) => ClaimFetch(r, e, url, c).0
    case SettleFetchTxn(_, row) => AppendIfAbsent(r, row)
    case PersistTxn(ids) => PersistUnenqueued(r, ids)
  }

  /** A discovery settle follows a claim, so never meets a queued run; its row is a discovery row.
      Any claim kwargs, any outcome, any order and any repetition are legal. */
  predicate Legal(r: RunRecord, t: Transaction) {
    match t
    case SettleTxn(row, _) => !r.run.status.Queued? && row.capability.Discovery?
    case SettleFetchTxn(e, row) => row.queryId == ThreadQueryId(e) && row.capability.ThreadFetch?
    case _ => true
  }

  function Rank(s: RunStatus): nat {
    if s.Queued? then 0 else if s.Running? then 1 else 2
  }

  predicate OnlyThreadRows(rows: seq<Observation>) {
    forall i :: 0 <= i < |rows| ==> rows[i].capability.ThreadFetch?
  }

  /** Status only moves forward, tables only grow, and a terminal run gains nothing but fetch rows. */
  predicate Advances(r: RunRecord, t: RunRecord) {
    && Rank(r.run.status) <= Rank(t.run.status)
    && t.run.plan == r.run.plan && t.run.correlationId == r.run.correlationId
    && t.run.providerVariant == r.run.providerVariant
    && r.rows <= t.rows
    && r.audit <= t.audit
    && (Terminal(r.run.status) ==> t.run == r.run && t.audit == r.audit && OnlyThreadRows(t.rows[|r.rows|..]))
  }

  lemma AdvancesTransitively(a: RunRecord, b: RunRecord, c: RunRecord)
    requires Advances(a, b) && Advances(b, c)
    ensures Advances(a, c)
  {
  }

  /** A violation row never names a planned query, so an entry-time refusal never closes a run. */
  lemma ClaimIsSafe(r: RunRecord, queryId: string, correlationId: string, now: int)
    requires Safe(r)
    ensures
      var (t, _) := Claim(r, queryId, correlationId, now);
      Safe(t) && Advances(r, t) && (Terminal(t.run.status) ==> t == r)
  {
    if !Terminal(r.run.status) && Claim(r, queryId, correlationId, now).0 != r {
      StartIsSafe(r, now);
      var s := Start(r, now);
      if !Recorded(s.rows, queryId) && ViolatesContract(s.run.plan, queryId, correlationId) {
        var row := ViolationRow(queryId);
        assert queryId !in s.run.plan;
        RecordAndRollUpIsSafe(s, row, now);
        StillMissing(s, row);
      }
    }
  }

  lemma StillMissing(r: RunRecord, row: Observation)
    requires !Covers(r.rows, r.run.plan) && row.queryId !in r.run.plan
    ensures !Covers(r.rows + [row], r.run.plan)
  {
  }

  lemma SettleIsSafe(r: RunRecord, row: Observation, now: int)
    requires Safe(r) && !r.run.status.Queued?
    ensures Safe(Settle(r, row, now).0) && Advances(r, Settle(r, row, now).0)
  {
    if !Terminal(r.run.status) && !Recorded(r.rows, row.queryId) && FitsColumns(row) {
      RecordAndRollUpIsSafe(r, row, now);
    }
  }

  lemma FetchRowIsSafe(r: RunRecord, externalId: string, row: Observation)
    requires Safe(r) && row.queryId == ThreadQueryId(externalId) && row.capability.ThreadFetch?
    ensures Safe(AppendIfAbsent(r, row)) && Advances(r, AppendIfAbsent(r, row))
  {
    ThreadRowIsSafe(r, row);
  }

  lemma {:induction false} PersistIsSafe(r: RunRecord, ids: seq<string>)
    requires Safe(r)
    ensures Safe(PersistUnenqueued(r, ids)) && Advances(r, PersistUnenqueued(r, ids))
  {
    if ids != [] {
      var mid, last := PersistUnenqueued(r, ids[..|ids| - 1]), ids[|ids| - 1];
      PersistIsSafe(r, ids[..|ids| - 1]);
      FetchRowIsSafe(mid, last, UnenqueuedRow(last));
      AdvancesTransitively(r, mid, PersistUnenqueued(r, ids));
    }
  }

  lemma TransactionIsSafe(r: RunRecord, t: Transaction)
    requires Safe(r) && Legal(r, t)
    ensures Safe(Commit(r, t)) && Advances(r, Commit(r, t))
  {
    hide Safe, Claim, Settle, FitsColumns, RefusesFetch, PersistUnenqueued;
    match t
    case ClaimTxn(q, c, now) => ClaimIsSafe(r, q, c, now);
    case SettleTxn(row, now) => SettleIsSafe(r, row, now);
    case ReapTxn(cutoff, now) => ReapIsSafe(r, cutoff, now);
    case ClaimFetchTxn(e, url, c) => FetchRowIsSafe(r, e, RefusedFetchRow(e));
    case SettleFetchTxn(e, row) => FetchRowIsSafe(r, e, row);
    case PersistTxn(ids) => PersistIsSafe(r, ids);
  }

  function CommitAll(r: RunRecord, ts: seq<Transaction>): RunRecord {
    if ts == [] then r else Commit(CommitAll(r, ts[..|ts| - 1]), ts[|ts| - 1])
  }

  predicate AllLegal(r: RunRecord, ts: seq<Transaction>) {
    ts != [] ==> AllLegal(r, ts[..|ts| - 1]) && Legal(CommitAll(r, ts[..|ts| - 1]), ts[|ts| - 1])
  }

  /** Safety over every history of claims, settles, violations, redeliveries, refusals and reaps. */
  lemma {:induction false} EveryHistoryIsSafe(r: RunRecord, ts: seq<Transaction>)
    requires Safe(r) && AllLegal(r, ts)
    ensures Safe(CommitAll(r, ts)) && Advances(r, CommitAll(r, ts))
  {
    if ts != [] {
      var mid := CommitAll(r, ts[..|ts| - 1]);
      EveryHistoryIsSafe(r, ts[..|ts| - 1]);
      TransactionIsSafe(mid, ts[|ts| - 1]);
      AdvancesTransitively(r, mid, CommitAll(r, ts));
    }
  }

  // ----- when a run closes -----

  /** The only planned query with no observation. */
  predicate LastMissing(r: RunRecord, queryId: string) {
    && queryId in r.run.plan && !Recorded(r.rows, queryId)
    && forall k :: 0 <= k < |r.run.plan| && r.run.plan[k] != queryId ==> Recorded(r.rows, r.run.plan[k])
  }

  /** An open run closes at exactly the settle that records its last missing query, or at a reap. */
  lemma ClosesAtLastMissing(r: RunRecord, t: Transaction)
    requires Safe(r) && Legal(r, t) && !Terminal(r.run.status)
    ensures Terminal(Commit(r, t).run.status) <==>
      || (t.SettleTxn? && FitsColumns(t.row) && LastMissing(r, t.row.queryId))
      || (t.ReapTxn? && Stale(r, t.cutoff))
  {
    match t
    case ClaimTxn(q, c, now) => ClaimIsSafe(r, q, c, now);
    case SettleTxn(row, now) =>
      if !Recorded(r.rows, row.queryId) && FitsColumns(row) {
        RecordAndRollUpIsSafe(r, row, now);
        ExtendRows(r.rows, row, r.run.plan);
        CompletesCoverage(r, row);
      }
    case ReapTxn(cutoff, now) =>
    case ClaimFetchTxn(e, url, c) =>
    case SettleFetchTxn(e, row) =>
    case PersistTxn(ids) => PersistKeepsRun(r, ids);
  }

  /** Such an input: a document that reports 2147483648 candidates. Its settle records nothing, and the
      run stays open although only that query was missing. */
  lemma LargeCountKeepsRunOpen(correlationId: string, variant: string, row: Observation, now: int)
    requires row.queryId == "q" && row.candidateCount == 0x8000_0000
    ensures
      var r := Start(InitialRecord(["q"], correlationId, variant), now);
      LastMissing(r, "q") && Settle(r, row, now) == (r, SettleAborted)
  {
  }

  lemma CompletesCoverage(r: RunRecord, row: Observation)
    requires Safe(r) && !Terminal(r.run.status) && !Recorded(r.rows, row.queryId)
    ensures Covers(r.rows + [row], r.run.plan) <==> LastMissing(r, row.queryId)
  {
    ExtendRows(r.rows, row, r.run.plan);
    var longer, plan := r.rows + [row], r.run.plan;
    if Covers(longer, plan) {
      var m :| 0 <= m < |plan| && !Recorded(r.rows, plan[m]);
      assert Recorded(longer, plan[m]);
      forall k | 0 <= k < |plan| && plan[k] != row.queryId ensures Recorded(r.rows, plan[k]) {
        assert Recorded(longer, plan[k]);
      }
    }
  }

  lemma {:induction false} PersistKeepsRun(r: RunRecord, ids: seq<string>)
    ensures PersistUnenqueued(r, ids).run == r.run
  {
    if ids != [] { PersistKeepsRun(r, ids[..|ids| - 1]); }
  }

  // ----- entry-time refusals -----

  const MAX_REFUSABLE_QUERY_ID := 150

  /**
   * The length guard in the claim keeps only ids above 200 characters out of the pattern branch; it
   * keeps nothing out of the insert. The violation row spells the id inside a bounded observation id
   * too, copies the plan's provider variant, and like every text refuses U+0000. So on a live run the
   * claim aborts, recording nothing, exactly when the query id holds U+0000, when the run would start
   * under a correlation id that does not fit, or when the pair is not recorded yet and one of the ids
   * is too long or an unplanned id meets a correlation id with U+0000 or too long a variant.
   */
  lemma ClaimAbortsExactly(r: RunRecord, queryId: string, correlationId: string, now: int)
    requires Safe(r)
    ensures Claim(r, queryId, correlationId, now).1.ClaimAborted? <==>
      && !Terminal(r.run.status)
      && (|| !NulFree(queryId)
          || (r.run.status.Queued? && (|correlationId| > MAX_CORRELATION || !NulFree(correlationId)))
          || (&& !Recorded(r.rows, queryId)
              && (|| |queryId| > MAX_REFUSABLE_QUERY_ID || |correlationId| > MAX_CORRELATION
                  || (queryId !in r.run.plan && (!NulFree(correlationId) || |r.run.providerVariant| > MAX_VARIANT)))))
    ensures Claim(r, queryId, correlationId, now).1.ClaimAborted? ==> Claim(r, queryId, correlationId, now).0 == r
  {
  }

  /** A claim may spawn only a planned query with no observation, and records nothing itself. */
  lemma OnlyPlannedQueriesSpawn(r: RunRecord, queryId: string, correlationId: string, now: int)
    requires Safe(r)
    ensures
      var (t, marker) := Claim(r, queryId, correlationId, now);
      marker.Claimed? ==>
        && queryId in r.run.plan && !Recorded(r.rows, queryId)
        && t.run.status.Running? && t.rows == r.rows
        && (marker.started <==> r.run.status.Queued?)
        && |correlationId| <= MAX_CORRELATION
  {
  }

  /** And every planned query with no observation spawns, on a live run, under every correlation id that
      fits: U+0000 in one only stops the claim that would start the run. */
  lemma PlannedQueriesSpawn(r: RunRecord, queryId: string, correlationId: string, now: int)
    requires Safe(r)
    ensures Claim(r, queryId, correlationId, now).1.Claimed? <==>
      && (r.run.status == Queued || r.run.status == Running)
      && (exists k :: 0 <= k < |r.run.plan| && r.run.plan[k] == queryId)
      && (forall i :: 0 <= i < |r.rows| ==> r.rows[i].queryId != queryId)
      && |correlationId| <= 128
      && (r.run.status == Queued ==> forall i :: 0 <= i < |correlationId| ==> correlationId[i] != '\0')
  {
  }

  /** What a claim leaves, whatever it answers: the first to get past its checks starts the run, and only a
      refused id adds a row, which names it and nothing else. */
  lemma ClaimLeaves(r: RunRecord, queryId: string, correlationId: string, now: int)
    requires Safe(r)
    ensures
      var (t, marker) := Claim(r, queryId, correlationId, now);
      var live := r.run.status == Queued || r.run.status == Running;
      var refused := t.rows != r.rows;
      && (marker == AlreadyDone <==> !live)
      && (t == r <==> !live || marker == ClaimAborted || (r.run.status == Running && !refused))
      && (marker.AtStatus? <==> live && marker != ClaimAborted && (refused || exists i :: 0 <= i < |r.rows| && r.rows[i].queryId == queryId))
      && (marker.AtStatus? ==> marker.status == Running)
      && (t.run != r.run ==>
            && t.run == r.run.(status := Running, startedAt := Some(now))
            && t.audit == r.audit + [AuditEvent(Started, Some(Queued), Running)])
      && (t.run == r.run ==> t.audit == r.audit)
      && (refused ==>
            && |t.rows| == |r.rows| + 1 && t.rows[..|r.rows|] == r.rows
            && var row := t.rows[|r.rows|];
               && row.queryId == queryId && row.capability == Discovery && row.candidates == []
               && row.status == Failed && row.failureClass == Some(ContractViolation) && row.evidenceState == NoEvidence
               && row.candidateCount == 0 && row.elapsedMs == None && row.requests == None && row.textOk)
  {
    var t := Claim(r, queryId, correlationId, now).0;
    ClaimIsSafe(r, queryId, correlationId, now);
    assert t.rows != r.rows ==> t.rows == r.rows + [ViolationRow(queryId)];
  }

  /** A query id is one to sixty-four ASCII digits, letters, underscores and hyphens. */
  lemma QueryIdsExactly(queryId: string)
    ensures IsQueryId(queryId) <==>
      && queryId != "" && |queryId| < 65
      && forall i :: 0 <= i < |queryId| ==>
           var code := queryId[i] as int;
           code == 45 || 48 <= code < 58 || 65 <= code < 91 || code == 95 || 97 <= code < 123
  {
  }

  // ----- settles and reaps -----

  /** What a settle answers and leaves: nothing on a run that is over or has the row, nothing where a column
      refuses the row, and otherwise that row and the close it brings. */
  lemma SettleDecides(r: RunRecord, row: Observation, now: int)
    requires Safe(r) && !r.run.status.Queued?
    ensures
      var (t, settled) := Settle(r, row, now);
      var recorded := exists i :: 0 <= i < |r.rows| && r.rows[i].queryId == row.queryId;
      && (settled == SettledLate <==> r.run.status != Running)
      && (settled.SettledReplay? <==> r.run.status == Running && recorded)
      && (settled == SettleAborted <==> r.run.status == Running && !recorded && !FitsColumns(row))
      && (!settled.SettledRecorded? ==> t == r)
      && (settled.SettledReplay? ==> settled.status == Running)
      && (settled.SettledRecorded? ==>
            && t.rows == r.rows + [row] && settled.status == t.run.status
            && (settled.completed <==> LastMissing(r, row.queryId))
            && (settled.completed ==>
                  && t.audit == r.audit + [AuditEvent(Completed, Some(Running), t.run.status)]
                  && t.run == r.run.(status := t.run.status, completedAt := Some(now), metrics := t.run.metrics))
            && (!settled.completed ==> t.run == r.run && t.audit == r.audit))
  {
    hide FitsColumns;
    if r.run.status.Running? && !Recorded(r.rows, row.queryId) {
      RecordAndRollUpIsSafe(r, row, now);
      CompletesCoverage(r, row);
    }
  }

  /** A reap closes exactly the runs that are running since before the cutoff, as failed, keeping whatever
      metrics there were with a note; the log says it was a reap. */
  lemma ReapDecides(r: RunRecord, cutoff: int, now: int)
    ensures
      var t := Reap(r, cutoff, now);
      var stale := r.run.status == Running && r.run.startedAt.Some? && r.run.startedAt.value < cutoff;
      && t.rows == r.rows
      && (!stale ==> t == r)
      && (stale ==>
            && t.audit == r.audit + [AuditEvent(Reaped, Some(Running), RunFailed)]
            && t.run == r.run.(status := RunFailed, completedAt := Some(now), metrics := t.run.metrics)
            && t.run.metrics == Some(Metrics(if r.run.metrics.Some? then r.run.metrics.value.rollUp else None, true)))
  {
  }

  // ----- what closed metrics say -----

  lemma {:induction false} CountsSumToRows(rows: seq<Observation>)
    ensures |StatusCounts(rows)| == |rows|
    ensures forall s :: s in StatusCounts(rows) <==> exists i :: 0 <= i < |rows| && rows[i].status == s
  {
    hide NetworkRequestCount;
    if rows != [] {
      var init, last := rows[..|rows| - 1], rows[|rows| - 1];
      CountsSumToRows(init);
      forall s ensures s in StatusCounts(rows) <==> exists i :: 0 <= i < |rows| && rows[i].status == s {
        StatusIn(init, last, s);
        assert rows == init + [last];
      }
    }
  }

  lemma StatusIn(init: seq<Observation>, last: Observation, s: ObservationStatus)
    ensures
      var rows := init + [last];
      (exists i :: 0 <= i < |rows| && rows[i].status == s) <==>
      (s == last.status || exists i :: 0 <= i < |init| && init[i].status == s)
  {
    var rows := init + [last];
    if s == last.status {
      assert rows[|init|].status == s;
    }
    if i :| 0 <= i < |init| && init[i].status == s {
      assert rows[i].status == s;
    }
  }

  lemma {:induction false} MeasuredExactly(rows: seq<Observation>)
    ensures MeasuredRequests(rows).None? <==>
      forall i :: 0 <= i < |rows| ==> rows[i].requests.None? || rows[i].requests.value < 0
  {
    if rows != [] {
      var init, last := rows[..|rows| - 1], rows[|rows| - 1];
      MeasuredExactly(init);
      assert rows == init + [last];
    }
  }

  /**
   * In every later state of a run the roll-up closed: status counts sum to the plan size, usage is
   * null exactly when no planned row measured a request, and the closing status can be read off the
   * counts alone.
   */
  lemma ClosedMetricsMeaning(r: RunRecord)
    requires Safe(r) && LogHas(r.audit, Completed)
    ensures r.run.metrics.Some? && r.run.metrics.value.rollUp.Some?
    ensures
      var m := r.run.metrics.value.rollUp.value;
      var counted := PlannedRows(r.rows, r.run.plan);
      && |m.counts| == |r.run.plan|
      && (m.requestCount.None? <==> forall i :: 0 <= i < |counted| ==> counted[i].requests.None? || counted[i].requests.value < 0)
      && (r.run.status.RunSucceeded? <==> forall s :: s in m.counts ==> s in SUCCEEDED_STATUSES)
      && (r.run.status.RunFailed? <==> forall s :: s in m.counts ==> s !in USABLE_STATUSES)
  {
    var counted := PlannedRows(r.rows, r.run.plan);
    CountIsCoverage(r.rows, r.run.plan);
    CountsSumToRows(counted);
    MeasuredExactly(counted);
    assert counted[0].status in StatusCounts(counted);
  }
}
