/**
 * The durable record of one Discovery Run (its row, its append-only observations, its audit log)
 * and the effect of each committed transaction on it.
 */
module RunRecords {
  import opened Options
  import opened Observations

  datatype RunStatus = Queued | Running | RunSucceeded | RunPartial | RunFailed | RunCancelled

  predicate Terminal(s: RunStatus) {
    s.RunSucceeded? || s.RunPartial? || s.RunFailed? || s.RunCancelled?
  }

  datatype AuditAction = Created | Started | Completed | Reaped
  datatype AuditEvent = AuditEvent(action: AuditAction, before: Option<RunStatus>, after: RunStatus)

  /** Roll-up metrics; a Counter over statuses is a multiset, and an unmeasured dimension is None. */
  datatype RollUpMetrics = RollUpMetrics(
    counts: multiset<ObservationStatus>, totalElapsedMs: int, requestCount: Option<nat>)
  datatype Metrics = Metrics(rollUp: Option<RollUpMetrics>, reaped: bool)

  datatype Run = Run(
    status: RunStatus,
    plan: seq<string>,
    correlationId: string,
    providerVariant: string,
    startedAt: Option<int>,
    completedAt: Option<int>,
    metrics: Option<Metrics>)

  datatype RunRecord = RunRecord(run: Run, rows: seq<Observation>, audit: seq<AuditEvent>)

  // ----- queries over the observation table -----

  predicate Recorded(rows: seq<Observation>, queryId: string) {
    exists i :: 0 <= i < |rows| && rows[i].queryId == queryId
  }

  /** The rows the roll-up counts: those whose query id the plan names, in insertion order. */
  function PlannedRows(rows: seq<Observation>, plan: seq<string>): seq<Observation> {
    if rows == [] then []
    else
      var init := PlannedRows(rows[..|rows| - 1], plan);
      var last := rows[|rows| - 1];
      if last.queryId in plan then init + [last] else init
  }

  // ----- roll-up -----

  function StatusCounts(rows: seq<Observation>): multiset<ObservationStatus> {
    if rows == [] then multiset{}
    else StatusCounts(rows[..|rows| - 1]) + multiset{rows[|rows| - 1].status}
  }

  function TotalElapsed(rows: seq<Observation>): int {
    if rows == [] then 0
    else TotalElapsed(rows[..|rows| - 1]) + rows[|rows| - 1].elapsedMs.GetOr(0)
  }

  /** A measured request counter is a non-negative integer; anything else was not measured. */
  function NetworkRequestCount(row: Observation): Option<nat> {
    if row.requests.Some? && row.requests.value >= 0 then Some(row.requests.value) else None
  }

  function MeasuredRequests(rows: seq<Observation>): Option<nat> {
    if rows == [] then None
    else
      var init := MeasuredRequests(rows[..|rows| - 1]);
      match NetworkRequestCount(rows[|rows| - 1])
      case None => init
      case Some(n) => Some(init.GetOr(0) + n)
  }

  function MetricsOf(rows: seq<Observation>): RollUpMetrics {
    RollUpMetrics(StatusCounts(rows), TotalElapsed(rows), MeasuredRequests(rows))
  }

  predicate AllSucceeded(rows: seq<Observation>) {
    forall i :: 0 <= i < |rows| ==> rows[i].status in SUCCEEDED_STATUSES
  }

  predicate AnyUsable(rows: seq<Observation>) {
    exists i :: 0 <= i < |rows| && rows[i].status in USABLE_STATUSES
  }

  function FinalStatus(rows: seq<Observation>): RunStatus {
    if AllSucceeded(rows) then RunSucceeded
    else if !AnyUsable(rows) then RunFailed
    else RunPartial
  }

  function RollUp(r: RunRecord, now: int): RunRecord {
    var counted := PlannedRows(r.rows, r.run.plan);
    if |counted| < |r.run.plan| || Terminal(r.run.status) then r
    else
      var final := FinalStatus(counted);
      RunRecord(
        r.run.(status := final, completedAt := Some(now), metrics := Some(Metrics(Some(MetricsOf(counted)), false))),
        r.rows,
        r.audit + [AuditEvent(Completed, Some(r.run.status), final)])
  }

  // ----- discovery claim -----

  predicate IsQueryIdChar(c: char) {
    'A' <= c <= 'Z' || 'a' <= c <= 'z' || '0' <= c <= '9' || c == '_' || c == '-'
  }

  predicate IsQueryId(q: string) {
    1 <= |q| <= 64 && forall i :: 0 <= i < |q| ==> IsQueryIdChar(q[i])
  }

  const MAX_CORRELATION := 128
  const MAX_QUERY_ID := 200
  const MAX_OBSERVATION_ID := 200

  /** Length of "<run uuid>:<query id>:unclassified". */
  function UnclassifiedIdLength(queryId: string): nat {
    36 + 1 + |queryId| + 1 + 12
  }

  predicate ViolatesContract(plan: seq<string>, queryId: string, correlationId: string) {
    || |queryId| > MAX_QUERY_ID || |correlationId| > MAX_CORRELATION
    || !IsQueryId(queryId)
    || queryId !in plan
  }

  predicate FitsCorrelation(correlationId: string) {
    |correlationId| <= MAX_CORRELATION && NulFree(correlationId)
  }

  /** A violation row whose text does not fit a column aborts the transaction that inserts it. It spells
      the query id twice and copies the plan's provider variant, which loading a plan does not bound. */
  predicate ViolationFits(queryId: string, correlationId: string, providerVariant: string) {
    && |queryId| <= MAX_QUERY_ID
    && UnclassifiedIdLength(queryId) <= MAX_OBSERVATION_ID
    && FitsCorrelation(correlationId)
    && |providerVariant| <= MAX_VARIANT
  }

  function ViolationRow(queryId: string): Observation {
    Observation(queryId, Discovery, Failed, Some(ContractViolation), NoEvidence, None, None, None, [], 0, None, None, true)
  }

  datatype ClaimMarker =
    | AlreadyDone
    | AtStatus(status: RunStatus)
    | Claimed(started: bool)
    | ClaimAborted

  function Start(r: RunRecord, now: int): RunRecord {
    if r.run.status.Queued? then
      RunRecord(
        r.run.(status := Running, startedAt := Some(now)),
        r.rows,
        r.audit + [AuditEvent(Started, Some(Queued), Running)])
    else r
  }

  function Append(r: RunRecord, row: Observation): RunRecord {
    r.(rows := r.rows + [row])
  }

  function Claim(r: RunRecord, queryId: string, correlationId: string, now: int): (RunRecord, ClaimMarker) {
    if Terminal(r.run.status) then (r, AlreadyDone)
    else if r.run.status.Queued? && !FitsCorrelation(correlationId) then
      (r, ClaimAborted)  // the start audit event carries the correlation id
    else if !NulFree(queryId) then (r, ClaimAborted)  // looking the pair up sends the query id
    else
      var s := Start(r, now);
      if Recorded(s.rows, queryId) then (s, AtStatus(s.run.status))
      else if ViolatesContract(s.run.plan, queryId, correlationId) then
        if !ViolationFits(queryId, correlationId, r.run.providerVariant) then (r, ClaimAborted)
        else
          var t := RollUp(Append(s, ViolationRow(queryId)), now);
          (t, AtStatus(t.run.status))
      else (s, Claimed(r.run.status.Queued?))
  }

  // ----- discovery settle -----

  datatype Settlement =
    | SettledLate
    | SettledReplay(status: RunStatus)
    | SettledRecorded(completed: bool, status: RunStatus)
    | SettleAborted

  function Settle(r: RunRecord, row: Observation, now: int): (RunRecord, Settlement) {
    if Terminal(r.run.status) then (r, SettledLate)
    else if Recorded(r.rows, row.queryId) then (r, SettledReplay(r.run.status))
    else if !FitsColumns(row) then (r, SettleAborted)
    else
      var t := RollUp(Append(r, row), now);
      (t, SettledRecorded(Terminal(t.run.status), t.run.status))
  }

  // ----- reaper -----

  predicate Stale(r: RunRecord, cutoff: int) {
    r.run.status.Running? && r.run.startedAt.Some? && r.run.startedAt.value < cutoff
  }

  function ReapedMetrics(m: Option<Metrics>): Option<Metrics> {
    match m
    case None => Some(Metrics(None, true))
    case Some(existing) => Some(existing.(reaped := true))
  }

  function Reap(r: RunRecord, cutoff: int, now: int): RunRecord {
    if !Stale(r, cutoff) then r
    else
      RunRecord(
        r.run.(status := RunFailed, completedAt := Some(now), metrics := ReapedMetrics(r.run.metrics)),
        r.rows,
        r.audit + [AuditEvent(Reaped, Some(r.run.status), RunFailed)])
  }

  // ----- thread fetches: these transactions take no run lock and run in any status -----

  const MAX_EXTERNAL_ID := 512
  const MAX_URL := 2048

  function Cut(text: string, width: nat): string {
    if |text| <= width then text else text[..width]
  }

  function Truncated(externalId: string): Option<string> {
    if externalId == "" then None else Some(Cut(externalId, MAX_EXTERNAL_ID))
  }

  function AppendIfAbsent(r: RunRecord, row: Observation): RunRecord {
    if Recorded(r.rows, row.queryId) then r else Append(r, row)
  }

  /** Whether some discovery row of the run durably holds this exact Candidate. */
  predicate HasCandidate(rows: seq<Observation>, externalId: string, url: string) {
    exists i :: 0 <= i < |rows| && rows[i].capability.Discovery?
      && Candidate(Some(externalId), Some(url)) in rows[i].candidates
  }

  predicate RefusesFetch(r: RunRecord, externalId: string, url: string, correlationId: string) {
    || correlationId != r.run.correlationId
    || |correlationId| > MAX_CORRELATION || |externalId| > MAX_EXTERNAL_ID
    || !HasCandidate(r.rows, externalId, url)
  }

  function RefusedFetchRow(externalId: string): Observation {
    Observation(ThreadQueryId(externalId), ThreadFetch, Failed, Some(ContractViolation), NoEvidence,
                None, None, Truncated(externalId), [], 0, None, None, true)
  }

  /** A refusal records what it can of the id and the URL, U+0000 included, and then aborts. */
  predicate RefusalFits(externalId: string, url: string) {
    NulFree(Cut(externalId, MAX_EXTERNAL_ID)) && NulFree(Cut(url, MAX_URL))
  }

  datatype FetchMarker = FetchRecorded | FetchRefused | FetchClaimed | FetchAborted

  function ClaimFetch(r: RunRecord, externalId: string, url: string, correlationId: string): (RunRecord, FetchMarker) {
    if Recorded(r.rows, ThreadQueryId(externalId)) then (r, FetchRecorded)
    else if RefusesFetch(r, externalId, url, correlationId) then
      if RefusalFits(externalId, url) then (Append(r, RefusedFetchRow(externalId)), FetchRefused)
      else (r, FetchAborted)
    else (r, FetchClaimed)
  }

  /** The row recorded for a Candidate whose fetch job the queue refused. */
  function UnenqueuedRow(externalId: string): Observation {
    Observation(ThreadQueryId(externalId), ThreadFetch, Failed, Some(TransportError), NoEvidence,
                None, None, Truncated(externalId), [], 0, None, None, true)
  }

  function PersistUnenqueued(r: RunRecord, failedIds: seq<string>): RunRecord {
    if failedIds == [] then r
    else AppendIfAbsent(PersistUnenqueued(r, failedIds[..|failedIds| - 1]), UnenqueuedRow(failedIds[|failedIds| - 1]))
  }

  // ----- Candidate processing, as the transition read reports it -----

  /** One predicate gates both enqueueing a Candidate and reporting it. */
  predicate Fetchable(c: RawCandidate) {
    c.Candidate? && c.externalSourceId.Some? && c.externalSourceId.value != ""
    && c.url.Some? && c.url.value != "" && IsHttpUrl(c.url.value)
  }

  predicate Names(row: Observation, externalId: string) {
    exists j :: 0 <= j < |row.candidates| && Fetchable(row.candidates[j])
      && row.candidates[j].externalSourceId.value == externalId
  }

  predicate Expected(rows: seq<Observation>, externalId: string) {
    exists i :: 0 <= i < |rows| && rows[i].capability.Discovery? && Names(rows[i], externalId)
  }

  predicate Fetched(rows: seq<Observation>, externalId: string) {
    exists i :: 0 <= i < |rows| && rows[i].capability.ThreadFetch? && rows[i].externalSourceId == Some(externalId)
  }

  ghost predicate ProcessingComplete(r: RunRecord) {
    Terminal(r.run.status) && forall e :: Expected(r.rows, e) ==> Fetched(r.rows, e)
  }
}
