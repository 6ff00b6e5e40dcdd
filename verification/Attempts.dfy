/**
 * One retrieval attempt: classify the CLI result, finalize its raw evidence, and build the row
 * that records it, on the discovery path and on the thread-fetch path.
 */
module Attempts {
  import opened Options
  import opened Observations

  /** Where the observation document came from; Unlocated is stdout without an evidence directory. */
  datatype EvidenceSource = Disk | DiskUnreadable | Unlocated | Nowhere

  /** A validated document. The last three say whether the columns take its remaining texts and JSON: its
      identity, URLs, runtime and network; its failure reason; its hashes and what its Candidates hold
      beside id and URL. */
  datatype Document = Document(
    status: ObservationStatus,
    capability: string,
    externalSourceId: Option<string>,
    candidates: seq<RawCandidate>,
    candidateCount: Option<int>,
    declaresRawArtifact: bool,
    elapsedMs: Option<int>,
    requests: Option<int>,
    contextOk: bool,
    reasonOk: bool,
    resultOk: bool)

  /** A JSON observation document before parsing: a missing native status or a shape the wire
      contract rejects is None. */
  datatype RawDocument = RawDocument(schemaVersion: int, nativeStatus: Option<ObservationStatus>, shape: Option<Document>)

  datatype CliResult = CliResult(
    exitCode: int,
    stderrHasRuntimeMarker: bool,
    timedOut: bool,
    source: EvidenceSource,
    document: Option<RawDocument>)

  datatype Outcome = Outcome(
    doc: Option<Document>,
    bundleId: Option<string>,
    hasRawMetadata: bool,
    failureClass: Option<FailureClass>)

  /** What the evidence store and the raw-file checks in front of it do with one declared artifact. */
  datatype StoreReply =
    | InvalidArtifact
    | StoreFailed
    | OsFailed
    | BundleNotFound
    | Finalized(bundleId: string, verifies: bool, singleDescriptor: bool)

  const SCHEMA_VERSION := 1

  function ParseObservation(raw: RawDocument): Result<Document, FailureClass> {
    if raw.schemaVersion != SCHEMA_VERSION then Raised(UnknownObservationSchema)
    else if raw.nativeStatus.None? then Raised(UnknownObservationStatus)
    else if raw.shape.None? then Raised(ContractViolation)
    else Ok(raw.shape.value.(status := raw.nativeStatus.value))
  }

  function Failure(c: FailureClass): Outcome {
    Outcome(None, None, false, Some(c))
  }

  function Classify(result: CliResult, expectedCapability: string): Outcome {
    if result.timedOut then Failure(TransportTimeout)
    else if result.source.DiskUnreadable? then Failure(EvidenceUnreadable)
    else if result.source.Unlocated? then Failure(EvidenceUnlocated)
    else if result.document.Some? then
      match ParseObservation(result.document.value)
      case Raised(c) => Failure(c)
      case Ok(doc) =>
        if doc.capability != expectedCapability then Failure(ContractViolation)
        else Outcome(Some(doc), None, false, None)
    else if result.source.Nowhere? && result.exitCode == 0 then Failure(EvidenceUnlocated)
    else if result.exitCode == 1 then
      Failure(if result.stderrHasRuntimeMarker then RuntimeGateFailed else WrapperError)
    else Failure(TransportError)
  }

  /** Only these results carry a document worth reading. */
  predicate HasTrustedDocument(result: CliResult) {
    && !result.timedOut && result.document.Some?
    && !result.source.DiskUnreadable? && !result.source.Unlocated?
  }

  /** Every failure class has one cause, and there is none exactly for a valid document of the expected
      capability. (RuntimeGateFailed is the class named runtime_verification_failed.) */
  lemma EachClassHasOneCause(result: CliResult, expected: string)
    ensures
      var c := Classify(result, expected).failureClass;
      var bare := !result.timedOut && !HasTrustedDocument(result)
        && !result.source.DiskUnreadable? && !result.source.Unlocated?;
      var doc := if HasTrustedDocument(result) then result.document else None;
      && (c == Some(TransportTimeout) <==> result.timedOut)
      && (c == Some(EvidenceUnreadable) <==> !result.timedOut && result.source.DiskUnreadable?)
      && (c == Some(EvidenceUnlocated) <==>
            || (!result.timedOut && result.source.Unlocated?)
            || (bare && result.source.Nowhere? && result.exitCode == 0))
      && (c == Some(UnknownObservationSchema) <==> doc.Some? && doc.value.schemaVersion != SCHEMA_VERSION)
      && (c == Some(UnknownObservationStatus) <==>
            doc.Some? && doc.value.schemaVersion == SCHEMA_VERSION && doc.value.nativeStatus.None?)
      && (c == Some(ContractViolation) <==>
            && doc.Some? && doc.value.schemaVersion == SCHEMA_VERSION && doc.value.nativeStatus.Some?
            && (doc.value.shape.None? || doc.value.shape.value.capability != expected))
      && (c == Some(RuntimeGateFailed) <==> bare && result.exitCode == 1 && result.stderrHasRuntimeMarker)
      && (c == Some(WrapperError) <==> bare && result.exitCode == 1 && !result.stderrHasRuntimeMarker)
      && (c == Some(TransportError) <==> bare && result.exitCode != 1 && !(result.source.Nowhere? && result.exitCode == 0))
      && (c.None? <==>
            && doc.Some? && doc.value.schemaVersion == SCHEMA_VERSION && doc.value.nativeStatus.Some?
            && doc.value.shape.Some? && doc.value.shape.value.capability == expected)
      && Classify(result, expected).doc.Some? == c.None?
  {
  }

  /** BundleNotFound is a LookupError, which the handler around the store does not catch. */
  datatype Escaped = EscapedBundleNotFound

  function FinalizeEvidence(outcome: Outcome, store: StoreReply): Result<Outcome, Escaped> {
    if outcome.doc.None? then Ok(outcome)
    else
      var doc := outcome.doc.value;
      if !doc.declaresRawArtifact && doc.status in NATIVE_NO_EVIDENCE_STATUSES then Ok(outcome)
      else
        var unreadable := Ok(Outcome(Some(doc), None, false, Some(EvidenceUnreadable)));
        if !doc.declaresRawArtifact then unreadable
        else
          match store
          case BundleNotFound => Raised(EscapedBundleNotFound)
          case Finalized(id, verifies, single) =>
            if verifies && single then Ok(Outcome(Some(doc), Some(id), true, None)) else unreadable
          case _ => unreadable
  }

  /** Texts a row takes from the job and from the run's plan. */
  datatype JobTexts = JobTexts(correlationId: string, providerVariant: string)

  function DocumentRow(queryId: string, job: JobTexts, capability: Capability, doc: Document, bundleId: string)
    : Observation
  {
    Observation(queryId, capability, doc.status, None, Bundle, Some(bundleId), None, doc.externalSourceId,
                if capability.Discovery? then doc.candidates else [],
                if capability.Discovery? then doc.candidateCount.GetOr(0) else 0,
                doc.elapsedMs, doc.requests,
                doc.contextOk && doc.reasonOk && doc.resultOk && NulFree(job.correlationId))
  }

  function NativeFailureRow(
      queryId: string, job: JobTexts, capability: Capability, doc: Document, fallbackId: Option<string>)
    : Result<Observation, string>
  {
    if doc.status !in NATIVE_NO_EVIDENCE_STATUSES then Raised("status requires retained raw evidence")
    else
      var externalId :=
        if doc.externalSourceId.Some? && doc.externalSourceId.value != "" then doc.externalSourceId else fallbackId;
      Ok(Observation(queryId, capability, doc.status, None, NoEvidence, None, None, externalId,
                     [], 0, doc.elapsedMs, doc.requests, doc.contextOk && doc.reasonOk && NulFree(job.correlationId)))
  }

  /** A classified failure keeps what context its document gave, or without one the provider variant. Its
      reason is the backend's own text, which escapes whatever it quotes. */
  function FailedRow(queryId: string, job: JobTexts, capability: Capability, c: FailureClass, externalId: Option<string>,
                     doc: Option<Document>): Observation
  {
    Observation(queryId, capability, Failed, Some(c), NoEvidence, None, None, externalId, [], 0,
                if doc.Some? then doc.value.elapsedMs else None,
                if doc.Some? then doc.value.requests else None,
                NulFree(job.correlationId)
                && if doc.Some? then doc.value.contextOk else |job.providerVariant| <= MAX_VARIANT)
  }

  /** The discovery path's row builder. */
  function OutcomeToRow(queryId: string, job: JobTexts, outcome: Outcome): Result<Observation, string> {
    if outcome.failureClass.Some? && outcome.failureClass.value.OutOfVocabulary? then
      Raised("classifier produced out-of-vocabulary failure_class")
    else if outcome.doc.Some? && outcome.bundleId.Some? then
      if !outcome.hasRawMetadata then Raised("bundled outcome is missing raw artifact metadata")
      else Ok(DocumentRow(queryId, job, Discovery, outcome.doc.value, outcome.bundleId.value).(externalSourceId := None))
    else if outcome.doc.Some? && outcome.failureClass.Some? then
      Ok(FailedRow(queryId, job, Discovery, outcome.failureClass.value, None, outcome.doc))
    else if outcome.doc.Some? && outcome.doc.value.status in NATIVE_NO_EVIDENCE_STATUSES then
      NativeFailureRow(queryId, job, Discovery, outcome.doc.value, None)
    else
      Ok(FailedRow(queryId, job, Discovery, outcome.failureClass.GetOr(TransportError), None, None))
  }

  const UNKNOWN_THREAD_FETCH := "unknown-thread-fetch"

  /** The thread-fetch path's row builder; the correlation id is the run's own. */
  function ThreadOutcomeToRow(externalId: string, correlationId: string, outcome: Outcome): Result<Observation, string> {
    var queryId, job := ThreadQueryId(externalId), JobTexts(correlationId, UNKNOWN_THREAD_FETCH);
    if outcome.doc.Some? && outcome.bundleId.Some? then
      if !outcome.hasRawMetadata then Raised("bundled thread outcome has no raw descriptor")
      else Ok(DocumentRow(queryId, job, ThreadFetch, outcome.doc.value, outcome.bundleId.value))
    else if outcome.doc.Some? && outcome.failureClass.None? then
      NativeFailureRow(queryId, job, ThreadFetch, outcome.doc.value, Some(externalId))
    else
      Ok(FailedRow(queryId, job, ThreadFetch, outcome.failureClass.GetOr(TransportError), Some(externalId), outcome.doc))
  }

  /** The store is consulted exactly when a parsed document declares a raw artifact. */
  predicate ConsultsStore(result: CliResult, expectedCapability: string) {
    var doc := Classify(result, expectedCapability).doc;
    doc.Some? && doc.value.declaresRawArtifact
  }

  /** Every outcome that classification and finalization can produce. */
  predicate WellFormed(o: Outcome) {
    && (o.failureClass.Some? ==> !o.failureClass.value.OutOfVocabulary?)
    && (o.bundleId.Some? ==> o.doc.Some? && o.hasRawMetadata && o.failureClass.None?)
    && (o.doc.None? ==> o.failureClass.Some?)
    && (o.doc.Some? && o.bundleId.None? && o.failureClass.None? ==>
          o.doc.value.status in NATIVE_NO_EVIDENCE_STATUSES)
  }

  /** What a retained document proves about the attempt behind it. */
  predicate EvidenceBacked(result: CliResult, store: StoreReply, o: Outcome)
    requires o.doc.Some?
  {
    && !result.timedOut
    && !result.source.DiskUnreadable? && !result.source.Unlocated?
    && result.document.Some?
    && result.document.value.schemaVersion == SCHEMA_VERSION
    && result.document.value.nativeStatus == Some(o.doc.value.status)
    && (o.bundleId.Some? ==> store.Finalized? && store.verifies && o.bundleId == Some(store.bundleId))
  }

  /**
   * Classify then finalize raises only when the store reports a missing bundle for evidence it was
   * asked to finalize; otherwise the outcome is one both row builders accept.
   */
  lemma AttemptIsWellFormed(result: CliResult, expected: string, store: StoreReply)
    ensures
      var finalized := FinalizeEvidence(Classify(result, expected), store);
      && (finalized.Raised? <==> ConsultsStore(result, expected) && store.BundleNotFound?)
      && (finalized.Ok? ==>
            && WellFormed(finalized.value)
            && (finalized.value.doc.Some? ==> EvidenceBacked(result, store, finalized.value)))
  {
  }

  /** Both CHECKs hold, and a usable status never comes without the bundle that backs it. */
  predicate HonestRow(row: Observation, o: Outcome) {
    && EvidenceReferenceOk(row) && FailureClassOk(row)
    && (row.status in USABLE_STATUSES ==>
          o.doc.Some? && o.bundleId.Some? && row.status == o.doc.value.status && row.bundleId == o.bundleId)
    && (row.status !in USABLE_STATUSES + {Failed} ==> o.doc.Some? && row.status == o.doc.value.status)
    && (row.candidates != [] ==> o.doc.Some? && row.candidates == o.doc.value.candidates && row.bundleId.Some?)
  }

  /** Neither row builder raises on such an outcome, and each row is honest about its evidence. */
  lemma OutcomesBecomeRows(o: Outcome, queryId: string, job: JobTexts, externalId: string)
    requires WellFormed(o)
    ensures
      var row := OutcomeToRow(queryId, job, o);
      row.Ok? && row.value.queryId == queryId && row.value.capability.Discovery? && HonestRow(row.value, o)
    ensures
      var row := ThreadOutcomeToRow(externalId, job.correlationId, o);
      row.Ok? && row.value.queryId == ThreadQueryId(externalId) && row.value.capability.ThreadFetch?
      && HonestRow(row.value, o)
  {
  }

  const NO_DOCUMENT := Document(Failed, "", None, [], None, false, None, None, true, true, true)

  /** What a caller can check before settling: the row of an attempt fits its columns exactly when the
      correlation id does, and the parts of the document that this outcome keeps do, or the plan's
      variant where there is no document. */
  lemma RowsThatFit(o: Outcome, queryId: string, job: JobTexts)
    requires WellFormed(o) && NulFree(queryId)
    ensures
      var doc := o.doc.GetOr(NO_DOCUMENT);
      FitsColumns(OutcomeToRow(queryId, job, o).value) <==>
        && NulFree(job.correlationId)
        && (o.doc.None? ==> |job.providerVariant| <= MAX_VARIANT)
        && doc.contextOk && (doc.elapsedMs.Some? ==> FitsInteger(doc.elapsedMs.value))
        && (o.failureClass.None? ==> doc.reasonOk)
        && (o.failureClass.None? && o.bundleId.None? ==> NulFree(doc.externalSourceId.GetOr("")))
        && (o.bundleId.Some? ==>
              && doc.resultOk && FitsInteger(doc.candidateCount.GetOr(0))
              && forall i :: 0 <= i < |doc.candidates| ==> NulFreeCandidate(doc.candidates[i]))
  {
  }

  /**
   * A thread row names the fetched Candidate exactly when no document vouches for another thread:
   * a backend-classified failure always does, retained evidence only if its document agrees, and a
   * native failure if its document agrees or names none.
   */
  lemma ThreadRowIdentity(o: Outcome, externalId: string, correlationId: string)
    requires WellFormed(o)
    ensures
      var row := ThreadOutcomeToRow(externalId, correlationId, o);
      row.Ok? && (row.value.externalSourceId == Some(externalId) <==>
        || o.failureClass.Some?
        || o.doc.value.externalSourceId == Some(externalId)
        || (o.bundleId.None? && o.doc.value.externalSourceId.GetOr("") == ""))
  {
  }

  // ----- from CLI result to row, written out -----

  /** The result carries a document of this version, status, shape and capability, read from disk. */
  predicate Trusted(result: CliResult, expected: string) {
    && !result.timedOut && result.source != DiskUnreadable && result.source != Unlocated
    && result.document.Some?
    && result.document.value.schemaVersion == 1
    && result.document.value.nativeStatus.Some?
    && result.document.value.shape.Some? && result.document.value.shape.value.capability == expected
  }

  /** The store has the declared artifact in a bundle that verifies and lists it alone. */
  predicate Retained(doc: Document, store: StoreReply) {
    doc.declaresRawArtifact && store.Finalized? && store.verifies && store.singleDescriptor
  }

  /** How an attempt ends: without a trusted document as its class says; with one, in a bundle exactly when
      the store retained its artifact, as a native failure exactly when there was none to retain and none
      was due, and otherwise as unreadable evidence that keeps the document. */
  lemma AttemptEnds(result: CliResult, expected: string, store: StoreReply)
    ensures
      var classified := Classify(result, expected);
      var ended := FinalizeEvidence(classified, store);
      if !Trusted(result, expected)
      then classified.failureClass.Some? && ended == Ok(Outcome(None, None, false, classified.failureClass))
      else
        var doc := result.document.value.shape.value.(status := result.document.value.nativeStatus.value);
        var due := doc.status == Success || doc.status == NoResults || doc.status == Incomplete;
        if doc.declaresRawArtifact && store == BundleNotFound then ended.Raised?
        else if Retained(doc, store) then ended == Ok(Outcome(Some(doc), Some(store.bundleId), true, None))
        else if !doc.declaresRawArtifact && !due then ended == Ok(Outcome(Some(doc), None, false, None))
        else ended == Ok(Outcome(Some(doc), None, false, Some(EvidenceUnreadable)))
  {
  }

  /** What both rows of an outcome say alike. */
  predicate Says(row: Observation, o: Outcome) {
    && row.failureClass == o.failureClass && row.bundleId == o.bundleId && row.evidenceDirectory == None
    && row.evidenceState == (if o.bundleId.Some? then Bundle else NoEvidence)
    && (if o.failureClass.Some? then row.status == Failed else o.doc.Some? && row.status == o.doc.value.status)
    && row.elapsedMs == (if o.doc.Some? then o.doc.value.elapsedMs else None)
    && row.requests == (if o.doc.Some? then o.doc.value.requests else None)
  }

  /** The thread that a document names, if it does. */
  function NamedBy(doc: Document): Option<string> {
    if doc.externalSourceId == Some("") then None else doc.externalSourceId
  }

  /** The rows of an outcome, field by field: only a bundled search lists Candidates, and a fetch is filed
      under the thread its retained or native document names, a failed one under the Candidate's. */
  lemma RowsSay(o: Outcome, queryId: string, job: JobTexts, externalId: string)
    requires WellFormed(o)
    ensures
      var row := OutcomeToRow(queryId, job, o).value;
      && Says(row, o) && row.queryId == queryId && row.capability == Discovery
      && row.candidates == (if o.bundleId.Some? then o.doc.value.candidates else [])
      && row.candidateCount ==
         (if o.bundleId.Some? && o.doc.value.candidateCount.Some? then o.doc.value.candidateCount.value else 0)
      && row.externalSourceId == (if o.bundleId.None? && o.failureClass.None? then NamedBy(o.doc.value) else None)
    ensures
      var row := ThreadOutcomeToRow(externalId, job.correlationId, o).value;
      && Says(row, o) && row.queryId == "thread_" + DigestHex(externalId) && row.capability == ThreadFetch
      && row.candidates == [] && row.candidateCount == 0
      && row.externalSourceId ==
         if o.failureClass.Some? then Some(externalId)
         else if o.bundleId.Some? then o.doc.value.externalSourceId
         else if NamedBy(o.doc.value).Some? then NamedBy(o.doc.value) else Some(externalId)
  {
  }

  /** When the builders raise, on any outcome at all; and what they fall back to without a class. */
  lemma BuildersRaiseExactly(o: Outcome, queryId: string, job: JobTexts, externalId: string)
    ensures
      var unlabelled := o.doc.Some? && o.bundleId.Some? && !o.hasRawMetadata;
      && (OutcomeToRow(queryId, job, o).Raised? <==>
            unlabelled || (o.failureClass.Some? && o.failureClass.value.OutOfVocabulary?))
      && (ThreadOutcomeToRow(externalId, job.correlationId, o).Raised? <==>
            unlabelled
            || (o.doc.Some? && o.bundleId.None? && o.failureClass.None?
                && (o.doc.value.status == Success || o.doc.value.status == NoResults || o.doc.value.status == Incomplete)))
    ensures o.doc.None? && o.failureClass.None? ==>
      && OutcomeToRow(queryId, job, o).value.failureClass == Some(TransportError)
      && ThreadOutcomeToRow(externalId, job.correlationId, o).value.failureClass == Some(TransportError)
  {
  }
}
