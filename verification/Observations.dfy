/** Append-only retrieval evidence: one row per (run, query), and the vocabularies its columns draw on. */
module Observations {
  import opened Options

  datatype Capability = Discovery | ThreadFetch

  /** The twelve native statuses of an observation document. */
  datatype ObservationStatus =
    | Success | NoResults | Incomplete | Blocked | RateLimited | AuthRequired | Forbidden
    | UpstreamUnavailable | ParseFailed | TransportFailed | RuntimeVerificationFailed | Failed

  const SUCCEEDED_STATUSES: set<ObservationStatus> := {Success, NoResults}
  const USABLE_STATUSES: set<ObservationStatus> := {Success, NoResults, Incomplete}
  const NATIVE_NO_EVIDENCE_STATUSES: set<ObservationStatus> :=
    {Blocked, RateLimited, AuthRequired, Forbidden, UpstreamUnavailable, ParseFailed,
     TransportFailed, RuntimeVerificationFailed, Failed}

  /** A classifier's verdict. Anything outside the nine persisted classes is OutOfVocabulary. */
  datatype FailureClass =
    | TransportError | TransportTimeout | EvidenceUnreadable | EvidenceUnlocated
    | UnknownObservationSchema | UnknownObservationStatus | ContractViolation
    | RuntimeGateFailed | WrapperError
    | OutOfVocabulary(text: string)

  datatype EvidenceState = Bundle | Legacy | NoEvidence

  /** One element of a row's JSON candidate list; a field is None when absent or not a string. */
  datatype RawCandidate =
    | NotAnObject
    | Candidate(externalSourceId: Option<string>, url: Option<string>)

  /** One row. textOk says whether the columns take the texts and JSON values that are not carried here:
      no U+0000, no number JSON lacks, nothing wider than its column. */
  datatype Observation = Observation(
    queryId: string,
    capability: Capability,
    status: ObservationStatus,
    failureClass: Option<FailureClass>,
    evidenceState: EvidenceState,
    bundleId: Option<string>,
    evidenceDirectory: Option<string>,
    externalSourceId: Option<string>,
    candidates: seq<RawCandidate>,
    candidateCount: int,
    elapsedMs: Option<int>,
    requests: Option<int>,
    textOk: bool)

  /** What PostgreSQL asks of any text, and of any string inside a JSON value. */
  predicate NulFree(s: string) {
    '\0' !in s
  }

  predicate NulFreeCandidate(c: RawCandidate) {
    c.Candidate? ==>
      && (c.externalSourceId.Some? ==> NulFree(c.externalSourceId.value))
      && (c.url.Some? ==> NulFree(c.url.value))
  }

  predicate FitsInteger(n: int) {
    -0x8000_0000 <= n < 0x8000_0000
  }

  const MAX_VARIANT := 200

  /** What the columns take: both counters are 32-bit integers, which documents do not bound, and no
      text holds U+0000. */
  predicate FitsColumns(o: Observation) {
    && FitsInteger(o.candidateCount)
    && (o.elapsedMs.Some? ==> FitsInteger(o.elapsedMs.value))
    && o.textOk
    && NulFree(o.queryId)
    && (o.externalSourceId.Some? ==> NulFree(o.externalSourceId.value))
    && forall i :: 0 <= i < |o.candidates| ==> NulFreeCandidate(o.candidates[i])
  }

  /** The database CHECK on how a row may refer to evidence. */
  predicate EvidenceReferenceOk(o: Observation) {
    match o.evidenceState
    case Bundle => o.bundleId.Some? && o.evidenceDirectory.None?
    case Legacy => o.bundleId.None? && o.evidenceDirectory.Some?
    case NoEvidence =>
      && o.bundleId.None?
      && o.evidenceDirectory.None?
      && ((o.status.Failed? && o.failureClass.Some?)
          || (o.failureClass.None? && o.status in NATIVE_NO_EVIDENCE_STATUSES))
  }

  /** The database CHECK on the failure taxonomy. */
  predicate FailureClassOk(o: Observation) {
    o.failureClass.Some? ==> !o.failureClass.value.OutOfVocabulary?
  }

  /** Absolute http(s) URL validation is a library call: any predicate on strings. */
  const IsHttpUrl: string -> bool

  /** Hex of the first sixteen bytes of a SHA-256: any function on strings. */
  const DigestHex: string -> string

  /** The only property of the digest that results rely on, and each says so. */
  ghost predicate CollisionFree() {
    forall a, b :: DigestHex(a) == DigestHex(b) ==> a == b
  }

  function ThreadQueryId(externalId: string): string {
    "thread_" + DigestHex(externalId)
  }

  lemma ThreadQueryIdInjective(a: string, b: string)
    requires CollisionFree() && ThreadQueryId(a) == ThreadQueryId(b)
    ensures a == b
  {
    var prefix := "thread_";
    assert ThreadQueryId(a)[|prefix|..] == DigestHex(a);
    assert ThreadQueryId(b)[|prefix|..] == DigestHex(b);
  }
}
