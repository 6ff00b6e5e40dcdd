/**
 * What the evidence stores really answer to an attempt: the reply that Attempts leaves open, computed
 * from the abstract store and from any history of the filesystem store.
 */
module AttemptEvidence {
  import opened Options
  import opened CanonicalJson
  import opened Manifests
  import opened ManifestIdentity
  import opened ManifestReading
  import opened Attempts
  import E = EvidenceStore
  import L = LocalStore
  import S = StoreCrashes

  /** The metadata check: exactly one artifact in the bundle's manifest. */
  predicate OneArtifact(manifest: Data) {
    && manifest.Dict? && "artifacts" in manifest.entries
    && manifest.entries["artifacts"].List? && |manifest.entries["artifacts"].elements| == 1
  }

  /** How finalizing the one declared artifact, and verifying the bundle it gave, looks to the attempt. */
  function ReplyOf(result: Result<E.Bundle, StoreError>, verifies: bool): StoreReply {
    match result
    case Ok(b) => StoreReply.Finalized(b.id, verifies, OneArtifact(b.manifest))
    case Raised(Invalid) => InvalidArtifact
    case Raised(LimitExceeded) => InvalidArtifact
    case Raised(IntegrityError) => StoreFailed
    case Raised(SystemError) => OsFailed
    case Raised(NotFound) => BundleNotFound
  }

  function InMemoryReply(store: E.Store, workspace: string, a: Artifact, limits: Limits): StoreReply {
    var (after, result) := E.Finalize(store, E.Request(workspace, [a]), limits);
    ReplyOf(result, result.Ok? && E.Verify(after, result.value, limits))
  }

  lemma MadeOfOne(workspace: string, a: Artifact, limits: Limits)
    requires Acceptable([a], limits)
    ensures OneArtifact(E.MakeBundle(workspace, Describing([a])).manifest)
  {
    hide ManifestText;
    ManifestEntries(Describing([a]));
    SortedDescriptors(Describing([a]));
  }

  /** A sound store accepts exactly an acceptable artifact, gives a bundle that verifies, and refuses any
      other as invalid: it never misses a bundle it was asked to finalize. */
  lemma SoundStoreAnswers(store: E.Store, workspace: string, a: Artifact, limits: Limits)
    requires E.Sound(store, limits)
    ensures
      var reply := InMemoryReply(store, workspace, a, limits);
      && (reply.Finalized? <==> Acceptable([a], limits))
      && (reply.Finalized? ==> reply.verifies)
      && (!reply.Finalized? ==> reply.InvalidArtifact?)
      && (Acceptable([a], limits) && E.NoCollisionWith(store, [a], limits) ==>
            reply == StoreReply.Finalized(E.MakeBundle(workspace, Describing([a])).id, true, true))
  {
    hide E.Sound, E.Verify, E.MakeBundle, E.Publish, Acceptable, OneArtifact, E.NoCollisionWith;
    E.FinalizeIsSound(store, E.Request(workspace, [a]), limits);
    PreparesTheAcceptable([a], limits);
    PreparationRefuses([a], limits);
    if Acceptable([a], limits) && E.NoCollisionWith(store, [a], limits) {
      E.FinalizedStaysReadable(store, E.Request(workspace, [a]), [], limits);
      MadeOfOne(workspace, a, limits);
    }
  }

  /** So with the in-memory store an attempt never raises, and always gives an outcome that becomes rows. */
  lemma AttemptNeverRaises(
      result: CliResult, expected: string, store: E.Store, workspace: string, a: Artifact, limits: Limits)
    requires E.Sound(store, limits)
    ensures
      var outcome := FinalizeEvidence(Classify(result, expected), InMemoryReply(store, workspace, a, limits));
      outcome.Ok? && Attempts.WellFormed(outcome.value)
  {
    hide Classify, InMemoryReply, E.Sound;
    SoundStoreAnswers(store, workspace, a, limits);
    AttemptIsWellFormed(result, expected, InMemoryReply(store, workspace, a, limits));
  }

  /**
   * With the filesystem store, over every history of any number of finalizers from the empty disk: an
   * attempt whose artifact one of them finalized never raises; it names a bundle exactly when it
   * consults the store and its finalizer succeeded, and that bundle verifies after any later history.
   */
  lemma LocalAttemptIsBacked(
      result: CliResult, expected: string, steps: seq<S.Step>, later: seq<S.Step>, f: nat, limits: Limits)
    requires S.Schedule(S.EMPTY, steps, limits) && S.Schedule(S.After(S.EMPTY, steps, limits), later, limits)
    requires f in S.After(S.EMPTY, steps, limits).finalizers
    requires
      var x := S.After(S.EMPTY, steps, limits).finalizers[f];
      x.Finished? && |x.request.artifacts| == 1
    ensures
      var x := S.After(S.EMPTY, steps, limits).finalizers[f];
      var published := S.After(S.After(S.EMPTY, steps, limits), later, limits).published;
      var reply := ReplyOf(x.result, x.result.Ok? && L.LocalVerify(published, x.result.value, limits));
      var outcome := FinalizeEvidence(Classify(result, expected), reply);
      && outcome.Ok? && Attempts.WellFormed(outcome.value)
      && (outcome.value.bundleId.Some? <==> ConsultsStore(result, expected) && x.result.Ok?)
      && (outcome.value.bundleId.Some? ==>
            && outcome.value.bundleId == Some(x.result.value.id)
            && L.LocalVerify(published, x.result.value, limits))
  {
    hide S.Schedule, S.After, L.LocalVerify, E.MakeBundle, Acceptable, OneArtifact;
    var x := S.After(S.EMPTY, steps, limits).finalizers[f];
    S.NeverNotFound(steps, f, limits);
    if x.result.Ok? {
      S.FinishedStaysReadable(steps, later, f, limits);
      assert x.request.artifacts == [x.request.artifacts[0]];
      MadeOfOne(x.request.workspace, x.request.artifacts[0], limits);
    }
  }

  /** Two valid bundles of one identity are equal unless their manifests collide, so no bundle row that
      came from a store ever conflicts with one that a settle brings. */
  lemma BundleRowsAgree(b: E.Bundle, c: E.Bundle, limits: Limits)
    requires E.ValidBundle(b, limits) && E.ValidBundle(c, limits) && E.KeyOf(b) == E.KeyOf(c)
    requires NoCollision({}, {E.TextOf(b, limits), E.TextOf(c, limits)})
    ensures b == c
  {
    hide ManifestText, E.MakeBundle, ValidDescriptors;
    var ds := ReadDescriptors(b.manifest, limits).value;
    OnlyCanonicalManifestsRead(b.manifest, limits);
    E.SameTextSameBundle(b, b.workspace, ds, limits);
    E.SameTextSameBundle(c, b.workspace, ds, limits);
  }
}
