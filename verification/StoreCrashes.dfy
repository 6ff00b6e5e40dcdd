/**
 * Concurrent finalizers of one filesystem store, interleaved step by step, any of which may stop at
 * any point and leave its staging directory in any condition.
 */
module StoreCrashes {
  import opened Options
  import opened CanonicalJson
  import opened Manifests
  import opened ManifestIdentity
  import opened ManifestReading
  import opened EvidenceStore
  import opened LocalStore

  datatype Finalizer =
    | Copying(request: Request, slot: nat, descriptors: seq<Descriptor>)
    | Staged(request: Request, slot: nat, descriptors: seq<Descriptor>)
    | Renaming(request: Request, slot: nat, descriptors: seq<Descriptor>)
    | Cleaning(request: Request, slot: nat, result: Result<Bundle, StoreError>)
    | Finished(request: Request, result: Result<Bundle, StoreError>)
    | Dead

  /** Published directories, staging directories by their unique temporary name, and finalizers. */
  datatype Disk = Disk(published: Published, staging: map<nat, Dir>, finalizers: map<nat, Finalizer>)

  /** How the system reports a rename onto a directory that is there: POSIX allows both. */
  datatype Errno = AlreadyExists | NotEmpty

  datatype Step =
    | Begin(f: nat, request: Request, slot: nat)
    | Advance(f: nat, errno: Errno)
    | Stop(f: nat, left: Dir)

  predicate Live(x: Finalizer) {
    !x.Finished? && !x.Dead?
  }

  predicate Enabled(d: Disk, step: Step) {
    match step
    case Begin(f, _, slot) => f !in d.finalizers && slot !in d.staging
    case Advance(f, _) => f in d.finalizers && Live(d.finalizers[f]) && d.finalizers[f].slot in d.staging
    case Stop(f, _) => f in d.finalizers && Live(d.finalizers[f])
  }

  function BundleFor(x: Finalizer): Bundle
    requires x.Staged? || x.Renaming?
  {
    MakeBundle(x.request.workspace, x.descriptors)
  }

  /** The next operation of one finalizer: the disk after it, and the finalizer's new phase. */
  function Continue(d: Disk, x: Finalizer, errno: Errno, limits: Limits): (Disk, Finalizer)
    requires Live(x) && x.slot in d.staging
  {
    var dir := d.staging[x.slot];
    match x
    case Copying(request, slot, ds) =>
      if |ds| < |request.artifacts| then
        match Copy(dir, request.artifacts[|ds|], limits, TotalBytes(ds))
        case Raised(e) => (d, Cleaning(request, slot, Raised(e)))
        case Ok(copied) => (d.(staging := d.staging[slot := copied.1]), Copying(request, slot, ds + [copied.0]))
      else if Utf8Length(ManifestText(ds)) > limits.maxManifestBytes then
        (d, Cleaning(request, slot, Raised(LimitExceeded)))
      else
        (d.(staging := d.staging[slot := dir.(manifest := Some(ManifestText(ds)))]), Staged(request, slot, ds))
    case Staged(request, slot, ds) =>
      if KeyOf(BundleFor(x)) in d.published
      then (d, Cleaning(request, slot, LoadExisting(d.published, BundleFor(x), limits)))
      else (d, Renaming(request, slot, ds))
    case Renaming(request, slot, ds) =>
      var b := BundleFor(x);
      if KeyOf(b) !in d.published then
        (d.(published := d.published[KeyOf(b) := dir], staging := d.staging - {slot}), Finished(request, Ok(b)))
      else if errno.AlreadyExists? then (d, Cleaning(request, slot, LoadExisting(d.published, b, limits)))
      else (d, Cleaning(request, slot, Raised(SystemError)))
    case Cleaning(request, slot, result) => (d.(staging := d.staging - {slot}), Finished(request, result))
  }

  function Apply(d: Disk, step: Step, limits: Limits): Disk
    requires Enabled(d, step)
  {
    match step
    case Begin(f, request, slot) =>
      var fault := ValidateInputs(request.artifacts, limits);
      if fault.Some? then d.(finalizers := d.finalizers[f := Finished(request, Raised(fault.value))])
      else d.(staging := d.staging[slot := Dir(None, map[])], finalizers := d.finalizers[f := Copying(request, slot, [])])
    case Advance(f, errno) =>
      var (after, x) := Continue(d, d.finalizers[f], errno, limits);
      after.(finalizers := d.finalizers[f := x])
    case Stop(f, left) =>
      d.(staging := d.staging[d.finalizers[f].slot := left], finalizers := d.finalizers[f := Dead])
  }

  // ----- the invariant -----

  /** Everything a finalizer's own directory and phase must say. */
  ghost predicate PhaseOk(x: Finalizer, dir: Dir, limits: Limits) {
    match x
    case Copying(request, _, ds) =>
      && ValidateInputs(request.artifacts, limits).None? && |ds| <= |request.artifacts|
      && ReadSources(request.artifacts[..|ds|], limits, 0) == Ok(ds)
      && AllSourced(request.artifacts[..|ds|]) && PrefixFree(request.artifacts[..|ds|])
      && dir == Dir(None, ContentsOf(request.artifacts[..|ds|]))
    case Staged(request, _, ds) => ReadyToPublish(request, ds, dir, limits)
    case Renaming(request, _, ds) => ReadyToPublish(request, ds, dir, limits)
    case _ => true
  }

  ghost predicate ReadyToPublish(request: Request, ds: seq<Descriptor>, dir: Dir, limits: Limits) {
    && Acceptable(request.artifacts, limits) && ds == Describing(request.artifacts)
    && PrefixFree(request.artifacts)
    && dir == Dir(Some(ManifestText(ds)), ContentsOf(request.artifacts))
  }

  /** A decided outcome: the request's own bundle, held and verifying, or an error with a cause. That is
      never BundleNotFound. */
  ghost predicate OutcomeOk(published: Published, request: Request, result: Result<Bundle, StoreError>, limits: Limits) {
    match result
    case Ok(b) =>
      && Acceptable(request.artifacts, limits)
      && b == MakeBundle(request.workspace, Describing(request.artifacts))
      && LocalVerify(published, b, limits)
    case Raised(e) =>
      && !e.NotFound?
      && (|| !Acceptable(request.artifacts, limits)
          || !PrefixFree(request.artifacts)
          || (var b := MakeBundle(request.workspace, Describing(request.artifacts));
              KeyOf(b) in published && (e.SystemError? || (e.IntegrityError? && !LocalVerify(published, b, limits)))))
  }

  ghost predicate OutcomesOk(d: Disk, limits: Limits) {
    forall f :: f in d.finalizers && (d.finalizers[f].Finished? || d.finalizers[f].Cleaning?) ==>
      OutcomeOk(d.published, d.finalizers[f].request, d.finalizers[f].result, limits)
  }

  ghost predicate SlotsOk(d: Disk) {
    && (forall f :: f in d.finalizers && Live(d.finalizers[f]) ==> d.finalizers[f].slot in d.staging)
    && forall f, g :: (
         f in d.finalizers && g in d.finalizers && f != g && Live(d.finalizers[f]) && Live(d.finalizers[g])
         ==> d.finalizers[f].slot != d.finalizers[g].slot)
  }

  ghost predicate PhasesOk(d: Disk, limits: Limits)
    requires SlotsOk(d)
  {
    forall f :: f in d.finalizers && Live(d.finalizers[f]) ==>
      PhaseOk(d.finalizers[f], d.staging[d.finalizers[f].slot], limits)
  }

  ghost predicate Sane(d: Disk, limits: Limits) {
    AllWhole(d.published, limits) && SlotsOk(d) && PhasesOk(d, limits) && OutcomesOk(d, limits)
  }

  ghost predicate Keeps(before: Published, after: Published) {
    forall k :: k in before ==> k in after && after[k] == before[k]
  }

  // ----- one step -----

  lemma OutcomesPersist(d: Disk, t: Disk, f: nat, limits: Limits)
    requires OutcomesOk(d, limits) && Keeps(d.published, t.published)
    requires f in t.finalizers && t.finalizers == d.finalizers[f := t.finalizers[f]]
    requires (t.finalizers[f].Finished? || t.finalizers[f].Cleaning?) ==>
      OutcomeOk(t.published, t.finalizers[f].request, t.finalizers[f].result, limits)
    ensures OutcomesOk(t, limits)
  {
    hide OutcomeOk;
    forall g | g in t.finalizers && g != f && (t.finalizers[g].Finished? || t.finalizers[g].Cleaning?)
      ensures OutcomeOk(t.published, t.finalizers[g].request, t.finalizers[g].result, limits)
    {
      OutcomeStands(d.published, t.published, d.finalizers[g].request, d.finalizers[g].result, limits);
    }
  }

  lemma OutcomeStands(before: Published, after: Published, request: Request, result: Result<Bundle, StoreError>, limits: Limits)
    requires OutcomeOk(before, request, result, limits) && Keeps(before, after)
    ensures OutcomeOk(after, request, result, limits)
  {
    hide Acceptable, PrefixFree, MakeBundle, ValidBundle, VerifyBytes, Decode, Meaning;
  }

  /** Only f's own slot changes, so every other finalizer finds its directory as it left it. */
  lemma PhasesPersist(d: Disk, t: Disk, f: nat, slot: nat, limits: Limits)
    requires SlotsOk(d) && PhasesOk(d, limits)
    requires f in t.finalizers && t.finalizers == d.finalizers[f := t.finalizers[f]]
    requires forall s :: s != slot && s in d.staging ==> s in t.staging && t.staging[s] == d.staging[s]
    requires forall g :: g in d.finalizers && g != f && Live(d.finalizers[g]) ==> d.finalizers[g].slot != slot
    requires Live(t.finalizers[f]) ==>
      t.finalizers[f].slot == slot && slot in t.staging && PhaseOk(t.finalizers[f], t.staging[slot], limits)
    ensures SlotsOk(t) && PhasesOk(t, limits)
  {
  }

  /** What one operation of a finalizer may do to everyone else, and must do for itself. */
  ghost predicate GoodMove(d: Disk, slot: nat, after: Disk, x: Finalizer, limits: Limits) {
    && AllWhole(after.published, limits) && Keeps(d.published, after.published)
    && after.finalizers == d.finalizers
    && (forall s :: s != slot && s in d.staging ==> s in after.staging && after.staging[s] == d.staging[s])
    && (Live(x) ==> x.slot == slot && slot in after.staging && PhaseOk(x, after.staging[slot], limits))
    && (x.Finished? || x.Cleaning? ==> OutcomeOk(after.published, x.request, x.result, limits))
  }

  lemma CopyExtends(artifacts: seq<Artifact>, i: nat, limits: Limits, total: nat)
    requires i < |artifacts| && AllSourced(artifacts[..i])
    ensures
      var files := ContentsOf(artifacts[..i]);
      var copied := Copy(Dir(None, files), artifacts[i], limits, total);
      && (copied.Ok? ==>
            && ReadSource(artifacts[i], limits, total) == Ok(copied.value.0) && !Blocked(files, artifacts[i].name)
            && AllSourced(artifacts[..i + 1]) && copied.value.1 == Dir(None, ContentsOf(artifacts[..i + 1])))
      && (copied.Raised? ==>
            !copied.error.NotFound? && (ReadSource(artifacts[i], limits, total).Raised? || Blocked(files, artifacts[i].name)))
  {
    hide Blocked, Describe;
    assert artifacts[..i + 1][..i] == artifacts[..i];
  }

  lemma CopyIsGood(d: Disk, x: Finalizer, errno: Errno, limits: Limits)
    requires AllWhole(d.published, limits)
    requires x.Copying? && x.slot in d.staging && PhaseOk(x, d.staging[x.slot], limits)
    requires |x.descriptors| < |x.request.artifacts|
    ensures
      var (after, y) := Continue(d, x, errno, limits);
      GoodMove(d, x.slot, after, y, limits)
  {
    hide AllWhole, Copy, Blocked, Acceptable, MakeBundle, ReadSource, ReadSources, ManifestText, TotalBytes, ContentsOf, PrefixFree;
    var artifacts, i := x.request.artifacts, |x.descriptors|;
    CopyExtends(artifacts, i, limits, TotalBytes(x.descriptors));
    ReadDescribes(artifacts[..i], limits, 0);
    ReadSourcesAppend(artifacts, i, limits);
    PrefixFreeStep(artifacts, i);
    ReadFailsWith(artifacts, i, limits);
    PreparesTheAcceptable(artifacts, limits);
  }

  lemma {:induction false} ReadDescribes(artifacts: seq<Artifact>, limits: Limits, total: nat)
    requires ReadSources(artifacts, limits, total).Ok?
    ensures |ReadSources(artifacts, limits, total).value| == |artifacts|
  {
    if artifacts != [] {
      ReadDescribes(artifacts[1..], limits, total + ReadSource(artifacts[0], limits, total).value.byteLength);
    }
  }

  lemma ManifestIsGood(d: Disk, x: Finalizer, errno: Errno, limits: Limits)
    requires AllWhole(d.published, limits)
    requires x.Copying? && x.slot in d.staging && PhaseOk(x, d.staging[x.slot], limits)
    requires |x.descriptors| == |x.request.artifacts|
    ensures
      var (after, y) := Continue(d, x, errno, limits);
      GoodMove(d, x.slot, after, y, limits)
  {
    hide AllWhole, Acceptable, MakeBundle, PrefixFree, ManifestText;
    var artifacts := x.request.artifacts;
    assert artifacts[..|x.descriptors|] == artifacts;
    PreparesTheAcceptable(artifacts, limits);
  }

  lemma PublishIsGood(d: Disk, x: Finalizer, errno: Errno, limits: Limits)
    requires AllWhole(d.published, limits)
    requires (x.Staged? || x.Renaming?) && x.slot in d.staging && PhaseOk(x, d.staging[x.slot], limits)
    ensures
      var (after, y) := Continue(d, x, errno, limits);
      GoodMove(d, x.slot, after, y, limits)
  {
    hide AllWhole, ValidDescriptors, MakeBundle, PrefixFree, ManifestText, LoadExisting, LocalVerify, WholeDir, EntryOf;
    hide ContentsOf;
    var request, b, dir := x.request, BundleFor(x), d.staging[x.slot];
    if KeyOf(b) in d.published {
      LoadsItOrFails(d.published, b, limits);
    } else {
      RenamedIsHeld(d.published, request, limits);
    }
  }

  lemma LoadsItOrFails(published: Published, b: Bundle, limits: Limits)
    requires AllWhole(published, limits) && KeyOf(b) in published
    ensures LoadExisting(published, b, limits) ==
      if LocalVerify(published, b, limits) then Ok(b) else Raised(IntegrityError)
  {
    hide LocalVerify, Holds, LoadExisting, WholeDir;
    LoadsWhatIsHeld(published, b, limits);
    HeldIsVerified(published, b, limits);
  }

  /** The rename publishes a complete directory that holds the request's bundle. */
  lemma RenamedIsHeld(published: Published, request: Request, limits: Limits)
    requires AllWhole(published, limits) && Acceptable(request.artifacts, limits)
    requires KeyOf(MakeBundle(request.workspace, Describing(request.artifacts))) !in published
    ensures
      var b := MakeBundle(request.workspace, Describing(request.artifacts));
      var dir := Dir(Some(ManifestText(Describing(request.artifacts))), ContentsOf(request.artifacts));
      AllWhole(published[KeyOf(b) := dir], limits) && LocalVerify(published[KeyOf(b) := dir], b, limits)
  {
    hide ValidDescriptors, MakeBundle, ManifestText, LocalVerify, EntryOf, WholeDir, ContentsOf;
    var b := MakeBundle(request.workspace, Describing(request.artifacts));
    var dir := Dir(Some(ManifestText(Describing(request.artifacts))), ContentsOf(request.artifacts));
    var after := published[KeyOf(b) := dir];
    StagedIsWhole(request.workspace, request.artifacts, limits);
    PublishingKeepsWhole(published, after, KeyOf(b), dir, limits);
    AbstractAt(after, KeyOf(b), limits);
    HeldIsVerified(after, b, limits);
  }

  lemma ContinueIsGood(d: Disk, f: nat, errno: Errno, limits: Limits)
    requires Sane(d, limits)
    requires f in d.finalizers && Live(d.finalizers[f])
    ensures
      var (after, y) := Continue(d, d.finalizers[f], errno, limits);
      GoodMove(d, d.finalizers[f].slot, after, y, limits)
  {
    hide AllWhole, Acceptable, PrefixFree, LoadExisting, Copy, ManifestText, ReadSources, OutcomeOk;
    var x := d.finalizers[f];
    match x
    case Copying(request, _, ds) =>
      assert PhaseOk(x, d.staging[x.slot], limits);
      if |ds| < |request.artifacts| {
        CopyIsGood(d, x, errno, limits);
      } else {
        ManifestIsGood(d, x, errno, limits);
      }
    case Cleaning(_, _, _) =>
    case _ => PublishIsGood(d, x, errno, limits);
  }

  /** Every digest-named directory stays complete and unchanged through any single step. */
  lemma StepIsSafe(d: Disk, step: Step, limits: Limits)
    requires Sane(d, limits) && Enabled(d, step)
    ensures Sane(Apply(d, step, limits), limits) && Keeps(d.published, Apply(d, step, limits).published)
  {
    hide AllWhole, Acceptable, PrefixFree, Continue, MakeBundle;
    var t := Apply(d, step, limits);
    match step
    case Begin(f, request, slot) =>
      PreparesTheAcceptable(request.artifacts, limits);
      PreparationRefuses(request.artifacts, limits);
      BeginPhase(request, slot, limits);
      OutcomesPersist(d, t, f, limits);
      PhasesPersist(d, t, f, slot, limits);
    case Advance(f, errno) =>
      var slot := d.finalizers[f].slot;
      ContinueIsGood(d, f, errno, limits);
      OutcomesPersist(d, t, f, limits);
      PhasesPersist(d, t, f, slot, limits);
    case Stop(f, left) =>
      OutcomesPersist(d, t, f, limits);
      PhasesPersist(d, t, f, d.finalizers[f].slot, limits);
  }

  lemma BeginPhase(request: Request, slot: nat, limits: Limits)
    ensures ValidateInputs(request.artifacts, limits).None? ==>
      PhaseOk(Copying(request, slot, []), Dir(None, map[]), limits)
  {
  }

  // ----- every history -----

  ghost predicate Schedule(d: Disk, steps: seq<Step>, limits: Limits)
    decreases |steps|
  {
    steps != [] ==> Enabled(d, steps[0]) && Schedule(Apply(d, steps[0], limits), steps[1..], limits)
  }

  ghost function After(d: Disk, steps: seq<Step>, limits: Limits): Disk
    requires Schedule(d, steps, limits)
    decreases |steps|
  {
    if steps == [] then d else After(Apply(d, steps[0], limits), steps[1..], limits)
  }

  /** Whatever finalizers run, interleave and stop: a published directory is complete and never changes. */
  lemma {:induction false} EveryHistoryIsSafe(d: Disk, steps: seq<Step>, limits: Limits)
    requires Sane(d, limits) && Schedule(d, steps, limits)
    ensures Sane(After(d, steps, limits), limits) && Keeps(d.published, After(d, steps, limits).published)
    decreases |steps|
  {
    hide Sane, Apply, Enabled;
    if steps != [] {
      StepIsSafe(d, steps[0], limits);
      EveryHistoryIsSafe(Apply(d, steps[0], limits), steps[1..], limits);
    }
  }

  const EMPTY := Disk(map[], map[], map[])

  lemma EmptyIsSane(limits: Limits)
    ensures Sane(EMPTY, limits)
  {
  }

  // ----- what finalizers returned -----

  /** The bytes of published artifacts. */
  ghost function PublishedBytes(published: Published): set<Bytes> {
    set k, name | k in published && name in published[k].files :: published[k].files[name]
  }

  /** From the empty disk through any steps: a finalizer that returned a bundle returned the request's own,
      which verifies then and after any later steps; and it opens to the request's bytes unless one of
      them shares its digest with some other published bytes. */
  lemma FinishedStaysReadable(steps: seq<Step>, later: seq<Step>, f: nat, limits: Limits)
    requires Schedule(EMPTY, steps, limits) && Schedule(After(EMPTY, steps, limits), later, limits)
    requires f in After(EMPTY, steps, limits).finalizers
    requires
      var x := After(EMPTY, steps, limits).finalizers[f];
      x.Finished? && x.result.Ok?
    ensures
      var d := After(EMPTY, steps, limits);
      var request, b := d.finalizers[f].request, d.finalizers[f].result.value;
      var published := After(d, later, limits).published;
      && Acceptable(request.artifacts, limits) && b == MakeBundle(request.workspace, Describing(request.artifacts))
      && LocalVerify(published, b, limits)
      && (NoCollision(PublishedBytes(published) + BytesOf(request.artifacts), {}) ==>
            forall i :: 0 <= i < |request.artifacts| ==>
              LocalOpen(published, b, request.artifacts[i].name, limits) == Ok(request.artifacts[i].source.value))
  {
    hide Acceptable, MakeBundle, LocalVerify, LocalOpen, NoCollision, Schedule, PrefixFree;
    var d := After(EMPTY, steps, limits);
    EmptyIsSane(limits);
    EveryHistoryIsSafe(EMPTY, steps, limits);
    EveryHistoryIsSafe(d, later, limits);
    var request, result := d.finalizers[f].request, d.finalizers[f].result;
    assert OutcomeOk(d.published, request, result, limits);
    OutcomeStands(d.published, After(d, later, limits).published, request, result, limits);
    if NoCollision(PublishedBytes(After(d, later, limits).published) + BytesOf(request.artifacts), {}) {
      VerifiedOpens(After(d, later, limits).published, request, limits);
    }
  }

  /** A verifying bundle of a request holds the request's bytes where digests do not collide. */
  lemma VerifiedOpens(published: Published, request: Request, limits: Limits)
    requires AllWhole(published, limits) && Acceptable(request.artifacts, limits)
    requires LocalVerify(published, MakeBundle(request.workspace, Describing(request.artifacts)), limits)
    requires NoCollision(PublishedBytes(published) + BytesOf(request.artifacts), {})
    ensures forall i :: 0 <= i < |request.artifacts| ==>
      LocalOpen(published, MakeBundle(request.workspace, Describing(request.artifacts)), request.artifacts[i].name, limits)
        == Ok(request.artifacts[i].source.value)
  {
    hide LocalVerify, LocalOpen, Open, Verify, MakeBundle, WholeDir, EntryOf, ValidDescriptors, NoCollision;
    var b, artifacts, store := MakeBundle(request.workspace, Describing(request.artifacts)), request.artifacts, Abstract(published, limits);
    AbstractIsSound(published, limits);
    HeldIsVerified(published, b, limits);
    FilesAreContents(published, KeyOf(b), limits);
    HeldFilesAreSources(published, request, limits);
    OpensToTheBytes(store, b, artifacts, limits);
    forall i | 0 <= i < |artifacts|
      ensures LocalOpen(published, b, artifacts[i].name, limits) == Ok(artifacts[i].source.value)
    {
      OpenAgrees(published, b, artifacts[i].name, limits);
    }
  }

  lemma HeldFilesAreSources(published: Published, request: Request, limits: Limits)
    requires Acceptable(request.artifacts, limits)
    requires LocalVerify(published, MakeBundle(request.workspace, Describing(request.artifacts)), limits)
    requires NoCollision(PublishedBytes(published) + BytesOf(request.artifacts), {})
    ensures
      var k := KeyOf(MakeBundle(request.workspace, Describing(request.artifacts)));
      k in published && published[k].files == ContentsOf(request.artifacts)
  {
    hide ValidDescriptors, ManifestText;
    var ds, b := Describing(request.artifacts), MakeBundle(request.workspace, Describing(request.artifacts));
    var files := published[KeyOf(b)].files;
    MadeBundleIsValid(request.workspace, ds, limits);
    SourcesMatch(request.artifacts, limits);
    BytesAreListed(request.artifacts);
    forall n | n in files ensures files[n] in PublishedBytes(published) {
    }
    MatchingContentsAgree(SortByName(ds), files, ContentsOf(request.artifacts));
  }

  /** From the empty disk through any steps: an acceptable request without colliding names fails only by
      losing the rename race, or because the directory under its identity holds another manifest. */
  lemma FailuresHaveCauses(steps: seq<Step>, f: nat, limits: Limits)
    requires Schedule(EMPTY, steps, limits) && f in After(EMPTY, steps, limits).finalizers
    requires
      var x := After(EMPTY, steps, limits).finalizers[f];
      x.Finished? && x.result.Raised? && Acceptable(x.request.artifacts, limits) && PrefixFree(x.request.artifacts)
    ensures
      var d := After(EMPTY, steps, limits);
      var x := d.finalizers[f];
      var b := MakeBundle(x.request.workspace, Describing(x.request.artifacts));
      && KeyOf(b) in d.published
      && (x.result.error.SystemError? || (x.result.error.IntegrityError? && !LocalVerify(d.published, b, limits)))
  {
    hide ValidDescriptors, MakeBundle, LocalVerify, Schedule, PrefixFree;
    EmptyIsSane(limits);
    EveryHistoryIsSafe(EMPTY, steps, limits);
    var d := After(EMPTY, steps, limits);
    assert OutcomeOk(d.published, d.finalizers[f].request, d.finalizers[f].result, limits);
  }

  /** From the empty disk no finalizer ever raises BundleNotFound. */
  lemma NeverNotFound(steps: seq<Step>, f: nat, limits: Limits)
    requires Schedule(EMPTY, steps, limits) && f in After(EMPTY, steps, limits).finalizers
    requires After(EMPTY, steps, limits).finalizers[f].Finished?
    ensures After(EMPTY, steps, limits).finalizers[f].result != Raised(NotFound)
  {
    hide Acceptable, MakeBundle, LocalVerify, Schedule, PrefixFree;
    EmptyIsSane(limits);
    EveryHistoryIsSafe(EMPTY, steps, limits);
    var d := After(EMPTY, steps, limits);
    assert OutcomeOk(d.published, d.finalizers[f].request, d.finalizers[f].result, limits);
  }

  /** Two finalizers of one bundle that both saw no destination: the first rename wins, and the second
      gets the bundle exactly when its rename fails as 'already exists'. */
  lemma SecondRename(d: Disk, f: nat, g: nat, errno: Errno, limits: Limits)
    requires Sane(d, limits)
    requires f != g && f in d.finalizers && g in d.finalizers
    requires d.finalizers[f].Renaming? && d.finalizers[g].Renaming?
    requires d.finalizers[f].request == d.finalizers[g].request
    requires KeyOf(BundleFor(d.finalizers[f])) !in d.published
    ensures
      var b := BundleFor(d.finalizers[f]);
      var t := Apply(d, Advance(f, errno), limits);
      && t.finalizers[f] == Finished(d.finalizers[f].request, Ok(b))
      && t.finalizers[g] == d.finalizers[g] && Enabled(t, Advance(g, errno))
      && var u := Apply(t, Advance(g, errno), limits).finalizers[g];
         u.Cleaning? && u.result == if errno.AlreadyExists? then Ok(b) else Raised(SystemError)
  {
    hide ValidDescriptors, PrefixFree, MakeBundle, LoadExisting, AllWhole, LocalVerify;
    var x, y := d.finalizers[f], d.finalizers[g];
    var t := Apply(d, Advance(f, errno), limits);
    assert PhaseOk(x, d.staging[x.slot], limits) && PhaseOk(y, d.staging[y.slot], limits);
    StepIsSafe(d, Advance(f, errno), limits);
    RenamedIsHeld(d.published, x.request, limits);
    LoadsItOrFails(t.published, BundleFor(y), limits);
  }

  // ----- an undisturbed finalizer gets through, and two can race -----

  lemma CopiesNext(d: Disk, f: nat, errno: Errno, limits: Limits)
    requires SlotsOk(d) && PhasesOk(d, limits) && f in d.finalizers && d.finalizers[f].Copying?
    requires
      var x := d.finalizers[f];
      Acceptable(x.request.artifacts, limits) && PrefixFree(x.request.artifacts) && |x.descriptors| < |x.request.artifacts|
    ensures
      var x, t := d.finalizers[f], Apply(d, Advance(f, errno), limits);
      && t.published == d.published && t.staging.Keys == d.staging.Keys
      && t.finalizers == d.finalizers[f := t.finalizers[f]]
      && t.finalizers[f].Copying? && t.finalizers[f].request == x.request && t.finalizers[f].slot == x.slot
      && |t.finalizers[f].descriptors| == |x.descriptors| + 1
  {
    hide Copy, Blocked, ValidDescriptors, ReadSource, ReadSources, ManifestText, TotalBytes, ContentsOf, PrefixFree, Prepare;
    var x := d.finalizers[f];
    assert PhaseOk(x, d.staging[x.slot], limits);
    var artifacts, i := x.request.artifacts, |x.descriptors|;
    CopyExtends(artifacts, i, limits, TotalBytes(x.descriptors));
    ReadSourcesAppend(artifacts, i, limits);
    PrefixFreeStep(artifacts, i);
    ReadFailsWith(artifacts, i, limits);
    SourcesRead(artifacts, limits, 0);
    AcceptableIsReadable(artifacts, limits);
  }

  lemma AcceptableIsReadable(artifacts: seq<Artifact>, limits: Limits)
    requires Acceptable(artifacts, limits)
    ensures ReadSources(artifacts, limits, 0).Ok?
  {
    hide ValidDescriptors;
    PreparesTheAcceptable(artifacts, limits);
  }

  lemma StagesManifest(d: Disk, f: nat, errno: Errno, limits: Limits)
    requires SlotsOk(d) && PhasesOk(d, limits) && f in d.finalizers && d.finalizers[f].Copying?
    requires
      var x := d.finalizers[f];
      Acceptable(x.request.artifacts, limits) && |x.descriptors| == |x.request.artifacts|
    ensures
      var x, t := d.finalizers[f], Apply(d, Advance(f, errno), limits);
      && t.published == d.published && t.staging.Keys == d.staging.Keys
      && t.finalizers == d.finalizers[f := Staged(x.request, x.slot, Describing(x.request.artifacts))]
  {
    hide ValidDescriptors, PrefixFree, Copy, MakeBundle, ReadSources, ManifestText, ContentsOf;
    var x := d.finalizers[f];
    assert PhaseOk(x, d.staging[x.slot], limits);
    assert x.request.artifacts[..|x.descriptors|] == x.request.artifacts;
    PreparesTheAcceptable(x.request.artifacts, limits);
  }

  /** Only this finalizer moves, and the filesystem has one way of refusing a rename. */
  predicate Alone(steps: seq<Step>, f: nat, request: Request, slot: nat, errno: Errno) {
    forall step :: step in steps ==> step == Begin(f, request, slot) || step == Advance(f, errno)
  }

  /** Left alone, a finalizer of an acceptable request stages everything. */
  lemma {:induction false} CopiesThrough(d: Disk, f: nat, errno: Errno, limits: Limits) returns (steps: seq<Step>)
    requires Sane(d, limits) && f in d.finalizers && d.finalizers[f].Copying?
    requires
      var x := d.finalizers[f];
      Acceptable(x.request.artifacts, limits) && PrefixFree(x.request.artifacts)
    ensures Schedule(d, steps, limits)
    ensures
      var x, t := d.finalizers[f], After(d, steps, limits);
      && Alone(steps, f, x.request, x.slot, errno)
      && t.published == d.published && t.staging.Keys == d.staging.Keys
      && t.finalizers == d.finalizers[f := Staged(x.request, x.slot, Describing(x.request.artifacts))]
    decreases |d.finalizers[f].request.artifacts| - |d.finalizers[f].descriptors|
  {
    hide AllWhole, ValidDescriptors, PrefixFree, Continue, MakeBundle, ReadSources, ManifestText, ContentsOf, OutcomesOk;
    var x, step := d.finalizers[f], Advance(f, errno);
    assert PhaseOk(x, d.staging[x.slot], limits);
    var t := Apply(d, step, limits);
    StepIsSafe(d, step, limits);
    if |x.descriptors| < |x.request.artifacts| {
      CopiesNext(d, f, errno, limits);
      var rest := CopiesThrough(t, f, errno, limits);
      steps := [step] + rest;
      assert steps[1..] == rest;
    } else {
      StagesManifest(d, f, errno, limits);
      steps := [step];
      assert steps[1..] == [] && Schedule(t, [], limits);
    }
  }

  /** On any sane disk an acceptable request can be staged whole, by its own finalizer's steps. */
  lemma StagesThrough(d: Disk, f: nat, request: Request, slot: nat, errno: Errno, limits: Limits)
    returns (steps: seq<Step>)
    requires Sane(d, limits) && f !in d.finalizers && slot !in d.staging
    requires Acceptable(request.artifacts, limits) && PrefixFree(request.artifacts)
    ensures Schedule(d, steps, limits) && Alone(steps, f, request, slot, errno)
    ensures
      var t := After(d, steps, limits);
      && t.published == d.published && t.staging.Keys == d.staging.Keys + {slot}
      && t.finalizers == d.finalizers[f := Staged(request, slot, Describing(request.artifacts))]
  {
    hide Sane, ValidDescriptors, PrefixFree, MakeBundle, Apply;
    var begin := Begin(f, request, slot);
    BeginsCopying(d, f, request, slot, limits);
    StepIsSafe(d, begin, limits);
    var rest := CopiesThrough(Apply(d, begin, limits), f, errno, limits);
    steps := [begin] + rest;
    assert steps[1..] == rest;
  }

  lemma ThenAdvances(d: Disk, steps: seq<Step>, f: nat, request: Request, slot: nat, errno: Errno, limits: Limits)
    requires Schedule(d, steps, limits) && Alone(steps, f, request, slot, errno)
    requires Enabled(After(d, steps, limits), Advance(f, errno))
    ensures
      var more := steps + [Advance(f, errno)];
      && Schedule(d, more, limits) && Alone(more, f, request, slot, errno)
      && After(d, more, limits) == Apply(After(d, steps, limits), Advance(f, errno), limits)
  {
    hide Apply, Enabled;
    var t, step := After(d, steps, limits), Advance(f, errno);
    assert [step][1..] == [] && Schedule(Apply(t, step, limits), [], limits);
    assert Schedule(t, [step], limits) && After(t, [step], limits) == Apply(t, step, limits);
    SchedulesCompose(d, steps, [step], limits);
  }

  /** On any sane disk where its bundle is not published, an acceptable request can get to its rename, and
      one step later it has its bundle. */
  lemma FinalizerGetsThrough(d: Disk, f: nat, request: Request, slot: nat, errno: Errno, limits: Limits)
    returns (steps: seq<Step>)
    requires Sane(d, limits) && f !in d.finalizers && slot !in d.staging
    requires Acceptable(request.artifacts, limits) && PrefixFree(request.artifacts)
    requires KeyOf(MakeBundle(request.workspace, Describing(request.artifacts))) !in d.published
    ensures Schedule(d, steps, limits) && Alone(steps, f, request, slot, errno)
    ensures
      var t := After(d, steps, limits);
      var b := MakeBundle(request.workspace, Describing(request.artifacts));
      && t.published == d.published && t.staging.Keys == d.staging.Keys + {slot}
      && t.finalizers == d.finalizers[f := Renaming(request, slot, Describing(request.artifacts))]
      && Enabled(t, Advance(f, errno))
      && var u := Apply(t, Advance(f, errno), limits).finalizers;
         f in u && u[f] == Finished(request, Ok(b))
  {
    hide Sane, ValidDescriptors, PrefixFree, MakeBundle, Schedule, Alone;
    steps := StagesThrough(d, f, request, slot, errno, limits);
    ThenAdvances(d, steps, f, request, slot, errno, limits);
    steps := steps + [Advance(f, errno)];
    RenamesFirst(After(d, steps, limits), f, errno, limits);
  }

  /** Where its identity is already published, it never comes to a rename: whatever a rename there would
      raise, it has its bundle exactly when that is the bundle held, an integrity error otherwise. It
      publishes nothing and leaves no staging directory behind. */
  lemma PublishedIsFound(d: Disk, f: nat, request: Request, slot: nat, errno: Errno, limits: Limits)
    returns (steps: seq<Step>)
    requires Sane(d, limits) && f !in d.finalizers && slot !in d.staging
    requires Acceptable(request.artifacts, limits) && PrefixFree(request.artifacts)
    requires KeyOf(MakeBundle(request.workspace, Describing(request.artifacts))) in d.published
    ensures Schedule(d, steps, limits) && Alone(steps, f, request, slot, errno)
    ensures
      var t := After(d, steps, limits);
      var b := MakeBundle(request.workspace, Describing(request.artifacts));
      && t.published == d.published && t.staging.Keys == d.staging.Keys
      && t.finalizers == d.finalizers[f :=
           Finished(request, if Holds(d.published, b, limits) then Ok(b) else Raised(IntegrityError))]
  {
    hide ValidDescriptors, PrefixFree, MakeBundle, Schedule, Alone, LoadExisting, Holds, AllWhole, PhasesOk, OutcomesOk;
    var b := MakeBundle(request.workspace, Describing(request.artifacts));
    steps := StagesThrough(d, f, request, slot, errno, limits);
    LoadsWhatIsHeld(d.published, b, limits);
    ThenAdvances(d, steps, f, request, slot, errno, limits);
    steps := steps + [Advance(f, errno)];
    ThenAdvances(d, steps, f, request, slot, errno, limits);
    steps := steps + [Advance(f, errno)];
  }

  lemma BeginsCopying(d: Disk, f: nat, request: Request, slot: nat, limits: Limits)
    requires Acceptable(request.artifacts, limits) && f !in d.finalizers && slot !in d.staging
    ensures Apply(d, Begin(f, request, slot), limits) ==
      d.(staging := d.staging[slot := Dir(None, map[])], finalizers := d.finalizers[f := Copying(request, slot, [])])
  {
    hide Acceptable;
    PreparesTheAcceptable(request.artifacts, limits);
  }

  lemma RenamesFirst(t: Disk, f: nat, errno: Errno, limits: Limits)
    requires f in t.finalizers && t.finalizers[f].Renaming? && t.finalizers[f].slot in t.staging
    requires KeyOf(BundleFor(t.finalizers[f])) !in t.published
    ensures
      var u := Apply(t, Advance(f, errno), limits).finalizers;
      f in u && u[f] == Finished(t.finalizers[f].request, Ok(BundleFor(t.finalizers[f])))
  {
    hide MakeBundle;
  }

  /** From the empty disk, two finalizers of any acceptable request can both come to the rename with no
      destination there: the race of SecondRename is reachable. */
  lemma RaceIsReachable(request: Request, limits: Limits) returns (steps: seq<Step>)
    requires Acceptable(request.artifacts, limits) && PrefixFree(request.artifacts)
    ensures Schedule(EMPTY, steps, limits) && Sane(After(EMPTY, steps, limits), limits)
    ensures
      var d, ds := After(EMPTY, steps, limits), Describing(request.artifacts);
      && d.published == map[] && d.finalizers == map[0 := Renaming(request, 0, ds), 1 := Renaming(request, 1, ds)]
  {
    hide ValidDescriptors, PrefixFree, MakeBundle, Sane, Apply, Enabled;
    EmptyIsSane(limits);
    var first := FinalizerGetsThrough(EMPTY, 0, request, 0, NotEmpty, limits);
    EveryHistoryIsSafe(EMPTY, first, limits);
    var second := FinalizerGetsThrough(After(EMPTY, first, limits), 1, request, 1, NotEmpty, limits);
    SchedulesCompose(EMPTY, first, second, limits);
    EveryHistoryIsSafe(EMPTY, first + second, limits);
    steps := first + second;
  }

  lemma {:induction false} SchedulesCompose(d: Disk, a: seq<Step>, b: seq<Step>, limits: Limits)
    requires Schedule(d, a, limits) && Schedule(After(d, a, limits), b, limits)
    ensures Schedule(d, a + b, limits) && After(d, a + b, limits) == After(After(d, a, limits), b, limits)
    decreases |a|
  {
    hide Apply, Enabled;
    if a == [] {
      assert a + b == b;
    } else {
      SchedulesCompose(Apply(d, a[0], limits), a[1..], b, limits);
      assert (a + b)[0] == a[0] && (a + b)[1..] == a[1..] + b;
    }
  }

  /** A request that is acceptable under some limits, and collides with nothing when it comes first. */
  lemma SomeRequestIsAcceptable() returns (request: Request, limits: Limits)
    ensures Acceptable(request.artifacts, limits) && PrefixFree(request.artifacts)
    ensures NoCollisionWith(map[], request.artifacts, limits)
  {
    hide ValidDescriptors, ValidLabels, ManifestText;
    var a := Artifact("a", "raw", "x", Some([]));
    request := Request("w", [a]);
    limits := Limits(1, 0, 0, Utf8Length(ManifestText(Describing([a]))), 3, 3, 1);
    SimpleLabels(limits);
    assert Describing([a]) == [Describe(a)];
    OneIsValid(Describe(a), limits);
    assert StoredBytes(map[]) == {} && StoredTexts(map[], limits) == {};
    forall x | x in BytesOf([a]) ensures x == [] {
    }
  }

  lemma OneIsValid(d: Descriptor, limits: Limits)
    requires ValidDescriptor(d, limits) && limits.maxArtifacts == 1 && d.byteLength == 0
    requires Utf8Length(ManifestText([d])) == limits.maxManifestBytes
    ensures ValidDescriptors([d], limits)
  {
    hide ValidDescriptor, ManifestText;
    assert TotalBytes([d]) == d.byteLength + TotalBytes([]);
  }

  lemma SimpleLabels(limits: Limits)
    requires limits.maxNameBytes == 3 && limits.maxRoleBytes == 3 && limits.maxMediaTypeBytes == 1
    ensures ValidLabels("a", "raw", "x", limits)
  {
    NestedNamesCollide(limits);
    assert "raw"[1..] == "aw" && "aw"[1..] == "w" && "w"[1..] == "" && "x"[1..] == "";
  }
}
