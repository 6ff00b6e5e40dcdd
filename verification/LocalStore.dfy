/**
 * The filesystem adapter: a bundle is staged in a private directory and published by one rename. A
 * digest-named directory holds a manifest text and the artifact files under it, by relative name.
 */
module LocalStore {
  import opened Options
  import opened Json
  import opened JsonRoundTrip
  import opened CanonicalJson
  import opened Manifests
  import opened ManifestIdentity
  import opened ManifestReading
  import opened EvidenceStore

  datatype Dir = Dir(manifest: Option<string>, files: map<string, Bytes>)

  type Published = map<Key, Dir>

  /** A file cannot be a directory too: 'a' and 'a/b' cannot both be written. */
  predicate PathPrefix(p: string, name: string) {
    |p| < |name| && name[..|p|] == p && name[|p|] == '/'
  }

  predicate Collides(m: string, n: string) {
    m == n || PathPrefix(m, n) || PathPrefix(n, m)
  }

  predicate Blocked(files: map<string, Bytes>, name: string) {
    exists m :: m in files && Collides(m, name)
  }

  ghost predicate PrefixFree(artifacts: seq<Artifact>) {
    forall i, j :: 0 <= i < j < |artifacts| ==> !Collides(artifacts[i].name, artifacts[j].name)
  }

  /** Two names collide exactly when they are equal or one is a directory on the way to the other. */
  lemma CollidesMeaning(m: string, n: string)
    ensures Collides(m, n) <==> m == n || m + "/" <= n || n + "/" <= m
  {
    PrefixMeaning(m, n);
    PrefixMeaning(n, m);
  }

  lemma PrefixMeaning(p: string, name: string)
    ensures PathPrefix(p, name) <==> p + "/" <= name
  {
    if PathPrefix(p, name) {
      assert name == p + "/" + name[|p| + 1..];
    }
  }

  /** Two names that validation accepts together and one directory cannot hold. */
  lemma NestedNamesCollide(limits: Limits)
    requires limits.maxNameBytes >= 3
    ensures CheckName("a", limits).None? && CheckName("a/b", limits).None? && Collides("a", "a/b")
  {
    assert "a"[1..] == "" && "a/b"[1..] == "/b" && "/b"[1..] == "b" && "b"[1..] == "";
    assert Segments("") == [""];
    assert Segments("b") == [['b'] + Segments("")[0]] + Segments("")[1..];
    assert ['b'] + "" == "b" && [['b'] + Segments("")[0]] == ["b"] && Segments("")[1..] == [];
    assert Segments("/b") == ["", "b"];
    assert Segments("a/b") == [['a'] + Segments("/b")[0]] + Segments("/b")[1..];
    assert ['a'] + "" == "a" && Segments("/b")[1..] == ["b"];
    assert Segments("a") == [['a'] + Segments("")[0]] + Segments("")[1..];
    assert "a" != "." && "b" != "." && |".."| == 2;
    assert PathPrefix("a", "a/b");
  }

  /** Copying one artifact into a staging directory: its descriptor and the directory after it. */
  function Copy(dir: Dir, a: Artifact, limits: Limits, total: nat): Result<(Descriptor, Dir), StoreError> {
    match ReadSource(a, limits, total)
    case Raised(e) => Raised(e)
    case Ok(d) =>
      if Blocked(dir.files, a.name) then Raised(Invalid)
      else Ok((d, dir.(files := dir.files[a.name := a.source.value])))
  }

  // ----- reading a published directory -----

  /** The descriptors of the stored manifest.json, when it parses to a canonical manifest. */
  function Decode(dir: Dir, limits: Limits): Option<seq<Descriptor>> {
    if dir.manifest.None? || Utf8Length(dir.manifest.value) > limits.maxManifestBytes then None
    else
      var v := Loads(dir.manifest.value);
      if v.None? then None else ReadManifest(v.value, limits)
  }

  predicate LocalVerify(published: Published, b: Bundle, limits: Limits) {
    && ValidBundle(b, limits)
    && KeyOf(b) in published
    && var dir := published[KeyOf(b)];
       && Decode(dir, limits).Some?
       && Meaning(Loads(dir.manifest.value).value) == b.manifest
       && VerifyBytes(b, dir.files, limits)
  }

  function LocalOpen(published: Published, b: Bundle, name: string, limits: Limits): Result<Bytes, StoreError> {
    if !ValidBundle(b, limits) then Raised(IntegrityError)
    else if CheckName(name, limits).Some? then Raised(CheckName(name, limits).value)
    else if !LocalVerify(published, b, limits) then Raised(IntegrityError)
    else if name !in published[KeyOf(b)].files then Raised(NotFound)
    else Ok(published[KeyOf(b)].files[name])
  }

  // ----- the store a directory tree stands for -----

  /** Complete: everything verification asks of the directory with this name. */
  predicate WholeDir(k: Key, dir: Dir, limits: Limits) {
    && Decode(dir, limits).Some?
    && ManifestDigest(ManifestText(Decode(dir, limits).value)) == k.1
    && Matches(Decode(dir, limits).value, dir.files)
  }

  function EntryOf(k: Key, dir: Dir, limits: Limits): Entry
    requires WholeDir(k, dir, limits)
  {
    Entry(MakeBundle(k.0, Decode(dir, limits).value), dir.files)
  }

  ghost predicate AllWhole(published: Published, limits: Limits) {
    forall k :: k in published ==> WholeDir(k, published[k], limits)
  }

  function Abstract(published: Published, limits: Limits): Store
    requires AllWhole(published, limits)
  {
    map k | k in published :: EntryOf(k, published[k], limits)
  }

  lemma DecodedIsValid(dir: Dir, limits: Limits)
    requires Decode(dir, limits).Some?
    ensures
      var ds := Decode(dir, limits).value;
      && ValidDescriptors(ds, limits) && SortByName(ds) == ds
      && Meaning(Loads(dir.manifest.value).value) == Meaning(ManifestOf(ds))
  {
    OnlyCanonicalManifestsRead(Meaning(Loads(dir.manifest.value).value), limits);
  }

  lemma WholeIsSound(k: Key, dir: Dir, limits: Limits)
    requires WholeDir(k, dir, limits)
    ensures HoldsEntry(k, EntryOf(k, dir, limits), limits)
    ensures EntryOf(k, dir, limits).bundle.manifest == Meaning(Loads(dir.manifest.value).value)
  {
    DecodedIsValid(dir, limits);
    MadeBundleIsValid(k.0, Decode(dir, limits).value, limits);
  }

  lemma AbstractIsSound(published: Published, limits: Limits)
    requires AllWhole(published, limits)
    ensures Sound(Abstract(published, limits), limits)
  {
    forall k | k in published ensures HoldsEntry(k, Abstract(published, limits)[k], limits) {
      WholeIsSound(k, published[k], limits);
    }
  }

  /** Both adapters verify the same bundles. */
  lemma VerifyAgrees(published: Published, b: Bundle, limits: Limits)
    requires AllWhole(published, limits)
    ensures LocalVerify(published, b, limits) <==> Verify(Abstract(published, limits), b, limits)
  {
  }

  /** The published tree holds this very bundle under its identity. */
  ghost predicate Holds(published: Published, b: Bundle, limits: Limits)
    requires AllWhole(published, limits)
  {
    KeyOf(b) in published && Abstract(published, limits)[KeyOf(b)].bundle == b
  }

  lemma HeldIsVerified(published: Published, b: Bundle, limits: Limits)
    requires AllWhole(published, limits)
    ensures LocalVerify(published, b, limits) <==> Holds(published, b, limits)
  {
    hide LocalVerify, VerifyBytes, EntryOf, WholeDir;
    VerifyAgrees(published, b, limits);
    AbstractIsSound(published, limits);
    if Holds(published, b, limits) {
      HeldVerifies(Abstract(published, limits), KeyOf(b), limits);
    }
  }

  /** And open the same artifacts, except that a valid bundle which is not the one held under its
      identity is an integrity error here and BundleNotFound in memory. */
  lemma OpenAgrees(published: Published, b: Bundle, name: string, limits: Limits)
    requires AllWhole(published, limits)
    ensures LocalOpen(published, b, name, limits) == Open(Abstract(published, limits), b, name, limits) <==>
      !(ValidBundle(b, limits) && CheckName(name, limits).None? && !Holds(published, b, limits))
  {
    hide LocalVerify, VerifyBytes, EntryOf, WholeDir, ValidBundle, CheckName;
    HeldIsVerified(published, b, limits);
    VerifyAgrees(published, b, limits);
    if Holds(published, b, limits) {
      FilesAreContents(published, KeyOf(b), limits);
    }
  }

  lemma FilesAreContents(published: Published, k: Key, limits: Limits)
    requires AllWhole(published, limits) && k in published
    ensures Abstract(published, limits)[k].contents == published[k].files
  {
  }

  /** What staging leaves behind for prepared artifacts is complete, and stands for the same entry. */
  lemma StagedIsWhole(workspace: string, artifacts: seq<Artifact>, limits: Limits)
    requires Acceptable(artifacts, limits)
    ensures
      var b := MakeBundle(workspace, Describing(artifacts));
      var dir := Dir(Some(ManifestText(Describing(artifacts))), ContentsOf(artifacts));
      WholeDir(KeyOf(b), dir, limits) && EntryOf(KeyOf(b), dir, limits) == Entry(b, ContentsOf(artifacts))
  {
    var ds := Describing(artifacts);
    StoredTextReadsBack(ds);
    ReadingInvertsWriting(ds, limits);
    SortIsIdempotent(ds);
    TextDetermines(ds, SortByName(ds));
    SourcesMatch(artifacts, limits);
    assert ManifestOf(SortByName(ds)) == ManifestOf(ds);
  }

  lemma PublishingKeepsWhole(published: Published, after: Published, k: Key, dir: Dir, limits: Limits)
    requires AllWhole(published, limits) && WholeDir(k, dir, limits) && after == published[k := dir]
    ensures AllWhole(after, limits)
  {
  }

  lemma AbstractAt(published: Published, j: Key, limits: Limits)
    requires AllWhole(published, limits) && j in published
    ensures WholeDir(j, published[j], limits) && Abstract(published, limits)[j] == EntryOf(j, published[j], limits)
  {
  }

  lemma SameStore(s: Store, t: Store)
    requires s.Keys == t.Keys && forall k :: k in s ==> s[k] == t[k]
    ensures s == t
  {
  }

  /** The rename is the in-memory store's insertion. */
  lemma PublishingIsInserting(published: Published, after: Published, k: Key, e: Entry, limits: Limits)
    requires AllWhole(published, limits) && AllWhole(after, limits)
    requires k in after && after == published[k := after[k]] && EntryOf(k, after[k], limits) == e
    ensures Abstract(after, limits) == Abstract(published, limits)[k := e]
  {
    hide EntryOf, WholeDir;
    var s, t := Abstract(after, limits), Abstract(published, limits)[k := e];
    forall j | j in s ensures s[j] == t[j] {
      AbstractAt(after, j, limits);
      if j != k { AbstractAt(published, j, limits); }
    }
    SameStore(s, t);
  }

  // ----- the adapter, undisturbed -----

  lemma PrefixFreeStep(artifacts: seq<Artifact>, i: nat)
    requires i < |artifacts| && AllSourced(artifacts[..i])
    requires PrefixFree(artifacts[..i])
    ensures Blocked(ContentsOf(artifacts[..i]), artifacts[i].name) ==> !PrefixFree(artifacts)
    ensures !Blocked(ContentsOf(artifacts[..i]), artifacts[i].name) ==> PrefixFree(artifacts[..i + 1])
  {
    hide Collides;
    var files := ContentsOf(artifacts[..i]);
    ContentsAreNamed(artifacts[..i]);
    hide ContentsOf;
    if m :| m in files && Collides(m, artifacts[i].name) {
      var j :| 0 <= j < i && artifacts[..i][j].name == m;
      assert Collides(artifacts[j].name, artifacts[i].name);
    } else {
      var upto := artifacts[..i + 1];
      forall j, k | 0 <= j < k < |upto| ensures !Collides(upto[j].name, upto[k].name) {
        if k < i {
          assert !Collides(artifacts[..i][j].name, artifacts[..i][k].name);
        } else {
          assert artifacts[..i][j].name in files;
        }
      }
    }
  }

  lemma {:induction false} ContentsAreNamed(artifacts: seq<Artifact>)
    requires AllSourced(artifacts)
    ensures forall m :: m in ContentsOf(artifacts) <==> exists j :: 0 <= j < |artifacts| && artifacts[j].name == m
  {
    if artifacts != [] {
      var init, last := artifacts[..|artifacts| - 1], artifacts[|artifacts| - 1];
      ContentsAreNamed(init);
      forall m ensures m in ContentsOf(artifacts) <==> exists j :: 0 <= j < |artifacts| && artifacts[j].name == m {
        if m in ContentsOf(init) {
          var j :| 0 <= j < |init| && init[j].name == m;
          assert artifacts[j].name == m;
        }
        if j :| 0 <= j < |artifacts| && artifacts[j].name == m {
          if j < |init| { assert init[j].name == m; }
        }
        if m == last.name { assert artifacts[|artifacts| - 1].name == m; }
      }
    }
  }

  /** Stages every artifact: like reading them, unless one name is a path prefix of another. */
  method StageArtifacts(artifacts: seq<Artifact>, limits: Limits)
    returns (staged: Result<seq<Descriptor>, StoreError>, dir: Dir)
    ensures PrefixFree(artifacts) ==> staged == ReadSources(artifacts, limits, 0)
    ensures staged.Ok? ==> PrefixFree(artifacts) && AllSourced(artifacts) && dir == Dir(None, ContentsOf(artifacts))
  {
    hide Collides, Blocked;
    dir := Dir(None, map[]);
    var descriptors: seq<Descriptor> := [];
    var total := 0;
    for i := 0 to |artifacts|
      invariant ReadSources(artifacts[..i], limits, 0) == Ok(descriptors)
      invariant total == TotalBytes(descriptors)
      invariant AllSourced(artifacts[..i]) && dir == Dir(None, ContentsOf(artifacts[..i]))
      invariant PrefixFree(artifacts[..i])
    {
      var copied := Copy(dir, artifacts[i], limits, total);
      ReadSourcesAppend(artifacts, i, limits);
      PrefixFreeStep(artifacts, i);
      if copied.Raised? {
        ReadFailsWith(artifacts, i, limits);
        return Raised(copied.error), dir;
      }
      total := total + copied.value.0.byteLength;
      TotalBytesAppend(descriptors, copied.value.0);
      descriptors := descriptors + [copied.value.0];
      dir := copied.value.1;
      assert artifacts[..i + 1][..i] == artifacts[..i];
    }
    assert artifacts[..|artifacts|] == artifacts;
    return Ok(descriptors), dir;
  }

  lemma ReadFailsWith(artifacts: seq<Artifact>, i: nat, limits: Limits)
    requires i < |artifacts|
    ensures ReadSources(artifacts[..i + 1], limits, 0).Raised? ==>
      ReadSources(artifacts, limits, 0) == ReadSources(artifacts[..i + 1], limits, 0)
  {
    if ReadSources(artifacts[..i + 1], limits, 0).Raised? {
      assert artifacts == artifacts[..i + 1] + artifacts[i + 1..];
      ReadSourcesFails(artifacts[..i + 1], artifacts[i + 1..], limits, 0);
    }
  }

  class LocalEvidenceStore {
    const limits: Limits
    var published: Published

    ghost predicate Valid()
      reads this
    {
      AllWhole(published, limits)
    }

    constructor (limits: Limits)
      ensures Valid() && published == map[] && this.limits == limits
    {
      this.limits := limits;
      published := map[];
    }

    /** Without interference this adapter is the in-memory one, with two exceptions: artifact names
        which collide as paths are refused here and accepted there, and a bundle whose identity is taken
        by another manifest is an integrity error here and that other bundle there. */
    method FinalizeBundle(workspace: string, artifacts: seq<Artifact>) returns (result: Result<Bundle, StoreError>)
      requires Valid()
      modifies this
      ensures Valid()
      ensures PrefixFree(artifacts) && !Taken(old(published), workspace, artifacts, limits) ==>
        (Abstract(published, limits), result) == Finalize(old(Abstract(published, limits)), Request(workspace, artifacts), limits)
      ensures !PrefixFree(artifacts) ==> result.Raised? && published == old(published)
      ensures PrefixFree(artifacts) && Taken(old(published), workspace, artifacts, limits) ==>
        result == Raised(IntegrityError) && published == old(published)
    {
      hide MakeBundle, EntryOf, WholeDir, Holds, ValidDescriptors, Finalize, Abstract, LoadExisting;
      PreparesTheAcceptable(artifacts, limits);
      UnpreparedFails(Abstract(published, limits), Request(workspace, artifacts), limits);
      var fault := ValidateInputs(artifacts, limits);
      if fault.Some? {
        return Raised(fault.value);
      }
      var staged, dir := StageArtifacts(artifacts, limits);
      if staged.Raised? {
        return Raised(staged.error);
      }
      var text := ManifestText(staged.value);
      if Utf8Length(text) > limits.maxManifestBytes {
        return Raised(LimitExceeded);
      }
      dir := dir.(manifest := Some(text));
      ghost var before := published;
      result := Publish(MakeBundle(workspace, staged.value), dir);
      if Taken(before, workspace, artifacts, limits) {
        TakenIsRefused(before, workspace, artifacts, limits);
      } else {
        PublishedAsInMemory(before, workspace, artifacts, limits);
      }
    }

    /** The destination check, then one rename. */
    method Publish(b: Bundle, dir: Dir) returns (result: Result<Bundle, StoreError>)
      modifies this
      ensures published == if KeyOf(b) in old(published) then old(published) else old(published)[KeyOf(b) := dir]
      ensures result == if KeyOf(b) in old(published) then LoadExisting(old(published), b, limits) else Ok(b)
    {
      if KeyOf(b) in published {
        return LoadExisting(published, b, limits);
      }
      published := published[KeyOf(b) := dir];
      return Ok(b);
    }
  }

  lemma UnpreparedFails(store: Store, request: Request, limits: Limits)
    ensures Prepare(request.artifacts, limits).Raised? ==>
      Finalize(store, request, limits) == (store, Raised(Prepare(request.artifacts, limits).error))
  {
  }

  /** Reading the manifest comes first, and a missing one is BundleNotFound; then verification. */
  function LoadExisting(published: Published, b: Bundle, limits: Limits): Result<Bundle, StoreError> {
    if KeyOf(b) !in published || published[KeyOf(b)].manifest.None? then Raised(NotFound)
    else if LocalVerify(published, b, limits) then Ok(b)
    else Raised(IntegrityError)
  }

  /** A digest collision: another manifest was published under the identity of these artifacts. */
  ghost predicate Taken(published: Published, workspace: string, artifacts: seq<Artifact>, limits: Limits)
    requires AllWhole(published, limits)
  {
    && Acceptable(artifacts, limits)
    && var b := MakeBundle(workspace, Describing(artifacts));
       KeyOf(b) in published && !Holds(published, b, limits)
  }

  /** A complete tree never lacks a manifest it is asked for: finding a bundle gives it exactly when it
      is the one held, an integrity error otherwise, and never BundleNotFound. */
  lemma LoadsWhatIsHeld(published: Published, b: Bundle, limits: Limits)
    requires AllWhole(published, limits) && KeyOf(b) in published
    ensures LoadExisting(published, b, limits) == if Holds(published, b, limits) then Ok(b) else Raised(IntegrityError)
  {
    hide LocalVerify, EntryOf, Holds;
    assert WholeDir(KeyOf(b), published[KeyOf(b)], limits);
    HeldIsVerified(published, b, limits);
  }

  lemma VerifiesAnyTree(published: Published, b: Bundle, limits: Limits)
    requires KeyOf(b) in published && published[KeyOf(b)].manifest.Some?
    ensures LocalVerify(published, b, limits) <==>
      && Parses(published[KeyOf(b)].manifest.value, b.manifest, limits)
      && exists ds ::
           ValidDescriptors(ds, limits) && b == MakeBundle(b.workspace, ds) && Lists(ds, published[KeyOf(b)].files)
  {
    hide ValidDescriptors, MakeBundle, Lists, ReadDescriptors, Printable, Loads, Matches, Meaning;
    var dir := published[KeyOf(b)];
    VerifyMeaning(map[KeyOf(b) := Entry(b, dir.files)], b, limits);
  }

  /** What finding a bundle answers on any tree, damaged ones included: BundleNotFound exactly when its
      directory or the manifest in it is missing, and the bundle exactly when the manifest parses to the
      bundle's own and the files are the ones it lists. Everything else is an integrity error. */
  lemma LoadAnswers(published: Published, b: Bundle, limits: Limits)
    ensures
      var key, answer := (b.workspace, b.digest), LoadExisting(published, b, limits);
      && (answer == Raised(NotFound) <==> key in published ==> published[key].manifest == None)
      && (answer.Ok? <==>
            && key in published && published[key].manifest.Some?
            && Parses(published[key].manifest.value, b.manifest, limits)
            && exists ds ::
                 ValidDescriptors(ds, limits) && b == MakeBundle(b.workspace, ds) && Lists(ds, published[key].files))
      && (answer.Ok? ==> answer.value == b) && (answer.Raised? ==> answer.error in {NotFound, IntegrityError})
  {
    hide LocalVerify, ValidDescriptors, MakeBundle, Lists, Parses;
    if KeyOf(b) in published && published[KeyOf(b)].manifest.Some? {
      VerifiesAnyTree(published, b, limits);
    }
  }

  /** A stored text within the limit that parses to this data, with every length written as an int. */
  predicate Parses(text: string, data: Data, limits: Limits) {
    && Utf8Length(text) <= limits.maxManifestBytes
    && Loads(text).Some? && Printable(Loads(text).value) && Meaning(Loads(text).value) == data
  }

  lemma TakenIsRefused(before: Published, workspace: string, artifacts: seq<Artifact>, limits: Limits)
    requires AllWhole(before, limits) && Taken(before, workspace, artifacts, limits)
    ensures
      var b := MakeBundle(workspace, Describing(artifacts));
      KeyOf(b) in before && LoadExisting(before, b, limits) == Raised(IntegrityError)
  {
    hide MakeBundle, Holds, LoadExisting, WholeDir, ValidDescriptors;
    LoadsWhatIsHeld(before, MakeBundle(workspace, Describing(artifacts)), limits);
  }

  /** Publishing prepared artifacts, by rename or by finding them, is the in-memory finalization. */
  lemma PublishedAsInMemory(before: Published, workspace: string, artifacts: seq<Artifact>, limits: Limits)
    requires AllWhole(before, limits) && Acceptable(artifacts, limits) && !Taken(before, workspace, artifacts, limits)
    ensures
      var b := MakeBundle(workspace, Describing(artifacts));
      var dir := Dir(Some(ManifestText(Describing(artifacts))), ContentsOf(artifacts));
      var after := if KeyOf(b) in before then before else before[KeyOf(b) := dir];
      && (KeyOf(b) in before ==> LoadExisting(before, b, limits) == Ok(b))
      && AllWhole(after, limits)
      && (Abstract(after, limits), Ok(b)) == Finalize(Abstract(before, limits), Request(workspace, artifacts), limits)
  {
    hide ValidDescriptors, MakeBundle, Holds, LoadExisting, WholeDir, EntryOf, Finalize, Abstract;
    var b := MakeBundle(workspace, Describing(artifacts));
    if KeyOf(b) in before {
      LoadsWhatIsHeld(before, b, limits);
      FoundAsInMemory(before, workspace, artifacts, limits);
    } else {
      RenamedAsInMemory(before, workspace, artifacts, limits);
    }
  }

  lemma FoundAsInMemory(before: Published, workspace: string, artifacts: seq<Artifact>, limits: Limits)
    requires AllWhole(before, limits) && Acceptable(artifacts, limits)
    requires Holds(before, MakeBundle(workspace, Describing(artifacts)), limits)
    ensures (Abstract(before, limits), Ok(MakeBundle(workspace, Describing(artifacts)))) ==
      Finalize(Abstract(before, limits), Request(workspace, artifacts), limits)
  {
    hide WholeDir, VerifyBytes, EntryOf, Decode, MakeBundle;
    var b := MakeBundle(workspace, Describing(artifacts));
    PreparesTheAcceptable(artifacts, limits);
    AbstractIsSound(before, limits);
    HeldVerifies(Abstract(before, limits), KeyOf(b), limits);
  }

  lemma RenamedAsInMemory(before: Published, workspace: string, artifacts: seq<Artifact>, limits: Limits)
    requires AllWhole(before, limits) && Acceptable(artifacts, limits)
    requires KeyOf(MakeBundle(workspace, Describing(artifacts))) !in before
    ensures
      var b := MakeBundle(workspace, Describing(artifacts));
      var after := before[KeyOf(b) := Dir(Some(ManifestText(Describing(artifacts))), ContentsOf(artifacts))];
      && AllWhole(after, limits)
      && (Abstract(after, limits), Ok(b)) == Finalize(Abstract(before, limits), Request(workspace, artifacts), limits)
  {
    hide WholeDir, VerifyBytes, EntryOf, Decode, MakeBundle;
    var b := MakeBundle(workspace, Describing(artifacts));
    var dir := Dir(Some(ManifestText(Describing(artifacts))), ContentsOf(artifacts));
    var after := before[KeyOf(b) := dir];
    PreparesTheAcceptable(artifacts, limits);
    StagedIsWhole(workspace, artifacts, limits);
    PublishingKeepsWhole(before, after, KeyOf(b), dir, limits);
    PublishingIsInserting(before, after, KeyOf(b), Entry(b, ContentsOf(artifacts)), limits);
  }
}
