/** The abstract evidence store, and the in-memory adapter that implements it. */
module EvidenceStore {
  import opened Options
  import opened Json
  import opened CanonicalJson
  import opened Manifests
  import opened ManifestIdentity
  import opened ManifestReading

  /** uuid5 in the bundle namespace: any function on names. */
  const BundleUuid: string -> string

  datatype Bundle = Bundle(
    id: string, workspace: string, version: string, digest: string, storageKey: string, manifest: Data)

  type Key = (string, string)

  datatype Entry = Entry(bundle: Bundle, contents: map<string, Bytes>)

  type Store = map<Key, Entry>

  datatype Request = Request(workspace: string, artifacts: seq<Artifact>)

  function StorageKey(workspace: string, digest: string): string {
    "workspaces/" + workspace + "/evidence/" + digest
  }

  function MakeBundle(workspace: string, ds: seq<Descriptor>): Bundle {
    var digest := ManifestDigest(ManifestText(ds));
    Bundle(BundleUuid(workspace + ":" + digest), workspace, MANIFEST_VERSION, digest,
           StorageKey(workspace, digest), Meaning(ManifestOf(ds)))
  }

  function KeyOf(b: Bundle): Key {
    (b.workspace, b.digest)
  }

  /** Identity checks that need no stored bytes. */
  predicate ValidBundle(b: Bundle, limits: Limits) {
    && b.version == MANIFEST_VERSION
    && IsHexDigest(b.digest)
    && b.storageKey == StorageKey(b.workspace, b.digest)
    && b.id == BundleUuid(b.workspace + ":" + b.digest)
    && ReadDescriptors(b.manifest, limits).Some?
    && ManifestDigest(ManifestText(ReadDescriptors(b.manifest, limits).value)) == b.digest
  }

  function Names(ds: seq<Descriptor>): set<string> {
    set i | 0 <= i < |ds| :: ds[i].name
  }

  predicate Matches(ds: seq<Descriptor>, contents: map<string, Bytes>) {
    && contents.Keys == Names(ds)
    && forall i :: 0 <= i < |ds| ==>
         && ds[i].name in contents
         && |contents[ds[i].name]| == ds[i].byteLength
         && ContentDigest(contents[ds[i].name]) == ds[i].digest
  }

  predicate VerifyBytes(b: Bundle, contents: map<string, Bytes>, limits: Limits) {
    ValidBundle(b, limits) && Matches(ReadDescriptors(b.manifest, limits).value, contents)
  }

  predicate Verify(store: Store, b: Bundle, limits: Limits) {
    KeyOf(b) in store && store[KeyOf(b)].bundle == b && VerifyBytes(b, store[KeyOf(b)].contents, limits)
  }

  function ContentsOf(artifacts: seq<Artifact>): map<string, Bytes>
    requires AllSourced(artifacts)
  {
    if artifacts == [] then map[]
    else
      var last := artifacts[|artifacts| - 1];
      ContentsOf(artifacts[..|artifacts| - 1])[last.name := last.source.value]
  }

  lemma {:induction false} PreparedIsSourced(artifacts: seq<Artifact>, limits: Limits, total: nat)
    requires ReadSources(artifacts, limits, total).Ok?
    ensures AllSourced(artifacts)
  {
    if artifacts != [] {
      PreparedIsSourced(artifacts[1..], limits, total + ReadSource(artifacts[0], limits, total).value.byteLength);
      assert forall i :: 0 < i < |artifacts| ==> artifacts[i] == artifacts[1..][i - 1];
    }
  }

  function Publish(store: Store, b: Bundle, contents: map<string, Bytes>, limits: Limits)
    : (Store, Result<Bundle, StoreError>)
  {
    var key := KeyOf(b);
    if key in store then
      (store, if Verify(store, store[key].bundle, limits) then Ok(store[key].bundle) else Raised(IntegrityError))
    else (store[key := Entry(b, contents)], Ok(b))
  }

  function Finalize(store: Store, request: Request, limits: Limits): (Store, Result<Bundle, StoreError>) {
    match Prepare(request.artifacts, limits)
    case Raised(e) => (store, Raised(e))
    case Ok(ds) =>
      PreparedIsSourced(request.artifacts, limits, 0);
      Publish(store, MakeBundle(request.workspace, ds), ContentsOf(request.artifacts), limits)
  }

  function Open(store: Store, b: Bundle, name: string, limits: Limits): Result<Bytes, StoreError> {
    if !ValidBundle(b, limits) then Raised(IntegrityError)
    else if CheckName(name, limits).Some? then Raised(CheckName(name, limits).value)
    else if KeyOf(b) !in store || store[KeyOf(b)].bundle != b then Raised(NotFound)
    else if !Verify(store, b, limits) then Raised(IntegrityError)
    else if name !in store[KeyOf(b)].contents then Raised(NotFound)
    else Ok(store[KeyOf(b)].contents[name])
  }

  // ----- what a finalized bundle guarantees -----

  predicate HoldsEntry(k: Key, e: Entry, limits: Limits) {
    KeyOf(e.bundle) == k && VerifyBytes(e.bundle, e.contents, limits)
  }

  ghost predicate Sound(store: Store, limits: Limits) {
    forall k :: k in store ==> HoldsEntry(k, store[k], limits)
  }

  /** Entries are never removed and never change. */
  ghost predicate Extends(before: Store, after: Store) {
    forall k :: k in before ==> k in after && after[k] == before[k]
  }

  lemma MadeBundleIsValid(workspace: string, ds: seq<Descriptor>, limits: Limits)
    requires ValidDescriptors(ds, limits)
    ensures ValidBundle(MakeBundle(workspace, ds), limits)
    ensures ReadDescriptors(MakeBundle(workspace, ds).manifest, limits) == Some(SortByName(ds))
  {
    ReadingInvertsWriting(ds, limits);
    SortIsIdempotent(ds);
    TextDetermines(ds, SortByName(ds));
  }

  lemma {:induction false} ContentsByName(artifacts: seq<Artifact>)
    requires AllSourced(artifacts) && NamesDiffer(artifacts)
    ensures ContentsOf(artifacts).Keys == set i | 0 <= i < |artifacts| :: artifacts[i].name
    ensures forall i :: 0 <= i < |artifacts| ==>
      artifacts[i].name in ContentsOf(artifacts) && ContentsOf(artifacts)[artifacts[i].name] == artifacts[i].source.value
  {
    if artifacts != [] {
      ContentsByName(artifacts[..|artifacts| - 1]);
    }
  }

  lemma AcceptableNamesDiffer(artifacts: seq<Artifact>, limits: Limits)
    requires Acceptable(artifacts, limits)
    ensures NamesDiffer(artifacts)
  {
    var ds := Describing(artifacts);
    forall i, j | 0 <= i < j < |artifacts| ensures artifacts[i].name != artifacts[j].name {
      assert ds[i].name != ds[j].name;
    }
  }

  lemma SourcesMatch(artifacts: seq<Artifact>, limits: Limits)
    requires Acceptable(artifacts, limits)
    ensures Matches(SortByName(Describing(artifacts)), ContentsOf(artifacts))
  {
    var ds, contents := Describing(artifacts), ContentsOf(artifacts);
    var s := SortByName(ds);
    AcceptableNamesDiffer(artifacts, limits);
    ContentsByName(artifacts);
    SortedDescriptors(ds);
    forall i | 0 <= i < |s|
      ensures s[i].name in contents && |contents[s[i].name]| == s[i].byteLength
      ensures ContentDigest(contents[s[i].name]) == s[i].digest
    {
      assert s[i] in ds;
      var j :| 0 <= j < |ds| && ds[j] == s[i];
      assert ds[j] == Describe(artifacts[j]);
    }
    forall name | name in contents ensures name in Names(s) {
      var j :| 0 <= j < |artifacts| && artifacts[j].name == name;
      assert ds[j] in s;
      var i :| 0 <= i < |s| && s[i] == ds[j];
    }
  }

  lemma AddedIsSound(store: Store, k: Key, e: Entry, limits: Limits)
    requires Sound(store, limits) && HoldsEntry(k, e, limits)
    ensures Sound(store[k := e], limits)
  {
    var after := store[k := e];
    forall j | j in after ensures HoldsEntry(j, after[j], limits) {
      if j != k { assert HoldsEntry(j, store[j], limits); }
    }
  }

  lemma HeldVerifies(store: Store, k: Key, limits: Limits)
    requires Sound(store, limits) && k in store
    ensures KeyOf(store[k].bundle) == k && Verify(store, store[k].bundle, limits)
  {
    assert HoldsEntry(k, store[k], limits);
  }

  lemma PublishIsSound(store: Store, b: Bundle, contents: map<string, Bytes>, limits: Limits)
    requires Sound(store, limits) && VerifyBytes(b, contents, limits)
    ensures
      var (after, result) := Publish(store, b, contents, limits);
      Sound(after, limits) && Extends(store, after) && result.Ok? && Verify(after, result.value, limits)
  {
    hide VerifyBytes;
    var k, e := KeyOf(b), Entry(b, contents);
    if k in store {
      HeldVerifies(store, k, limits);
    } else {
      assert HoldsEntry(k, e, limits);
      AddedIsSound(store, k, e, limits);
      HeldVerifies(store[k := e], k, limits);
    }
  }

  /** One finalization: the store stays sound, keeps every entry, and now holds the bundle it returns. */
  lemma FinalizeIsSound(store: Store, request: Request, limits: Limits)
    requires Sound(store, limits)
    ensures
      var (after, result) := Finalize(store, request, limits);
      && Sound(after, limits)
      && Extends(store, after)
      && (result.Ok? <==> Acceptable(request.artifacts, limits))
      && (result.Ok? ==> Verify(after, result.value, limits))
  {
    var artifacts := request.artifacts;
    PreparesTheAcceptable(artifacts, limits);
    if Acceptable(artifacts, limits) {
      var b := MakeBundle(request.workspace, Describing(artifacts));
      MadeBundleIsValid(request.workspace, Describing(artifacts), limits);
      SourcesMatch(artifacts, limits);
      PublishIsSound(store, b, ContentsOf(artifacts), limits);
    }
  }

  /** The bytes a store holds, and the manifest texts its bundles stand for. */
  ghost function StoredBytes(store: Store): set<Bytes> {
    set k, name | k in store && name in store[k].contents :: store[k].contents[name]
  }

  ghost function StoredTexts(store: Store, limits: Limits): set<string> {
    set k | k in store :: TextOf(store[k].bundle, limits)
  }

  function TextOf(b: Bundle, limits: Limits): string {
    ManifestText(ReadDescriptors(b.manifest, limits).GetOr([]))
  }

  /** No digest collision between what a store holds and what a request brings. */
  ghost predicate NoCollisionWith(store: Store, artifacts: seq<Artifact>, limits: Limits)
    requires AllSourced(artifacts)
  {
    NoCollision(StoredBytes(store) + BytesOf(artifacts), StoredTexts(store, limits) + {ManifestText(Describing(artifacts))})
  }

  /** The bundle a sound store holds under the identity of some artifacts holds their bytes. */
  lemma HeldBundleHasTheBytes(store: Store, request: Request, limits: Limits)
    requires Sound(store, limits)
    requires Acceptable(request.artifacts, limits) && NoCollisionWith(store, request.artifacts, limits)
    requires KeyOf(MakeBundle(request.workspace, Describing(request.artifacts))) in store
    ensures
      var b := MakeBundle(request.workspace, Describing(request.artifacts));
      store[KeyOf(b)] == Entry(b, ContentsOf(request.artifacts))
  {
    var ds := Describing(request.artifacts);
    var b := MakeBundle(request.workspace, ds);
    var held := store[KeyOf(b)];
    assert HoldsEntry(KeyOf(b), held, limits);
    assert TextOf(held.bundle, limits) in StoredTexts(store, limits);
    SameTextSameBundle(held.bundle, request.workspace, ds, limits);
    SourcesMatch(request.artifacts, limits);
    BytesAreListed(request.artifacts);
    forall name | name in held.contents ensures held.contents[name] in StoredBytes(store) {
    }
    MatchingContentsAgree(SortByName(ds), held.contents, ContentsOf(request.artifacts));
  }

  /** A valid bundle of this workspace with the manifest text of these descriptors is the one they make. */
  lemma SameTextSameBundle(held: Bundle, workspace: string, ds: seq<Descriptor>, limits: Limits)
    requires ValidDescriptors(ds, limits) && ValidBundle(held, limits) && held.workspace == workspace
    requires TextOf(held, limits) == ManifestText(ds)
    ensures held == MakeBundle(workspace, ds) && ReadDescriptors(held.manifest, limits) == Some(SortByName(ds))
  {
    var es := ReadDescriptors(held.manifest, limits).value;
    OnlyCanonicalManifestsRead(held.manifest, limits);
    TextDetermines(ds, es);
    assert ManifestOf(es) == ManifestOf(ds) by {
      assert SortByName(es) == SortByName(ds);
    }
  }

  lemma {:induction false} BytesAreListed(artifacts: seq<Artifact>)
    requires AllSourced(artifacts)
    ensures forall name :: name in ContentsOf(artifacts) ==> ContentsOf(artifacts)[name] in BytesOf(artifacts)
  {
    if artifacts != [] {
      BytesAreListed(artifacts[..|artifacts| - 1]);
    }
  }

  lemma MatchingContentsAgree(ds: seq<Descriptor>, c: map<string, Bytes>, d: map<string, Bytes>)
    requires Matches(ds, c) && Matches(ds, d)
    requires forall n :: n in c && n in d && ContentDigest(c[n]) == ContentDigest(d[n]) ==> c[n] == d[n]
    ensures c == d
  {
  }

  function FinalizeAll(store: Store, requests: seq<Request>, limits: Limits): Store
    decreases |requests|
  {
    if requests == [] then store else FinalizeAll(Finalize(store, requests[0], limits).0, requests[1..], limits)
  }

  lemma {:induction false} HistoryKeepsEntries(store: Store, requests: seq<Request>, limits: Limits)
    requires Sound(store, limits)
    ensures
      var after := FinalizeAll(store, requests, limits);
      Sound(after, limits) && Extends(store, after)
    decreases |requests|
  {
    if requests != [] {
      FinalizeIsSound(store, requests[0], limits);
      HistoryKeepsEntries(Finalize(store, requests[0], limits).0, requests[1..], limits);
    }
  }

  /** After any later finalizations, a finalized bundle verifies and opens to exactly its source bytes. */
  lemma FinalizedStaysReadable(store: Store, request: Request, later: seq<Request>, limits: Limits)
    requires Sound(store, limits)
    requires Acceptable(request.artifacts, limits) && NoCollisionWith(store, request.artifacts, limits)
    ensures
      var (after, result) := Finalize(store, request, limits);
      var finally := FinalizeAll(after, later, limits);
      && result == Ok(MakeBundle(request.workspace, Describing(request.artifacts)))
      && Verify(finally, result.value, limits)
      && forall i :: 0 <= i < |request.artifacts| ==>
           Open(finally, result.value, request.artifacts[i].name, limits) == Ok(request.artifacts[i].source.value)
  {
    var (after, result) := Finalize(store, request, limits);
    var artifacts := request.artifacts;
    var b := MakeBundle(request.workspace, Describing(artifacts));
    PreparesTheAcceptable(artifacts, limits);
    FinalizeIsSound(store, request, limits);
    if KeyOf(b) in store {
      HeldBundleHasTheBytes(store, request, limits);
    }
    HistoryKeepsEntries(after, later, limits);
    OpensToTheBytes(FinalizeAll(after, later, limits), b, artifacts, limits);
  }

  lemma HeldOpens(store: Store, b: Bundle, contents: map<string, Bytes>, name: string, limits: Limits)
    requires KeyOf(b) in store && store[KeyOf(b)] == Entry(b, contents)
    requires Verify(store, b, limits) && CheckName(name, limits).None? && name in contents
    ensures Open(store, b, name, limits) == Ok(contents[name])
  {
  }

  lemma OpensToTheBytes(store: Store, b: Bundle, artifacts: seq<Artifact>, limits: Limits)
    requires Acceptable(artifacts, limits) && Sound(store, limits)
    requires KeyOf(b) in store && store[KeyOf(b)] == Entry(b, ContentsOf(artifacts))
    ensures Verify(store, b, limits)
    ensures forall i :: 0 <= i < |artifacts| ==>
      Open(store, b, artifacts[i].name, limits) == Ok(artifacts[i].source.value)
  {
    HeldVerifies(store, KeyOf(b), limits);
    AcceptableNamesDiffer(artifacts, limits);
    ContentsByName(artifacts);
    forall i | 0 <= i < |artifacts|
      ensures Open(store, b, artifacts[i].name, limits) == Ok(artifacts[i].source.value)
    {
      assert ValidDescriptor(Describing(artifacts)[i], limits);
      HeldOpens(store, b, ContentsOf(artifacts), artifacts[i].name, limits);
    }
  }

  // ----- verifying and opening, written out -----

  /** The stored bytes are those that the descriptors list, name by name. */
  ghost predicate Lists(ds: seq<Descriptor>, contents: map<string, Bytes>) {
    && (forall name :: name in contents ==> exists i :: 0 <= i < |ds| && ds[i].name == name)
    && forall i :: 0 <= i < |ds| ==>
         && ds[i].name in contents && |contents[ds[i].name]| == ds[i].byteLength
         && ContentDigest(contents[ds[i].name]) == ds[i].digest
  }

  lemma MatchesIsLists(ds: seq<Descriptor>, contents: map<string, Bytes>)
    ensures Matches(ds, contents) <==> Lists(ds, contents)
  {
    if Lists(ds, contents) {
      forall name ensures name in contents <==> name in Names(ds) {
        if name in contents { var i :| 0 <= i < |ds| && ds[i].name == name; }
      }
    }
  }

  lemma ListsByMembers(a: seq<Descriptor>, b: seq<Descriptor>, contents: map<string, Bytes>)
    requires Lists(a, contents) && forall d :: d in a <==> d in b
    ensures Lists(b, contents)
  {
    forall name | name in contents ensures exists i :: 0 <= i < |b| && b[i].name == name {
      var k :| 0 <= k < |a| && a[k].name == name;
      assert a[k] in b;
    }
    forall i | 0 <= i < |b| ensures exists k :: 0 <= k < |a| && a[k] == b[i] { assert b[i] in a; }
  }

  lemma SortedLists(ds: seq<Descriptor>, contents: map<string, Bytes>, limits: Limits)
    requires ValidDescriptors(ds, limits)
    ensures Lists(SortByName(ds), contents) <==> Lists(ds, contents)
  {
    SortedDescriptors(ds);
    hide Lists, SortByName;
    if Lists(ds, contents) { ListsByMembers(ds, SortByName(ds), contents); }
    if Lists(SortByName(ds), contents) { ListsByMembers(SortByName(ds), ds, contents); }
  }

  /** A bundle verifies exactly when the store holds that very bundle, it is the one that some valid descriptors
      make, and the bytes held for it are those they list. */
  lemma VerifyMeaning(store: Store, b: Bundle, limits: Limits)
    ensures Verify(store, b, limits) <==>
      && (b.workspace, b.digest) in store && store[(b.workspace, b.digest)].bundle == b
      && exists ds ::
           && ValidDescriptors(ds, limits) && b == MakeBundle(b.workspace, ds)
           && Lists(ds, store[(b.workspace, b.digest)].contents)
  {
    if KeyOf(b) in store {
      var contents := store[KeyOf(b)].contents;
      if Verify(store, b, limits) {
        var ds := ReadDescriptors(b.manifest, limits).value;
        OnlyCanonicalManifestsRead(b.manifest, limits);
        MatchesIsLists(ds, contents);
        assert b == MakeBundle(b.workspace, ds);
      }
      if ds :| ValidDescriptors(ds, limits) && b == MakeBundle(b.workspace, ds) && Lists(ds, contents) {
        MadeBundleIsValid(b.workspace, ds, limits);
        SortedLists(ds, contents, limits);
        MatchesIsLists(SortByName(ds), contents);
      }
    }
  }

  /** What opening answers: a bundle that is no bundle is an integrity error before anything else, then a bad
      name, then a bundle that is not held; one that is held but does not verify is an integrity error, and
      only then can the name be missing. */
  lemma OpenDecides(store: Store, b: Bundle, name: string, limits: Limits)
    ensures
      var answer := Open(store, b, name, limits);
      var held := (b.workspace, b.digest) in store && store[(b.workspace, b.digest)].bundle == b;
      var fault := CheckName(name, limits);
      && (!ValidBundle(b, limits) ==> answer == Raised(IntegrityError))
      && (ValidBundle(b, limits) && fault.Some? ==> answer == Raised(fault.value))
      && (ValidBundle(b, limits) && fault.None? && !held ==> answer == Raised(NotFound))
      && (ValidBundle(b, limits) && fault.None? && held && !Verify(store, b, limits) ==> answer == Raised(IntegrityError))
      && (Verify(store, b, limits) && fault.None? ==>
            answer == if name in store[(b.workspace, b.digest)].contents
                      then Ok(store[(b.workspace, b.digest)].contents[name]) else Raised(NotFound))
  {
    hide CheckName, Matches;
  }

  // ----- the in-memory adapter -----

  lemma {:induction false} ReadSourcesAppend(artifacts: seq<Artifact>, i: nat, limits: Limits)
    requires i < |artifacts| && ReadSources(artifacts[..i], limits, 0).Ok?
    ensures
      var before := ReadSources(artifacts[..i], limits, 0).value;
      ReadSources(artifacts[..i + 1], limits, 0) ==
        match ReadSource(artifacts[i], limits, TotalBytes(before))
        case Raised(e) => Raised(e)
        case Ok(d) => Ok(before + [d])
  {
    ReadSourcesSplit(artifacts[..i], artifacts[i], limits, 0);
    assert artifacts[..i + 1] == artifacts[..i] + [artifacts[i]];
  }

  lemma {:induction false} ReadSourcesSplit(a: seq<Artifact>, last: Artifact, limits: Limits, total: nat)
    requires ReadSources(a, limits, total).Ok?
    ensures
      var before := ReadSources(a, limits, total).value;
      ReadSources(a + [last], limits, total) ==
        match ReadSource(last, limits, total + TotalBytes(before))
        case Raised(e) => Raised(e)
        case Ok(d) => Ok(before + [d])
  {
    if a == [] {
      var s := a + [last];
      assert s[0] == last && s[1..] == [];
      var one := ReadSource(last, limits, total);
      if one.Ok? {
        assert ReadSources(s[1..], limits, total + one.value.byteLength) == Ok([]);
        assert [one.value] + [] == [] + [one.value];
      }
    } else {
      var d := ReadSource(a[0], limits, total).value;
      var more := ReadSources(a[1..], limits, total + d.byteLength).value;
      ReadSourcesSplit(a[1..], last, limits, total + d.byteLength);
      assert (a + [last])[1..] == a[1..] + [last];
      assert ([d] + more)[1..] == more;
      forall e: Descriptor ensures [d] + (more + [e]) == ([d] + more) + [e] {
      }
    }
  }

  /** One unreadable or oversized source fails the whole read with its error, whatever follows it. */
  lemma {:induction false} ReadSourcesFails(a: seq<Artifact>, rest: seq<Artifact>, limits: Limits, total: nat)
    requires ReadSources(a, limits, total).Raised?
    ensures ReadSources(a + rest, limits, total) == ReadSources(a, limits, total)
  {
    if a != [] && ReadSource(a[0], limits, total).Ok? {
      ReadSourcesFails(a[1..], rest, limits, total + ReadSource(a[0], limits, total).value.byteLength);
      assert (a + rest)[1..] == a[1..] + rest;
    }
  }

  lemma {:induction false} TotalBytesAppend(ds: seq<Descriptor>, d: Descriptor)
    ensures TotalBytes(ds + [d]) == TotalBytes(ds) + d.byteLength
  {
    if ds != [] {
      TotalBytesAppend(ds[1..], d);
      assert (ds + [d])[1..] == ds[1..] + [d];
    }
  }

  lemma SourcedWhenRead(a: Artifact, limits: Limits, total: nat)
    ensures ReadSource(a, limits, total).Ok? ==> a.source.Some?
  {
  }

  /** Reads every source in turn, keeping the running total that the limits apply to. */
  method ReadInputs(artifacts: seq<Artifact>, limits: Limits)
    returns (read: Result<seq<Descriptor>, StoreError>, contents: map<string, Bytes>)
    ensures read == ReadSources(artifacts, limits, 0)
    ensures read.Ok? ==> AllSourced(artifacts) && contents == ContentsOf(artifacts)
  {
    hide ReadSource, Describe;
    var descriptors: seq<Descriptor> := [];
    contents := map[];
    var total := 0;
    for i := 0 to |artifacts|
      invariant ReadSources(artifacts[..i], limits, 0) == Ok(descriptors)
      invariant total == TotalBytes(descriptors)
      invariant AllSourced(artifacts[..i]) && contents == ContentsOf(artifacts[..i])
    {
      var one := ReadSource(artifacts[i], limits, total);
      ReadSourcesAppend(artifacts, i, limits);
      SourcedWhenRead(artifacts[i], limits, total);
      if one.Raised? {
        assert artifacts == artifacts[..i + 1] + artifacts[i + 1..];
        ReadSourcesFails(artifacts[..i + 1], artifacts[i + 1..], limits, 0);
        return Raised(one.error), contents;
      }
      total := total + one.value.byteLength;
      TotalBytesAppend(descriptors, one.value);
      descriptors := descriptors + [one.value];
      contents := contents[artifacts[i].name := artifacts[i].source.value];
      assert artifacts[..i + 1][..i] == artifacts[..i];
    }
    assert artifacts[..|artifacts|] == artifacts;
    return Ok(descriptors), contents;
  }

  class InMemoryEvidenceStore {
    const limits: Limits
    var bundles: map<Key, Bundle>
    var contents: map<Key, map<string, Bytes>>

    ghost predicate Valid()
      reads this
    {
      bundles.Keys == contents.Keys
    }

    function Contents(): Store
      requires Valid()
      reads this
    {
      map k | k in bundles :: Entry(bundles[k], contents[k])
    }

    constructor (limits: Limits)
      ensures Valid() && Contents() == map[] && this.limits == limits
    {
      this.limits := limits;
      bundles := map[];
      contents := map[];
    }

    method FinalizeBundle(workspace: string, artifacts: seq<Artifact>) returns (result: Result<Bundle, StoreError>)
      requires Valid()
      modifies this
      ensures Valid()
      ensures (Contents(), result) == Finalize(old(Contents()), Request(workspace, artifacts), limits)
    {
      var fault := ValidateInputs(artifacts, limits);
      if fault.Some? {
        return Raised(fault.value);
      }
      var read, bytes := ReadInputs(artifacts, limits);
      if read.Raised? {
        return Raised(read.error);
      }
      if Utf8Length(ManifestText(read.value)) > limits.maxManifestBytes {
        return Raised(LimitExceeded);
      }
      result := PublishBundle(MakeBundle(workspace, read.value), bytes);
    }

    /** Adds the bundle under its identity, or finds the one already there. */
    method PublishBundle(b: Bundle, bytes: map<string, Bytes>) returns (result: Result<Bundle, StoreError>)
      requires Valid()
      modifies this
      ensures Valid()
      ensures (Contents(), result) == Publish(old(Contents()), b, bytes, limits)
    {
      var key := KeyOf(b);
      if key in bundles {
        return if Verify(Contents(), bundles[key], limits) then Ok(bundles[key]) else Raised(IntegrityError);
      }
      bundles := bundles[key := b];
      contents := contents[key := bytes];
      assert Contents() == old(Contents())[key := Entry(b, bytes)];
      return Ok(b);
    }

    method OpenArtifact(b: Bundle, name: string) returns (result: Result<Bytes, StoreError>)
      requires Valid()
      ensures result == Open(Contents(), b, name, limits)
    {
      if !ValidBundle(b, limits) {
        return Raised(IntegrityError);
      }
      var fault := CheckName(name, limits);
      if fault.Some? {
        return Raised(fault.value);
      }
      var key := KeyOf(b);
      if key !in bundles || bundles[key] != b {
        return Raised(NotFound);
      }
      if !Verify(Contents(), b, limits) {
        return Raised(IntegrityError);
      }
      if name !in contents[key] {
        return Raised(NotFound);
      }
      return Ok(contents[key][name]);
    }
  }
}
