/** What reads back from a manifest, what finalizing accepts, and what a bundle's digest identifies. */
module ManifestReading {
  import opened Options
  import opened Json
  import opened CanonicalJson
  import opened Manifests
  import opened ManifestIdentity

  // ----- reading inverts writing -----

  lemma ReadsWhatWasDescribed(d: Descriptor, limits: Limits, total: nat)
    requires ValidDescriptor(d, limits) && total + d.byteLength <= limits.maxTotalBytes
    ensures ReadDescriptor(Meaning(AsDict(d)), limits, total) == Some(d)
  {
    DictEntries(d);
  }

  lemma ReadsOnlyDescribed(raw: Data, limits: Limits, total: nat)
    requires ReadDescriptor(raw, limits, total).Some?
    ensures
      var d := ReadDescriptor(raw, limits, total).value;
      raw == Meaning(AsDict(d)) && ValidDescriptor(d, limits) && total + d.byteLength <= limits.maxTotalBytes
  {
    var d := ReadDescriptor(raw, limits, total).value;
    DictEntries(d);
    assert raw.entries == Meaning(AsDict(d)).entries;
  }

  function DictData(ds: seq<Descriptor>): seq<Data> {
    seq(|ds|, i requires 0 <= i < |ds| => Meaning(AsDict(ds[i])))
  }

  ghost predicate Unnamed(ds: seq<Descriptor>, names: set<string>) {
    forall i :: 0 <= i < |ds| ==> ds[i].name !in names
  }

  ghost predicate AllValid(ds: seq<Descriptor>, limits: Limits) {
    forall i :: 0 <= i < |ds| ==> ValidDescriptor(ds[i], limits)
  }

  lemma ReadAllStep(raws: seq<Data>, limits: Limits, names: set<string>, total: nat, d: Descriptor, more: seq<Descriptor>)
    requires raws != [] && ReadDescriptor(raws[0], limits, total) == Some(d) && d.name !in names
    requires ReadAll(raws[1..], limits, names + {d.name}, total + d.byteLength) == Some(more)
    ensures ReadAll(raws, limits, names, total) == Some([d] + more)
  {
  }

  lemma {:induction false} ReadsAllDescribed(ds: seq<Descriptor>, limits: Limits, names: set<string>, total: nat)
    requires AllValid(ds, limits) && DistinctNames(ds) && Unnamed(ds, names)
    requires total + TotalBytes(ds) <= limits.maxTotalBytes
    ensures ReadAll(DictData(ds), limits, names, total) == Some(ds)
  {
    hide ValidDescriptor, ReadDescriptor, AsDict;
    if ds != [] {
      var d, tail := ds[0], ds[1..];
      assert ValidDescriptor(ds[0], limits);
      ReadsWhatWasDescribed(d, limits, total);
      assert AllValid(tail, limits) && DistinctNames(tail) && Unnamed(tail, names + {d.name});
      ReadsAllDescribed(tail, limits, names + {d.name}, total + d.byteLength);
      assert DictData(ds)[1..] == DictData(tail);
      assert [d] + tail == ds;
      ReadAllStep(DictData(ds), limits, names, total, d, tail);
    }
  }

  lemma {:induction false} ReadAllGivesDescribed(raws: seq<Data>, limits: Limits, names: set<string>, total: nat)
    requires ReadAll(raws, limits, names, total).Some?
    ensures
      var ds := ReadAll(raws, limits, names, total).value;
      && raws == DictData(ds)
      && AllValid(ds, limits) && DistinctNames(ds) && Unnamed(ds, names)
      && (ds == [] || total + TotalBytes(ds) <= limits.maxTotalBytes)
  {
    hide ValidDescriptor, ReadDescriptor, AsDict;
    if raws != [] {
      var d := ReadDescriptor(raws[0], limits, total).value;
      ReadsOnlyDescribed(raws[0], limits, total);
      ReadAllGivesDescribed(raws[1..], limits, names + {d.name}, total + d.byteLength);
      var more := ReadAll(raws[1..], limits, names + {d.name}, total + d.byteLength).value;
      ReadAllStep(raws, limits, names, total, d, more);
      DescribedStep(d, more, limits, names);
      assert raws == [raws[0]] + raws[1..] && DictData([d] + more) == [raws[0]] + DictData(more);
      assert ([d] + more)[1..] == more;
    }
  }

  lemma DescribedStep(d: Descriptor, more: seq<Descriptor>, limits: Limits, names: set<string>)
    requires ValidDescriptor(d, limits) && d.name !in names
    requires AllValid(more, limits) && DistinctNames(more) && Unnamed(more, names + {d.name})
    ensures AllValid([d] + more, limits) && DistinctNames([d] + more) && Unnamed([d] + more, names)
  {
  }

  /** Reading the manifest of valid descriptors gives them back in name order. */
  lemma ReadingInvertsWriting(ds: seq<Descriptor>, limits: Limits)
    requires ValidDescriptors(ds, limits)
    ensures ReadDescriptors(Meaning(ManifestOf(ds)), limits) == Some(SortByName(ds))
  {
    var s := SortByName(ds);
    SortedDescriptors(ds);
    SortPermutes(ds);
    SortIsIdempotent(ds);
    ManifestEntries(ds);
    TextDetermines(ds, s);
    forall i | 0 <= i < |s| ensures ValidDescriptor(s[i], limits) {
      assert s[i] in ds;
    }
    assert Meaning(ManifestOf(ds)).entries["artifacts"].elements == DictData(s);
    ReadsAllDescribed(s, limits, {}, 0);
    assert ManifestOf(s) == ManifestOf(ds);
  }

  /** And nothing else reads: a readable manifest is the canonical one of the valid list it gives. */
  lemma OnlyCanonicalManifestsRead(manifest: Data, limits: Limits)
    requires ReadDescriptors(manifest, limits).Some?
    ensures
      var ds := ReadDescriptors(manifest, limits).value;
      ValidDescriptors(ds, limits) && SortByName(ds) == ds && manifest == Meaning(ManifestOf(ds))
  {
    var raws := manifest.entries["artifacts"].elements;
    ReadAllGivesDescribed(raws, limits, {}, 0);
    var read := ReadAll(raws, limits, {}, 0).value;
    var ds := SortByName(read);
    SortedDescriptors(read);
    SortPermutes(read);
    SortIsIdempotent(read);
    forall i | 0 <= i < |ds| ensures ValidDescriptor(ds[i], limits) {
      assert ds[i] in read;
    }
  }

  /** A stored manifest reads exactly when no number in it is a whole float and it means the canonical
      manifest of some valid descriptors, which it then gives in name order. */
  lemma ManifestsThatRead(v: Json, limits: Limits)
    ensures ReadManifest(v, limits).Some? <==>
      Printable(v) && exists ds :: ValidDescriptors(ds, limits) && Meaning(v) == Meaning(ManifestOf(ds))
    ensures forall ds :: ReadManifest(v, limits) == Some(ds) ==>
      ValidDescriptors(ds, limits) && SortByName(ds) == ds && Meaning(v) == Meaning(ManifestOf(ds))
  {
    if ReadManifest(v, limits).Some? {
      OnlyCanonicalManifestsRead(Meaning(v), limits);
    }
    if Printable(v) && exists ds :: ValidDescriptors(ds, limits) && Meaning(v) == Meaning(ManifestOf(ds)) {
      var ds :| ValidDescriptors(ds, limits) && Meaning(v) == Meaning(ManifestOf(ds));
      ReadingInvertsWriting(ds, limits);
    }
  }

  // ----- what finalizing accepts -----

  predicate AllSourced(a: seq<Artifact>) {
    forall i :: 0 <= i < |a| ==> a[i].source.Some?
  }

  function Describing(artifacts: seq<Artifact>): seq<Descriptor>
    requires AllSourced(artifacts)
  {
    seq(|artifacts|, i requires 0 <= i < |artifacts| => Describe(artifacts[i]))
  }

  /** Acceptability as a property of the artifacts, whatever their order. */
  ghost predicate Acceptable(artifacts: seq<Artifact>, limits: Limits) {
    && AllSourced(artifacts)
    && ValidDescriptors(Describing(artifacts), limits)
  }

  ghost predicate InputsValid(artifacts: seq<Artifact>, limits: Limits, names: set<string>) {
    && (forall i :: 0 <= i < |artifacts| ==>
          ValidLabels(artifacts[i].name, artifacts[i].role, artifacts[i].mediaType, limits) && artifacts[i].name !in names)
    && forall i, j :: 0 <= i < j < |artifacts| ==> artifacts[i].name != artifacts[j].name
  }

  lemma {:induction false} InputsChecked(artifacts: seq<Artifact>, limits: Limits, names: set<string>)
    ensures CheckInputs(artifacts, limits, names).None? <==> InputsValid(artifacts, limits, names)
  {
    if artifacts != [] {
      var tail, a := artifacts[1..], artifacts[0];
      InputsChecked(tail, limits, names + {a.name});
      assert forall i :: 0 < i < |artifacts| ==> artifacts[i] == tail[i - 1];
      if InputsValid(tail, limits, names + {a.name}) && ValidLabels(a.name, a.role, a.mediaType, limits) && a.name !in names {
        forall i, j | 0 <= i < j < |artifacts| ensures artifacts[i].name != artifacts[j].name {
          assert artifacts[j] == tail[j - 1];
        }
      }
      if InputsValid(artifacts, limits, names) {
        forall i | 0 <= i < |tail| ensures tail[i].name !in names + {a.name} {
          assert tail[i] == artifacts[i + 1];
        }
      }
    }
  }

  ghost predicate Readable(artifacts: seq<Artifact>, limits: Limits) {
    forall i :: 0 <= i < |artifacts| ==>
      artifacts[i].source.Some? && |artifacts[i].source.value| <= limits.maxArtifactBytes
  }

  lemma {:induction false} SourcesRead(artifacts: seq<Artifact>, limits: Limits, total: nat)
    requires total <= limits.maxTotalBytes
    ensures ReadSources(artifacts, limits, total).Ok? <==>
      Readable(artifacts, limits) && total + TotalBytes(Describing(artifacts)) <= limits.maxTotalBytes
    ensures ReadSources(artifacts, limits, total).Ok? ==>
      ReadSources(artifacts, limits, total).value == Describing(artifacts)
  {
    if artifacts != [] {
      var tail, first := artifacts[1..], ReadSource(artifacts[0], limits, total);
      assert forall i :: 0 < i < |artifacts| ==> artifacts[i] == tail[i - 1];
      if first.Ok? {
        SourcesRead(tail, limits, total + first.value.byteLength);
      }
      if Readable(artifacts, limits) {
        assert Describing(artifacts)[1..] == Describing(tail);
        assert Describing(artifacts) == [Describe(artifacts[0])] + Describing(tail);
      }
    }
  }

  lemma ValidInputsDescribe(artifacts: seq<Artifact>, limits: Limits)
    requires AllSourced(artifacts)
    ensures InputsValid(artifacts, limits, {}) && Readable(artifacts, limits) <==>
      AllValid(Describing(artifacts), limits) && DistinctNames(Describing(artifacts))
  {
    var ds := Describing(artifacts);
    assert forall i :: 0 <= i < |ds| ==> ds[i] == Describe(artifacts[i]);
    forall i | 0 <= i < |ds|
      ensures ValidDescriptor(ds[i], limits) <==>
        && ValidLabels(artifacts[i].name, artifacts[i].role, artifacts[i].mediaType, limits)
        && |artifacts[i].source.value| <= limits.maxArtifactBytes
    {
    }
    if AllValid(ds, limits) && DistinctNames(ds) {
      forall i, j | 0 <= i < j < |artifacts| ensures artifacts[i].name != artifacts[j].name {
        assert ds[i].name != ds[j].name;
      }
      forall i | 0 <= i < |artifacts| ensures ValidDescriptor(ds[i], limits) {
      }
    }
  }

  /** Finalization prepares exactly the acceptable inputs, and then describes each artifact. */
  lemma PreparesTheAcceptable(artifacts: seq<Artifact>, limits: Limits)
    ensures Prepare(artifacts, limits).Ok? <==> Acceptable(artifacts, limits)
    ensures Prepare(artifacts, limits).Ok? ==> Prepare(artifacts, limits).value == Describing(artifacts)
  {
    InputsChecked(artifacts, limits, {});
    SourcesRead(artifacts, limits, 0);
    if AllSourced(artifacts) {
      ValidInputsDescribe(artifacts, limits);
    }
  }

  /** Preparing raises nothing but validation errors and exceeded limits. */
  lemma PreparationRefuses(artifacts: seq<Artifact>, limits: Limits)
    ensures ValidateInputs(artifacts, limits).Some? ==> Refusal(ValidateInputs(artifacts, limits).value)
    ensures Prepare(artifacts, limits).Raised? ==> Refusal(Prepare(artifacts, limits).error)
  {
    InputsRefuse(artifacts, limits, {});
    SourcesRefuse(artifacts, limits, 0);
  }

  predicate Refusal(e: StoreError) {
    e.Invalid? || e.LimitExceeded?
  }

  lemma {:induction false} InputsRefuse(artifacts: seq<Artifact>, limits: Limits, names: set<string>)
    ensures CheckInputs(artifacts, limits, names).Some? ==> Refusal(CheckInputs(artifacts, limits, names).value)
  {
    if artifacts != [] {
      InputsRefuse(artifacts[1..], limits, names + {artifacts[0].name});
    }
  }

  lemma {:induction false} SourcesRefuse(artifacts: seq<Artifact>, limits: Limits, total: nat)
    ensures ReadSources(artifacts, limits, total).Raised? ==> Refusal(ReadSources(artifacts, limits, total).error)
  {
    if artifacts != [] && ReadSource(artifacts[0], limits, total).Ok? {
      SourcesRefuse(artifacts[1..], limits, total + ReadSource(artifacts[0], limits, total).value.byteLength);
    }
  }

  // ----- order and identity -----

  ghost predicate NamesDiffer(a: seq<Artifact>) {
    forall i, j :: 0 <= i < j < |a| ==> a[i].name != a[j].name
  }

  lemma {:induction false} NamedOnce(a: seq<Artifact>, x: Artifact)
    requires NamesDiffer(a)
    ensures multiset(a)[x] <= 1
  {
    if a != [] {
      NamedOnce(a[1..], x);
      assert a == [a[0]] + a[1..];
    }
  }

  lemma OccursTwice(b: seq<Artifact>, i: nat, j: nat)
    requires i < j < |b| && b[i] == b[j]
    ensures multiset(b)[b[i]] >= 2
  {
    assert b == b[..i] + [b[i]] + b[i + 1..j] + [b[j]] + b[j + 1..];
  }

  lemma ReorderingKeepsNamesDistinct(a: seq<Artifact>, b: seq<Artifact>)
    requires NamesDiffer(a) && multiset(a) == multiset(b)
    ensures NamesDiffer(b) && |a| == |b| && forall x :: x in a <==> x in b
  {
    assert |multiset(a)| == |a| && |multiset(b)| == |b|;
    forall x ensures x in a <==> x in b {
      assert x in multiset(a) <==> x in multiset(b);
    }
    forall i, j | 0 <= i < j < |b| ensures b[i].name != b[j].name {
      if b[i].name == b[j].name {
        assert b[i] in a && b[j] in a;
        var k :| 0 <= k < |a| && a[k] == b[i];
        var l :| 0 <= l < |a| && a[l] == b[j];
        assert k == l;
        OccursTwice(b, i, j);
        NamedOnce(a, b[i]);
      }
    }
  }

  lemma DescribedIn(a: seq<Artifact>, b: seq<Artifact>)
    requires AllSourced(a) && AllSourced(b) && forall x :: x in a ==> x in b
    ensures forall d :: d in Describing(a) ==> d in Describing(b)
  {
    forall i | 0 <= i < |a| ensures Describing(a)[i] in Describing(b) {
      assert a[i] in b;
      var j :| 0 <= j < |b| && b[j] == a[i];
      assert Describing(b)[j] == Describing(a)[i];
    }
  }

  /** The source bytes of some artifacts. */
  function BytesOf(artifacts: seq<Artifact>): set<Bytes> {
    set i | 0 <= i < |artifacts| && artifacts[i].source.Some? :: artifacts[i].source.value
  }

  lemma OnlyFromArtifacts(a: seq<Artifact>, b: seq<Artifact>)
    requires AllSourced(a) && AllSourced(b) && NoCollision(BytesOf(a) + BytesOf(b), {})
    requires forall d :: d in Describing(a) ==> d in Describing(b)
    ensures forall x :: x in a ==> x in b
  {
    forall i | 0 <= i < |a| ensures a[i] in b {
      assert Describing(a)[i] in Describing(b);
      var j :| 0 <= j < |b| && Describing(b)[j] == Describing(a)[i];
      assert a[i].source.value in BytesOf(a) && b[j].source.value in BytesOf(b);
      assert b[j] == a[i];
    }
  }

  lemma ReorderedIsAcceptable(a: seq<Artifact>, b: seq<Artifact>, limits: Limits)
    requires multiset(a) == multiset(b) && Acceptable(a, limits)
    ensures Acceptable(b, limits) && ManifestText(Describing(a)) == ManifestText(Describing(b))
  {
    hide ManifestText, TotalBytes;
    var ds := Describing(a);
    forall i, j | 0 <= i < j < |a| ensures a[i].name != a[j].name {
      assert ds[i].name != ds[j].name;
    }
    ReorderingKeepsNamesDistinct(a, b);
    forall i | 0 <= i < |b| ensures b[i].source.Some? {
      assert b[i] in a;
    }
    DescribedIn(a, b);
    DescribedIn(b, a);
    SameDescriptorsAreValid(ds, Describing(b), limits);
  }

  lemma SameDescriptorsAreValid(ds: seq<Descriptor>, es: seq<Descriptor>, limits: Limits)
    requires ValidDescriptors(ds, limits) && DistinctNames(es) && |ds| == |es|
    requires forall d :: d in ds <==> d in es
    ensures ValidDescriptors(es, limits) && ManifestText(ds) == ManifestText(es)
  {
    SortForgetsOrder(ds, es);
    TextDetermines(ds, es);
    SortPermutes(ds);
    SortPermutes(es);
    forall i | 0 <= i < |es| ensures ValidDescriptor(es[i], limits) {
      assert es[i] in ds;
    }
  }

  /** Permuting the artifacts changes neither whether finalizing succeeds nor the identity. */
  lemma OrderIsIrrelevant(a: seq<Artifact>, b: seq<Artifact>, limits: Limits)
    requires multiset(a) == multiset(b)
    ensures Prepare(a, limits).Ok? <==> Prepare(b, limits).Ok?
    ensures Prepare(a, limits).Ok? ==> ManifestText(Prepare(a, limits).value) == ManifestText(Prepare(b, limits).value)
  {
    PreparesTheAcceptable(a, limits);
    PreparesTheAcceptable(b, limits);
    if Acceptable(a, limits) { ReorderedIsAcceptable(a, b, limits); }
    if Acceptable(b, limits) { ReorderedIsAcceptable(b, a, limits); }
  }

  /** Where these digests do not collide, one identity means the same names, roles, media types and bytes. */
  lemma DigestIdentifiesArtifacts(a: seq<Artifact>, b: seq<Artifact>, limits: Limits)
    requires Acceptable(a, limits) && Acceptable(b, limits)
    requires NoCollision(BytesOf(a) + BytesOf(b), {ManifestText(Describing(a)), ManifestText(Describing(b))})
    ensures ManifestDigest(ManifestText(Describing(a))) == ManifestDigest(ManifestText(Describing(b))) <==>
      forall x :: x in a <==> x in b
  {
    var ds, es := Describing(a), Describing(b);
    TextDetermines(ds, es);
    if forall x :: x in a <==> x in b {
      DescribedIn(a, b);
      DescribedIn(b, a);
      SortForgetsOrder(ds, es);
    }
    if SortByName(ds) == SortByName(es) {
      SortedDescriptors(ds);
      SortedDescriptors(es);
      assert BytesOf(b) + BytesOf(a) == BytesOf(a) + BytesOf(b);
      OnlyFromArtifacts(a, b);
      OnlyFromArtifacts(b, a);
    }
  }
}
