/** The manifest identifies a bundle: reading inverts writing, order is irrelevant, digests separate. */
module ManifestIdentity {
  import opened Options
  import opened Json
  import opened JsonRoundTrip
  import opened CanonicalJson
  import opened Manifests

  // ----- acceptability, without order -----

  function TotalBytes(ds: seq<Descriptor>): nat {
    if ds == [] then 0 else ds[0].byteLength + TotalBytes(ds[1..])
  }

  ghost predicate DistinctNames(ds: seq<Descriptor>) {
    forall i, j :: 0 <= i < j < |ds| ==> ds[i].name != ds[j].name
  }

  predicate ValidDescriptor(d: Descriptor, limits: Limits) {
    ValidLabels(d.name, d.role, d.mediaType, limits) && IsHexDigest(d.digest) && d.byteLength <= limits.maxArtifactBytes
  }

  ghost predicate ValidDescriptors(ds: seq<Descriptor>, limits: Limits) {
    && 0 < |ds| <= limits.maxArtifacts
    && (forall i :: 0 <= i < |ds| ==> ValidDescriptor(ds[i], limits))
    && DistinctNames(ds)
    && TotalBytes(ds) <= limits.maxTotalBytes
    && Utf8Length(ManifestText(ds)) <= limits.maxManifestBytes
  }

  // ----- sorting descriptors -----

  function Keyed(ds: seq<Descriptor>): seq<Member> {
    seq(|ds|, i requires 0 <= i < |ds| => Member(ds[i].name, AsDict(ds[i])))
  }

  lemma {:induction false} InsertIsKeyed(d: Descriptor, ds: seq<Descriptor>)
    ensures Keyed(InsertByName(d, ds)) == Insert(Python, Member(d.name, AsDict(d)), Keyed(ds))
  {
    if ds == [] || KeyBefore(Python, d.name, ds[0].name) {
      assert Keyed([d] + ds) == [Member(d.name, AsDict(d))] + Keyed(ds);
    } else {
      InsertIsKeyed(d, ds[1..]);
      assert Keyed(ds)[1..] == Keyed(ds[1..]);
      var tail := InsertByName(d, ds[1..]);
      assert Keyed([ds[0]] + tail) == [Keyed(ds)[0]] + Keyed(tail);
    }
  }

  lemma {:induction false} SortIsKeyed(ds: seq<Descriptor>)
    ensures Keyed(SortByName(ds)) == Sort(Python, Keyed(ds))
  {
    if ds != [] {
      SortIsKeyed(ds[1..]);
      InsertIsKeyed(ds[0], SortByName(ds[1..]));
      assert Keyed(ds)[1..] == Keyed(ds[1..]);
    }
  }

  lemma AsDictDetermines(d: Descriptor, e: Descriptor)
    requires Meaning(AsDict(d)) == Meaning(AsDict(e))
    ensures d == e
  {
    DictEntries(d);
    DictEntries(e);
  }

  lemma FieldNamesDiffer()
    ensures "name" != "role" && |"name"| == |"role"| == 4 && |"sha256"| == 6
    ensures |"byte_length"| == 11 && |"media_type"| == 10 && |"manifest_version"| == 16 && |"artifacts"| == 9
  {
  }

  lemma DictEntries(d: Descriptor)
    ensures
      var m := Meaning(AsDict(d)).entries;
      && m.Keys == DESCRIPTOR_KEYS
      && m["name"] == Scalar(Str(d.name)) && m["role"] == Scalar(Str(d.role))
      && m["sha256"] == Scalar(Str(d.digest)) && m["byte_length"] == Scalar(Num(Whole(d.byteLength)))
      && m["media_type"] == Scalar(Str(d.mediaType))
    ensures WellFormed(AsDict(d))
  {
    hide IsIndex, AllDigits, Entries;
    var fields := AsDict(d).members;
    FieldNamesDiffer();
    assert DistinctKeys(fields);
    FiveEntries(fields);
  }

  lemma FiveEntries(fields: seq<Member>)
    requires |fields| == 5 && DistinctKeys(fields)
    ensures Entries(fields).Keys == {fields[0].key, fields[1].key, fields[2].key, fields[3].key, fields[4].key}
    ensures forall i :: 0 <= i < 5 ==>
      fields[i].key in Entries(fields) && Entries(fields)[fields[i].key] == Meaning(fields[i].value)
  {
    hide Entries;
    EntriesOf(fields);
  }

  lemma SortedDescriptors(ds: seq<Descriptor>)
    requires DistinctNames(ds)
    ensures forall d :: d in SortByName(ds) <==> d in ds
    ensures StrictlySorted(Python, Keyed(SortByName(ds)))
    ensures DistinctNames(SortByName(ds)) && |SortByName(ds)| == |ds|
  {
    var s := SortByName(ds);
    SortIsKeyed(ds);
    SortSorts(Python, Keyed(ds));
    SortedKeysAreDistinct(Python, Keyed(s));
    forall i, j | 0 <= i < j < |s| ensures s[i].name != s[j].name {
      assert Keyed(s)[i].key != Keyed(s)[j].key;
    }
    SortPermutes(ds);
    forall d ensures d in s <==> d in ds {
      assert d in multiset(s) <==> d in multiset(ds);
    }
  }

  lemma {:induction false} InsertPermutes(d: Descriptor, ds: seq<Descriptor>)
    ensures multiset(InsertByName(d, ds)) == multiset(ds) + multiset{d}
    ensures TotalBytes(InsertByName(d, ds)) == TotalBytes(ds) + d.byteLength
    ensures |InsertByName(d, ds)| == |ds| + 1
  {
    if ds == [] || KeyBefore(Python, d.name, ds[0].name) {
    } else {
      InsertPermutes(d, ds[1..]);
      assert ds == [ds[0]] + ds[1..];
    }
  }

  lemma {:induction false} SortPermutes(ds: seq<Descriptor>)
    ensures multiset(SortByName(ds)) == multiset(ds)
    ensures TotalBytes(SortByName(ds)) == TotalBytes(ds)
    ensures |SortByName(ds)| == |ds|
  {
    if ds != [] {
      SortPermutes(ds[1..]);
      InsertPermutes(ds[0], SortByName(ds[1..]));
      assert ds == [ds[0]] + ds[1..];
    }
  }

  /** Any two lists of the same distinctly named descriptors sort alike. */
  lemma SortForgetsOrder(ds: seq<Descriptor>, es: seq<Descriptor>)
    requires DistinctNames(ds) && DistinctNames(es) && forall d :: d in ds <==> d in es
    ensures SortByName(ds) == SortByName(es)
  {
    var s, t := SortByName(ds), SortByName(es);
    SortedDescriptors(ds);
    SortedDescriptors(es);
    KeyedMembership(s, t);
    KeyedMembership(t, s);
    SortedListsAgree(Python, Keyed(s), Keyed(t));
    forall i | 0 <= i < |s| ensures s[i] == t[i] {
      assert Keyed(s)[i] == Keyed(t)[i];
      AsDictDetermines(s[i], t[i]);
    }
  }

  lemma KeyedMembership(s: seq<Descriptor>, t: seq<Descriptor>)
    requires forall d :: d in s ==> d in t
    ensures forall m :: m in Keyed(s) ==> m in Keyed(t)
  {
    forall i | 0 <= i < |s| ensures Keyed(s)[i] in Keyed(t) {
      assert s[i] in t;
      var j :| 0 <= j < |t| && t[j] == s[i];
      assert Keyed(t)[j] == Keyed(s)[i];
    }
  }

  lemma SortIsIdempotent(ds: seq<Descriptor>)
    requires DistinctNames(ds)
    ensures SortByName(SortByName(ds)) == SortByName(ds)
  {
    SortedDescriptors(ds);
    SortForgetsOrder(SortByName(ds), ds);
  }

  // ----- the manifest as data -----

  lemma ManifestEntries(ds: seq<Descriptor>)
    ensures
      var m := Meaning(ManifestOf(ds)).entries;
      && m.Keys == MANIFEST_KEYS
      && m["manifest_version"] == Scalar(Str(MANIFEST_VERSION))
      && m["artifacts"] == Meaning(Arr(Dicts(SortByName(ds))))
  {
    var fields := ManifestOf(ds).members;
    FieldNamesDiffer();
    assert fields[0].key == "manifest_version" && fields[1].key == "artifacts";
    EntriesOf(fields);
  }

  lemma ManifestIsWellFormed(ds: seq<Descriptor>)
    ensures WellFormed(ManifestOf(ds))
  {
    var s := SortByName(ds);
    FieldNamesDiffer();
    forall i | 0 <= i < |s| ensures WellFormed(Dicts(s)[i]) {
      DictEntries(s[i]);
    }
    assert WellFormed(Arr(Dicts(s)));
  }

  lemma ManifestDetermines(ds: seq<Descriptor>, es: seq<Descriptor>)
    requires Meaning(ManifestOf(ds)) == Meaning(ManifestOf(es))
    ensures SortByName(ds) == SortByName(es)
  {
    ManifestEntries(ds);
    ManifestEntries(es);
    var s, t := SortByName(ds), SortByName(es);
    var x, y := Meaning(Arr(Dicts(s))).elements, Meaning(Arr(Dicts(t))).elements;
    assert Meaning(ManifestOf(ds)).entries["artifacts"] == Meaning(Arr(Dicts(s)));
    assert Meaning(ManifestOf(es)).entries["artifacts"] == Meaning(Arr(Dicts(t)));
    assert |x| == |s| && |y| == |t|;
    forall i | 0 <= i < |s| ensures s[i] == t[i] {
      assert x[i] == y[i];
      AsDictDetermines(s[i], t[i]);
    }
  }

  /** One text, one list of descriptors: the converse of SortForgetsOrder. */
  lemma TextDetermines(ds: seq<Descriptor>, es: seq<Descriptor>)
    ensures ManifestText(ds) == ManifestText(es) <==> SortByName(ds) == SortByName(es)
  {
    ManifestIsWellFormed(ds);
    ManifestIsWellFormed(es);
    CanonicalTextIdentifiesData(Python, ManifestOf(ds), ManifestOf(es));
    if ManifestText(ds) == ManifestText(es) {
      ManifestDetermines(ds, es);
    }
  }

  /** A stored manifest.json parses to the manifest it was written from. */
  lemma StoredTextReadsBack(ds: seq<Descriptor>)
    ensures Loads(ManifestText(ds)).Some? && Printable(Loads(ManifestText(ds)).value)
    ensures Meaning(Loads(ManifestText(ds)).value) == Meaning(ManifestOf(ds))
  {
    ManifestIsWellFormed(ds);
    CanonicalTextReadsBack(Python, ManifestOf(ds));
    CanonicalIsPrintable(Python, ManifestOf(ds));
    MeaningIsKept(Python, ManifestOf(ds));
  }
}
