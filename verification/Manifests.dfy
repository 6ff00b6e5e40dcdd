/**
 * Evidence manifests: what finalizing a bundle accepts, the canonical manifest that is its identity,
 * and reading a manifest back.
 */
module Manifests {
  import opened Options
  import opened Json
  import opened CanonicalJson

  type Bytes = seq<bv8>

  const MANIFEST_VERSION := "evidence-bundle/v1"
  const MANIFEST_KEYS := {"manifest_version", "artifacts"}
  const DESCRIPTOR_KEYS := {"name", "role", "sha256", "byte_length", "media_type"}

  predicate IsHexDigest(s: string) {
    |s| == 64 && forall i :: 0 <= i < |s| ==> '0' <= s[i] <= '9' || 'a' <= s[i] <= 'f'
  }

  const ZERO_DIGEST := seq(64, _ => '0')

  type HexDigest = s: string | IsHexDigest(s) witness ZERO_DIGEST

  /** SHA-256 in hex, of an artifact's bytes and of a manifest's text: any functions to hex digests. */
  const ContentDigest: Bytes -> HexDigest
  const ManifestDigest: string -> HexDigest

  /** No two of these byte strings share a digest, and no two of these texts. Digests are finitely many,
      so this can only be asked of the contents that occur; each result that needs it says of which. */
  ghost predicate NoCollision(contents: set<Bytes>, texts: set<string>) {
    && (forall a, b :: a in contents && b in contents && ContentDigest(a) == ContentDigest(b) ==> a == b)
    && forall s, t :: s in texts && t in texts && ManifestDigest(s) == ManifestDigest(t) ==> s == t
  }

  datatype Limits = Limits(
    maxArtifacts: nat,
    maxArtifactBytes: nat,
    maxTotalBytes: nat,
    maxManifestBytes: nat,
    maxNameBytes: nat,
    maxRoleBytes: nat,
    maxMediaTypeBytes: nat)

  /** ArtifactValidationError and its subclass, and an operating system error nobody catches. */
  datatype StoreError = Invalid | LimitExceeded | SystemError | IntegrityError | NotFound

  /** A caller's artifact. Its source is None when the file cannot be read, is not regular, or changes
      while it is read. */
  datatype Artifact = Artifact(name: string, role: string, mediaType: string, source: Option<Bytes>)

  datatype Descriptor = Descriptor(
    name: string, role: string, digest: string, byteLength: nat, mediaType: string)

  // ----- validation of texts and names -----

  function Utf8Length(s: string): nat {
    if s == "" then 0
    else (if s[0] as int < 0x80 then 1 else if s[0] as int < 0x800 then 2
          else if s[0] as int < 0x10000 then 3 else 4) + Utf8Length(s[1..])
  }

  function CheckText(value: string, maxBytes: nat): Option<StoreError> {
    if value == "" || '\0' in value then Some(Invalid)
    else if Utf8Length(value) > maxBytes then Some(LimitExceeded)
    else None
  }

  /** The text between slashes. */
  function Segments(name: string): (r: seq<string>)
    ensures |r| > 0
  {
    if name == "" then [""]
    else
      var tail := Segments(name[1..]);
      if name[0] == '/' then [""] + tail else [[name[0]] + tail[0]] + tail[1..]
  }

  /** Canonical relative names only; a second character ':' is a Windows drive. */
  function CheckName(name: string, limits: Limits): Option<StoreError> {
    var text := CheckText(name, limits.maxNameBytes);
    if text.Some? then text
    else if name[0] == '/' || name[0] == '\\' || (|name| > 1 && name[1] == ':') then Some(Invalid)
    else if '\\' in name then Some(Invalid)
    else if "" in Segments(name) || "." in Segments(name) || ".." in Segments(name) then Some(Invalid)
    else None
  }

  predicate ValidLabels(name: string, role: string, mediaType: string, limits: Limits) {
    && CheckName(name, limits).None?
    && CheckText(role, limits.maxRoleBytes).None?
    && CheckText(mediaType, limits.maxMediaTypeBytes).None?
  }

  // ----- the canonical manifest -----

  function InsertByName(d: Descriptor, sorted: seq<Descriptor>): seq<Descriptor> {
    if sorted == [] || KeyBefore(Python, d.name, sorted[0].name) then [d] + sorted
    else [sorted[0]] + InsertByName(d, sorted[1..])
  }

  function SortByName(ds: seq<Descriptor>): seq<Descriptor> {
    if ds == [] then [] else InsertByName(ds[0], SortByName(ds[1..]))
  }

  function AsDict(d: Descriptor): Json {
    Obj([Member("name", Str(d.name)), Member("role", Str(d.role)), Member("sha256", Str(d.digest)),
         Member("byte_length", Num(Whole(d.byteLength))), Member("media_type", Str(d.mediaType))])
  }

  function Dicts(ds: seq<Descriptor>): seq<Json> {
    seq(|ds|, i requires 0 <= i < |ds| => AsDict(ds[i]))
  }

  function ManifestOf(ds: seq<Descriptor>): Json {
    Obj([Member("manifest_version", Str(MANIFEST_VERSION)), Member("artifacts", Arr(Dicts(SortByName(ds))))])
  }

  function ManifestText(ds: seq<Descriptor>): string {
    CanonicalText(Python, ManifestOf(ds))
  }

  // ----- reading a manifest -----

  function TextField(d: map<string, Data>, key: string): Option<string> {
    if key in d && d[key].Scalar? && d[key].v.Str? then Some(d[key].v.s) else None
  }

  function CountField(d: map<string, Data>, key: string): Option<nat> {
    if key in d && d[key].Scalar? && d[key].v.Num? && d[key].v.n.Whole? && d[key].v.n.i >= 0
    then Some(d[key].v.n.i) else None
  }

  function ReadDescriptor(raw: Data, limits: Limits, total: nat): Option<Descriptor> {
    if !raw.Dict? || raw.entries.Keys != DESCRIPTOR_KEYS then None
    else
      var d := raw.entries;
      match (TextField(d, "name"), TextField(d, "role"), TextField(d, "sha256"),
             CountField(d, "byte_length"), TextField(d, "media_type"))
      case (Some(name), Some(role), Some(digest), Some(byteLength), Some(mediaType)) =>
        if !ValidLabels(name, role, mediaType, limits) || !IsHexDigest(digest) then None
        else if byteLength > limits.maxArtifactBytes || total + byteLength > limits.maxTotalBytes then None
        else Some(Descriptor(name, role, digest, byteLength, mediaType))
      case _ => None
  }

  function ReadAll(raws: seq<Data>, limits: Limits, names: set<string>, total: nat): Option<seq<Descriptor>> {
    if raws == [] then Some([])
    else
      var d := ReadDescriptor(raws[0], limits, total);
      if d.None? || d.value.name in names then None
      else
        var more := ReadAll(raws[1..], limits, names + {d.value.name}, total + d.value.byteLength);
        if more.None? then None else Some([d.value] + more.value)
  }

  /** The descriptors of a manifest, when it is exactly the canonical manifest of what it lists. A
      manifest over the size limit raises in the source; every caller treats both as a failed check. */
  function ReadDescriptors(manifest: Data, limits: Limits): Option<seq<Descriptor>> {
    if !manifest.Dict? || manifest.entries.Keys != MANIFEST_KEYS then None
    else if TextField(manifest.entries, "manifest_version") != Some(MANIFEST_VERSION) then None
    else
      var raw := manifest.entries["artifacts"];
      if !raw.List? || raw.elements == [] || |raw.elements| > limits.maxArtifacts then None
      else
        var ds := ReadAll(raw.elements, limits, {}, 0);
        if ds.None? then None
        else
          var ordered := SortByName(ds.value);
          if Utf8Length(ManifestText(ordered)) > limits.maxManifestBytes then None
          else if Meaning(ManifestOf(ordered)) != manifest then None
          else Some(ordered)
  }

  /** Reading a parsed manifest.json: a length written as a float is no int, whatever its value. */
  function ReadManifest(v: Json, limits: Limits): Option<seq<Descriptor>> {
    if Printable(v) then ReadDescriptors(Meaning(v), limits) else None
  }

  // ----- what finalizing accepts -----

  /** The first fault of the inputs in order, as _validate_inputs raises it. */
  function CheckInputs(artifacts: seq<Artifact>, limits: Limits, names: set<string>): Option<StoreError> {
    if artifacts == [] then None
    else
      var a := artifacts[0];
      var name, role := CheckName(a.name, limits), CheckText(a.role, limits.maxRoleBytes);
      var mediaType := CheckText(a.mediaType, limits.maxMediaTypeBytes);
      if name.Some? then name
      else if role.Some? then role
      else if mediaType.Some? then mediaType
      else if a.name in names then Some(Invalid)
      else CheckInputs(artifacts[1..], limits, names + {a.name})
  }

  function ValidateInputs(artifacts: seq<Artifact>, limits: Limits): Option<StoreError> {
    var fault := CheckInputs(artifacts, limits, {});
    if fault.Some? then fault
    else if artifacts == [] || |artifacts| > limits.maxArtifacts then Some(LimitExceeded)
    else None
  }

  function Describe(a: Artifact): Descriptor
    requires a.source.Some?
  {
    Descriptor(a.name, a.role, ContentDigest(a.source.value), |a.source.value|, a.mediaType)
  }

  /** Reading one source, given the bytes already read for the bundle. */
  function ReadSource(a: Artifact, limits: Limits, total: nat): Result<Descriptor, StoreError> {
    if a.source.None? then Raised(Invalid)
    else if |a.source.value| > limits.maxArtifactBytes then Raised(LimitExceeded)
    else if total + |a.source.value| > limits.maxTotalBytes then Raised(LimitExceeded)
    else Ok(Describe(a))
  }

  function ReadSources(artifacts: seq<Artifact>, limits: Limits, total: nat): Result<seq<Descriptor>, StoreError> {
    if artifacts == [] then Ok([])
    else
      match ReadSource(artifacts[0], limits, total)
      case Raised(e) => Raised(e)
      case Ok(d) =>
        match ReadSources(artifacts[1..], limits, total + d.byteLength)
        case Raised(e) => Raised(e)
        case Ok(more) => Ok([d] + more)
  }

  /** Everything finalization checks before it publishes; the descriptors in input order. */
  function Prepare(artifacts: seq<Artifact>, limits: Limits): Result<seq<Descriptor>, StoreError> {
    var fault := ValidateInputs(artifacts, limits);
    if fault.Some? then Raised(fault.value)
    else
      match ReadSources(artifacts, limits, 0)
      case Raised(e) => Raised(e)
      case Ok(ds) => if Utf8Length(ManifestText(ds)) > limits.maxManifestBytes then Raised(LimitExceeded) else Ok(ds)
  }
}
