/**
 * Replaying raw evidence into conversations, versions and provenance edges, each under an identifier
 * derived from what it stands for.
 */
module Conversations {
  import opened Options
  import opened Json
  import opened Observations
  import opened CanonicalJson
  import opened ThreadNormalization
  import opened ContentIdentity

  /** uuid5 in the three namespaces: any functions on names. */
  const ConversationUuid: string -> string
  const VersionUuid: string -> string
  const ProvenanceUuid: string -> string

  ghost predicate UuidsAreInjective() {
    && (forall s, t :: ConversationUuid(s) == ConversationUuid(t) ==> s == t)
    && (forall s, t :: VersionUuid(s) == VersionUuid(t) ==> s == t)
    && forall s, t :: ProvenanceUuid(s) == ProvenanceUuid(t) ==> s == t
  }

  const PLATFORM := "reddit"

  function Joined(parts: seq<string>): string {
    if parts == [] then ""
    else if |parts| == 1 then parts[0]
    else parts[0] + ['\0'] + Joined(parts[1..])
  }

  function ConversationId(workspace: string, externalId: string): string {
    ConversationUuid(Joined([workspace, PLATFORM, externalId]))
  }

  function VersionId(conversationId: string, normalizer: string, contentSha: string): string {
    VersionUuid(Joined([conversationId, normalizer, contentSha]))
  }

  function EdgeId(versionId: string, observationId: string): string {
    ProvenanceUuid(Joined([versionId, observationId]))
  }

  lemma {:induction false} HeadSplits(a: string, x: string, b: string, y: string)
    requires NulFree(a) && NulFree(b) && a + ['\0'] + x == b + ['\0'] + y
    ensures a == b && x == y
  {
    var s, t := a + ['\0'] + x, b + ['\0'] + y;
    assert s[|a|] == '\0' && t[|b|] == '\0';
    assert a == s[..|a|] && b == t[..|b|] && x == s[|a| + 1..] && y == t[|b| + 1..];
  }

  /** Clean parts can be read back from the joined name. */
  lemma {:induction false} JoinedIsInjective(a: seq<string>, b: seq<string>)
    requires |a| == |b| && (forall s :: s in a ==> NulFree(s)) && (forall s :: s in b ==> NulFree(s))
    requires Joined(a) == Joined(b)
    ensures a == b
  {
    if |a| >= 2 {
      HeadSplits(a[0], Joined(a[1..]), b[0], Joined(b[1..]));
      JoinedIsInjective(a[1..], b[1..]);
      assert a == [a[0]] + a[1..] && b == [b[0]] + b[1..];
    }
  }

  // ----- rows -----

  datatype Conversation = Conversation(workspace: string, platform: string, externalId: string)

  datatype Version = Version(
    workspace: string, conversationId: string, normalizer: string, contentSha: string, sha: string, exhausted: bool)

  datatype Edge = Edge(workspace: string, versionId: string, observationId: string)

  datatype Tables = Tables(
    conversations: map<string, Conversation>, versions: map<string, Version>, edges: map<string, Edge>)

  /** A committed observation and what its verified bundle holds: the parsed raw artifact, or None when
      the bundle is missing, fails verification, or has no readable raw JSON. */
  datatype Source = Source(
    workspace: string, capability: Capability, status: ObservationStatus, evidenceState: EvidenceState,
    externalSourceId: Option<string>, frozenSha: Option<string>, frozenContentSha: Option<string>,
    raw: Option<Json>)

  type Evidence = map<string, Source>

  datatype ReplayError = LookupError | NormalizationError | IdentityConflict

  datatype Recorded = Recorded(
    conversationId: string, versionId: string, edgeId: string, versionCreated: bool, edgeCreated: bool)

  /** The full-content hash, which also covers volatile fields: any function on threads. */
  const FullHash: Thread -> string

  /** Everything checked before any row is touched. */
  function LoadNormalized(source: Source): Option<Thread> {
    if !source.capability.ThreadFetch? || !(source.status.Success? || source.status.Incomplete?) then None
    else if !source.evidenceState.Bundle? || source.externalSourceId.GetOr("") == "" || source.raw.None? then None
    else
      var thread := Normalize(Python, source.raw.value);
      if thread.None? then None
      else
        var t := thread.value;
        if t.post.id != Str(source.externalSourceId.value) then None
        else if source.frozenSha.Some? && source.frozenSha.value != FullHash(t) then None
        else if source.frozenContentSha.Some? && source.frozenContentSha.value != ContentHash(t) then None
        else if source.status.Success? != t.validation.exhausted then None
        else Some(t)
  }

  // ----- get or create -----

  /** The row under its derived id; a row elsewhere with the same unique columns refuses the insert. */
  function GetOrCreateConversation(t: Tables, row: Conversation): Result<Tables, ReplayError> {
    var id := ConversationId(row.workspace, row.externalId);
    if id in t.conversations then
      if t.conversations[id] == row then Ok(t) else Raised(IdentityConflict)
    else if row in t.conversations.Values then Raised(IdentityConflict)
    else Ok(t.(conversations := t.conversations[id := row]))
  }

  predicate SameIdentity(v: Version, w: Version) {
    v.conversationId == w.conversationId && v.normalizer == w.normalizer && v.contentSha == w.contentSha
  }

  /** A version that is there is returned as it is: its volatile hash stays the first writer's. */
  function GetOrCreateVersion(t: Tables, row: Version): Result<Tables, ReplayError> {
    var id := VersionId(row.conversationId, row.normalizer, row.contentSha);
    if id in t.versions then Ok(t)
    else if exists k :: k in t.versions && SameIdentity(t.versions[k], row) then Raised(IdentityConflict)
    else Ok(t.(versions := t.versions[id := row]))
  }

  function GetOrCreateEdge(t: Tables, row: Edge): Result<Tables, ReplayError> {
    var id := EdgeId(row.versionId, row.observationId);
    if id in t.edges then Ok(t)
    else if exists k :: k in t.edges && t.edges[k].versionId == row.versionId && t.edges[k].observationId == row.observationId
    then Raised(IdentityConflict)
    else Ok(t.(edges := t.edges[id := row]))
  }

  function ConversationRow(source: Source): Conversation
    requires source.externalSourceId.Some?
  {
    Conversation(source.workspace, PLATFORM, source.externalSourceId.value)
  }

  function VersionRow(source: Source, normalizer: string): Version
    requires LoadNormalized(source).Some?
  {
    var t := LoadNormalized(source).value;
    Version(source.workspace, ConversationIdOf(source), normalizer, ContentHash(t), FullHash(t), t.validation.exhausted)
  }

  function ConversationIdOf(source: Source): string
    requires source.externalSourceId.Some?
  {
    ConversationId(source.workspace, source.externalSourceId.value)
  }

  function VersionIdOf(source: Source, normalizer: string): string
    requires LoadNormalized(source).Some?
  {
    var row := VersionRow(source, normalizer);
    VersionId(row.conversationId, row.normalizer, row.contentSha)
  }

  function EdgeRow(source: Source, normalizer: string, observationId: string): Edge
    requires LoadNormalized(source).Some?
  {
    Edge(source.workspace, VersionIdOf(source, normalizer), observationId)
  }

  function EdgeIdOf(source: Source, normalizer: string, observationId: string): string
    requires LoadNormalized(source).Some?
  {
    EdgeId(VersionIdOf(source, normalizer), observationId)
  }

  predicate Eligible(evidence: Evidence, normalizer: string, observationId: string) {
    normalizer != "" && observationId in evidence && LoadNormalized(evidence[observationId]).Some?
  }

  function Store(t: Tables, source: Source, normalizer: string, observationId: string): Result<Tables, ReplayError>
    requires LoadNormalized(source).Some?
  {
    match GetOrCreateConversation(t, ConversationRow(source))
    case Raised(e) => Raised(e)
    case Ok(t1) =>
      match GetOrCreateVersion(t1, VersionRow(source, normalizer))
      case Raised(e) => Raised(e)
      case Ok(t2) => GetOrCreateEdge(t2, EdgeRow(source, normalizer, observationId))
  }

  /** One replay; a raised error rolls the transaction back. */
  function NormalizeObservation(t: Tables, evidence: Evidence, workspace: string, observationId: string, normalizer: string)
    : (Tables, Result<Recorded, ReplayError>)
  {
    if observationId !in evidence || evidence[observationId].workspace != workspace then (t, Raised(LookupError))
    else if !Eligible(evidence, normalizer, observationId) then (t, Raised(NormalizationError))
    else
      var source := evidence[observationId];
      match Store(t, source, normalizer, observationId)
      case Raised(e) => (t, Raised(e))
      case Ok(after) =>
        var versionId, edgeId := VersionIdOf(source, normalizer), EdgeIdOf(source, normalizer, observationId);
        (after, Ok(Recorded(ConversationIdOf(source), versionId, edgeId, versionId !in t.versions, edgeId !in t.edges)))
  }

  lemma LoadedHasIdentity(source: Source)
    requires LoadNormalized(source).Some?
    ensures source.externalSourceId.Some? && source.externalSourceId.value != ""
    ensures source.status.Success? <==> LoadNormalized(source).value.validation.exhausted
  {
  }

  // ----- the tables and their unique indexes -----

  ghost predicate UniqueConversations(m: map<string, Conversation>) {
    forall k, l :: k in m && l in m && m[k] == m[l] ==> k == l
  }

  ghost predicate UniqueVersions(m: map<string, Version>) {
    forall k, l :: k in m && l in m && SameIdentity(m[k], m[l]) ==> k == l
  }

  predicate SameEdge(e: Edge, f: Edge) {
    e.versionId == f.versionId && e.observationId == f.observationId
  }

  ghost predicate UniqueEdges(m: map<string, Edge>) {
    forall k, l :: k in m && l in m && SameEdge(m[k], m[l]) ==> k == l
  }

  /** Where the indexes hold, a conversation conflicts exactly when some row has its columns without its
      identifier or the other way round; a version or an edge, when its identifier is free and another row
      has its columns. Without a conflict the row is there afterwards, one already there being kept as it
      is, and the indexes hold. */
  lemma ConflictsExactly(t: Tables, c: Conversation, v: Version, e: Edge)
    requires UniqueConversations(t.conversations) && UniqueVersions(t.versions) && UniqueEdges(t.edges)
    ensures
      var id, r := ConversationId(c.workspace, c.externalId), GetOrCreateConversation(t, c);
      && (r.Raised? <==> exists k :: k in t.conversations && (k == id <==> t.conversations[k] != c))
      && (r.Ok? ==> r.value == t.(conversations := t.conversations[id := c]) && UniqueConversations(r.value.conversations))
    ensures
      var id, r := VersionId(v.conversationId, v.normalizer, v.contentSha), GetOrCreateVersion(t, v);
      && (r.Raised? <==> id !in t.versions && exists k ::
            && k in t.versions && t.versions[k].conversationId == v.conversationId
            && t.versions[k].normalizer == v.normalizer && t.versions[k].contentSha == v.contentSha)
      && (r.Ok? ==>
            && r.value == t.(versions := t.versions[id := if id in t.versions then t.versions[id] else v])
            && UniqueVersions(r.value.versions))
    ensures
      var id, r := EdgeId(e.versionId, e.observationId), GetOrCreateEdge(t, e);
      && (r.Raised? <==> id !in t.edges && exists k ::
            && k in t.edges && t.edges[k].versionId == e.versionId && t.edges[k].observationId == e.observationId)
      && (r.Ok? ==>
            && r.value == t.(edges := t.edges[id := if id in t.edges then t.edges[id] else e])
            && UniqueEdges(r.value.edges))
  {
    hide ConversationId, VersionId, EdgeId;
  }

  function Merged(t: Tables, rival: Tables): Tables {
    Tables(t.conversations + rival.conversations, t.versions + rival.versions, t.edges + rival.edges)
  }

  /** Rows that concurrent transactions commit while this one runs: new ones, which the unique indexes
      accepted, and none that took a derived id for another row. */
  ghost predicate Commits(t: Tables, rival: Tables) {
    && t.conversations.Keys !! rival.conversations.Keys
    && t.versions.Keys !! rival.versions.Keys
    && t.edges.Keys !! rival.edges.Keys
    && UniqueConversations(Merged(t, rival).conversations) && UniqueVersions(Merged(t, rival).versions)
    && UniqueEdges(Merged(t, rival).edges)
  }

  predicate TakesNoId(rival: Tables, source: Source, normalizer: string, observationId: string)
    requires LoadNormalized(source).Some?
  {
    var versionId, edgeId := VersionIdOf(source, normalizer), EdgeIdOf(source, normalizer, observationId);
    && (versionId in rival.versions ==> SameIdentity(rival.versions[versionId], VersionRow(source, normalizer)))
    && (edgeId in rival.edges ==> SameEdge(rival.edges[edgeId], EdgeRow(source, normalizer, observationId)))
  }

  /** The session the three get-or-create steps add rows to. Each looks its row up by the derived id,
      inserts it in a savepoint, and where a unique index refuses it looks again by the unique columns. */
  class ConversationTables {
    var conversations: map<string, Conversation>
    var versions: map<string, Version>
    var edges: map<string, Edge>

    constructor ()
      ensures Rows() == Tables(map[], map[], map[])
    {
      conversations, versions, edges := map[], map[], map[];
    }

    function Rows(): Tables
      reads this
    {
      Tables(conversations, versions, edges)
    }

    /** rival is what commits between the look-up and the flush, and seen the tables with it. */
    method AddConversation(row: Conversation, rival: map<string, Conversation>, ghost seen: Tables) returns (failed: bool)
      requires conversations.Keys !! rival.Keys && UniqueConversations(conversations + rival)
      requires seen.conversations == conversations + rival
      modifies this`conversations
      ensures GetOrCreateConversation(seen, row) ==
        if failed then Raised(IdentityConflict) else Ok(seen.(conversations := conversations))
      ensures UniqueConversations(conversations)
    {
      var id := ConversationId(row.workspace, row.externalId);
      var existing := if id in conversations then Some(conversations[id]) else None;
      conversations := conversations + rival;
      if existing.Some? {
        return existing.value != row;
      }
      if id in conversations || row in conversations.Values {
        return !(id in conversations && conversations[id] == row);
      }
      conversations := conversations[id := row];
      return false;
    }

    /** The select by unique columns: at most one row matches. */
    method FindVersion(row: Version) returns (found: Option<string>)
      requires UniqueVersions(versions)
      ensures forall k :: found == Some(k) <==> k in versions && SameIdentity(versions[k], row)
    {
      if k :| k in versions && SameIdentity(versions[k], row) {
        return Some(k);
      }
      return None;
    }

    method AddVersion(row: Version, rival: map<string, Version>, ghost seen: Tables) returns (failed: bool, created: bool)
      requires versions.Keys !! rival.Keys && UniqueVersions(versions + rival) && seen.versions == versions + rival
      requires
        var id := VersionId(row.conversationId, row.normalizer, row.contentSha);
        id in rival ==> SameIdentity(rival[id], row)
      modifies this`versions
      ensures GetOrCreateVersion(seen, row) == if failed then Raised(IdentityConflict) else Ok(seen.(versions := versions))
      ensures UniqueVersions(versions)
      ensures !failed ==> created == (VersionId(row.conversationId, row.normalizer, row.contentSha) !in seen.versions)
    {
      var id := VersionId(row.conversationId, row.normalizer, row.contentSha);
      var found := id in versions;
      versions := versions + rival;
      if found {
        return false, false;
      }
      var existing := FindVersion(row);
      if id in versions || existing.Some? {
        assert id in versions ==> id in rival;
        return existing != Some(id), false;
      }
      versions := versions[id := row];
      return false, true;
    }

    method FindEdge(row: Edge) returns (found: Option<string>)
      requires UniqueEdges(edges)
      ensures forall k :: found == Some(k) <==> k in edges && SameEdge(edges[k], row)
    {
      if k :| k in edges && SameEdge(edges[k], row) {
        return Some(k);
      }
      return None;
    }

    method AddEdge(row: Edge, rival: map<string, Edge>, ghost seen: Tables) returns (failed: bool, created: bool)
      requires edges.Keys !! rival.Keys && UniqueEdges(edges + rival) && seen.edges == edges + rival
      requires
        var id := EdgeId(row.versionId, row.observationId);
        id in rival ==> SameEdge(rival[id], row)
      modifies this`edges
      ensures GetOrCreateEdge(seen, row) == if failed then Raised(IdentityConflict) else Ok(seen.(edges := edges))
      ensures UniqueEdges(edges)
      ensures !failed ==> created == (EdgeId(row.versionId, row.observationId) !in seen.edges)
    {
      var id := EdgeId(row.versionId, row.observationId);
      var found := id in edges;
      edges := edges + rival;
      if found {
        return false, false;
      }
      var existing := FindEdge(row);
      if id in edges || existing.Some? {
        assert id in edges ==> id in rival;
        return existing != Some(id), false;
      }
      edges := edges[id := row];
      return false, true;
    }

    /** The three steps in order; a conflict rolls all three back, and leaves what others committed. */
    method StoreRows(source: Source, normalizer: string, observationId: string, rival: Tables)
      returns (failed: bool, versionCreated: bool, edgeCreated: bool)
      requires LoadNormalized(source).Some? && Commits(Rows(), rival) && TakesNoId(rival, source, normalizer, observationId)
      modifies this
      ensures UniqueConversations(conversations) && UniqueVersions(versions) && UniqueEdges(edges)
      ensures
        var seen := old(Merged(Rows(), rival));
        && Store(seen, source, normalizer, observationId) == (if failed then Raised(IdentityConflict) else Ok(Rows()))
        && (failed ==> Rows() == seen)
        && (!failed ==> versionCreated == (VersionIdOf(source, normalizer) !in seen.versions))
        && (!failed ==> edgeCreated == (EdgeIdOf(source, normalizer, observationId) !in seen.edges))
    {
      hide LoadNormalized, GetOrCreateConversation, GetOrCreateVersion, GetOrCreateEdge;
      hide UniqueConversations, UniqueVersions, UniqueEdges, SameIdentity;
      LoadedHasIdentity(source);
      var seen := Merged(Rows(), rival);
      versionCreated, edgeCreated := false, false;
      failed := AddConversation(ConversationRow(source), rival.conversations, seen);
      if !failed {
        var seen1 := seen.(conversations := conversations);
        failed, versionCreated := AddVersion(VersionRow(source, normalizer), rival.versions, seen1);
        if !failed {
          var edge := EdgeRow(source, normalizer, observationId);
          failed, edgeCreated := AddEdge(edge, rival.edges, seen1.(versions := versions));
        }
      }
      if failed {
        conversations, versions, edges := seen.conversations, seen.versions, seen.edges;
      }
    }

    /** One replay beside whatever commits while it runs: as if all of that had come first. */
    method Normalize(evidence: Evidence, workspace: string, observationId: string, normalizer: string, rival: Tables)
      returns (result: Result<Recorded, ReplayError>)
      requires Commits(Rows(), rival)
      requires Eligible(evidence, normalizer, observationId) ==>
        TakesNoId(rival, evidence[observationId], normalizer, observationId)
      modifies this
      ensures UniqueConversations(conversations) && UniqueVersions(versions) && UniqueEdges(edges)
      ensures (Rows(), result) ==
        NormalizeObservation(old(Merged(Rows(), rival)), evidence, workspace, observationId, normalizer)
    {
      hide LoadNormalized, Store, TakesNoId, VersionIdOf, EdgeIdOf, UniqueConversations, UniqueVersions, UniqueEdges;
      var seen := Merged(Rows(), rival);
      if observationId !in evidence || evidence[observationId].workspace != workspace {
        conversations, versions, edges := seen.conversations, seen.versions, seen.edges;
        return Raised(LookupError);
      }
      if !Eligible(evidence, normalizer, observationId) {
        conversations, versions, edges := seen.conversations, seen.versions, seen.edges;
        return Raised(NormalizationError);
      }
      var source := evidence[observationId];
      LoadedHasIdentity(source);
      var failed, versionCreated, edgeCreated := StoreRows(source, normalizer, observationId, rival);
      if failed {
        return Raised(IdentityConflict);
      }
      return Ok(Recorded(ConversationIdOf(source), VersionIdOf(source, normalizer),
                         EdgeIdOf(source, normalizer, observationId), versionCreated, edgeCreated));
    }
  }
}
