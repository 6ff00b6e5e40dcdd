/** Replaying any observations, in any order and with any repeats, gives the same identities once each. */
module ConversationReplay {
  import opened Options
  import opened Json
  import opened Observations
  import opened CanonicalJson
  import opened ThreadNormalization
  import opened ContentIdentity
  import opened Conversations

  /** What the results rest on: collision-free identifiers without NUL, and parsed raw JSON. */
  ghost predicate Trustworthy(evidence: Evidence, normalizer: string) {
    && UuidsAreInjective() && ThreadDigestIsInjective() && NulFree(normalizer)
    && (forall s :: NulFree(ConversationUuid(s)) && NulFree(VersionUuid(s)))
    && (forall s :: NulFree(ThreadDigest(s)))
    && forall o :: o in evidence ==> CleanSource(o, evidence[o])
  }

  predicate CleanSource(o: string, source: Source) {
    && NulFree(o) && NulFree(source.workspace) && NulFree(source.externalSourceId.GetOr(""))
    && (source.raw.Some? ==> WellFormed(source.raw.value))
  }

  function Replay(t: Tables, evidence: Evidence, normalizer: string, observations: seq<string>): Tables
    decreases |observations|
  {
    if observations == [] then t
    else
      var o := observations[|observations| - 1];
      var before := Replay(t, evidence, normalizer, observations[..|observations| - 1]);
      if o in evidence then NormalizeObservation(before, evidence, evidence[o].workspace, o, normalizer).0 else before
  }

  // ----- identifiers determine what they name -----

  lemma ConversationIdDetermines(a: Source, b: Source)
    requires UuidsAreInjective() && a.externalSourceId.Some? && b.externalSourceId.Some?
    requires NulFree(a.workspace) && NulFree(b.workspace)
    requires NulFree(a.externalSourceId.value) && NulFree(b.externalSourceId.value)
    requires ConversationIdOf(a) == ConversationIdOf(b)
    ensures ConversationRow(a) == ConversationRow(b)
  {
    var x, y := [a.workspace, PLATFORM, a.externalSourceId.value], [b.workspace, PLATFORM, b.externalSourceId.value];
    JoinedIsInjective(x, y);
    assert x[0] == y[0] && x[2] == y[2];
  }

  lemma VersionIdDetermines(v: Version, w: Version)
    requires UuidsAreInjective()
    requires NulFree(v.conversationId) && NulFree(v.normalizer) && NulFree(v.contentSha)
    requires NulFree(w.conversationId) && NulFree(w.normalizer) && NulFree(w.contentSha)
    ensures VersionId(v.conversationId, v.normalizer, v.contentSha) == VersionId(w.conversationId, w.normalizer, w.contentSha)
      <==> SameIdentity(v, w)
  {
    var x, y := [v.conversationId, v.normalizer, v.contentSha], [w.conversationId, w.normalizer, w.contentSha];
    if VersionUuid(Joined(x)) == VersionUuid(Joined(y)) {
      JoinedIsInjective(x, y);
      assert x[0] == y[0] && x[1] == y[1] && x[2] == y[2];
    }
  }

  lemma EdgeIdDetermines(e: Edge, f: Edge)
    requires UuidsAreInjective()
    requires NulFree(e.versionId) && NulFree(e.observationId) && NulFree(f.versionId) && NulFree(f.observationId)
    ensures EdgeId(e.versionId, e.observationId) == EdgeId(f.versionId, f.observationId) <==>
      e.versionId == f.versionId && e.observationId == f.observationId
  {
    var x, y := [e.versionId, e.observationId], [f.versionId, f.observationId];
    if ProvenanceUuid(Joined(x)) == ProvenanceUuid(Joined(y)) {
      JoinedIsInjective(x, y);
      assert x[0] == y[0] && x[1] == y[1];
    }
  }

  /** Alike in everything but the volatile full hash. */
  predicate SameVersion(v: Version, w: Version) {
    SameIdentity(v, w) && v.workspace == w.workspace && v.exhausted == w.exhausted
  }

  /** Two sources of one version agree on everything but volatile fields, exhaustion included. */
  lemma VersionSourcesAgree(evidence: Evidence, normalizer: string, o: string, p: string)
    requires Trustworthy(evidence, normalizer) && Eligible(evidence, normalizer, o) && Eligible(evidence, normalizer, p)
    ensures VersionIdOf(evidence[o], normalizer) == VersionIdOf(evidence[p], normalizer) <==>
      SameIdentity(VersionRow(evidence[o], normalizer), VersionRow(evidence[p], normalizer))
    ensures VersionIdOf(evidence[o], normalizer) == VersionIdOf(evidence[p], normalizer) ==>
      SameVersion(VersionRow(evidence[o], normalizer), VersionRow(evidence[p], normalizer))
  {
    hide ContentHash, Normalize, WellFormed;
    var a, b := evidence[o], evidence[p];
    assert CleanSource(o, a) && CleanSource(p, b);
    HashIsClean(LoadNormalized(a).value);
    HashIsClean(LoadNormalized(b).value);
    VersionIdDetermines(VersionRow(a, normalizer), VersionRow(b, normalizer));
    if SameIdentity(VersionRow(a, normalizer), VersionRow(b, normalizer)) {
      ConversationIdDetermines(a, b);
      HashDecidesExhaustion(a.raw.value, b.raw.value);
    }
  }

  lemma HashIsClean(t: Thread)
    requires forall s :: NulFree(ThreadDigest(s))
    ensures NulFree(ContentHash(t))
  {
  }

  // ----- what each observation stands for -----

  /** The rows and identifiers one eligible observation replays into. */
  datatype Fact = Fact(
    conversation: Conversation, conversationId: string, version: Version, versionId: string, edge: Edge, edgeId: string)

  function FactOf(source: Source, n: string, o: string): Fact
    requires LoadNormalized(source).Some?
  {
    LoadedHasIdentity(source);
    Fact(ConversationRow(source), ConversationIdOf(source), VersionRow(source, n), VersionIdOf(source, n),
         EdgeRow(source, n, o), EdgeIdOf(source, n, o))
  }

  function Facts(evidence: Evidence, n: string): map<string, Fact> {
    map o | o in evidence && Eligible(evidence, n, o) :: FactOf(evidence[o], n, o)
  }

  /** Identifiers name the rows they come from, and nothing else. */
  ghost predicate Separated(facts: map<string, Fact>) {
    forall o, p :: o in facts && p in facts ==> Apart(o, facts[o], p, facts[p])
  }

  ghost predicate Apart(o: string, f: Fact, p: string, g: Fact) {
    && (f.conversationId == g.conversationId <==> f.conversation == g.conversation)
    && (f.versionId == g.versionId <==> SameIdentity(f.version, g.version))
    && (f.versionId == g.versionId ==> SameVersion(f.version, g.version))
    && (f.edgeId == g.edgeId <==> o == p)
    && f.edge.observationId == o && f.edge.versionId == f.versionId
  }

  lemma FactsAreApart(evidence: Evidence, n: string, o: string, p: string)
    requires Trustworthy(evidence, n) && Eligible(evidence, n, o) && Eligible(evidence, n, p)
    ensures Apart(o, FactOf(evidence[o], n, o), p, FactOf(evidence[p], n, p))
  {
    hide LoadNormalized, WellFormed, VersionRow, VersionIdOf;
    var a, b := evidence[o], evidence[p];
    assert CleanSource(o, a) && CleanSource(p, b);
    LoadedHasIdentity(a);
    LoadedHasIdentity(b);
    if ConversationIdOf(a) == ConversationIdOf(b) {
      ConversationIdDetermines(a, b);
    }
    VersionSourcesAgree(evidence, n, o, p);
    VersionIdIsClean(evidence, n, o);
    VersionIdIsClean(evidence, n, p);
    EdgeIdDetermines(EdgeRow(a, n, o), EdgeRow(b, n, p));
  }

  lemma VersionIdIsClean(evidence: Evidence, n: string, o: string)
    requires Trustworthy(evidence, n) && Eligible(evidence, n, o)
    ensures NulFree(VersionIdOf(evidence[o], n))
  {
  }

  lemma FactsAreSeparated(evidence: Evidence, n: string)
    requires Trustworthy(evidence, n)
    ensures Separated(Facts(evidence, n))
  {
    hide Apart, LoadNormalized, FactOf, Trustworthy;
    forall o, p | o in Facts(evidence, n) && p in Facts(evidence, n)
      ensures Apart(o, Facts(evidence, n)[o], p, Facts(evidence, n)[p])
    {
      FactsAreApart(evidence, n, o, p);
    }
  }

  // ----- what the tables hold after some observations -----

  ghost predicate HoldsConversations(c: map<string, Conversation>, facts: map<string, Fact>, done: set<string>)
    requires done <= facts.Keys
  {
    && (forall o :: o in done ==> facts[o].conversationId in c && c[facts[o].conversationId] == facts[o].conversation)
    && c.Keys == set o | o in done :: facts[o].conversationId
  }

  ghost predicate HoldsVersions(v: map<string, Version>, facts: map<string, Fact>, done: set<string>)
    requires done <= facts.Keys
  {
    && (forall o :: o in done ==> facts[o].versionId in v && SameVersion(v[facts[o].versionId], facts[o].version))
    && v.Keys == set o | o in done :: facts[o].versionId
  }

  ghost predicate HoldsEdges(e: map<string, Edge>, facts: map<string, Fact>, done: set<string>)
    requires done <= facts.Keys
  {
    && (forall o :: o in done ==> facts[o].edgeId in e && e[facts[o].edgeId] == facts[o].edge)
    && e.Keys == set o | o in done :: facts[o].edgeId
  }

  ghost predicate Holds(t: Tables, facts: map<string, Fact>, done: set<string>)
    requires done <= facts.Keys
  {
    HoldsConversations(t.conversations, facts, done) && HoldsVersions(t.versions, facts, done) && HoldsEdges(t.edges, facts, done)
  }

  lemma ConversationStep(t: Tables, facts: map<string, Fact>, done: set<string>, x: string)
    requires Separated(facts) && done <= facts.Keys && x in facts && HoldsConversations(t.conversations, facts, done)
    requires facts[x].conversationId == ConversationId(facts[x].conversation.workspace, facts[x].conversation.externalId)
    ensures
      var r := GetOrCreateConversation(t, facts[x].conversation);
      && r.Ok? && r.value.versions == t.versions && r.value.edges == t.edges
      && HoldsConversations(r.value.conversations, facts, done + {x})
  {
    hide SameVersion, SameIdentity, ConversationId, HoldsVersions, HoldsEdges;
    var row, id := facts[x].conversation, facts[x].conversationId;
    SameIdSameRow(facts, done, x);
    hide Separated, ConversationId;
    var c := t.conversations;
    if id !in c {
      RowIsNew(c, facts, done, x);
    }
  }

  lemma RowIsNew(c: map<string, Conversation>, facts: map<string, Fact>, done: set<string>, x: string)
    requires done <= facts.Keys && x in facts && HoldsConversations(c, facts, done) && facts[x].conversationId !in c
    requires forall o :: o in done ==> (facts[o].conversationId == facts[x].conversationId <==> facts[o].conversation == facts[x].conversation)
    ensures facts[x].conversation !in c.Values
  {
  }

  lemma SameIdSameRow(facts: map<string, Fact>, done: set<string>, x: string)
    requires Separated(facts) && done <= facts.Keys && x in facts
    ensures forall o :: o in done ==> (facts[o].conversationId == facts[x].conversationId <==> facts[o].conversation == facts[x].conversation)
  {
  }

  lemma VersionStep(t: Tables, facts: map<string, Fact>, done: set<string>, x: string)
    requires Separated(facts) && done <= facts.Keys && x in facts && HoldsVersions(t.versions, facts, done)
    requires facts[x].versionId ==
      VersionId(facts[x].version.conversationId, facts[x].version.normalizer, facts[x].version.contentSha)
    ensures
      var r := GetOrCreateVersion(t, facts[x].version);
      && r.Ok? && r.value.conversations == t.conversations && r.value.edges == t.edges
      && HoldsVersions(r.value.versions, facts, done + {x})
  {
    hide VersionId, HoldsVersions, SameIdentity, Separated;
    if facts[x].versionId in t.versions {
      VersionFound(t.versions, facts, done, x);
    } else {
      VersionAdded(t.versions, facts, done, x);
    }
  }

  lemma VersionFound(v: map<string, Version>, facts: map<string, Fact>, done: set<string>, x: string)
    requires Separated(facts) && done <= facts.Keys && x in facts && HoldsVersions(v, facts, done)
    requires facts[x].versionId in v
    ensures HoldsVersions(v, facts, done + {x})
  {
  }

  lemma VersionAdded(v: map<string, Version>, facts: map<string, Fact>, done: set<string>, x: string)
    requires Separated(facts) && done <= facts.Keys && x in facts && HoldsVersions(v, facts, done)
    requires facts[x].versionId !in v
    ensures forall k :: k in v ==> !SameIdentity(v[k], facts[x].version)
    ensures HoldsVersions(v[facts[x].versionId := facts[x].version], facts, done + {x})
  {
  }

  lemma EdgesApart(facts: map<string, Fact>, done: set<string>, x: string)
    requires Separated(facts) && done <= facts.Keys && x in facts
    ensures facts[x].edge.observationId == x
    ensures forall o :: o in done ==> (facts[o].edgeId == facts[x].edgeId <==> o == x) && facts[o].edge.observationId == o
  {
  }

  lemma EdgeStep(t: Tables, facts: map<string, Fact>, done: set<string>, x: string)
    requires Separated(facts) && done <= facts.Keys && x in facts && HoldsEdges(t.edges, facts, done)
    requires facts[x].edgeId == EdgeId(facts[x].edge.versionId, facts[x].edge.observationId)
    ensures
      var r := GetOrCreateEdge(t, facts[x].edge);
      && r.Ok? && r.value.conversations == t.conversations && r.value.versions == t.versions
      && HoldsEdges(r.value.edges, facts, done + {x})
    ensures facts[x].edgeId in t.edges <==> x in done
  {
    hide SameVersion, SameIdentity, EdgeId;
    var row, id, e := facts[x].edge, facts[x].edgeId, t.edges;
    EdgesApart(facts, done, x);
    hide Separated;
    if id !in e {
      forall k | k in e ensures e[k].observationId != row.observationId {
        var o :| o in done && facts[o].edgeId == k;
      }
    }
  }

  lemma FactUnfolds(evidence: Evidence, n: string, x: string)
    requires Eligible(evidence, n, x)
    ensures x in Facts(evidence, n)
    ensures
      var f := Facts(evidence, n)[x];
      && f == FactOf(evidence[x], n, x)
      && f.conversationId == ConversationId(f.conversation.workspace, f.conversation.externalId)
      && f.versionId == VersionId(f.version.conversationId, f.version.normalizer, f.version.contentSha)
      && f.edgeId == EdgeId(f.edge.versionId, f.edge.observationId)
  {
  }

  /** Storing succeeded, and the tables now hold exactly these facts and that of x. */
  ghost predicate HoldsAlso(stored: Result<Tables, ReplayError>, facts: map<string, Fact>, done: set<string>, x: string)
    requires done <= facts.Keys && x in facts
  {
    stored.Ok? && Holds(stored.value, facts, done + {x})
  }

  lemma StoreStep(t: Tables, facts: map<string, Fact>, done: set<string>, source: Source, n: string, x: string)
    requires Separated(facts) && done <= facts.Keys && x in facts && Holds(t, facts, done)
    requires LoadNormalized(source).Some? && facts[x] == FactOf(source, n, x)
    requires facts[x].conversationId == ConversationId(facts[x].conversation.workspace, facts[x].conversation.externalId)
    requires facts[x].versionId ==
      VersionId(facts[x].version.conversationId, facts[x].version.normalizer, facts[x].version.contentSha)
    requires facts[x].edgeId == EdgeId(facts[x].edge.versionId, facts[x].edge.observationId)
    ensures HoldsAlso(Store(t, source, n, x), facts, done, x)
    ensures facts[x].edgeId in t.edges <==> x in done
  {
    hide LoadNormalized, Separated, GetOrCreateConversation, GetOrCreateVersion, GetOrCreateEdge;
    hide ConversationId, VersionId, EdgeId, HoldsConversations, HoldsVersions, HoldsEdges, VersionRow, VersionIdOf, EdgeRow, EdgeIdOf, ConversationIdOf;
    LoadedHasIdentity(source);
    var f := facts[x];
    ConversationStep(t, facts, done, x);
    var t1 := GetOrCreateConversation(t, f.conversation).value;
    VersionStep(t1, facts, done, x);
    var t2 := GetOrCreateVersion(t1, f.version).value;
    EdgeStep(t2, facts, done, x);
  }

  /** The eligible ones among some observations. */
  function Replayed(evidence: Evidence, n: string, observations: seq<string>): (done: set<string>)
    ensures done <= Facts(evidence, n).Keys
  {
    set o | o in observations && o in Facts(evidence, n)
  }

  /** The raw artifact is a thread, it is the thread that the observation names, every frozen hash is that
      thread's, and the observation claims success exactly when nothing of it is left unresolved. */
  ghost predicate TellsThread(source: Source, externalId: string, raw: Json) {
    && Normalize(Python, raw).Some?
    && var thread := Normalize(Python, raw).value;
       && thread.post.id == Str(externalId)
       && (source.frozenSha == None || source.frozenSha == Some(FullHash(thread)))
       && (source.frozenContentSha == None || source.frozenContentSha == Some(ContentHash(thread)))
       && source.status == (if thread.unresolvedMore == [] then Success else Incomplete)
  }

  /** A bundle-backed thread fetch of a named thread that its raw artifact tells. */
  ghost predicate Replayable(source: Source) {
    && source.capability == ThreadFetch && source.evidenceState == Bundle
    && source.externalSourceId.Some? && source.externalSourceId.value != "" && source.raw.Some?
    && TellsThread(source, source.externalSourceId.value, source.raw.value)
  }

  lemma ExhaustedMeansResolved(raw: Json)
    requires Normalize(Python, raw).Some?
    ensures Normalize(Python, raw).value.validation.exhausted <==> Normalize(Python, raw).value.unresolvedMore == []
  {
    hide Threads.Forest, Threads.Preorder, Threads.Mores, CommentTrees, PostData, PostOf;
  }

  lemma LoadsExactly(source: Source)
    ensures LoadNormalized(source).Some? <==> Replayable(source)
    ensures LoadNormalized(source).Some? ==> LoadNormalized(source) == Normalize(Python, source.raw.value)
  {
    hide ContentHash, Normalize;
    if source.raw.Some? && Normalize(Python, source.raw.value).Some? { ExhaustedMeansResolved(source.raw.value); }
  }

  /** What a replay is refused for: the tables conflict with none of it. */
  lemma RefusedReplays(t: Tables, evidence: Evidence, n: string, x: string, workspace: string)
    ensures
      var result := NormalizeObservation(t, evidence, workspace, x, n).1;
      && (result == Raised(LookupError) <==> x !in evidence || evidence[x].workspace != workspace)
      && (result == Raised(NormalizationError) <==>
            x in evidence && evidence[x].workspace == workspace && (n == "" || !Replayable(evidence[x])))
  {
    HasFactWhenReplayable(evidence, n, x);
    hide Replayable, LoadNormalized;
    StoreOnlyConflicts(t, evidence, n, x);
    hide Store, VersionIdOf, EdgeIdOf, ConversationIdOf, FactOf;
  }

  lemma StoreOnlyConflicts(t: Tables, evidence: Evidence, n: string, x: string)
    ensures x in evidence && LoadNormalized(evidence[x]).Some? ==>
      Store(t, evidence[x], n, x).Ok? || Store(t, evidence[x], n, x) == Raised(IdentityConflict)
  {
    hide LoadNormalized, ConversationId, VersionId, EdgeId, VersionRow, EdgeRow, ConversationRow;
  }

  ghost predicate HoldsOneMore(t: Tables, facts: map<string, Fact>, done: set<string>, x: string)
    requires done <= facts.Keys
  {
    x in facts && Holds(t, facts, done + {x})
  }

  /** The reply names the rows, and says of version and edge whether they are new. */
  ghost predicate ReportsTruly(reply: Recorded, facts: map<string, Fact>, done: set<string>, x: string)
    requires done <= facts.Keys
  {
    && x in facts && reply.conversationId == facts[x].conversationId
    && reply.versionId == facts[x].versionId && reply.edgeId == facts[x].edgeId
    && (reply.versionCreated <==> forall o :: o in done ==> facts[o].versionId != facts[x].versionId)
    && (reply.edgeCreated <==> x !in done)
  }

  lemma NewVersion(t: Tables, facts: map<string, Fact>, done: set<string>, x: string)
    requires done <= facts.Keys && Holds(t, facts, done) && x in facts
    ensures facts[x].versionId !in t.versions <==> forall o :: o in done ==> facts[o].versionId != facts[x].versionId
  {
    hide SameVersion, HoldsConversations, HoldsEdges;
  }

  /** Replaying one observation succeeds exactly when the normalizer has a name, the workspace is the
      observation's and its own evidence bears it out; it then records exactly what the observation stands
      for, and creates its edge only the first time. Otherwise nothing changes. */
  lemma OneReplay(t: Tables, evidence: Evidence, n: string, done: set<string>, x: string, workspace: string)
    requires Trustworthy(evidence, n) && done <= Facts(evidence, n).Keys && Holds(t, Facts(evidence, n), done)
    ensures
      var (after, result) := NormalizeObservation(t, evidence, workspace, x, n);
      && (result.Ok? <==> x in evidence && evidence[x].workspace == workspace && n != "" && Replayable(evidence[x]))
      && (result.Ok? ==>
            HoldsOneMore(after, Facts(evidence, n), done, x) && ReportsTruly(result.value, Facts(evidence, n), done, x))
      && (result.Raised? ==> after == t)
  {
    hide Trustworthy, Holds, Store, VersionIdOf, EdgeIdOf, VersionRow, EdgeRow, ConversationIdOf, ConversationRow;
    hide Separated, Replayable;
    FactsAreSeparated(evidence, n);
    if x in evidence { LoadsExactly(evidence[x]); }
    hide LoadNormalized;
    if Eligible(evidence, n, x) {
      FactUnfolds(evidence, n, x);
      StoreStep(t, Facts(evidence, n), done, evidence[x], n, x);
      NewVersion(t, Facts(evidence, n), done, x);
    }
  }

  const EMPTY := Tables(map[], map[], map[])

  lemma ReplayedAppend(evidence: Evidence, n: string, init: seq<string>, x: string)
    ensures Replayed(evidence, n, init + [x]) ==
      if x in Facts(evidence, n) then Replayed(evidence, n, init) + {x} else Replayed(evidence, n, init)
  {
    hide Facts;
  }

  lemma ReplayAppend(evidence: Evidence, n: string, init: seq<string>, x: string)
    ensures Replay(EMPTY, evidence, n, init + [x]) ==
      if x in evidence
      then NormalizeObservation(Replay(EMPTY, evidence, n, init), evidence, evidence[x].workspace, x, n).0
      else Replay(EMPTY, evidence, n, init)
  {
  }

  /** After any replays the tables hold exactly what the replayed observations stand for. */
  lemma {:induction false} ReplayHolds(evidence: Evidence, n: string, observations: seq<string>)
    requires Trustworthy(evidence, n)
    ensures Holds(Replay(EMPTY, evidence, n, observations), Facts(evidence, n), Replayed(evidence, n, observations))
    decreases |observations|
  {
    hide Trustworthy, NormalizeObservation, Eligible, Holds, Facts, Replayed;
    if observations == [] {
      EmptyHolds(evidence, n);
    } else {
      hide Replay;
      var init, x := observations[..|observations| - 1], observations[|observations| - 1];
      assert observations == init + [x];
      ReplayHolds(evidence, n, init);
      ReplayedAppend(evidence, n, init, x);
      ReplayAppend(evidence, n, init, x);
      if x in evidence {
        OneReplay(Replay(EMPTY, evidence, n, init), evidence, n, Replayed(evidence, n, init), x, evidence[x].workspace);
      }
      HasFactWhenReplayable(evidence, n, x);
    }
  }

  lemma HasFactWhenReplayable(evidence: Evidence, n: string, x: string)
    ensures x in Facts(evidence, n) <==> x in evidence && n != "" && Replayable(evidence[x])
  {
    hide LoadNormalized, Replayable;
    if x in evidence { LoadsExactly(evidence[x]); }
  }

  lemma EmptyHolds(evidence: Evidence, n: string)
    ensures Holds(EMPTY, Facts(evidence, n), Replayed(evidence, n, []))
  {
    hide Facts;
  }

  lemma ConversationsHeldTwice(s: map<string, Conversation>, t: map<string, Conversation>, facts: map<string, Fact>, done: set<string>)
    requires done <= facts.Keys && HoldsConversations(s, facts, done) && HoldsConversations(t, facts, done)
    ensures s == t
  {
  }

  lemma EdgesHeldTwice(s: map<string, Edge>, t: map<string, Edge>, facts: map<string, Fact>, done: set<string>)
    requires done <= facts.Keys && HoldsEdges(s, facts, done) && HoldsEdges(t, facts, done)
    ensures s == t
  {
  }

  lemma VersionsHeldTwice(s: map<string, Version>, t: map<string, Version>, facts: map<string, Fact>, done: set<string>)
    requires done <= facts.Keys && HoldsVersions(s, facts, done) && HoldsVersions(t, facts, done)
    ensures s.Keys == t.Keys && forall id :: id in s ==> SameVersion(s[id], t[id])
  {
  }

  /** Order and repeats do not matter: the same observations give the same conversations and edges, and
      the same versions up to the first writer's volatile hash. */
  lemma ReplayIgnoresOrder(evidence: Evidence, n: string, xs: seq<string>, ys: seq<string>)
    requires Trustworthy(evidence, n) && forall o :: o in xs <==> o in ys
    ensures
      var s, t := Replay(EMPTY, evidence, n, xs), Replay(EMPTY, evidence, n, ys);
      && s.conversations == t.conversations && s.edges == t.edges
      && s.versions.Keys == t.versions.Keys
      && forall id :: id in s.versions ==> SameVersion(s.versions[id], t.versions[id])
  {
    hide Trustworthy, Replay, Facts, HoldsConversations, HoldsVersions, HoldsEdges, SameVersion;
    var s, t := Replay(EMPTY, evidence, n, xs), Replay(EMPTY, evidence, n, ys);
    var facts, done := Facts(evidence, n), Replayed(evidence, n, xs);
    ReplayHolds(evidence, n, xs);
    ReplayHolds(evidence, n, ys);
    assert done == Replayed(evidence, n, ys);
    ConversationsHeldTwice(s.conversations, t.conversations, facts, done);
    VersionsHeldTwice(s.versions, t.versions, facts, done);
    EdgesHeldTwice(s.edges, t.edges, facts, done);
  }

  /** Every edge joins an observation to a version whose exhaustion is what that observation reported. */
  lemma ExhaustionAgrees(evidence: Evidence, n: string, observations: seq<string>, edge: string)
    requires Trustworthy(evidence, n)
    requires edge in Replay(EMPTY, evidence, n, observations).edges
    ensures
      var t := Replay(EMPTY, evidence, n, observations);
      var e := t.edges[edge];
      && e.observationId in observations && e.observationId in evidence && e.versionId in t.versions
      && (t.versions[e.versionId].exhausted <==> evidence[e.observationId].status.Success?)
      && e.workspace == evidence[e.observationId].workspace
      && edge == ProvenanceUuid(e.versionId + "\0" + e.observationId)
  {
    hide Trustworthy, Replay, Facts, SameVersion, HoldsConversations, HoldsVersions, HoldsEdges;
    var t, facts := Replay(EMPTY, evidence, n, observations), Facts(evidence, n);
    ReplayHolds(evidence, n, observations);
    var o := EdgeHasFact(t, facts, Replayed(evidence, n, observations), edge);
    FactReportsStatus(evidence, n, o);
    FactTells(evidence, n, o);
  }

  lemma EdgeHasFact(t: Tables, facts: map<string, Fact>, done: set<string>, edge: string) returns (o: string)
    requires done <= facts.Keys && Holds(t, facts, done) && edge in t.edges
    ensures o in done && t.edges[edge] == facts[o].edge && facts[o].edgeId == edge
    ensures facts[o].versionId in t.versions && t.versions[facts[o].versionId].exhausted == facts[o].version.exhausted
  {
    hide HoldsConversations;
    o :| o in done && facts[o].edgeId == edge;
    assert SameVersion(t.versions[facts[o].versionId], facts[o].version);
  }

  lemma FactReportsStatus(evidence: Evidence, n: string, o: string)
    requires o in Facts(evidence, n)
    ensures o in evidence
    ensures
      var f := Facts(evidence, n)[o];
      && f.edge.observationId == o && f.edge.versionId == f.versionId
      && (f.version.exhausted <==> evidence[o].status.Success?)
  {
    hide LoadNormalized, ContentHash;
    LoadedHasIdentity(evidence[o]);
  }

  // ----- what stored rows come from -----

  lemma ReplayAddsVersion(t: Tables, evidence: Evidence, n: string, x: string)
    requires x in evidence
    ensures
      var after := NormalizeObservation(t, evidence, evidence[x].workspace, x, n).0;
      forall id :: id in after.versions ==>
        if id in t.versions then after.versions[id] == t.versions[id]
        else x in Facts(evidence, n) && Facts(evidence, n)[x].versionId == id && after.versions[id] == Facts(evidence, n)[x].version
  {
    hide LoadNormalized, ConversationId, EdgeId, VersionRow, EdgeRow, ConversationRow, ContentHash;
  }

  lemma NobodyWroteBefore(evidence: Evidence, n: string, init: seq<string>, id: string)
    requires Trustworthy(evidence, n) && id !in Replay(EMPTY, evidence, n, init).versions
    ensures forall j :: 0 <= j < |init| && init[j] in Facts(evidence, n) ==> Facts(evidence, n)[init[j]].versionId != id
  {
    hide Trustworthy, Replay, Facts, HoldsConversations, HoldsEdges, SameVersion;
    ReplayHolds(evidence, n, init);
    forall j | 0 <= j < |init| && init[j] in Facts(evidence, n) ensures Facts(evidence, n)[init[j]].versionId != id {
      assert init[j] in Replayed(evidence, n, init);
    }
  }

  /** Every stored version was written by the first of its observations. */
  lemma {:induction false} VersionHasFirstWriter(evidence: Evidence, n: string, observations: seq<string>, id: string)
    returns (i: nat)
    requires Trustworthy(evidence, n) && id in Replay(EMPTY, evidence, n, observations).versions
    ensures i < |observations| && observations[i] in Facts(evidence, n)
    ensures
      var f := Facts(evidence, n)[observations[i]];
      f.versionId == id && Replay(EMPTY, evidence, n, observations).versions[id] == f.version
    ensures forall j :: 0 <= j < i && observations[j] in Facts(evidence, n) ==> Facts(evidence, n)[observations[j]].versionId != id
    decreases |observations|
  {
    var init, x := observations[..|observations| - 1], observations[|observations| - 1];
    assert observations == init + [x];
    var before := Replay(EMPTY, evidence, n, init);
    ReplayAppend(evidence, n, init, x);
    if x in evidence { ReplayAddsVersion(before, evidence, n, x); }
    hide Replay, Trustworthy, NormalizeObservation, Facts;
    if id in before.versions {
      i := VersionHasFirstWriter(evidence, n, init, id);
    } else {
      i := |init|;
      NobodyWroteBefore(evidence, n, init, id);
    }
  }

  /**
   * Every stored version, after any replays, was normalized by the first of its observations from a raw
   * artifact that names the version's own Conversation, which is stored with it: the row says what that
   * thread says, under the identifier its own columns give.
   */
  lemma StoredVersionsTellTheirThread(evidence: Evidence, n: string, observations: seq<string>, id: string)
    returns (i: nat)
    requires Trustworthy(evidence, n) && id in Replay(EMPTY, evidence, n, observations).versions
    ensures i < |observations| && observations[i] in evidence && Replayable(evidence[observations[i]])
    ensures
      var tables, source := Replay(EMPTY, evidence, n, observations), evidence[observations[i]];
      var v, e, thread := tables.versions[id], source.externalSourceId.value, Normalize(Python, source.raw.value).value;
      && v.workspace == source.workspace && v.normalizer == n
      && v.contentSha == ContentHash(thread) && v.sha == FullHash(thread)
      && (v.exhausted <==> thread.unresolvedMore == [])
      && v.conversationId == ConversationUuid(source.workspace + "\0" + "reddit" + "\0" + e)
      && id == VersionUuid(v.conversationId + "\0" + n + "\0" + v.contentSha)
      && v.conversationId in tables.conversations
      && tables.conversations[v.conversationId] == Conversation(source.workspace, "reddit", e)
  {
    i := VersionHasFirstWriter(evidence, n, observations, id);
    var x := observations[i];
    HasFactWhenReplayable(evidence, n, x);
    ConversationIsStored(evidence, n, observations, x);
    hide Trustworthy, Replay, Facts;
    FactTells(evidence, n, x);
  }

  lemma ConversationIsStored(evidence: Evidence, n: string, observations: seq<string>, x: string)
    requires Trustworthy(evidence, n) && x in observations && x in Facts(evidence, n)
    ensures
      var tables, f := Replay(EMPTY, evidence, n, observations), Facts(evidence, n)[x];
      f.conversationId in tables.conversations && tables.conversations[f.conversationId] == f.conversation
  {
    hide Trustworthy, Replay, Facts, HoldsVersions, HoldsEdges;
    ReplayHolds(evidence, n, observations);
  }

  lemma FactTells(evidence: Evidence, n: string, x: string)
    requires x in Facts(evidence, n)
    ensures x in evidence && Replayable(evidence[x])
    ensures
      var f, source := Facts(evidence, n)[x], evidence[x];
      var e, thread := source.externalSourceId.value, Normalize(Python, source.raw.value).value;
      && f.conversation == Conversation(source.workspace, "reddit", e)
      && f.conversationId == ConversationUuid(source.workspace + "\0" + "reddit" + "\0" + e)
      && f.version == Version(
           source.workspace, f.conversationId, n, ContentHash(thread), FullHash(thread), thread.unresolvedMore == [])
      && f.versionId == VersionUuid(f.conversationId + "\0" + n + "\0" + f.version.contentSha)
      && f.edge == Edge(source.workspace, f.versionId, x)
      && f.edgeId == ProvenanceUuid(f.versionId + "\0" + x)
  {
    LoadsExactly(evidence[x]);
    ExhaustedMeansResolved(evidence[x].raw.value);
    hide LoadNormalized, ContentHash, Normalize;
    var f, source := Facts(evidence, n)[x], evidence[x];
    JoinedThree(source.workspace, PLATFORM, source.externalSourceId.value);
    JoinedThree(f.conversationId, n, f.version.contentSha);
    JoinedTwo(f.versionId, x);
  }

  lemma JoinedTwo(a: string, b: string)
    ensures Joined([a, b]) == a + "\0" + b
  {
    assert [a, b][1..] == [b];
  }

  lemma JoinedThree(a: string, b: string, c: string)
    ensures Joined([a, b, c]) == a + "\0" + b + "\0" + c
  {
    assert [a, b, c][1..] == [b, c];
    JoinedTwo(b, c);
    assert a + "\0" + (b + "\0" + c) == a + "\0" + b + "\0" + c;
  }
}
