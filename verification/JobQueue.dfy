/** The queue port: deterministic job ids and fan-out loops that survive partial refusal. */
module JobQueue {
  import opened Options
  import opened Observations
  import opened RunRecords
  import opened RunProtocol
  import opened Processing

  predicate NoColon(s: string) {
    forall i :: 0 <= i < |s| ==> s[i] != ':'
  }

  function JobId(workspaceId: string, runId: string, queryId: string): string {
    "discovery:" + workspaceId + ":" + runId + ":" + queryId
  }

  /** Text up to the first colon is determined by the whole, so colon-free fields can be read back. */
  lemma FieldIsDetermined(a: string, restA: string, b: string, restB: string)
    requires NoColon(a) && NoColon(b) && a + ":" + restA == b + ":" + restB
    ensures a == b && restA == restB
  {
    var s, t := a + ":" + restA, b + ":" + restB;
    assert s[|a|] == ':' && t[|b|] == ':';
    assert s[..|a|] == a && t[..|b|] == b;
    assert s[|a| + 1..] == restA && t[|b| + 1..] == restB;
  }

  /** Workspace and run ids are UUIDs; distinct triples then have distinct job ids. */
  lemma JobIdIdentifies(w: string, r: string, q: string, w': string, r': string, q': string)
    requires NoColon(w) && NoColon(r) && NoColon(w') && NoColon(r')
    requires JobId(w, r, q) == JobId(w', r', q')
    ensures w == w' && r == r' && q == q'
  {
    var prefix := "discovery:";
    var s, t := w + ":" + (r + ":" + q), w' + ":" + (r' + ":" + q');
    assert JobId(w, r, q) == prefix + s && JobId(w', r', q') == prefix + t;
    assert (prefix + s)[|prefix|..] == s && (prefix + t)[|prefix|..] == t;
    FieldIsDetermined(w, r + ":" + q, w', r' + ":" + q');
    FieldIsDetermined(r, q, r', q');
  }

  function JobIds(workspaceId: string, runId: string, queryIds: seq<string>): set<string> {
    set i | 0 <= i < |queryIds| :: JobId(workspaceId, runId, queryIds[i])
  }

  /** The job ids of the queries that are not refused, in order. */
  function JobsOf(workspaceId: string, runId: string, queryIds: seq<string>, refused: string -> bool): seq<string> {
    if queryIds == [] then []
    else
      var init, last := queryIds[..|queryIds| - 1], queryIds[|queryIds| - 1];
      JobsOf(workspaceId, runId, init, refused) + if refused(last) then [] else [JobId(workspaceId, runId, last)]
  }

  lemma {:induction false} JobsOfMeaning(workspaceId: string, runId: string, queryIds: seq<string>, refused: string -> bool)
    returns (at: seq<nat>)
    ensures Increasing(at) && |at| == |JobsOf(workspaceId, runId, queryIds, refused)|
    ensures forall k: nat :: k in at <==> k < |queryIds| && !refused(queryIds[k])
    ensures forall i :: 0 <= i < |at| ==>
      at[i] < |queryIds| && JobsOf(workspaceId, runId, queryIds, refused)[i] == JobId(workspaceId, runId, queryIds[at[i]])
  {
    hide JobId;
    at := [];
    if queryIds != [] {
      var n := |queryIds| - 1;
      var init := queryIds[..n];
      at := JobsOfMeaning(workspaceId, runId, init, refused);
      assert queryIds == init + [queryIds[n]] && forall i :: 0 <= i < |at| ==> at[i] in at;
      if !refused(queryIds[n]) {
        at := at + [n];
      }
    }
  }

  /** Redis as the port sees it: the set of job ids it has ever accepted. */
  class Queue {
    var jobs: set<string>

    constructor ()
      ensures jobs == {}
    {
      jobs := {};
    }

    /**
     * Attempts every query even after a refusal; `refused` says which attempts the queue rejects. The
     * enqueued and failed lists partition the queries, and the call raises exactly when one failed.
     */
    method EnqueueDiscoveryQueries(workspaceId: string, runId: string, queryIds: seq<string>, refused: string -> bool)
      returns (result: Result<seq<string>, (seq<string>, set<string>)>)
      modifies this
      ensures jobs == old(jobs)
        + (set i | 0 <= i < |queryIds| && !refused(queryIds[i]) :: JobId(workspaceId, runId, queryIds[i]))
      ensures result.Ok? <==> forall i :: 0 <= i < |queryIds| ==> !refused(queryIds[i])
      ensures result.Ok? ==>
        && |result.value| == |queryIds|
        && forall i :: 0 <= i < |queryIds| ==> result.value[i] == JobId(workspaceId, runId, queryIds[i])
      ensures result.Raised? ==>
        (forall id :: id in result.error.0 <==>
          exists i :: 0 <= i < |queryIds| && !refused(queryIds[i]) && id == JobId(workspaceId, runId, queryIds[i]))
      ensures result.Raised? ==> result.error.0 == JobsOf(workspaceId, runId, queryIds, refused)
      ensures result.Raised? ==> result.error.1 == (set i | 0 <= i < |queryIds| && refused(queryIds[i]) :: queryIds[i])
    {
      var enqueued: seq<string> := [];
      var failed: set<string> := {};
      for i := 0 to |queryIds|
        invariant jobs == old(jobs)
          + (set j | 0 <= j < i && !refused(queryIds[j]) :: JobId(workspaceId, runId, queryIds[j]))
        invariant failed == set j | 0 <= j < i && refused(queryIds[j]) :: queryIds[j]
        invariant forall id :: id in enqueued <==>
          exists j :: 0 <= j < i && !refused(queryIds[j]) && id == JobId(workspaceId, runId, queryIds[j])
        invariant enqueued == JobsOf(workspaceId, runId, queryIds[..i], refused)
        invariant failed == {} ==> |enqueued| == i
        invariant failed == {} ==> forall j :: 0 <= j < i ==> enqueued[j] == JobId(workspaceId, runId, queryIds[j])
      {
        assert queryIds[..i + 1][..i] == queryIds[..i];
        if refused(queryIds[i]) {
          failed := failed + {queryIds[i]};
        } else {
          jobs := jobs + {JobId(workspaceId, runId, queryIds[i])};
          enqueued := enqueued + [JobId(workspaceId, runId, queryIds[i])];
        }
      }
      assert queryIds[..|queryIds|] == queryIds;
      if failed != {} {
        return Raised((enqueued, failed));
      }
      assert forall i :: 0 <= i < |queryIds| && refused(queryIds[i]) ==> queryIds[i] in failed;
      result := Ok(enqueued);
    }
  }

  /** The dictionary that deduplicates Candidates before fan-out. */
  method UniqueCandidates(candidates: seq<RawCandidate>) returns (unique: seq<Fetch>)
    ensures unique == UniqueFetches(candidates)
    ensures DistinctIds(unique)
    ensures forall e :: HasFetch(unique, e) <==> OffersFetch(candidates, e)
  {
    unique := [];
    for i := 0 to |candidates|
      invariant unique == UniqueFetches(candidates[..i])
    {
      assert candidates[..i + 1][..i] == candidates[..i];
      var c := candidates[i];
      if Fetchable(c) && !HasFetch(unique, c.externalSourceId.value) {
        unique := unique + [Fetch(c.externalSourceId.value, c.url.value)];
      }
    }
    assert candidates[..|candidates|] == candidates;
    UniqueFetchesCoverNames(candidates);
  }
}
