/** The transition read: what a run expected, fetched and normalized, in first-seen order. */
module Transitions {
  import opened Options
  import opened Observations
  import opened RunRecords
  import opened RunProtocol
  import opened Processing
  import opened FetchJobs

  datatype CandidateTransition = CandidateTransition(
    externalId: string,
    url: string,
    retrievalStatus: Option<ObservationStatus>,
    conversation: Option<string>,
    currentVersion: Option<string>)

  datatype RunTransitions = RunTransitions(
    items: seq<CandidateTransition>,
    expectedCount: nat,
    fetchedCount: nat,
    normalizedCount: nat,
    processingComplete: bool)

  /** Every Candidate of every discovery row, in recording order. */
  function DiscoveryCandidates(rows: seq<Observation>): seq<RawCandidate> {
    if rows == [] then []
    else
      var init, last := DiscoveryCandidates(rows[..|rows| - 1]), rows[|rows| - 1];
      if last.capability.Discovery? then init + last.candidates else init
  }

  /** The status of the latest fetch row of each Candidate. */
  function FetchStatuses(rows: seq<Observation>): map<string, ObservationStatus> {
    if rows == [] then map[]
    else
      var init, last := FetchStatuses(rows[..|rows| - 1]), rows[|rows| - 1];
      if last.capability.ThreadFetch? && last.externalSourceId.Some?
      then init[last.externalSourceId.value := last.status]
      else init
  }

  lemma {:induction false} FetchStatusesAreFetched(rows: seq<Observation>)
    ensures forall e :: e in FetchStatuses(rows) <==> Fetched(rows, e)
  {
    if rows != [] {
      var init, last := rows[..|rows| - 1], rows[|rows| - 1];
      FetchStatusesAreFetched(init);
      AppendEffects(init, last);
      assert rows == init + [last];
    }
  }

  /** The status reported for a Candidate is that of the last fetch row that names it. */
  lemma {:induction false} LatestFetchDecides(rows: seq<Observation>, e: string)
    ensures e in FetchStatuses(rows) ==> exists i ::
      && 0 <= i < |rows| && rows[i].capability == ThreadFetch && rows[i].externalSourceId == Some(e)
      && rows[i].status == FetchStatuses(rows)[e]
      && forall j :: i < j < |rows| && rows[j].capability == ThreadFetch ==> rows[j].externalSourceId != Some(e)
    ensures e !in FetchStatuses(rows) ==>
      forall j :: 0 <= j < |rows| && rows[j].capability == ThreadFetch ==> rows[j].externalSourceId != Some(e)
  {
    if rows != [] {
      var n := |rows| - 1;
      var init := rows[..n];
      LatestFetchDecides(init, e);
      assert rows == init + [rows[n]];
      if rows[n].capability.ThreadFetch? && rows[n].externalSourceId == Some(e) {
        assert rows[n].status == FetchStatuses(rows)[e];
      } else if e in FetchStatuses(init) {
        var i :| 0 <= i < |init| && init[i].capability == ThreadFetch && init[i].externalSourceId == Some(e)
          && init[i].status == FetchStatuses(init)[e]
          && forall j :: i < j < |init| && init[j].capability == ThreadFetch ==> init[j].externalSourceId != Some(e);
        assert rows[i].status == FetchStatuses(rows)[e];
      }
    }
  }

  /** A place in the rows' candidate lists. */
  datatype Place = Place(row: nat, item: nat)

  predicate Earlier(p: Place, q: Place) {
    p.row < q.row || (p.row == q.row && p.item < q.item)
  }

  ghost predicate Lists(rows: seq<Observation>, p: Place) {
    p.row < |rows| && rows[p.row].capability == Discovery && p.item < |rows[p.row].candidates|
  }

  /** The read goes through the candidate lists of the discovery rows, row by row. */
  lemma {:induction false} CandidatesInOrder(rows: seq<Observation>) returns (at: seq<Place>)
    ensures |at| == |DiscoveryCandidates(rows)|
    ensures forall p: Place :: p in at <==> Lists(rows, p)
    ensures forall k :: 0 <= k < |at| ==> Lists(rows, at[k]) && DiscoveryCandidates(rows)[k] == rows[at[k].row].candidates[at[k].item]
    ensures forall k, l :: 0 <= k < l < |at| ==> Earlier(at[k], at[l])
  {
    at := [];
    if rows != [] {
      var n := |rows| - 1;
      CandidatesUnfold(rows);
      hide DiscoveryCandidates, Lists, Earlier;
      var before := CandidatesInOrder(rows[..n]);
      var added := PlacesOf(n, if rows[n].capability.Discovery? then rows[n].candidates else []);
      at := before + added;
      forall p: Place ensures p in at <==> Lists(rows, p) {
        LastPlaces(rows, p);
      }
      PlacesRead(rows, before, added);
      PlacesAscend(rows, before, added);
    }
  }

  /** The places of one list, in order. */
  lemma PlacesOf(n: nat, candidates: seq<RawCandidate>) returns (added: seq<Place>)
    ensures |added| == |candidates| && forall k :: 0 <= k < |added| ==> added[k] == Place(n, k)
    ensures forall p: Place :: p in added <==> p.row == n && p.item < |candidates|
  {
    added := seq(|candidates|, j requires 0 <= j < |candidates| => Place(n, j));
    forall p: Place | p.row == n && p.item < |candidates| ensures p in added {
      assert added[p.item] == p;
    }
  }

  lemma PlacesRead(rows: seq<Observation>, before: seq<Place>, added: seq<Place>)
    requires rows != [] && |before| == |DiscoveryCandidates(rows[..|rows| - 1])|
    requires forall k :: 0 <= k < |before| ==>
      && Lists(rows[..|rows| - 1], before[k])
      && DiscoveryCandidates(rows[..|rows| - 1])[k] == rows[before[k].row].candidates[before[k].item]
    requires |added| == if rows[|rows| - 1].capability.Discovery? then |rows[|rows| - 1].candidates| else 0
    requires forall k :: 0 <= k < |added| ==> added[k] == Place(|rows| - 1, k)
    ensures |before + added| == |DiscoveryCandidates(rows)|
    ensures forall k :: 0 <= k < |before + added| ==>
      && Lists(rows, (before + added)[k])
      && DiscoveryCandidates(rows)[k] == rows[(before + added)[k].row].candidates[(before + added)[k].item]
  {
    CandidatesUnfold(rows);
    hide DiscoveryCandidates;
    forall k | 0 <= k < |before| ensures Lists(rows, before[k]) { LastPlaces(rows, before[k]); }
    forall k | 0 <= k < |added| ensures Lists(rows, added[k]) { LastPlaces(rows, added[k]); }
    hide Lists;
  }

  lemma PlacesAscend(rows: seq<Observation>, before: seq<Place>, added: seq<Place>)
    requires rows != [] && forall k :: 0 <= k < |before| ==> Lists(rows[..|rows| - 1], before[k])
    requires forall k, l :: 0 <= k < l < |before| ==> Earlier(before[k], before[l])
    requires forall k :: 0 <= k < |added| ==> added[k] == Place(|rows| - 1, k)
    ensures forall k, l :: 0 <= k < l < |before + added| ==> Earlier((before + added)[k], (before + added)[l])
  {
    forall k | 0 <= k < |before| ensures before[k].row < |rows| - 1 { LastPlaces(rows, before[k]); }
    hide Lists;
  }

  lemma CandidatesUnfold(rows: seq<Observation>)
    requires rows != []
    ensures
      var init, last := DiscoveryCandidates(rows[..|rows| - 1]), rows[|rows| - 1];
      DiscoveryCandidates(rows) == if last.capability.Discovery? then init + last.candidates else init
  {
  }

  lemma LastPlaces(rows: seq<Observation>, p: Place)
    requires rows != []
    ensures
      var n := |rows| - 1;
      Lists(rows, p) <==>
        || Lists(rows[..n], p)
        || (p.row == n && rows[n].capability.Discovery? && p.item < |rows[n].candidates|)
    ensures Lists(rows[..|rows| - 1], p) ==> p.row < |rows| - 1
  {
  }

  /** The first Fetchable element of a discovery row with its id. */
  ghost predicate FirstNamed(rows: seq<Observation>, p: Place) {
    && Lists(rows, p) && Fetchable(rows[p.row].candidates[p.item])
    && forall q: Place :: Lists(rows, q) && Earlier(q, p) && Fetchable(rows[q.row].candidates[q.item]) ==>
         rows[q.row].candidates[q.item].externalSourceId != rows[p.row].candidates[p.item].externalSourceId
  }

  /** The expected Candidates are listed in the order in which the run's discovery rows first name them, each
      with the URL it has there. */
  lemma ExpectedInOrder(rows: seq<Observation>) returns (at: seq<Place>)
    ensures |at| == |UniqueFetches(DiscoveryCandidates(rows))|
    ensures forall p: Place :: p in at <==> FirstNamed(rows, p)
    ensures forall k, l :: 0 <= k < l < |at| ==> Earlier(at[k], at[l])
    ensures forall k :: 0 <= k < |at| ==>
      && Lists(rows, at[k])
      && var f := UniqueFetches(DiscoveryCandidates(rows))[k];
         rows[at[k].row].candidates[at[k].item] == Candidate(Some(f.externalId), Some(f.url))
  {
    var all := CandidatesInOrder(rows);
    var candidates := DiscoveryCandidates(rows);
    var firsts := UniqueFetchesMeaning(candidates);
    assert forall k :: 0 <= k < |firsts| ==> firsts[k] in firsts;
    at := seq(|firsts|, k requires 0 <= k < |firsts| => all[firsts[k]]);
    forall k | 0 <= k < |candidates| ensures FirstOfItsId(candidates, k) <==> FirstNamed(rows, all[k]) {
      FirstInBoth(rows, all, k);
    }
    forall p: Place | FirstNamed(rows, p) ensures p in all { FirstIsListed(rows, p); }
    hide Fetchable, UniqueFetches, DiscoveryCandidates, Lists, FirstOfItsId, FirstNamed, Earlier;
    PickedExactly(rows, all, firsts, at);
  }

  lemma PickedExactly(rows: seq<Observation>, all: seq<Place>, firsts: seq<nat>, at: seq<Place>)
    requires |at| == |firsts| && forall i :: 0 <= i < |firsts| ==> firsts[i] < |all| && at[i] == all[firsts[i]]
    requires forall k :: 0 <= k < |all| ==> (k in firsts <==> FirstNamed(rows, all[k]))
    requires forall p: Place :: FirstNamed(rows, p) ==> p in all
    ensures forall p: Place :: p in at <==> FirstNamed(rows, p)
  {
    hide FirstNamed;
    forall p: Place | FirstNamed(rows, p) ensures p in at {
      var k :| 0 <= k < |all| && all[k] == p;
      var i :| 0 <= i < |firsts| && firsts[i] == k;
      assert at[i] == p;
    }
    forall p: Place | p in at ensures FirstNamed(rows, p) {
      var i :| 0 <= i < |at| && at[i] == p;
      assert firsts[i] in firsts;
    }
  }

  lemma FirstIsListed(rows: seq<Observation>, p: Place)
    ensures FirstNamed(rows, p) ==> Lists(rows, p)
  {
  }

  lemma FirstInBoth(rows: seq<Observation>, all: seq<Place>, k: nat)
    requires |all| == |DiscoveryCandidates(rows)| && k < |all|
    requires forall p: Place :: p in all <==> Lists(rows, p)
    requires forall j :: 0 <= j < |all| ==> Lists(rows, all[j]) && DiscoveryCandidates(rows)[j] == rows[all[j].row].candidates[all[j].item]
    requires forall i, j :: 0 <= i < j < |all| ==> Earlier(all[i], all[j])
    ensures FirstOfItsId(DiscoveryCandidates(rows), k) <==> FirstNamed(rows, all[k])
  {
    hide DiscoveryCandidates, Lists;
    assert forall j :: 0 <= j < k ==> Earlier(all[j], all[k]);
    if FirstOfItsId(DiscoveryCandidates(rows), k) {
      forall q: Place | Lists(rows, q) && Earlier(q, all[k]) ensures exists j :: 0 <= j < k && all[j] == q {
        var j :| 0 <= j < |all| && all[j] == q;
      }
    }
  }

  lemma OffersFetchConcat(a: seq<RawCandidate>, b: seq<RawCandidate>, e: string)
    ensures OffersFetch(a + b, e) <==> OffersFetch(a, e) || OffersFetch(b, e)
  {
    if OffersFetch(a, e) {
      var j :| 0 <= j < |a| && Fetchable(a[j]) && a[j].externalSourceId.value == e;
      assert (a + b)[j] == a[j];
    }
    if OffersFetch(b, e) {
      var j :| 0 <= j < |b| && Fetchable(b[j]) && b[j].externalSourceId.value == e;
      assert (a + b)[|a| + j] == b[j];
    }
  }

  lemma {:induction false} CandidatesAreExpected(rows: seq<Observation>, e: string)
    ensures OffersFetch(DiscoveryCandidates(rows), e) <==> Expected(rows, e)
  {
    if rows != [] {
      var init, last := rows[..|rows| - 1], rows[|rows| - 1];
      CandidatesAreExpected(init, e);
      AppendEffects(init, last);
      assert rows == init + [last];
      OffersFetchConcat(DiscoveryCandidates(init), last.candidates, e);
      assert Names(last, e) <==> OffersFetch(last.candidates, e);
    }
  }

  lemma UniqueFetchesStep(candidates: seq<RawCandidate>, next: RawCandidate)
    ensures UniqueFetches(candidates + [next]) ==
      var before := UniqueFetches(candidates);
      if Fetchable(next) && !HasFetch(before, next.externalSourceId.value)
      then before + [Fetch(next.externalSourceId.value, next.url.value)]
      else before
  {
  }

  /** The ordered dictionary of expected Candidates: the first row to name one decides its URL. */
  method CollectExpected(rows: seq<Observation>) returns (ordered: seq<Fetch>)
    ensures ordered == UniqueFetches(DiscoveryCandidates(rows))
  {
    ordered := [];
    for i := 0 to |rows|
      invariant ordered == UniqueFetches(DiscoveryCandidates(rows[..i]))
    {
      assert rows[..i + 1][..i] == rows[..i];
      if rows[i].capability.Discovery? {
        ordered := AddCandidates(ordered, DiscoveryCandidates(rows[..i]), rows[i].candidates);
      }
    }
    assert rows[..|rows|] == rows;
  }

  method AddCandidates(before: seq<Fetch>, ghost seen: seq<RawCandidate>, candidates: seq<RawCandidate>)
    returns (ordered: seq<Fetch>)
    requires before == UniqueFetches(seen)
    ensures ordered == UniqueFetches(seen + candidates)
  {
    ordered := before;
    assert seen + candidates[..0] == seen;
    for j := 0 to |candidates|
      invariant ordered == UniqueFetches(seen + candidates[..j])
    {
      UniqueFetchesStep(seen + candidates[..j], candidates[j]);
      assert (seen + candidates[..j]) + [candidates[j]] == seen + candidates[..j + 1];
      if Fetchable(candidates[j]) && !HasFetch(ordered, candidates[j].externalSourceId.value) {
        ordered := ordered + [Fetch(candidates[j].externalSourceId.value, candidates[j].url.value)];
      }
    }
    assert candidates[..|candidates|] == candidates;
  }

  method CollectFetched(rows: seq<Observation>) returns (statuses: map<string, ObservationStatus>)
    ensures statuses == FetchStatuses(rows)
  {
    statuses := map[];
    for i := 0 to |rows|
      invariant statuses == FetchStatuses(rows[..i])
    {
      assert rows[..i + 1][..i] == rows[..i];
      if rows[i].capability.ThreadFetch? && rows[i].externalSourceId.Some? {
        statuses := statuses[rows[i].externalSourceId.value := rows[i].status];
      }
    }
    assert rows[..|rows|] == rows;
  }

  function Lookup<K, V>(m: map<K, V>, k: K): Option<V> {
    if k in m then Some(m[k]) else None
  }

  function TransitionFor(f: Fetch, rows: seq<Observation>, conversations: map<string, string>, versions: map<string, string>)
    : CandidateTransition
  {
    var conversation := Lookup(conversations, f.externalId);
    CandidateTransition(
      f.externalId, f.url, Lookup(FetchStatuses(rows), f.externalId), conversation,
      if conversation.Some? then Lookup(versions, conversation.value) else None)
  }

  function CountFetched(items: seq<CandidateTransition>): (n: nat)
    ensures n <= |items|
    ensures n == |items| <==> forall i :: 0 <= i < |items| ==> items[i].retrievalStatus.Some?
  {
    if items == [] then 0
    else
      var n := CountFetched(items[..|items| - 1]);
      assert forall i :: 0 <= i < |items| - 1 ==> items[..|items| - 1][i] == items[i];
      n + if items[|items| - 1].retrievalStatus.Some? then 1 else 0
  }

  function CountNormalized(items: seq<CandidateTransition>): nat {
    if items == [] then 0
    else CountNormalized(items[..|items| - 1]) + if items[|items| - 1].currentVersion.Some? then 1 else 0
  }

  lemma CountStep(items: seq<CandidateTransition>, item: CandidateTransition)
    ensures CountFetched(items + [item]) == CountFetched(items) + if item.retrievalStatus.Some? then 1 else 0
    ensures CountNormalized(items + [item]) == CountNormalized(items) + if item.currentVersion.Some? then 1 else 0
  {
  }

  /** What one entry reports: a status exactly when some fetch row names the Candidate, the Conversation of its
      id, and the current version of that Conversation. */
  lemma EntryMeaning(f: Fetch, rows: seq<Observation>, conversations: map<string, string>, versions: map<string, string>)
    ensures
      var t, e := TransitionFor(f, rows, conversations, versions), f.externalId;
      && t.externalId == e && t.url == f.url
      && (t.retrievalStatus.Some? <==> exists i :: 0 <= i < |rows| && rows[i].capability == ThreadFetch && rows[i].externalSourceId == Some(e))
      && (t.retrievalStatus.Some? ==> e in FetchStatuses(rows) && t.retrievalStatus.value == FetchStatuses(rows)[e])
      && (e in conversations ==> t.conversation == Some(conversations[e]))
      && (e !in conversations ==> t.conversation == None && t.currentVersion == None)
      && (e in conversations && conversations[e] in versions ==> t.currentVersion == Some(versions[conversations[e]]))
      && (e in conversations && conversations[e] !in versions ==> t.currentVersion == None)
  {
    hide FetchStatuses;
    LatestFetchDecides(rows, f.externalId);
  }

  ghost function WithStatus(items: seq<CandidateTransition>): set<int> {
    set i | 0 <= i < |items| && items[i].retrievalStatus.Some?
  }

  ghost function WithVersion(items: seq<CandidateTransition>): set<int> {
    set i | 0 <= i < |items| && items[i].currentVersion.Some?
  }

  lemma OneMoreCounted(items: seq<CandidateTransition>, item: CandidateTransition)
    ensures WithStatus(items + [item]) == WithStatus(items) + (if item.retrievalStatus.Some? then {|items|} else {})
    ensures WithVersion(items + [item]) == WithVersion(items) + (if item.currentVersion.Some? then {|items|} else {})
    ensures |items| !in WithStatus(items) && |items| !in WithVersion(items)
  {
  }

  /** The counters count the entries with a status and those with a version. */
  lemma {:induction false} CountersCount(items: seq<CandidateTransition>)
    ensures CountFetched(items) == |WithStatus(items)| && CountNormalized(items) == |WithVersion(items)|
  {
    if items != [] {
      var init, last := items[..|items| - 1], items[|items| - 1];
      CountersCount(init);
      assert items == init + [last];
      CountStep(init, last);
      OneMoreCounted(init, last);
      hide CountFetched, CountNormalized, WithStatus, WithVersion;
    }
  }

  method ListRunTransitions(r: RunRecord, conversations: map<string, string>, versions: map<string, string>)
    returns (t: RunTransitions)
    ensures
      var expected := UniqueFetches(DiscoveryCandidates(r.rows));
      && |t.items| == |expected| == t.expectedCount
      && forall i :: 0 <= i < |expected| ==> t.items[i] == TransitionFor(expected[i], r.rows, conversations, versions)
    ensures t.fetchedCount == CountFetched(t.items) && t.normalizedCount == CountNormalized(t.items)
    ensures t.processingComplete <==> ProcessingComplete(r)
  {
    hide UniqueFetches, DiscoveryCandidates, FetchStatuses, Expected, Fetched;
    var ordered := CollectExpected(r.rows);
    var statuses := CollectFetched(r.rows);
    var items: seq<CandidateTransition> := [];
    var fetched, normalized := 0, 0;
    for i := 0 to |ordered|
      invariant |items| == i
      invariant forall j :: 0 <= j < i ==> items[j] == TransitionFor(ordered[j], r.rows, conversations, versions)
      invariant fetched == CountFetched(items) && normalized == CountNormalized(items)
    {
      var item := TransitionFor(ordered[i], r.rows, conversations, versions);
      if ordered[i].externalId in statuses { fetched := fetched + 1; }
      if item.currentVersion.Some? { normalized := normalized + 1; }
      CountStep(items, item);
      items := items + [item];
    }
    t := RunTransitions(items, |items|, fetched, normalized, Terminal(r.run.status) && fetched == |items|);
    CountingDecidesCompletion(r, ordered, items, conversations, versions);
  }

  lemma {:induction false} CountingDecidesCompletion(r: RunRecord, ordered: seq<Fetch>, items: seq<CandidateTransition>,
                                  conversations: map<string, string>, versions: map<string, string>)
    requires ordered == UniqueFetches(DiscoveryCandidates(r.rows)) && |items| == |ordered|
    requires forall j :: 0 <= j < |items| ==> items[j] == TransitionFor(ordered[j], r.rows, conversations, versions)
    ensures CountFetched(items) == |items| <==> forall e :: Expected(r.rows, e) ==> Fetched(r.rows, e)
  {
    FetchStatusesAreFetched(r.rows);
    UniqueFetchesCoverNames(DiscoveryCandidates(r.rows));
    forall e ensures HasFetch(ordered, e) <==> Expected(r.rows, e) { CandidatesAreExpected(r.rows, e); }
    if forall e :: Expected(r.rows, e) ==> Fetched(r.rows, e) {
      forall j | 0 <= j < |items| ensures items[j].retrievalStatus.Some? {
        assert HasFetch(ordered, ordered[j].externalId);
      }
    } else {
      var e :| Expected(r.rows, e) && !Fetched(r.rows, e);
      var j :| 0 <= j < |ordered| && ordered[j].externalId == e;
      assert items[j].retrievalStatus.None?;
    }
  }
}
