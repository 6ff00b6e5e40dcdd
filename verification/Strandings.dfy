/** What becomes of a lost Candidate, and a concrete run that loses one. */
module Strandings {
  import opened Options
  import opened Observations
  import opened RunRecords
  import opened RunSafety
  import opened RunProtocol
  import opened Processing
  import opened Attempts

  function SearchHit(externalId: string, url: string): Observation {
    Observation("q", Discovery, Success, None, Bundle, Some("b"), None, None,
                [Candidate(Some(externalId), Some(url))], 1, Some(1), None, true)
  }

  function ClosedByOneHit(correlationId: string, variant: string, externalId: string, url: string): RunRecord {
    var started := Start(InitialRecord(["q"], correlationId, variant), 0);
    RollUp(Append(started, SearchHit(externalId, url)), 0)
  }

  lemma OneHitCloses(correlationId: string, variant: string, externalId: string, url: string)
    requires FitsCorrelation(correlationId) && NulFree(externalId) && NulFree(url)
    ensures
      var r0 := InitialRecord(["q"], correlationId, variant);
      var started := Start(r0, 0);
      && Claim(r0, "q", correlationId, 0) == (started, Claimed(true))
      && Settle(started, SearchHit(externalId, url), 0)
         == (ClosedByOneHit(correlationId, variant, externalId, url), SettledRecorded(true, RunSucceeded))
      && ClosedByOneHit(correlationId, variant, externalId, url).rows == [SearchHit(externalId, url)]
      && Terminal(ClosedByOneHit(correlationId, variant, externalId, url).run.status)
  {
    var r0 := InitialRecord(["q"], correlationId, variant);
    var started, row := Start(r0, 0), SearchHit(externalId, url);
    assert IsQueryId("q");
    assert started.rows + [row] == [row];
    assert [row][..0] == [];
    assert PlannedRows([row], ["q"]) == [row];
  }

  ghost predicate NeverHealed(s: System, actions: seq<Action>, e: string)
    requires Schedule(s, actions)
    decreases |actions|
  {
    actions != [] ==> !Heals(s, actions[0], e) && NeverHealed(Apply(s, actions[0]), actions[1..], e)
  }

  lemma {:induction false} StaysLost(s: System, actions: seq<Action>, lost: iset<string>, e: string)
    requires Schedule(s, actions) && NeverHealed(s, actions, e) && e in lost
    ensures e in LostAfter(s, actions, lost)
    decreases |actions|
  {
    hide Heals, Loses, Apply, Enabled;
    if actions != [] {
      StaysLost(Apply(s, actions[0]), actions[1..], LostStep(s, actions[0], lost), e);
    }
  }

  /** A lost Candidate keeps processing incomplete over every schedule that never heals it. */
  lemma LostUntilHealed(s: System, actions: seq<Action>, lost: iset<string>, e: string)
    requires CollisionFree() && Tracked(s, lost) && Schedule(s, actions)
    requires e in lost && Expected(s.record.rows, e) && |e| <= MAX_EXTERNAL_ID && NeverHealed(s, actions, e)
    ensures
      var t := After(s, actions);
      e in LostAfter(s, actions, lost) && !Fetched(t.record.rows, e) && !Owed(t, e) && !ProcessingComplete(t.record)
  {
    hide CleanSystem, Named, Fetched, Schedule, NeverHealed, LostAfter, Safe, WorkersOk, Pending, Recorded;
    StaysLost(s, actions, lost, e);
    EveryScheduleIsTracked(s, actions, lost);
    EveryScheduleIsSafe(s, actions);
    StaysExpected(s.record.rows, After(s, actions).record.rows, e);
    ExpectedIsNamed(s.record.rows, e);
  }

  lemma StaysExpected(rows: seq<Observation>, more: seq<Observation>, e: string)
    requires rows <= more && Expected(rows, e)
    ensures Expected(more, e)
  {
    var i :| 0 <= i < |rows| && rows[i].capability.Discovery? && Names(rows[i], e);
    assert more[i] == rows[i];
  }

  /** Whatever heals a Candidate leaves it fetched or owed again, and no longer lost. */
  lemma HealingRestores(s: System, a: Action, lost: iset<string>, e: string)
    requires CollisionFree() && Tracked(s, lost) && Enabled(s, a)
    requires Heals(s, a, e) && 0 < |e| <= MAX_EXTERNAL_ID
    ensures e !in LostStep(s, a, lost) && Owed(Apply(s, a), e)
  {
    hide Safe, WorkersOk, CleanSystem, Named, Accounted, Apply, Enabled, Loses, Heals, Owed;
    ActionOwesExactly(s, a);
    HealingLosesNothing(s, a, e);
  }

  lemma HealingLosesNothing(s: System, a: Action, e: string)
    requires Enabled(s, a)
    ensures Heals(s, a, e) ==> !Loses(s, a, e)
  {
  }

  /** A job for a lost Candidate delivered from outside heals it, unless a row stands in its way or its text
      aborts the refusal. */
  lemma RedeliveryHeals(s: System, a: Action)
    requires Enabled(s, a) && a.StrayFetch? && |a.externalId| <= MAX_EXTERNAL_ID
    ensures Heals(s, a, a.externalId) <==>
      && !Recorded(s.record.rows, ThreadQueryId(a.externalId))
      && (!RefusesFetch(s.record, a.externalId, a.url, a.correlationId) || RefusalFits(a.externalId, a.url))
  {
    hide RefusesFetch, RefusalFits, Recorded;
  }

  /** A fetch that settles with a storable row, the first under its id, loses its Candidate exactly when its
      document names another thread, or names none and has its evidence retained. */
  lemma MisnamedDocumentLoses(s: System, w: nat, o: Outcome)
    requires Enabled(s, SettleFetch(w)) && WellFormed(o)
    requires
      var e, row := s.workers[w].externalId, s.workers[w].row;
      && ThreadOutcomeToRow(e, s.record.run.correlationId, o) == Ok(row)
      && FitsColumns(row) && !Recorded(s.record.rows, row.queryId) && !Fetched(s.record.rows, e)
    ensures
      var e := s.workers[w].externalId;
      Loses(s, SettleFetch(w), e) <==>
        && o.failureClass.None? && o.doc.value.externalSourceId != Some(e)
        && (o.bundleId.Some? || o.doc.value.externalSourceId.GetOr("") != "")
  {
    hide Recorded, Fetched, FitsColumns;
    ThreadRowIdentity(o, s.workers[w].externalId, s.record.run.correlationId);
  }

  // ----- one such run, in full -----

  function CrashTrace(correlationId: string, row: Observation): seq<Action> {
    [DeliverDiscovery(0, "q", correlationId, 0), FinishAttempt(0, row), SettleAttempt(0, 0), Crash(0)]
  }

  lemma CrashTraceRuns(correlationId: string, variant: string, externalId: string, url: string)
    requires FitsCorrelation(correlationId) && NulFree(externalId) && NulFree(url)
    ensures
      var s0, trace := InitialSystem(["q"], correlationId, variant), CrashTrace(correlationId, SearchHit(externalId, url));
      Schedule(s0, trace)
      && After(s0, trace) == System(ClosedByOneHit(correlationId, variant, externalId, url), map[0 := Done], map[], {})
  {
    var s0, row := InitialSystem(["q"], correlationId, variant), SearchHit(externalId, url);
    var trace := CrashTrace(correlationId, row);
    OneHitCloses(correlationId, variant, externalId, url);
    var s1 := Apply(s0, trace[0]);
    var s2 := Apply(s1, trace[1]);
    var s3 := Apply(s2, trace[2]);
    var s4 := Apply(s3, trace[3]);
    assert s4 == System(ClosedByOneHit(correlationId, variant, externalId, url), map[0 := Done], map[], {});
    FollowsFour(s0, trace);
  }

  lemma FollowsFour(s: System, trace: seq<Action>)
    requires |trace| == 4
    requires Enabled(s, trace[0]) && Enabled(Apply(s, trace[0]), trace[1])
    requires Enabled(Apply(Apply(s, trace[0]), trace[1]), trace[2])
    requires Enabled(Apply(Apply(Apply(s, trace[0]), trace[1]), trace[2]), trace[3])
    ensures Schedule(s, trace)
    ensures After(s, trace) == Apply(Apply(Apply(Apply(s, trace[0]), trace[1]), trace[2]), trace[3])
  {
    var s1 := Apply(s, trace[0]);
    var s2 := Apply(s1, trace[1]);
    var s3 := Apply(s2, trace[2]);
    var t1 := trace[1..];
    var t2 := t1[1..];
    var t3 := t2[1..];
    assert t3[1..] == [];
    assert Schedule(s3, t3);
    assert Schedule(s2, t2);
    assert Schedule(s1, t1);
    assert After(s3, t3) == After(Apply(s3, t3[0]), t3[1..]);
    assert After(s2, t2) == After(s3, t3);
    assert After(s1, t1) == After(s2, t2);
  }

  lemma ShortIdIsPlannable()
    ensures PlanOk(["q"])
  {
    forall e ensures ThreadQueryId(e) != "q" {
      assert |ThreadQueryId(e)| >= 7;
    }
  }

  /** A run of one query and one Candidate whose worker loses the queue connection: terminal and quiet,
      with that Candidate lost. */
  lemma FailedQueueConnectionStrands(correlationId: string, variant: string, externalId: string, url: string)
    requires FitsCorrelation(correlationId) && NulFree(externalId) && NulFree(url)
    requires 0 < |externalId| <= MAX_EXTERNAL_ID && url != "" && IsHttpUrl(url) && CollisionFree()
    ensures
      var s0, trace := InitialSystem(["q"], correlationId, variant), CrashTrace(correlationId, SearchHit(externalId, url));
      && Schedule(s0, trace) && Quiet(After(s0, trace))
      && Terminal(After(s0, trace).record.run.status)
      && Expected(After(s0, trace).record.rows, externalId) && !Fetched(After(s0, trace).record.rows, externalId)
      && externalId in LostAfter(s0, trace, iset{})
  {
    CrashTraceRuns(correlationId, variant, externalId, url);
    OneHitCloses(correlationId, variant, externalId, url);
    var row := SearchHit(externalId, url);
    assert Fetchable(row.candidates[0]);
    assert Names(row, externalId);
    assert Expected([row], externalId) by { assert [row][0] == row; }
    assert !Fetched([row], externalId);
    var s0, trace := InitialSystem(["q"], correlationId, variant), CrashTrace(correlationId, row);
    ShortIdIsPlannable();
    hide Expected, Fetched, Schedule, After, LostAfter;
    QuietRunsAreComplete(["q"], correlationId, variant, trace);
  }
}
