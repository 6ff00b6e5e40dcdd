/** Who announces that Candidate processing is complete, and when nobody does. */
module Announcement {
  import opened Options
  import opened Observations
  import opened RunRecords
  import opened RunSafety
  import opened RunProtocol
  import opened Processing

  /** A worker that will still read the transitions before it ends. */
  predicate WillRead(worker: Worker) {
    || worker.PublishingFetch?
    || (worker.FanningOut? && worker.closing)
    || (worker.PublishingDiscovery? && worker.closing)
  }

  predicate Announces(s: System, w: nat) {
    w in s.announced || (w in s.workers && WillRead(s.workers[w]))
  }

  function Actor(a: Action): Option<nat> {
    match a
    case ReapRun(_, _) => None
    case DeliverDiscovery(w, _, _, _) => Some(w)
    case FinishAttempt(w, _) => Some(w)
    case SettleAttempt(w, _) => Some(w)
    case EnqueueNext(w, _) => Some(w)
    case EndFanOut(w) => Some(w)
    case PublishDiscovery(w) => Some(w)
    case DeliverFetch(w, _) => Some(w)
    case StrayFetch(w, _, _, _) => Some(w)
    case FinishFetch(w, _) => Some(w)
    case SettleFetch(w) => Some(w)
    case PublishFetch(w) => Some(w)
    case Crash(w) => Some(w)
  }

  /** The two commits nobody follows up: a reap, and refused fetches recorded by a worker whose own
      settle did not close the run. */
  predicate Unannounced(s: System, a: Action)
    requires Enabled(s, a)
  {
    a.ReapRun? || (a.EndFanOut? && !s.workers[a.w].closing)
  }

  /** The commit that completes processing leaves its own worker bound to announce it, exactly when
      it is neither a reap nor a non-closing worker recording refused fetches. */
  lemma CompletingCommitAnnounces(s: System, a: Action)
    requires SafeSystem(s) && Enabled(s, a)
    requires !ProcessingComplete(s.record) && ProcessingComplete(Apply(s, a).record)
    ensures Unannounced(s, a) <==>
      Actor(a).None? || !WillRead(Apply(s, a).workers[Actor(a).value])
  {
    ActionCommitsTransaction(s, a);
    assert Apply(s, a).record != s.record;
    if a.DeliverDiscovery? {
      ClaimIsSafe(s.record, a.queryId, a.correlationId, a.now);
    }
  }

  /** A worker announces exactly when it publishes at the end of a fetch, or of a fan-out that closed the run,
      and finds processing complete; nobody announces otherwise. */
  lemma AnnouncesExactly(s: System, a: Action, w: nat)
    requires Enabled(s, a)
    ensures w in Apply(s, a).announced <==>
      || w in s.announced
      || ((a == PublishFetch(w) || (a == PublishDiscovery(w) && s.workers[w].closing))
          && Terminal(s.record.run.status)
          && forall e :: Expected(s.record.rows, e) ==> Fetched(s.record.rows, e))
  {
    hide Expected, Fetched, Claim, Settle, ClaimFetch, PersistUnenqueued, Reap, KnownToQueue;
  }

  /** Once processing is complete, a worker bound to announce stays bound until it has announced. */
  lemma AnnouncerPersists(s: System, a: Action, w: nat)
    requires SafeSystem(s) && Enabled(s, a) && a != Crash(w)
    requires ProcessingComplete(s.record) && Announces(s, w)
    ensures ProcessingComplete(Apply(s, a).record) && Announces(Apply(s, a), w)
  {
    ActionKeepsRecordSafe(s, a);
    CompletionIsPermanent(s.record, Apply(s, a).record);
  }

  predicate Survives(actions: seq<Action>, w: nat) {
    forall i :: 0 <= i < |actions| ==> actions[i] != Crash(w)
  }

  lemma {:induction false} AnnouncerEventuallyAnnounces(s: System, actions: seq<Action>, w: nat)
    requires SafeSystem(s) && Schedule(s, actions) && Survives(actions, w)
    requires ProcessingComplete(s.record) && Announces(s, w)
    ensures Announces(After(s, actions), w)
    decreases |actions|
  {
    if actions != [] {
      AnnouncerPersists(s, actions[0], w);
      ActionIsSafe(s, actions[0]);
      AnnouncerEventuallyAnnounces(Apply(s, actions[0]), actions[1..], w);
    }
  }

  /**
   * Whichever commit completes processing, other than a reap or refused fetches recorded by a
   * non-closing worker, is followed by an announcement from that same worker: over every later
   * schedule in which it does not die, once it is done it has announced.
   */
  lemma CompletionIsAnnounced(s: System, a: Action, later: seq<Action>)
    requires SafeSystem(s) && Enabled(s, a) && !Unannounced(s, a)
    requires !ProcessingComplete(s.record) && ProcessingComplete(Apply(s, a).record)
    requires Schedule(Apply(s, a), later) && Actor(a).Some? && Survives(later, Actor(a).value)
    requires Actor(a).value in After(Apply(s, a), later).workers
    requires After(Apply(s, a), later).workers[Actor(a).value].Done?
    ensures Actor(a).value in After(Apply(s, a), later).announced
  {
    CompletingCommitAnnounces(s, a);
    ActionIsSafe(s, a);
    AnnouncerEventuallyAnnounces(Apply(s, a), later, Actor(a).value);
  }

  /** Nobody announces early: an announcement means processing was, and so still is, complete. */
  ghost predicate AnnouncedOnlyComplete(s: System) {
    s.announced != {} ==> ProcessingComplete(s.record)
  }

  lemma {:induction false} AnnouncementsAreTrue(s: System, actions: seq<Action>)
    requires SafeSystem(s) && Schedule(s, actions) && AnnouncedOnlyComplete(s)
    ensures AnnouncedOnlyComplete(After(s, actions))
    decreases |actions|
  {
    if actions != [] {
      var a := actions[0];
      ActionIsSafe(s, a);
      if ProcessingComplete(s.record) {
        CompletionIsPermanent(s.record, Apply(s, a).record);
      }
      AnnouncementsAreTrue(Apply(s, a), actions[1..]);
    }
  }
}
