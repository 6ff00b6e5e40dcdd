/**
 * Starting runs: concurrent keyed writes that each record a run, followed in each caller by an enqueue
 * of the run's queries that the queue may refuse after the commit, while workers take jobs away. A
 * caller that was refused retries with the same key.
 */
module StartRun {
  import opened Options
  import opened JobQueue
  import W = KeyedWrites

  datatype StartedRun = StartedRun(runId: string, plan: seq<string>)

  /** The run in a reply's body, if it carries one; domain errors carry none. Any function on bodies. */
  const RunIn: string -> Option<StartedRun>

  /** A caller between its commit or replay and its answer: how far its enqueue loop has come. */
  datatype Enqueuing = Enqueuing(run: StartedRun, next: nat, failed: set<string>)

  /** accepted holds every job id the queue ever took; waiting those no worker has taken yet. */
  datatype State = State(writes: W.System, callers: map<nat, Enqueuing>, accepted: set<string>, waiting: set<string>)

  datatype Answer = Taken | AlreadyThere | Refused

  datatype Action =
    | Write(a: W.Action)
    | StartEnqueue(t: nat)
    | EnqueueNext(t: nat, answer: Answer)
    | TakeJob(job: string)

  function RunOf(e: W.Event): Option<StartedRun> {
    RunIn(W.ReplayOf(e).body)
  }

  /** A fresh operation draws a run id that no committed and no pending reply has, and loads a plan. */
  predicate FreshRun(s: W.System, run: StartedRun) {
    && NoColon(run.runId)
    && (forall k :: k in s.store.events ==> RunOf(s.store.events[k]).None? || RunOf(s.store.events[k]).value.runId != run.runId)
    && (forall t :: t in s.txs && s.txs[t].Attached? ==>
          RunIn(s.txs[t].reply.body).None? || RunIn(s.txs[t].reply.body).value.runId != run.runId)
  }

  function JobOf(s: State, t: nat): string
    requires t in s.callers && t in s.writes.txs && s.callers[t].next < |s.callers[t].run.plan|
  {
    JobId(s.writes.txs[t].call.key.workspaceId, s.callers[t].run.runId, s.callers[t].run.plan[s.callers[t].next])
  }

  predicate Enabled(s: State, a: Action) {
    match a
    case Write(x) =>
      && W.Enabled(s.writes, x)
      && (x.Begin? ==> NoColon(x.call.key.workspaceId))
      && (x.Operate? && RunIn(x.reply.body).Some? ==> FreshRun(s.writes, RunIn(x.reply.body).value))
    case StartEnqueue(t) =>
      && t !in s.callers && t in s.writes.txs && s.writes.txs[t].Ended?
      && s.writes.txs[t].outcome.Returned? && RunIn(s.writes.txs[t].outcome.reply.body).Some?
    case EnqueueNext(t, answer) =>
      && t in s.callers && t in s.writes.txs && s.callers[t].next < |s.callers[t].run.plan|
      && (answer.AlreadyThere? ==> JobOf(s, t) in s.accepted)
    case TakeJob(job) => job in s.waiting
  }

  function Apply(s: State, a: Action): State
    requires Enabled(s, a)
  {
    match a
    case Write(x) => s.(writes := W.Apply(s.writes, x))
    case StartEnqueue(t) =>
      s.(callers := s.callers[t := Enqueuing(RunIn(s.writes.txs[t].outcome.reply.body).value, 0, {})])
    case EnqueueNext(t, answer) =>
      var c, job := s.callers[t], JobOf(s, t);
      var failed := if answer.Refused? then c.failed + {c.run.plan[c.next]} else c.failed;
      var taken := if answer.Taken? then {job} else {};
      s.(callers := s.callers[t := c.(next := c.next + 1, failed := failed)],
         accepted := s.accepted + taken, waiting := s.waiting + taken)
    case TakeJob(job) => s.(waiting := s.waiting - {job})
  }

  const INITIAL := State(W.Initial(map[]), map[], {}, {})

  // ----- the invariant -----

  ghost predicate RunsDiffer(s: W.System) {
    && (forall k :: k in s.store.events && RunOf(s.store.events[k]).Some? ==>
          NoColon(RunOf(s.store.events[k]).value.runId) && NoColon(k.workspaceId))
    && (forall k, l ::
          k in s.store.events && l in s.store.events && k != l && RunOf(s.store.events[k]).Some? && RunOf(s.store.events[l]).Some? ==>
          RunOf(s.store.events[k]).value.runId != RunOf(s.store.events[l]).value.runId)
  }

  /** The run a transaction is about to commit. */
  function PendingRun(tx: W.Transaction): Option<StartedRun> {
    if tx.Attached? then RunIn(tx.reply.body) else None
  }

  ghost predicate PendingRunsDiffer(s: W.System) {
    && (forall t :: t in s.txs ==> NoColon(s.txs[t].call.key.workspaceId))
    && (forall t :: t in s.txs && PendingRun(s.txs[t]).Some? ==>
          && NoColon(PendingRun(s.txs[t]).value.runId)
          && forall k :: k in s.store.events && RunOf(s.store.events[k]).Some? ==>
               RunOf(s.store.events[k]).value.runId != PendingRun(s.txs[t]).value.runId)
    && (forall t, u :: t in s.txs && u in s.txs && t != u && PendingRun(s.txs[t]).Some? && PendingRun(s.txs[u]).Some? ==>
          PendingRun(s.txs[t]).value.runId != PendingRun(s.txs[u]).value.runId)
  }

  /** The caller's run is the one committed under its key, and all it got past is refused or accepted. */
  predicate CallerOk(s: State, t: nat, c: Enqueuing) {
    && t in s.writes.txs && s.writes.txs[t].Ended?
    && var key := s.writes.txs[t].call.key;
       && key in s.writes.store.events && RunOf(s.writes.store.events[key]) == Some(c.run)
       && c.next <= |c.run.plan|
       && forall i :: 0 <= i < c.next ==>
            c.run.plan[i] in c.failed || JobId(key.workspaceId, c.run.runId, c.run.plan[i]) in s.accepted
  }

  predicate BelongsTo(e: W.Event, workspaceId: string, job: string) {
    RunOf(e).Some? && job in JobIds(workspaceId, RunOf(e).value.runId, RunOf(e).value.plan)
  }

  predicate Planned(store: W.Store, job: string) {
    exists k :: k in store.events && BelongsTo(store.events[k], k.workspaceId, job)
  }

  ghost predicate Consistent(s: State) {
    && W.Invariant(s.writes, {})
    && RunsDiffer(s.writes) && PendingRunsDiffer(s.writes)
    && (forall t :: t in s.callers ==> CallerOk(s, t, s.callers[t]))
    && (forall job :: job in s.accepted ==> Planned(s.writes.store, job))
    && s.waiting <= s.accepted
  }

  lemma WriteKeepsRunsDifferent(s: W.System, a: W.Action)
    requires W.Invariant(s, {}) && RunsDiffer(s) && PendingRunsDiffer(s) && W.Enabled(s, a)
    requires a.Begin? ==> NoColon(a.call.key.workspaceId)
    requires a.Operate? && RunIn(a.reply.body).Some? ==> FreshRun(s, RunIn(a.reply.body).value)
    ensures RunsDiffer(W.Apply(s, a)) && PendingRunsDiffer(W.Apply(s, a))
  {
    hide W.Apply, W.Enabled, RunsDiffer, PendingRunsDiffer, FreshRun, W.OneOwner;
    if a.CommitTx? { CommitMovesOneRun(s, a.t); } else { OneTransactionMoves(s, a); }
  }

  lemma OneTransactionMoves(s: W.System, a: W.Action)
    requires RunsDiffer(s) && PendingRunsDiffer(s) && W.Enabled(s, a) && !a.CommitTx?
    requires a.Begin? ==> NoColon(a.call.key.workspaceId)
    requires a.Operate? && RunIn(a.reply.body).Some? ==> FreshRun(s, RunIn(a.reply.body).value)
    ensures RunsDiffer(W.Apply(s, a)) && PendingRunsDiffer(W.Apply(s, a))
  {
    var after := W.Apply(s, a);
    MovesOnly(s, a);
    hide NoColon, W.Apply, W.Enabled;
    if PendingRun(after.txs[a.t]).Some? {
      DrawsFreshRun(s, a);
    }
  }

  lemma MovesOnly(s: W.System, a: W.Action)
    requires W.Enabled(s, a) && !a.CommitTx?
    requires a.Begin? || forall t :: t in s.txs ==> NoColon(s.txs[t].call.key.workspaceId)
    requires a.Begin? ==> NoColon(a.call.key.workspaceId)
    ensures
      var after := W.Apply(s, a);
      && after.store == s.store && a.t in after.txs && after.txs == s.txs[a.t := after.txs[a.t]]
      && NoColon(after.txs[a.t].call.key.workspaceId)
      && (PendingRun(after.txs[a.t]).Some? ==> a.Operate? && RunIn(a.reply.body) == PendingRun(after.txs[a.t]))
  {
    hide NoColon, W.IndexFree, W.Resolve;
  }

  lemma DrawsFreshRun(s: W.System, a: W.Action)
    requires a.Operate? && RunIn(a.reply.body).Some? && FreshRun(s, RunIn(a.reply.body).value)
    ensures
      var run := RunIn(a.reply.body).value;
      && NoColon(run.runId)
      && (forall k :: k in s.store.events && RunOf(s.store.events[k]).Some? ==> RunOf(s.store.events[k]).value.runId != run.runId)
      && (forall u :: u in s.txs && PendingRun(s.txs[u]).Some? ==> PendingRun(s.txs[u]).value.runId != run.runId)
  {
  }

  lemma CommitMovesOneRun(s: W.System, t: nat)
    requires RunsDiffer(s) && PendingRunsDiffer(s) && W.Enabled(s, W.CommitTx(t)) && W.OneOwner(s)
    ensures RunsDiffer(W.Apply(s, W.CommitTx(t))) && PendingRunsDiffer(W.Apply(s, W.CommitTx(t)))
  {
    hide W.OneEffectPerKey, NoColon;
    var tx, after := s.txs[t], W.Apply(s, W.CommitTx(t));
    CommitAdds(s, t);
    hide W.Apply, W.Enabled, W.OneOwner, W.Resolve, RunOf;
    assert PendingRun(after.txs[t]).None?;
    assert NoColon(tx.call.key.workspaceId);
  }

  lemma CommitAdds(s: W.System, t: nat)
    requires W.Enabled(s, W.CommitTx(t)) && W.OneOwner(s)
    ensures
      var tx, after := s.txs[t], W.Apply(s, W.CommitTx(t));
      && tx.call.key !in s.store.events
      && after.store.events == s.store.events[tx.call.key := after.store.events[tx.call.key]]
      && RunOf(after.store.events[tx.call.key]) == PendingRun(tx)
      && after.txs == s.txs[t := after.txs[t]] && after.txs[t].Ended? && after.txs[t].call == tx.call
  {
  }

  /** Committed rows stay, so every job still belongs to a run and every caller still has its own. */
  lemma WriteKeepsCallers(s: State, a: W.Action)
    requires Consistent(s) && Enabled(s, Write(a))
    ensures forall t :: t in s.callers ==> CallerOk(Apply(s, Write(a)), t, s.callers[t])
    ensures forall job :: job in s.accepted ==> Planned(W.Apply(s.writes, a).store, job)
  {
    W.ActionKeepsInvariant(s.writes, a, {});
    var after := W.Apply(s.writes, a);
    hide W.Invariant, RunsDiffer, PendingRunsDiffer, BelongsTo;
    forall job | job in s.accepted ensures Planned(after.store, job) {
      var k :| k in s.writes.store.events && BelongsTo(s.writes.store.events[k], k.workspaceId, job);
      assert k in after.store.events && BelongsTo(after.store.events[k], k.workspaceId, job);
    }
    forall t | t in s.callers ensures CallerOk(Apply(s, Write(a)), t, s.callers[t]) {
      assert CallerOk(s, t, s.callers[t]);
      EndedStays(s.writes, a, t);
    }
  }

  lemma EndedStays(s: W.System, a: W.Action, t: nat)
    requires W.Enabled(s, a) && t in s.txs && s.txs[t].Ended?
    ensures t in W.Apply(s, a).txs && W.Apply(s, a).txs[t] == s.txs[t]
  {
  }

  lemma EnqueueKeepsConsistent(s: State, t: nat, answer: Answer)
    requires Consistent(s) && Enabled(s, EnqueueNext(t, answer))
    ensures Consistent(Apply(s, EnqueueNext(t, answer)))
  {
    hide W.Invariant, RunsDiffer, PendingRunsDiffer;
    var after, c, key := Apply(s, EnqueueNext(t, answer)), s.callers[t], s.writes.txs[t].call.key;
    assert CallerOk(s, t, c);
    var job := JobOf(s, t);
    assert job in JobIds(key.workspaceId, c.run.runId, c.run.plan);
    assert BelongsTo(s.writes.store.events[key], key.workspaceId, job);
    forall j | j in after.accepted ensures Planned(after.writes.store, j) {
      if j != job { assert Planned(s.writes.store, j); }
    }
    forall u | u in after.callers ensures CallerOk(after, u, after.callers[u]) {
      assert CallerOk(s, u, s.callers[u]);
    }
  }

  lemma StartKeepsConsistent(s: State, t: nat)
    requires Consistent(s) && Enabled(s, StartEnqueue(t))
    ensures Consistent(Apply(s, StartEnqueue(t)))
  {
    hide W.OneEffectPerKey, W.OneOwner, RunsDiffer, PendingRunsDiffer, Planned;
    var after := Apply(s, StartEnqueue(t));
    assert W.Faithful(s.writes, s.writes.txs[t]);
    forall u | u in after.callers ensures CallerOk(after, u, after.callers[u]) {
      if u != t { assert CallerOk(s, u, s.callers[u]); }
    }
  }

  lemma ActionKeepsConsistent(s: State, a: Action)
    requires Consistent(s) && Enabled(s, a)
    ensures Consistent(Apply(s, a)) && W.Extends(s.writes.store, Apply(s, a).writes.store) && s.accepted <= Apply(s, a).accepted
  {
    match a
    case Write(x) =>
      hide CallerOk, Planned, RunsDiffer, PendingRunsDiffer, W.OneOwner, W.Faithful, W.OneEffectPerKey, FreshRun;
      W.ActionKeepsInvariant(s.writes, x, {});
      WriteKeepsRunsDifferent(s.writes, x);
      WriteKeepsCallers(s, x);
    case StartEnqueue(t) => StartKeepsConsistent(s, t);
    case EnqueueNext(t, answer) => EnqueueKeepsConsistent(s, t, answer);
    case TakeJob(job) => TakingKeepsConsistent(s, job);
  }

  lemma TakingKeepsConsistent(s: State, job: string)
    requires Consistent(s) && Enabled(s, TakeJob(job))
    ensures
      var t := Apply(s, TakeJob(job));
      Consistent(t) && W.Extends(s.writes.store, t.writes.store) && s.accepted <= t.accepted
  {
    hide W.Invariant, RunsDiffer, PendingRunsDiffer, Planned;
    forall t | t in s.callers ensures CallerOk(Apply(s, TakeJob(job)), t, s.callers[t]) {
      assert CallerOk(s, t, s.callers[t]);
    }
  }

  // ----- every schedule -----

  ghost predicate Schedule(s: State, actions: seq<Action>)
    decreases |actions|
  {
    actions != [] ==> Enabled(s, actions[0]) && Schedule(Apply(s, actions[0]), actions[1..])
  }

  ghost function After(s: State, actions: seq<Action>): State
    requires Schedule(s, actions)
    decreases |actions|
  {
    if actions == [] then s else After(Apply(s, actions[0]), actions[1..])
  }

  /** Over every interleaving of callers, refusals and workers: distinct keys have distinct runs, every
      accepted job names a committed run and one of its planned queries, and commits are never revised. */
  lemma {:induction false} EveryScheduleKeepsConsistent(s: State, actions: seq<Action>)
    requires Consistent(s) && Schedule(s, actions)
    ensures Consistent(After(s, actions)) && W.Extends(s.writes.store, After(s, actions).writes.store)
    ensures s.accepted <= After(s, actions).accepted
    decreases |actions|
  {
    hide Consistent, Apply, Enabled;
    if actions != [] {
      hide W.Extends;
      ActionKeepsConsistent(s, actions[0]);
      EveryScheduleKeepsConsistent(Apply(s, actions[0]), actions[1..]);
      ExtendsOn(s.writes.store, Apply(s, actions[0]).writes.store, After(s, actions).writes.store);
    }
  }

  lemma ExtendsOn(a: W.Store, b: W.Store, c: W.Store)
    requires W.Extends(a, b) && W.Extends(b, c)
    ensures W.Extends(a, c)
  {
  }

  /** The caller is through its enqueue loop and nothing was refused: the source returns the run. */
  predicate Succeeded(s: State, t: nat) {
    t in s.callers && s.callers[t].next == |s.callers[t].run.plan| && s.callers[t].failed == {}
  }

  /**
   * Over every schedule, when a caller has succeeded: the queue has accepted, for its run, exactly the
   * planned queries; its run is the only one its key ever has, with one committed effect; and any other
   * caller on that key that has a run has this one.
   */
  lemma SuccessQueuesThePlan(actions: seq<Action>, t: nat, u: nat)
    requires Schedule(INITIAL, actions) && Succeeded(After(INITIAL, actions), t)
    ensures
      var s := After(INITIAL, actions);
      t in s.writes.txs &&
      var key, run := s.writes.txs[t].call.key, s.callers[t].run;
      && (forall q :: JobId(key.workspaceId, run.runId, q) in s.accepted <==> q in run.plan)
      && key in s.writes.store.events && RunOf(s.writes.store.events[key]) == Some(run)
      && (exists i :: 0 <= i < |s.writes.store.effects| && s.writes.store.effects[i].key == key)
      && (forall i, j :: 0 <= i < j < |s.writes.store.effects| ==>
            s.writes.store.effects[i].key != s.writes.store.effects[j].key)
      && (u in s.callers && u in s.writes.txs && s.writes.txs[u].call.key == key ==> s.callers[u].run == run)
  {
    hide Schedule, W.OneOwner, W.Faithful, RunsDiffer, PendingRunsDiffer, Planned, JobId;
    InitialIsConsistent();
    EveryScheduleKeepsConsistent(INITIAL, actions);
    var s := After(INITIAL, actions);
    assert CallerOk(s, t, s.callers[t]);
    if u in s.callers { assert CallerOk(s, u, s.callers[u]); }
    AcceptedExactly(s, t);
  }

  lemma AcceptedExactly(s: State, t: nat)
    requires Consistent(s) && Succeeded(s, t) && t in s.writes.txs
    ensures
      var key, run := s.writes.txs[t].call.key, s.callers[t].run;
      forall q :: JobId(key.workspaceId, run.runId, q) in s.accepted <==> q in run.plan
  {
    hide W.Invariant, RunsDiffer, PendingRunsDiffer, Planned, JobId;
    assert CallerOk(s, t, s.callers[t]);
    var key, run := s.writes.txs[t].call.key, s.callers[t].run;
    forall q ensures JobId(key.workspaceId, run.runId, q) in s.accepted <==> q in run.plan {
      if q in run.plan {
        var i :| 0 <= i < |run.plan| && run.plan[i] == q;
      }
      if JobId(key.workspaceId, run.runId, q) in s.accepted {
        OnlyPlannedJobs(s, key, q);
      }
    }
  }

  lemma InitialIsConsistent()
    ensures Consistent(INITIAL)
  {
  }

  lemma OnlyPlannedJobs(s: State, key: W.Key, q: string)
    requires RunsDiffer(s.writes) && key in s.writes.store.events && RunOf(s.writes.store.events[key]).Some?
    requires Planned(s.writes.store, JobId(key.workspaceId, RunOf(s.writes.store.events[key]).value.runId, q))
    ensures q in RunOf(s.writes.store.events[key]).value.plan
  {
    hide NoColon, JobId;
    var run := RunOf(s.writes.store.events[key]).value;
    var job := JobId(key.workspaceId, run.runId, q);
    var k :| k in s.writes.store.events && BelongsTo(s.writes.store.events[k], k.workspaceId, job);
    var other := RunOf(s.writes.store.events[k]).value;
    var i :| 0 <= i < |other.plan| && job == JobId(k.workspaceId, other.runId, other.plan[i]);
    JobIdIdentifies(key.workspaceId, run.runId, q, k.workspaceId, other.runId, other.plan[i]);
    assert k == key;
  }

  // ----- what a caller is told -----

  /** The queue's answers to one caller's loop, in order. */
  function AnswersTo(actions: seq<Action>, t: nat): seq<Answer> {
    if actions == [] then []
    else if actions[0].EnqueueNext? && actions[0].t == t then [actions[0].answer] + AnswersTo(actions[1..], t)
    else AnswersTo(actions[1..], t)
  }

  function RefusedOf(plan: seq<string>, from: nat, answers: seq<Answer>): set<string> {
    set i | 0 <= i < |answers| && from + i < |plan| && answers[i] == Refused :: plan[from + i]
  }

  lemma RefusedFirst(plan: seq<string>, from: nat, first: Answer, rest: seq<Answer>)
    requires from < |plan|
    ensures RefusedOf(plan, from, [first] + rest) ==
      (if first == Refused then {plan[from]} else {}) + RefusedOf(plan, from + 1, rest)
  {
    var answers := [first] + rest;
    forall q | q in RefusedOf(plan, from + 1, rest) ensures q in RefusedOf(plan, from, answers) {
      var i :| 0 <= i < |rest| && from + 1 + i < |plan| && rest[i] == Refused && plan[from + 1 + i] == q;
      assert answers[i + 1] == Refused && plan[from + (i + 1)] == q;
    }
    if first == Refused { assert answers[0] == Refused && plan[from + 0] == plan[from]; }
    forall q | q in RefusedOf(plan, from, answers)
      ensures q in (if first == Refused then {plan[from]} else {}) + RefusedOf(plan, from + 1, rest)
    {
      var i :| 0 <= i < |answers| && from + i < |plan| && answers[i] == Refused && plan[from + i] == q;
      if i > 0 { assert rest[i - 1] == Refused && plan[from + 1 + (i - 1)] == q; }
    }
  }

  /** Whatever happens in between, a caller in its loop gets one query further with each of its own answers,
      and its failures are the queries that were refused to it. */
  lemma {:induction false} OwnAnswersDecide(s: State, actions: seq<Action>, t: nat)
    requires t in s.callers && Schedule(s, actions)
    requires s.callers[t].next <= |s.callers[t].run.plan|
    ensures
      var before, answers := s.callers[t], AnswersTo(actions, t);
      && t in After(s, actions).callers
      && before.next + |answers| <= |before.run.plan|
      && After(s, actions).callers[t] == before.(
           next := before.next + |answers|,
           failed := before.failed + RefusedOf(before.run.plan, before.next, answers))
    decreases |actions|
  {
    hide RefusedOf;
    if actions == [] {
      NothingRefused(s.callers[t].run.plan, s.callers[t].next);
    } else {
      OwnAnswersDecide(Apply(s, actions[0]), actions[1..], t);
      if actions[0].EnqueueNext? && actions[0].t == t {
        RefusedFirst(s.callers[t].run.plan, s.callers[t].next, actions[0].answer, AnswersTo(actions[1..], t));
      }
    }
  }

  lemma NothingRefused(plan: seq<string>, from: nat)
    ensures RefusedOf(plan, from, []) == {}
  {
  }

  /** From the start: a caller's loop stands where its answers have brought it, and what failed is exactly
      what was refused to it. */
  lemma {:induction false} CallersCountAnswers(s: State, actions: seq<Action>, t: nat)
    requires t !in s.callers && Schedule(s, actions)
    ensures t !in After(s, actions).callers ==> AnswersTo(actions, t) == []
    ensures t in After(s, actions).callers ==>
      var c, answers := After(s, actions).callers[t], AnswersTo(actions, t);
      c.next == |answers| <= |c.run.plan| && c.failed == RefusedOf(c.run.plan, 0, answers)
    decreases |actions|
  {
    hide RefusedOf;
    if actions != [] {
      var after := Apply(s, actions[0]);
      if t in after.callers {
        OwnAnswersDecide(after, actions[1..], t);
      } else {
        CallersCountAnswers(after, actions[1..], t);
      }
    }
  }

  /** Over every schedule, a caller's call succeeds exactly when the queue has answered each of its planned
      queries and refused none, taking a job and knowing it already being equally good; and a call that is
      through but fails is told exactly the queries that were refused to it. */
  lemma SuccessIsUnrefused(actions: seq<Action>, t: nat)
    requires Schedule(INITIAL, actions) && t in After(INITIAL, actions).callers
    ensures
      var s, answers := After(INITIAL, actions), AnswersTo(actions, t);
      var plan := s.callers[t].run.plan;
      && |answers| <= |plan|
      && (Succeeded(s, t) <==> |answers| == |plan| && forall i :: 0 <= i < |answers| ==> answers[i] != Refused)
      && (forall q :: q in s.callers[t].failed <==> exists i :: 0 <= i < |answers| && answers[i] == Refused && plan[i] == q)
  {
    hide Schedule, After;
    CallersCountAnswers(INITIAL, actions, t);
    var answers, plan := AnswersTo(actions, t), After(INITIAL, actions).callers[t].run.plan;
    forall i | 0 <= i < |answers| && answers[i] == Refused ensures plan[i] in RefusedOf(plan, 0, answers) {
      assert plan[0 + i] == plan[i];
    }
  }

  // ----- a retry heals a refusal -----

  /** The enqueue loop of one caller, with the queue's answers to it. */
  function Loop(t: nat, answers: seq<Answer>): seq<Action> {
    seq(|answers|, i requires 0 <= i < |answers| => EnqueueNext(t, answers[i]))
  }

  lemma {:induction false} LoopAnswers(t: nat, answers: seq<Answer>)
    ensures AnswersTo(Loop(t, answers), t) == answers
  {
    if answers != [] {
      LoopAnswers(t, answers[1..]);
      assert Loop(t, answers)[1..] == Loop(t, answers[1..]);
    }
  }

  lemma {:induction false} LoopWritesNothing(s: State, t: nat, answers: seq<Answer>)
    requires Schedule(s, Loop(t, answers))
    ensures After(s, Loop(t, answers)).writes == s.writes
    decreases |answers|
  {
    if answers != [] {
      assert Loop(t, answers)[1..] == Loop(t, answers[1..]);
      LoopWritesNothing(Apply(s, Loop(t, answers)[0]), t, answers[1..]);
    }
  }

  /** The queue may take each job in turn; and it may answer that it knows every one it has accepted. */
  lemma {:induction false} LoopIsPossible(s: State, t: nat, answers: seq<Answer>)
    requires t in s.callers && t in s.writes.txs && s.callers[t].next + |answers| <= |s.callers[t].run.plan|
    requires forall i :: 0 <= i < |answers| && answers[i] == AlreadyThere ==>
      JobId(s.writes.txs[t].call.key.workspaceId, s.callers[t].run.runId, s.callers[t].run.plan[s.callers[t].next + i]) in s.accepted
    ensures Schedule(s, Loop(t, answers))
    decreases |answers|
  {
    hide JobId;
    if answers != [] {
      assert Loop(t, answers)[0] == EnqueueNext(t, answers[0]) && Loop(t, answers)[1..] == Loop(t, answers[1..]);
      assert answers[0] == AlreadyThere ==> JobOf(s, t) in s.accepted;
      var after, next := Apply(s, EnqueueNext(t, answers[0])), s.callers[t].next;
      forall i | 0 <= i < |answers[1..]| && answers[1..][i] == AlreadyThere
        ensures JobId(s.writes.txs[t].call.key.workspaceId, s.callers[t].run.runId, s.callers[t].run.plan[next + 1 + i]) in after.accepted
      {
        assert answers[i + 1] == AlreadyThere && next + (i + 1) == next + 1 + i;
      }
      LoopIsPossible(after, t, answers[1..]);
    }
  }

  /** The three steps that bring a retry to its enqueue loop. */
  function RetrySteps(t: nat, key: W.Key, fingerprint: string): seq<Action> {
    [Write(W.Begin(t, W.Call(key, fingerprint))), Write(W.Find(t)), StartEnqueue(t)]
  }

  lemma RetryStarts(s: State, t: nat, key: W.Key, fingerprint: string)
    requires Consistent(s) && t !in s.writes.txs && t !in s.callers
    requires key in s.writes.store.events && s.writes.store.events[key].fingerprint == fingerprint
    requires RunOf(s.writes.store.events[key]).Some?
    ensures Schedule(s, RetrySteps(t, key, fingerprint))
    ensures
      var after := After(s, RetrySteps(t, key, fingerprint));
      && after.callers == s.callers[t := Enqueuing(RunOf(s.writes.store.events[key]).value, 0, {})]
      && t in after.writes.txs && after.writes.txs[t].call.key == key
      && after.writes.store == s.writes.store && after.accepted == s.accepted
  {
    hide NoColon, W.Invariant, PendingRunsDiffer;
    var steps := RetrySteps(t, key, fingerprint);
    var s1 := Apply(s, steps[0]);
    var s2 := Apply(s1, steps[1]);
    var s3 := Apply(s2, steps[2]);
    assert steps[1..][1..] == [steps[2]] && steps[1..][1..][1..] == [];
    assert Schedule(s2, [steps[2]]) && After(s2, [steps[2]]) == s3;
    assert Schedule(s1, steps[1..]) && After(s1, steps[1..]) == s3;
  }

  /**
   * In every reachable state, whatever was refused before: a retry with the key and fingerprint of a
   * recorded run comes to enqueue that very run; however the queue then answers its loop, the retry
   * succeeds exactly when nothing is refused, without another write; and no refusal is needed, for the
   * queue can take every job, or know any that it accepted before.
   */
  lemma RetryHeals(s: State, t: nat, key: W.Key, fingerprint: string, answers: seq<Answer>)
    requires Consistent(s) && t !in s.writes.txs && t !in s.callers
    requires key in s.writes.store.events && s.writes.store.events[key].fingerprint == fingerprint
    requires RunOf(s.writes.store.events[key]).Some?
    requires |answers| == |RunOf(s.writes.store.events[key]).value.plan|
    ensures Schedule(s, RetrySteps(t, key, fingerprint))
    ensures
      var retry, run := After(s, RetrySteps(t, key, fingerprint)), RunOf(s.writes.store.events[key]).value;
      && (Schedule(retry, Loop(t, answers)) ==>
            && (Succeeded(After(retry, Loop(t, answers)), t) <==> forall i :: 0 <= i < |answers| ==> answers[i] != Refused)
            && t in After(retry, Loop(t, answers)).callers && After(retry, Loop(t, answers)).callers[t].run == run
            && After(retry, Loop(t, answers)).writes.store == s.writes.store)
      && ((forall i :: 0 <= i < |answers| && answers[i] == AlreadyThere ==>
             JobId(key.workspaceId, run.runId, run.plan[i]) in s.accepted) ==> Schedule(retry, Loop(t, answers)))
  {
    RetryStarts(s, t, key, fingerprint);
    hide Consistent, RetrySteps, JobId, After, Schedule, Loop, RunOf;
    var retry, run := After(s, RetrySteps(t, key, fingerprint)), RunOf(s.writes.store.events[key]).value;
    assert forall i :: 0 <= i < |answers| ==> run.plan[0 + i] == run.plan[i];
    if forall i :: 0 <= i < |answers| && answers[i] == AlreadyThere ==> JobId(key.workspaceId, run.runId, run.plan[i]) in s.accepted {
      LoopIsPossible(retry, t, answers);
    }
    if Schedule(retry, Loop(t, answers)) {
      LoopDecides(retry, t, run, answers);
    }
  }

  lemma LoopDecides(s: State, t: nat, run: StartedRun, answers: seq<Answer>)
    requires t in s.callers && s.callers[t] == Enqueuing(run, 0, {}) && |answers| == |run.plan|
    requires Schedule(s, Loop(t, answers))
    ensures
      var after := After(s, Loop(t, answers));
      && (Succeeded(after, t) <==> forall i :: 0 <= i < |answers| ==> answers[i] != Refused)
      && t in after.callers && after.callers[t].run == run && after.writes == s.writes
  {
    hide After, Schedule, Loop;
    LoopAnswers(t, answers);
    LoopWritesNothing(s, t, answers);
    OwnAnswersDecide(s, Loop(t, answers), t);
    if i :| 0 <= i < |answers| && answers[i] == Refused {
      assert run.plan[0 + i] in RefusedOf(run.plan, 0, answers);
    }
  }

  // ----- a first start -----

  lemma Then(s: State, a: Action, rest: seq<Action>)
    requires Enabled(s, a) && Schedule(Apply(s, a), rest)
    ensures Schedule(s, [a] + rest) && After(s, [a] + rest) == After(Apply(s, a), rest)
  {
    hide Apply, Enabled;
    assert ([a] + rest)[1..] == rest;
  }

  /** The write of a fresh run under a key that is neither recorded nor held: it commits, and its caller comes
      to its enqueue loop. */
  lemma FreshWriteStarts(s: State, t: nat, call: W.Call, reply: W.Reply, change: string, rest: seq<Action>)
    returns (actions: seq<Action>, started: State)
    requires t !in s.writes.txs && t !in s.callers && NoColon(call.key.workspaceId)
    requires call.key !in s.writes.store.events && W.IndexFree(s.writes, call.key)
    requires RunIn(reply.body).Some? && FreshRun(s.writes, RunIn(reply.body).value)
    ensures
      && t in started.writes.txs && started.writes.txs[t].call == call
      && started.callers == s.callers[t := Enqueuing(RunIn(reply.body).value, 0, {})]
      && started.accepted == s.accepted
      && call.key in started.writes.store.events && RunOf(started.writes.store.events[call.key]) == RunIn(reply.body)
    ensures Schedule(started, rest) ==> Schedule(s, actions) && After(s, actions) == After(started, rest)
  {
    var s1 := Apply(s, Write(W.Begin(t, call)));
    var s2 := Apply(s1, Write(W.Find(t)));
    var s3 := Apply(s2, Write(W.Flush(t)));
    var s4 := Apply(s3, Write(W.Operate(t, reply, change)));
    var s5 := Apply(s4, Write(W.CommitTx(t)));
    started := Apply(s5, StartEnqueue(t));
    actions := [StartEnqueue(t)] + rest;
    if Schedule(started, rest) {
      Then(s5, StartEnqueue(t), rest);
      Then(s4, Write(W.CommitTx(t)), actions);
      Then(s3, Write(W.Operate(t, reply, change)), [Write(W.CommitTx(t))] + actions);
    }
    actions := [Write(W.Operate(t, reply, change))] + ([Write(W.CommitTx(t))] + actions);
    if Schedule(started, rest) {
      Then(s2, Write(W.Flush(t)), actions);
      Then(s1, Write(W.Find(t)), [Write(W.Flush(t))] + actions);
      Then(s, Write(W.Begin(t, call)), [Write(W.Find(t))] + ([Write(W.Flush(t))] + actions));
    }
    actions := [Write(W.Begin(t, call))] + ([Write(W.Find(t))] + ([Write(W.Flush(t))] + actions));
  }

  /** And however the queue answers it without a refusal, the start succeeds with its own run. */
  lemma FreshStartSucceeds(s: State, t: nat, call: W.Call, reply: W.Reply, change: string) returns (actions: seq<Action>)
    requires t !in s.writes.txs && t !in s.callers && NoColon(call.key.workspaceId)
    requires call.key !in s.writes.store.events && W.IndexFree(s.writes, call.key)
    requires RunIn(reply.body).Some? && FreshRun(s.writes, RunIn(reply.body).value)
    ensures Schedule(s, actions)
    ensures
      var after := After(s, actions);
      Succeeded(after, t) && Some(after.callers[t].run) == RunIn(reply.body)
  {
    var plan := RunIn(reply.body).value.plan;
    var answers := seq(|plan|, _ => Taken);
    var started: State;
    actions, started := FreshWriteStarts(s, t, call, reply, change, Loop(t, answers));
    LoopIsPossible(started, t, answers);
    LoopAnswers(t, answers);
    OwnAnswersDecide(started, Loop(t, answers), t);
    hide Schedule, After, Loop;
    assert RefusedOf(plan, 0, answers) == {};
  }
}
