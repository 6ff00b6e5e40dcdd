/**
 * Keyed writes: claim, operate, attach and commit in one transaction over a unique index, run by
 * any number of concurrent callers, refine one atomic map from key to first result.
 */
module KeyedWrites {
  import opened Options

  datatype Key = Key(workspaceId: string, key: string)
  datatype Reply = Reply(statusCode: int, body: string)

  /** A committed row. Rows older than atomic recording carry no reply. */
  datatype Event = Event(fingerprint: string, reply: Option<Reply>)

  datatype Outcome = Returned(reply: Reply) | Conflict | Failed

  const RECONCILE := Reply(409, "idempotency_key_reconciliation_required")

  function ReplayOf(e: Event): Reply {
    e.reply.GetOr(RECONCILE)
  }

  /** What a caller with this fingerprint sees once the key has a committed row. */
  function Resolve(e: Event, fingerprint: string): Outcome {
    if e.fingerprint != fingerprint then Conflict else Returned(ReplayOf(e))
  }

  // ----- the specification: one atomic step -----

  datatype Effect = Effect(key: Key, change: string)

  /** Committed rows, and the domain changes committed so far, each with the key that made it. */
  datatype Store = Store(events: map<Key, Event>, effects: seq<Effect>)

  function AtomicWrite(s: Store, key: Key, fingerprint: string, reply: Reply, change: string): (Store, Outcome) {
    if key in s.events then (s, Resolve(s.events[key], fingerprint))
    else
      (Store(s.events[key := Event(fingerprint, Some(reply))], s.effects + [Effect(key, change)]), Returned(reply))
  }

  // ----- the implementation: transactions over a unique index -----

  datatype Call = Call(key: Key, fingerprint: string)

  datatype Transaction =
    | Begun(call: Call)
    | NotFound(call: Call)
    | Owner(call: Call)
    | Attached(call: Call, reply: Reply, change: string)
    | Ended(call: Call, outcome: Outcome)

  datatype System = System(store: Store, txs: map<nat, Transaction>)

  datatype Action =
    | Begin(t: nat, call: Call)
    | Find(t: nat)
    | Flush(t: nat)
    | Operate(t: nat, reply: Reply, change: string)
    | CommitTx(t: nat)
    | Abort(t: nat)

  /** An inserted but uncommitted row occupies the unique index. */
  predicate Holding(tx: Transaction) {
    tx.Owner? || tx.Attached?
  }

  predicate IndexFree(s: System, key: Key) {
    forall t :: t in s.txs && Holding(s.txs[t]) ==> s.txs[t].call.key != key
  }

  /** A flush blocks while another transaction holds the key; everything else is always possible.
      Abort is an operation that raises, a refused commit, or a crash. */
  predicate Enabled(s: System, a: Action) {
    match a
    case Begin(t, _) => t !in s.txs
    case Find(t) => t in s.txs && s.txs[t].Begun?
    case Flush(t) => t in s.txs && s.txs[t].NotFound? && IndexFree(s, s.txs[t].call.key)
    case Operate(t, _, _) => t in s.txs && s.txs[t].Owner?
    case CommitTx(t) => t in s.txs && s.txs[t].Attached?
    case Abort(t) => t in s.txs && !s.txs[t].Ended?
  }

  function Apply(s: System, a: Action): System
    requires Enabled(s, a)
  {
    match a
    case Begin(t, call) => s.(txs := s.txs[t := Begun(call)])
    case Find(t) =>
      var call := s.txs[t].call;
      s.(txs := s.txs[t :=
        if call.key in s.store.events then Ended(call, Resolve(s.store.events[call.key], call.fingerprint))
        else NotFound(call)])
    case Flush(t) =>
      var call := s.txs[t].call;
      s.(txs := s.txs[t :=
        if call.key in s.store.events then Ended(call, Resolve(s.store.events[call.key], call.fingerprint))
        else Owner(call)])
    case Operate(t, reply, change) => s.(txs := s.txs[t := Attached(s.txs[t].call, reply, change)])
    case CommitTx(t) =>
      var tx := s.txs[t];
      System(
        Store(s.store.events[tx.call.key := Event(tx.call.fingerprint, Some(tx.reply))],
              s.store.effects + [Effect(tx.call.key, tx.change)]),
        s.txs[t := Ended(tx.call, Returned(tx.reply))])
    case Abort(t) => s.(txs := s.txs[t := Ended(s.txs[t].call, Failed)])
  }

  // ----- invariants -----

  /** At most one transaction holds a key, and only while the key has no committed row. */
  predicate OneOwner(s: System) {
    && (forall t, u :: t in s.txs && u in s.txs && t != u && Holding(s.txs[t]) && Holding(s.txs[u]) ==>
          s.txs[t].call.key != s.txs[u].call.key)
    && (forall t :: t in s.txs && Holding(s.txs[t]) ==> s.txs[t].call.key !in s.store.events)
  }

  /** A finished call reports the committed first result, or a genuine conflict with it. */
  predicate Faithful(s: System, tx: Transaction) {
    tx.Ended? && !tx.outcome.Failed? ==>
      tx.call.key in s.store.events && tx.outcome == Resolve(s.store.events[tx.call.key], tx.call.fingerprint)
  }

  /** Every recorded key has its one effect, unless its row predates atomic recording. */
  predicate OneEffectPerKey(s: Store, legacy: set<Key>) {
    && legacy <= s.events.Keys
    && (forall i, j :: 0 <= i < j < |s.effects| ==> s.effects[i].key != s.effects[j].key)
    && (forall i :: 0 <= i < |s.effects| ==> s.effects[i].key in s.events && s.effects[i].key !in legacy)
    && (forall k :: k in s.events && k !in legacy ==> exists i :: 0 <= i < |s.effects| && s.effects[i].key == k)
  }

  ghost predicate Invariant(s: System, legacy: set<Key>) {
    && OneOwner(s)
    && (forall t :: t in s.txs ==> Faithful(s, s.txs[t]))
    && OneEffectPerKey(s.store, legacy)
  }

  function Initial(legacyRows: map<Key, Event>): System {
    System(Store(legacyRows, []), map[])
  }

  /** Committed rows and effects are never revised. */
  predicate Extends(s: Store, t: Store) {
    && (forall k :: k in s.events ==> k in t.events && t.events[k] == s.events[k])
    && s.effects <= t.effects
  }

  lemma EffectAdded(s: Store, key: Key, e: Event, change: string, legacy: set<Key>)
    requires OneEffectPerKey(s, legacy) && key !in s.events
    ensures OneEffectPerKey(Store(s.events[key := e], s.effects + [Effect(key, change)]), legacy)
  {
    var t := Store(s.events[key := e], s.effects + [Effect(key, change)]);
    assert t.effects[|s.effects|].key == key;
    forall k | k in t.events && k !in legacy ensures exists i :: 0 <= i < |t.effects| && t.effects[i].key == k {
      if k != key {
        var i :| 0 <= i < |s.effects| && s.effects[i].key == k;
        assert t.effects[i] == s.effects[i];
      }
    }
  }

  lemma ActionKeepsInvariant(s: System, a: Action, legacy: set<Key>)
    requires Invariant(s, legacy) && Enabled(s, a)
    ensures Invariant(Apply(s, a), legacy) && Extends(s.store, Apply(s, a).store)
  {
    if a.CommitTx? {
      var tx := s.txs[a.t];
      EffectAdded(s.store, tx.call.key, Event(tx.call.fingerprint, Some(tx.reply)), tx.change, legacy);
    }
  }

  /**
   * Refinement: every action either leaves the abstract store alone or is one atomic write, and the
   * action that ends a call without failure is where that atomic write happens, with that outcome.
   */
  lemma ActionRefinesAtomicWrite(s: System, a: Action, legacy: set<Key>)
    requires Invariant(s, legacy) && Enabled(s, a)
    ensures
      var t := Apply(s, a);
      if a.CommitTx? then
        var tx := s.txs[a.t];
        && t.txs[a.t].Ended?
        && AtomicWrite(s.store, tx.call.key, tx.call.fingerprint, tx.reply, tx.change) == (t.store, t.txs[a.t].outcome)
      else
        && t.store == s.store
        && (t.txs[a.t].Ended? && !t.txs[a.t].outcome.Failed? ==>
              var call := t.txs[a.t].call;
              forall reply, change ::
                AtomicWrite(s.store, call.key, call.fingerprint, reply, change) == (t.store, t.txs[a.t].outcome))
  {
  }

  // ----- every schedule -----

  ghost predicate Schedule(s: System, actions: seq<Action>)
    decreases |actions|
  {
    actions != [] ==> Enabled(s, actions[0]) && Schedule(Apply(s, actions[0]), actions[1..])
  }

  ghost function After(s: System, actions: seq<Action>): System
    requires Schedule(s, actions)
    decreases |actions|
  {
    if actions == [] then s else After(Apply(s, actions[0]), actions[1..])
  }

  lemma {:induction false} EveryScheduleKeepsInvariant(s: System, actions: seq<Action>, legacy: set<Key>)
    requires Invariant(s, legacy) && Schedule(s, actions)
    ensures Invariant(After(s, actions), legacy) && Extends(s.store, After(s, actions).store)
    decreases |actions|
  {
    if actions != [] {
      ActionKeepsInvariant(s, actions[0], legacy);
      EveryScheduleKeepsInvariant(Apply(s, actions[0]), actions[1..], legacy);
    }
  }

  /** Two finished calls on one key: equal fingerprints returned the same reply, different ones cannot
      both have returned; and an effect is committed exactly when its recorded result is. */
  lemma FirstResultWins(legacyRows: map<Key, Event>, actions: seq<Action>, t: nat, u: nat)
    requires Schedule(Initial(legacyRows), actions)
    ensures
      var s := After(Initial(legacyRows), actions);
      && (t in s.txs && u in s.txs && s.txs[t].Ended? && s.txs[u].Ended?
          && s.txs[t].call.key == s.txs[u].call.key
          && s.txs[t].outcome.Returned? && !s.txs[u].outcome.Failed? ==>
            if s.txs[t].call.fingerprint == s.txs[u].call.fingerprint
            then s.txs[u].outcome == s.txs[t].outcome
            else s.txs[u].outcome.Conflict?)
      && (forall k :: k !in legacyRows ==>
            (k in s.store.events <==> exists i :: 0 <= i < |s.store.effects| && s.store.effects[i].key == k))
      && (forall i, j :: 0 <= i < j < |s.store.effects| ==> s.store.effects[i].key != s.store.effects[j].key)
      && (forall k :: k in legacyRows ==> k in s.store.events && s.store.events[k] == legacyRows[k])
      && (t in s.txs && s.txs[t].Ended? && !s.txs[t].outcome.Failed? && s.txs[t].call.key in legacyRows ==>
            var row := legacyRows[s.txs[t].call.key];
            s.txs[t].outcome ==
              if row.fingerprint != s.txs[t].call.fingerprint then Conflict
              else if row.reply.Some? then Returned(row.reply.value)
              else Returned(Reply(409, "idempotency_key_reconciliation_required")))
  {
    EveryScheduleKeepsInvariant(Initial(legacyRows), actions, legacyRows.Keys);
  }

  // ----- where a committed row comes from -----

  /** One call began with this key and fingerprint, and its operation gave this reply and made this change. */
  ghost predicate MadeBy(done: seq<Action>, t: nat, call: Call, reply: Reply, change: string) {
    Begin(t, call) in done && Operate(t, reply, change) in done
  }

  ghost predicate Accounted(done: seq<Action>, s: System) {
    && (forall t :: t in s.txs ==> Begin(t, s.txs[t].call) in done)
    && (forall t :: t in s.txs && s.txs[t].Attached? ==> MadeBy(done, t, s.txs[t].call, s.txs[t].reply, s.txs[t].change))
    && (forall i :: 0 <= i < |s.store.effects| ==> EffectMade(done, s.store, s.store.effects[i]))
  }

  ghost predicate EffectMade(done: seq<Action>, store: Store, e: Effect) {
    && e.key in store.events && store.events[e.key].reply.Some?
    && exists t :: MadeBy(done, t, Call(e.key, store.events[e.key].fingerprint), store.events[e.key].reply.value, e.change)
  }

  lemma EffectStaysMade(done: seq<Action>, a: Action, s: Store, t: Store, e: Effect)
    requires EffectMade(done, s, e) && Extends(s, t)
    ensures EffectMade(done + [a], t, e)
  {
    var made := s.events[e.key];
    var u :| MadeBy(done, u, Call(e.key, made.fingerprint), made.reply.value, e.change);
    assert MadeBy(done + [a], u, Call(e.key, made.fingerprint), made.reply.value, e.change);
  }

  lemma ActionStaysAccounted(done: seq<Action>, s: System, a: Action, legacy: set<Key>)
    requires Accounted(done, s) && Invariant(s, legacy) && Enabled(s, a)
    ensures Accounted(done + [a], Apply(s, a))
  {
    var after, more := Apply(s, a), done + [a];
    ActionKeepsInvariant(s, a, legacy);
    assert a in more && forall b :: b in done ==> b in more;
    forall i | 0 <= i < |after.store.effects| ensures EffectMade(more, after.store, after.store.effects[i]) {
      if i < |s.store.effects| {
        EffectStaysMade(done, a, s.store, after.store, s.store.effects[i]);
      } else {
        var tx := s.txs[a.t];
        assert MadeBy(more, a.t, tx.call, tx.reply, tx.change);
      }
    }
  }

  lemma {:induction false} EveryScheduleStaysAccounted(done: seq<Action>, s: System, actions: seq<Action>, legacy: set<Key>)
    requires Accounted(done, s) && Invariant(s, legacy) && Schedule(s, actions)
    ensures Accounted(done + actions, After(s, actions))
    decreases |actions|
  {
    hide Accounted, Invariant, Apply, Enabled;
    if actions == [] {
      assert done + actions == done;
    } else {
      ActionStaysAccounted(done, s, actions[0], legacy);
      ActionKeepsInvariant(s, actions[0], legacy);
      EveryScheduleStaysAccounted(done + [actions[0]], Apply(s, actions[0]), actions[1..], legacy);
      assert done + [actions[0]] + actions[1..] == done + actions;
    }
  }

  /** Over every schedule: a key that was not recorded before and is now was recorded by one call, whose
      operation gave the recorded reply and made the change committed with it. */
  lemma CommittedByOneCall(legacyRows: map<Key, Event>, actions: seq<Action>, key: Key) returns (t: nat, change: string)
    requires Schedule(Initial(legacyRows), actions)
    requires key !in legacyRows && key in After(Initial(legacyRows), actions).store.events
    ensures
      var s := After(Initial(legacyRows), actions);
      && s.store.events[key].reply.Some?
      && Begin(t, Call(key, s.store.events[key].fingerprint)) in actions
      && Operate(t, s.store.events[key].reply.value, change) in actions
      && Effect(key, change) in s.store.effects
  {
    var s0 := Initial(legacyRows);
    FirstResultWins(legacyRows, actions, 0, 0);
    EveryScheduleStaysAccounted([], s0, actions, legacyRows.Keys);
    assert [] + actions == actions;
    var s := After(s0, actions);
    var i :| 0 <= i < |s.store.effects| && s.store.effects[i].key == key;
    assert EffectMade(actions, s.store, s.store.effects[i]);
    change := s.store.effects[i].change;
    t :| MadeBy(actions, t, Call(key, s.store.events[key].fingerprint), s.store.events[key].reply.value, change);
  }

  lemma Then(s: System, a: Action, rest: seq<Action>)
    requires Enabled(s, a) && Schedule(Apply(s, a), rest)
    ensures Schedule(s, [a] + rest) && After(s, [a] + rest) == After(Apply(s, a), rest)
  {
    hide Apply, Enabled;
    assert ([a] + rest)[1..] == rest;
  }

  /** A call with whose key nobody else is busy gets through, and is one atomic write. */
  lemma CallGetsThrough(s: System, t: nat, call: Call, reply: Reply, change: string) returns (actions: seq<Action>)
    requires OneOwner(s) && t !in s.txs && IndexFree(s, call.key)
    ensures Schedule(s, actions)
    ensures
      var after := After(s, actions);
      && t in after.txs && after.txs[t].Ended?
      && (after.store, after.txs[t].outcome) == AtomicWrite(s.store, call.key, call.fingerprint, reply, change)
      && forall u :: u in s.txs ==> u in after.txs && after.txs[u] == s.txs[u]
  {
    var s1 := Apply(s, Begin(t, call));
    var s2 := Apply(s1, Find(t));
    var rest: seq<Action> := [];
    if call.key !in s.store.events {
      var s3 := Apply(s2, Flush(t));
      var s4 := Apply(s3, Operate(t, reply, change));
      Then(s4, CommitTx(t), []);
      Then(s3, Operate(t, reply, change), [CommitTx(t)] + []);
      rest := [Operate(t, reply, change)] + ([CommitTx(t)] + []);
      Then(s2, Flush(t), rest);
      rest := [Flush(t)] + rest;
    }
    Then(s1, Find(t), rest);
    Then(s, Begin(t, call), [Find(t)] + rest);
    actions := [Begin(t, call)] + ([Find(t)] + rest);
  }

  /** A blocked flush waits only for a transaction that can still finish: some holder can always step. */
  lemma BlockedFlushCanProceed(s: System, t: nat)
    requires t in s.txs && s.txs[t].NotFound? && !Enabled(s, Flush(t))
    ensures exists u :: CanStep(s, u) && s.txs[u].call.key == s.txs[t].call.key
  {
  }

  predicate CanStep(s: System, u: nat) {
    u in s.txs && (Enabled(s, Operate(u, RECONCILE, "")) || Enabled(s, CommitTx(u)))
  }

  // ----- the code of one caller -----

  datatype Operation = Completes(reply: Reply, change: string) | Raises

  /** What a concurrent caller commits on the same key. */
  datatype Rival = Rival(fingerprint: string, reply: Reply, change: string)

  function Interfered(s: Store, key: Key, rival: Option<Rival>): Store {
    if rival.None? then s
    else AtomicWrite(s, key, rival.value.fingerprint, rival.value.reply, rival.value.change).0
  }

  /** One caller's session over the shared table; staged is its uncommitted row. */
  class Session {
    var store: Store
    var staged: map<Key, Event>

    constructor (store: Store)
      ensures this.store == store && staged == map[]
    {
      this.store := store;
      staged := map[];
    }

    method FindEvent(key: Key) returns (e: Option<Event>)
      ensures e == if key in staged then Some(staged[key]) else if key in store.events then Some(store.events[key]) else None
    {
      if key in staged { return Some(staged[key]); }
      e := if key in store.events then Some(store.events[key]) else None;
    }

    /** None means the caller now owns the key. `rival` is what a concurrent transaction commits on
        this key between the first look-up and the flush, if anything. */
    method Claim(key: Key, fingerprint: string, rival: Option<Rival>) returns (resolved: Option<Outcome>)
      requires staged == map[]
      modifies this
      ensures store == Interfered(old(store), key, rival)
      ensures resolved ==
        if key in store.events then Some(Resolve(store.events[key], fingerprint)) else None
      ensures staged == if resolved.None? then map[key := Event(fingerprint, None)] else map[]
    {
      var existing := FindEvent(key);
      if existing.Some? {
        return Some(Resolve(existing.value, fingerprint));
      }
      staged := staged[key := Event(fingerprint, None)];
      store := Interfered(store, key, rival);
      if key in store.events {  // the unique index rejects the flush: roll back and look again
        staged := map[];
        existing := FindEvent(key);
        return Some(Resolve(existing.value, fingerprint));
      }
      resolved := None;
    }

    method Execute(key: Key, fingerprint: string, rival: Option<Rival>, operation: Operation) returns (outcome: Outcome)
      requires staged == map[]
      modifies this
      ensures staged == map[]
      ensures
        var seen := Interfered(old(store), key, rival);
        if operation.Completes?
        then (store, outcome) == AtomicWrite(seen, key, fingerprint, operation.reply, operation.change)
        else store == seen && outcome == if key in seen.events then Resolve(seen.events[key], fingerprint) else Failed
    {
      var resolved := Claim(key, fingerprint, rival);
      if resolved.Some? {
        return resolved.value;
      }
      match operation
      case Raises =>
        staged := map[];
        outcome := Failed;
      case Completes(reply, change) =>
        staged := staged[key := Event(fingerprint, Some(reply))];
        assert store.events + staged == store.events[key := Event(fingerprint, Some(reply))];
        store := Store(store.events + staged, store.effects + [Effect(key, change)]);
        staged := map[];
        outcome := Returned(reply);
    }
  }
}
