/** Loading the frozen query document: what every run's plan guarantees. */
module FrozenPlan {
  import opened Options
  import opened RunRecords
  import opened RunSafety

  /** One element of the document's query list; a field is None when absent or not a string. */
  datatype Entry =
    | NotAnObject
    | Entry(id: Option<string>, query: Option<string>, patternOk: bool, subredditsOk: bool)

  datatype Document = Document(schemaVersion: int, entries: Option<seq<Entry>>, providerVariant: Option<string>)

  datatype PlanError = WrongSchema | NoQueries | BadEntry(index: nat) | DuplicateId(index: nat) | NoVariant

  predicate EntryOk(e: Entry) {
    && e.Entry?
    && e.id.Some? && IsQueryId(e.id.value)
    && e.query.Some? && e.query.value != ""
    && e.patternOk && e.subredditsOk
  }

  /** The documents that load: everything the checks together demand, in no order. */
  predicate Loadable(d: Document) {
    && d.schemaVersion == 1
    && d.entries.Some? && d.entries.value != []
    && (forall i :: 0 <= i < |d.entries.value| ==> EntryOk(d.entries.value[i]))
    && (forall i, j :: 0 <= i < j < |d.entries.value| ==> d.entries.value[i].id != d.entries.value[j].id)
    && d.providerVariant.Some? && d.providerVariant.value != ""
  }

  /** Written out: schema 1, a variant, and at least one entry, all of them objects with a query id, a text and
      well-typed options, no two with one id. */
  lemma LoadableExactly(d: Document)
    ensures
      var entries := d.entries.GetOr([]);
      Loadable(d) <==>
        && d.schemaVersion == 1 && entries != [] && d.providerVariant.GetOr("") != ""
        && (forall e :: e in entries ==>
              match e
              case NotAnObject => false
              case Entry(id, query, patternOk, subredditsOk) =>
                query.GetOr("") != "" && patternOk && subredditsOk && id.Some? && IsQueryId(id.value))
        && forall i, j :: 0 <= i < |entries| && 0 <= j < |entries| && i != j && entries[i].Entry? && entries[j].Entry? ==>
             entries[i].id != entries[j].id
  {
    hide IsQueryId;
    var entries := d.entries.GetOr([]);
    assert forall i :: 0 <= i < |entries| ==> entries[i] in entries;
  }

  /** No fault among the first entries: each is in order and their ids differ. */
  predicate FineUpTo(entries: seq<Entry>, n: nat) {
    && n <= |entries|
    && (forall i :: 0 <= i < n ==> EntryOk(entries[i]))
    && (forall i, j :: 0 <= i < j < n ==> entries[i].id != entries[j].id)
  }

  /** The id of some entry before this one. */
  predicate RepeatsEarlier(entries: seq<Entry>, n: nat) {
    n < |entries| && entries[n].Entry? && exists i :: 0 <= i < n && entries[i].Entry? && entries[i].id == entries[n].id
  }

  /**
   * Accepts exactly the loadable documents, and the plan it returns lists their ids in order: non-empty,
   * distinct, and each of the shape that entry-time refusals later insist on. Any other raises its first
   * fault: the schema, the list, an entry in turn, the variant.
   */
  method LoadFrozenPlan(d: Document) returns (plan: Result<seq<string>, PlanError>)
    ensures plan.Ok? <==> Loadable(d)
    ensures plan == Raised(WrongSchema) <==> d.schemaVersion != 1
    ensures plan == Raised(NoQueries) <==> d.schemaVersion == 1 && (d.entries.None? || d.entries.value == [])
    ensures plan.Raised? && (plan.error.BadEntry? || plan.error.DuplicateId?) ==>
      && d.entries.Some? && FineUpTo(d.entries.value, plan.error.index) && plan.error.index < |d.entries.value|
      && (plan.error.DuplicateId? <==> RepeatsEarlier(d.entries.value, plan.error.index))
      && (plan.error.BadEntry? ==> !EntryOk(d.entries.value[plan.error.index]))
    ensures plan == Raised(NoVariant) <==>
      && d.schemaVersion == 1 && d.entries.Some? && d.entries.value != [] && FineUpTo(d.entries.value, |d.entries.value|)
      && (d.providerVariant.None? || d.providerVariant.value == "")
    ensures plan.Ok? ==>
      && |plan.value| == |d.entries.value|
      && (forall i :: 0 <= i < |plan.value| ==> Some(plan.value[i]) == d.entries.value[i].id)
      && plan.value != [] && Distinct(plan.value)
      && (forall i :: 0 <= i < |plan.value| ==> IsQueryId(plan.value[i]))
  {
    if d.schemaVersion != 1 { return Raised(WrongSchema); }
    if d.entries.None? || d.entries.value == [] { return Raised(NoQueries); }
    var entries := d.entries.value;
    var queries: seq<string> := [];
    var seen: set<string> := {};
    for i := 0 to |entries|
      invariant |queries| == i
      invariant forall j :: 0 <= j < i ==> EntryOk(entries[j]) && entries[j].id == Some(queries[j])
      invariant Distinct(queries)
      invariant seen == set j | 0 <= j < i :: queries[j]
    {
      var e := entries[i];
      if e.NotAnObject? || e.id.None? || !IsQueryId(e.id.value) { return Raised(BadEntry(i)); }
      if e.id.value in seen { return Raised(DuplicateId(i)); }
      seen := seen + {e.id.value};
      if e.query.None? || e.query.value == "" || !e.patternOk || !e.subredditsOk { return Raised(BadEntry(i)); }
      assert forall j :: 0 <= j < i ==> queries[j] in seen;
      queries := queries + [e.id.value];
    }
    if d.providerVariant.None? || d.providerVariant.value == "" { return Raised(NoVariant); }
    plan := Ok(queries);
  }
}
