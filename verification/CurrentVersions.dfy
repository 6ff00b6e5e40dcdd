/** Selecting the current version of many conversations from one ordered pass over their evidence edges. */
module CurrentVersions {
  import opened Options
  import opened CanonicalJson

  /** One evidence edge joined to its version and its observation. */
  datatype Row = Row(conversationId: string, versionId: string, normalizer: string, observedAt: int, creationOrder: int)

  /** Evidence time, then creation order, then normalizer name, then version id. */
  predicate Later(a: Row, b: Row) {
    if a.observedAt != b.observedAt then a.observedAt > b.observedAt
    else if a.creationOrder != b.creationOrder then a.creationOrder > b.creationOrder
    else if a.normalizer != b.normalizer then TextBefore(Python, b.normalizer, a.normalizer)
    else TextBefore(Python, b.versionId, a.versionId)
  }

  /** What the query returns for some ids: those rows of the table, latest first. */
  ghost predicate Ordered(table: seq<Row>, ids: set<string>, rows: seq<Row>) {
    && (forall r :: r in rows <==> r in table && r.conversationId in ids)
    && LatestFirst(rows)
  }

  ghost predicate LatestFirst(rows: seq<Row>) {
    forall i, j :: 0 <= i < j < |rows| ==> !Later(rows[j], rows[i])
  }

  /** The row no other row of its conversation is later than. */
  ghost predicate Greatest(rows: seq<Row>, c: string, g: Row) {
    && g in rows && g.conversationId == c
    && forall r :: r in rows && r.conversationId == c ==> !Later(r, g)
  }

  function FirstPerConversation(rows: seq<Row>): map<string, string> {
    if rows == [] then map[]
    else
      var winners, last := FirstPerConversation(rows[..|rows| - 1]), rows[|rows| - 1];
      if last.conversationId in winners then winners else winners[last.conversationId := last.versionId]
  }

  /** setdefault over the ordered rows. */
  method KeepFirst(rows: seq<Row>) returns (winners: map<string, string>)
    ensures winners == FirstPerConversation(rows)
  {
    winners := map[];
    for i := 0 to |rows|
      invariant winners == FirstPerConversation(rows[..i])
    {
      assert rows[..i + 1][..i] == rows[..i];
      if rows[i].conversationId !in winners {
        winners := winners[rows[i].conversationId := rows[i].versionId];
      }
    }
    assert rows[..|rows|] == rows;
  }

  function FirstRow(rows: seq<Row>, c: string): Option<Row> {
    if rows == [] then None
    else if rows[0].conversationId == c then Some(rows[0])
    else FirstRow(rows[1..], c)
  }

  lemma {:induction false} FirstRowAppend(init: seq<Row>, last: Row, c: string)
    ensures FirstRow(init + [last], c) ==
      if FirstRow(init, c).Some? then FirstRow(init, c)
      else if last.conversationId == c then Some(last) else None
  {
    if init == [] {
      assert (init + [last])[1..] == [];
    } else {
      assert (init + [last])[0] == init[0] && (init + [last])[1..] == init[1..] + [last];
      FirstRowAppend(init[1..], last, c);
    }
  }

  lemma {:induction false} PassKeepsFirstRows(rows: seq<Row>, c: string)
    ensures c in FirstPerConversation(rows) <==> FirstRow(rows, c).Some?
    ensures c in FirstPerConversation(rows) ==> FirstPerConversation(rows)[c] == FirstRow(rows, c).value.versionId
  {
    if rows != [] {
      hide FirstRow;
      PassKeepsFirstRows(rows[..|rows| - 1], c);
      FirstRowAppend(rows[..|rows| - 1], rows[|rows| - 1], c);
      assert rows == rows[..|rows| - 1] + [rows[|rows| - 1]];
    }
  }

  lemma {:induction false} FirstRowIsGreatest(rows: seq<Row>, c: string)
    requires LatestFirst(rows)
    ensures FirstRow(rows, c).Some? <==> exists r :: r in rows && r.conversationId == c
    ensures FirstRow(rows, c).Some? ==> Greatest(rows, c, FirstRow(rows, c).value)
  {
    hide Later;
    if rows != [] {
      FirstRowIsGreatest(rows[1..], c);
      assert rows == [rows[0]] + rows[1..];
      NotLaterThanItself(rows[0]);
    }
  }

  /** The pass keeps, for every conversation with a row, the version of its greatest row. */
  lemma FirstIsGreatest(rows: seq<Row>, c: string)
    requires LatestFirst(rows)
    ensures c in FirstPerConversation(rows) <==> exists r :: r in rows && r.conversationId == c
    ensures c in FirstPerConversation(rows) ==>
      exists g :: Greatest(rows, c, g) && g.versionId == FirstPerConversation(rows)[c]
  {
    hide Later, FirstPerConversation, FirstRow, LatestFirst;
    PassKeepsFirstRows(rows, c);
    FirstRowIsGreatest(rows, c);
  }

  lemma NotLaterThanItself(r: Row)
    ensures !Later(r, r)
  {
    TextBeforeIsTotal(Python, r.versionId, r.versionId);
  }

  /** Two greatest rows name the same version: the version id is the last tie-breaker. */
  lemma GreatestIsUnique(rows: seq<Row>, more: seq<Row>, c: string, g: Row, h: Row)
    requires Greatest(rows, c, g) && Greatest(more, c, h)
    requires forall r: Row :: r.conversationId == c ==> (r in rows <==> r in more)
    ensures g.versionId == h.versionId
  {
    assert !Later(g, h) && !Later(h, g);
    TextBeforeIsTotal(Python, g.normalizer, h.normalizer);
    TextBeforeIsTotal(Python, g.versionId, h.versionId);
  }

  /** The batch answer for a conversation does not depend on the other ids asked for, on how ties were
      ordered, or on the order the edges were recorded in; it is what asking for it alone gives. */
  lemma BatchIsPointwise(table: seq<Row>, other: seq<Row>, ids: set<string>, c: string, batch: seq<Row>, alone: seq<Row>)
    requires c in ids && forall r :: r in table <==> r in other
    requires Ordered(table, ids, batch) && Ordered(other, {c}, alone)
    ensures c in FirstPerConversation(batch) <==> exists r :: r in table && r.conversationId == c
    ensures c in FirstPerConversation(batch) <==> c in FirstPerConversation(alone)
    ensures c in FirstPerConversation(batch) ==> FirstPerConversation(batch)[c] == FirstPerConversation(alone)[c]
  {
    hide Later, FirstPerConversation;
    FirstIsGreatest(batch, c);
    FirstIsGreatest(alone, c);
    assert forall r: Row :: r.conversationId == c ==> (r in batch <==> r in alone);
    if r :| r in table && r.conversationId == c {
      assert r in batch && r in alone;
      var g :| Greatest(batch, c, g) && g.versionId == FirstPerConversation(batch)[c];
      var h :| Greatest(alone, c, h) && h.versionId == FirstPerConversation(alone)[c];
      GreatestIsUnique(batch, alone, c, g, h);
    }
  }

  /** And the winner is the version of the greatest edge in the whole table: no edge of the conversation was
      observed after it; of those observed with it none was recorded after it; and among equals of both its
      normalizer, and then its version id, is greatest by code point. */
  lemma CurrentIsGreatest(table: seq<Row>, ids: set<string>, c: string, batch: seq<Row>) returns (g: Row)
    requires c in ids && Ordered(table, ids, batch) && c in FirstPerConversation(batch)
    ensures g in table && g.conversationId == c && g.versionId == FirstPerConversation(batch)[c]
    ensures forall r :: r in table && r.conversationId == c ==>
      && r.observedAt <= g.observedAt
      && (r.observedAt == g.observedAt ==> r.creationOrder <= g.creationOrder)
      && (r.observedAt == g.observedAt && r.creationOrder == g.creationOrder ==>
            && !TextBefore(Python, g.normalizer, r.normalizer)
            && (r.normalizer == g.normalizer ==> !TextBefore(Python, g.versionId, r.versionId)))
  {
    hide FirstPerConversation, TextBefore;
    FirstIsGreatest(batch, c);
    g :| Greatest(batch, c, g) && g.versionId == FirstPerConversation(batch)[c];
    assert Greatest(table, c, g);
    forall r | r in table && r.conversationId == c && r.observedAt == g.observedAt && r.creationOrder == g.creationOrder
      ensures !TextBefore(Python, g.normalizer, r.normalizer)
    {
      assert !Later(r, g);
      TextBeforeIsTotal(Python, g.normalizer, g.normalizer);
    }
  }
}
