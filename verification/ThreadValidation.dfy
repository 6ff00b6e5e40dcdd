/** What the validation summary of a normalized thread says about its comments and unresolved nodes. */
module ThreadValidation {
  import opened Options
  import opened Json
  import opened CanonicalJson
  import opened Threads
  import opened ThreadNormalization

  // ----- missing parents -----

  /** The comment is no direct reply to the post, and no comment of the thread is its parent. */
  predicate Orphan(comments: seq<Comment>, root: Json, k: nat) {
    && k < |comments| && comments[k].parentId != root
    && forall j :: 0 <= j < |comments| ==> comments[j].id != comments[k].parentId
  }

  /** The listing as made from some comment on. */
  lemma {:induction false} MissingFrom(comments: seq<Comment>, root: Json, ids: set<Json>, from: nat) returns (at: seq<nat>)
    requires from <= |comments|
    ensures |at| == |MissingParents(comments[from..], root, ids)| && Increasing(at)
    ensures forall k :: k in at <==>
      from <= k < |comments| && comments[k].parentId != root && comments[k].parentId !in ids
    ensures forall i :: 0 <= i < |at| ==>
      && at[i] < |comments|
      && MissingParents(comments[from..], root, ids)[i] == (comments[at[i]].id, comments[at[i]].parentId)
    decreases |comments| - from
  {
    at := [];
    if from < |comments| {
      MissingUnfolds(comments[from..], root, ids);
      assert comments[from..][1..] == comments[from + 1..];
      hide MissingParents;
      at := MissingFrom(comments, root, ids, from + 1);
      if comments[from].parentId != root && comments[from].parentId !in ids {
        at := [from] + at;
      }
    }
  }

  lemma MissingUnfolds(comments: seq<Comment>, root: Json, ids: set<Json>)
    requires comments != []
    ensures MissingParents(comments, root, ids) ==
      if comments[0].parentId != root && comments[0].parentId !in ids
      then [(comments[0].id, comments[0].parentId)] + MissingParents(comments[1..], root, ids)
      else MissingParents(comments[1..], root, ids)
  {
    assert [] + MissingParents(comments[1..], root, ids) == MissingParents(comments[1..], root, ids);
  }

  /** Exactly the orphans are listed, each with its id and its parent, in comment order. */
  lemma MissingParentsMeaning(comments: seq<Comment>, root: Json) returns (at: seq<nat>)
    ensures |at| == |MissingParents(comments, root, IdSet(comments))| && Increasing(at)
    ensures forall k :: k in at <==> Orphan(comments, root, k)
    ensures forall i :: 0 <= i < |at| ==>
      && at[i] < |comments|
      && MissingParents(comments, root, IdSet(comments))[i] == (comments[at[i]].id, comments[at[i]].parentId)
  {
    assert comments[0..] == comments;
    at := MissingFrom(comments, root, IdSet(comments), 0);
    forall k | 0 <= k < |comments|
      ensures comments[k].parentId in IdSet(comments) <==> exists j :: 0 <= j < |comments| && comments[j].id == comments[k].parentId
    {
    }
  }

  // ----- depth and counts -----

  /** The greatest depth is some comment's, and no comment is deeper; only an empty thread has none. */
  lemma {:induction false} MaxDepthMeaning(comments: seq<Comment>)
    ensures MaxDepth(comments) == None <==> comments == []
    ensures MaxDepth(comments).Some? ==>
      && (exists k :: 0 <= k < |comments| && comments[k].depth == MaxDepth(comments).value)
      && forall k :: 0 <= k < |comments| ==> comments[k].depth <= MaxDepth(comments).value
  {
    if comments != [] {
      MaxDepthMeaning(comments[1..]);
      assert forall k :: 0 < k < |comments| ==> comments[k] == comments[1..][k - 1];
      if MaxDepth(comments) != Some(comments[0].depth) {
        var k :| 0 <= k < |comments[1..]| && comments[1..][k].depth == MaxDepth(comments).value;
        assert comments[k + 1].depth == MaxDepth(comments).value;
      } else {
        assert comments[0].depth == MaxDepth(comments).value;
      }
    }
  }

  /** The places where an unresolved node names a child. */
  ghost function ChildPlaces(mores: seq<More>): set<(int, int)> {
    set i, j | 0 <= i < |mores| && 0 <= j < |mores[i].childIds| :: (i, j)
  }

  lemma {:induction false} RowOfPlaces(i: int, n: nat)
    ensures |set j | 0 <= j < n :: (i, j)| == n
  {
    if n > 0 {
      RowOfPlaces(i, n - 1);
      assert (set j | 0 <= j < n :: (i, j)) == (set j | 0 <= j < n - 1 :: (i, j)) + {(i, n - 1)};
    }
  }

  lemma {:induction false} ChildCountAppend(mores: seq<More>, last: More)
    ensures ChildCount(mores + [last]) == ChildCount(mores) + |last.childIds|
  {
    if mores == [] {
      assert ([] + [last])[1..] == [];
    } else {
      ChildCountAppend(mores[1..], last);
      assert (mores + [last])[1..] == mores[1..] + [last];
    }
  }

  /** The child count is the number of children that unresolved nodes name, repeats included. */
  lemma {:induction false} ChildCountMeaning(mores: seq<More>)
    ensures ChildCount(mores) == |ChildPlaces(mores)|
  {
    if mores != [] {
      var n := |mores| - 1;
      var init, last := mores[..n], mores[n];
      assert mores == init + [last];
      ChildCountMeaning(init);
      ChildCountAppend(init, last);
      RowOfPlaces(n, |last.childIds|);
      var row := set j | 0 <= j < |last.childIds| :: (n, j);
      assert ChildPlaces(mores) == ChildPlaces(init) + row;
      assert ChildPlaces(init) !! row;
    }
  }

  // ----- the whole summary -----

  /** What the reported total says next to the comments there are and the children still unresolved. */
  ghost predicate Compares(reported: Json, extracted: int, unresolved: int, delta: Option<real>, verdict: CounterDelta) {
    if reported.Num? then
      var total := RealOf(reported.n);
      && (reported.n.Whole? || reported.n.WholeFloat? ==> total == reported.n.i as real)
      && delta == Some(total - extracted as real)
      && (verdict == Match <==> total == extracted as real)
      && (verdict == WithinUnresolvedMore <==> extracted as real < total <= (extracted + unresolved) as real)
      && (verdict == ExceedsVisibleTree <==> extracted as real < total && (extracted + unresolved) as real < total)
      && (verdict == NegativeCounterLag <==> total < extracted as real)
      && verdict != Unknown
    else delta == None && verdict == Unknown
  }

  /** In both runtimes: the counts, the depth and the verdict of a thread's summary are about the comments
      and unresolved nodes that the thread itself lists. */
  lemma SummaryMeaning(rt: Runtime, payload: Json)
    requires Normalize(rt, payload).Some?
    ensures
      var thread := Normalize(rt, payload).value;
      var v, comments, mores := thread.validation, thread.comments, thread.unresolvedMore;
      && v.extracted == |comments| && v.moreNodes == |mores| && v.moreChildren == |ChildPlaces(mores)|
      && (v.exhausted <==> |mores| == 0)
      && v.unique == |set k | 0 <= k < |comments| :: comments[k].id|
      && Compares(thread.post.totalReportedComments, |comments|, v.moreChildren, v.delta, v.deltaClass)
      && (v.maxDepth == None <==> comments == [])
      && (v.maxDepth.Some? ==> exists k :: 0 <= k < |comments| && comments[k].depth == v.maxDepth.value)
      && (v.maxDepth.Some? ==> forall k :: 0 <= k < |comments| ==> comments[k].depth <= v.maxDepth.value)
  {
    hide Normalize, Repeats, MissingParents, MaxDepth, ChildCount, ChildPlaces, LaterOnes, Spread, RealOf, DeltaClass, Compares;
    var thread := Normalize(rt, payload).value;
    NormalizeValidates(rt, payload);
    MaxDepthMeaning(thread.comments);
    ChildCountMeaning(thread.unresolvedMore);
    VerdictCompares(thread.post.totalReportedComments, |thread.comments|, ChildCount(thread.unresolvedMore));
  }

  lemma VerdictCompares(reported: Json, extracted: nat, unresolved: nat)
    ensures
      var delta := if reported.Num? then Some(RealOf(reported.n) - extracted as real) else None;
      Compares(reported, extracted, unresolved, delta, DeltaClass(delta, unresolved))
  {
  }

  /** In both runtimes: the duplicates are the ids of two comments or more, each listed once. */
  lemma DuplicatesMeaning(rt: Runtime, payload: Json)
    requires Normalize(rt, payload).Some?
    ensures
      var thread := Normalize(rt, payload).value;
      var duplicates, comments := thread.validation.duplicateIds, thread.comments;
      && (forall id :: id in duplicates <==> exists j, k :: 0 <= j < k < |comments| && comments[j].id == id == comments[k].id)
      && (forall i, j :: 0 <= i < j < |duplicates| ==> duplicates[i] != duplicates[j])
  {
    var comments := Normalize(rt, payload).value.comments;
    NormalizeValidates(rt, payload);
    DuplicatesByIndexOf(Ids(comments), |comments|);
    assert Ids(comments)[..|comments|] == Ids(comments);
    RepeatedIds(comments);
    hide Normalize, Repeats, Ids, MissingParents, MaxDepth, ChildCount, LaterOnes, Spread, DeltaClass, RealOf;
  }

  lemma RepeatedIds(comments: seq<Comment>)
    ensures forall id :: id in Repeats(Ids(comments)) <==>
      exists j, k :: 0 <= j < k < |comments| && comments[j].id == id == comments[k].id
    ensures forall i, j :: 0 <= i < j < |Repeats(Ids(comments))| ==> Repeats(Ids(comments))[i] != Repeats(Ids(comments))[j]
  {
    hide Repeats;
    RepeatsMeaning(Ids(comments));
    forall id ensures multiset(Ids(comments))[id] >= 2 <==>
      exists j, k :: 0 <= j < k < |comments| && comments[j].id == id == comments[k].id
    {
      OccursTwice(Ids(comments), id);
      if j, k :| 0 <= j < k < |comments| && comments[j].id == id == comments[k].id {
        assert Ids(comments)[j] == id == Ids(comments)[k];
      }
    }
  }

  /** In both runtimes: the missing-parent references are exactly the orphans, in comment order. */
  lemma OrphansMeaning(rt: Runtime, payload: Json) returns (orphans: seq<nat>)
    requires Normalize(rt, payload).Some?
    ensures
      var thread := Normalize(rt, payload).value;
      var missing, comments := thread.validation.missingParents, thread.comments;
      && |orphans| == |missing| && Increasing(orphans)
      && (forall k :: k in orphans <==> Orphan(comments, thread.post.id, k))
      && forall i :: 0 <= i < |orphans| ==>
           orphans[i] < |comments| && missing[i] == (comments[orphans[i]].id, comments[orphans[i]].parentId)
  {
    var thread := Normalize(rt, payload).value;
    NormalizeValidates(rt, payload);
    orphans := MissingParentsMeaning(thread.comments, thread.post.id);
    hide Normalize, Repeats, MissingParents, MaxDepth, ChildCount, LaterOnes, Spread, DeltaClass, RealOf, Orphan;
  }

  lemma NormalizeValidates(rt: Runtime, payload: Json)
    requires Normalize(rt, payload).Some?
    ensures
      var thread := Normalize(rt, payload).value;
      thread.validation == Validate(rt, thread.post, thread.comments, thread.unresolvedMore)
  {
    hide Forest, Preorder, Mores, PostOf, PostData, CommentTrees, Validate;
  }

  lemma {:induction false} OccursTwice<T>(s: seq<T>, x: T)
    ensures multiset(s)[x] >= 1 <==> exists k :: 0 <= k < |s| && s[k] == x
    ensures multiset(s)[x] >= 2 <==> exists j, k :: 0 <= j < k < |s| && s[j] == x == s[k]
  {
    if s != [] {
      var n := |s| - 1;
      var init := s[..n];
      assert s == init + [s[n]];
      OccursTwice(init, x);
      if s[n] == x {
        if k :| 0 <= k < |init| && init[k] == x { assert s[k] == x == s[n]; }
      } else {
        if j, k :| 0 <= j < k < |init| && init[j] == x == init[k] { assert s[j] == x == s[k]; }
        if j, k :| 0 <= j < k < |s| && s[j] == x == s[k] { assert init[j] == x == init[k]; }
      }
    }
  }
}
