/** Flattening a thread loses nothing: the flat list with its depths rebuilds the comment trees. */
module ThreadRebuild {
  import opened Options
  import opened Json
  import opened CanonicalJson
  import opened Threads

  datatype Tree = Tree(comment: Comment, replies: seq<Tree>)

  /** The comment trees of a reply forest, without its unresolved nodes. */
  function Trees(forest: seq<Reply>): seq<Tree>
    decreases forest
  {
    if forest == [] then [] else TreeOf(forest[0]) + Trees(forest[1..])
  }

  function TreeOf(reply: Reply): seq<Tree>
    decreases reply
  {
    match reply
    case Said(c, replies) => [Tree(c, Trees(replies))]
    case Unresolved(_) => []
  }

  /** Trees from a flat list whose next tree starts at depth d, and what is left over. */
  function Rebuild(flat: seq<Comment>, d: int): (r: (seq<Tree>, seq<Comment>))
    ensures |r.1| <= |flat|
    decreases |flat|
  {
    if flat == [] || flat[0].depth != d then ([], flat)
    else
      var (replies, rest) := Rebuild(flat[1..], d + 1);
      var (more, left) := Rebuild(rest, d);
      ([Tree(flat[0], replies)] + more, left)
  }

  /** Every comment carries the depth of its nesting. */
  ghost predicate Nested(forest: seq<Reply>, d: int)
    decreases forest
  {
    forall i :: 0 <= i < |forest| ==> NestedReply(forest[i], d)
  }

  ghost predicate NestedReply(reply: Reply, d: int)
    decreases reply
  {
    match reply
    case Said(c, replies) => c.depth == d && Nested(replies, d + 1)
    case Unresolved(_) => true
  }

  lemma {:induction false} FirstDepth(forest: seq<Reply>, d: int)
    requires Nested(forest, d) && Preorder(forest) != []
    ensures Preorder(forest)[0].depth == d
  {
    hide Nested;
    NestedParts(forest, d);
    if forest[0].Unresolved? {
      FirstDepth(forest[1..], d);
    }
  }

  lemma NestedParts(forest: seq<Reply>, d: int)
    requires Nested(forest, d)
    ensures forest != [] ==> NestedReply(forest[0], d) && Nested(forest[1..], d)
  {
  }

  predicate Below(rest: seq<Comment>, d: int) {
    rest != [] ==> rest[0].depth < d
  }

  lemma RebuildStep(c: Comment, d: int, replies: seq<Comment>, tail: seq<Comment>, kids: seq<Tree>, more: seq<Tree>, rest: seq<Comment>)
    requires c.depth == d
    requires Rebuild(replies + tail, d + 1) == (kids, tail) && Rebuild(tail, d) == (more, rest)
    ensures Rebuild([c] + replies + tail, d) == ([Tree(c, kids)] + more, rest)
  {
    var flat := [c] + replies + tail;
    assert flat[0] == c && flat[1..] == replies + tail;
  }

  /** Rebuilding inverts the preorder of a forest whose depths are its nesting. */
  lemma {:induction false} RebuildInvertsPreorder(forest: seq<Reply>, d: int, rest: seq<Comment>)
    requires Nested(forest, d) && Below(rest, d)
    ensures Rebuild(Preorder(forest) + rest, d) == (Trees(forest), rest)
    decreases forest
  {
    if forest == [] {
      assert Preorder(forest) + rest == rest;
    } else {
      hide Nested, Rebuild, Preorder, Trees;
      NestedParts(forest, d);
      var tail := Preorder(forest[1..]) + rest;
      RebuildInvertsPreorder(forest[1..], d, rest);
      HeadReads(forest, rest);
      match forest[0]
      case Said(c, replies) =>
        if Preorder(forest[1..]) != [] { FirstDepth(forest[1..], d); }
        RebuildInvertsPreorder(replies, d + 1, tail);
        RebuildStep(c, d, Preorder(replies), tail, Trees(replies), Trees(forest[1..]), rest);
      case Unresolved(_) =>
    }
  }

  lemma HeadReads(forest: seq<Reply>, rest: seq<Comment>)
    requires forest != []
    ensures
      var tail := Preorder(forest[1..]) + rest;
      match forest[0]
      case Said(c, replies) =>
        && Preorder(forest) + rest == [c] + Preorder(replies) + tail
        && Trees(forest) == [Tree(c, Trees(replies))] + Trees(forest[1..])
      case Unresolved(_) => Preorder(forest) + rest == tail && Trees(forest) == Trees(forest[1..])
  {
    assert Preorder(forest) + rest == CommentsIn(forest[0]) + (Preorder(forest[1..]) + rest);
  }

  // ----- which payloads have such depths -----

  /** Every kept comment reports no whole-number depth, or the depth it is nested at. */
  predicate DepthsAgree(rt: Runtime, children: seq<Json>, d: int)
    decreases children
  {
    forall i :: 0 <= i < |children| ==> DepthAgrees(rt, children[i], d)
  }

  predicate DepthAgrees(rt: Runtime, child: Json, d: int)
    decreases child
  {
    IsComment(rt, child) ==>
      && WholeOr(Get(Get(child, "data").value, "depth"), d) == d
      && var under := RepliesUnder(child);
         under.Some? ==> DepthsAgree(rt, under.value.items, d + 1)
  }

  lemma {:induction false} AgreeingDepthsNest(rt: Runtime, children: seq<Json>, d: int)
    requires DepthsAgree(rt, children, d)
    ensures Nested(Forest(rt, children, d), d)
    decreases children
  {
    if children != [] {
      assert DepthAgrees(rt, children[0], d) && DepthsAgree(rt, children[1..], d);
      hide DepthAgrees, DepthsAgree, ReplyFrom;
      AgreeingDepthNests(rt, children[0], d);
      AgreeingDepthsNest(rt, children[1..], d);
      assert Forest(rt, children, d) == ReplyFrom(rt, children[0], d) + Forest(rt, children[1..], d);
    }
  }

  lemma {:induction false} AgreeingDepthNests(rt: Runtime, child: Json, d: int)
    requires DepthAgrees(rt, child, d)
    ensures forall i :: 0 <= i < |ReplyFrom(rt, child, d)| ==> NestedReply(ReplyFrom(rt, child, d)[i], d)
    decreases child
  {
    hide IsComment, IsMore, Nested, Forest, MoreOf;
    if IsComment(rt, child) {
      var under := RepliesUnder(child);
      if under.Some? {
        AgreeingDepthsNest(rt, under.value.items, d + 1);
      } else {
        NothingNests(d + 1);
      }
    }
  }

  lemma NothingNests(d: int)
    ensures Nested([], d)
  {
  }

  /** So the stored flat comments determine the whole comment tree of such a payload. */
  lemma FlatteningLosesNothing(rt: Runtime, children: seq<Json>)
    requires DepthsAgree(rt, children, 0)
    ensures Rebuild(Preorder(Forest(rt, children, 0)), 0) == (Trees(Forest(rt, children, 0)), [])
  {
    hide Forest, Preorder, Rebuild, Trees, Nested;
    var forest := Forest(rt, children, 0);
    AgreeingDepthsNest(rt, children, 0);
    RebuildInvertsPreorder(forest, 0, []);
    assert Preorder(forest) + [] == Preorder(forest);
  }
}
