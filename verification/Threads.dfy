/**
 * Normalizing a Reddit thread response, in both implementations: Python's normalize_reddit_thread and
 * Node's normalizeThread. They share the traversal and differ in how they read loosely typed fields.
 */
module Threads {
  import opened Options
  import opened Json
  import opened CanonicalJson

  // ----- reading untyped values -----

  function Lookup(members: seq<Member>, key: string): (r: Option<Json>)
    ensures r.Some? ==> exists i :: 0 <= i < |members| && members[i].value == r.value
  {
    if members == [] then None
    else if members[0].key == key then Some(members[0].value)
    else
      var r := Lookup(members[1..], key);
      assert forall i :: 0 <= i < |members| - 1 ==> members[1..][i] == members[i + 1];
      r
  }

  /** A field of an object; anything else has no fields. */
  function Get(v: Json, key: string): (r: Option<Json>)
    ensures r.Some? ==> r.value < v
  {
    if v.Obj? then Lookup(v.members, key) else None
  }

  function Of(v: Option<Json>, key: string): Option<Json> {
    if v.Some? then Get(v.value, key) else None
  }

  predicate IsZero(n: Number) {
    match n
    case Whole(i) => i == 0
    case WholeFloat(i) => i == 0
    case _ => false
  }

  predicate Truthy(rt: Runtime, v: Option<Json>) {
    match v
    case None => false
    case Some(Null) => false
    case Some(Bool(b)) => b
    case Some(Num(n)) => !IsZero(n)
    case Some(Str(s)) => s != ""
    case Some(Arr(items)) => rt.Node? || items != []
    case Some(Obj(members)) => rt.Node? || members != []
  }

  predicate IsText(v: Option<Json>) {
    v.Some? && v.value.Str? && v.value.s != ""
  }

  /** A field kept only when present: by type in Python, by truth in Node. */
  predicate Kept(rt: Runtime, v: Option<Json>) {
    if rt.Python? then IsText(v) else Truthy(Node, v)
  }

  function OrNull(rt: Runtime, v: Option<Json>): Json {
    if Kept(rt, v) then v.value else Null
  }

  function OrEmpty(rt: Runtime, v: Option<Json>): Json {
    if Kept(rt, v) then v.value else Str("")
  }

  /** What a JavaScript template makes of a value that is not a string: some text. */
  const JsToString: Json -> string

  function OrPrefixed(rt: Runtime, v: Option<Json>, prefix: string, id: Json): Json {
    if Kept(rt, v) then v.value else Str(prefix + if id.Str? then id.s else JsToString(id))
  }

  function Finite(v: Option<Json>): Json {
    if v.Some? && v.value.Num? then v.value else Null
  }

  function WholeOr(v: Option<Json>, fallback: int): int {
    if v.Some? && v.value.Num? && (v.value.n.Whole? || v.value.n.WholeFloat?) then v.value.n.i else fallback
  }

  function CreatedUtc(rt: Runtime, v: Option<Json>): Json {
    if rt.Python? then Finite(v) else if Truthy(Node, v) then v.value else Null
  }

  /** Timestamp rendering is a library call, any function. Outside its dates Python's code gives null, and
      Node's toISOString throws. */
  const PythonIso: Json -> Option<string>
  const NodeIso: Json -> Option<string>

  function IsoOf(rt: Runtime, created: Json): Option<string> {
    if rt.Python? then PythonIso(created) else NodeIso(created)
  }

  function CreatedIso(rt: Runtime, created: Json): Json {
    if created.Null? || IsoOf(rt, created).None? then Null else Str(IsoOf(rt, created).value)
  }

  /** Rendering this timestamp aborts the whole normalization. */
  predicate Throws(rt: Runtime, created: Json) {
    rt.Node? && !created.Null? && NodeIso(created).None?
  }

  // ----- the reply forest -----

  datatype Visibility = Deleted | Removed | Visible

  datatype Comment = Comment(
    id: Json, commentId: Json, author: Json, score: Json, depth: int, parentId: Json,
    createdUtc: Json, createdIso: Json, body: Json, visibility: Visibility)

  datatype More = More(id: Json, parentId: Json, count: Json, childIds: seq<Json>, depth: int)

  datatype Reply = Said(comment: Comment, replies: seq<Reply>) | Unresolved(more: More)

  function CommentOf(rt: Runtime, item: Json, depth: int): Comment {
    var id, author, body := Get(item, "id"), Get(item, "author"), Get(item, "body");
    var created := CreatedUtc(rt, Get(item, "created_utc"));
    Comment(
      OrPrefixed(rt, Get(item, "name"), "t1_", id.GetOr(Null)), id.GetOr(Null),
      OrNull(rt, author), Finite(Get(item, "score")), WholeOr(Get(item, "depth"), depth),
      OrNull(rt, Get(item, "parent_id")), created, CreatedIso(rt, created), OrEmpty(rt, body),
      if author == Some(Str("[deleted]")) || body == Some(Str("[deleted]")) then Deleted
      else if body == Some(Str("[removed]")) then Removed
      else Visible)
  }

  function MoreOf(rt: Runtime, item: Json, depth: int): More {
    var count, children := Finite(Get(item, "count")), Get(item, "children");
    More(
      OrNull(rt, Get(item, "id")), OrNull(rt, Get(item, "parent_id")),
      if count.Null? then Num(Whole(0)) else count,
      if children.Some? && children.value.Arr? then children.value.items else [],
      WholeOr(Get(item, "depth"), depth))
  }

  predicate IsComment(rt: Runtime, child: Json) {
    Get(child, "kind") == Some(Str("t1")) && Kept(rt, Of(Get(child, "data"), "id"))
  }

  /** Python wants a non-empty object; Node takes anything truthy, an empty object included. */
  predicate IsMore(rt: Runtime, child: Json) {
    var data := Get(child, "data");
    && Get(child, "kind") == Some(Str("more"))
    && Truthy(rt, data) && (rt.Python? ==> data.value.Obj?)
  }

  /** The array of replies under a comment, if it has one. */
  function RepliesUnder(child: Json): (r: Option<Json>)
    ensures r.Some? ==> r.value.Arr? && r.value < child
  {
    var children := Of(Of(Of(Get(child, "data"), "replies"), "data"), "children");
    if children.Some? && children.value.Arr? then children else None
  }

  /** The least whole number that Python's float() refuses: 2^1024 - 2^970. */
  const FLOAT_LIMIT := 0xfffffffffffffc00000000000000000000000000000000000000000000000000000000000000000000000000000000000000000000000000000000000000000000000000000000000000000000000000000000000000000000000000000000000000000000000000000000000000000000000000000000000000000000000000

  /** Python reads a reported depth through float(), which raises beyond the range of doubles. */
  predicate TooDeep(rt: Runtime, item: Json) {
    var depth := Get(item, "depth");
    && rt.Python? && depth.Some? && depth.value.Num? && depth.value.n.Whole?
    && !(-FLOAT_LIMIT < depth.value.n.i < FLOAT_LIMIT)
  }

  /** Reading this child, or a reply under it, aborts the whole normalization. */
  predicate RaisesAt(rt: Runtime, child: Json)
    decreases child
  {
    var data := Get(child, "data");
    if IsComment(rt, child) then
      || TooDeep(rt, data.value)
      || Throws(rt, CreatedUtc(rt, Get(data.value, "created_utc")))
      || (var under := RepliesUnder(child); under.Some? && AnyRaises(rt, under.value.items))
    else IsMore(rt, child) && TooDeep(rt, data.value)
  }

  predicate AnyRaises(rt: Runtime, children: seq<Json>)
    decreases children
  {
    exists i :: 0 <= i < |children| && RaisesAt(rt, children[i])
  }

  /** The well-formed replies among some children, each with its own; a malformed comment is dropped
      together with everything under it. */
  function Forest(rt: Runtime, children: seq<Json>, depth: int): seq<Reply>
    decreases children
  {
    if children == [] then [] else ReplyFrom(rt, children[0], depth) + Forest(rt, children[1..], depth)
  }

  function ReplyFrom(rt: Runtime, child: Json, depth: int): seq<Reply>
    decreases child
  {
    if IsComment(rt, child) then
      var under := RepliesUnder(child);
      var replies := if under.Some? then Forest(rt, under.value.items, depth + 1) else [];
      [Said(CommentOf(rt, Get(child, "data").value, depth), replies)]
    else if IsMore(rt, child) then
      [Unresolved(MoreOf(rt, Get(child, "data").value, depth))]
    else []
  }

  function Preorder(forest: seq<Reply>): seq<Comment>
    decreases forest
  {
    if forest == [] then [] else CommentsIn(forest[0]) + Preorder(forest[1..])
  }

  function CommentsIn(reply: Reply): seq<Comment>
    decreases reply
  {
    match reply
    case Said(c, replies) => [c] + Preorder(replies)
    case Unresolved(_) => []
  }

  function Mores(forest: seq<Reply>): seq<More>
    decreases forest
  {
    if forest == [] then [] else MoresIn(forest[0]) + Mores(forest[1..])
  }

  function MoresIn(reply: Reply): seq<More>
    decreases reply
  {
    match reply
    case Said(_, replies) => Mores(replies)
    case Unresolved(m) => [m]
  }

  lemma {:induction false} PreorderAppend(a: seq<Reply>, b: seq<Reply>)
    ensures Preorder(a + b) == Preorder(a) + Preorder(b)
  {
    hide CommentsIn;
    if a == [] {
      assert a + b == b;
    } else {
      PreorderAppend(a[1..], b);
      assert (a + b)[0] == a[0] && (a + b)[1..] == a[1..] + b;
      assert Preorder(a + b) == CommentsIn(a[0]) + Preorder(a[1..] + b);
      hide Preorder;
      assert CommentsIn(a[0]) + (Preorder(a[1..]) + Preorder(b)) == CommentsIn(a[0]) + Preorder(a[1..]) + Preorder(b);
    }
  }

  lemma {:induction false} MoresAppend(a: seq<Reply>, b: seq<Reply>)
    ensures Mores(a + b) == Mores(a) + Mores(b)
  {
    hide MoresIn;
    if a == [] {
      assert a + b == b;
    } else {
      MoresAppend(a[1..], b);
      assert (a + b)[0] == a[0] && (a + b)[1..] == a[1..] + b;
      assert Mores(a + b) == MoresIn(a[0]) + Mores(a[1..] + b);
      hide Mores;
      assert MoresIn(a[0]) + (Mores(a[1..]) + Mores(b)) == MoresIn(a[0]) + Mores(a[1..]) + Mores(b);
    }
  }

  lemma ForestStep(rt: Runtime, children: seq<Json>, i: nat, depth: int)
    requires i < |children|
    ensures
      var replies, rest := ReplyFrom(rt, children[i], depth), Forest(rt, children[i + 1..], depth);
      && Preorder(Forest(rt, children[i..], depth)) == Preorder(replies) + Preorder(rest)
      && Mores(Forest(rt, children[i..], depth)) == Mores(replies) + Mores(rest)
  {
    hide ReplyFrom, Preorder, Mores;
    assert children[i..][0] == children[i] && children[i..][1..] == children[i + 1..];
    PreorderAppend(ReplyFrom(rt, children[i], depth), Forest(rt, children[i + 1..], depth));
    MoresAppend(ReplyFrom(rt, children[i], depth), Forest(rt, children[i + 1..], depth));
  }

  lemma NoChildren(rt: Runtime, depth: int)
    ensures Preorder(Forest(rt, [], depth)) == [] && Mores(Forest(rt, [], depth)) == []
  {
  }

  lemma Associates<T>(a: seq<T>, b: seq<T>, c: seq<T>)
    ensures a + (b + c) == a + b + c
  {
  }

  /** What one child contributes to either list. */
  lemma ReadsOffChild(rt: Runtime, child: Json, depth: int)
    ensures IsComment(rt, child) || IsMore(rt, child) ==> Get(child, "data").Some?
    ensures
      var replies, under := ReplyFrom(rt, child, depth), RepliesUnder(child);
      var nested := if under.Some? then Forest(rt, under.value.items, depth + 1) else [];
      if IsComment(rt, child) then
        && Preorder(replies) == [CommentOf(rt, Get(child, "data").value, depth)] + Preorder(nested)
        && Mores(replies) == Mores(nested)
      else if IsMore(rt, child) then
        Preorder(replies) == [] && Mores(replies) == [MoreOf(rt, Get(child, "data").value, depth)]
      else Preorder(replies) == [] && Mores(replies) == []
  {
    hide CommentOf, MoreOf, RepliesUnder, Forest;
    ReadsOffOne(ReplyFrom(rt, child, depth));
  }

  lemma ReadsOffOne(replies: seq<Reply>)
    ensures replies == [] ==> Preorder(replies) == [] && Mores(replies) == []
    ensures |replies| == 1 ==> Preorder(replies) == CommentsIn(replies[0]) && Mores(replies) == MoresIn(replies[0])
  {
  }

  // ----- the traversal as both sources write it -----

  /** The accumulators that the nested parse_children appends to. */
  class ThreadBuilder {
    const runtime: Runtime
    var comments: seq<Comment>
    var unresolvedMore: seq<More>

    constructor (runtime: Runtime)
      ensures this.runtime == runtime && comments == [] && unresolvedMore == []
    {
      this.runtime := runtime;
      comments, unresolvedMore := [], [];
    }

    /** Appending while recursing collects the preorder of the reply forest, unless something raises. */
    method ParseChildren(children: seq<Json>, depth: int) returns (raised: bool)
      modifies this
      ensures raised <==> AnyRaises(runtime, children)
      ensures !raised ==> comments == old(comments) + Preorder(Forest(runtime, children, depth))
      ensures !raised ==> unresolvedMore == old(unresolvedMore) + Mores(Forest(runtime, children, depth))
      decreases children
    {
      hide ReplyFrom, Forest, Preorder, Mores, RaisesAt;
      assert children[0..] == children;
      for i := 0 to |children|
        invariant forall j :: 0 <= j < i ==> !RaisesAt(runtime, children[j])
        invariant comments + Preorder(Forest(runtime, children[i..], depth)) ==
                  old(comments) + Preorder(Forest(runtime, children, depth))
        invariant unresolvedMore + Mores(Forest(runtime, children[i..], depth)) ==
                  old(unresolvedMore) + Mores(Forest(runtime, children, depth))
      {
        var child := children[i];
        ghost var done, doneMore := comments, unresolvedMore;
        ForestStep(runtime, children, i, depth);
        raised := ParseChild(child, depth);
        if raised {
          return;
        }
        ghost var replies, rest := ReplyFrom(runtime, child, depth), Forest(runtime, children[i + 1..], depth);
        Associates(done, Preorder(replies), Preorder(rest));
        Associates(doneMore, Mores(replies), Mores(rest));
      }
      NoChildren(runtime, depth);
      assert children[|children|..] == [];
      assert comments + [] == comments && unresolvedMore + [] == unresolvedMore;
      return false;
    }

    method ParseChild(child: Json, depth: int) returns (raised: bool)
      modifies this
      ensures raised <==> RaisesAt(runtime, child)
      ensures !raised ==> comments == old(comments) + Preorder(ReplyFrom(runtime, child, depth))
      ensures !raised ==> unresolvedMore == old(unresolvedMore) + Mores(ReplyFrom(runtime, child, depth))
      decreases child
    {
      hide CommentOf, MoreOf, RepliesUnder, Forest, ReplyFrom, IsComment, IsMore, Get, TooDeep, Throws, AnyRaises;
      hide CreatedUtc;
      ReadsOffChild(runtime, child, depth);
      if IsComment(runtime, child) {
        var item := Get(child, "data").value;
        if TooDeep(runtime, item) || Throws(runtime, CreatedUtc(runtime, Get(item, "created_utc"))) {
          return true;
        }
        comments := comments + [CommentOf(runtime, item, depth)];
        var under := RepliesUnder(child);
        if under.Some? {
          raised := ParseChildren(under.value.items, depth + 1);
          return;
        }
      } else if IsMore(runtime, child) {
        var item := Get(child, "data").value;
        if TooDeep(runtime, item) {
          return true;
        }
        unresolvedMore := unresolvedMore + [MoreOf(runtime, item, depth)];
      }
      return false;
    }
  }
}
