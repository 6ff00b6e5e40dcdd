/** The whole normalization in both runtimes, and exactly where their readings of a payload agree. */
module ThreadNormalization {
  import opened Options
  import opened Json
  import opened CanonicalJson
  import opened Threads

  datatype PostType = SelfPost | Video | LinkOrMedia

  datatype Post = Post(
    id: Json, postId: Json, title: Json, author: Json, score: Json, upvoteRatio: Json, subreddit: Json,
    totalReportedComments: Json, createdUtc: Json, createdIso: Json, selftext: Json, permalink: Json,
    postType: PostType, locked: bool)

  datatype CounterDelta = Unknown | Match | WithinUnresolvedMore | ExceedsVisibleTree | NegativeCounterLag

  datatype Validation = Validation(
    extracted: nat, unique: nat, duplicateIds: seq<Json>, missingParents: seq<(Json, Json)>, maxDepth: Option<int>,
    moreNodes: nat, moreChildren: nat, exhausted: bool, delta: Option<real>, deltaClass: CounterDelta)

  datatype Thread = Thread(post: Post, comments: seq<Comment>, unresolvedMore: seq<More>, validation: Validation)

  // ----- duplicate ids, two algorithms -----

  function Repeats(ids: seq<Json>): seq<Json> {
    if ids == [] then []
    else
      var init, last := ids[..|ids| - 1], ids[|ids| - 1];
      var before := Repeats(init);
      if last in init && last !in before then before + [last] else before
  }

  /** Each repeated id once, and nothing else. */
  lemma {:induction false} RepeatsMeaning(ids: seq<Json>)
    ensures forall id :: id in Repeats(ids) <==> multiset(ids)[id] >= 2
    ensures forall i, j :: 0 <= i < j < |Repeats(ids)| ==> Repeats(ids)[i] != Repeats(ids)[j]
  {
    if ids != [] {
      var init, last := ids[..|ids| - 1], ids[|ids| - 1];
      RepeatsMeaning(init);
      assert ids == init + [last];
      assert last in init <==> multiset(init)[last] >= 1;
    }
  }

  /** Python: a loop over prefixes with a set of the duplicates already listed. */
  method DuplicatesBySeenSet(ids: seq<Json>) returns (duplicates: seq<Json>)
    ensures duplicates == Repeats(ids)
  {
    duplicates := [];
    var seen: set<Json> := {};
    for i := 0 to |ids|
      invariant duplicates == Repeats(ids[..i])
      invariant forall id :: id in seen <==> id in duplicates
    {
      assert ids[..i + 1][..i] == ids[..i];
      if ids[i] in ids[..i] && ids[i] !in seen {
        seen := seen + {ids[i]};
        duplicates := duplicates + [ids[i]];
      }
    }
    assert ids[..|ids|] == ids;
  }

  function IndexOf(ids: seq<Json>, id: Json): (i: int)
    ensures id in ids <==> 0 <= i < |ids|
    ensures 0 <= i ==> i < |ids| && ids[i] == id && id !in ids[..i]
  {
    if ids == [] then -1
    else if ids[0] == id then 0
    else
      var i := IndexOf(ids[1..], id);
      assert ids == [ids[0]] + ids[1..];
      assert i >= 0 ==> ids[..i + 1] == [ids[0]] + ids[1..][..i];
      if i < 0 then -1 else i + 1
  }

  /** The elements that are not the first of their value, as indexOf filtering keeps them. */
  function LaterOnes(ids: seq<Json>, upTo: nat): seq<Json>
    requires upTo <= |ids|
  {
    if upTo == 0 then []
    else
      var before := LaterOnes(ids, upTo - 1);
      if IndexOf(ids, ids[upTo - 1]) != upTo - 1 then before + [ids[upTo - 1]] else before
  }

  /** Spreading a Set: first occurrences in insertion order. */
  function Spread(s: seq<Json>): seq<Json> {
    if s == [] then []
    else
      var before := Spread(s[..|s| - 1]);
      if s[|s| - 1] in before then before else before + [s[|s| - 1]]
  }

  lemma SpreadStep(s: seq<Json>, x: Json)
    ensures Spread(s + [x]) == if x in Spread(s) then Spread(s) else Spread(s) + [x]
  {
  }

  /** An index is not the first of its value exactly when the value is in the prefix before it. */
  lemma LaterExactly(ids: seq<Json>, i: nat)
    requires i < |ids|
    ensures IndexOf(ids, ids[i]) != i <==> ids[i] in ids[..i]
  {
  }

  /** Node: filtering by indexOf and deduplicating with a Set gives the same list. */
  lemma {:induction false} DuplicatesByIndexOf(ids: seq<Json>, upTo: nat)
    requires upTo <= |ids|
    ensures Spread(LaterOnes(ids, upTo)) == Repeats(ids[..upTo])
  {
    hide IndexOf;
    if upTo > 0 {
      hide Spread;
      var i := upTo - 1;
      DuplicatesByIndexOf(ids, i);
      assert ids[..upTo][..i] == ids[..i] && ids[..upTo][i] == ids[i];
      SpreadStep(LaterOnes(ids, i), ids[i]);
      LaterExactly(ids, i);
    }
  }

  // ----- the rest of the validation -----

  function Ids(comments: seq<Comment>): seq<Json> {
    seq(|comments|, i requires 0 <= i < |comments| => comments[i].id)
  }

  function IdSet(comments: seq<Comment>): set<Json> {
    set i | 0 <= i < |comments| :: comments[i].id
  }

  function MissingParents(comments: seq<Comment>, root: Json, ids: set<Json>): seq<(Json, Json)> {
    if comments == [] then []
    else
      (if comments[0].parentId != root && comments[0].parentId !in ids then [(comments[0].id, comments[0].parentId)] else [])
      + MissingParents(comments[1..], root, ids)
  }

  function MaxDepth(comments: seq<Comment>): Option<int> {
    if comments == [] then None
    else
      match MaxDepth(comments[1..])
      case None => Some(comments[0].depth)
      case Some(d) => Some(if comments[0].depth > d then comments[0].depth else d)
  }

  function ChildCount(mores: seq<More>): nat {
    if mores == [] then 0 else |mores[0].childIds| + ChildCount(mores[1..])
  }

  /** The value of a number that is not whole: some real. */
  const FractionValue: Number -> real

  function RealOf(n: Number): real {
    if n.Whole? || n.WholeFloat? then n.i as real else FractionValue(n)
  }

  function DeltaClass(delta: Option<real>, unresolved: nat): CounterDelta {
    match delta
    case None => Unknown
    case Some(d) =>
      if d == 0.0 then Match
      else if d > 0.0 && unresolved as real >= d then WithinUnresolvedMore
      else if d > 0.0 then ExceedsVisibleTree
      else NegativeCounterLag
  }

  function Validate(rt: Runtime, post: Post, comments: seq<Comment>, mores: seq<More>): Validation {
    var ids, children := IdSet(comments), ChildCount(mores);
    var delta := if post.totalReportedComments.Num?
      then Some(RealOf(post.totalReportedComments.n) - |comments| as real) else None;
    Validation(
      |comments|, |ids|,
      if rt.Python? then Repeats(Ids(comments)) else Spread(LaterOnes(Ids(comments), |comments|)),
      MissingParents(comments, post.id, ids), MaxDepth(comments),
      |mores|, children, mores == [], delta, DeltaClass(delta, children))
  }

  // ----- one payload -----

  function FirstChild(rt: Runtime, children: Option<Json>): Option<Json> {
    match children
    case Some(Arr(items)) => if items == [] then None else Some(items[0])
    case Some(Obj(_)) => if rt.Node? then Get(children.value, "0") else None
    case _ => None
  }

  function PostData(rt: Runtime, listings: seq<Json>): Option<Json> {
    if listings == [] then None
    else Of(FirstChild(rt, Of(Get(listings[0], "data"), "children")), "data")
  }

  function PostOf(rt: Runtime, data: Json): Post {
    var created := CreatedUtc(rt, Get(data, "created_utc"));
    var id := Get(data, "id").GetOr(Null);
    Post(
      OrPrefixed(rt, Get(data, "name"), "t3_", id), id,
      OrEmpty(rt, Get(data, "title")), OrNull(rt, Get(data, "author")),
      Finite(Get(data, "score")), Finite(Get(data, "upvote_ratio")),
      OrNull(rt, Get(data, "subreddit_name_prefixed")), Finite(Get(data, "num_comments")),
      created, CreatedIso(rt, created), OrEmpty(rt, Get(data, "selftext")), OrNull(rt, Get(data, "permalink")),
      if Truthy(rt, Get(data, "is_self")) then SelfPost else if Truthy(rt, Get(data, "is_video")) then Video else LinkOrMedia,
      Truthy(rt, Get(data, "locked")))
  }

  function CommentTrees(listings: seq<Json>): seq<Json> {
    var children := if |listings| < 2 then None else Of(Get(listings[1], "data"), "children");
    if children.Some? && children.value.Arr? then children.value.items else []
  }

  /** None where the source raises. Python insists on two listings; Node only on an array. */
  function Normalize(rt: Runtime, payload: Json): Option<Thread> {
    if !payload.Arr? || (rt.Python? && |payload.items| < 2) then None
    else
      var data := PostData(rt, payload.items);
      if !Kept(rt, Of(data, "id")) then None
      else
        var forest := Forest(rt, CommentTrees(payload.items), 0);
        var post, comments, mores := PostOf(rt, data.value), Preorder(forest), Mores(forest);
        if Throws(rt, post.createdUtc) || AnyRaises(rt, CommentTrees(payload.items)) then None
        else Some(Thread(post, comments, mores, Validate(rt, post, comments, mores)))
  }

  /** The source's own shape: accumulate by recursion, then the duplicate loop. */
  method NormalizeRedditThread(payload: Json) returns (thread: Option<Thread>)
    ensures thread == Normalize(Python, payload)
  {
    hide Forest, Preorder, Mores, PostOf, PostData, CommentTrees, Repeats, MissingParents, MaxDepth, ChildCount, DeltaClass;
    if !payload.Arr? || |payload.items| < 2 {
      return None;
    }
    var data := PostData(Python, payload.items);
    if !Kept(Python, Of(data, "id")) {
      return None;
    }
    var post := PostOf(Python, data.value);
    var builder := new ThreadBuilder(Python);
    var raised := builder.ParseChildren(CommentTrees(payload.items), 0);
    if raised {
      return None;
    }
    var comments, mores := builder.comments, builder.unresolvedMore;
    assert comments == Preorder(Forest(Python, CommentTrees(payload.items), 0));
    assert mores == Mores(Forest(Python, CommentTrees(payload.items), 0));
    var duplicates := DuplicatesBySeenSet(Ids(comments));
    var validation := Validate(Python, post, comments, mores).(duplicateIds := duplicates);
    return Some(Thread(post, comments, mores, validation));
  }

  // ----- where the two agree -----

  /** A text field is text, or empty in Node's sense. */
  predicate CleanText(v: Option<Json>) {
    Truthy(Node, v) ==> v.value.Str?
  }

  /** A timestamp is a number other than zero, or something falsy that is not a number. */
  predicate CleanTime(v: Option<Json>) {
    if v.Some? && v.value.Num? then !IsZero(v.value.n) else !Truthy(Node, v)
  }

  /** And both runtimes render it alike: no fraction of a millisecond to round, no date only one accepts. */
  predicate RendersAlike(v: Option<Json>) {
    CleanTime(v) && (v.Some? && v.value.Num? ==> NodeIso(v.value).Some? && PythonIso(v.value) == NodeIso(v.value))
  }

  /** A flag is not an empty array or object. */
  predicate CleanFlag(v: Option<Json>) {
    v != Some(Arr([])) && v != Some(Obj([]))
  }

  /** A whole reported depth is one that both runtimes read exactly. */
  predicate CleanDepth(item: Json) {
    var depth := Get(item, "depth");
    depth.Some? && depth.value.Num? && depth.value.n.Whole? ==> IsSafe(depth.value.n.i)
  }

  lemma CleanIsNotTooDeep(rt: Runtime, item: Json)
    requires CleanDepth(item)
    ensures !TooDeep(rt, item)
  {
  }

  predicate CleanMore(data: Option<Json>) {
    Truthy(Node, data) ==> data.value.Obj? && data.value.members != []
  }

  lemma TextAgrees(v: Option<Json>)
    ensures OrNull(Python, v) == OrNull(Node, v) <==> CleanText(v)
    ensures CleanText(v) ==> Kept(Python, v) == Kept(Node, v)
  {
  }

  lemma TimeAgrees(v: Option<Json>)
    ensures CreatedUtc(Python, v) == CreatedUtc(Node, v) <==> CleanTime(v)
    ensures CleanTime(v) ==>
      var created := CreatedUtc(Python, v);
      (CreatedIso(Python, created) == CreatedIso(Node, created) && !Throws(Node, created) <==> RendersAlike(v))
  {
  }

  lemma FlagAgrees(v: Option<Json>)
    ensures Truthy(Python, v) == Truthy(Node, v) <==> CleanFlag(v)
  {
  }

  /** An unresolved node is kept by both runtimes or by neither exactly when its data is not truthy in
      Node without being a non-empty object: the empty object is kept by Node alone. */
  lemma MoreAgrees(child: Json)
    ensures IsMore(Python, child) == IsMore(Node, child) <==>
      (Get(child, "kind") == Some(Str("more")) ==> CleanMore(Get(child, "data")))
  {
  }

  predicate WellTypedItem(item: Json) {
    && CleanText(Get(item, "name")) && CleanText(Get(item, "author")) && CleanText(Get(item, "parent_id"))
    && CleanText(Get(item, "body")) && RendersAlike(Get(item, "created_utc")) && CleanDepth(item)
  }

  predicate WellTypedChild(child: Json)
    decreases child
  {
    var data := Get(child, "data");
    if Get(child, "kind") == Some(Str("t1")) then
      && CleanText(Of(data, "id"))
      && (IsComment(Python, child) ==>
            && WellTypedItem(data.value)
            && var under := RepliesUnder(child);
               under.Some? ==> WellTypedChildren(under.value.items))
    else if Get(child, "kind") == Some(Str("more")) then
      CleanMore(data) && CleanText(Of(data, "id")) && CleanText(Of(data, "parent_id")) && (data.Some? ==> CleanDepth(data.value))
    else true
  }

  predicate WellTypedChildren(children: seq<Json>)
    decreases children
  {
    forall i :: 0 <= i < |children| ==> WellTypedChild(children[i])
  }

  predicate WellTypedPost(data: Json) {
    && CleanText(Get(data, "name")) && CleanText(Get(data, "title")) && CleanText(Get(data, "author"))
    && CleanText(Get(data, "subreddit_name_prefixed")) && CleanText(Get(data, "selftext"))
    && CleanText(Get(data, "permalink")) && RendersAlike(Get(data, "created_utc"))
    && CleanFlag(Get(data, "is_self")) && CleanFlag(Get(data, "is_video")) && CleanFlag(Get(data, "locked"))
  }

  predicate WellTyped(payload: Json) {
    payload.Arr? ==>
      && |payload.items| >= 2
      && PostData(Python, payload.items) == PostData(Node, payload.items)
      && CleanText(Of(PostData(Python, payload.items), "id"))
      && (PostData(Python, payload.items).Some? ==> WellTypedPost(PostData(Python, payload.items).value))
      && WellTypedChildren(CommentTrees(payload.items))
  }

  lemma CommentAgrees(item: Json, depth: int)
    requires WellTypedItem(item) && Get(item, "id").Some? && Get(item, "id").value.Str?
    ensures CommentOf(Python, item, depth) == CommentOf(Node, item, depth)
    ensures forall rt :: !Throws(rt, CreatedUtc(rt, Get(item, "created_utc"))) && !TooDeep(rt, item)
  {
  }

  lemma MoreReadsAlike(item: Json, depth: int)
    requires CleanText(Get(item, "id")) && CleanText(Get(item, "parent_id"))
    ensures MoreOf(Python, item, depth) == MoreOf(Node, item, depth)
  {
  }

  lemma {:induction false} ReplyAgrees(child: Json, depth: int)
    requires WellTypedChild(child)
    ensures ReplyFrom(Python, child, depth) == ReplyFrom(Node, child, depth)
    ensures !RaisesAt(Python, child) && !RaisesAt(Node, child)
    decreases child
  {
    hide CommentOf, MoreOf, WellTypedItem, Throws, RepliesUnder, Forest, TooDeep, CreatedUtc;
    var data := Get(child, "data");
    TextAgrees(Of(data, "id"));
    MoreAgrees(child);
    if IsComment(Python, child) {
      CommentAgrees(data.value, depth);
      var under := RepliesUnder(child);
      if under.Some? {
        ForestAgrees(under.value.items, depth + 1);
      }
    } else if IsMore(Python, child) {
      MoreReadsAlike(data.value, depth);
      CleanIsNotTooDeep(Python, data.value);
      CleanIsNotTooDeep(Node, data.value);
    }
  }

  lemma {:induction false} ForestAgrees(children: seq<Json>, depth: int)
    requires WellTypedChildren(children)
    ensures Forest(Python, children, depth) == Forest(Node, children, depth)
    ensures !AnyRaises(Python, children) && !AnyRaises(Node, children)
    decreases children
  {
    hide ReplyFrom, WellTypedChild, RaisesAt;
    if children != [] {
      ReplyAgrees(children[0], depth);
      ForestAgrees(children[1..], depth);
      assert forall i :: 0 < i < |children| ==> children[i] == children[1..][i - 1];
    }
  }

  lemma PostAgrees(data: Json)
    requires WellTypedPost(data) && Get(data, "id").Some? && Get(data, "id").value.Str?
    ensures PostOf(Python, data) == PostOf(Node, data) && !Throws(Node, PostOf(Node, data).createdUtc)
  {
    hide Get;
    TextAgrees(Get(data, "name"));
    TextAgrees(Get(data, "title"));
    TextAgrees(Get(data, "author"));
    TextAgrees(Get(data, "subreddit_name_prefixed"));
    TextAgrees(Get(data, "selftext"));
    TextAgrees(Get(data, "permalink"));
    TimeAgrees(Get(data, "created_utc"));
    FlagAgrees(Get(data, "is_self"));
    FlagAgrees(Get(data, "is_video"));
    FlagAgrees(Get(data, "locked"));
  }

  /** On well-typed payloads the two normalizers raise alike and return the same thread. */
  lemma NormalizersAgree(payload: Json)
    requires WellTyped(payload)
    ensures Normalize(Python, payload) == Normalize(Node, payload)
  {
    hide Forest, Preorder, Mores, PostOf, WellTypedPost, WellTypedChildren, CommentTrees, PostData;
    if payload.Arr? {
      var data := PostData(Python, payload.items);
      TextAgrees(Of(data, "id"));
      if Kept(Python, Of(data, "id")) {
        PostAgrees(data.value);
        ForestAgrees(CommentTrees(payload.items), 0);
        var comments := Preorder(Forest(Python, CommentTrees(payload.items), 0));
        DuplicatesByIndexOf(Ids(comments), |comments|);
        assert Ids(comments)[..|comments|] == Ids(comments);
      }
    }
  }

  /** One listing is enough for Node, where its post's timestamp renders, and never for Python. */
  lemma OneListingDisagrees(payload: Json)
    requires payload.Arr? && |payload.items| < 2
    ensures Normalize(Python, payload) == Normalize(Node, payload) <==>
      var data := PostData(Node, payload.items);
      !Kept(Node, Of(data, "id")) || Throws(Node, CreatedUtc(Node, Of(data, "created_utc")))
  {
    hide Get, FirstChild, OrPrefixed, OrNull, OrEmpty, Validate;
    assert Forest(Node, [], 0) == [] && Preorder([]) == [];
  }
}
