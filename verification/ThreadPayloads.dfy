/** Writing a thread as Reddit would send it, and normalizing it back: every field is read from its own place. */
module ThreadPayloads {
  import opened Options
  import opened Json
  import opened CanonicalJson
  import opened Threads
  import opened ThreadNormalization

  // ----- objects by keys and values -----

  predicate Distinct(keys: seq<string>) {
    forall i, j :: 0 <= i < j < |keys| ==> keys[i] != keys[j]
  }

  function Record(keys: seq<string>, values: seq<Json>): Json
    requires |keys| == |values|
  {
    Obj(seq(|keys|, i requires 0 <= i < |keys| => Member(keys[i], values[i])))
  }

  /** A field is the value under the first member with its key, and there is none without such a member. */
  lemma {:induction false} GetMeaning(v: Json, key: string)
    ensures Get(v, key).None? <==> !v.Obj? || forall i :: 0 <= i < |v.members| ==> v.members[i].key != key
    ensures Get(v, key).Some? ==>
      v.Obj? && exists i ::
        && 0 <= i < |v.members| && v.members[i] == Member(key, Get(v, key).value)
        && forall j :: 0 <= j < i ==> v.members[j].key != key
  {
    if v.Obj? { LookupMeaning(v.members, key); }
  }

  lemma {:induction false} LookupMeaning(members: seq<Member>, key: string)
    ensures Lookup(members, key).None? <==> forall i :: 0 <= i < |members| ==> members[i].key != key
    ensures Lookup(members, key).Some? ==>
      exists i ::
        && 0 <= i < |members| && members[i] == Member(key, Lookup(members, key).value)
        && forall j :: 0 <= j < i ==> members[j].key != key
  {
    if members != [] {
      LookupMeaning(members[1..], key);
      assert forall i :: 0 <= i < |members| - 1 ==> members[1..][i] == members[i + 1];
      if members[0].key != key && Lookup(members, key).Some? {
        var i :| 0 <= i < |members[1..]| && members[1..][i] == Member(key, Lookup(members, key).value)
          && forall j :: 0 <= j < i ==> members[1..][j].key != key;
        assert members[i + 1] == Member(key, Lookup(members, key).value);
        assert forall j :: 0 < j < i + 1 ==> members[j] == members[1..][j - 1];
      }
    }
  }

  lemma RecordReads(keys: seq<string>, values: seq<Json>, i: nat)
    requires |keys| == |values| && Distinct(keys) && i < |keys|
    ensures Get(Record(keys, values), keys[i]) == Some(values[i])
  {
    var v := Record(keys, values);
    GetMeaning(v, keys[i]);
    assert v.members[i].key == keys[i];
    hide Get;
    var k :| 0 <= k < |v.members| && v.members[k] == Member(keys[i], Get(v, keys[i]).value)
      && forall j :: 0 <= j < k ==> v.members[j].key != keys[i];
    assert keys[k] == keys[i];
  }

  // ----- what plain threads hold -----

  predicate PlainText(v: Json) {
    v.Str? && v.s != ""
  }

  predicate TextOrNull(v: Json) {
    v == Null || PlainText(v)
  }

  predicate NumberOrNull(v: Json) {
    v == Null || v.Num?
  }

  /** A time that both its number and its rendering tell, or neither. */
  predicate PlainTime(rt: Runtime, created: Json, iso: Json) {
    if created.Null? then iso == Null
    else created.Num? && !IsZero(created.n) && IsoOf(rt, created).Some? && iso == Str(IsoOf(rt, created).value)
  }

  predicate PlainDepth(depth: int) {
    -FLOAT_LIMIT < depth < FLOAT_LIMIT
  }

  predicate PlainPost(rt: Runtime, p: Post) {
    && PlainText(p.id) && PlainText(p.postId) && p.title.Str? && TextOrNull(p.author) && NumberOrNull(p.score)
    && NumberOrNull(p.upvoteRatio) && TextOrNull(p.subreddit) && NumberOrNull(p.totalReportedComments)
    && PlainTime(rt, p.createdUtc, p.createdIso) && p.selftext.Str? && TextOrNull(p.permalink)
  }

  predicate PlainComment(rt: Runtime, c: Comment) {
    && PlainText(c.id) && PlainText(c.commentId) && TextOrNull(c.author) && NumberOrNull(c.score) && PlainDepth(c.depth)
    && TextOrNull(c.parentId) && PlainTime(rt, c.createdUtc, c.createdIso) && c.body.Str?
    && (c.visibility == Deleted <==> c.author == Str("[deleted]") || c.body == Str("[deleted]"))
    && (c.visibility == Removed <==> c.author != Str("[deleted]") && c.body == Str("[removed]"))
  }

  predicate PlainMore(m: More) {
    TextOrNull(m.id) && TextOrNull(m.parentId) && m.count.Num? && PlainDepth(m.depth)
  }

  predicate PlainReply(rt: Runtime, reply: Reply)
    decreases reply
  {
    match reply
    case Said(c, replies) => PlainComment(rt, c) && PlainForest(rt, replies)
    case Unresolved(m) => PlainMore(m)
  }

  predicate PlainForest(rt: Runtime, forest: seq<Reply>)
    decreases forest
  {
    forall i :: 0 <= i < |forest| ==> PlainReply(rt, forest[i])
  }

  // ----- the payload -----

  const POST_KEYS := ["name", "id", "title", "author", "score", "upvote_ratio", "subreddit_name_prefixed", "num_comments",
                      "created_utc", "selftext", "permalink", "is_self", "is_video", "locked"]

  function PostJson(p: Post): Json {
    Record(POST_KEYS, [p.id, p.postId, p.title, p.author, p.score, p.upvoteRatio, p.subreddit, p.totalReportedComments,
                       p.createdUtc, p.selftext, p.permalink, Bool(p.postType.SelfPost?), Bool(p.postType.Video?),
                       Bool(p.locked)])
  }

  const COMMENT_KEYS := ["name", "id", "author", "score", "depth", "parent_id", "created_utc", "body", "replies"]

  function CommentJson(c: Comment, replies: Json): Json {
    Record(COMMENT_KEYS, [c.id, c.commentId, c.author, c.score, Num(Whole(c.depth)), c.parentId, c.createdUtc, c.body, replies])
  }

  const MORE_KEYS := ["id", "parent_id", "count", "children", "depth"]

  function MoreJson(m: More): Json {
    Record(MORE_KEYS, [m.id, m.parentId, m.count, Arr(m.childIds), Num(Whole(m.depth))])
  }

  function Listing(children: seq<Json>): Json {
    Record(["data"], [Record(["children"], [Arr(children)])])
  }

  function Thing(kind: string, data: Json): Json {
    Record(["kind", "data"], [Str(kind), data])
  }

  function ReplyJson(reply: Reply): Json
    decreases reply
  {
    match reply
    case Said(c, replies) => Thing("t1", CommentJson(c, Listing(ReplyJsons(replies))))
    case Unresolved(m) => Thing("more", MoreJson(m))
  }

  function ReplyJsons(forest: seq<Reply>): seq<Json>
    decreases forest
  {
    seq(|forest|, i requires 0 <= i < |forest| => ReplyJson(forest[i]))
  }

  function PayloadOf(p: Post, forest: seq<Reply>): Json {
    Arr([Listing([Thing("t3", PostJson(p))]), Listing(ReplyJsons(forest))])
  }

  lemma KeysAreDistinct()
    ensures Distinct(POST_KEYS) && Distinct(COMMENT_KEYS) && Distinct(MORE_KEYS) && Distinct(["kind", "data"])
  {
  }

  lemma ThingReads(kind: string, data: Json)
    ensures Get(Thing(kind, data), "kind") == Some(Str(kind)) && Get(Thing(kind, data), "data") == Some(data)
  {
    KeysAreDistinct();
    RecordReads(["kind", "data"], [Str(kind), data], 0);
    RecordReads(["kind", "data"], [Str(kind), data], 1);
  }

  lemma ListingReads(children: seq<Json>)
    ensures Get(Listing(children), "data").Some?
    ensures Of(Get(Listing(children), "data"), "children") == Some(Arr(children))
  {
    var inner := Record(["children"], [Arr(children)]);
    RecordReads(["children"], [Arr(children)], 0);
    RecordReads(["data"], [inner], 0);
  }

  lemma PostReads(p: Post)
    ensures
      var data := PostJson(p);
      && Get(data, "name") == Some(p.id) && Get(data, "id") == Some(p.postId) && Get(data, "title") == Some(p.title)
      && Get(data, "author") == Some(p.author) && Get(data, "score") == Some(p.score)
      && Get(data, "upvote_ratio") == Some(p.upvoteRatio) && Get(data, "subreddit_name_prefixed") == Some(p.subreddit)
      && Get(data, "num_comments") == Some(p.totalReportedComments) && Get(data, "created_utc") == Some(p.createdUtc)
      && Get(data, "selftext") == Some(p.selftext) && Get(data, "permalink") == Some(p.permalink)
      && Get(data, "is_self") == Some(Bool(p.postType.SelfPost?)) && Get(data, "is_video") == Some(Bool(p.postType.Video?))
      && Get(data, "locked") == Some(Bool(p.locked))
  {
    KeysAreDistinct();
    hide Get, Distinct, Record;
    var values := [p.id, p.postId, p.title, p.author, p.score, p.upvoteRatio, p.subreddit, p.totalReportedComments,
                   p.createdUtc, p.selftext, p.permalink, Bool(p.postType.SelfPost?), Bool(p.postType.Video?), Bool(p.locked)];
    forall i | 0 <= i < |values| ensures Get(PostJson(p), POST_KEYS[i]) == Some(values[i]) {
      RecordReads(POST_KEYS, values, i);
    }
    assert POST_KEYS[0] == "name" && POST_KEYS[1] == "id" && POST_KEYS[2] == "title" && POST_KEYS[3] == "author";
    assert POST_KEYS[4] == "score" && POST_KEYS[5] == "upvote_ratio" && POST_KEYS[6] == "subreddit_name_prefixed";
    assert POST_KEYS[7] == "num_comments" && POST_KEYS[8] == "created_utc" && POST_KEYS[9] == "selftext";
    assert POST_KEYS[10] == "permalink" && POST_KEYS[11] == "is_self" && POST_KEYS[12] == "is_video" && POST_KEYS[13] == "locked";
  }

  lemma CommentReads(c: Comment, replies: Json)
    ensures
      var data := CommentJson(c, replies);
      && Get(data, "name") == Some(c.id) && Get(data, "id") == Some(c.commentId) && Get(data, "author") == Some(c.author)
      && Get(data, "score") == Some(c.score) && Get(data, "depth") == Some(Num(Whole(c.depth)))
      && Get(data, "parent_id") == Some(c.parentId) && Get(data, "created_utc") == Some(c.createdUtc)
      && Get(data, "body") == Some(c.body) && Get(data, "replies") == Some(replies)
  {
    KeysAreDistinct();
    hide Get, Distinct, Record;
    var values := [c.id, c.commentId, c.author, c.score, Num(Whole(c.depth)), c.parentId, c.createdUtc, c.body, replies];
    forall i | 0 <= i < |values| ensures Get(CommentJson(c, replies), COMMENT_KEYS[i]) == Some(values[i]) {
      RecordReads(COMMENT_KEYS, values, i);
    }
    assert COMMENT_KEYS[0] == "name" && COMMENT_KEYS[1] == "id" && COMMENT_KEYS[2] == "author" && COMMENT_KEYS[3] == "score";
    assert COMMENT_KEYS[4] == "depth" && COMMENT_KEYS[5] == "parent_id" && COMMENT_KEYS[6] == "created_utc";
    assert COMMENT_KEYS[7] == "body" && COMMENT_KEYS[8] == "replies";
  }

  lemma MoreReads(m: More)
    ensures
      var data := MoreJson(m);
      && Get(data, "id") == Some(m.id) && Get(data, "parent_id") == Some(m.parentId) && Get(data, "count") == Some(m.count)
      && Get(data, "children") == Some(Arr(m.childIds)) && Get(data, "depth") == Some(Num(Whole(m.depth)))
  {
    KeysAreDistinct();
    hide Get, Distinct, Record;
    var values := [m.id, m.parentId, m.count, Arr(m.childIds), Num(Whole(m.depth))];
    forall i | 0 <= i < |values| ensures Get(MoreJson(m), MORE_KEYS[i]) == Some(values[i]) {
      RecordReads(MORE_KEYS, values, i);
    }
    assert MORE_KEYS[0] == "id" && MORE_KEYS[1] == "parent_id" && MORE_KEYS[2] == "count";
    assert MORE_KEYS[3] == "children" && MORE_KEYS[4] == "depth";
  }

  // ----- normalizing it back -----

  lemma PostComesBack(rt: Runtime, p: Post)
    requires PlainPost(rt, p)
    ensures PostOf(rt, PostJson(p)) == p && !Throws(rt, p.createdUtc)
  {
    PostReads(p);
    hide Get, PostJson;
  }

  lemma CommentComesBack(rt: Runtime, c: Comment, replies: Json, depth: int)
    requires PlainComment(rt, c)
    ensures CommentOf(rt, CommentJson(c, replies), depth) == c
    ensures !Throws(rt, CreatedUtc(rt, Get(CommentJson(c, replies), "created_utc"))) && !TooDeep(rt, CommentJson(c, replies))
  {
    CommentReads(c, replies);
    hide Get, CommentJson;
  }

  lemma MoreComesBack(rt: Runtime, m: More, depth: int)
    requires PlainMore(m)
    ensures MoreOf(rt, MoreJson(m), depth) == m && !TooDeep(rt, MoreJson(m))
  {
    MoreReads(m);
    hide Get, MoreJson;
  }

  lemma SaidReads(rt: Runtime, c: Comment, children: seq<Json>)
    requires PlainComment(rt, c)
    ensures
      var json := Thing("t1", CommentJson(c, Listing(children)));
      IsComment(rt, json) && Get(json, "data") == Some(CommentJson(c, Listing(children))) && RepliesUnder(json) == Some(Arr(children))
  {
    ThingReads("t1", CommentJson(c, Listing(children)));
    CommentReads(c, Listing(children));
    ListingReads(children);
    hide Get, Thing, CommentJson, Listing;
  }

  lemma UnresolvedReads(rt: Runtime, m: More)
    ensures
      var json := Thing("more", MoreJson(m));
      !IsComment(rt, json) && IsMore(rt, json) && Get(json, "data") == Some(MoreJson(m))
  {
    ThingReads("more", MoreJson(m));
    hide Get, Thing;
  }

  lemma {:induction false} ReplyComesBack(rt: Runtime, reply: Reply, depth: int)
    requires PlainReply(rt, reply)
    ensures ReplyFrom(rt, ReplyJson(reply), depth) == [reply] && !RaisesAt(rt, ReplyJson(reply))
    decreases reply
  {
    hide IsComment, IsMore, RepliesUnder, Thing, CommentJson, MoreJson, CommentOf, MoreOf, Throws, TooDeep, Listing, CreatedUtc, Get;
    match reply
    case Said(c, replies) =>
      SaidReads(rt, c, ReplyJsons(replies));
      CommentComesBack(rt, c, Listing(ReplyJsons(replies)), depth);
      ForestComesBack(rt, replies, depth + 1);
      hide Forest, AnyRaises, PlainComment, PlainForest, ReplyJsons;
    case Unresolved(m) =>
      UnresolvedReads(rt, m);
      MoreComesBack(rt, m, depth);
  }

  lemma FirstAndRest(rt: Runtime, forest: seq<Reply>)
    requires forest != []
    ensures PlainForest(rt, forest) ==> PlainReply(rt, forest[0]) && PlainForest(rt, forest[1..])
    ensures ReplyJsons(forest)[0] == ReplyJson(forest[0]) && ReplyJsons(forest)[1..] == ReplyJsons(forest[1..])
  {
    hide PlainReply, ReplyJson;
  }

  lemma RaisesFirstOrLater(rt: Runtime, children: seq<Json>)
    requires children != []
    ensures AnyRaises(rt, children) <==> RaisesAt(rt, children[0]) || AnyRaises(rt, children[1..])
  {
    hide RaisesAt;
    assert forall i :: 0 < i < |children| ==> children[i] == children[1..][i - 1];
  }

  lemma {:induction false} ForestComesBack(rt: Runtime, forest: seq<Reply>, depth: int)
    requires PlainForest(rt, forest)
    ensures Forest(rt, ReplyJsons(forest), depth) == forest && !AnyRaises(rt, ReplyJsons(forest))
    decreases forest
  {
    if forest != [] {
      FirstAndRest(rt, forest);
      RaisesFirstOrLater(rt, ReplyJsons(forest));
      hide ReplyFrom, ReplyJson, ReplyJsons, RaisesAt, PlainReply, PlainForest, AnyRaises;
      ReplyComesBack(rt, forest[0], depth);
      ForestComesBack(rt, forest[1..], depth);
    }
  }

  /** In both runtimes: a thread written in Reddit's shape, under Reddit's names, normalizes to that very thread,
      comments in preorder, with the summary of its parts. */
  lemma NormalizingInvertsWriting(rt: Runtime, p: Post, forest: seq<Reply>)
    requires PlainPost(rt, p) && PlainForest(rt, forest)
    ensures Normalize(rt, PayloadOf(p, forest)) ==
      Some(Thread(p, Preorder(forest), Mores(forest), Validate(rt, p, Preorder(forest), Mores(forest))))
  {
    var payload := PayloadOf(p, forest);
    ListingReads([Thing("t3", PostJson(p))]);
    ListingReads(ReplyJsons(forest));
    ThingReads("t3", PostJson(p));
    PostReads(p);
    hide Get, Listing, Thing, PostJson;
    assert PostData(rt, payload.items) == Some(PostJson(p));
    assert CommentTrees(payload.items) == ReplyJsons(forest);
    PostComesBack(rt, p);
    ForestComesBack(rt, forest, 0);
    hide PostOf, Forest, Preorder, Mores, Validate, ReplyJsons, PostData, CommentTrees;
  }

  // ----- what else a field can hold -----

  /** What JavaScript takes for false: nothing, null, false, a zero, the empty text. */
  predicate Falsy(v: Option<Json>) {
    || v == None || v == Some(Null) || v == Some(Bool(false)) || v == Some(Str(""))
    || v == Some(Num(Whole(0))) || v == Some(Num(WholeFloat(0)))
  }

  /** How each runtime reads a field of any shape: Python by type, Node by truth; Python alone takes an empty
      array or object for false. */
  lemma ReadingsMeaning(v: Option<Json>, depth: int)
    ensures OrNull(Python, v) == if v.Some? && v.value.Str? && v.value.s != "" then v.value else Null
    ensures OrEmpty(Python, v) == if v.Some? && v.value.Str? then v.value else Str("")
    ensures OrNull(Node, v) == if Falsy(v) then Null else v.value
    ensures OrEmpty(Node, v) == if Falsy(v) then Str("") else v.value
    ensures Truthy(Node, v) <==> !Falsy(v)
    ensures Truthy(Python, v) <==> !Falsy(v) && v != Some(Arr([])) && v != Some(Obj([]))
    ensures Finite(v) == if v.Some? && v.value.Num? then v.value else Null
    ensures CreatedUtc(Python, v) == if v.Some? && v.value.Num? then v.value else Null
    ensures CreatedUtc(Node, v) == if Falsy(v) then Null else v.value
    ensures WholeOr(v, depth) ==
      match v
      case Some(Num(Whole(i))) => i
      case Some(Num(WholeFloat(i))) => i
      case _ => depth
  {
  }

  /** A name that is missing is made from the id; a comment counter that is missing is zero; an unresolved node
      that lists no children has none. */
  lemma MissingFieldsMeaning(rt: Runtime, item: Json, prefix: string, id: string, depth: int)
    ensures
      var name := Get(item, "name");
      OrPrefixed(rt, name, prefix, Str(id)) ==
        if (if rt.Python? then name.Some? && name.value.Str? && name.value.s != "" else !Falsy(name)) then name.value
        else Str(prefix + id)
    ensures
      var m, count, children := MoreOf(rt, item, depth), Get(item, "count"), Get(item, "children");
      && m.count == (if count.Some? && count.value.Num? then count.value else Num(Whole(0)))
      && m.childIds == (if children.Some? && children.value.Arr? then children.value.items else [])
      && m.depth == WholeOr(Get(item, "depth"), depth)
  {
    hide Get;
  }

  /** Which children are kept: a comment with an id, with its replies if they are an array; an unresolved node
      with something in it; and nothing else, nor anything under it. */
  lemma KeptExactly(rt: Runtime, child: Json, depth: int)
    ensures
      var kind, data := Get(child, "kind"), Get(child, "data");
      var id, under := Of(data, "id"), Of(Of(Of(data, "replies"), "data"), "children");
      var comment := kind == Some(Str("t1")) && if rt == Python then IsText(id) else !Falsy(id);
      var unresolved := kind == Some(Str("more"))
        && if rt == Python then data.Some? && data.value.Obj? && data.value.members != [] else !Falsy(data);
      var kept := ReplyFrom(rt, child, depth);
      && (comment ==> kept == [Said(CommentOf(rt, data.value, depth),
            if under.Some? && under.value.Arr? then Forest(rt, under.value.items, depth + 1) else [])])
      && (unresolved ==> kept == [Unresolved(MoreOf(rt, data.value, depth))])
      && (!comment && !unresolved ==> kept == [])
  {
    hide Get, CommentOf, MoreOf, Forest;
  }

  /** Where the post is: under the first child of the first listing, which Node also finds in an object that
      numbers its children. */
  lemma PostDataMeaning(rt: Runtime, listings: seq<Json>)
    ensures
      var children := if listings == [] then None else Of(Get(listings[0], "data"), "children");
      forall data :: PostData(rt, listings) == Some(data) <==>
        && children.Some?
        && (|| (children.value.Arr? && children.value.items != [] && Get(children.value.items[0], "data") == Some(data))
            || (rt == Node && children.value.Obj? && Of(Get(children.value, "0"), "data") == Some(data)))
  {
    hide Get;
  }

  // ----- when normalizing fails -----

  /** The way down to a child: each step goes to the replies of a comment that is kept. */
  ghost predicate Reaches(rt: Runtime, children: seq<Json>, path: seq<nat>)
    decreases |path|
  {
    && path != [] && path[0] < |children|
    && (|path| > 1 ==>
          && IsComment(rt, children[path[0]]) && RepliesUnder(children[path[0]]).Some?
          && Reaches(rt, RepliesUnder(children[path[0]]).value.items, path[1..]))
  }

  ghost function ChildAt(rt: Runtime, children: seq<Json>, path: seq<nat>): Json
    requires Reaches(rt, children, path)
    decreases |path|
  {
    if |path| == 1 then children[path[0]] else ChildAt(rt, RepliesUnder(children[path[0]]).value.items, path[1..])
  }

  /** What one child cannot be read for: in Python a whole depth beyond the doubles, in Node a comment's time
      that does not render. */
  ghost predicate Unreadable(rt: Runtime, child: Json) {
    && (IsComment(rt, child) || IsMore(rt, child))
    && var data := Get(child, "data").value;
       || (rt == Python && exists i :: Get(data, "depth") == Some(Num(Whole(i))) && (i <= -FLOAT_LIMIT || FLOAT_LIMIT <= i))
       || (rt == Node && IsComment(rt, child)
           && var created := Get(data, "created_utc"); !Falsy(created) && created.value != Null && NodeIso(created.value) == None)
  }

  lemma RaisesHereOrUnder(rt: Runtime, child: Json)
    ensures RaisesAt(rt, child) <==>
      || Unreadable(rt, child)
      || (IsComment(rt, child) && RepliesUnder(child).Some? && AnyRaises(rt, RepliesUnder(child).value.items))
  {
    hide Get, AnyRaises, RepliesUnder;
    if IsMore(rt, child) || IsComment(rt, child) {
      var depth := Get(Get(child, "data").value, "depth");
      if TooDeep(rt, Get(child, "data").value) { assert depth == Some(Num(Whole(depth.value.n.i))); }
    }
  }

  lemma {:induction false} RaisingHasPath(rt: Runtime, children: seq<Json>) returns (path: seq<nat>)
    requires AnyRaises(rt, children)
    ensures Reaches(rt, children, path) && Unreadable(rt, ChildAt(rt, children, path))
    decreases children
  {
    hide IsComment, RepliesUnder, Unreadable;
    var k: nat :| k < |children| && RaisesAt(rt, children[k]);
    RaisesHereOrUnder(rt, children[k]);
    hide RaisesAt;
    if Unreadable(rt, children[k]) {
      path := [k];
    } else {
      var under := RepliesUnder(children[k]).value;
      var rest := RaisingHasPath(rt, under.items);
      path := [k] + rest;
      assert path[1..] == rest;
    }
  }

  lemma {:induction false} PathRaises(rt: Runtime, children: seq<Json>, path: seq<nat>)
    requires Reaches(rt, children, path) && Unreadable(rt, ChildAt(rt, children, path))
    ensures AnyRaises(rt, children)
    decreases |path|
  {
    hide IsComment, RepliesUnder, Unreadable;
    var child := children[path[0]];
    RaisesHereOrUnder(rt, child);
    hide RaisesAt;
    if |path| > 1 {
      PathRaises(rt, RepliesUnder(child).value.items, path[1..]);
    }
    assert RaisesAt(rt, child);
  }

  /** The traversal raises exactly when something it reaches cannot be read. */
  lemma RaisesMeaning(rt: Runtime, children: seq<Json>)
    ensures AnyRaises(rt, children) <==>
      exists path :: Reaches(rt, children, path) && Unreadable(rt, ChildAt(rt, children, path))
  {
    hide Unreadable, AnyRaises;
    if AnyRaises(rt, children) {
      var path := RaisingHasPath(rt, children);
    }
    if path :| Reaches(rt, children, path) && Unreadable(rt, ChildAt(rt, children, path)) {
      PathRaises(rt, children, path);
    }
  }

  /** In both runtimes: normalizing fails exactly for what is no array, for fewer than two listings in Python,
      for a first listing without a post that has an id, for a post whose time Node cannot render, and where
      the traversal reaches something unreadable. */
  lemma NormalizeFailsExactly(rt: Runtime, payload: Json)
    ensures Normalize(rt, payload).None? <==>
      || !payload.Arr?
      || (rt == Python && |payload.items| < 2)
      || (var data := PostData(rt, payload.items);
          var id := Of(data, "id");
          || (if rt == Python then !IsText(id) else Falsy(id))
          || (rt == Node && var created := Of(data, "created_utc"); !Falsy(created) && created.value != Null && NodeIso(created.value) == None))
      || exists path :: Reaches(rt, CommentTrees(payload.items), path) && Unreadable(rt, ChildAt(rt, CommentTrees(payload.items), path))
  {
    hide Get, Forest, Preorder, Mores, Validate, CommentTrees, PostData;
    if payload.Arr? {
      hide Unreadable;
      RaisesMeaning(rt, CommentTrees(payload.items));
    }
  }
}
