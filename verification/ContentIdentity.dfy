/**
 * The content hash of a normalized thread: what it covers, what it leaves out, and why it decides
 * whether the source tree was exhausted.
 */
module ContentIdentity {
  import opened Options
  import opened Json
  import opened CanonicalJson
  import opened Threads
  import opened ThreadNormalization

  /** Hex SHA-256 of a canonical text: any function on strings. */
  const ThreadDigest: string -> string

  ghost predicate ThreadDigestIsInjective() {
    forall s, t :: ThreadDigest(s) == ThreadDigest(t) ==> s == t
  }

  function VisibilityName(v: Visibility): string {
    match v case Deleted => "deleted" case Removed => "removed" case Visible => "visible"
  }

  function PostContent(p: Post): Json {
    Obj([Member("id", p.id), Member("title", p.title), Member("author", p.author), Member("createdUtc", p.createdUtc),
         Member("selftext", p.selftext), Member("permalink", p.permalink)])
  }

  function CommentContent(c: Comment): Json {
    Obj([Member("id", c.id), Member("author", c.author), Member("depth", Num(Whole(c.depth))),
         Member("parentId", c.parentId), Member("createdUtc", c.createdUtc), Member("body", c.body),
         Member("visibility", Str(VisibilityName(c.visibility)))])
  }

  function MoreContent(m: More): Json {
    Obj([Member("id", m.id), Member("parentId", m.parentId), Member("count", m.count),
         Member("childIds", Arr(m.childIds)), Member("depth", Num(Whole(m.depth)))])
  }

  function CommentContents(comments: seq<Comment>): seq<Json> {
    seq(|comments|, i requires 0 <= i < |comments| => CommentContent(comments[i]))
  }

  function MoreContents(mores: seq<More>): seq<Json> {
    seq(|mores|, i requires 0 <= i < |mores| => MoreContent(mores[i]))
  }

  function ContentJson(t: Thread): Json {
    Obj([Member("post", PostContent(t.post)), Member("comments", Arr(CommentContents(t.comments))),
         Member("unresolvedMore", Arr(MoreContents(t.unresolvedMore)))])
  }

  function ContentHash(t: Thread): string {
    ThreadDigest(CanonicalText(Python, ContentJson(t)))
  }

  // ----- what the hash leaves out -----

  /** Equal but for scores, ratios, reported counts and rendered timestamps. */
  ghost predicate SameButForVolatile(a: Thread, b: Thread) {
    && PostContent(a.post) == PostContent(b.post)
    && |a.comments| == |b.comments|
    && (forall i :: 0 <= i < |a.comments| ==>
          a.comments[i] == b.comments[i].(score := a.comments[i].score, createdIso := a.comments[i].createdIso,
                                          commentId := a.comments[i].commentId))
    && a.unresolvedMore == b.unresolvedMore
  }

  lemma VolatileFieldsAreExcluded(a: Thread, b: Thread)
    requires SameButForVolatile(a, b)
    ensures ContentHash(a) == ContentHash(b)
  {
    hide CanonicalText;
    forall i | 0 <= i < |a.comments| ensures CommentContents(a.comments)[i] == CommentContents(b.comments)[i] {
    }
    assert CommentContents(a.comments) == CommentContents(b.comments);
  }

  // ----- every value read from a well-formed payload is well formed -----

  lemma {:induction false} LookupWellFormed(members: seq<Member>, key: string)
    requires forall i :: 0 <= i < |members| ==> WellFormed(members[i].value)
    ensures Lookup(members, key).Some? ==> WellFormed(Lookup(members, key).value)
  {
  }

  ghost predicate Fine(v: Option<Json>) {
    v.Some? ==> WellFormed(v.value)
  }

  lemma GetIsFine(v: Json, key: string)
    requires WellFormed(v)
    ensures Fine(Get(v, key))
  {
    if v.Obj? {
      LookupWellFormed(v.members, key);
    }
  }

  lemma OfIsFine(v: Option<Json>, key: string)
    requires Fine(v)
    ensures Fine(Of(v, key))
  {
  }

  ghost predicate CommentFine(c: Comment) {
    WellFormed(c.id) && WellFormed(c.author) && WellFormed(c.parentId) && WellFormed(c.createdUtc) && WellFormed(c.body)
  }

  ghost predicate MoreFine(m: More) {
    && WellFormed(m.id) && WellFormed(m.parentId) && WellFormed(m.count)
    && forall i :: 0 <= i < |m.childIds| ==> WellFormed(m.childIds[i])
  }

  lemma CommentIsFine(item: Json, depth: int)
    requires WellFormed(item)
    ensures CommentFine(CommentOf(Python, item, depth))
  {
  }

  lemma MoreIsFine(item: Json, depth: int)
    requires WellFormed(item)
    ensures MoreFine(MoreOf(Python, item, depth))
  {
  }

  ghost predicate ForestFine(forest: seq<Reply>) {
    && (forall i :: 0 <= i < |Preorder(forest)| ==> CommentFine(Preorder(forest)[i]))
    && forall i :: 0 <= i < |Mores(forest)| ==> MoreFine(Mores(forest)[i])
  }

  lemma FineAppend(a: seq<Reply>, b: seq<Reply>)
    requires ForestFine(a) && ForestFine(b)
    ensures ForestFine(a + b)
  {
    hide CommentFine, MoreFine, Preorder, Mores;
    PreorderAppend(a, b);
    MoresAppend(a, b);
  }

  lemma SaidIsFine(c: Comment, replies: seq<Reply>)
    requires CommentFine(c) && ForestFine(replies)
    ensures ForestFine([Said(c, replies)])
  {
    hide CommentFine, MoreFine;
    ReadsOffOne([Said(c, replies)]);
  }

  lemma RepliesAreFine(child: Json)
    requires WellFormed(child)
    ensures Fine(Get(child, "data")) && Fine(RepliesUnder(child))
  {
    GetIsFine(child, "data");
    OfIsFine(Get(child, "data"), "replies");
    OfIsFine(Of(Get(child, "data"), "replies"), "data");
    OfIsFine(Of(Of(Get(child, "data"), "replies"), "data"), "children");
  }

  lemma {:induction false} ReplyIsFine(child: Json, depth: int)
    requires WellFormed(child)
    ensures ForestFine(ReplyFrom(Python, child, depth))
    decreases child
  {
    hide CommentOf, MoreOf, CommentFine, MoreFine, RepliesUnder, Forest, ForestFine;
    RepliesAreFine(child);
    NothingIsFine();
    if IsComment(Python, child) {
      var data, under := Get(child, "data").value, RepliesUnder(child);
      CommentIsFine(data, depth);
      if under.Some? {
        ForestIsFine(under.value.items, depth + 1);
        SaidIsFine(CommentOf(Python, data, depth), Forest(Python, under.value.items, depth + 1));
      } else {
        SaidIsFine(CommentOf(Python, data, depth), []);
      }
    } else if IsMore(Python, child) {
      MoreIsFine(Get(child, "data").value, depth);
      UnresolvedIsFine(MoreOf(Python, Get(child, "data").value, depth));
    }
  }

  lemma NothingIsFine()
    ensures ForestFine([])
  {
  }

  lemma UnresolvedIsFine(m: More)
    requires MoreFine(m)
    ensures ForestFine([Unresolved(m)])
  {
    hide MoreFine;
    ReadsOffOne([Unresolved(m)]);
  }

  lemma {:induction false} ForestIsFine(children: seq<Json>, depth: int)
    requires forall i :: 0 <= i < |children| ==> WellFormed(children[i])
    ensures ForestFine(Forest(Python, children, depth))
    decreases children
  {
    hide ForestFine, ReplyFrom;
    NothingIsFine();
    if children != [] {
      ReplyIsFine(children[0], depth);
      ForestIsFine(children[1..], depth);
      FineAppend(ReplyFrom(Python, children[0], depth), Forest(Python, children[1..], depth));
    }
  }

  // ----- the content of a normalized payload -----

  lemma ContentKeysDiffer()
    ensures |"id"| == 2 && |"title"| == |"depth"| == |"count"| == 5 && |"author"| == 6 && |"selftext"| == 8
    ensures |"createdUtc"| == |"visibility"| == 10 && |"permalink"| == 9 && |"body"| == |"post"| == 4
    ensures |"parentId"| == |"childIds"| == |"comments"| == 8 && |"unresolvedMore"| == 14
    ensures "createdUtc" != "visibility" && "parentId" != "childIds" && "count" != "depth"
  {
  }

  ghost predicate PostFine(p: Post) {
    && WellFormed(p.id) && WellFormed(p.title) && WellFormed(p.author) && WellFormed(p.createdUtc)
    && WellFormed(p.selftext) && WellFormed(p.permalink)
  }

  lemma PostContentIsFine(p: Post)
    requires PostFine(p)
    ensures WellFormed(PostContent(p))
  {
  }

  lemma CommentContentIsFine(c: Comment)
    requires CommentFine(c)
    ensures WellFormed(CommentContent(c))
  {
  }

  lemma MoreContentIsFine(m: More)
    requires MoreFine(m)
    ensures WellFormed(MoreContent(m))
  {
  }

  lemma ContentIsFine(t: Thread)
    requires PostFine(t.post)
    requires forall i :: 0 <= i < |t.comments| ==> CommentFine(t.comments[i])
    requires forall i :: 0 <= i < |t.unresolvedMore| ==> MoreFine(t.unresolvedMore[i])
    ensures WellFormed(ContentJson(t))
  {
    hide CommentFine, MoreFine, PostFine, CommentContent, MoreContent, PostContent;
    var comments, mores := CommentContents(t.comments), MoreContents(t.unresolvedMore);
    forall i | 0 <= i < |comments| ensures WellFormed(comments[i]) { CommentContentIsFine(t.comments[i]); }
    forall i | 0 <= i < |mores| ensures WellFormed(mores[i]) { MoreContentIsFine(t.unresolvedMore[i]); }
    PostContentIsFine(t.post);
    ContentKeysDiffer();
    assert DistinctKeys(ContentJson(t).members);
    assert WellFormed(Arr(comments)) && WellFormed(Arr(mores));
  }

  lemma PostIsFine(data: Json)
    requires WellFormed(data)
    ensures PostFine(PostOf(Python, data))
  {
  }

  lemma PayloadPartsAreFine(payload: Json)
    requires WellFormed(payload) && payload.Arr? && |payload.items| >= 2
    ensures Fine(PostData(Python, payload.items))
    ensures forall i :: 0 <= i < |CommentTrees(payload.items)| ==> WellFormed(CommentTrees(payload.items)[i])
  {
    hide Get;
    var first, second := payload.items[0], payload.items[1];
    GetIsFine(first, "data");
    OfIsFine(Get(first, "data"), "children");
    OfIsFine(FirstChild(Python, Of(Get(first, "data"), "children")), "data");
    GetIsFine(second, "data");
    OfIsFine(Get(second, "data"), "children");
  }

  lemma NormalizedContentIsFine(payload: Json)
    requires WellFormed(payload) && Normalize(Python, payload).Some?
    ensures WellFormed(ContentJson(Normalize(Python, payload).value))
  {
    hide PostFine, CommentFine, MoreFine, Forest, Preorder, Mores, PostOf, PostData, CommentTrees, ContentJson, Validate;
    var data, trees := PostData(Python, payload.items), CommentTrees(payload.items);
    PayloadPartsAreFine(payload);
    PostIsFine(data.value);
    ForestIsFine(trees, 0);
    ContentIsFine(Normalize(Python, payload).value);
  }

  lemma ContentListsUnresolved(t: Thread)
    ensures "unresolvedMore" in Meaning(ContentJson(t)).entries
    ensures Meaning(ContentJson(t)).entries["unresolvedMore"] == Meaning(Arr(MoreContents(t.unresolvedMore)))
  {
    hide CommentContents, MoreContents, PostContent, CommentContent, MoreContent;
    ContentKeysDiffer();
    var fields := ContentJson(t).members;
    assert DistinctKeys(fields) && fields[2].key == "unresolvedMore";
    EntriesOf(fields);
  }

  /** Two payloads with one content hash are both exhausted or both not. */
  lemma HashDecidesExhaustion(p: Json, q: Json)
    requires ThreadDigestIsInjective() && WellFormed(p) && WellFormed(q)
    requires Normalize(Python, p).Some? && Normalize(Python, q).Some?
    requires ContentHash(Normalize(Python, p).value) == ContentHash(Normalize(Python, q).value)
    ensures Normalize(Python, p).value.validation.exhausted == Normalize(Python, q).value.validation.exhausted
    ensures Meaning(ContentJson(Normalize(Python, p).value)) == Meaning(ContentJson(Normalize(Python, q).value))
  {
    hide ContentJson, CanonicalText, MoreContent, Meaning, WellFormed;
    var t, u := Normalize(Python, p).value, Normalize(Python, q).value;
    NormalizedContentIsFine(p);
    NormalizedContentIsFine(q);
    CanonicalTextIdentifiesData(Python, ContentJson(t), ContentJson(u));
    ContentListsUnresolved(t);
    ContentListsUnresolved(u);
    MeaningKeepsLength(MoreContents(t.unresolvedMore));
    MeaningKeepsLength(MoreContents(u.unresolvedMore));
    ExhaustedMeansNoMore(p);
    ExhaustedMeansNoMore(q);
  }

  lemma MeaningKeepsLength(items: seq<Json>)
    ensures Meaning(Arr(items)).List? && |Meaning(Arr(items)).elements| == |items|
  {
  }

  lemma ExhaustedMeansNoMore(p: Json)
    requires Normalize(Python, p).Some?
    ensures Normalize(Python, p).value.validation.exhausted <==> Normalize(Python, p).value.unresolvedMore == []
  {
  }
}
