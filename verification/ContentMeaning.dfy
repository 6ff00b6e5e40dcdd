/** What a content hash identifies, field by field. */
module ContentMeaning {
  import opened Options
  import opened Json
  import opened CanonicalJson
  import opened Threads
  import opened ThreadNormalization
  import opened ContentIdentity

  /** The two values say the same. */
  ghost predicate Alike(x: Json, y: Json) {
    Meaning(x) == Meaning(y)
  }

  ghost predicate SamePost(p: Post, q: Post) {
    && Alike(p.id, q.id) && Alike(p.title, q.title) && Alike(p.author, q.author) && Alike(p.createdUtc, q.createdUtc)
    && Alike(p.selftext, q.selftext) && Alike(p.permalink, q.permalink)
  }

  ghost predicate SameComment(c: Comment, d: Comment) {
    && Alike(c.id, d.id) && Alike(c.author, d.author) && c.depth == d.depth && Alike(c.parentId, d.parentId)
    && Alike(c.createdUtc, d.createdUtc) && Alike(c.body, d.body) && c.visibility == d.visibility
  }

  ghost predicate SameMore(m: More, n: More) {
    && Alike(m.id, n.id) && Alike(m.parentId, n.parentId) && Alike(m.count, n.count) && m.depth == n.depth
    && |m.childIds| == |n.childIds| && forall i :: 0 <= i < |m.childIds| ==> Alike(m.childIds[i], n.childIds[i])
  }

  /** The same post, the same comments and the same unresolved nodes, in order, but for scores, ratios, reported
      counts and rendered times. */
  ghost predicate SameContent(t: Thread, u: Thread) {
    && SamePost(t.post, u.post)
    && |t.comments| == |u.comments| && (forall i :: 0 <= i < |t.comments| ==> SameComment(t.comments[i], u.comments[i]))
    && |t.unresolvedMore| == |u.unresolvedMore|
    && forall i :: 0 <= i < |t.unresolvedMore| ==> SameMore(t.unresolvedMore[i], u.unresolvedMore[i])
  }

  // ----- objects and arrays -----

  lemma SameEntries(a: seq<Member>, b: seq<Member>)
    requires |a| == |b| && DistinctKeys(a) && DistinctKeys(b) && forall i :: 0 <= i < |a| ==> a[i].key == b[i].key
    requires forall i :: 0 <= i < |a| ==> Meaning(a[i].value) == Meaning(b[i].value)
    ensures Entries(a) == Entries(b)
  {
    EntriesOf(a);
    EntriesOf(b);
    hide Entries, DistinctKeys;
    forall k | k in Entries(a) ensures k in Entries(b) && Entries(a)[k] == Entries(b)[k] {
      var i :| 0 <= i < |a| && a[i].key == k;
    }
    forall k | k in Entries(b) ensures k in Entries(a) {
      var i :| 0 <= i < |b| && b[i].key == k;
    }
  }

  lemma SameKeys(a: seq<Member>, b: seq<Member>)
    requires |a| == |b| && DistinctKeys(a) && forall i :: 0 <= i < |a| ==> a[i].key == b[i].key
    ensures Alike(Obj(a), Obj(b)) <==> forall i :: 0 <= i < |a| ==> Alike(a[i].value, b[i].value)
  {
    assert DistinctKeys(b);
    EntriesOf(a);
    EntriesOf(b);
    hide Entries, DistinctKeys;
    if forall i :: 0 <= i < |a| ==> Alike(a[i].value, b[i].value) {
      SameEntries(a, b);
    }
  }

  lemma SameItems(x: seq<Json>, y: seq<Json>)
    ensures Alike(Arr(x), Arr(y)) <==> |x| == |y| && forall i :: 0 <= i < |x| ==> Alike(x[i], y[i])
  {
    var a, b := Meaning(Arr(x)).elements, Meaning(Arr(y)).elements;
    assert |a| == |x| && |b| == |y|;
    assert forall i :: 0 <= i < |x| ==> a[i] == Meaning(x[i]);
    assert forall i :: 0 <= i < |y| ==> b[i] == Meaning(y[i]);
    if |x| == |y| && forall i :: 0 <= i < |x| ==> Alike(x[i], y[i]) {
      assert a == b;
    }
  }

  lemma SameScalars(i: int, j: int, v: Visibility, w: Visibility)
    ensures Alike(Num(Whole(i)), Num(Whole(j))) <==> i == j
    ensures Alike(Str(VisibilityName(v)), Str(VisibilityName(w))) <==> v == w
  {
    assert "deleted"[0] == 'd' && "removed"[0] == 'r' && "visible"[0] == 'v';
  }

  lemma PostsAlike(p: Post, q: Post)
    ensures Alike(PostContent(p), PostContent(q)) <==> SamePost(p, q)
  {
    var a, b := PostContent(p).members, PostContent(q).members;
    ContentKeysDiffer();
    SameKeys(a, b);
    hide Alike, DistinctKeys;
    assert a[0].value == p.id && a[1].value == p.title && a[2].value == p.author && a[3].value == p.createdUtc
      && a[4].value == p.selftext && a[5].value == p.permalink;
    assert b[0].value == q.id && b[1].value == q.title && b[2].value == q.author && b[3].value == q.createdUtc
      && b[4].value == q.selftext && b[5].value == q.permalink;
  }

  lemma CommentsAlike(c: Comment, d: Comment)
    ensures Alike(CommentContent(c), CommentContent(d)) <==> SameComment(c, d)
  {
    hide Alike, DistinctKeys, VisibilityName, CommentContent;
    CommentFields(c, d);
    SameKeys(CommentContent(c).members, CommentContent(d).members);
    SameScalars(c.depth, d.depth, c.visibility, d.visibility);
  }

  lemma CommentFields(c: Comment, d: Comment)
    ensures CommentContent(c).Obj? && CommentContent(d).Obj?
    ensures
      var a, b := CommentContent(c).members, CommentContent(d).members;
      && |a| == 7 == |b| && DistinctKeys(a) && (forall i :: 0 <= i < 7 ==> a[i].key == b[i].key)
      && a[0].value == c.id && a[1].value == c.author && a[2].value == Num(Whole(c.depth))
      && a[3].value == c.parentId && a[4].value == c.createdUtc && a[5].value == c.body
      && a[6].value == Str(VisibilityName(c.visibility))
      && b[0].value == d.id && b[1].value == d.author && b[2].value == Num(Whole(d.depth))
      && b[3].value == d.parentId && b[4].value == d.createdUtc && b[5].value == d.body
      && b[6].value == Str(VisibilityName(d.visibility))
  {
    hide VisibilityName;
    ContentKeysDiffer();
  }

  lemma MoresAlike(m: More, n: More)
    ensures Alike(MoreContent(m), MoreContent(n)) <==> SameMore(m, n)
  {
    var a, b := MoreContent(m).members, MoreContent(n).members;
    ContentKeysDiffer();
    SameKeys(a, b);
    SameScalars(m.depth, n.depth, Visible, Visible);
    SameItems(m.childIds, n.childIds);
    hide Alike, DistinctKeys;
    assert a[0].value == m.id && a[1].value == m.parentId && a[2].value == m.count
      && a[3].value == Arr(m.childIds) && a[4].value == Num(Whole(m.depth));
    assert b[0].value == n.id && b[1].value == n.parentId && b[2].value == n.count
      && b[3].value == Arr(n.childIds) && b[4].value == Num(Whole(n.depth));
  }

  lemma ContentsAlike(t: Thread, u: Thread)
    ensures Alike(ContentJson(t), ContentJson(u)) <==> SameContent(t, u)
  {
    var a, b := ContentJson(t).members, ContentJson(u).members;
    ContentKeysDiffer();
    SameKeys(a, b);
    PostsAlike(t.post, u.post);
    SameItems(CommentContents(t.comments), CommentContents(u.comments));
    SameItems(MoreContents(t.unresolvedMore), MoreContents(u.unresolvedMore));
    forall i | 0 <= i < |t.comments| && i < |u.comments|
      ensures Alike(CommentContents(t.comments)[i], CommentContents(u.comments)[i]) <==> SameComment(t.comments[i], u.comments[i])
    {
      CommentsAlike(t.comments[i], u.comments[i]);
    }
    forall i | 0 <= i < |t.unresolvedMore| && i < |u.unresolvedMore|
      ensures Alike(MoreContents(t.unresolvedMore)[i], MoreContents(u.unresolvedMore)[i]) <==>
        SameMore(t.unresolvedMore[i], u.unresolvedMore[i])
    {
      MoresAlike(t.unresolvedMore[i], u.unresolvedMore[i]);
    }
    hide Alike, DistinctKeys, SamePost, SameComment, SameMore, PostContent, CommentContent, MoreContent;
    assert a[0].value == PostContent(t.post) && a[1].value == Arr(CommentContents(t.comments))
      && a[2].value == Arr(MoreContents(t.unresolvedMore));
    assert b[0].value == PostContent(u.post) && b[1].value == Arr(CommentContents(u.comments))
      && b[2].value == Arr(MoreContents(u.unresolvedMore));
  }

  /** Two payloads have one content hash exactly when their threads have the same content. */
  lemma HashIdentifiesContent(p: Json, q: Json)
    requires ThreadDigestIsInjective() && WellFormed(p) && WellFormed(q)
    requires Normalize(Python, p).Some? && Normalize(Python, q).Some?
    ensures
      var t, u := Normalize(Python, p).value, Normalize(Python, q).value;
      ContentHash(t) == ContentHash(u) <==> SameContent(t, u)
  {
    var t, u := Normalize(Python, p).value, Normalize(Python, q).value;
    NormalizedContentIsFine(p);
    NormalizedContentIsFine(q);
    hide ContentJson, CanonicalText, WellFormed, SameContent, Normalize;
    CanonicalTextIdentifiesData(Python, ContentJson(t), ContentJson(u));
    ContentsAlike(t, u);
  }

  // ----- the names it is hashed under -----

  ghost predicate Says(d: Data, name: string, v: Json) {
    d.Dict? && name in d.entries && d.entries[name] == Meaning(v)
  }

  lemma MembersSay(members: seq<Member>)
    requires DistinctKeys(members)
    ensures forall i :: 0 <= i < |members| ==> Says(Meaning(Obj(members)), members[i].key, members[i].value)
  {
    EntriesOf(members);
  }

  lemma PostNames(p: Post)
    ensures
      var d := Meaning(PostContent(p));
      && Says(d, "id", p.id) && Says(d, "title", p.title) && Says(d, "author", p.author)
      && Says(d, "createdUtc", p.createdUtc) && Says(d, "selftext", p.selftext) && Says(d, "permalink", p.permalink)
  {
    var a := PostContent(p).members;
    ContentKeysDiffer();
    MembersSay(a);
    hide Says, DistinctKeys;
    assert a[0] == Member("id", p.id) && a[1] == Member("title", p.title) && a[2] == Member("author", p.author);
    assert a[3] == Member("createdUtc", p.createdUtc) && a[4] == Member("selftext", p.selftext);
    assert a[5] == Member("permalink", p.permalink);
  }

  lemma CommentNames(c: Comment)
    ensures
      var d := Meaning(CommentContent(c));
      var seen := match c.visibility case Deleted => "deleted" case Removed => "removed" case Visible => "visible";
      && Says(d, "id", c.id) && Says(d, "author", c.author) && Says(d, "depth", Num(Whole(c.depth)))
      && Says(d, "parentId", c.parentId) && Says(d, "createdUtc", c.createdUtc) && Says(d, "body", c.body)
      && Says(d, "visibility", Str(seen))
  {
    var a := CommentContent(c).members;
    ContentKeysDiffer();
    MembersSay(a);
    hide Says, DistinctKeys;
    assert a[0] == Member("id", c.id) && a[1] == Member("author", c.author) && a[2] == Member("depth", Num(Whole(c.depth)));
    assert a[3] == Member("parentId", c.parentId) && a[4] == Member("createdUtc", c.createdUtc);
    assert a[5] == Member("body", c.body) && a[6] == Member("visibility", Str(VisibilityName(c.visibility)));
  }

  lemma MoreNames(m: More)
    ensures
      var d := Meaning(MoreContent(m));
      && Says(d, "id", m.id) && Says(d, "parentId", m.parentId) && Says(d, "count", m.count)
      && Says(d, "childIds", Arr(m.childIds)) && Says(d, "depth", Num(Whole(m.depth)))
  {
    var a := MoreContent(m).members;
    ContentKeysDiffer();
    MembersSay(a);
    hide Says, DistinctKeys;
    assert a[0] == Member("id", m.id) && a[1] == Member("parentId", m.parentId) && a[2] == Member("count", m.count);
    assert a[3] == Member("childIds", Arr(m.childIds)) && a[4] == Member("depth", Num(Whole(m.depth)));
  }

  /** The hashed record is a dictionary of the post, the comments in order and the unresolved nodes in order. */
  lemma ContentNames(t: Thread)
    ensures
      var d := Meaning(ContentJson(t));
      && d.Dict? && d.entries.Keys == {"post", "comments", "unresolvedMore"}
      && d.entries["post"] == Meaning(PostContent(t.post))
      && d.entries["comments"].List? && |d.entries["comments"].elements| == |t.comments|
      && (forall i :: 0 <= i < |t.comments| ==> d.entries["comments"].elements[i] == Meaning(CommentContent(t.comments[i])))
      && d.entries["unresolvedMore"].List? && |d.entries["unresolvedMore"].elements| == |t.unresolvedMore|
      && (forall i :: 0 <= i < |t.unresolvedMore| ==>
            d.entries["unresolvedMore"].elements[i] == Meaning(MoreContent(t.unresolvedMore[i])))
  {
    hide PostContent, CommentContent, MoreContent;
    var a := ContentJson(t).members;
    ContentKeysDiffer();
    EntriesOf(a);
    hide Entries;
    assert a[0] == Member("post", PostContent(t.post)) && a[1] == Member("comments", Arr(CommentContents(t.comments)));
    assert a[2] == Member("unresolvedMore", Arr(MoreContents(t.unresolvedMore)));
  }
}
