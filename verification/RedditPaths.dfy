/** Which paths are thread URLs, written out over the path as one text. */
module RedditPaths {
  import opened Options
  import opened RedditUrls

  /** The path as one text: a slash before each segment. */
  function Joined(path: seq<string>): string {
    if path == [] then "" else "/" + path[0] + Joined(path[1..])
  }

  lemma {:induction false} JoinedAppend(a: seq<string>, b: seq<string>)
    ensures Joined(a + b) == Joined(a) + Joined(b)
  {
    if a == [] {
      assert a + b == b;
    } else {
      JoinedAppend(a[1..], b);
      assert (a + b)[1..] == a[1..] + b;
      assert "/" + a[0] + (Joined(a[1..]) + Joined(b)) == "/" + a[0] + Joined(a[1..]) + Joined(b);
    }
  }

  /** The text ends in this word, whatever its case. */
  predicate EndsIn(s: string, word: string) {
    |word| <= |s| && LowerCase(s[|s| - |word|..]) == word
  }

  predicate SlashFree(path: seq<string>) {
    forall i, k :: 0 <= i < |path| && 0 <= k < |path[i]| ==> path[i][k] != '/'
  }

  // ----- removing the suffix -----

  lemma LowerAt(s: string, k: nat)
    requires k < |s|
    ensures LowerCase(s)[k] == Lower(s[k]) && (LowerCase(s)[k] == '/' <==> s[k] == '/')
  {
  }

  /** A word without a slash ends the path exactly when it ends the last segment. */
  lemma EndsInLast(front: string, last: string, word: string)
    requires word != "" && forall k :: 0 <= k < |word| ==> word[k] != '/'
    ensures EndsIn(front + "/" + last, word) <==> EndsIn(last, word)
  {
    var s := front + "/" + last;
    if |word| <= |last| {
      assert s[|s| - |word|..] == last[|last| - |word|..];
    } else if |word| <= |s| {
      var end, k := s[|s| - |word|..], |word| - |last| - 1;
      assert end[k] == '/';
      LowerAt(end, k);
    }
  }

  lemma JoinedLast(path: seq<string>)
    requires path != []
    ensures Joined(path) == Joined(path[..|path| - 1]) + "/" + path[|path| - 1]
  {
    hide Joined;
    var init, last := path[..|path| - 1], path[|path| - 1];
    JoinedAppend(init, [last]);
    assert path == init + [last];
    JoinedOne(last);
    Associates(Joined(init), "/", last);
  }

  lemma Associates(a: string, b: string, c: string)
    ensures a + (b + c) == a + b + c
  {
  }

  lemma JoinedOne(segment: string)
    ensures Joined([segment]) == "/" + segment
  {
    assert [segment][1..] == [] && "/" + segment + "" == "/" + segment;
  }

  const SUFFIX := ".json"

  lemma JsonEnds(s: string)
    ensures EndsInJson(s) <==> EndsIn(s, SUFFIX)
  {
  }

  /** With a slash after it, the suffix ends the path exactly when the last segment is empty and the suffix
      ends the one before. */
  lemma EndsInSlashed(path: seq<string>)
    requires path != [] && SlashFree(path)
    ensures EndsIn(Joined(path), SUFFIX + "/") <==> |path| > 1 && path[|path| - 1] == "" && EndsInJson(path[|path| - 2])
  {
    var init, last := path[..|path| - 1], path[|path| - 1];
    JoinedLast(path);
    hide EndsIn, EndsInJson, Joined;
    if last != "" {
      assert forall k :: 0 <= k < |last| ==> last[k] != '/';
      NotSlashed(Joined(init) + "/", last);
    } else {
      assert Joined(init) + "/" + last == Joined(init) + "/";
      SlashedSuffix(Joined(init));
      JsonEndsInit(init);
    }
  }

  lemma NotSlashed(front: string, last: string)
    requires last != "" && forall k :: 0 <= k < |last| ==> last[k] != '/'
    ensures !EndsIn(front + last, SUFFIX + "/")
  {
    var s := front + last;
    if EndsIn(s, SUFFIX + "/") {
      LowerAt(s[|s| - 6..], 5);
    }
  }

  lemma JsonEndsInit(init: seq<string>)
    ensures EndsIn(Joined(init), SUFFIX) <==> init != [] && EndsInJson(init[|init| - 1])
  {
    if init != [] {
      JoinedLast(init);
      hide Joined;
      EndsInLast(Joined(init[..|init| - 1]), init[|init| - 1], SUFFIX);
      JsonEnds(init[|init| - 1]);
    }
  }

  lemma SlashedSuffix(s: string)
    ensures EndsIn(s + "/", SUFFIX + "/") <==> EndsIn(s, SUFFIX)
  {
    var t := s + "/";
    if |s| >= 5 {
      var end := t[|t| - 6..];
      assert end == s[|s| - 5..] + "/";
      assert LowerCase(end) == LowerCase(s[|s| - 5..]) + "/";
      assert LowerCase(end)[..5] == LowerCase(s[|s| - 5..]) && (SUFFIX + "/")[..5] == SUFFIX;
    }
  }

  /** Stripping removes a final ".json" or ".json/" of the path, in any case, and nothing else. */
  lemma StripsSuffix(path: seq<string>)
    requires path != [] && SlashFree(path)
    ensures
      var s, t := Joined(path), Joined(WithoutJson(path));
      if EndsIn(s, ".json") then t == s[..|s| - 5]
      else if EndsIn(s, ".json/") then t == s[..|s| - 6]
      else t == s
  {
    var init, last := path[..|path| - 1], path[|path| - 1];
    JsonEndsInit(path);
    EndsInSlashed(path);
    assert SUFFIX + "/" == ".json/";
    StemsExactly(path);
    hide *;
  }

  lemma StemsExactly(path: seq<string>)
    requires path != []
    ensures
      var n, s, t := |path|, Joined(path), Joined(WithoutJson(path));
      if EndsInJson(path[n - 1]) then |s| >= 5 && t == s[..|s| - 5]
      else if n > 1 && path[n - 1] == "" && EndsInJson(path[n - 2]) then |s| >= 6 && t == s[..|s| - 6]
      else t == s
  {
    var n := |path|;
    var init, last := path[..n - 1], path[n - 1];
    JoinedLast(path);
    hide Joined, EndsInJson;
    if EndsInJson(last) {
      LongEnough(last);
      Restemmed(init, last);
    } else if last == "" && n > 1 && EndsInJson(path[n - 2]) {
      LongEnough(path[n - 2]);
      SlashedStem(path);
    }
  }

  lemma LongEnough(s: string)
    ensures EndsInJson(s) ==> |s| >= 5
  {
  }

  lemma SlashedStem(path: seq<string>)
    requires |path| > 1 && path[|path| - 1] == "" && |path[|path| - 2]| >= 5
    ensures
      var n, s := |path|, Joined(path);
      |s| >= 6 && Joined(path[..n - 2] + [path[n - 2][..|path[n - 2]| - 5]]) == s[..|s| - 6]
  {
    var n := |path|;
    var init := path[..n - 1];
    JoinedLast(path);
    JoinedLast(init);
    hide Joined;
    assert init[..n - 2] == path[..n - 2] && init[n - 2] == path[n - 2];
    Restemmed(path[..n - 2], path[n - 2]);
  }

  lemma Restemmed(init: seq<string>, last: string)
    requires |last| >= 5
    ensures
      var s := Joined(init) + "/" + last;
      Joined(init + [last[..|last| - 5]]) == s[..|s| - 5]
  {
    hide Joined;
    var stem := last[..|last| - 5];
    JoinedLast(init + [stem]);
    assert (init + [stem])[..|init|] == init;
    CutsAtTheEnd(Joined(init) + "/", last);
  }

  lemma CutsAtTheEnd(s: string, last: string)
    requires |last| >= 5
    ensures (s + last)[..|s + last| - 5] == s + last[..|last| - 5]
  {
  }

  // ----- matching -----

  /** Optionally "r" and a subreddit, then "comments", a post id, and optionally a slug, with or without a final
      slash; words and id in any case, the id kept in lower case. */
  ghost predicate ThreadShape(path: seq<string>, c: Canonical) {
    exists front: seq<string>, word: string, id: string, end: seq<string> ::
      Shape(path, c, front, word, id, end)
  }

  predicate Shape(path: seq<string>, c: Canonical, front: seq<string>, word: string, id: string, end: seq<string>) {
    && path == front + [word, id] + end
    && LowerCase(word) == "comments" && IsPostId(id) && c.postId == LowerCase(id)
    && (if front == [] then c.subreddit == None
        else |front| == 2 && LowerCase(front[0]) == "r" && front[1] != "" && c.subreddit == Some(front[1]))
    && (if end == [] || end == [""] then c.slug == "_"
        else (|end| == 1 || (|end| == 2 && end[1] == "")) && IsSlug(end[0]) && c.slug == end[0])
  }

  /** A path canonicalizes exactly when it has that shape once stripped, and to what its parts say. */
  lemma CanonicalizesExactly(path: seq<string>, c: Canonical)
    requires path != []
    ensures Canonicalize(path) == Some(c) <==> ThreadShape(WithoutJson(path), c)
  {
    hide WithoutJson;
    var stripped := WithoutJson(path);
    if Canonicalize(path) == Some(c) { MatchHasShape(stripped, c); }
    if ThreadShape(stripped, c) { ShapeMatches(stripped, c); }
  }

  lemma MatchHasShape(path: seq<string>, c: Canonical)
    requires MatchThread(path) == Some(c)
    ensures ThreadShape(path, c)
  {
    hide IsPostId, IsSlug, LowerCase;
    var front := if |path| >= 2 && Is(path[0], "r") && path[1] != "" then path[..2] else [];
    var tail := path[|front|..];
    assert path == front + [tail[0], tail[1]] + tail[2..];
    assert Shape(path, c, front, tail[0], tail[1], tail[2..]);
  }

  lemma ShapeMatches(path: seq<string>, c: Canonical)
    requires ThreadShape(path, c)
    ensures MatchThread(path) == Some(c)
  {
    var front, word, id, end :| Shape(path, c, front, word, id, end);
    var tail := path[|front|..];
    assert tail == [word, id] + end && tail[2..] == end;
    hide IsPostId, IsSlug;
    assert |"comments"| == 8 && |"r"| == 1;
    hide LowerCase;
    if front == [] { assert path == tail; }
  }

  // ----- characters and dots -----

  /** The capitals are those of ASCII, a post id is ASCII letters and digits, and white space is ECMAScript's. */
  lemma CharactersExactly(c: char, id: string)
    ensures
      var code := c as int;
      && Lower(c) as int == (if 65 <= code < 91 then code + 32 else code)
      && (IsWhite(c) <==> code in {9, 10, 11, 12, 13, 32, 160, 5760, 8192, 8193, 8194, 8195, 8196, 8197, 8198, 8199, 8200,
                                   8201, 8202, 8232, 8233, 8239, 8287, 12288, 65279})
    ensures IsPostId(id) <==> id != "" && forall i :: 0 <= i < |id| ==>
      var code := id[i] as int;
      48 <= code < 58 || 65 <= code < 91 || 97 <= code < 123
  {
  }

  /** The dot segments: one or two dots, each of which may be percent-encoded in either case. */
  predicate Dot(s: string) {
    s == "." || s == "%2e" || s == "%2E"
  }

  lemma DotsExactly(s: string)
    ensures SingleDot(s) <==> Dot(s)
    ensures DoubleDot(s) <==> exists i :: 0 <= i <= |s| && Dot(s[..i]) && Dot(s[i..])
  {
    SpelledDots();
    hide SingleDot, DoubleDot;
    if SingleDot(s) { SpelledAsDot(s); }
    if DoubleDot(s) { SpelledAsDots(s); }
    if i :| 0 <= i <= |s| && Dot(s[..i]) && Dot(s[i..]) { DotsSpell(s[..i], s[i..]); assert s == s[..i] + s[i..]; }
  }

  lemma SpelledDots()
    ensures SingleDot(".") && SingleDot("%2e") && SingleDot("%2E")
  {
    assert LowerCase("%2E") == "%2e" && LowerCase("%2e") == "%2e" && LowerCase(".") == ".";
  }

  lemma LowerIsOneOf(s: string, k: nat)
    requires k < |s|
    ensures LowerCase(s)[k] == '.' ==> s[k] == '.'
    ensures LowerCase(s)[k] == '%' ==> s[k] == '%'
    ensures LowerCase(s)[k] == '2' ==> s[k] == '2'
    ensures LowerCase(s)[k] == 'e' ==> s[k] == 'e' || s[k] == 'E'
  {
  }

  lemma SpelledAsDot(s: string)
    requires SingleDot(s)
    ensures Dot(s)
  {
    var low := LowerCase(s);
    LowerIsOneOf(s, 0);
    if |s| == 3 {
      LowerIsOneOf(s, 1);
      LowerIsOneOf(s, 2);
      assert s == [s[0], s[1], s[2]];
    } else {
      assert s == [s[0]];
    }
  }

  lemma LowerSplits(a: string, b: string)
    ensures LowerCase(a + b) == LowerCase(a) + LowerCase(b)
  {
  }

  lemma SpelledAsDots(s: string)
    requires DoubleDot(s)
    ensures exists i :: 0 <= i <= |s| && Dot(s[..i]) && Dot(s[i..])
  {
    var i := if LowerCase(s)[0] == '.' then 1 else 3;
    assert s == s[..i] + s[i..];
    LowerSplits(s[..i], s[i..]);
    assert LowerCase(s)[..i] == LowerCase(s[..i]) && LowerCase(s)[i..] == LowerCase(s[i..]);
    assert ".."[..1] == "." && ".."[1..] == "." && ".%2e"[..1] == "." && ".%2e"[1..] == "%2e";
    assert "%2e."[..3] == "%2e" && "%2e."[3..] == "." && "%2e%2e"[..3] == "%2e" && "%2e%2e"[3..] == "%2e";
    assert SingleDot(s[..i]) && SingleDot(s[i..]);
    SpelledAsDot(s[..i]);
    SpelledAsDot(s[i..]);
  }

  lemma DotsSpell(a: string, b: string)
    requires Dot(a) && Dot(b)
    ensures DoubleDot(a + b)
  {
    LowerSplits(a, b);
    assert LowerCase("%2E") == "%2e" && LowerCase("%2e") == "%2e" && LowerCase(".") == ".";
    hide LowerCase;
  }

  /** Parsing drops a single dot, and with a double dot the segment before it; at the end either leaves a slash. */
  lemma DotsAreDropped(kept: seq<string>, segment: string, dot: string, rest: seq<string>)
    requires forall i :: 0 <= i < |kept| ==> !SingleDot(kept[i]) && !DoubleDot(kept[i])
    requires !SingleDot(segment) && !DoubleDot(segment)
    ensures SingleDot(dot) && !DoubleDot(dot) ==>
      Parse([], kept + [segment] + [dot] + rest) == Parse(kept + [segment], if rest == [] then [""] else rest)
    ensures DoubleDot(dot) ==>
      Parse([], kept + [segment] + [dot] + rest) == Parse(kept, if rest == [] then [""] else rest)
  {
    var front, end := kept + [segment], [dot] + rest;
    assert kept + [segment] + [dot] + rest == front + end && [] + front == front && end[1..] == rest;
    ParseSplits([], front, end);
    WordsAreNotDots();
    ReparsedEnd(front, kept);
    assert front[..|front| - 1] == kept && kept + [] == kept && front + [] == front;
    hide SingleDot, DoubleDot;
  }
}
