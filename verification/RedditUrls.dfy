/**
 * Canonical thread URLs and the candidate list. A parsed URL's path is its segments after the leading
 * slash; parsing itself (host, percent-encoding) is the platform's.
 */
module RedditUrls {
  import opened Options

  // ----- one path -----

  function Lower(c: char): char {
    if 'A' <= c <= 'Z' then c - 'A' + 'a' else c
  }

  function LowerCase(s: string): (r: string)
    ensures |r| == |s|
  {
    seq(|s|, i requires 0 <= i < |s| => Lower(s[i]))
  }

  predicate Is(s: string, word: string) {
    LowerCase(s) == word
  }

  /** Dot segments as URL parsing recognizes them. */
  predicate SingleDot(s: string) {
    Is(s, ".") || Is(s, "%2e")
  }

  predicate DoubleDot(s: string) {
    Is(s, "..") || Is(s, ".%2e") || Is(s, "%2e.") || Is(s, "%2e%2e")
  }

  /** A parsed path has at least one segment and no dot segments. */
  predicate Parsed(path: seq<string>) {
    path != [] && forall i :: 0 <= i < |path| ==> !SingleDot(path[i]) && !DoubleDot(path[i])
  }

  /** Removing dot segments, as URL parsing does from the front; a dot segment at the end leaves a slash. */
  function Parse(done: seq<string>, path: seq<string>): seq<string>
    decreases |path|
  {
    if path == [] then done
    else
      var end := if |path| == 1 then [""] else [];
      if DoubleDot(path[0]) then Parse((if done == [] then [] else done[..|done| - 1]) + end, path[1..])
      else if SingleDot(path[0]) then Parse(done + end, path[1..])
      else Parse(done + [path[0]], path[1..])
  }

  predicate EndsInJson(s: string) {
    |s| >= 5 && Is(s[|s| - 5..], ".json")
  }

  /** Without a final ".json" or ".json/". */
  function WithoutJson(path: seq<string>): seq<string>
    requires path != []
  {
    var n := |path|;
    var last := path[n - 1];
    if EndsInJson(last) then path[..n - 1] + [last[..|last| - 5]]
    else if last == "" && n > 1 && EndsInJson(path[n - 2]) then
      path[..n - 2] + [path[n - 2][..|path[n - 2]| - 5]]
    else path
  }

  predicate IsPostId(s: string) {
    s != "" && forall i :: 0 <= i < |s| ==> 'a' <= Lower(s[i]) <= 'z' || '0' <= s[i] <= '9'
  }

  predicate IsSlug(s: string) {
    s != "" && '?' !in s && '#' !in s
  }

  datatype Canonical = Canonical(subreddit: Option<string>, postId: string, slug: string)

  /** "comments", a post id, and optionally a slug and a final slash. */
  function MatchTail(subreddit: Option<string>, tail: seq<string>): Option<Canonical> {
    if |tail| < 2 || !Is(tail[0], "comments") || !IsPostId(tail[1]) then None
    else
      var id := LowerCase(tail[1]);
      if |tail| == 2 || (|tail| == 3 && tail[2] == "") then Some(Canonical(subreddit, id, "_"))
      else if IsSlug(tail[2]) && (|tail| == 3 || (|tail| == 4 && tail[3] == "")) then
        Some(Canonical(subreddit, id, tail[2]))
      else None
  }

  function MatchThread(path: seq<string>): Option<Canonical> {
    if |path| >= 2 && Is(path[0], "r") && path[1] != "" then MatchTail(Some(path[1]), path[2..])
    else MatchTail(None, path)
  }

  /** None where the source throws. */
  function Canonicalize(path: seq<string>): Option<Canonical>
    requires path != []
  {
    MatchThread(WithoutJson(path))
  }

  function ExternalSourceId(c: Canonical): string {
    "t3_" + c.postId
  }

  /** The path of the canonical URL, before it is parsed again. */
  function CanonicalPath(c: Canonical): seq<string> {
    (if c.subreddit.Some? then ["r", c.subreddit.value] else []) + ["comments", c.postId, c.slug, ""]
  }

  // ----- canonicalizing twice -----

  lemma {:induction false} ParseKeeps(done: seq<string>, path: seq<string>)
    requires forall i :: 0 <= i < |path| ==> !SingleDot(path[i]) && !DoubleDot(path[i])
    ensures Parse(done, path) == done + path
    decreases |path|
  {
    hide SingleDot, DoubleDot;
    if path == [] {
      assert done + path == done;
    } else {
      ParseKeeps(done + [path[0]], path[1..]);
      assert done + [path[0]] + path[1..] == done + path;
    }
  }

  lemma {:induction false} ParseSplits(done: seq<string>, a: seq<string>, b: seq<string>)
    requires b != [] && forall i :: 0 <= i < |a| ==> !SingleDot(a[i]) && !DoubleDot(a[i])
    ensures Parse(done, a + b) == Parse(done + a, b)
    decreases |a|
  {
    hide SingleDot, DoubleDot;
    if a == [] {
      assert a + b == b && done + a == done;
    } else {
      assert (a + b)[0] == a[0] && (a + b)[1..] == a[1..] + b;
      ParseSplits(done + [a[0]], a[1..], b);
      assert done + [a[0]] + a[1..] == done + a;
    }
  }

  lemma WordsAreNotDots()
    ensures !SingleDot("r") && !DoubleDot("r") && !SingleDot("comments") && !DoubleDot("comments")
    ensures !SingleDot("") && !DoubleDot("")
    ensures Is("r", "r") && Is("comments", "comments") && !Is("comments", "r")
  {
    var r, c := LowerCase("r"), LowerCase("comments");
    assert r[0] == 'r' && c[0] == 'c' && |c| == 8;
    assert r == "r" && c == "comments";
    assert "%2e%2e"[0] == '%' && "."[0] == '.' && |"%2e%2e"| == 6;
  }

  lemma PostIdIsNotDots(id: string)
    requires IsPostId(id)
    ensures !SingleDot(id) && !DoubleDot(id)
    ensures IsPostId(LowerCase(id)) && LowerCase(LowerCase(id)) == LowerCase(id)
  {
    var low := LowerCase(id);
    assert low[0] == Lower(id[0]);
    assert "."[0] == '.' && "%2e"[0] == '%' && ".."[0] == '.' && ".%2e"[0] == '.' && "%2e."[0] == '%' && "%2e%2e"[0] == '%';
    assert forall i :: 0 <= i < |low| ==> LowerCase(low)[i] == low[i];
  }

  /** What a match says about its parts. */
  lemma MatchedParts(path: seq<string>)
    requires Parsed(path) && Canonicalize(path).Some?
    ensures
      var c := Canonicalize(path).value;
      && IsPostId(c.postId) && LowerCase(c.postId) == c.postId && IsSlug(c.slug)
      && (c.subreddit.Some? ==> c.subreddit.value != "" && !SingleDot(c.subreddit.value) && !DoubleDot(c.subreddit.value))
  {
    hide SingleDot, DoubleDot, EndsInJson, Is;
    var stripped := WithoutJson(path);
    var tail := if |stripped| >= 2 && Is(stripped[0], "r") && stripped[1] != "" then stripped[2..] else stripped;
    PostIdIsNotDots(tail[1]);
    UnderscoreIsSlug();
    if |stripped| > 2 {
      assert stripped[1] == path[1];
    }
  }

  lemma UnderscoreIsSlug()
    ensures IsSlug("_")
  {
  }

  /** Parsing a canonical URL: a double-dot slug takes the post id away, a single dot only itself. */
  lemma CanonicalReparses(c: Canonical)
    requires IsPostId(c.postId)
    requires c.subreddit.Some? ==> !SingleDot(c.subreddit.value) && !DoubleDot(c.subreddit.value)
    ensures
      var head := (if c.subreddit.Some? then ["r", c.subreddit.value] else []) + ["comments"];
      Parse([], CanonicalPath(c)) ==
        if DoubleDot(c.slug) then head + [""]
        else if SingleDot(c.slug) then head + [c.postId, ""]
        else head + [c.postId, c.slug, ""]
  {
    hide SingleDot, DoubleDot, IsPostId;
    WordsAreNotDots();
    PostIdIsNotDots(c.postId);
    var head := (if c.subreddit.Some? then ["r", c.subreddit.value] else []) + ["comments"];
    var kept, rest := head + [c.postId], [c.slug, ""];
    assert CanonicalPath(c) == kept + rest;
    assert forall i :: 0 <= i < |kept| ==> !SingleDot(kept[i]) && !DoubleDot(kept[i]);
    ParseSplits([], kept, rest);
    assert [] + kept == kept;
    assert rest[1..] == [""];
    ReparsedEnd(head, kept);
    if DoubleDot(c.slug) {
      assert kept[..|kept| - 1] + [] == head;
      assert Parse(kept, rest) == Parse(head, [""]);
    } else if SingleDot(c.slug) {
      assert kept + [] == kept;
      assert Parse(kept, rest) == Parse(kept, [""]);
    } else {
      assert Parse(kept, rest) == Parse(kept + [c.slug], [""]);
      ParseKeeps(kept + [c.slug], [""]);
    }
  }

  lemma ReparsedEnd(head: seq<string>, kept: seq<string>)
    ensures Parse(head, [""]) == head + [""] && Parse(kept, [""]) == kept + [""]
  {
  }

  lemma NoJson()
    ensures !EndsInJson("") && !EndsInJson("comments")
    ensures forall id :: IsPostId(id) ==> !EndsInJson(id)
  {
    assert "comments"[3..] == "ments" && LowerCase("ments")[0] == 'm' && ".json"[0] == '.';
    forall id | IsPostId(id) ensures !EndsInJson(id) {
      if |id| >= 5 {
        assert LowerCase(id[|id| - 5..])[0] == Lower(id[|id| - 5]);
        assert ".json"[0] == '.';
      }
    }
  }

  /** What may follow a post id in a matching path. */
  predicate MatchingEnd(rest: seq<string>) {
    rest == [""] || (1 <= |rest| <= 2 && IsSlug(rest[0]) && (|rest| == 2 ==> rest[1] == ""))
  }

  lemma StrippingKeepsEnd(front: seq<string>, rest: seq<string>) returns (kept: seq<string>)
    requires front != [] && !EndsInJson(front[|front| - 1]) && !EndsInJson("")
    requires rest == [""] || (|rest| == 2 && IsSlug(rest[0]) && rest[1] == "")
    ensures WithoutJson(front + rest) == front + kept && MatchingEnd(kept)
  {
    var path := front + rest;
    if |rest| == 2 && EndsInJson(rest[0]) {
      var slug := rest[0][..|rest[0]| - 5];
      kept := [slug];
      assert path[..|path| - 2] == front;
      assert slug != "" ==> IsSlug(slug);
    } else {
      kept := rest;
    }
  }

  lemma MatchesWithEnd(subreddit: Option<string>, id: string, rest: seq<string>)
    requires IsPostId(id) && LowerCase(id) == id && (subreddit.Some? ==> subreddit.value != "") && MatchingEnd(rest)
    ensures
      var c := MatchThread((if subreddit.Some? then ["r", subreddit.value] else []) + ["comments", id] + rest);
      c.Some? && c.value.postId == id && c.value.subreddit == subreddit
  {
    hide IsPostId, IsSlug, LowerCase;
    WordsAreNotDots();
    var tail := ["comments", id] + rest;
    if subreddit.Some? {
      assert (["r", subreddit.value] + ["comments", id] + rest)[2..] == tail;
    } else {
      assert [] + ["comments", id] + rest == tail;
    }
  }

  /** Matching what a canonical URL parses to, when the post id survived. */
  lemma RematchesPost(subreddit: Option<string>, id: string, rest: seq<string>)
    requires IsPostId(id) && LowerCase(id) == id && (subreddit.Some? ==> subreddit.value != "")
    requires rest == [""] || (|rest| == 2 && IsSlug(rest[0]) && rest[1] == "")
    ensures
      var path := (if subreddit.Some? then ["r", subreddit.value] else []) + ["comments", id] + rest;
      && Canonicalize(path).Some? && Canonicalize(path).value.postId == id && Canonicalize(path).value.subreddit == subreddit
  {
    hide IsPostId, IsSlug, LowerCase, MatchThread, WithoutJson, EndsInJson, MatchingEnd;
    NoJson();
    var front := (if subreddit.Some? then ["r", subreddit.value] else []) + ["comments", id];
    var kept := StrippingKeepsEnd(front, rest);
    MatchesWithEnd(subreddit, id, kept);
  }

  lemma LosesPost(subreddit: Option<string>)
    requires subreddit.Some? ==> subreddit.value != ""
    ensures Canonicalize((if subreddit.Some? then ["r", subreddit.value] else []) + ["comments", ""]).None?
  {
  }

  /** Canonicalizing a canonical URL keeps its source id, exactly unless its slug is a double dot, which
      only a path ending in a double dot and ".json" can give; then it is no thread URL any more. */
  lemma CanonicalizingTwice(path: seq<string>)
    requires Parsed(path) && Canonicalize(path).Some?
    ensures
      var c := Canonicalize(path).value;
      var again := Parse([], CanonicalPath(c));
      && again != []
      && (Canonicalize(again).Some? <==> !DoubleDot(c.slug))
      && (Canonicalize(again).Some? ==>
            && ExternalSourceId(Canonicalize(again).value) == ExternalSourceId(c)
            && Canonicalize(again).value.subreddit == c.subreddit)
  {
    hide Canonicalize, SingleDot, DoubleDot, IsPostId, IsSlug;
    var c := Canonicalize(path).value;
    MatchedParts(path);
    CanonicalReparses(c);
    var head := if c.subreddit.Some? then ["r", c.subreddit.value] else [];
    if DoubleDot(c.slug) {
      LosesPost(c.subreddit);
      assert head + ["comments"] + [""] == head + ["comments", ""];
    } else if SingleDot(c.slug) {
      RematchesPost(c.subreddit, c.postId, [""]);
      assert head + ["comments"] + [c.postId, ""] == head + ["comments", c.postId] + [""];
    } else {
      RematchesPost(c.subreddit, c.postId, [c.slug, ""]);
      assert head + ["comments"] + [c.postId, c.slug, ""] == head + ["comments", c.postId] + [c.slug, ""];
    }
  }

  /** Such a path exists: ".../comments/a/...json". */
  lemma DoubleDotSlugExists()
    ensures
      var path := ["comments", "a", "...json"];
      Parsed(path) && Canonicalize(path) == Some(Canonical(None, "a", ".."))
  {
    WordsAreNotDots();
    var path := ["comments", "a", "...json"];
    assert "...json"[2..] == ".json" && "...json"[..2] == "..";
    assert LowerCase(".json") == ".json" && LowerCase("...json") == "...json";
    assert LowerCase("a") == "a" && |".."| == 2 && |"%2e%2e"| == 6 && |".%2e"| == 4 && |"%2e."| == 4;
    PostIdIsNotDots("a");
    assert WithoutJson(path) == ["comments", "a", ".."];
  }

  // ----- texts -----

  /** White space and line terminators of ECMAScript, which trim and \s share. */
  predicate IsWhite(c: char) {
    var n := c as int;
    || 9 <= n <= 13 || n == 0x20 || n == 0xA0 || n == 0x1680 || 0x2000 <= n <= 0x200A
    || n == 0x2028 || n == 0x2029 || n == 0x202F || n == 0x205F || n == 0x3000 || n == 0xFEFF
  }

  function TrimStart(s: string): string {
    if s != "" && IsWhite(s[0]) then TrimStart(s[1..]) else s
  }

  function TrimEnd(s: string): string {
    if s != "" && IsWhite(s[|s| - 1]) then TrimEnd(s[..|s| - 1]) else s
  }

  function Trim(s: string): string {
    TrimEnd(TrimStart(s))
  }

  /** Every run of white space becomes one space. */
  function Collapse(s: string): string {
    if s == "" then ""
    else if !IsWhite(s[0]) then [s[0]] + Collapse(s[1..])
    else if |s| > 1 && IsWhite(s[1]) then Collapse(s[1..])
    else " " + Collapse(s[1..])
  }

  function Mark(c: char): string {
    if IsWhite(c) then "" else [c]
  }

  function Ink(s: string): string {
    if s == "" then "" else Mark(s[0]) + Ink(s[1..])
  }

  /** Only single spaces, and each between two other characters once trimmed. */
  predicate SingleSpaced(s: string) {
    forall i :: 0 <= i < |s| && IsWhite(s[i]) ==> s[i] == ' ' && (i + 1 < |s| ==> !IsWhite(s[i + 1]))
  }

  predicate Trimmed(s: string) {
    s != "" ==> !IsWhite(s[0]) && !IsWhite(s[|s| - 1])
  }

  lemma {:induction false} InkAppend(a: string, b: string)
    ensures Ink(a + b) == Ink(a) + Ink(b)
  {
    hide Mark;
    if a == "" {
      assert a + b == b && Ink(a) == "";
    } else {
      InkAppend(a[1..], b);
      InkStep(a + b);
      InkStep(a);
      hide Ink;
      assert (a + b)[0] == a[0] && (a + b)[1..] == a[1..] + b;
      Associates(Mark(a[0]), Ink(a[1..]), Ink(b));
    }
  }

  lemma InkStep(s: string)
    requires s != ""
    ensures Ink(s) == Mark(s[0]) + Ink(s[1..])
  {
  }

  lemma Associates(a: string, b: string, c: string)
    ensures a + (b + c) == a + b + c
  {
  }

  lemma {:induction false} TrimStartKeeps(s: string)
    ensures Ink(TrimStart(s)) == Ink(s) && (TrimStart(s) != "" ==> !IsWhite(TrimStart(s)[0]))
    ensures SingleSpaced(s) ==> SingleSpaced(TrimStart(s))
  {
    if s != "" && IsWhite(s[0]) { TrimStartKeeps(s[1..]); }
  }

  lemma {:induction false} TrimEndKeeps(s: string)
    ensures Ink(TrimEnd(s)) == Ink(s) && TrimEnd(s) <= s && (TrimEnd(s) != "" ==> !IsWhite(TrimEnd(s)[|TrimEnd(s)| - 1]))
    ensures SingleSpaced(s) ==> SingleSpaced(TrimEnd(s))
  {
    if s != "" && IsWhite(s[|s| - 1]) {
      var init, last := s[..|s| - 1], [s[|s| - 1]];
      TrimEndKeeps(init);
      InkAppend(init, last);
      InkStep(last);
      assert s == init + last && last[1..] == "" && Ink(last) == "";
      assert Ink(init) + "" == Ink(init);
    }
  }

  lemma {:induction false} CollapseKeepsInk(s: string)
    ensures Ink(Collapse(s)) == Ink(s)
  {
    hide IsWhite;
    if s != "" {
      var c := Collapse(s[1..]);
      CollapseKeepsInk(s[1..]);
      assert ([s[0]] + c)[1..] == c && (" " + c)[1..] == c;
      assert Mark(' ') == "" by { SpaceIsWhite(); }
    }
  }

  lemma SpaceIsWhite()
    ensures IsWhite(' ')
  {
  }

  lemma {:induction false} CollapseSpacesSingly(s: string)
    ensures SingleSpaced(Collapse(s))
    ensures s != "" && !IsWhite(s[0]) ==> Collapse(s) != "" && Collapse(s)[0] == s[0]
  {
    hide IsWhite;
    if s != "" {
      CollapseSpacesSingly(s[1..]);
      var c := Collapse(s[1..]);
      if !IsWhite(s[0]) {
        PrependSpaced([s[0]], c);
      } else if |s| == 1 || !IsWhite(s[1]) {
        PrependSpaced(" ", c);
      }
    }
  }

  lemma PrependSpaced(one: string, c: string)
    requires |one| == 1 && SingleSpaced(c)
    requires IsWhite(one[0]) ==> one == " " && (c != "" ==> !IsWhite(c[0]))
    ensures SingleSpaced(one + c)
  {
    hide IsWhite;
  }

  /** A snippet keeps its characters in order, with single spaces inside and none at either end. */
  lemma SnippetIsTidy(s: string)
    ensures Ink(Trim(Collapse(s))) == Ink(s)
    ensures SingleSpaced(Trim(Collapse(s))) && Trimmed(Trim(Collapse(s)))
  {
    CollapseKeepsInk(s);
    CollapseSpacesSingly(s);
    TrimStartKeeps(Collapse(s));
    TrimEndKeeps(TrimStart(Collapse(s)));
  }

  // ----- the candidate list -----

  /** A search row after canonicalizing its link: None when that throws. Absent texts are empty. */
  datatype SearchRow = SearchRow(canonical: Option<Canonical>, title: string, snippet: string, displayedUrl: string)

  datatype Candidate = Candidate(
    rank: nat, externalSourceId: string, canonical: Canonical, title: string, snippet: string, displayedUrl: Option<string>)

  function CandidateFrom(row: SearchRow, rank: nat): Candidate
    requires row.canonical.Some?
  {
    Candidate(rank, ExternalSourceId(row.canonical.value), row.canonical.value, Trim(row.title), Trim(Collapse(row.snippet)),
              if Trim(row.displayedUrl) == "" then None else Some(Trim(row.displayedUrl)))
  }

  /** Row k is the first of its thread. */
  predicate FirstOfThread(rows: seq<SearchRow>, k: int) {
    && 0 <= k < |rows| && rows[k].canonical.Some?
    && forall j :: 0 <= j < k && rows[j].canonical.Some? ==>
         ExternalSourceId(rows[j].canonical.value) != ExternalSourceId(rows[k].canonical.value)
  }

  predicate Listed(candidates: seq<Candidate>, id: string) {
    exists i :: 0 <= i < |candidates| && candidates[i].externalSourceId == id
  }

  /** The first row of every distinct thread, ranked from one. */
  function Distinct(rows: seq<SearchRow>): seq<Candidate> {
    if rows == [] then []
    else
      var before, row := Distinct(rows[..|rows| - 1]), rows[|rows| - 1];
      if row.canonical.None? || Listed(before, ExternalSourceId(row.canonical.value)) then before
      else before + [CandidateFrom(row, |before| + 1)]
  }

  lemma {:induction false} DistinctMeaning(rows: seq<SearchRow>)
    ensures
      var cs := Distinct(rows);
      && (forall i :: 0 <= i < |cs| ==> cs[i].rank == i + 1)
      && (forall i, j :: 0 <= i < j < |cs| ==> cs[i].externalSourceId != cs[j].externalSourceId)
      && (forall k :: 0 <= k < |rows| && rows[k].canonical.Some? ==> Listed(cs, ExternalSourceId(rows[k].canonical.value)))
  {
    hide Trim, Collapse;
    if rows != [] {
      var init, row := rows[..|rows| - 1], rows[|rows| - 1];
      DistinctMeaning(init);
      var before, cs := Distinct(init), Distinct(rows);
      forall id | Listed(before, id) ensures Listed(cs, id) {
        var i :| 0 <= i < |before| && before[i].externalSourceId == id;
        assert cs[i].externalSourceId == id;
      }
      forall k | 0 <= k < |rows| && rows[k].canonical.Some? ensures Listed(cs, ExternalSourceId(rows[k].canonical.value)) {
        if k < |init| {
          assert init[k] == rows[k];
        } else if !Listed(before, ExternalSourceId(row.canonical.value)) {
          assert cs[|before|].externalSourceId == ExternalSourceId(row.canonical.value);
        }
      }
    }
  }

  predicate MadeFromFirst(rows: seq<SearchRow>, c: Candidate) {
    exists k :: 0 <= k < |rows| && FirstOfThread(rows, k) && c == CandidateFrom(rows[k], c.rank)
  }

  /** Each entry is made from the first row of its thread. */
  lemma {:induction false} EntriesAreFirsts(rows: seq<SearchRow>)
    ensures forall i :: 0 <= i < |Distinct(rows)| ==> MadeFromFirst(rows, Distinct(rows)[i])
  {
    hide Trim, Collapse, MadeFromFirst, ExternalSourceId;
    if rows != [] {
      var init, row := rows[..|rows| - 1], rows[|rows| - 1];
      EntriesAreFirsts(init);
      DistinctMeaning(init);
      var before := Distinct(init);
      assert rows == init + [row];
      forall i | 0 <= i < |Distinct(rows)| ensures MadeFromFirst(rows, Distinct(rows)[i]) {
        if i < |before| { StaysFirst(init, row, before[i]); } else { FreshIsFirst(init, before, row); }
      }
    }
  }

  lemma StaysFirst(init: seq<SearchRow>, row: SearchRow, c: Candidate)
    requires MadeFromFirst(init, c)
    ensures MadeFromFirst(init + [row], c)
  {
    hide CandidateFrom;
    var k :| 0 <= k < |init| && FirstOfThread(init, k) && c == CandidateFrom(init[k], c.rank);
    assert FirstOfThread(init + [row], k) && (init + [row])[k] == init[k];
  }

  lemma FreshIsFirst(init: seq<SearchRow>, before: seq<Candidate>, row: SearchRow)
    requires row.canonical.Some? && !Listed(before, ExternalSourceId(row.canonical.value))
    requires forall k :: 0 <= k < |init| && init[k].canonical.Some? ==> Listed(before, ExternalSourceId(init[k].canonical.value))
    ensures MadeFromFirst(init + [row], CandidateFrom(row, |before| + 1))
  {
    assert FirstOfThread(init + [row], |init|) && (init + [row])[|init|] == row;
  }

  lemma {:induction false} DistinctGrows(rows: seq<SearchRow>, n: nat)
    requires n <= |rows|
    ensures Distinct(rows[..n]) <= Distinct(rows)
    decreases |rows| - n
  {
    if n == |rows| {
      assert rows[..n] == rows;
    } else {
      DistinctGrows(rows, n + 1);
      assert rows[..n + 1][..n] == rows[..n];
    }
  }

  /** Skip, deduplicate, push, and stop when the list is long enough. The length is tested after a push,
      so a limit of zero still lists one candidate. */
  method NormalizeDiscoveryRows(rows: seq<SearchRow>, limit: nat) returns (candidates: seq<Candidate>)
    ensures
      var all, most := Distinct(rows), if limit == 0 then 1 else limit;
      candidates == if |all| <= most then all else all[..most]
  {
    hide CandidateFrom, Listed, Distinct, ExternalSourceId;
    candidates := [];
    var seen: set<string> := {};
    NothingListed();
    assert Distinct(rows[..0]) == [] by { NoRowsNoEntries(); }
    for i := 0 to |rows|
      invariant candidates == Distinct(rows[..i])
      invariant forall id :: id in seen <==> Listed(candidates, id)
      invariant i > 0 && limit <= |candidates| ==> candidates == []
    {
      DistinctStep(rows, i);
      if rows[i].canonical.None? || ExternalSourceId(rows[i].canonical.value) in seen {
        continue;
      }
      var candidate := CandidateFrom(rows[i], |candidates| + 1);
      NamesItsThread(rows[i], |candidates| + 1);
      ListedAppend(candidates, candidate);
      seen := seen + {candidate.externalSourceId};
      candidates := candidates + [candidate];
      if |candidates| >= limit {
        DistinctGrows(rows, i + 1);
        return;
      }
    }
    assert rows[..|rows|] == rows;
  }

  lemma NoRowsNoEntries()
    ensures Distinct([]) == []
  {
  }

  lemma DistinctStep(rows: seq<SearchRow>, i: nat)
    requires i < |rows|
    ensures
      var before := Distinct(rows[..i]);
      Distinct(rows[..i + 1]) ==
        if rows[i].canonical.None? || Listed(before, ExternalSourceId(rows[i].canonical.value)) then before
        else before + [CandidateFrom(rows[i], |before| + 1)]
  {
    hide CandidateFrom, Listed;
    assert rows[..i + 1][..i] == rows[..i];
  }

  lemma NothingListed()
    ensures forall id :: !Listed([], id)
  {
  }

  lemma NamesItsThread(row: SearchRow, rank: nat)
    requires row.canonical.Some?
    ensures CandidateFrom(row, rank).externalSourceId == ExternalSourceId(row.canonical.value)
  {
  }

  lemma ListedAppend(candidates: seq<Candidate>, c: Candidate)
    ensures forall id :: Listed(candidates + [c], id) <==> Listed(candidates, id) || id == c.externalSourceId
  {
    forall id ensures Listed(candidates + [c], id) <==> Listed(candidates, id) || id == c.externalSourceId {
      if Listed(candidates, id) {
        var i :| 0 <= i < |candidates| && candidates[i].externalSourceId == id;
        assert (candidates + [c])[i].externalSourceId == id;
      }
      if id == c.externalSourceId {
        assert (candidates + [c])[|candidates|].externalSourceId == id;
      }
    }
  }
}
