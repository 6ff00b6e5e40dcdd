/** What a listed Candidate says of its search row: the words of its texts, and its place. */
module RedditTexts {
  import opened Options
  import opened RedditUrls

  // ----- trimming -----

  predicate AllWhite(s: string) {
    forall i :: 0 <= i < |s| ==> IsWhite(s[i])
  }

  /** Trimming takes white space off both ends, as far as it goes. */
  lemma TrimMeaning(s: string) returns (i: nat, j: nat)
    ensures i <= j <= |s| && Trim(s) == s[i..j] && AllWhite(s[..i]) && AllWhite(s[j..])
    ensures i < j ==> !IsWhite(s[i]) && !IsWhite(s[j - 1])
  {
    i := TrimStartMeaning(s);
    var n := TrimEndMeaning(TrimStart(s));
    j := i + n;
    hide IsWhite, TrimStart, TrimEnd;
    assert s[i..j] == s[i..][..n];
    forall k | 0 <= k < |s[j..]| ensures IsWhite(s[j..][k]) {
      assert s[j..][k] == s[i..][n..][k];
    }
  }

  lemma {:induction false} TrimStartMeaning(s: string) returns (i: nat)
    ensures i <= |s| && TrimStart(s) == s[i..] && AllWhite(s[..i]) && (i < |s| ==> !IsWhite(s[i]))
  {
    hide IsWhite;
    if s != "" && IsWhite(s[0]) {
      var k := TrimStartMeaning(s[1..]);
      i := k + 1;
      assert forall m :: 0 < m < i ==> s[..i][m] == s[1..][..k][m - 1];
    } else {
      i := 0;
    }
  }

  lemma {:induction false} TrimEndMeaning(s: string) returns (n: nat)
    ensures n <= |s| && TrimEnd(s) == s[..n] && AllWhite(s[n..]) && (n > 0 ==> !IsWhite(s[n - 1]))
  {
    hide IsWhite;
    if s != "" && IsWhite(s[|s| - 1]) {
      var init := s[..|s| - 1];
      n := TrimEndMeaning(init);
      forall m | 0 <= m < |s[n..]| ensures IsWhite(s[n..][m]) {
        if m < |s| - 1 - n { assert s[n..][m] == init[n..][m]; }
      }
    } else {
      n := |s|;
    }
  }

  // ----- words -----

  function WordLength(s: string): (n: nat)
    ensures n <= |s| && (s != "" && !IsWhite(s[0]) ==> n > 0)
  {
    if s == "" || IsWhite(s[0]) then 0 else 1 + WordLength(s[1..])
  }

  /** The words of a text: what stands between white space. */
  function Words(s: string): seq<string> {
    if s == "" then []
    else if IsWhite(s[0]) then Words(s[1..])
    else [s[..WordLength(s)]] + Words(s[WordLength(s)..])
  }

  function Spaced(words: seq<string>): string {
    if words == [] then "" else if |words| == 1 then words[0] else words[0] + " " + Spaced(words[1..])
  }

  function Lead(s: string): string {
    if s != "" && IsWhite(s[0]) then " " else ""
  }

  function Trail(s: string): string {
    if s != "" && IsWhite(s[|s| - 1]) && Words(s) != [] then " " else ""
  }

  lemma {:induction false} WordsOfTail(s: string)
    requires s != "" && !IsWhite(s[0])
    ensures |s| == 1 || IsWhite(s[1]) ==> Words(s) == [s[..1]] + Words(s[1..])
    ensures |s| > 1 && !IsWhite(s[1]) ==> Words(s[1..]) != [] && Words(s) == [s[..1] + Words(s[1..])[0]] + Words(s[1..])[1..]
  {
    var tail := s[1..];
    var n := WordLength(tail);
    assert s[..n + 1] == s[..1] + tail[..n] && s[n + 1..] == tail[n..];
  }

  lemma SpacedHead(first: string, words: seq<string>)
    requires words != []
    ensures Spaced([first + words[0]] + words[1..]) == first + Spaced(words)
  {
    var longer := [first + words[0]] + words[1..];
    assert longer[1..] == words[1..];
    if |words| > 1 {
      assert first + words[0] + " " + Spaced(words[1..]) == first + (words[0] + " " + Spaced(words[1..]));
    }
  }

  lemma SpacedCons(first: string, words: seq<string>)
    ensures Spaced([first] + words) == if words == [] then first else first + " " + Spaced(words)
  {
    assert ([first] + words)[1..] == words;
  }

  /** Collapsing leaves the words, a space between each two, and one at either end that had white space. */
  lemma {:induction false} CollapseKeepsWords(s: string)
    ensures Collapse(s) == Lead(s) + Spaced(Words(s)) + Trail(s)
  {
    hide IsWhite, WordLength;
    if s != "" {
      var tail := s[1..];
      CollapseKeepsWords(tail);
      if IsWhite(s[0]) {
        WhiteStep(s);
      } else {
        WordsOfTail(s);
        WordStep(s);
      }
    }
  }

  lemma Regroups(a: string, b: string, c: string, d: string)
    ensures a + ("" + b + c) == a + b + c && a + (b + c + d) == a + b + c + d && "" + a == a && a + "" == a
  {
  }

  /** What the first character adds. */
  lemma CollapseFirst(s: string)
    requires s != ""
    ensures Collapse(s) ==
      if !IsWhite(s[0]) then s[..1] + Collapse(s[1..])
      else if |s| > 1 && IsWhite(s[1]) then Collapse(s[1..])
      else " " + Collapse(s[1..])
    ensures |s| > 1 && (Words(s) == [] <==> Words(s[1..]) == []) ==> Trail(s) == Trail(s[1..])
  {
    hide IsWhite, Words;
    if |s| > 1 { assert s[|s| - 1] == s[1..][|s[1..]| - 1]; }
  }

  lemma WhiteStep(s: string)
    requires s != "" && IsWhite(s[0]) && Collapse(s[1..]) == Lead(s[1..]) + Spaced(Words(s[1..])) + Trail(s[1..])
    ensures Collapse(s) == Lead(s) + Spaced(Words(s)) + Trail(s)
  {
    assert Words(s) == Words(s[1..]);
    CollapseFirst(s);
    NoWords();
    Regroups(" ", Spaced(Words(s[1..])), Trail(s[1..]), "");
    hide IsWhite, Words, Spaced, Collapse;
  }

  lemma NoWords()
    ensures Words("") == [] && Spaced([]) == "" && Collapse("") == ""
  {
  }

  lemma WordStep(s: string)
    requires s != "" && !IsWhite(s[0]) && Collapse(s[1..]) == Lead(s[1..]) + Spaced(Words(s[1..])) + Trail(s[1..])
    requires |s| == 1 || IsWhite(s[1]) ==> Words(s) == [s[..1]] + Words(s[1..])
    requires |s| > 1 && !IsWhite(s[1]) ==> Words(s[1..]) != [] && Words(s) == [s[..1] + Words(s[1..])[0]] + Words(s[1..])[1..]
    ensures Collapse(s) == Lead(s) + Spaced(Words(s)) + Trail(s)
  {
    var first, tail := s[..1], s[1..];
    CollapseFirst(s);
    NoWords();
    SpacedCons(first, Words(tail));
    if |s| > 1 && !IsWhite(s[1]) {
      SpacedHead(first, Words(tail));
      hide IsWhite, Words, Spaced, Collapse;
      Regroups(first, Spaced(Words(tail)), Trail(tail), "");
      Regroups(Spaced(Words(s)), "", "", "");
    } else if |s| > 1 && Words(tail) != [] {
      hide IsWhite, Words, Spaced, Collapse;
      Regroups(first, " ", Spaced(Words(tail)), Trail(tail));
      Regroups(Spaced(Words(s)), "", "", "");
    } else {
      OneWord(s);
    }
  }

  lemma OneWord(s: string)
    requires s != "" && !IsWhite(s[0]) && (|s| > 1 ==> IsWhite(s[1]) && Words(s[1..]) == [])
    requires Words(s) == [s[..1]]
    requires Collapse(s) == s[..1] + (Lead(s[1..]) + "" + "")
    ensures Collapse(s) == Lead(s) + Spaced(Words(s)) + Trail(s)
  {
    hide Words, Collapse;
    if |s| > 1 {
      OnlyWhiteHasNoWords(s[1..]);
      assert s[|s| - 1] == s[1..][|s| - 2];
    }
  }

  lemma {:induction false} OnlyWhiteHasNoWords(s: string)
    requires Words(s) == []
    ensures AllWhite(s)
  {
    hide IsWhite;
    if s != "" {
      OnlyWhiteHasNoWords(s[1..]);
      assert forall i :: 0 < i < |s| ==> s[i] == s[1..][i - 1];
    }
  }

  predicate IsWord(w: string) {
    w != "" && forall i :: 0 <= i < |w| ==> !IsWhite(w[i])
  }

  lemma {:induction false} FirstWord(s: string)
    requires s != "" && !IsWhite(s[0])
    ensures IsWord(s[..WordLength(s)])
  {
    hide IsWhite;
    if |s| > 1 && !IsWhite(s[1]) {
      FirstWord(s[1..]);
      var n := WordLength(s[1..]);
      assert s[..n + 1] == s[..1] + s[1..][..n];
    }
  }

  /** Words hold no white space. */
  lemma {:induction false} WordsAreWords(s: string)
    ensures forall w :: w in Words(s) ==> IsWord(w)
  {
    hide IsWhite, IsWord;
    if s != "" {
      if IsWhite(s[0]) {
        WordsAreWords(s[1..]);
      } else {
        FirstWord(s);
        WordsAreWords(s[WordLength(s)..]);
      }
    }
  }

  lemma {:induction false} SpacedEnds(words: seq<string>)
    requires words != [] && forall w :: w in words ==> IsWord(w)
    ensures
      var t := Spaced(words);
      t != "" && !IsWhite(t[0]) && !IsWhite(t[|t| - 1])
  {
    assert IsWord(words[0]);
    if |words| > 1 {
      SpacedEnds(words[1..]);
      var rest := Spaced(words[1..]);
      assert Spaced(words)[|Spaced(words)| - 1] == rest[|rest| - 1];
    }
  }

  lemma TrimsTo(lead: string, core: string, trail: string)
    requires (lead == "" || lead == " ") && (trail == "" || trail == " ")
    requires if core == "" then trail == "" else !IsWhite(core[0]) && !IsWhite(core[|core| - 1])
    ensures Trim(lead + core + trail) == core
  {
    SpaceIsWhite();
    var s := lead + core + trail;
    hide IsWhite;
    if lead == " " { assert s[1..] == core + trail; } else { assert s == core + trail; }
    assert TrimStart(core + trail) == core + trail;
    assert TrimStart(s) == core + trail;
    if trail == " " {
      assert (core + trail)[..|core|] == core;
      assert TrimEnd(core) == core;
    } else {
      assert core + trail == core;
    }
  }

  /** A snippet is shown as its words with single spaces between them. */
  lemma SnippetIsItsWords(s: string)
    ensures Trim(Collapse(s)) == Spaced(Words(s))
  {
    CollapseKeepsWords(s);
    WordsAreWords(s);
    NoWords();
    if Words(s) != [] { SpacedEnds(Words(s)); }
    TrimsTo(Lead(s), Spaced(Words(s)), Trail(s));
  }

  // ----- entries -----

  /** What an entry says of its row. */
  lemma CandidateSays(row: SearchRow, rank: nat)
    requires row.canonical.Some?
    ensures
      var c := CandidateFrom(row, rank);
      && c.rank == rank && c.canonical == row.canonical.value && c.externalSourceId == "t3_" + row.canonical.value.postId
      && c.title == Trim(row.title) && c.snippet == Spaced(Words(row.snippet))
      && (c.displayedUrl == None <==> Words(row.displayedUrl) == [])
      && (c.displayedUrl.Some? ==> c.displayedUrl.value == Trim(row.displayedUrl))
  {
    SnippetIsItsWords(row.snippet);
    var i, j := TrimMeaning(row.displayedUrl);
    BlankHasNoWords(row.displayedUrl);
    if Trim(row.displayedUrl) == "" {
      assert row.displayedUrl == row.displayedUrl[..i] + row.displayedUrl[j..];
    } else {
      assert !IsWhite(row.displayedUrl[i]);
    }
  }

  lemma {:induction false} BlankHasNoWords(s: string)
    ensures Words(s) == [] <==> AllWhite(s)
  {
    hide IsWhite;
    if s != "" {
      if IsWhite(s[0]) {
        BlankHasNoWords(s[1..]);
        assert forall i :: 0 < i < |s| ==> s[i] == s[1..][i - 1];
      }
    }
  }

  /** The list goes through the rows in order, taking the first of each thread and ranking it by its place. */
  lemma {:induction false} EntriesInOrder(rows: seq<SearchRow>) returns (at: seq<nat>)
    ensures Increasing(at) && |at| == |Distinct(rows)|
    ensures forall k: nat :: k in at <==> FirstOfThread(rows, k)
    ensures forall i :: 0 <= i < |at| ==>
      at[i] < |rows| && rows[at[i]].canonical.Some? && Distinct(rows)[i] == CandidateFrom(rows[at[i]], i + 1)
  {
    hide CandidateFrom, ExternalSourceId;
    at := [];
    if rows != [] {
      var n := |rows| - 1;
      var init, row := rows[..n], rows[n];
      at := EntriesInOrder(init);
      assert rows == init + [row] && forall i :: 0 <= i < |at| ==> at[i] in at;
      forall k: nat | k < n ensures FirstOfThread(rows, k) <==> FirstOfThread(init, k) {}
      LastIsListed(init, row);
      if FirstOfThread(rows, n) {
        at := at + [n];
      }
    }
  }

  lemma LastIsListed(init: seq<SearchRow>, row: SearchRow)
    ensures FirstOfThread(init + [row], |init|) <==>
      row.canonical.Some? && !Listed(Distinct(init), ExternalSourceId(row.canonical.value))
  {
    DistinctMeaning(init);
    EntriesAreFirsts(init);
    var rows := init + [row];
    assert rows[|init|] == row && forall j :: 0 <= j < |init| ==> rows[j] == init[j];
    hide ExternalSourceId, Distinct;
    if row.canonical.Some? && Listed(Distinct(init), ExternalSourceId(row.canonical.value)) {
      var i :| 0 <= i < |Distinct(init)| && Distinct(init)[i].externalSourceId == ExternalSourceId(row.canonical.value);
      assert MadeFromFirst(init, Distinct(init)[i]);
      var k :| 0 <= k < |init| && FirstOfThread(init, k) && Distinct(init)[i] == CandidateFrom(init[k], Distinct(init)[i].rank);
      assert ExternalSourceId(rows[k].canonical.value) == ExternalSourceId(row.canonical.value);
    }
  }
}
