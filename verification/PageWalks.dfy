/**
 * Following next_cursor to the end of a list. A table is the order numbers of its rows, ascending;
 * rows are only ever appended, each above every number before it.
 */
module PageWalks {
  import opened Options
  import opened Cursors

  predicate Ascending(table: seq<int>) {
    && (forall i :: 0 <= i < |table| ==> table[i] >= 1)
    && forall i, j :: 0 <= i < j < |table| ==> table[i] < table[j]
  }

  function Reverse(s: seq<int>): seq<int> {
    if s == [] then [] else Reverse(s[1..]) + [s[0]]
  }

  /** Which way a list is ordered: observations oldest first, campaigns and audit events newest first. */
  datatype Direction = OldestFirst | NewestFirst

  /** The rows on the far side of a position, in list order. */
  function Beyond(dir: Direction, table: seq<int>, position: int): seq<int> {
    if table == [] then []
    else
      var rest := Beyond(dir, table[1..], position);
      match dir
      case OldestFirst => if table[0] > position then [table[0]] + rest else rest
      case NewestFirst => if table[0] < position then rest + [table[0]] else rest
  }

  datatype Page = Page(rows: seq<int>, next: Option<string>)

  /** limit + 1 rows are fetched to see whether another page follows. */
  function Cut(namespace: string, rows: seq<int>, limit: nat): Page
    requires limit >= 1
  {
    if |rows| > limit then Page(rows[..limit], Some(EncodeCursor(namespace, rows[limit - 1]))) else Page(rows, None)
  }

  /** One list request; None where the cursor is refused. */
  function ListPage(dir: Direction, namespace: string, table: seq<int>, cursor: Option<string>, limit: nat): Option<Page>
    requires limit >= 1
  {
    match cursor
    case None => Some(Cut(namespace, if dir.OldestFirst? then table else Reverse(table), limit))
    case Some(text) =>
      match DecodeCursor(namespace, text)
      case None => None
      case Some(position) => Some(Cut(namespace, Beyond(dir, table, position), limit))
  }

  /** An endpoint whose cursors all decode: a colon-free name and positions within the length limit. */
  ghost predicate GoodEndpoint(namespace: string, table: seq<int>) {
    && ':' !in namespace
    && forall i :: 0 <= i < |table| ==> |EncodeCursor(namespace, table[i])| <= MAX_CURSOR
  }

  /** Successive states of the table, one per request. */
  ghost predicate Grows(tables: seq<seq<int>>) {
    && (forall i :: 0 <= i < |tables| ==> Ascending(tables[i]))
    && forall i, j :: 0 <= i <= j < |tables| ==> tables[i] <= tables[j]
  }

  /** The rows a client collects from some cursor on, one request per table, and where it stands after. */
  datatype Walk = Walk(rows: seq<int>, ended: bool)

  function Follow(dir: Direction, namespace: string, tables: seq<seq<int>>, cursor: Option<string>, limit: nat): Option<Walk>
    requires limit >= 1
    decreases |tables|
  {
    if tables == [] then Some(Walk([], false))
    else
      match ListPage(dir, namespace, tables[0], cursor, limit)
      case None => None
      case Some(page) =>
        if page.next.None? then Some(Walk(page.rows, true))
        else
          match Follow(dir, namespace, tables[1..], page.next, limit)
          case None => None
          case Some(more) => Some(Walk(page.rows + more.rows, more.ended))
  }

  // ----- filtering an ascending table -----

  lemma {:induction false} BeyondIsSuffix(table: seq<int>, k: nat)
    requires Ascending(table) && k < |table|
    ensures Beyond(OldestFirst, table, table[k]) == table[k + 1..]
  {
    assert forall i :: 0 <= i < |table| - 1 ==> table[1..][i] == table[i + 1];
    if k == 0 {
      AllBeyond(table[1..], table[0]);
    } else {
      BeyondIsSuffix(table[1..], k - 1);
    }
  }

  lemma {:induction false} AllBeyond(table: seq<int>, position: int)
    requires forall i :: 0 <= i < |table| ==> table[i] > position
    ensures Beyond(OldestFirst, table, position) == table
  {
    if table != [] {
      AllBeyond(table[1..], position);
      assert table == [table[0]] + table[1..];
    }
  }

  lemma {:induction false} BeyondIsPrefixReversed(table: seq<int>, k: nat)
    requires Ascending(table) && k < |table|
    ensures Beyond(NewestFirst, table, table[k]) == Reverse(table[..k])
  {
    assert forall i :: 0 <= i < |table| - 1 ==> table[1..][i] == table[i + 1];
    if k == 0 {
      NoneBeyond(table, table[0]);
    } else {
      BeyondIsPrefixReversed(table[1..], k - 1);
      assert table[..k][1..] == table[1..][..k - 1];
    }
  }

  lemma {:induction false} NoneBeyond(table: seq<int>, position: int)
    requires forall i :: 0 <= i < |table| ==> table[i] >= position
    ensures Beyond(NewestFirst, table, position) == []
  {
    if table != [] {
      NoneBeyond(table[1..], position);
    }
  }

  lemma {:induction false} ReverseAppend(a: seq<int>, b: seq<int>)
    ensures Reverse(a + b) == Reverse(b) + Reverse(a)
  {
    if a == [] {
      assert a + b == b && Reverse(b) + [] == Reverse(b);
    } else {
      ReverseAppend(a[1..], b);
      assert (a + b)[1..] == a[1..] + b;
    }
  }

  lemma {:induction false} ReverseLength(a: seq<int>)
    ensures |Reverse(a)| == |a|
    ensures forall i :: 0 <= i < |a| ==> Reverse(a)[i] == a[|a| - 1 - i]
  {
    if a != [] {
      ReverseLength(a[1..]);
    }
  }

  // ----- one page from a known place -----

  /** Asking for what follows row k - 1 (or from the start when k is 0), oldest first. */
  lemma OldestPage(namespace: string, table: seq<int>, k: nat, limit: nat)
    requires limit >= 1 && Ascending(table) && k <= |table| && GoodEndpoint(namespace, table)
    ensures
      var cursor := if k == 0 then None else Some(EncodeCursor(namespace, table[k - 1]));
      ListPage(OldestFirst, namespace, table, cursor, limit) == Some(Cut(namespace, table[k..], limit))
  {
    hide EncodeCursor, DecodeCursor, Cut;
    if k > 0 {
      CursorRoundTrip(namespace, table[k - 1]);
      BeyondIsSuffix(table, k - 1);
    } else {
      assert table[0..] == table;
    }
  }

  /** Asking for what precedes row k (or for everything when k is the length), newest first. */
  lemma NewestPage(namespace: string, table: seq<int>, k: nat, limit: nat)
    requires limit >= 1 && Ascending(table) && k < |table| && GoodEndpoint(namespace, table)
    ensures ListPage(NewestFirst, namespace, table, Some(EncodeCursor(namespace, table[k])), limit) ==
      Some(Cut(namespace, Reverse(table[..k]), limit))
  {
    hide EncodeCursor, DecodeCursor, Cut;
    CursorRoundTrip(namespace, table[k]);
    BeyondIsPrefixReversed(table, k);
  }

  // ----- the walks -----

  function NextRow(namespace: string, table: seq<int>, k: nat): Option<string>
    requires k <= |table|
  {
    if k == 0 then None else Some(EncodeCursor(namespace, table[k - 1]))
  }

  ghost predicate GoodTables(namespace: string, tables: seq<seq<int>>) {
    && tables != [] && Grows(tables)
    && forall i :: 0 <= i < |tables| ==> GoodEndpoint(namespace, tables[i])
  }

  /** The rows collected so far are the next rows of the table, and an ended walk has passed its start. */
  predicate CollectedInOrder(walk: Walk, start: seq<int>, final: seq<int>, k: nat) {
    && k + |walk.rows| <= |final| && walk.rows == final[k..k + |walk.rows|]
    && (walk.ended ==> |start| <= k + |walk.rows|)
  }

  lemma GrowsOn(namespace: string, tables: seq<seq<int>>)
    requires GoodTables(namespace, tables) && |tables| > 1
    ensures GoodTables(namespace, tables[1..]) && tables[0] <= tables[1] && tables[1..][|tables| - 2] == tables[|tables| - 1]
    ensures tables[0] <= tables[|tables| - 1] && tables[1] <= tables[|tables| - 1]
  {
  }

  lemma FollowStep(dir: Direction, namespace: string, tables: seq<seq<int>>, cursor: Option<string>, limit: nat, page: Page, more: Walk)
    requires limit >= 1 && tables != []
    requires ListPage(dir, namespace, tables[0], cursor, limit) == Some(page)
    requires page.next.Some? ==> Follow(dir, namespace, tables[1..], page.next, limit) == Some(more)
    ensures Follow(dir, namespace, tables, cursor, limit) ==
      Some(if page.next.None? then Walk(page.rows, true) else Walk(page.rows + more.rows, more.ended))
  {
  }

  lemma OnePageMore(limit: nat, pages: nat)
    requires pages > 0
    ensures limit * pages == limit + limit * (pages - 1)
  {
  }

  lemma Segments(s: seq<int>, i: nat, j: nat, k: nat)
    requires i <= j <= k <= |s|
    ensures s[i..j] + s[j..k] == s[i..k]
  {
  }

  /**
   * Oldest first, from any place on: whatever is appended between requests, the rows collected are the
   * next rows in order, each once; a walk that ends has passed every row there was when it began; one
   * that has not ended has filled every page.
   */
  lemma {:induction false} OldestFirstFollows(namespace: string, tables: seq<seq<int>>, k: nat, limit: nat)
    requires limit >= 1 && GoodTables(namespace, tables) && k <= |tables[0]|
    ensures
      var walk := Follow(OldestFirst, namespace, tables, NextRow(namespace, tables[0], k), limit);
      && walk.Some?
      && CollectedInOrder(walk.value, tables[0], tables[|tables| - 1], k)
      && (!walk.value.ended ==> |walk.value.rows| == limit * |tables|)
    decreases |tables|
  {
    hide EncodeCursor, ListPage, GoodTables, GoodEndpoint, Ascending, Follow, Grows, Reverse, Beyond;
    FirstTableIsGood(namespace, tables);
    var table, final, cursor := tables[0], tables[|tables| - 1], NextRow(namespace, tables[0], k);
    OldestPage(namespace, table, k, limit);
    var page := Cut(namespace, table[k..], limit);
    if |table| - k <= limit {
      FollowStep(OldestFirst, namespace, tables, cursor, limit, page, Walk([], false));
      assert table[k..] == final[k..|table|];
    } else {
      var n := k + limit;
      FullPage(table, final, k, limit);
      assert page == Page(final[k..n], NextRow(namespace, table, n));
      hide Cut, NextRow;
      OnePageMore(limit, |tables|);
      var more := Walk([], false);
      if |tables| == 1 {
        NoRequestsLeft(OldestFirst, namespace, page.next, limit);
        assert tables[1..] == [];
      } else {
        GrowsOn(namespace, tables);
        OldestFirstFollows(namespace, tables[1..], n, limit);
        more := Follow(OldestFirst, namespace, tables[1..], page.next, limit).value;
      }
      FollowStep(OldestFirst, namespace, tables, cursor, limit, page, more);
      Segments(final, k, n, n + |more.rows|);
    }
  }

  lemma FullPage(table: seq<int>, final: seq<int>, k: nat, limit: nat)
    requires limit >= 1 && table <= final && k + limit < |table|
    ensures table[k..][..limit] == final[k..k + limit] && table[k..][limit - 1] == table[k + limit - 1]
  {
  }

  lemma NoRequestsLeft(dir: Direction, namespace: string, cursor: Option<string>, limit: nat)
    requires limit >= 1
    ensures Follow(dir, namespace, [], cursor, limit) == Some(Walk([], false))
  {
  }

  lemma FirstTableIsGood(namespace: string, tables: seq<seq<int>>)
    requires GoodTables(namespace, tables)
    ensures tables != []
    ensures Ascending(tables[0]) && GoodEndpoint(namespace, tables[0])
    ensures tables[0] <= tables[|tables| - 1]
  {
  }

  /** The observation list: a finished walk holds every row there was at the start, in order, once. */
  lemma ObservationWalkIsComplete(namespace: string, tables: seq<seq<int>>, limit: nat)
    requires limit >= 1 && GoodTables(namespace, tables)
    ensures
      var walk := Follow(OldestFirst, namespace, tables, None, limit);
      walk.Some? && (walk.value.ended ==> tables[0] <= walk.value.rows <= tables[|tables| - 1])
  {
    hide Follow, GoodTables;
    FirstTableIsGood(namespace, tables);
    OldestFirstFollows(namespace, tables, 0, limit);
  }

  /** On a table that does not change, enough requests end the walk with exactly the table. */
  lemma WalkTerminates(namespace: string, tables: seq<seq<int>>, limit: nat)
    requires limit >= 1 && GoodTables(namespace, tables)
    requires forall i :: 0 <= i < |tables| ==> tables[i] == tables[0]
    requires |tables[0]| < limit * |tables|
    ensures Follow(OldestFirst, namespace, tables, None, limit) == Some(Walk(tables[0], true))
  {
    hide Follow, GoodEndpoint, Grows;
    OldestFirstFollows(namespace, tables, 0, limit);
    var walk := Follow(OldestFirst, namespace, tables, None, limit).value;
    assert tables[|tables| - 1] == tables[0] && |walk.rows| == |tables[0]|;
    assert walk.rows == tables[0];
  }

  // ----- newest first -----

  ghost predicate AllExtend(tables: seq<seq<int>>, start: seq<int>) {
    forall i :: 0 <= i < |tables| ==> start <= tables[i]
  }

  /** Newest first below a known row: appended rows are above every cursor and never appear. */
  lemma {:induction false} NewestFirstFollows(namespace: string, start: seq<int>, tables: seq<seq<int>>, k: nat, limit: nat)
    requires limit >= 1 && k < |start| && AllExtend(tables, start)
    requires forall i :: 0 <= i < |tables| ==> Ascending(tables[i]) && GoodEndpoint(namespace, tables[i])
    ensures
      var walk := Follow(NewestFirst, namespace, tables, Some(EncodeCursor(namespace, start[k])), limit);
      && walk.Some? && walk.value.rows <= Reverse(start[..k])
      && (walk.value.ended ==> walk.value.rows == Reverse(start[..k]))
      && (!walk.value.ended ==> |walk.value.rows| == limit * |tables|)
    decreases |tables|
  {
    hide EncodeCursor, ListPage, GoodEndpoint, Ascending, Reverse, Follow;
    var cursor := Some(EncodeCursor(namespace, start[k]));
    ReverseLength(start[..k]);
    if tables == [] {
      NoRequestsLeft(NewestFirst, namespace, cursor, limit);
    } else {
      var table, rows := tables[0], Reverse(start[..k]);
      assert table[k] == start[k] && table[..k] == start[..k];
      NewestPage(namespace, table, k, limit);
      var page := Cut(namespace, rows, limit);
      OnePageMore(limit, |tables|);
      if k <= limit {
        FollowStep(NewestFirst, namespace, tables, cursor, limit, page, Walk([], false));
      } else {
        var m := k - limit;
        assert rows[limit - 1] == start[..k][m];
        NewestFirstFollows(namespace, start, tables[1..], m, limit);
        var more := Follow(NewestFirst, namespace, tables[1..], page.next, limit).value;
        FollowStep(NewestFirst, namespace, tables, cursor, limit, page, more);
        RestOfReverse(start, k, m);
        PrefixAfter(rows, limit, more.rows);
      }
    }
  }

  lemma PrefixAfter(rows: seq<int>, n: nat, more: seq<int>)
    requires n <= |rows| && more <= rows[n..]
    ensures rows[..n] + more <= rows && (more == rows[n..] ==> rows[..n] + more == rows)
  {
  }

  lemma RestOfReverse(start: seq<int>, k: nat, m: nat)
    requires m <= k <= |start|
    ensures |Reverse(start[..k])| == k && Reverse(start[..k])[k - m..] == Reverse(start[..m])
  {
    assert start[..k] == start[..m] + start[m..k];
    ReverseAppend(start[..m], start[m..k]);
    ReverseLength(start[m..k]);
    ReverseLength(start[..m]);
  }

  /** Campaigns and audit events: a finished walk is exactly the rows there were at the start, newest
      first, whatever is appended meanwhile. */
  lemma CampaignWalkIsExact(namespace: string, tables: seq<seq<int>>, limit: nat)
    requires limit >= 1 && GoodTables(namespace, tables)
    ensures
      var walk := Follow(NewestFirst, namespace, tables, None, limit);
      && walk.Some?
      && (walk.value.ended ==> walk.value.rows == Reverse(tables[0]))
      && (limit * |tables| > |tables[0]| ==> walk.value.ended)
  {
    hide EncodeCursor, GoodEndpoint, Ascending, Reverse, Follow, Beyond;
    var start, rows := tables[0], Reverse(tables[0]);
    var page := Cut(namespace, rows, limit);
    ReverseLength(start);
    OnePageMore(limit, |tables|);
    if |start| <= limit {
      FollowStep(NewestFirst, namespace, tables, None, limit, page, Walk([], false));
    } else {
      var m := |start| - limit;
      assert start[..|start|] == start && rows[limit - 1] == start[m];
      assert AllExtend(tables[1..], start);
      NewestFirstFollows(namespace, start, tables[1..], m, limit);
      var more := Follow(NewestFirst, namespace, tables[1..], page.next, limit).value;
      FollowStep(NewestFirst, namespace, tables, None, limit, page, more);
      RestOfReverse(start, |start|, m);
      PrefixAfter(rows, limit, more.rows);
    }
  }

  // ----- rows that become visible late, anywhere -----

  predicate Before(dir: Direction, a: int, b: int) {
    if dir.OldestFirst? then a < b else b < a
  }

  predicate InOrder(dir: Direction, rows: seq<int>) {
    forall i, j :: 0 <= i < j < |rows| ==> Before(dir, rows[i], rows[j])
  }

  /** A transaction may commit after a later one: new rows appear anywhere, and none disappears. */
  ghost predicate Accumulates(tables: seq<seq<int>>) {
    && (forall i :: 0 <= i < |tables| ==> Ascending(tables[i]))
    && forall i, j, x :: 0 <= i <= j < |tables| && x in tables[i] ==> x in tables[j]
  }

  /** Past the place a cursor stands for; the first request has none. */
  predicate Past(dir: Direction, place: Option<int>, x: int) {
    place.Some? ==> Before(dir, place.value, x)
  }

  function CursorAt(namespace: string, place: Option<int>): Option<string>
  {
    if place.None? then None else Some(EncodeCursor(namespace, place.value))
  }

  function Listed(dir: Direction, table: seq<int>, place: Option<int>): seq<int> {
    match place
    case None => if dir.OldestFirst? then table else Reverse(table)
    case Some(position) => Beyond(dir, table, position)
  }

  lemma {:induction false} BeyondIsOrdered(dir: Direction, table: seq<int>, position: int)
    requires Ascending(table)
    ensures InOrder(dir, Beyond(dir, table, position))
    ensures forall x :: x in Beyond(dir, table, position) <==> x in table && Before(dir, position, x)
  {
    if table != [] {
      var rest := table[1..];
      BeyondIsOrdered(dir, rest, position);
      assert table == [table[0]] + rest;
      var beyond := Beyond(dir, rest, position);
      forall i | 0 <= i < |beyond| ensures beyond[i] > table[0] {
        assert beyond[i] in beyond;
        LaterIsAbove(table, beyond[i]);
      }
      JoinsInOrder(dir, table[0], beyond);
    }
  }

  lemma LaterIsAbove(table: seq<int>, x: int)
    requires Ascending(table) && table != [] && x in table[1..]
    ensures x > table[0]
  {
  }

  lemma JoinsInOrder(dir: Direction, x: int, rows: seq<int>)
    requires InOrder(dir, rows) && forall i :: 0 <= i < |rows| ==> rows[i] > x
    ensures InOrder(dir, if dir.OldestFirst? then [x] + rows else rows + [x])
  {
  }

  lemma ListedInOrder(dir: Direction, table: seq<int>, place: Option<int>)
    requires Ascending(table)
    ensures InOrder(dir, Listed(dir, table, place))
    ensures forall x :: x in Listed(dir, table, place) <==> x in table && Past(dir, place, x)
  {
    if place.Some? {
      BeyondIsOrdered(dir, table, place.value);
    } else if dir.NewestFirst? {
      ReverseLength(table);
      var rows := Reverse(table);
      forall x | x in table ensures x in rows {
        var i :| 0 <= i < |table| && table[i] == x;
        assert rows[|table| - 1 - i] == x;
      }
    }
  }

  /** One page: a request is refused exactly with its cursor. Otherwise the page lists, in order, the rows past
      the cursor's position, up to the limit; it has a cursor exactly when it leaves some out, that of its last
      row, past which are all those it leaves. */
  lemma PageMeaning(dir: Direction, namespace: string, table: seq<int>, cursor: Option<string>, limit: nat)
    requires Ascending(table) && limit >= 1
    ensures ListPage(dir, namespace, table, cursor, limit).None? <==>
      cursor.Some? && DecodeCursor(namespace, cursor.value).None?
    ensures ListPage(dir, namespace, table, cursor, limit).Some? ==>
      var page := ListPage(dir, namespace, table, cursor, limit).value;
      var place := if cursor.Some? then DecodeCursor(namespace, cursor.value) else None;
      && |page.rows| <= limit
      && (forall i, j :: 0 <= i < j < |page.rows| ==>
            if dir == OldestFirst then page.rows[i] < page.rows[j] else page.rows[i] > page.rows[j])
      && (forall x :: x in page.rows ==> x in table && Past(dir, place, x))
      && (page.next.None? <==> forall x :: x in table && Past(dir, place, x) ==> x in page.rows)
      && (page.next.Some? ==>
            && |page.rows| == limit && page.next == Some(EncodeCursor(namespace, page.rows[limit - 1]))
            && forall x :: x in table && Past(dir, place, x) && x !in page.rows ==> Before(dir, page.rows[limit - 1], x))
  {
    hide DecodeCursor, EncodeCursor, Beyond, Reverse;
    if ListPage(dir, namespace, table, cursor, limit).Some? {
      var place := if cursor.Some? then DecodeCursor(namespace, cursor.value) else None;
      ListedInOrder(dir, table, place);
      var rows := Listed(dir, table, place);
      if |rows| > limit {
        assert rows[limit] in rows && rows[limit] !in rows[..limit] by { FirstLeftOut(dir, rows, limit); }
        forall x | x in rows && x !in rows[..limit] ensures Before(dir, rows[limit - 1], x) {
          var i := LeftOutIsLater(rows, limit, x);
        }
      }
    }
  }

  lemma LeftOutIsLater<T>(s: seq<T>, n: nat, x: T) returns (i: nat)
    requires n <= |s| && x in s && x !in s[..n]
    ensures n <= i < |s| && s[i] == x
  {
    forall j | 0 <= j < n ensures s[j] != x {
      assert s[..n][j] == s[j];
    }
    i :| 0 <= i < |s| && s[i] == x;
  }

  lemma FirstLeftOut(dir: Direction, rows: seq<int>, limit: nat)
    requires InOrder(dir, rows) && limit < |rows|
    ensures rows[limit] !in rows[..limit]
  {
  }

  /** What a walk from some place on may return, given what its first request can see. */
  ghost predicate Faithful(dir: Direction, walk: Walk, seen: seq<int>, tables: seq<seq<int>>, place: Option<int>) {
    && InOrder(dir, walk.rows)
    && (forall x :: x in walk.rows ==> Past(dir, place, x) && exists i :: 0 <= i < |tables| && x in tables[i])
    && (walk.ended ==> forall x :: x in seen && Past(dir, place, x) ==> x in walk.rows)
  }

  lemma PagesJoin(dir: Direction, rows: seq<int>, limit: nat, more: Walk, tables: seq<seq<int>>, place: Option<int>)
    requires 1 <= limit < |rows| && tables != [] && InOrder(dir, rows)
    requires forall x :: x in rows <==> x in tables[0] && Past(dir, place, x)
    requires Faithful(dir, more, if |tables| > 1 then tables[1] else [], tables[1..], Some(rows[limit - 1]))
    requires |tables| > 1 ==> forall x :: x in tables[0] ==> x in tables[1]
    requires more.ended ==> |tables| > 1
    ensures Faithful(dir, Walk(rows[..limit] + more.rows, more.ended), tables[0], tables, place)
  {
    var joined := rows[..limit] + more.rows;
    assert rows[limit - 1] in rows;
    forall x | x in joined ensures Past(dir, place, x) && exists i :: 0 <= i < |tables| && x in tables[i] {
      if x in more.rows {
        var i :| 0 <= i < |tables| - 1 && x in tables[1..][i];
        assert x in tables[i + 1];
      } else {
        assert x in rows && x in tables[0];
      }
    }
    forall x | more.ended && x in tables[0] && Past(dir, place, x) ensures x in joined {
      var i :| 0 <= i < |rows| && rows[i] == x;
      if i < limit { assert rows[..limit][i] == x; } else { assert Past(dir, Some(rows[limit - 1]), x); }
    }
    forall i, j | 0 <= i < j < |joined| ensures Before(dir, joined[i], joined[j]) {
      if i < limit <= j { assert more.rows[j - limit] in more.rows; }
    }
  }

  /**
   * From any place on, in either direction, with rows becoming visible anywhere between requests: what is
   * collected is in order and without repeats, every row of it was there, and a walk that ends holds
   * every row that its first request could see past its cursor. So a late row is missed only if, when it
   * became visible, the walk was past it already.
   */
  lemma {:induction false} WalksAreFaithful(
      dir: Direction, namespace: string, tables: seq<seq<int>>, place: Option<int>, limit: nat)
    requires limit >= 1 && ':' !in namespace && Accumulates(tables)
    requires forall i :: 0 <= i < |tables| ==> GoodEndpoint(namespace, tables[i])
    requires place.Some? ==> place.value >= 1 && |EncodeCursor(namespace, place.value)| <= MAX_CURSOR
    ensures
      var walk := Follow(dir, namespace, tables, CursorAt(namespace, place), limit);
      walk.Some? && Faithful(dir, walk.value, if tables == [] then [] else tables[0], tables, place)
      && (tables == [] ==> !walk.value.ended)
    decreases |tables|
  {
    hide EncodeCursor, DecodeCursor, Ascending, Reverse, Follow, Beyond, Faithful, InOrder, Past;
    var cursor := CursorAt(namespace, place);
    if tables == [] {
      NoRequestsLeft(dir, namespace, cursor, limit);
      NothingIsFaithful(dir, place);
    } else {
      var rows := Listed(dir, tables[0], place);
      if place.Some? { CursorRoundTrip(namespace, place.value); }
      ListedInOrder(dir, tables[0], place);
      var page := Cut(namespace, rows, limit);
      assert ListPage(dir, namespace, tables[0], cursor, limit) == Some(page);
      if |rows| <= limit {
        FollowStep(dir, namespace, tables, cursor, limit, page, Walk([], false));
        LastPageIsFaithful(dir, rows, tables, place);
      } else {
        var next := rows[limit - 1];
        assert next in rows;
        RowsHaveCursors(namespace, tables[0], next);
        WalksAreFaithful(dir, namespace, tables[1..], Some(next), limit);
        var more := Follow(dir, namespace, tables[1..], page.next, limit).value;
        FollowStep(dir, namespace, tables, cursor, limit, page, more);
        PagesJoin(dir, rows, limit, more, tables, place);
      }
    }
  }

  lemma RowsHaveCursors(namespace: string, table: seq<int>, x: int)
    requires Ascending(table) && GoodEndpoint(namespace, table) && x in table
    ensures x >= 1 && |EncodeCursor(namespace, x)| <= MAX_CURSOR
  {
    hide EncodeCursor;
  }

  lemma NothingIsFaithful(dir: Direction, place: Option<int>)
    ensures Faithful(dir, Walk([], false), [], [], place)
  {
  }

  lemma LastPageIsFaithful(dir: Direction, rows: seq<int>, tables: seq<seq<int>>, place: Option<int>)
    requires tables != [] && InOrder(dir, rows)
    requires forall x :: x in rows <==> x in tables[0] && Past(dir, place, x)
    ensures Faithful(dir, Walk(rows, true), tables[0], tables, place)
  {
  }
}
