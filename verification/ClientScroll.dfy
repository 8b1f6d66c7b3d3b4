/**
 A client scrolling back through the real handler: what each page shows and what its has_more is
 worth, which pages the cache serves, and which rows the client never sees.
 */
module ClientScroll {
  import opened KeyOrder
  import opened ChatTypes
  import opened HotIndex
  import opened HistoryPages
  import opened PageWalk

  // ----- the pages a client receives -----

  /** The page shows the rows its stop names. */
  ghost predicate Shows(table: Table, page: Page, stop: Stop) {
    ShowsRows(table, Sorted(Roots(table)), page, stop)
  }

  ghost predicate ShowsRows(table: Table, rows: seq<Key>, page: Page, stop: Stop) {
    && stop.lo <= stop.hi <= |rows| && Elements(rows[stop.lo..stop.hi]) <= table.Keys
    && page.messages == Views(table, rows[stop.lo..stop.hi])
  }

  /** Rows older than every row the page shows. */
  ghost predicate OlderRemain(table: Table, page: Page) {
    page.messages != [] && Before(Roots(table), page.messages[0].key) != {}
  }

  lemma OlderRemainIff(table: Table, page: Page, stop: Stop)
    requires Shows(table, page, stop)
    ensures OlderRemain(table, page) <==> 0 < stop.lo < stop.hi
  {
    var rows := Sorted(Roots(table));
    if stop.lo < stop.hi {
      assert page.messages[0].key == rows[stop.lo..stop.hi][0];
      CursorLeaves(Roots(table), stop.lo);
    }
  }

  /**
   has_more of a first page tells truly whether older rows remain exactly when there are at most 50
   rows, more than 300, or the cache served the page.
   */
  lemma FirstHasMoreRightIff(table: Table, page: Page)
    requires var n := |Roots(table)|;
             && Shows(table, page, FirstStop(n)) && page.hasMore == FirstMore(n, page.source.Cache?)
             && (page.source.Cache? ==> n >= HOT_HISTORY_LIMIT)
    ensures var n := |Roots(table)|;
            (page.hasMore <==> OlderRemain(table, page)) <==>
            n <= HISTORY_PAGE_SIZE || n > HOT_HISTORY_LIMIT || page.source.Cache?
  {
    OlderRemainIff(table, page, FirstStop(|Roots(table)|));
  }

  /**
   has_more of a page before row n is true exactly when, from the cache, more than 50 rows precede
   the cursor, or, from the database, not precisely 51 do: then only the row jumped over is left.
   */
  lemma CursorHasMoreRightIff(table: Table, n: nat, page: Page)
    requires Shows(table, page, Request(n, page.source.Cache?, false)) && page.hasMore == More(n, page.source.Cache?)
    requires page.source.Cache? ==> n >= HISTORY_PAGE_SIZE
    ensures (page.hasMore <==> OlderRemain(table, page)) <==>
            if page.source.Cache? then n > HISTORY_PAGE_SIZE else n != HISTORY_PAGE_SIZE + 1
  {
    OlderRemainIff(table, page, Request(n, page.source.Cache?, false));
  }

  /** Which pages the cache served. */
  function Served(pages: seq<Page>): nat -> bool {
    (k: nat) => k < |pages| && pages[k].source.Cache?
  }

  lemma SliceElements(s: seq<Key>, lo: nat, hi: nat)
    requires lo <= hi <= |s|
    ensures Elements(s[lo..hi]) <= Elements(s)
  {
  }

  lemma FirstPageShows(table: Table, page: Page)
    requires page.messages == NewestPage(table, None, HISTORY_PAGE_SIZE)
    ensures Shows(table, page, FirstStop(|Roots(table)|))
  {
    var rows := Sorted(Roots(table));
    var stop := FirstStop(|rows|);
    SliceElements(rows, stop.lo, stop.hi);
    assert Last(rows, HISTORY_PAGE_SIZE) == rows[stop.lo..stop.hi];
  }

  lemma CursorPageShows(table: Table, lo: nat, cursor: Key, page: Page)
    requires lo < |Roots(table)| && cursor == Sorted(Roots(table))[lo]
    requires Answered(table, cursor, page)
    ensures Shows(table, page, Request(lo, page.source.Cache?, false))
    ensures page.hasMore == More(lo, page.source.Cache?)
  {
    var rows := Sorted(Roots(table));
    CursorLeaves(Roots(table), lo);
    PageKeysAreTheHandlers(table, cursor, page);
    RequestIsPage(rows, lo, page.source.Cache?, false);
    var stop := Request(lo, page.source.Cache?, false);
    SliceElements(rows, stop.lo, stop.hi);
  }

  /** The stops follow one another as the pages' sources and announcements demand. */
  ghost predicate Follows(stops: seq<Stop>, cached: nat -> bool) {
    forall k :: 1 <= k < |stops| ==> stops[k] == Request(stops[k - 1].lo, cached(k), false)
  }

  lemma {:induction false} FollowsIsWalk(stops: seq<Stop>, cached: nat -> bool, k: nat)
    requires Follows(stops, cached) && 1 <= k < |stops|
    requires forall j :: k <= j < |stops| - 1 ==> More(stops[j].top, cached(j))
    requires !More(stops[|stops| - 1].top, cached(|stops| - 1))
    ensures Walk(stops[k - 1].lo, cached, k, false) == stops[k..]
    decreases |stops| - k
  {
    if k < |stops| - 1 {
      FollowsIsWalk(stops, cached, k + 1);
      assert stops[k..] == [stops[k]] + stops[k + 1..];
    } else {
      assert stops[k..] == [stops[k]];
    }
  }

  /** An agreeing index has what it takes for an intended page. */
  lemma Intended(order: set<Key>, payload: map<Key, Message>, table: Table, before: Option<Key>)
    requires Agrees(order, payload, table)
    ensures Mirrors(order, payload, table)
    ensures UpwardClosed(Newest(Found(order, payload, before), HISTORY_PAGE_SIZE), Candidates(table, before))
    ensures |LoadHot(order, payload, before)| >= CacheLimit(before) ==>
              |Candidates(table, before)| >= CacheLimit(before)
  {
    AgreesMirrors(order, payload, table);
    FoundUpwardClosed(order, payload, table, before, HISTORY_PAGE_SIZE);
    if |LoadHot(order, payload, before)| >= CacheLimit(before) {
      FullHotPageIsTablePage(order, payload, table, before);
    }
  }

  // ----- what the cache can serve -----

  function SameTime(order: set<Key>, at: int): set<Key> {
    set k | k in order && k.at == at
  }

  /**
   The score range reads at most 300 entries from the cursor's millisecond down; in an index of more
   entries it still reaches 50 below the cursor unless over 250 share that millisecond.
   */
  ghost predicate Spread(order: set<Key>) {
    |order| <= HOT_HISTORY_LIMIT || forall at :: |SameTime(order, at)| <= HOT_HISTORY_LIMIT - HISTORY_PAGE_SIZE
  }

  lemma ReachedBelow(order: set<Key>, c: Key)
    requires Spread(order)
    ensures Reached(order, Some(c)) <= Before(order, c)
    ensures |Reached(order, Some(c))| >= HISTORY_PAGE_SIZE <==> |Before(order, c)| >= HISTORY_PAGE_SIZE
  {
    var atMost := AtMost(order, c.at);
    var reached := Reached(order, Some(c));
    SubsetCount(reached, Before(order, c));
    SubsetCount(atMost, order);
    NewestCount(atMost, HOT_HISTORY_LIMIT);
    if |atMost| <= HOT_HISTORY_LIMIT {
      assert reached == Before(order, c);
    } else {
      var newest := Newest(atMost, HOT_HISTORY_LIMIT);
      assert newest - reached <= SameTime(order, c.at);
      SubsetCount(newest - reached, SameTime(order, c.at));
      assert |newest - reached| == |newest| - |reached|;
    }
  }

  /** Every entry of the index has its payload, the row's view; replies may be among them. */
  ghost predicate Copied(order: set<Key>, payload: map<Key, Message>, table: Table) {
    order <= payload.Keys && Mirrors(order, payload, table)
  }

  /** A cached cursor read is full exactly when the index holds 50 entries before the cursor. */
  lemma FullReadIff(order: set<Key>, payload: map<Key, Message>, table: Table, c: Key)
    requires Copied(order, payload, table) && Spread(order)
    ensures |LoadHot(order, payload, Some(c))| >= HISTORY_PAGE_SIZE <==> |Before(order, c)| >= HISTORY_PAGE_SIZE
  {
    HotPageKeys(order, payload, table, Some(c));
    ReachedBelow(order, c);
    assert Found(order, payload, Some(c)) == Reached(order, Some(c));
  }

  /** A first read is full exactly when the index holds 300 entries. */
  lemma FullFirstReadIff(order: set<Key>, payload: map<Key, Message>, table: Table)
    requires Copied(order, payload, table)
    ensures |LoadHot(order, payload, None)| >= HOT_HISTORY_LIMIT <==> |order| >= HOT_HISTORY_LIMIT
  {
    HotPageKeys(order, payload, table, None);
    NewestCount(order, HOT_HISTORY_LIMIT);
    assert Found(order, payload, None) == Newest(order, HOT_HISTORY_LIMIT);
  }

  /** An index without gaps is the tail of the rows. */
  lemma IndexIsTail(order: set<Key>, S: set<Key>)
    requires UpwardClosed(order, S)
    ensures |order| <= |S| && Sorted(order) == Last(Sorted(S), |order|)
  {
    SubsetCount(order, S);
    UpwardClosedTail(order, S, |order|);
    LastOfAll(Sorted(order), |order|);
  }

  lemma LastOfAll(s: seq<Key>, n: nat)
    requires n == |s|
    ensures Last(s, n) == s
  {
  }

  /** How many entries an index without gaps has before row lo. */
  lemma EntriesBefore(order: set<Key>, S: set<Key>, lo: nat)
    requires UpwardClosed(order, S) && lo < |S|
    ensures |order| <= |S|
    ensures |Before(order, Sorted(S)[lo])| == if lo + |order| >= |S| then lo + |order| - |S| else 0
  {
    IndexIsTail(order, S);
    TailBefore(Sorted(order), Sorted(S), lo);
  }

  lemma TailBefore(tail: seq<Key>, rows: seq<Key>, lo: nat)
    requires Ascending(tail) && Ascending(rows) && |tail| <= |rows| && tail == Last(rows, |tail|) && lo < |rows|
    ensures |Before(Elements(tail), rows[lo])| == if lo + |tail| >= |rows| then lo + |tail| - |rows| else 0
  {
    var below := |rows| - |tail|;
    assert tail == rows[below..];
    if lo >= below {
      assert tail[lo - below] == rows[lo];
      PrefixIsBefore(tail, lo - below);
      ElementsCount(tail[..lo - below]);
    } else {
      forall k | k in Elements(tail) ensures !Less(k, rows[lo]) {
        var j :| 0 <= j < |tail| && tail[j] == k;
        assert tail[j] == rows[below + j] && Less(rows[lo], rows[below + j]);
      }
      assert Before(Elements(tail), rows[lo]) == {};
    }
  }

  /** A hydrate fills an index of fewer than 300 entries up to exactly the newest 300 rows. */
  lemma HydrateFills(order: set<Key>, S: set<Key>)
    requires UpwardClosed(order, S) && |order| < HOT_HISTORY_LIMIT
    ensures order + Newest(S, HOT_HISTORY_LIMIT) == Newest(S, HOT_HISTORY_LIMIT)
    ensures |Newest(S, HOT_HISTORY_LIMIT)| == if |S| <= HOT_HISTORY_LIMIT then |S| else HOT_HISTORY_LIMIT
  {
    NewestCount(S, HOT_HISTORY_LIMIT);
    forall k | k in order ensures k in Newest(S, HOT_HISTORY_LIMIT) {
      assert Newer(S, k) <= order;
      SubsetCount(Newer(S, k), order);
    }
  }

  // ----- the client's requests -----

  /**
   The first page of an agreeing index: who serves it, what it shows, what has_more says and when it
   is right, and how many entries the index then has.
   */
  method FirstPage(index: ChannelIndex, table: Table) returns (page: Page)
    requires Agrees(index.order, index.payload, table)
    modifies index
    ensures Agrees(index.order, index.payload, table)
    ensures page.source.Cache? <==> |old(index.order)| >= HOT_HISTORY_LIMIT
    ensures page.source.Cache? ==> |Roots(table)| >= HOT_HISTORY_LIMIT && index.order == old(index.order)
    ensures page.source.Database? ==>
              |index.order| == if |Roots(table)| <= HOT_HISTORY_LIMIT then |Roots(table)| else HOT_HISTORY_LIMIT
    ensures Shows(table, page, FirstStop(|Roots(table)|))
    ensures page.hasMore == FirstMore(|Roots(table)|, page.source.Cache?)
    ensures (page.hasMore <==> OlderRemain(table, page)) <==>
            |Roots(table)| <= HISTORY_PAGE_SIZE || |Roots(table)| > HOT_HISTORY_LIMIT || page.source.Cache?
  {
    Intended(index.order, index.payload, table, None);
    FullFirstReadIff(index.order, index.payload, table);
    page := SendHistoryPage(index, index.order, table, None);
    FirstPageShows(table, page);
    if page.source.Database? {
      HydrateFills(old(index.order), Roots(table));
      NewestPageKeys(table, HOT_HISTORY_LIMIT);
    }
    FirstHasMoreRightIff(table, page);
  }

  /** The page before the oldest row held, row lo: who serves it, what it shows, and when has_more is right. */
  method OlderPage(index: ChannelIndex, table: Table, oldest: Key, ghost lo: nat) returns (page: Page)
    requires Agrees(index.order, index.payload, table)
    requires lo < |Roots(table)| && oldest == Sorted(Roots(table))[lo]
    modifies index
    ensures index.order == old(index.order) && index.payload == old(index.payload)
    ensures page.source.Cache? ==> lo >= HISTORY_PAGE_SIZE
    ensures Spread(index.order) ==>
              (page.source.Cache? <==> lo + |index.order| >= |Roots(table)| + HISTORY_PAGE_SIZE)
    ensures Shows(table, page, Request(lo, page.source.Cache?, false))
    ensures page.hasMore == More(lo, page.source.Cache?)
    ensures (page.hasMore <==> OlderRemain(table, page)) <==>
            if page.source.Cache? then lo > HISTORY_PAGE_SIZE else lo != HISTORY_PAGE_SIZE + 1
  {
    Intended(index.order, index.payload, table, Some(oldest));
    CursorLeaves(Roots(table), lo);
    CacheServesIff(index.order, index.payload, table, oldest, lo);
    page := SendHistoryPage(index, index.order, table, Some(oldest));
    CursorPageShows(table, lo, oldest, page);
    CursorHasMoreRightIff(table, lo, page);
  }

  lemma CacheServesIff(order: set<Key>, payload: map<Key, Message>, table: Table, oldest: Key, lo: nat)
    requires Agrees(order, payload, table)
    requires lo < |Roots(table)| && oldest == Sorted(Roots(table))[lo]
    ensures Spread(order) ==>
              (|LoadHot(order, payload, Some(oldest))| >= HISTORY_PAGE_SIZE <==>
               lo + |order| >= |Roots(table)| + HISTORY_PAGE_SIZE)
  {
    if Spread(order) {
      FullReadIff(order, payload, table, oldest);
      EntriesBefore(order, Roots(table), lo);
    }
  }

  /** What the client has received so far: each page shows its stop, and all but the last announced more. */
  ghost predicate Received(table: Table, pages: seq<Page>, stops: seq<Stop>) {
    && |pages| == |stops| > 0
    && (forall k :: 0 <= k < |pages| ==> Shows(table, pages[k], stops[k]))
    && Linked(|Roots(table)|, pages, stops)
  }

  ghost predicate Linked(n: nat, pages: seq<Page>, stops: seq<Stop>)
    requires |pages| == |stops| > 0
  {
    && stops[0] == FirstStop(n) && pages[0].hasMore == FirstMore(n, pages[0].source.Cache?)
    && (forall k :: 1 <= k < |stops| ==>
          && stops[k] == Request(stops[k - 1].lo, pages[k].source.Cache?, false)
          && pages[k].hasMore == More(stops[k].top, pages[k].source.Cache?))
    && (forall k :: 0 <= k < |pages| - 1 ==> pages[k].hasMore)
  }

  lemma OldestHeld(table: Table, pages: seq<Page>, stops: seq<Stop>)
    requires Received(table, pages, stops) && pages[|pages| - 1].hasMore
    ensures var last := stops[|stops| - 1];
            && last.lo < last.hi <= last.top && last.lo < |Roots(table)|
            && pages[|pages| - 1].messages != []
            && pages[|pages| - 1].messages[0].key == Sorted(Roots(table))[last.lo]
  {
    var i := |stops| - 1;
    var last, rows := stops[i], Sorted(Roots(table));
    assert Shows(table, pages[i], last);
    if i > 0 {
      assert last == Request(stops[i - 1].lo, pages[i].source.Cache?, false);
    }
    assert last.lo < last.hi;
    assert pages[i].messages[0].key == rows[last.lo..last.hi][0];
  }

  lemma ReceivedGrows(table: Table, pages: seq<Page>, stops: seq<Stop>, page: Page)
    requires Received(table, pages, stops) && pages[|pages| - 1].hasMore
    requires var lo := stops[|stops| - 1].lo;
             Shows(table, page, Request(lo, page.source.Cache?, false)) && page.hasMore == More(lo, page.source.Cache?)
    ensures Received(table, pages + [page], stops + [Request(stops[|stops| - 1].lo, page.source.Cache?, false)])
  {
    LinkedGrows(|Roots(table)|, pages, stops, page);
  }

  lemma LinkedGrows(n: nat, pages: seq<Page>, stops: seq<Stop>, page: Page)
    requires |pages| == |stops| > 0 && Linked(n, pages, stops) && pages[|pages| - 1].hasMore
    requires page.hasMore == More(stops[|stops| - 1].lo, page.source.Cache?)
    ensures Linked(n, pages + [page], stops + [Request(stops[|stops| - 1].lo, page.source.Cache?, false)])
  {
  }

  /** Each cursor page came from the cache exactly when the index, of m entries then, had 50 before its cursor. */
  ghost predicate ServedBy(n: nat, m: nat, pages: seq<Page>, stops: seq<Stop>)
    requires |pages| == |stops|
  {
    forall k :: 1 <= k < |pages| ==> (pages[k].source.Cache? <==> stops[k - 1].lo + m >= n + HISTORY_PAGE_SIZE)
  }

  /** Some page shows the row. */
  ghost predicate Seen(pages: seq<Page>, row: Key) {
    exists k, j :: 0 <= k < |pages| && 0 <= j < |pages[k].messages| && pages[k].messages[j].key == row
  }

  lemma SeenIff(table: Table, rows: seq<Key>, pages: seq<Page>, stops: seq<Stop>, i: nat)
    requires Ascending(rows) && |pages| == |stops| && i < |rows|
    requires forall k :: 0 <= k < |pages| ==> ShowsRows(table, rows, pages[k], stops[k])
    ensures Seen(pages, rows[i]) <==> ShownAt(stops, i)
  {
    if ShownAt(stops, i) {
      var k :| 0 <= k < |stops| && stops[k].lo <= i < stops[k].hi;
      KeyAt(table, rows, pages[k], stops[k], i - stops[k].lo);
    }
    if Seen(pages, rows[i]) {
      var k, j :| 0 <= k < |pages| && 0 <= j < |pages[k].messages| && pages[k].messages[j].key == rows[i];
      KeyAt(table, rows, pages[k], stops[k], j);
      SamePlace(rows, stops[k].lo + j, i);
    }
  }

  lemma KeyAt(table: Table, rows: seq<Key>, page: Page, stop: Stop, j: nat)
    requires ShowsRows(table, rows, page, stop)
    ensures |page.messages| == stop.hi - stop.lo && stop.hi <= |rows|
    ensures j < |page.messages| ==> page.messages[j].key == rows[stop.lo + j]
  {
  }

  lemma SamePlace(rows: seq<Key>, i: nat, j: nat)
    requires Ascending(rows) && i < |rows| && j < |rows| && rows[i] == rows[j]
    ensures i == j
  {
  }

  /** The rows no page shows are exactly the missed ones. */
  ghost predicate LosesExactly(table: Table, m: nat, pages: seq<Page>) {
    forall i :: 0 <= i < |Roots(table)| ==>
      (Seen(pages, Sorted(Roots(table))[i]) <==> !Missed(|Roots(table)|, m, i))
  }

  ghost predicate LosesNothing(table: Table, pages: seq<Page>) {
    forall row :: row in Roots(table) ==> Seen(pages, row)
  }

  /** By induction, the cache serves the first pages and the database the rest. */
  lemma {:induction false} SourceAt(n: nat, m: nat, size: nat, pages: seq<Page>, stops: seq<Stop>, k: nat)
    requires m <= n && |pages| == |stops| > 1 && Linked(n, pages, stops) && Continues(n, m)
    requires size == if m >= HOT_HISTORY_LIMIT then m else HOT_HISTORY_LIMIT
    requires ServedBy(n, size, pages, stops) && 1 <= k < |pages|
    ensures pages[k].source.Cache? == (k < CachedPages(m))
    ensures k < CachedPages(m) ==> stops[k].lo == n - HISTORY_PAGE_SIZE * (k + 1)
    ensures k >= CachedPages(m) ==> stops[k].lo + HISTORY_PAGE_SIZE * CachedPages(m) <= n
  {
    if k > 1 {
      SourceAt(n, m, size, pages, stops, k - 1);
    }
    assert stops[k] == Request(stops[k - 1].lo, pages[k].source.Cache?, false);
  }

  /**
   A client over an index that agrees with the table, with nobody else at work: it receives exactly
   the pages of the scroll-back, page by page. The row count and the size of the index decide who
   serves each page, and so exactly which rows the client never sees.
   */
  method ScrollBack(index: ChannelIndex, table: Table) returns (pages: seq<Page>, ghost stops: seq<Stop>)
    requires Agrees(index.order, index.payload, table)
    modifies index
    ensures Agrees(index.order, index.payload, table)
    ensures stops == Scroll(|Roots(table)|, Served(pages), false)
    ensures |pages| == |stops| && forall k :: 0 <= k < |pages| ==> Shows(table, pages[k], stops[k])
    ensures Spread(old(index.order)) ==>
              && |old(index.order)| <= |Roots(table)|
              && stops == Scroll(|Roots(table)|, Sources(|old(index.order)|), false)
              && LosesExactly(table, |old(index.order)|, pages)
              && (LosesNothing(table, pages) <==> Complete(|Roots(table)|, |old(index.order)|))
  {
    ghost var m := |index.order|;
    SubsetCount(index.order, Roots(table));
    var page := FirstPage(index, table);
    ghost var size := |index.order|;
    FirstAsked(table, m, index.order, page);
    pages, stops := AskOlder(index, table, m, page);
    PagesAreScroll(|Roots(table)|, pages, stops, Served(pages));
    if Spread(old(index.order)) {
      ScrollOutcome(table, m, size, pages, stops);
    }
  }

  lemma FirstAsked(table: Table, m: nat, order: set<Key>, page: Page)
    requires Shows(table, page, FirstStop(|Roots(table)|))
    requires page.hasMore == FirstMore(|Roots(table)|, page.source.Cache?)
    requires page.source.Cache? <==> m >= HOT_HISTORY_LIMIT
    ensures Asked(table, m, order, [page], [FirstStop(|Roots(table)|)])
  {
  }

  /** The loop: ask for the page before the oldest row held while the last page announced more. */
  method AskOlder(index: ChannelIndex, table: Table, ghost m: nat, first: Page)
    returns (pages: seq<Page>, ghost stops: seq<Stop>)
    requires Agrees(index.order, index.payload, table)
    requires Asked(table, m, index.order, [first], [FirstStop(|Roots(table)|)])
    modifies index
    ensures index.order == old(index.order) && index.payload == old(index.payload)
    ensures Asked(table, m, index.order, pages, stops) && !pages[|pages| - 1].hasMore
  {
    pages, stops := [first], [FirstStop(|Roots(table)|)];
    while pages[|pages| - 1].hasMore
      invariant index.order == old(index.order) && index.payload == old(index.payload)
      invariant Asked(table, m, index.order, pages, stops)
      decreases stops[|stops| - 1].top
    {
      OldestHeld(table, pages, stops);
      ghost var lo := stops[|stops| - 1].lo;
      var oldest := pages[|pages| - 1].messages[0].key;
      var page := OlderPage(index, table, oldest, lo);
      stops := AskedGrows(table, m, index.order, pages, stops, page);
      pages := pages + [page];
    }
  }

  /** What the client has received, with the index it found and the order after its first page. */
  ghost predicate Asked(table: Table, m: nat, order: set<Key>, pages: seq<Page>, stops: seq<Stop>) {
    && Received(table, pages, stops)
    && (pages[0].source.Cache? <==> m >= HOT_HISTORY_LIMIT)
    && (Spread(order) ==> ServedBy(|Roots(table)|, |order|, pages, stops))
  }

  lemma AskedGrows(table: Table, m: nat, order: set<Key>, pages: seq<Page>, stops: seq<Stop>, page: Page)
    returns (more: seq<Stop>)
    requires Asked(table, m, order, pages, stops) && pages[|pages| - 1].hasMore
    requires var lo := stops[|stops| - 1].lo;
             && Shows(table, page, Request(lo, page.source.Cache?, false))
             && page.hasMore == More(lo, page.source.Cache?)
             && (Spread(order) ==> (page.source.Cache? <==> lo + |order| >= |Roots(table)| + HISTORY_PAGE_SIZE))
    ensures Asked(table, m, order, pages + [page], more)
    ensures more[|more| - 1].top == stops[|stops| - 1].lo
  {
    more := stops + [Request(stops[|stops| - 1].lo, page.source.Cache?, false)];
    ReceivedGrows(table, pages, stops, page);
  }

  lemma ScrollOutcome(table: Table, m: nat, size: nat, pages: seq<Page>, stops: seq<Stop>)
    requires m <= |Roots(table)| && Received(table, pages, stops) && !pages[|pages| - 1].hasMore
    requires pages[0].source.Cache? <==> m >= HOT_HISTORY_LIMIT
    requires Continues(|Roots(table)|, m) ==> size == if m >= HOT_HISTORY_LIMIT then m else HOT_HISTORY_LIMIT
    requires ServedBy(|Roots(table)|, size, pages, stops)
    ensures stops == Scroll(|Roots(table)|, Sources(m), false)
    ensures LosesExactly(table, m, pages)
    ensures LosesNothing(table, pages) <==> Complete(|Roots(table)|, m)
  {
    SourcesAre(|Roots(table)|, m, size, pages, stops);
    PagesAreScroll(|Roots(table)|, pages, stops, Sources(m));
    RowsSeen(table, m, pages, stops);
  }

  lemma SourcesAre(n: nat, m: nat, size: nat, pages: seq<Page>, stops: seq<Stop>)
    requires m <= n && |pages| == |stops| > 0 && Linked(n, pages, stops)
    requires pages[0].source.Cache? <==> m >= HOT_HISTORY_LIMIT
    requires Continues(n, m) ==> size == if m >= HOT_HISTORY_LIMIT then m else HOT_HISTORY_LIMIT
    requires ServedBy(n, size, pages, stops)
    ensures forall k :: 0 <= k < |pages| ==> pages[k].source.Cache? == Sources(m)(k)
  {
    forall k | 1 <= k < |pages| ensures pages[k].source.Cache? == Sources(m)(k) {
      SourceAt(n, m, size, pages, stops, k);
    }
  }

  lemma RowsSeen(table: Table, m: nat, pages: seq<Page>, stops: seq<Stop>)
    requires m <= |Roots(table)| && stops == Scroll(|Roots(table)|, Sources(m), false)
    requires |pages| == |stops| && forall k :: 0 <= k < |pages| ==> Shows(table, pages[k], stops[k])
    ensures LosesExactly(table, m, pages)
    ensures LosesNothing(table, pages) <==> Complete(|Roots(table)|, m)
  {
    RowsSeenIn(table, Roots(table), Sorted(Roots(table)), m, pages, stops);
  }

  lemma RowsSeenIn(table: Table, S: set<Key>, rows: seq<Key>, m: nat, pages: seq<Page>, stops: seq<Stop>)
    requires Ascending(rows) && Elements(rows) == S && m <= |rows|
    requires stops == Scroll(|rows|, Sources(m), false) && |pages| == |stops|
    requires forall k :: 0 <= k < |pages| ==> ShowsRows(table, rows, pages[k], stops[k])
    ensures forall i :: 0 <= i < |rows| ==> (Seen(pages, rows[i]) <==> !Missed(|rows|, m, i))
    ensures (forall row :: row in S ==> Seen(pages, row)) <==> Complete(|rows|, m)
  {
    forall i | 0 <= i < |rows|
      ensures Seen(pages, rows[i]) <==> !Missed(|rows|, m, i)
      ensures Seen(pages, rows[i]) <==> ShownAt(stops, i)
    {
      SeenIff(table, rows, pages, stops, i);
      ScrollMisses(|rows|, m, i);
    }
    AllRows(S, rows, pages);
    ScrollShowsAllIff(|rows|, m);
  }

  lemma AllRows(S: set<Key>, rows: seq<Key>, pages: seq<Page>)
    requires Elements(rows) == S
    ensures (forall row :: row in S ==> Seen(pages, row)) <==> (forall i :: 0 <= i < |rows| ==> Seen(pages, rows[i]))
  {
    if forall row :: row in S ==> Seen(pages, row) {
      forall i | 0 <= i < |rows| ensures Seen(pages, rows[i]) {
        assert rows[i] in Elements(rows);
      }
    }
    if forall i :: 0 <= i < |rows| ==> Seen(pages, rows[i]) {
      forall row | row in S ensures Seen(pages, row) {
        var i :| 0 <= i < |rows| && rows[i] == row;
      }
    }
  }

  lemma PagesAreScroll(n: nat, pages: seq<Page>, stops: seq<Stop>, cached: nat -> bool)
    requires |pages| == |stops| > 0 && Linked(n, pages, stops)
    requires !pages[|pages| - 1].hasMore
    requires forall k :: 0 <= k < |pages| ==> cached(k) == pages[k].source.Cache?
    ensures stops == Scroll(n, cached, false)
  {
    if |stops| > 1 {
      FollowsIsWalk(stops, cached, 1);
      assert stops == [stops[0]] + stops[1..];
    } else {
      assert stops == [stops[0]];
    }
  }
}
