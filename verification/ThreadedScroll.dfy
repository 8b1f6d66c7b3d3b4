/**
 A client scrolling back through the handler in a channel with threads: the index holds replies
 among the root rows, so cached pages show both, while database pages show root rows only.
 */
module ThreadedScroll {
  import opened KeyOrder
  import opened ChatTypes
  import opened HotIndex
  import opened HistoryPages
  import opened PageWalk
  import opened ClientScroll

  // ----- an index with replies -----

  /** No root row newer than an entry is missing; replies may be there or not. */
  ghost predicate Gapless(order: set<Key>, roots: set<Key>) {
    forall a, b :: a in order && b in roots && Less(a, b) ==> b in order
  }

  ghost predicate Threaded(order: set<Key>, payload: map<Key, Message>, table: Table) {
    Copied(order, payload, table) && Gapless(order, Roots(table))
  }

  /** No millisecond has more than 250 rows. */
  ghost predicate Sparse(table: Table) {
    forall at :: |SameTime(table.Keys, at)| <= HOT_HISTORY_LIMIT - HISTORY_PAGE_SIZE
  }

  lemma SparseSpread(order: set<Key>, payload: map<Key, Message>, table: Table)
    requires Copied(order, payload, table) && Sparse(table)
    ensures order <= table.Keys && Spread(order)
  {
    forall at ensures |SameTime(order, at)| <= HOT_HISTORY_LIMIT - HISTORY_PAGE_SIZE {
      assert SameTime(order, at) <= SameTime(table.Keys, at);
      SubsetCount(SameTime(order, at), SameTime(table.Keys, at));
    }
  }

  /** An agreeing index is one without replies. */
  lemma AgreesIsThreaded(order: set<Key>, payload: map<Key, Message>, table: Table)
    requires Agrees(order, payload, table)
    ensures Threaded(order, payload, table)
  {
    AgreesMirrors(order, payload, table);
  }

  /** An index without any gap among all rows, replies included, is one too. */
  lemma UpwardClosedIsThreaded(order: set<Key>, payload: map<Key, Message>, table: Table)
    requires Copied(order, payload, table) && UpwardClosed(order, table.Keys)
    ensures Threaded(order, payload, table)
  {
  }

  lemma HydrateThreads(order: set<Key>, payload: map<Key, Message>, table: Table, page: seq<Message>, n: nat)
    requires Threaded(order, payload, table) && page == NewestPage(table, None, n)
    ensures KeysOf(page) == Newest(Roots(table), n)
    ensures Threaded(order + KeysOf(page), PutAll(payload, page), table)
  {
    NewestPageKeys(table, n);
    PutViews(payload, table, page);
    NewestUpwardClosed(Roots(table), n);
  }

  // ----- cached pages -----

  /** The newest 50 entries a cursor read finds are the newest 50 the index has before the cursor. */
  lemma CachedCursorPage(order: set<Key>, payload: map<Key, Message>, table: Table, c: Key)
    requires Copied(order, payload, table) && Spread(order) && |Before(order, c)| >= HISTORY_PAGE_SIZE
    ensures Elements(Last(Sorted(Before(order, c)), HISTORY_PAGE_SIZE)) <= table.Keys
    ensures Last(LoadHot(order, payload, Some(c)), HISTORY_PAGE_SIZE)
            == Views(table, Last(Sorted(Before(order, c)), HISTORY_PAGE_SIZE))
  {
    var reached := Reached(order, Some(c));
    HotPageKeys(order, payload, table, Some(c));
    ReachedBelow(order, c);
    assert Found(order, payload, Some(c)) == reached;
    ReachedGapless(order, c);
    UpwardClosedTail(reached, Before(order, c), HISTORY_PAGE_SIZE);
    LastOfViews(table, Sorted(reached), HISTORY_PAGE_SIZE);
    LastOfLast(Views(table, Sorted(reached)), HISTORY_PAGE_SIZE, HISTORY_PAGE_SIZE);
  }

  lemma ReachedGapless(order: set<Key>, c: Key)
    ensures UpwardClosed(Reached(order, Some(c)), Before(order, c))
  {
    NewestUpwardClosed(AtMost(order, c.at), HOT_HISTORY_LIMIT);
  }

  lemma CachedFirstPage(order: set<Key>, payload: map<Key, Message>, table: Table)
    requires Copied(order, payload, table)
    ensures Elements(Last(Sorted(order), HISTORY_PAGE_SIZE)) <= table.Keys
    ensures Last(LoadHot(order, payload, None), HISTORY_PAGE_SIZE)
            == Views(table, Last(Sorted(order), HISTORY_PAGE_SIZE))
  {
    var newest := Newest(order, HOT_HISTORY_LIMIT);
    HotPageKeys(order, payload, table, None);
    assert Found(order, payload, None) == newest;
    NewestIsTail(order, HOT_HISTORY_LIMIT);
    LastOfLast(Sorted(order), HOT_HISTORY_LIMIT, HISTORY_PAGE_SIZE);
    LastOfLast(Views(table, Sorted(newest)), HOT_HISTORY_LIMIT, HISTORY_PAGE_SIZE);
    LastOfViews(table, Sorted(newest), HISTORY_PAGE_SIZE);
  }

  // ----- the three kinds of request -----

  /** The first page: the newest 50 entries if the index has 300, else the newest 50 root rows and a hydrate. */
  method AskFirst(index: ChannelIndex, table: Table) returns (page: Page)
    requires Threaded(index.order, index.payload, table)
    modifies index
    ensures Threaded(index.order, index.payload, table)
    ensures |old(index.order)| >= HOT_HISTORY_LIMIT ==>
              && index.order == old(index.order) && page.hasMore
              && ShowsRows(table, Sorted(index.order), page, FirstStop(|index.order|))
    ensures |old(index.order)| < HOT_HISTORY_LIMIT ==>
              && index.order == old(index.order) + Newest(Roots(table), HOT_HISTORY_LIMIT)
              && (page.hasMore <==> |Roots(table)| > HOT_HISTORY_LIMIT)
              && ShowsRows(table, Sorted(Roots(table)), page, FirstStop(|Roots(table)|))
  {
    FullFirstReadIff(index.order, index.payload, table);
    CachedFirstPage(index.order, index.payload, table);
    HydrateThreads(index.order, index.payload, table, NewestPage(table, None, HOT_HISTORY_LIMIT), HOT_HISTORY_LIMIT);
    page := SendHistoryPage(index, index.order, table, None);
    if page.source.Cache? {
      LastIsFirstStop(Sorted(index.order));
    } else {
      FirstPageShows(table, page);
    }
  }

  lemma LastIsFirstStop(rows: seq<Key>)
    ensures Last(rows, HISTORY_PAGE_SIZE) == rows[FirstStop(|rows|).lo..FirstStop(|rows|).hi]
  {
  }

  /** A cursor page: the newest 50 entries before the cursor if the index has them, else what the database answers. */
  method AskOlder(index: ChannelIndex, table: Table, cursor: Key) returns (page: Page)
    requires Threaded(index.order, index.payload, table) && Spread(index.order)
    modifies index
    ensures index.order == old(index.order) && index.payload == old(index.payload)
    ensures page.source.Cache? <==> |Before(index.order, cursor)| >= HISTORY_PAGE_SIZE
    ensures page.source.Cache? ==> page.hasMore && ShowsNewest(table, Sorted(Before(index.order, cursor)), page)
    ensures page.source.Database? ==> Answered(table, cursor, page)
  {
    FullReadIff(index.order, index.payload, table, cursor);
    if |Before(index.order, cursor)| >= HISTORY_PAGE_SIZE {
      CachedCursorPage(index.order, index.payload, table, cursor);
    }
    page := SendHistoryPage(index, index.order, table, Some(cursor));
  }

  /** The page shows the newest 50 of the keys. */
  ghost predicate ShowsNewest(table: Table, keys: seq<Key>, page: Page) {
    && Elements(Last(keys, HISTORY_PAGE_SIZE)) <= table.Keys
    && page.messages == Views(table, Last(keys, HISTORY_PAGE_SIZE))
  }

  lemma LastOfPrefix(rows: seq<Key>, p: nat)
    requires HISTORY_PAGE_SIZE <= p <= |rows|
    ensures Last(rows[..p], HISTORY_PAGE_SIZE) == rows[p - HISTORY_PAGE_SIZE..p]
  {
  }

  lemma DatabasePageShows(table: Table, cursor: Key, lo: nat, page: Page)
    requires page.source.Database? && Answered(table, cursor, page)
    requires lo <= |Roots(table)| && Sorted(Before(Roots(table), cursor)) == Sorted(Roots(table))[..lo]
    ensures ShowsRows(table, Sorted(Roots(table)), page, Request(lo, false, false))
    ensures page.hasMore == More(lo, false)
  {
    PageKeysAreTheHandlers(table, cursor, page);
    RequestIsPage(Sorted(Roots(table)), lo, false, false);
  }

  // ----- which rows have been seen -----

  lemma SeenMore(table: Table, rows: seq<Key>, pages: seq<Page>, page: Page, stop: Stop, r: Key)
    requires ShowsRows(table, rows, page, stop)
    ensures Seen(pages + [page], r) <==> Seen(pages, r) || r in rows[stop.lo..stop.hi]
  {
    var more := pages + [page];
    if Seen(pages, r) {
      var k, j :| 0 <= k < |pages| && 0 <= j < |pages[k].messages| && pages[k].messages[j].key == r;
      assert more[k] == pages[k];
    }
    if r in rows[stop.lo..stop.hi] {
      var j :| 0 <= j < stop.hi - stop.lo && rows[stop.lo..stop.hi][j] == r;
      KeyAt(table, rows, page, stop, j);
      assert more[|pages|].messages[j].key == r;
    }
    if Seen(more, r) {
      var k, j :| 0 <= k < |more| && 0 <= j < |more[k].messages| && more[k].messages[j].key == r;
      if k < |pages| {
        assert pages[k].messages[j].key == r;
      } else {
        KeyAt(table, rows, page, stop, j);
        assert rows[stop.lo..stop.hi][j] == r;
      }
    }
  }

  /** The client has come down to entry p of the index. */
  predicate Passed(entries: seq<Key>, p: nat, r: Key) {
    p < |entries| && !Less(r, entries[p])
  }

  /** So far exactly the root rows from entry p up have been seen. */
  ghost predicate HotTill(roots: set<Key>, entries: seq<Key>, pages: seq<Page>, p: nat) {
    forall r :: r in roots ==> (Seen(pages, r) <==> Passed(entries, p, r))
  }

  /** A slice of 50 entries holds exactly the root rows between its ends. */
  lemma SliceCovers(roots: set<Key>, entries: seq<Key>, p: nat, r: Key)
    requires Ascending(entries) && Gapless(Elements(entries), roots) && r in roots
    requires HISTORY_PAGE_SIZE <= p <= |entries|
    ensures r in entries[p - HISTORY_PAGE_SIZE..p] <==>
            Passed(entries, p - HISTORY_PAGE_SIZE, r) && !Passed(entries, p, r)
  {
    var lo := p - HISTORY_PAGE_SIZE;
    if r in entries[lo..p] {
      var j :| 0 <= j < HISTORY_PAGE_SIZE && entries[lo..p][j] == r;
      assert entries[lo + j] == r;
    }
    if Passed(entries, lo, r) && !Passed(entries, p, r) {
      assert entries[lo] in Elements(entries);
      assert r in Elements(entries);
      var j :| 0 <= j < |entries| && entries[j] == r;
      assert lo <= j < p;
      assert entries[lo..p][j - lo] == r;
    }
  }

  lemma HotGrows(table: Table, roots: set<Key>, entries: seq<Key>, pages: seq<Page>, page: Page, p: nat)
    requires Ascending(entries) && Gapless(Elements(entries), roots) && HISTORY_PAGE_SIZE <= p <= |entries|
    requires HotTill(roots, entries, pages, p)
    requires ShowsRows(table, entries, page, Stop(p - HISTORY_PAGE_SIZE, p, p))
    ensures HotTill(roots, entries, pages + [page], p - HISTORY_PAGE_SIZE)
  {
    forall r | r in roots ensures Seen(pages + [page], r) <==> Passed(entries, p - HISTORY_PAGE_SIZE, r) {
      SeenMore(table, entries, pages, page, Stop(p - HISTORY_PAGE_SIZE, p, p), r);
      SliceCovers(roots, entries, p, r);
      assert Passed(entries, p, r) ==> Passed(entries, p - HISTORY_PAGE_SIZE, r);
    }
  }

  /** How many of the rows come before the key. */
  function Below(rows: seq<Key>, c: Key): nat {
    if rows == [] then 0 else Below(rows[..|rows| - 1], c) + if Less(rows[|rows| - 1], c) then 1 else 0
  }

  lemma {:induction false} BelowIsPrefix(rows: seq<Key>, c: Key)
    requires Ascending(rows)
    ensures Below(rows, c) <= |rows|
    ensures forall i :: 0 <= i < |rows| ==> (Less(rows[i], c) <==> i < Below(rows, c))
  {
    if rows != [] {
      BelowIsPrefix(rows[..|rows| - 1], c);
      assert forall i :: 0 <= i < |rows| - 1 ==> rows[..|rows| - 1][i] == rows[i];
    }
  }

  lemma BeforeIsPrefix(S: set<Key>, c: Key)
    ensures Below(Sorted(S), c) <= |S|
    ensures Sorted(Before(S, c)) == Sorted(S)[..Below(Sorted(S), c)]
  {
    BelowIsPrefix(Sorted(S), c);
    PrefixElements(Sorted(S), c, Below(Sorted(S), c));
    AscendingUnique(Sorted(Before(S, c)), Sorted(S)[..Below(Sorted(S), c)]);
  }

  lemma PrefixElements(rows: seq<Key>, c: Key, lo: nat)
    requires Ascending(rows) && lo <= |rows| && forall i :: 0 <= i < |rows| ==> (Less(rows[i], c) <==> i < lo)
    ensures Ascending(rows[..lo]) && Elements(rows[..lo]) == Before(Elements(rows), c)
  {
    forall k | k in Before(Elements(rows), c) ensures k in Elements(rows[..lo]) {
      var i :| 0 <= i < |rows| && rows[i] == k;
      assert rows[..lo][i] == k;
    }
  }

  // ----- pages below the index -----

  function Never(): nat -> bool {
    (k: nat) => false
  }

  /**
   The database pages so far; the first stop only marks where they start. Of the root rows exactly those
   above the start and those the stops show have been seen.
   */
  ghost predicate ColdTill(rows: seq<Key>, pages: seq<Page>, lo: nat, stops: seq<Stop>) {
    && |stops| > 0 && stops[0] == Stop(lo, lo, lo) && Follows(stops, Never())
    && (forall k :: 1 <= k < |stops| - 1 ==> More(stops[k].top, false))
    && stops[|stops| - 1].top <= lo && stops[|stops| - 1].lo <= lo
    && forall i :: 0 <= i < |rows| ==> (Seen(pages, rows[i]) <==> i >= lo || ShownAt(stops, i))
  }

  lemma ColdStarts(roots: set<Key>, rows: seq<Key>, entries: seq<Key>, pages: seq<Page>, p: nat)
    requires Ascending(rows) && Elements(rows) == roots && p < |entries| && HotTill(roots, entries, pages, p)
    ensures var lo := Below(rows, entries[p]); ColdTill(rows, pages, lo, [Stop(lo, lo, lo)])
  {
    BelowIsPrefix(rows, entries[p]);
    forall i | 0 <= i < |rows| ensures Seen(pages, rows[i]) <==> i >= Below(rows, entries[p]) {
      assert rows[i] in Elements(rows);
    }
  }

  lemma ColdGrows(table: Table, rows: seq<Key>, pages: seq<Page>, lo: nat, stops: seq<Stop>, page: Page)
    requires Ascending(rows) && ColdTill(rows, pages, lo, stops)
    requires |stops| > 1 ==> More(stops[|stops| - 1].top, false)
    requires ShowsRows(table, rows, page, Request(stops[|stops| - 1].lo, false, false))
    ensures ColdTill(rows, pages + [page], lo, stops + [Request(stops[|stops| - 1].lo, false, false)])
  {
    var stop := Request(stops[|stops| - 1].lo, false, false);
    forall i | 0 <= i < |rows| ensures Seen(pages + [page], rows[i]) <==> i >= lo || ShownAt(stops + [stop], i) {
      SeenMore(table, rows, pages, page, stop, rows[i]);
      InSlice(rows, stop.lo, stop.hi, i);
      ShownAppend(stops, stop, i);
    }
  }

  lemma InSlice(rows: seq<Key>, lo: nat, hi: nat, i: nat)
    requires Ascending(rows) && lo <= hi <= |rows| && i < |rows|
    ensures rows[i] in rows[lo..hi] <==> lo <= i < hi
  {
    if rows[i] in rows[lo..hi] {
      var j :| 0 <= j < hi - lo && rows[lo..hi][j] == rows[i];
      SamePlace(rows, lo + j, i);
    }
    if lo <= i < hi {
      assert rows[lo..hi][i - lo] == rows[i];
    }
  }

  lemma ShownAppend(stops: seq<Stop>, stop: Stop, i: nat)
    ensures ShownAt(stops + [stop], i) <==> ShownAt(stops, i) || stop.lo <= i < stop.hi
  {
    var more := stops + [stop];
    assert more[|stops|] == stop && forall k :: 0 <= k < |stops| ==> more[k] == stops[k];
  }

  /** When the last database page announces no more, the rows never seen are the gaps of the walk. */
  lemma ColdEnds(rows: seq<Key>, pages: seq<Page>, lo: nat, stops: seq<Stop>)
    requires ColdTill(rows, pages, lo, stops) && |stops| > 1 && lo <= |rows|
    requires !More(stops[|stops| - 1].top, false)
    ensures ShowsAllBut(rows, pages, lo)
  {
    FollowsIsWalk(stops, Never(), 1);
    assert stops == [stops[0]] + stops[1..];
    forall i | 0 <= i < |rows| ensures Seen(pages, rows[i]) <==> !Gap(lo, i) {
      Unfold(stops[0], stops[1..], i);
      if i < lo {
        DatabaseWalkSkips(lo, Never(), 1, i);
      }
    }
  }

  // ----- the scroll-back -----

  /** Where the client stands: at an entry of the index, or below it. */
  datatype Progress = Hot(p: nat) | Cold(stops: seq<Stop>)

  /**
   The pages received, with the index's entries; target is the entry below which the index no longer
   fills a page.
   */
  ghost predicate Scrolled(
    table: Table, rows: seq<Key>, entries: seq<Key>, target: nat, pages: seq<Page>, g: Progress)
  {
    && |pages| > 0 && target < HISTORY_PAGE_SIZE && target < |entries|
    && match g
       case Hot(p) =>
         && p < |entries| && p % HISTORY_PAGE_SIZE == target && pages[|pages| - 1].hasMore
         && pages[|pages| - 1].messages != [] && pages[|pages| - 1].messages[0].key == entries[p]
         && HotTill(Elements(rows), entries, pages, p)
       case Cold(stops) =>
         && ColdTill(rows, pages, Below(rows, entries[target]), stops) && |stops| > 1
         && pages[|pages| - 1].hasMore == More(stops[|stops| - 1].top, false)
         && ShowsRows(table, rows, pages[|pages| - 1], stops[|stops| - 1])
  }

  lemma HotToHot(table: Table, rows: seq<Key>, entries: seq<Key>, target: nat, pages: seq<Page>, p: nat, page: Page)
    requires Ascending(entries) && Gapless(Elements(entries), Elements(rows)) && p >= HISTORY_PAGE_SIZE
    requires Scrolled(table, rows, entries, target, pages, Hot(p))
    requires page.hasMore && ShowsNewest(table, entries[..p], page)
    ensures Scrolled(table, rows, entries, target, pages + [page], Hot(p - HISTORY_PAGE_SIZE))
  {
    LastOfPrefix(entries, p);
    var stop := Stop(p - HISTORY_PAGE_SIZE, p, p);
    assert ShowsRows(table, entries, page, stop);
    HotGrows(table, Elements(rows), entries, pages, page, p);
    KeyAt(table, entries, page, stop, 0);
  }

  lemma HotToCold(table: Table, rows: seq<Key>, entries: seq<Key>, target: nat, pages: seq<Page>, p: nat, page: Page)
    returns (stops: seq<Stop>)
    requires Ascending(rows) && p < HISTORY_PAGE_SIZE
    requires Scrolled(table, rows, entries, target, pages, Hot(p))
    requires ShowsRows(table, rows, page, Request(Below(rows, entries[p]), false, false))
    requires page.hasMore == More(Below(rows, entries[p]), false)
    ensures Scrolled(table, rows, entries, target, pages + [page], Cold(stops))
  {
    var lo := Below(rows, entries[p]);
    ColdStarts(Elements(rows), rows, entries, pages, p);
    ColdGrows(table, rows, pages, lo, [Stop(lo, lo, lo)], page);
    stops := [Stop(lo, lo, lo)] + [Request(lo, false, false)];
  }

  lemma ColdToCold(
    table: Table, rows: seq<Key>, entries: seq<Key>, target: nat, pages: seq<Page>, stops: seq<Stop>, page: Page)
    requires Ascending(rows) && Scrolled(table, rows, entries, target, pages, Cold(stops)) && pages[|pages| - 1].hasMore
    requires ShowsRows(table, rows, page, Request(stops[|stops| - 1].lo, false, false))
    requires page.hasMore == More(stops[|stops| - 1].lo, false)
    ensures Scrolled(
              table, rows, entries, target, pages + [page],
              Cold(stops + [Request(stops[|stops| - 1].lo, false, false)]))
  {
    ColdGrows(table, rows, pages, Below(rows, entries[target]), stops, page);
  }

  /** Below the index the cursor is a root row, and fewer than 50 entries precede it. */
  lemma ColdCursor(table: Table, rows: seq<Key>, entries: seq<Key>, target: nat, pages: seq<Page>, stops: seq<Stop>)
    requires Ascending(rows) && Ascending(entries)
    requires Scrolled(table, rows, entries, target, pages, Cold(stops)) && pages[|pages| - 1].hasMore
    ensures var last := stops[|stops| - 1];
            && last.lo < last.top && last.lo < |rows|
            && pages[|pages| - 1].messages != [] && pages[|pages| - 1].messages[0].key == rows[last.lo]
            && |Before(Elements(entries), rows[last.lo])| < HISTORY_PAGE_SIZE
  {
    var last, c := stops[|stops| - 1], entries[target];
    assert last == Request(stops[|stops| - 2].lo, false, false);
    KeyAt(table, rows, pages[|pages| - 1], last, 0);
    BelowIsPrefix(rows, c);
    PrefixIsBefore(entries, target);
    ElementsCount(entries[..target]);
    assert Less(rows[last.lo], c);
    SubsetCount(Before(Elements(entries), rows[last.lo]), Before(Elements(entries), c));
  }

  /** The index once the first page has been served. */
  function IndexAfter(table: Table, order: set<Key>): set<Key> {
    if |order| >= HOT_HISTORY_LIMIT then order else order + Newest(Roots(table), HOT_HISTORY_LIMIT)
  }

  /** The oldest row of a first page from the database. */
  ghost function FirstOldest(table: Table): Key
    requires |Roots(table)| > HISTORY_PAGE_SIZE
  {
    Sorted(Roots(table))[|Roots(table)| - HISTORY_PAGE_SIZE]
  }

  /** How many entries of the index are left when it no longer fills a page. */
  ghost function Leftover(table: Table, order: set<Key>): nat {
    if |order| >= HOT_HISTORY_LIMIT then |order| % HISTORY_PAGE_SIZE
    else if |Roots(table)| <= HISTORY_PAGE_SIZE then 0
    else |Before(IndexAfter(table, order), FirstOldest(table))| % HISTORY_PAGE_SIZE
  }

  /**
   Root row i, counted from the oldest, is never shown: all but the newest 50 if the first page comes from
   the database and announces no more; else every 51st root row below the entry at which the index ends.
   */
  ghost predicate Lost(table: Table, order: set<Key>, i: nat) {
    var rows, entries, left := Sorted(Roots(table)), Sorted(IndexAfter(table, order)), Leftover(table, order);
    if |order| < HOT_HISTORY_LIMIT && |Roots(table)| <= HOT_HISTORY_LIMIT then i + HISTORY_PAGE_SIZE < |Roots(table)|
    else left < |entries| && Gap(Below(rows, entries[left]), i)
  }

  /** After a cached first page the client stands 50 entries into the index. */
  lemma CachedStart(
    table: Table, roots: set<Key>, order: set<Key>, rows: seq<Key>, entries: seq<Key>, left: nat, page: Page)
    returns (p: nat)
    requires Ascending(entries) && Elements(entries) == order && Elements(rows) == roots && Gapless(order, roots)
    requires |entries| >= HOT_HISTORY_LIMIT && left == |entries| % HISTORY_PAGE_SIZE
    requires page.hasMore && ShowsRows(table, entries, page, FirstStop(|entries|))
    ensures Scrolled(table, rows, entries, left, [page], Hot(p))
  {
    p := |entries| - HISTORY_PAGE_SIZE;
    assert HotTill(Elements(rows), entries, [], |entries|);
    assert [] + [page] == [page];
    HotGrows(table, Elements(rows), entries, [], page, |entries|);
    KeyAt(table, entries, page, FirstStop(|entries|), 0);
  }

  /** After a first page from the database it stands at the entry of the oldest row shown. */
  lemma DatabaseStart(table: Table, rows: seq<Key>, entries: seq<Key>, left: nat, page: Page, p: nat)
    requires Ascending(rows) && |rows| > HISTORY_PAGE_SIZE && p < |entries|
    requires entries[p] == rows[|rows| - HISTORY_PAGE_SIZE] && left == p % HISTORY_PAGE_SIZE
    requires page.hasMore && ShowsRows(table, rows, page, FirstStop(|rows|))
    ensures Scrolled(table, rows, entries, left, [page], Hot(p))
  {
    var stop := FirstStop(|rows|);
    forall r | r in Elements(rows) ensures Seen([page], r) <==> Passed(entries, p, r) {
      var i :| 0 <= i < |rows| && rows[i] == r;
      assert [] + [page] == [page] && !Seen([], r);
      SeenMore(table, rows, [], page, stop, r);
      InSlice(rows, stop.lo, stop.hi, i);
      assert Less(rows[i], rows[stop.lo]) <==> i < stop.lo;
    }
    KeyAt(table, rows, page, stop, 0);
  }

  /** A key of an ascending list stands where as many come before it. */
  lemma PlaceOf(entries: seq<Key>, c: Key)
    requires Ascending(entries) && c in entries
    ensures Below(entries, c) < |entries| && entries[Below(entries, c)] == c
    ensures |Before(Elements(entries), c)| == Below(entries, c)
  {
    var j :| 0 <= j < |entries| && entries[j] == c;
    BelowIsPrefix(entries, c);
    assert forall i :: 0 <= i < |entries| ==> (Less(entries[i], entries[j]) <==> i < j);
    assert Below(entries, c) == j;
    PrefixIsBefore(entries, j);
    ElementsCount(entries[..j]);
  }

  lemma FirstOldestIsEntry(table: Table, order: set<Key>)
    requires |Roots(table)| > HOT_HISTORY_LIMIT && |order| < HOT_HISTORY_LIMIT
    ensures FirstOldest(table) in IndexAfter(table, order) && |IndexAfter(table, order)| >= HOT_HISTORY_LIMIT
  {
    FirstOldestIsNewest(table);
    InUnion(order, Newest(Roots(table), HOT_HISTORY_LIMIT), FirstOldest(table));
    IndexGrows(order, Roots(table));
  }

  lemma FirstOldestIsNewest(table: Table)
    requires |Roots(table)| > HOT_HISTORY_LIMIT
    ensures FirstOldest(table) in Newest(Roots(table), HOT_HISTORY_LIMIT)
  {
    LateIsNewest(Roots(table), Sorted(Roots(table)), |Roots(table)| - HISTORY_PAGE_SIZE);
  }

  lemma InUnion(order: set<Key>, more: set<Key>, c: Key)
    requires c in more
    ensures c in order + more
  {
  }

  lemma IndexGrows(order: set<Key>, roots: set<Key>)
    requires |roots| > HOT_HISTORY_LIMIT
    ensures |order + Newest(roots, HOT_HISTORY_LIMIT)| >= HOT_HISTORY_LIMIT
  {
    NewestCount(roots, HOT_HISTORY_LIMIT);
    SubsetCount(Newest(roots, HOT_HISTORY_LIMIT), order + Newest(roots, HOT_HISTORY_LIMIT));
  }

  lemma LateIsNewest(S: set<Key>, rows: seq<Key>, i: nat)
    requires Ascending(rows) && Elements(rows) == S && |rows| - HOT_HISTORY_LIMIT <= i < |rows|
    ensures rows[i] in Newest(S, HOT_HISTORY_LIMIT)
  {
    RankAt(rows, i);
    assert rows[i] in Elements(rows);
  }

  /** Where the client stands after a first page that announces more. */
  lemma StartsAbove(table: Table, order: set<Key>, left: nat, page: Page) returns (p: nat)
    requires page.hasMore && |order| >= HOT_HISTORY_LIMIT && left == |order| % HISTORY_PAGE_SIZE
    requires Gapless(order, Roots(table)) && ShowsRows(table, Sorted(order), page, FirstStop(|order|))
    ensures Scrolled(table, Sorted(Roots(table)), Sorted(order), left, [page], Hot(p))
  {
    p := CachedStart(table, Roots(table), order, Sorted(Roots(table)), Sorted(order), left, page);
  }

  lemma StartsBelow(table: Table, order: set<Key>, left: nat, page: Page) returns (p: nat)
    requires page.hasMore && |Roots(table)| > HOT_HISTORY_LIMIT && |order| >= HOT_HISTORY_LIMIT
    requires FirstOldest(table) in order && left == |Before(order, FirstOldest(table))| % HISTORY_PAGE_SIZE
    requires ShowsRows(table, Sorted(Roots(table)), page, FirstStop(|Roots(table)|))
    ensures Scrolled(table, Sorted(Roots(table)), Sorted(order), left, [page], Hot(p))
  {
    p := EntryPlace(order, FirstOldest(table));
    DatabaseStart(table, Sorted(Roots(table)), Sorted(order), left, page, p);
  }

  lemma EntryPlace(order: set<Key>, c: Key) returns (p: nat)
    requires c in order
    ensures p == |Before(order, c)| < |order| && Sorted(order)[p] == c
  {
    assert c in Elements(Sorted(order));
    PlaceOf(Sorted(order), c);
    p := Below(Sorted(order), c);
  }

  /** The client's cursor stands where its progress says; below the index fewer than 50 entries precede it. */
  ghost predicate StandsAt(rows: seq<Key>, entries: seq<Key>, g: Progress, cursor: Key) {
    match g
    case Hot(p) => p < |entries| && cursor == entries[p]
    case Cold(stops) =>
      && |stops| > 0 && stops[|stops| - 1].lo < |rows| && cursor == rows[stops[|stops| - 1].lo]
      && |Before(Elements(entries), cursor)| < HISTORY_PAGE_SIZE
  }

  lemma Cursor(table: Table, rows: seq<Key>, entries: seq<Key>, target: nat, pages: seq<Page>, g: Progress)
    requires Ascending(rows) && Ascending(entries)
    requires Scrolled(table, rows, entries, target, pages, g) && pages[|pages| - 1].hasMore
    ensures pages[|pages| - 1].messages != []
    ensures StandsAt(rows, entries, g, pages[|pages| - 1].messages[0].key)
  {
    if g.Cold? {
      ColdCursor(table, rows, entries, target, pages, g.stops);
    }
  }

  function Measure(g: Progress): nat {
    match g
    case Hot(p) => p
    case Cold(stops) => if stops == [] then 0 else stops[|stops| - 1].top
  }

  /** What the next page shows, from where the client stands. */
  ghost predicate Follow(table: Table, rows: seq<Key>, entries: seq<Key>, g: Progress, page: Page) {
    match g
    case Hot(p) =>
      && p < |entries|
      && (p >= HISTORY_PAGE_SIZE ==> page.hasMore && ShowsNewest(table, entries[..p], page))
      && (p < HISTORY_PAGE_SIZE ==>
            && ShowsRows(table, rows, page, Request(Below(rows, entries[p]), false, false))
            && page.hasMore == More(Below(rows, entries[p]), false))
    case Cold(stops) =>
      && |stops| > 0 && ShowsRows(table, rows, page, Request(stops[|stops| - 1].lo, false, false))
      && page.hasMore == More(stops[|stops| - 1].lo, false)
  }

  lemma Advance(
    table: Table, rows: seq<Key>, entries: seq<Key>, target: nat, pages: seq<Page>, g: Progress, page: Page)
    returns (g': Progress)
    requires Ascending(rows) && Ascending(entries) && Gapless(Elements(entries), Elements(rows))
    requires Scrolled(table, rows, entries, target, pages, g) && pages[|pages| - 1].hasMore
    requires Follow(table, rows, entries, g, page)
    ensures Scrolled(table, rows, entries, target, pages + [page], g')
    ensures g'.Hot? ==> g.Hot? && Measure(g') < Measure(g)
    ensures g'.Cold? && g.Cold? ==> Measure(g') < Measure(g)
  {
    match g
    case Hot(p) =>
      if p >= HISTORY_PAGE_SIZE {
        HotToHot(table, rows, entries, target, pages, p, page);
        g' := Hot(p - HISTORY_PAGE_SIZE);
      } else {
        var stops := HotToCold(table, rows, entries, target, pages, p, page);
        g' := Cold(stops);
      }
    case Cold(stops) =>
      ColdCursor(table, rows, entries, target, pages, stops);
      ColdToCold(table, rows, entries, target, pages, stops, page);
      g' := Cold(stops + [Request(stops[|stops| - 1].lo, false, false)]);
  }

  lemma PageBelow(table: Table, cursor: Key, page: Page)
    requires page.source.Database? && Answered(table, cursor, page)
    ensures var lo := Below(Sorted(Roots(table)), cursor);
            ShowsRows(table, Sorted(Roots(table)), page, Request(lo, false, false)) && page.hasMore == More(lo, false)
  {
    BeforeIsPrefix(Roots(table), cursor);
    DatabasePageShows(table, cursor, Below(Sorted(Roots(table)), cursor), page);
  }

  lemma OlderPageShows(table: Table, cursor: Key, lo: nat, page: Page)
    requires lo < |Roots(table)| && cursor == Sorted(Roots(table))[lo]
    requires page.source.Database? && Answered(table, cursor, page)
    ensures ShowsRows(table, Sorted(Roots(table)), page, Request(lo, false, false)) && page.hasMore == More(lo, false)
  {
    CursorLeaves(Roots(table), lo);
    DatabasePageShows(table, cursor, lo, page);
  }

  /**
   A client over an index of true copies that may hold replies and misses no root row above its oldest
   entry: it asks until a page announces no more, and the root rows no page shows are exactly the lost
   ones.
   */
  method ScrollThreads(index: ChannelIndex, table: Table) returns (pages: seq<Page>)
    requires Threaded(index.order, index.payload, table) && Sparse(table)
    modifies index
    ensures Threaded(index.order, index.payload, table)
    ensures RootsLost(table, old(index.order), pages)
  {
    var page := AskFirst(index, table);
    pages := [page];
    if !page.hasMore {
      FirstPageOnly(table, old(index.order), page);
      return;
    }
    SparseSpread(index.order, index.payload, table);
    ghost var left, p := Leftover(table, old(index.order)), 0;
    if |old(index.order)| >= HOT_HISTORY_LIMIT {
      p := StartsAbove(table, index.order, left, page);
    } else {
      FirstOldestIsEntry(table, old(index.order));
      p := StartsBelow(table, index.order, left, page);
    }
    ghost var g;
    pages, g := KeepAsking(index, table, page, left, p);
    ScrollEnds(table, Sorted(Roots(table)), Sorted(index.order), left, pages, g);
    GapsAreLost(table, old(index.order), left, pages);
  }

  lemma GapsAreLost(table: Table, was: set<Key>, left: nat, pages: seq<Page>)
    requires |was| >= HOT_HISTORY_LIMIT || |Roots(table)| > HOT_HISTORY_LIMIT
    requires left == Leftover(table, was) < |IndexAfter(table, was)|
    ensures ShowsAllBut(Sorted(Roots(table)), pages, Below(Sorted(Roots(table)), Sorted(IndexAfter(table, was))[left]))
            ==> RootsLost(table, was, pages)
  {
    var rows, lo := Sorted(Roots(table)), Below(Sorted(Roots(table)), Sorted(IndexAfter(table, was))[left]);
    if ShowsAllBut(rows, pages, lo) {
      forall i | 0 <= i < |rows| ensures Seen(pages, rows[i]) <==> !Lost(table, was, i) {
        LostIsGap(table, was, left, i);
      }
    }
  }

  lemma LostIsGap(table: Table, was: set<Key>, left: nat, i: nat)
    requires |was| >= HOT_HISTORY_LIMIT || |Roots(table)| > HOT_HISTORY_LIMIT
    requires left == Leftover(table, was) < |IndexAfter(table, was)|
    ensures Lost(table, was, i) <==> Gap(Below(Sorted(Roots(table)), Sorted(IndexAfter(table, was))[left]), i)
  {
  }

  /** Of the rows exactly the gaps below lo have not been seen. */
  ghost predicate ShowsAllBut(rows: seq<Key>, pages: seq<Page>, lo: nat) {
    forall i :: 0 <= i < |rows| ==> (Seen(pages, rows[i]) <==> !Gap(lo, i))
  }

  /** The loop: ask for the page before the oldest row held while the last page announced more. */
  method KeepAsking(index: ChannelIndex, table: Table, first: Page, ghost left: nat, ghost p: nat)
    returns (pages: seq<Page>, ghost g: Progress)
    requires Threaded(index.order, index.payload, table) && Spread(index.order)
    requires Scrolled(table, Sorted(Roots(table)), Sorted(index.order), left, [first], Hot(p))
    modifies index
    ensures index.order == old(index.order) && index.payload == old(index.payload)
    ensures Scrolled(table, Sorted(Roots(table)), Sorted(index.order), left, pages, g) && !pages[|pages| - 1].hasMore
  {
    pages, g := [first], Hot(p);
    while pages[|pages| - 1].hasMore
      invariant index.order == old(index.order) && index.payload == old(index.payload)
      invariant Scrolled(table, Sorted(Roots(table)), Sorted(index.order), left, pages, g)
      decreases if g.Hot? then 1 else 0, Measure(g)
    {
      Cursor(table, Sorted(Roots(table)), Sorted(index.order), left, pages, g);
      var cursor := pages[|pages| - 1].messages[0].key;
      var page := AskOlder(index, table, cursor);
      if g.Cold? {
        OlderPageShows(table, cursor, g.stops[|g.stops| - 1].lo, page);
      } else {
        CursorLeaves(index.order, g.p);
        if g.p < HISTORY_PAGE_SIZE {
          PageBelow(table, cursor, page);
        }
      }
      g := Advance(table, Sorted(Roots(table)), Sorted(index.order), left, pages, g, page);
      pages := pages + [page];
    }
  }

  /** The root rows no page shows are exactly the lost ones. */
  ghost predicate RootsLost(table: Table, was: set<Key>, pages: seq<Page>) {
    forall i :: 0 <= i < |Roots(table)| ==> (Seen(pages, Sorted(Roots(table))[i]) <==> !Lost(table, was, i))
  }

  lemma FirstPageOnly(table: Table, was: set<Key>, page: Page)
    requires |was| < HOT_HISTORY_LIMIT && |Roots(table)| <= HOT_HISTORY_LIMIT
    requires ShowsRows(table, Sorted(Roots(table)), page, FirstStop(|Roots(table)|))
    ensures RootsLost(table, was, [page])
  {
    var rows := Sorted(Roots(table));
    forall i | 0 <= i < |rows| ensures Seen([page], rows[i]) <==> i + HISTORY_PAGE_SIZE >= |rows| {
      assert [] + [page] == [page] && !Seen([], rows[i]);
      SeenMore(table, rows, [], page, FirstStop(|rows|), rows[i]);
      InSlice(rows, FirstStop(|rows|).lo, FirstStop(|rows|).hi, i);
    }
  }

  lemma ScrollEnds(
    table: Table, rows: seq<Key>, entries: seq<Key>, left: nat, pages: seq<Page>, g: Progress)
    requires Ascending(rows) && Scrolled(table, rows, entries, left, pages, g) && !pages[|pages| - 1].hasMore
    ensures ShowsAllBut(rows, pages, Below(rows, entries[left]))
  {
    BelowIsPrefix(rows, entries[left]);
    ColdEnds(rows, pages, Below(rows, entries[left]), g.stops);
  }

  /**
   No root row is lost exactly when there are at most 50, or the first page announces more and at most
   50 root rows lie below the entry at which the index ends.
   */
  lemma NoneLostIff(table: Table, was: set<Key>)
    requires Leftover(table, was) < |IndexAfter(table, was)|
    ensures (forall i :: 0 <= i < |Roots(table)| ==> !Lost(table, was, i)) <==>
            if |was| < HOT_HISTORY_LIMIT && |Roots(table)| <= HOT_HISTORY_LIMIT then |Roots(table)| <= HISTORY_PAGE_SIZE
            else Below(Sorted(Roots(table)), Sorted(IndexAfter(table, was))[Leftover(table, was)]) <= HISTORY_PAGE_SIZE
  {
    if |was| < HOT_HISTORY_LIMIT && |Roots(table)| <= HOT_HISTORY_LIMIT {
      if |Roots(table)| > HISTORY_PAGE_SIZE {
        assert Lost(table, was, 0);
      }
    } else {
      var lo := Below(Sorted(Roots(table)), Sorted(IndexAfter(table, was))[Leftover(table, was)]);
      BelowIsPrefix(Sorted(Roots(table)), Sorted(IndexAfter(table, was))[Leftover(table, was)]);
      if lo > HISTORY_PAGE_SIZE {
        assert Gap(lo, lo - 1);
        assert Lost(table, was, lo - 1);
      }
    }
  }
}
