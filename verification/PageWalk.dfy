/**
 The arithmetic of scrolling back: a first page, then page after page before the oldest row held,
 until a page says there is no more. Each page may be served by the cache or by the database. The
 rows are kept as their ascending list, and a page is the slice of them it shows.
 */
module PageWalk {
  import opened KeyOrder
  import opened ChatTypes
  import opened HistoryPages

  /** The cache answers full pages only; a miss goes to the database. */
  predicate FromCache(rows: seq<Key>, cached: bool) {
    cached && |rows| >= HISTORY_PAGE_SIZE
  }

  /** The page shown when these are the rows before the cursor. */
  function PageKeys(rows: seq<Key>, cached: bool, intended: bool): seq<Key> {
    if intended || FromCache(rows, cached) then Last(rows, HISTORY_PAGE_SIZE)
    else Take(Last(rows, HISTORY_PAGE_SIZE + 1), HISTORY_PAGE_SIZE)
  }

  predicate SaysMore(rows: seq<Key>, cached: bool) {
    FromCache(rows, cached) || |rows| > HISTORY_PAGE_SIZE
  }

  /** What the handler promises of a cursor page over an agreeing index. */
  ghost predicate Answered(table: Table, cursor: Key, page: Page) {
    match page.source
    case Cache =>
      && |Before(Roots(table), cursor)| >= HISTORY_PAGE_SIZE && page.hasMore
      && page.messages == NewestPage(table, Some(cursor), HISTORY_PAGE_SIZE)
    case Database =>
      && (page.hasMore <==> |Before(Roots(table), cursor)| > HISTORY_PAGE_SIZE)
      && page.messages == Take(NewestPage(table, Some(cursor), HISTORY_PAGE_SIZE + 1), HISTORY_PAGE_SIZE)
  }

  /** The handler's cursor page shows exactly these keys. */
  lemma PageKeysAreTheHandlers(table: Table, cursor: Key, page: Page)
    requires Answered(table, cursor, page)
    ensures var rows := Sorted(Before(Roots(table), cursor));
            && page.hasMore == SaysMore(rows, page.source.Cache?)
            && Elements(PageKeys(rows, page.source.Cache?, false)) <= table.Keys
            && page.messages == Views(table, PageKeys(rows, page.source.Cache?, false))
  {
    var rows := Sorted(Before(Roots(table), cursor));
    if page.source.Cache? {
      LastElements(rows, HISTORY_PAGE_SIZE);
    } else {
      LastElements(rows, HISTORY_PAGE_SIZE + 1);
      TakeOfViews(table, Last(rows, HISTORY_PAGE_SIZE + 1), HISTORY_PAGE_SIZE);
    }
  }

  lemma TakeOfViews(table: Table, s: seq<Key>, n: nat)
    requires Elements(s) <= table.Keys
    ensures Elements(Take(s, n)) <= table.Keys
    ensures Take(Views(table, s), n) == Views(table, Take(s, n))
  {
    assert Elements(Take(s, n)) <= Elements(s);
  }

  /** One request with rows[..top] before the cursor: it shows rows[lo..hi] and jumps over rows[hi..top]. */
  datatype Stop = Stop(lo: nat, hi: nat, top: nat)

  predicate More(n: nat, cached: bool) {
    n > HISTORY_PAGE_SIZE || (cached && n == HISTORY_PAGE_SIZE)
  }

  predicate Exact(n: nat, cached: bool, intended: bool) {
    intended || (cached && n >= HISTORY_PAGE_SIZE) || n <= HISTORY_PAGE_SIZE
  }

  function Request(n: nat, cached: bool, intended: bool): Stop {
    var hi := if Exact(n, cached, intended) then n else n - 1;
    Stop(if hi <= HISTORY_PAGE_SIZE then 0 else hi - HISTORY_PAGE_SIZE, hi, n)
  }

  /** The page of a request is the slice its stop names, and more is announced accordingly. */
  lemma RequestIsPage(rows: seq<Key>, n: nat, cached: bool, intended: bool)
    requires n <= |rows|
    ensures var stop := Request(n, cached, intended);
            && stop.lo <= stop.hi <= stop.top == n
            && PageKeys(rows[..n], cached, intended) == rows[stop.lo..stop.hi]
            && SaysMore(rows[..n], cached) == More(n, cached)
  {
  }

  /** Asking again with the oldest row held as cursor leaves exactly the rows before the page. */
  lemma NextCursor(S: set<Key>, n: nat, cached: bool, intended: bool)
    requires n <= |S| && More(n, cached)
    ensures var stop := Request(n, cached, intended);
            stop.lo < |S| && Sorted(Before(S, Sorted(S)[stop.lo])) == Sorted(S)[..stop.lo]
  {
    CursorLeaves(S, Request(n, cached, intended).lo);
  }

  lemma CursorLeaves(S: set<Key>, lo: nat)
    requires lo < |S|
    ensures Sorted(Before(S, Sorted(S)[lo])) == Sorted(S)[..lo] && |Before(S, Sorted(S)[lo])| == lo
  {
    PrefixIsBefore(Sorted(S), lo);
    AscendingUnique(Sorted(Before(S, Sorted(S)[lo])), Sorted(S)[..lo]);
  }

  lemma PrefixIsBefore(s: seq<Key>, i: nat)
    requires Ascending(s) && i < |s|
    ensures Ascending(s[..i]) && Elements(s[..i]) == Before(Elements(s), s[i])
  {
    forall k | k in Before(Elements(s), s[i]) ensures k in Elements(s[..i]) {
      var j :| 0 <= j < |s| && s[j] == k;
      assert j < i;
      assert s[..i][j] == k;
    }
  }

  /** All requests of a walk over n rows, first request first. */
  function Walk(n: nat, cached: nat -> bool, step: nat, intended: bool): seq<Stop> {
    var stop := Request(n, cached(step), intended);
    if !More(n, cached(step)) then [stop] else [stop] + Walk(stop.lo, cached, step + 1, intended)
  }

  predicate ShownAt(stops: seq<Stop>, i: nat) {
    exists k :: 0 <= k < |stops| && stops[k].lo <= i < stops[k].hi
  }

  predicate JumpedAt(stops: seq<Stop>, i: nat) {
    exists k :: 0 <= k < |stops| && stops[k].hi <= i < stops[k].top
  }

  /**
   Whoever serves the pages, the walk ends, each request starts where the previous one ended and
   lies strictly below it, and together they cover all n rows down to the oldest.
   */
  lemma {:induction false} WalkTiles(n: nat, cached: nat -> bool, step: nat, intended: bool)
    ensures var w := Walk(n, cached, step, intended);
            && |w| > 0 && w[0].top == n && w[|w| - 1].lo == 0
            && (forall k :: 0 <= k < |w| ==> w[k].lo <= w[k].hi <= w[k].top <= n)
            && (forall k :: 0 <= k < |w| - 1 ==> w[k + 1].top == w[k].lo < w[k].hi)
    decreases n
  {
    var stop := Request(n, cached(step), intended);
    if More(n, cached(step)) {
      WalkTiles(stop.lo, cached, step + 1, intended);
      var later := Walk(stop.lo, cached, step + 1, intended);
      var w := Walk(n, cached, step, intended);
      assert w == [stop] + later;
      forall k | 0 <= k < |w| - 1 ensures w[k + 1].top == w[k].lo < w[k].hi {
        if k > 0 { assert w[k] == later[k - 1] && w[k + 1] == later[k]; }
      }
    }
  }

  /** Later pages lie strictly before earlier ones, so no row is shown twice. */
  lemma {:induction false} WalkMovesBackwards(n: nat, cached: nat -> bool, step: nat, intended: bool, a: nat, b: nat)
    requires a < b < |Walk(n, cached, step, intended)|
    ensures Walk(n, cached, step, intended)[b].hi <= Walk(n, cached, step, intended)[a].lo
    decreases b
  {
    WalkTiles(n, cached, step, intended);
    if a < b - 1 {
      WalkMovesBackwards(n, cached, step, intended, a, b - 1);
    }
  }

  /** Every row is shown by exactly one request or jumped over by exactly one, never both. */
  lemma {:induction false} ShownOrJumped(n: nat, cached: nat -> bool, step: nat, intended: bool, i: nat)
    requires i < n
    ensures var w := Walk(n, cached, step, intended);
            ShownAt(w, i) <==> !JumpedAt(w, i)
    decreases n
  {
    var stop := Request(n, cached(step), intended);
    var w := Walk(n, cached, step, intended);
    WalkTiles(n, cached, step, intended);
    if More(n, cached(step)) {
      var later := Walk(stop.lo, cached, step + 1, intended);
      WalkTiles(stop.lo, cached, step + 1, intended);
      Unfold(stop, later, i);
      if i < stop.lo {
        ShownOrJumped(stop.lo, cached, step + 1, intended, i);
      }
    } else {
      assert w == [stop];
      assert w[0] == stop;
    }
  }

  lemma Unfold(stop: Stop, later: seq<Stop>, i: nat)
    ensures ShownAt([stop] + later, i) <==> stop.lo <= i < stop.hi || ShownAt(later, i)
    ensures JumpedAt([stop] + later, i) <==> stop.hi <= i < stop.top || JumpedAt(later, i)
  {
    var w := [stop] + later;
    assert w[0] == stop && forall k :: 0 <= k < |later| ==> w[k + 1] == later[k];
  }

  /** With the newest-50 cut nothing is jumped over: the walk shows every row before its first cursor. */
  lemma {:induction false} IntendedWalkShowsAll(n: nat, cached: nat -> bool, step: nat, i: nat)
    requires i < n
    ensures ShownAt(Walk(n, cached, step, true), i)
    decreases n
  {
    var stop := Request(n, cached(step), true);
    if More(n, cached(step)) {
      Unfold(stop, Walk(stop.lo, cached, step + 1, true), i);
      if i < stop.lo {
        IntendedWalkShowsAll(stop.lo, cached, step + 1, i);
      }
    } else {
      assert Walk(n, cached, step, true)[0] == stop;
    }
  }

  /**
   As written, request k jumps over nothing when the cache serves it or at most 50 rows are left,
   and otherwise over exactly the newest row left, the one next to the cursor.
   */
  lemma {:induction false} RequestJumps(n: nat, cached: nat -> bool, step: nat, k: nat)
    requires k < |Walk(n, cached, step, false)|
    ensures var stop := Walk(n, cached, step, false)[k];
            stop.hi == if Exact(stop.top, cached(step + k), false) then stop.top else stop.top - 1
    decreases k
  {
    var stop := Request(n, cached(step), false);
    if k > 0 {
      RequestJumps(stop.lo, cached, step + 1, k - 1);
      assert step + 1 + (k - 1) == step + k;
    }
  }

  /** Position i of n rows is a multiple of 51 rows below the newest, with at least 50 rows older. */
  predicate Gap(n: nat, i: nat) {
    i < n && (n - 1 - i) % (HISTORY_PAGE_SIZE + 1) == 0 && i >= HISTORY_PAGE_SIZE
  }

  lemma GapShift(n: nat, i: nat)
    requires n > HISTORY_PAGE_SIZE && i < n
    ensures var r := n - HISTORY_PAGE_SIZE - 1;
            Gap(n, i) <==> if i < r then Gap(r, i) else i == n - 1
  {
  }

  /** A walk served by the database alone from its first step on never shows row i exactly when i is such a gap. */
  lemma {:induction false} DatabaseWalkSkips(n: nat, cached: nat -> bool, step: nat, i: nat)
    requires i < n
    requires forall t: nat :: t >= step ==> !cached(t)
    ensures !ShownAt(Walk(n, cached, step, false), i) <==> Gap(n, i)
    decreases n
  {
    var stop := Request(n, cached(step), false);
    if n > HISTORY_PAGE_SIZE {
      GapShift(n, i);
      var later := Walk(stop.lo, cached, step + 1, false);
      Unfold(stop, later, i);
      WalkTiles(stop.lo, cached, step + 1, false);
      if i < stop.lo {
        DatabaseWalkSkips(stop.lo, cached, step + 1, i);
      }
    } else {
      assert Walk(n, cached, step, false)[0] == stop;
    }
  }

  // ----- the whole scroll-back, first page included -----

  predicate FirstMore(n: nat, cached: bool) {
    n > HOT_HISTORY_LIMIT || (cached && n == HOT_HISTORY_LIMIT)
  }

  /** The first page shows the newest 50 of n rows and jumps over none. */
  function FirstStop(n: nat): Stop {
    Stop(if n <= HISTORY_PAGE_SIZE then 0 else n - HISTORY_PAGE_SIZE, n, n)
  }

  /** All pages of a scroll-back over n rows; page k is served by the cache if cached(k). */
  function Scroll(n: nat, cached: nat -> bool, intended: bool): seq<Stop> {
    [FirstStop(n)] + if FirstMore(n, cached(0)) then Walk(FirstStop(n).lo, cached, 1, intended) else []
  }

  /**
   Whoever serves the pages, a scroll-back ends, each page starts where the previous one ended, and
   if the first page announces more the pages together reach down to the oldest row.
   */
  lemma ScrollTiles(n: nat, cached: nat -> bool, intended: bool)
    ensures var w := Scroll(n, cached, intended);
            && w[0] == FirstStop(n)
            && (n <= HISTORY_PAGE_SIZE || FirstMore(n, cached(0)) <==> w[|w| - 1].lo == 0)
            && (forall k :: 0 <= k < |w| ==> w[k].lo <= w[k].hi <= w[k].top <= n)
            && (forall k :: 0 <= k < |w| - 1 ==> w[k + 1].top == w[k].lo < w[k].hi)
  {
    var later := Walk(FirstStop(n).lo, cached, 1, intended);
    WalkTiles(FirstStop(n).lo, cached, 1, intended);
    var w := Scroll(n, cached, intended);
    if FirstMore(n, cached(0)) {
      assert w == [FirstStop(n)] + later;
      forall k | 0 <= k < |w| - 1 ensures w[k + 1].top == w[k].lo < w[k].hi {
        if k > 0 { assert w[k] == later[k - 1] && w[k + 1] == later[k]; }
      }
    }
  }

  /** Later pages lie strictly before earlier ones: a scroll-back shows no row twice. */
  lemma {:induction false} ScrollMovesBackwards(n: nat, cached: nat -> bool, intended: bool, a: nat, b: nat)
    requires a < b < |Scroll(n, cached, intended)|
    ensures Scroll(n, cached, intended)[b].hi <= Scroll(n, cached, intended)[a].lo
    decreases b
  {
    ScrollTiles(n, cached, intended);
    if a < b - 1 {
      ScrollMovesBackwards(n, cached, intended, a, b - 1);
    }
  }

  ghost predicate AllShown(stops: seq<Stop>, n: nat) {
    forall i :: 0 <= i < n ==> ShownAt(stops, i)
  }

  lemma ScrollShownAt(n: nat, cached: nat -> bool, intended: bool, i: nat)
    requires i < n
    ensures ShownAt(Scroll(n, cached, intended), i) <==>
            || i >= FirstStop(n).lo
            || (FirstMore(n, cached(0)) && ShownAt(Walk(FirstStop(n).lo, cached, 1, intended), i))
  {
    var later := if FirstMore(n, cached(0)) then Walk(FirstStop(n).lo, cached, 1, intended) else [];
    Unfold(FirstStop(n), later, i);
  }

  /**
   Even with the newest-50 cut, a scroll-back shows every row exactly when there are at most 50 or
   the first page announces more: a channel of 51 to 300 rows served by the database stops at 50.
   */
  lemma IntendedScrollShowsAllIff(n: nat, cached: nat -> bool)
    ensures AllShown(Scroll(n, cached, true), n) <==> n <= HISTORY_PAGE_SIZE || FirstMore(n, cached(0))
  {
    forall i | 0 <= i < n
      ensures ShownAt(Scroll(n, cached, true), i) <==> i >= FirstStop(n).lo || FirstMore(n, cached(0))
    {
      ScrollShownAt(n, cached, true, i);
      if i < FirstStop(n).lo {
        IntendedWalkShowsAll(FirstStop(n).lo, cached, 1, i);
      }
    }
    if n > HISTORY_PAGE_SIZE && !FirstMore(n, cached(0)) {
      assert !ShownAt(Scroll(n, cached, true), 0);
    }
  }

  /** No request of the walk is a database page with more than 50 rows left. */
  ghost predicate NoJumps(n: nat, cached: nat -> bool, step: nat) {
    var w := Walk(n, cached, step, false);
    forall k :: 0 <= k < |w| ==> Exact(w[k].top, cached(step + k), false)
  }

  lemma WalkShowsAllIff(n: nat, cached: nat -> bool, step: nat)
    ensures AllShown(Walk(n, cached, step, false), n) <==> NoJumps(n, cached, step)
  {
    var w := Walk(n, cached, step, false);
    WalkTiles(n, cached, step, false);
    if NoJumps(n, cached, step) {
      forall i | 0 <= i < n ensures ShownAt(w, i) {
        ShownOrJumped(n, cached, step, false, i);
        forall k | 0 <= k < |w| ensures w[k].hi == w[k].top {
          RequestJumps(n, cached, step, k);
        }
      }
    }
    forall k | 0 <= k < |w| && !Exact(w[k].top, cached(step + k), false) ensures !AllShown(w, n) {
      RequestJumps(n, cached, step, k);
      ShownOrJumped(n, cached, step, false, w[k].hi);
      assert JumpedAt(w, w[k].hi);
      assert !ShownAt(w, w[k].hi);
    }
  }

  /** As written, every row is shown exactly when, besides, no cursor page is cut by the database. */
  lemma JumpFreeScrollIff(n: nat, cached: nat -> bool)
    ensures AllShown(Scroll(n, cached, false), n) <==>
            n <= HISTORY_PAGE_SIZE || (FirstMore(n, cached(0)) && NoJumps(FirstStop(n).lo, cached, 1))
  {
    var lo := FirstStop(n).lo;
    var w := Walk(lo, cached, 1, false);
    WalkShowsAllIff(lo, cached, 1);
    forall i | 0 <= i < n
      ensures ShownAt(Scroll(n, cached, false), i) <==> i >= lo || (FirstMore(n, cached(0)) && ShownAt(w, i))
    {
      ScrollShownAt(n, cached, false, i);
    }
    if n > HISTORY_PAGE_SIZE && AllShown(Scroll(n, cached, false), n) {
      assert ShownAt(Scroll(n, cached, false), 0);
      assert forall i :: 0 <= i < lo ==> ShownAt(Scroll(n, cached, false), i);
      assert AllShown(w, lo);
    }
  }

  // ----- which pages the cache serves, and which rows are lost -----

  /** An index of m entries, hydrated to 300 by a first page from the database, serves this many full pages. */
  function CachedPages(m: nat): nat {
    (if m < HOT_HISTORY_LIMIT then HOT_HISTORY_LIMIT else m) / HISTORY_PAGE_SIZE
  }

  /** Who serves page k: the first is cached if the index held 300, the later ones while it has 50 entries left. */
  function Sources(m: nat): nat -> bool {
    (k: nat) => if k == 0 then m >= HOT_HISTORY_LIMIT else k < CachedPages(m)
  }

  /** The first page announces more. */
  predicate Continues(n: nat, m: nat) {
    n > HOT_HISTORY_LIMIT || m >= HOT_HISTORY_LIMIT
  }

  /** The rows below those the cache serves. */
  function Uncached(n: nat, m: nat): nat {
    var hot := HISTORY_PAGE_SIZE * CachedPages(m);
    if hot <= n then n - hot else 0
  }

  /** Of n rows, with m of them in the index, row i is never shown. */
  predicate Missed(n: nat, m: nat, i: nat) {
    if Continues(n, m) then Gap(Uncached(n, m), i) else i + HISTORY_PAGE_SIZE < n
  }

  /** A client will see every row. */
  predicate Complete(n: nat, m: nat) {
    n <= HISTORY_PAGE_SIZE || (Continues(n, m) && Uncached(n, m) <= HISTORY_PAGE_SIZE)
  }

  /** The cached pages of the walk show every row down to the uncached ones. */
  lemma {:induction false} CachedPartShown(n: nat, m: nat, k: nat, i: nat)
    requires m <= n && Continues(n, m) && 1 <= k <= CachedPages(m)
    requires i < n - HISTORY_PAGE_SIZE * k
    ensures HISTORY_PAGE_SIZE * k <= n
    ensures ShownAt(Walk(n - HISTORY_PAGE_SIZE * k, Sources(m), k, false), i) <==>
            i >= Uncached(n, m) || ShownAt(Walk(Uncached(n, m), Sources(m), CachedPages(m), false), i)
    decreases CachedPages(m) - k
  {
    var top := n - HISTORY_PAGE_SIZE * k;
    if k < CachedPages(m) {
      var stop := Request(top, true, false);
      assert stop == Stop(top - HISTORY_PAGE_SIZE, top, top) && More(top, true);
      var later := Walk(stop.lo, Sources(m), k + 1, false);
      assert Walk(top, Sources(m), k, false) == [stop] + later;
      Unfold(stop, later, i);
      if i < stop.lo {
        CachedPartShown(n, m, k + 1, i);
      }
    }
  }

  /** Exactly which rows a scroll-back with these sources never shows. */
  lemma ScrollMisses(n: nat, m: nat, i: nat)
    requires m <= n && i < n
    ensures !ShownAt(Scroll(n, Sources(m), false), i) <==> Missed(n, m, i)
  {
    ScrollShownAt(n, Sources(m), false, i);
    if Continues(n, m) && i < n - HISTORY_PAGE_SIZE {
      CachedPartShown(n, m, 1, i);
      if i < Uncached(n, m) {
        DatabaseWalkSkips(Uncached(n, m), Sources(m), CachedPages(m), i);
      } else {
        WalkTiles(Uncached(n, m), Sources(m), CachedPages(m), false);
      }
    }
  }

  /**
   Every row is shown exactly when there are at most 50, or the first page announces more and at
   most 50 rows lie below those the cache serves.
   */
  lemma ScrollShowsAllIff(n: nat, m: nat)
    requires m <= n
    ensures AllShown(Scroll(n, Sources(m), false), n) <==> Complete(n, m)
  {
    forall i | 0 <= i < n ensures ShownAt(Scroll(n, Sources(m), false), i) <==> !Missed(n, m, i) {
      ScrollMisses(n, m, i);
    }
    if n > HISTORY_PAGE_SIZE && !Continues(n, m) {
      assert Missed(n, m, 0);
    } else if Continues(n, m) && Uncached(n, m) > HISTORY_PAGE_SIZE {
      assert Missed(n, m, Uncached(n, m) - 1);
    }
  }
}
