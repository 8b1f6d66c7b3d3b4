/**
 History pages of one channel: the table's keyset page, the hot index's cursor page, and the
 handler that serves one or the other.
 */
module HistoryPages {
  import opened KeyOrder
  import opened ChatTypes
  import opened HotIndex

  // ----- the messages table -----

  datatype Row = Row(text: string, edited: bool, deletedAt: Option<int>, root: Option<int>)

  type Table = map<Key, Row>

  /** A row as every SELECT returns it: a deleted row loses its text. */
  function View(k: Key, row: Row): Message {
    Message(k, if row.deletedAt.Some? then "" else row.text, row.edited, row.deletedAt.Some?, row.root)
  }

  /** The rows a history page may show: replies are excluded. */
  function Roots(table: Table): set<Key> {
    set k | k in table && table[k].root.None?
  }

  function Candidates(table: Table, before: Option<Key>): set<Key> {
    if before.None? then Roots(table) else Before(Roots(table), before.value)
  }

  function Reverse<T>(s: seq<T>): seq<T> {
    seq(|s|, i requires 0 <= i < |s| => s[|s| - 1 - i])
  }

  function Take<T>(s: seq<T>, n: nat): seq<T> {
    if |s| <= n then s else s[..n]
  }

  function Views(table: Table, keys: seq<Key>): seq<Message>
    requires Elements(keys) <= table.Keys
  {
    seq(|keys|, i requires 0 <= i < |keys| => assert keys[i] in Elements(keys); View(keys[i], table[keys[i]]))
  }

  lemma LastElements(s: seq<Key>, n: nat)
    ensures Elements(Last(s, n)) <= Elements(s)
  {
  }

  /** ORDER BY created_at DESC, id DESC LIMIT n, then reversed in place. */
  function LoadMessages(table: Table, before: Option<Key>, limit: nat): seq<Message> {
    var answer := Take(Reverse(Sorted(Candidates(table, before))), limit);
    assert forall i :: 0 <= i < |answer| ==> answer[i] in Elements(Sorted(Candidates(table, before)));
    Views(table, Reverse(answer))
  }

  /** The newest n rows before the cursor, oldest first: what a page is meant to be. */
  function NewestPage(table: Table, before: Option<Key>, n: nat): seq<Message> {
    LastElements(Sorted(Candidates(table, before)), n);
    Views(table, Last(Sorted(Candidates(table, before)), n))
  }

  /** The table answers with the newest rows strictly before the cursor, oldest first. */
  lemma LoadMessagesIsNewestPage(table: Table, before: Option<Key>, limit: nat)
    ensures LoadMessages(table, before, limit) == NewestPage(table, before, limit)
  {
    var s := Sorted(Candidates(table, before));
    assert Reverse(Take(Reverse(s), limit)) == Last(s, limit);
  }

  /** What edit_message returns to be cached, and the table after it. */
  function EditMessage(table: Table, k: Key, text: string): (Message, Table)
    requires k in table
  {
    (Message(k, text, true, false, table[k].root), table[k := table[k].(text := text, edited := true)])
  }

  /** What delete_message returns to be cached, and the table after it. */
  function DeleteMessage(table: Table, k: Key, now: int): (Message, Table)
    requires k in table
  {
    var at := if table[k].deletedAt.Some? then table[k].deletedAt else Some(now);
    (Message(k, "", false, true, table[k].root), table[k := table[k].(deletedAt := at, edited := false)])
  }

  /**
   An edit hands the cache the row's true view exactly when the row was not deleted; a deletion
   always does. Neither moves a row nor touches another; a row keeps the time of its first deletion.
   */
  lemma CachedCopyIsTheRow(table: Table, k: Key, text: string, now: int)
    requires k in table
    ensures var (m, t) := EditMessage(table, k, text);
            (m == View(k, t[k]) <==> table[k].deletedAt.None?) && Roots(t) == Roots(table)
    ensures var (m, t) := DeleteMessage(table, k, now);
            m == View(k, t[k]) && Roots(t) == Roots(table)
    ensures var (_, t) := EditMessage(table, k, text);
            && t - {k} == table - {k} && t[k].text == text && t[k].edited
            && t[k].deletedAt == table[k].deletedAt && t[k].root == table[k].root
    ensures var (_, t) := DeleteMessage(table, k, now);
            && t - {k} == table - {k} && t[k].text == table[k].text && !t[k].edited && t[k].root == table[k].root
            && t[k].deletedAt == if table[k].deletedAt == None then Some(now) else table[k].deletedAt
  {
    var (m, t) := EditMessage(table, k, text);
    assert t.Keys == table.Keys;
    assert m.deleted != View(k, t[k]).deleted || table[k].deletedAt.None?;
    var (m', t') := DeleteMessage(table, k, now);
    assert t'.Keys == table.Keys;
  }

  // ----- the hot page -----

  /** HMGET, with absent payloads dropped. */
  function Fetch(payload: map<Key, Message>, ids: seq<Key>): seq<Message> {
    if ids == [] then []
    else (if ids[0] in payload then [payload[ids[0]]] else []) + Fetch(payload, ids[1..])
  }

  function Filter<T>(xs: seq<T>, keep: T -> bool): seq<T> {
    if xs == [] then []
    else (if keep(xs[0]) then [xs[0]] else []) + Filter(xs[1..], keep)
  }

  function InsertBy<T>(key: T -> Key, x: T, sorted: seq<T>): seq<T> {
    if sorted == [] || !Less(key(sorted[0]), key(x)) then [x] + sorted
    else [sorted[0]] + InsertBy(key, x, sorted[1..])
  }

  /** A stable sort by (created_at, id). */
  function SortBy<T>(key: T -> Key, xs: seq<T>): seq<T> {
    if xs == [] then [] else InsertBy(key, xs[0], SortBy(key, xs[1..]))
  }

  function KeyOf(m: Message): Key {
    m.key
  }

  function Itself(k: Key): Key {
    k
  }

  /** before_history_cursor. */
  function ShownBefore(cursor: Key): Message -> bool {
    (m: Message) => Less(m.key, cursor)
  }

  function AtMost(order: set<Key>, at: int): set<Key> {
    set k | k in order && k.at <= at
  }

  /** ZREVRANGEBYSCORE order created_at -inf LIMIT 0 300. */
  function RevRangeByScore(order: set<Key>, at: int): seq<Key> {
    Take(Reverse(Sorted(AtMost(order, at))), HOT_HISTORY_LIMIT)
  }

  function LoadHot(order: set<Key>, payload: map<Key, Message>, before: Option<Key>): seq<Message> {
    match before
    case None => Fetch(payload, ZRange(order, 0 - HOT_HISTORY_LIMIT, -1))
    case Some(c) =>
      Last(SortBy(KeyOf, Filter(Fetch(payload, RevRangeByScore(order, c.at)), ShownBefore(c))), HISTORY_PAGE_SIZE)
  }

  // The same pipeline on keys alone.

  function IsBefore(cursor: Key): Key -> bool {
    (k: Key) => Less(k, cursor)
  }

  function IsCached(payload: map<Key, Message>): Key -> bool {
    (k: Key) => k in payload
  }

  predicate Distinct(keys: seq<Key>) {
    forall i, j :: 0 <= i < j < |keys| ==> keys[i] != keys[j]
  }

  lemma {:induction false} KeyFilterMembers(keys: seq<Key>, keep: Key -> bool, k: Key)
    ensures k in Filter(keys, keep) <==> k in keys && keep(k)
  {
    if keys != [] {
      KeyFilterMembers(keys[1..], keep, k);
      assert k in keys <==> k == keys[0] || k in keys[1..];
    }
  }

  lemma {:induction false} KeyFilterDistinct(keys: seq<Key>, keep: Key -> bool)
    requires Distinct(keys)
    ensures Distinct(Filter(keys, keep))
  {
    if keys != [] {
      KeyFilterDistinct(keys[1..], keep);
      KeyFilterMembers(keys[1..], keep, keys[0]);
    }
  }

  lemma {:induction false} KeyFilterAscending(keys: seq<Key>, keep: Key -> bool)
    requires Ascending(keys)
    ensures Ascending(Filter(keys, keep))
  {
    if keys != [] {
      var rest := Filter(keys[1..], keep);
      KeyFilterAscending(keys[1..], keep);
      forall i | 0 <= i < |rest| ensures Less(keys[0], rest[i]) {
        KeyFilterMembers(keys[1..], keep, rest[i]);
      }
    }
  }

  lemma {:induction false} KeyInsertElements(k: Key, sorted: seq<Key>)
    requires Ascending(sorted) && k !in sorted
    ensures Elements(InsertBy(Itself, k, sorted)) == {k} + Elements(sorted)
    ensures Ascending(InsertBy(Itself, k, sorted))
  {
    if sorted == [] || !Less(sorted[0], k) {
    } else {
      var rest := sorted[1..];
      KeyInsertElements(k, rest);
      assert sorted == [sorted[0]] + rest;
      var r := InsertBy(Itself, k, rest);
      assert forall i :: 0 <= i < |r| ==> r[i] in Elements(r);
    }
  }

  /** Sorting distinct keys yields their ascending list. */
  lemma {:induction false} KeySortIsSorted(keys: seq<Key>)
    requires Distinct(keys)
    ensures Elements(SortBy(Itself, keys)) == Elements(keys)
    ensures Ascending(SortBy(Itself, keys))
    ensures SortBy(Itself, keys) == Sorted(Elements(keys))
  {
    if keys == [] {
    } else {
      var rest := keys[1..];
      KeySortIsSorted(rest);
      assert keys == [keys[0]] + rest;
      var s := SortBy(Itself, rest);
      assert keys[0] !in Elements(rest);
      assert keys[0] !in s by { assert forall k :: k in s ==> k in Elements(s); }
      KeyInsertElements(keys[0], s);
    }
    AscendingUnique(SortBy(Itself, keys), Sorted(Elements(keys)));
  }

  // Fetching, filtering and sorting views is filtering and sorting keys.

  lemma {:induction false} FetchViews(payload: map<Key, Message>, table: Table, ids: seq<Key>)
    requires forall k :: k in ids && k in payload ==> k in table && payload[k] == View(k, table[k])
    ensures Elements(Filter(ids, IsCached(payload))) <= table.Keys
    ensures Fetch(payload, ids) == Views(table, Filter(ids, IsCached(payload)))
  {
    if ids != [] {
      FetchViews(payload, table, ids[1..]);
      var kept := Filter(ids, IsCached(payload));
      if ids[0] in payload {
        assert kept == [ids[0]] + Filter(ids[1..], IsCached(payload));
        assert Elements(kept) == {ids[0]} + Elements(Filter(ids[1..], IsCached(payload)));
        ViewsSplit(table, kept);
      }
    }
  }

  lemma {:induction false} FilterViews(table: Table, keys: seq<Key>, cursor: Key)
    requires Elements(keys) <= table.Keys
    ensures Elements(Filter(keys, IsBefore(cursor))) <= table.Keys
    ensures Filter(Views(table, keys), ShownBefore(cursor)) == Views(table, Filter(keys, IsBefore(cursor)))
  {
    if keys != [] {
      assert keys[0] in Elements(keys);
      assert Elements(keys[1..]) <= Elements(keys);
      FilterViews(table, keys[1..], cursor);
      ViewsSplit(table, keys);
      if Less(keys[0], cursor) {
        ViewsSplit(table, Filter(keys, IsBefore(cursor)));
        assert Filter(keys, IsBefore(cursor))[1..] == Filter(keys[1..], IsBefore(cursor));
      }
    }
  }

  lemma ViewsSplit(table: Table, keys: seq<Key>)
    requires Elements(keys) <= table.Keys && keys != []
    ensures keys[0] in table && Elements(keys[1..]) <= table.Keys
    ensures Views(table, keys) == [View(keys[0], table[keys[0]])] + Views(table, keys[1..])
    ensures Views(table, keys)[1..] == Views(table, keys[1..])
  {
    assert keys[0] in Elements(keys);
    assert Elements(keys[1..]) <= Elements(keys);
  }

  lemma {:induction false} InsertViews(table: Table, k: Key, sorted: seq<Key>)
    requires k in table && Elements(sorted) <= table.Keys
    ensures Elements(InsertBy(Itself, k, sorted)) <= table.Keys
    ensures InsertBy(KeyOf, View(k, table[k]), Views(table, sorted)) == Views(table, InsertBy(Itself, k, sorted))
  {
    if sorted == [] || !Less(sorted[0], k) {
    } else {
      assert sorted[0] in Elements(sorted);
      assert Elements(sorted[1..]) <= Elements(sorted);
      InsertViews(table, k, sorted[1..]);
      assert Views(table, sorted)[1..] == Views(table, sorted[1..]);
    }
  }

  lemma {:induction false} SortViews(table: Table, keys: seq<Key>)
    requires Elements(keys) <= table.Keys
    ensures Elements(SortBy(Itself, keys)) <= table.Keys
    ensures SortBy(KeyOf, Views(table, keys)) == Views(table, SortBy(Itself, keys))
  {
    if keys == [] {
    } else {
      assert keys[0] in Elements(keys);
      assert Elements(keys[1..]) <= Elements(keys);
      SortViews(table, keys[1..]);
      assert Views(table, keys)[1..] == Views(table, keys[1..]);
      InsertViews(table, keys[0], SortBy(Itself, keys[1..]));
    }
  }

  // ----- cached pages -----

  /** Every entry of the order that has a payload has the row's view; entries without one are dropped by the read. */
  ghost predicate Mirrors(order: set<Key>, payload: map<Key, Message>, table: Table) {
    forall k :: k in order && k in payload ==> k in table && payload[k] == View(k, table[k])
  }

  /** How many cached rows make the handler answer from the cache. */
  function CacheLimit(before: Option<Key>): nat {
    if before.None? then HOT_HISTORY_LIMIT else HISTORY_PAGE_SIZE
  }

  lemma ReversedTake(s: seq<Key>, n: nat)
    ensures Take(Reverse(s), n) == Reverse(Last(s, n))
    ensures Elements(Reverse(Last(s, n))) == Elements(Last(s, n))
  {
    var l := Last(s, n);
    forall k | k in Elements(l) ensures k in Elements(Reverse(l)) {
      var i :| 0 <= i < |l| && l[i] == k;
      assert Reverse(l)[|l| - 1 - i] == k;
    }
  }

  /** The entries the ids query reaches. */
  ghost function Reached(order: set<Key>, before: Option<Key>): set<Key> {
    match before
    case None => Newest(order, HOT_HISTORY_LIMIT)
    case Some(c) => Before(Newest(AtMost(order, c.at), HOT_HISTORY_LIMIT), c)
  }

  /** Those of them whose payload is there when the payloads are read. */
  ghost function Found(order: set<Key>, payload: map<Key, Message>, before: Option<Key>): set<Key> {
    Reached(order, before) * payload.Keys
  }

  lemma RevRangeIds(order: set<Key>, at: int)
    ensures Elements(RevRangeByScore(order, at)) == Newest(AtMost(order, at), HOT_HISTORY_LIMIT)
    ensures Distinct(RevRangeByScore(order, at))
  {
    var a := Sorted(AtMost(order, at));
    ReversedTake(a, HOT_HISTORY_LIMIT);
    LastAscending(a, HOT_HISTORY_LIMIT);
    TailByRank(a, HOT_HISTORY_LIMIT);
  }

  /** Dropping, filtering and sorting the ids lists the entries found before the cursor in ascending order. */
  lemma HotKeysSorted(order: set<Key>, payload: map<Key, Message>, c: Key)
    ensures SortBy(Itself, Filter(Filter(RevRangeByScore(order, c.at), IsCached(payload)), IsBefore(c)))
            == Sorted(Found(order, payload, Some(c)))
  {
    var ids := RevRangeByScore(order, c.at);
    var cached := Filter(ids, IsCached(payload));
    RevRangeIds(order, c.at);
    KeyFilterDistinct(ids, IsCached(payload));
    KeyFilterDistinct(cached, IsBefore(c));
    forall k ensures k in Elements(Filter(cached, IsBefore(c))) <==> k in Found(order, payload, Some(c)) {
      KeyFilterMembers(ids, IsCached(payload), k);
      KeyFilterMembers(cached, IsBefore(c), k);
      assert k in ids <==> k in Elements(ids);
    }
    assert Elements(Filter(cached, IsBefore(c))) == Found(order, payload, Some(c));
    KeySortIsSorted(Filter(cached, IsBefore(c)));
  }

  /** The first read's ids come in ascending order already. */
  lemma HotRangeSorted(order: set<Key>, payload: map<Key, Message>)
    ensures Filter(ZRange(order, 0 - HOT_HISTORY_LIMIT, -1), IsCached(payload))
            == Sorted(Found(order, payload, None))
  {
    var ids := ZRange(order, 0 - HOT_HISTORY_LIMIT, -1);
    NewestRange(order);
    LastAscending(Sorted(order), HOT_HISTORY_LIMIT);
    TailByRank(Sorted(order), HOT_HISTORY_LIMIT);
    KeyFilterAscending(ids, IsCached(payload));
    var kept := Filter(ids, IsCached(payload));
    forall k ensures k in Elements(kept) <==> k in Found(order, payload, None) {
      KeyFilterMembers(ids, IsCached(payload), k);
      assert k in ids <==> k in Elements(ids);
    }
    assert Elements(kept) == Found(order, payload, None);
    AscendingUnique(kept, Sorted(Found(order, payload, None)));
  }

  lemma ReachedIds(order: set<Key>, payload: map<Key, Message>, table: Table, ids: seq<Key>)
    requires Mirrors(order, payload, table) && Elements(ids) <= order
    ensures forall k :: k in ids && k in payload ==> k in table && payload[k] == View(k, table[k])
  {
    assert forall k :: k in ids ==> k in Elements(ids);
  }

  /** The cached read answers with the views of the newest entries found. */
  lemma HotPageKeys(order: set<Key>, payload: map<Key, Message>, table: Table, before: Option<Key>)
    requires Mirrors(order, payload, table)
    ensures Found(order, payload, before) <= table.Keys
    ensures LoadHot(order, payload, before)
            == Last(Views(table, Sorted(Found(order, payload, before))), CacheLimit(before))
  {
    match before
    case None => HotRangeKeys(order, payload, table);
    case Some(c) => HotCursorKeys(order, payload, table, c);
  }

  lemma HotRangeKeys(order: set<Key>, payload: map<Key, Message>, table: Table)
    requires Mirrors(order, payload, table)
    ensures Found(order, payload, None) <= table.Keys
    ensures LoadHot(order, payload, None) == Last(Views(table, Sorted(Found(order, payload, None))), HOT_HISTORY_LIMIT)
  {
    var ids := ZRange(order, 0 - HOT_HISTORY_LIMIT, -1);
    NewestRange(order);
    LastElements(Sorted(order), HOT_HISTORY_LIMIT);
    ReachedIds(order, payload, table, ids);
    FetchViews(payload, table, ids);
    HotRangeSorted(order, payload);
    NewestCount(order, HOT_HISTORY_LIMIT);
    SubsetCount(Found(order, payload, None), Newest(order, HOT_HISTORY_LIMIT));
  }

  lemma HotCursorKeys(order: set<Key>, payload: map<Key, Message>, table: Table, c: Key)
    requires Mirrors(order, payload, table)
    ensures Found(order, payload, Some(c)) <= table.Keys
    ensures LoadHot(order, payload, Some(c))
            == Last(Views(table, Sorted(Found(order, payload, Some(c)))), HISTORY_PAGE_SIZE)
  {
    var ids := RevRangeByScore(order, c.at);
    RevRangeIds(order, c.at);
    ReachedIds(order, payload, table, ids);
    FetchViews(payload, table, ids);
    FilterViews(table, Filter(ids, IsCached(payload)), c);
    SortViews(table, Filter(Filter(ids, IsCached(payload)), IsBefore(c)));
    HotKeysSorted(order, payload, c);
  }

  lemma LastOfViews(table: Table, s: seq<Key>, n: nat)
    requires Elements(s) <= table.Keys
    ensures Elements(Last(s, n)) <= table.Keys
    ensures Last(Views(table, s), n) == Views(table, Last(s, n))
  {
  }

  lemma ViewsInjective(table: Table, s: seq<Key>, t: seq<Key>)
    requires Elements(s) <= table.Keys && Elements(t) <= table.Keys
    ensures Views(table, s) == Views(table, t) <==> s == t
  {
    var v, w := Views(table, s), Views(table, t);
    assert forall i :: 0 <= i < |s| ==> v[i].key == s[i];
    assert forall i :: 0 <= i < |t| ==> w[i].key == t[i];
    if v == w {
      assert forall i :: 0 <= i < |s| ==> s[i] == v[i].key == w[i].key == t[i];
    }
  }

  /**
   Over any index whose payloads are the rows' views, whatever it holds and whatever trims passed
   between the two reads: the newest n rows a cached read shows are the table's newest n exactly
   when the newest n entries found are root rows and no root row newer than the oldest of them is
   missing. A reply among them, a system message the index never got, and a stray entry below a
   trimmed gap are the ways to fail.
   */
  lemma CachePageIff(order: set<Key>, payload: map<Key, Message>, table: Table, before: Option<Key>, n: nat)
    requires Mirrors(order, payload, table) && n <= |LoadHot(order, payload, before)|
    ensures Last(LoadHot(order, payload, before), n) == NewestPage(table, before, n)
            <==> UpwardClosed(Newest(Found(order, payload, before), n), Candidates(table, before))
  {
    var found, rows := Sorted(Found(order, payload, before)), Sorted(Candidates(table, before));
    HotPageKeys(order, payload, table, before);
    LastOfViews(table, found, CacheLimit(before));
    LastOfLast(found, CacheLimit(before), n);
    LastOfViews(table, Last(found, CacheLimit(before)), n);
    LastElements(rows, n);
    ViewsInjective(table, Last(found, n), Last(rows, n));
    SameTailIff(Found(order, payload, before), Candidates(table, before), n);
  }

  lemma LastOfLast<T>(s: seq<T>, n: nat, m: nat)
    requires m <= n
    ensures Last(Last(s, n), m) == Last(s, m)
  {
  }

  // ----- an index that agrees with the table -----

  /**
   The index holds root rows only, leaves no gap above its oldest entry, and caches true views.
   An index equal to the 300 newest root rows with true payloads is one such.
   */
  ghost predicate Agrees(order: set<Key>, payload: map<Key, Message>, table: Table) {
    && UpwardClosed(order, Roots(table))
    && forall k :: k in order ==> k in payload && payload[k] == View(k, table[k])
  }

  lemma NewestAgree(payload: map<Key, Message>, table: Table)
    requires forall k :: k in Newest(Roots(table), HOT_HISTORY_LIMIT) ==>
               k in payload && payload[k] == View(k, table[k])
    ensures Agrees(Newest(Roots(table), HOT_HISTORY_LIMIT), payload, table)
  {
    NewestUpwardClosed(Roots(table), HOT_HISTORY_LIMIT);
  }

  lemma FoundUpwardClosed(order: set<Key>, payload: map<Key, Message>, table: Table, before: Option<Key>, n: nat)
    requires Agrees(order, payload, table)
    ensures UpwardClosed(Newest(Found(order, payload, before), n), Candidates(table, before))
  {
    NewestUpwardClosed(Found(order, payload, before), n);
    match before
    case None => NewestUpwardClosed(order, HOT_HISTORY_LIMIT);
    case Some(c) => NewestUpwardClosed(AtMost(order, c.at), HOT_HISTORY_LIMIT);
  }

  lemma AgreesMirrors(order: set<Key>, payload: map<Key, Message>, table: Table)
    requires Agrees(order, payload, table)
    ensures Mirrors(order, payload, table)
  {
  }

  /** A full read of an agreeing index is the same list as the table's newest rows strictly before the cursor. */
  lemma FullHotPageIsTablePage(order: set<Key>, payload: map<Key, Message>, table: Table, before: Option<Key>)
    requires Agrees(order, payload, table)
    requires |LoadHot(order, payload, before)| >= CacheLimit(before)
    ensures LoadHot(order, payload, before) == NewestPage(table, before, CacheLimit(before))
    ensures |Candidates(table, before)| >= CacheLimit(before)
  {
    AgreesMirrors(order, payload, table);
    HotPageKeys(order, payload, table, before);
    FoundUpwardClosed(order, payload, table, before, CacheLimit(before));
    CachePageIff(order, payload, table, before, CacheLimit(before));
    PageLength(table, before, CacheLimit(before));
  }

  // ----- the handler -----

  datatype Source = Cache | Database

  datatype Page = Page(messages: seq<Message>, source: Source, hasMore: bool)

  /** The cut as written: the first page keeps the newer end, a cursor page the older end. */
  function Cut(messages: seq<Message>, before: Option<Key>): seq<Message> {
    if before.None? then Last(messages, HISTORY_PAGE_SIZE) else Take(messages, HISTORY_PAGE_SIZE)
  }

  /** What is sent of the rows read: sorted again, then cut. */
  function Sent(messages: seq<Message>, before: Option<Key>): (sent: seq<Message>)
    ensures |sent| <= HISTORY_PAGE_SIZE
  {
    Cut(SortBy(KeyOf, messages), before)
  }

  lemma SortedPageIsItself(table: Table, before: Option<Key>, n: nat)
    ensures SortBy(KeyOf, NewestPage(table, before, n)) == NewestPage(table, before, n)
  {
    var s := Last(Sorted(Candidates(table, before)), n);
    LastElements(Sorted(Candidates(table, before)), n);
    LastAscending(Sorted(Candidates(table, before)), n);
    SortViews(table, s);
    KeySortIsSorted(s);
    AscendingUnique(s, Sorted(Elements(s)));
  }

  lemma PageLength(table: Table, before: Option<Key>, n: nat)
    ensures |NewestPage(table, before, n)|
            == if |Candidates(table, before)| <= n then |Candidates(table, before)| else n
  {
    assert |Sorted(Candidates(table, before))| == |Candidates(table, before)|;
  }

  lemma PageOfPage(table: Table, before: Option<Key>, n: nat, m: nat)
    requires m <= n
    ensures Last(NewestPage(table, before, n), m) == NewestPage(table, before, m)
  {
    ViewsOfLast(table, Sorted(Candidates(table, before)), n, m);
  }

  lemma ViewsOfLast(table: Table, s: seq<Key>, n: nat, m: nat)
    requires m <= n && Elements(s) <= table.Keys
    ensures Elements(Last(s, n)) <= table.Keys && Elements(Last(s, m)) <= table.Keys
    ensures Last(Views(table, Last(s, n)), m) == Views(table, Last(s, m))
  {
    LastElements(s, n);
    LastElements(s, m);
    LastOfLast(s, n, m);
    LastOfViews(table, Last(s, n), m);
  }

  lemma NewestPageKeys(table: Table, n: nat)
    ensures KeysOf(NewestPage(table, None, n)) == Newest(Roots(table), n)
    ensures forall m :: m in NewestPage(table, None, n) ==> m.key in table && m == View(m.key, table[m.key])
  {
    var page := NewestPage(table, None, n);
    var t := Last(Sorted(Roots(table)), n);
    TailByRank(Sorted(Roots(table)), n);
    LastElements(Sorted(Roots(table)), n);
    ViewsKeys(table, t);
  }

  lemma ViewsKeys(table: Table, keys: seq<Key>)
    requires Elements(keys) <= table.Keys
    ensures KeysOf(Views(table, keys)) == Elements(keys)
    ensures forall m :: m in Views(table, keys) ==> m.key in table && m == View(m.key, table[m.key])
  {
    var page := Views(table, keys);
    assert forall i :: 0 <= i < |keys| ==> keys[i] in Elements(keys) && page[i] == View(keys[i], table[keys[i]]);
    forall k | k in Elements(keys) ensures k in KeysOf(page) {
      var i :| 0 <= i < |keys| && keys[i] == k;
      assert page[i].key == k;
    }
  }

  /** Hydrating the newest table rows keeps the index in agreement. */
  lemma HydrateAgrees(order: set<Key>, payload: map<Key, Message>, table: Table, page: seq<Message>, n: nat)
    requires Agrees(order, payload, table)
    requires page == NewestPage(table, None, n)
    ensures Agrees(order + KeysOf(page), PutAll(payload, page), table)
  {
    NewestPageKeys(table, n);
    NewestUpwardClosed(Roots(table), n);
    PutViews(payload, table, page);
  }

  lemma {:induction false} PutViews(payload: map<Key, Message>, table: Table, messages: seq<Message>)
    requires forall m :: m in messages ==> m.key in table && m == View(m.key, table[m.key])
    ensures forall k :: k in KeysOf(messages) ==> PutAll(payload, messages)[k] == View(k, table[k])
    ensures forall k :: k in payload && k !in KeysOf(messages) ==> PutAll(payload, messages)[k] == payload[k]
    decreases |messages|
  {
    if messages == [] {
    } else {
      var m := messages[0];
      assert messages == [m] + messages[1..];
      PutViews(payload[m.key := m], table, messages[1..]);
      assert KeysOf(messages) == {m.key} + KeysOf(messages[1..]);
    }
  }

  lemma CutPage(table: Table, before: Option<Key>, n: nat)
    requires HISTORY_PAGE_SIZE <= n
    ensures var cut := Sent(NewestPage(table, before, n), before);
            && (before.None? || n == HISTORY_PAGE_SIZE ==> cut == NewestPage(table, before, HISTORY_PAGE_SIZE))
            && (before.Some? ==> cut == Take(NewestPage(table, before, n), HISTORY_PAGE_SIZE))
  {
    SortedPageIsItself(table, before, n);
    PageOfPage(table, before, n, HISTORY_PAGE_SIZE);
    PageLength(table, before, HISTORY_PAGE_SIZE);
  }

  lemma DatabaseBranch(table: Table, before: Option<Key>, limit: nat, rows: seq<Message>)
    requires limit == if before.None? then HOT_HISTORY_LIMIT else HISTORY_PAGE_SIZE
    requires rows == LoadMessages(table, before, limit + 1)
    ensures |rows| > limit <==> |Candidates(table, before)| > limit
    ensures Last(rows, limit) == NewestPage(table, before, limit)
    ensures before.None? ==> Sent(rows, before) == NewestPage(table, before, HISTORY_PAGE_SIZE)
    ensures before.Some? ==>
              Sent(rows, before) == Take(NewestPage(table, before, limit + 1), HISTORY_PAGE_SIZE)
  {
    LoadMessagesIsNewestPage(table, before, limit + 1);
    PageOfPage(table, before, limit + 1, limit);
    PageLength(table, before, limit + 1);
    CutPage(table, before, limit + 1);
  }

  /** Sorting again changes nothing, and the cut of a cached read is its newest 50. */
  lemma CacheCut(order: set<Key>, payload: map<Key, Message>, table: Table, before: Option<Key>)
    requires Mirrors(order, payload, table)
    requires |LoadHot(order, payload, before)| >= CacheLimit(before)
    ensures Sent(LoadHot(order, payload, before), before)
            == Last(LoadHot(order, payload, before), HISTORY_PAGE_SIZE)
  {
    var found := Sorted(Found(order, payload, before));
    HotPageKeys(order, payload, table, before);
    LastOfViews(table, found, CacheLimit(before));
    var keys := Last(found, CacheLimit(before));
    LastAscending(found, CacheLimit(before));
    SortViews(table, keys);
    KeySortIsSorted(keys);
    AscendingUnique(keys, Sorted(Elements(keys)));
  }

  lemma CacheBranch(order: set<Key>, payload: map<Key, Message>, table: Table, before: Option<Key>)
    requires Mirrors(order, payload, table)
    requires |LoadHot(order, payload, before)| >= CacheLimit(before)
    ensures Sent(LoadHot(order, payload, before), before) == Last(LoadHot(order, payload, before), HISTORY_PAGE_SIZE)
    ensures Sent(LoadHot(order, payload, before), before) == NewestPage(table, before, HISTORY_PAGE_SIZE)
            <==> UpwardClosed(Newest(Found(order, payload, before), HISTORY_PAGE_SIZE), Candidates(table, before))
  {
    CacheCut(order, payload, table, before);
    CachePageIff(order, payload, table, before, HISTORY_PAGE_SIZE);
  }

  /** The database branch: one row more than the limit is read, and a first page is hydrated. */
  method ReadThrough(index: ChannelIndex, table: Table, before: Option<Key>) returns (rows: seq<Message>, hasMore: bool)
    modifies index
    ensures rows == LoadMessages(table, before, CacheLimit(before) + 1)
    ensures hasMore <==> |Candidates(table, before)| > CacheLimit(before)
    ensures before.None? ==>
              && index.order == old(index.order) + KeysOf(NewestPage(table, None, HOT_HISTORY_LIMIT))
              && index.payload == PutAll(old(index.payload), NewestPage(table, None, HOT_HISTORY_LIMIT))
    ensures before.Some? ==> index.order == old(index.order) && index.payload == old(index.payload)
    ensures old(Agrees(index.order, index.payload, table)) ==> Agrees(index.order, index.payload, table)
  {
    rows := LoadMessages(table, before, CacheLimit(before) + 1);
    DatabaseBranch(table, before, CacheLimit(before), rows);
    hasMore := |rows| > CacheLimit(before);
    if before.None? {
      var cacheStart := if |rows| <= HOT_HISTORY_LIMIT then 0 else |rows| - HOT_HISTORY_LIMIT;
      assert rows[cacheStart..] == Last(rows, HOT_HISTORY_LIMIT);
      if Agrees(index.order, index.payload, table) {
        HydrateAgrees(index.order, index.payload, table, rows[cacheStart..], HOT_HISTORY_LIMIT);
      }
      index.Hydrate(rows[cacheStart..]);
    }
  }

  /**
   send_history_page over any index; `seen` is the order as it was when the ids were read, before any
   trims that passed until the payloads were. Too few cached rows mean a database page: without a
   cursor the newest 50 rows, with the newest 300 then hydrated; with a cursor the newest 50 rows
   before it, unless more than 50 precede it, when it is the 51 newest without the newest of them.
   A page from an index of true copies is the intended one exactly when the 50 entries found show no
   reply and miss no root row among them. An index that agrees with the table still does afterwards.
   */
  method SendHistoryPage(index: ChannelIndex, seen: set<Key>, table: Table, before: Option<Key>) returns (page: Page)
    modifies index
    ensures page.source.Cache? <==> |LoadHot(seen, old(index.payload), before)| >= CacheLimit(before)
    ensures |page.messages| <= HISTORY_PAGE_SIZE
    ensures page.source.Cache? ==> page.hasMore
    ensures page.source.Database? ==> (page.hasMore <==> |Candidates(table, before)| > CacheLimit(before))
    ensures before.None? && page.source.Database? ==>
              && page.messages == NewestPage(table, None, HISTORY_PAGE_SIZE)
              && index.order == old(index.order) + KeysOf(NewestPage(table, None, HOT_HISTORY_LIMIT))
              && index.payload == PutAll(old(index.payload), NewestPage(table, None, HOT_HISTORY_LIMIT))
    ensures before.Some? || page.source.Cache? ==>
              index.order == old(index.order) && index.payload == old(index.payload)
    ensures before.Some? && page.source.Database? ==>
              page.messages == Take(NewestPage(table, before, HISTORY_PAGE_SIZE + 1), HISTORY_PAGE_SIZE)
    ensures page.source.Cache? && Mirrors(seen, old(index.payload), table) ==>
              page.messages == Last(LoadHot(seen, old(index.payload), before), HISTORY_PAGE_SIZE)
    ensures page.source.Cache? && Mirrors(seen, old(index.payload), table) ==>
              (page.messages == NewestPage(table, before, HISTORY_PAGE_SIZE) <==>
               UpwardClosed(Newest(Found(seen, old(index.payload), before), HISTORY_PAGE_SIZE),
                            Candidates(table, before)))
    ensures old(Agrees(index.order, index.payload, table)) ==> Agrees(index.order, index.payload, table)
  {
    var messages := LoadHot(seen, index.payload, before);
    var source := Cache;
    var hasMore := |messages| >= CacheLimit(before);
    if |messages| < CacheLimit(before) {
      source := Database;
      messages, hasMore := ReadThrough(index, table, before);
      DatabaseBranch(table, before, CacheLimit(before), messages);
    } else if Mirrors(seen, index.payload, table) {
      CacheBranch(seen, index.payload, table, before);
    }
    page := Page(Sent(messages, before), source, hasMore);
  }

  /**
   The cursor page as written is the intended page exactly when the cache served it or at most 50
   rows precede the cursor.
   */
  lemma CursorPageIntendedIff(table: Table, cursor: Key)
    ensures Take(NewestPage(table, Some(cursor), HISTORY_PAGE_SIZE + 1), HISTORY_PAGE_SIZE)
              == NewestPage(table, Some(cursor), HISTORY_PAGE_SIZE)
            <==> |Before(Roots(table), cursor)| <= HISTORY_PAGE_SIZE
  {
    var s := Sorted(Before(Roots(table), cursor));
    NewestPageFirst(table, Some(cursor), HISTORY_PAGE_SIZE);
    NewestPageFirst(table, Some(cursor), HISTORY_PAGE_SIZE + 1);
  }

  lemma NewestPageFirst(table: Table, before: Option<Key>, n: nat)
    requires n > 0
    ensures var s := Sorted(Candidates(table, before));
            var page := NewestPage(table, before, n);
            && |page| == (if |s| <= n then |s| else n)
            && (|s| >= n ==> page[0].key == s[|s| - n])
            && (|s| <= n ==> page == Views(table, s))
  {
    LastElements(Sorted(Candidates(table, before)), n);
  }
}
