/**
 The cache and the table together, over whole runs of the hot index: after any interleaving of
 stores, updates and hydrates, when a settled index answers as the table does, and two runs in
 which it does not.
 */
module SettledHistory {
  import opened KeyOrder
  import opened ChatTypes
  import H = HotIndex
  import opened HistoryPages

  // ----- the hash holds what was written last -----

  /** The last message in the list with the key. */
  function LastIn(messages: seq<Message>, k: Key): Option<Message> {
    if messages == [] then None
    else if messages[|messages| - 1].key == k then Some(messages[|messages| - 1])
    else LastIn(messages[..|messages| - 1], k)
  }

  /** What the first i actions wrote last under the key; an edit or deletion writes like a store. */
  function LastWrite(actions: seq<H.Action>, i: nat, k: Key): Option<Message>
    requires i <= |actions|
  {
    if i == 0 then None
    else match actions[i - 1]
      case Store(_, m) => if m.key == k then Some(m) else LastWrite(actions, i - 1, k)
      case Hydrate(ms) => if LastIn(ms, k).Some? then LastIn(ms, k) else LastWrite(actions, i - 1, k)
      case _ => LastWrite(actions, i - 1, k)
  }

  lemma {:induction false} PutAllAt(hash: map<Key, Message>, messages: seq<Message>, k: Key)
    ensures k in PutAll(hash, messages) <==> k in hash || LastIn(messages, k).Some?
    ensures k in PutAll(hash, messages) ==>
              PutAll(hash, messages)[k] == if LastIn(messages, k).Some? then LastIn(messages, k).value else hash[k]
  {
    if messages != [] {
      var front, last := messages[..|messages| - 1], messages[|messages| - 1];
      assert messages == front + [last];
      PutAllAt(hash, front, k);
      H.PutAllAppend(hash, front, last);
    }
  }

  lemma {:induction false} PayloadIsLastWrite(states: seq<H.State>, actions: seq<H.Action>, i: nat, k: Key)
    requires H.IsRun(states, actions) && i < |states|
    ensures k in states[i].payload ==> LastWrite(actions, i, k) == Some(states[i].payload[k])
  {
    if i != 0 {
      PayloadIsLastWrite(states, actions, i - 1, k);
      if actions[i - 1].Hydrate? {
        PutAllAt(states[i - 1].payload, actions[i - 1].messages, k);
      }
    }
  }

  /** The row's view is what was written last under its key. */
  predicate WrittenLast(actions: seq<H.Action>, i: nat, table: Table, k: Key)
    requires i <= |actions|
  {
    k in table && LastWrite(actions, i, k) == Some(View(k, table[k]))
  }

  // ----- a settled index -----

  /**
   A store reads its old ids at step i; after that nothing is written and no trim is lost; at j all
   stores have finished.
   */
  ghost predicate Settled(states: seq<H.State>, actions: seq<H.Action>, i: nat, j: nat) {
    && H.IsRun(states, actions) && i < j < |states|
    && actions[i].ReadOld? && (forall t :: i < t < j ==> H.Calm(states[t], actions[t]))
    && states[j].stores == map[]
  }

  /**
   A settled index whose 300 newest keys are the table's newest 300 root rows agrees with the table
   exactly when each of these rows was written last as it is now.
   */
  lemma SettledIndexAgreesIff(states: seq<H.State>, actions: seq<H.Action>, i: nat, j: nat, table: Table)
    requires Settled(states, actions, i, j)
    requires H.Hot(states[j]) == Newest(Roots(table), HOT_HISTORY_LIMIT)
    ensures Agrees(states[j].order, states[j].payload, table) <==>
            forall k :: k in H.Hot(states[j]) ==> WrittenLast(actions, j, table, k)
  {
    H.IndexSettles(states, actions, i, j);
    forall k | k in H.Hot(states[j])
      ensures k in states[j].payload && LastWrite(actions, j, k) == Some(states[j].payload[k])
    {
      PayloadIsLastWrite(states, actions, j, k);
    }
    if forall k :: k in H.Hot(states[j]) ==> WrittenLast(actions, j, table, k) {
      NewestAgree(states[j].payload, table);
    }
  }

  /** Then its full pages are the table query's answers, from every cursor and without one. */
  lemma SettledPagesAreTablePages(
    states: seq<H.State>, actions: seq<H.Action>, i: nat, j: nat, table: Table, before: Option<Key>)
    requires Settled(states, actions, i, j)
    requires H.Hot(states[j]) == Newest(Roots(table), HOT_HISTORY_LIMIT)
    requires forall k :: k in H.Hot(states[j]) ==> WrittenLast(actions, j, table, k)
    requires |LoadHot(states[j].order, states[j].payload, before)| >= CacheLimit(before)
    ensures LoadHot(states[j].order, states[j].payload, before) == LoadMessages(table, before, CacheLimit(before))
  {
    SettledIndexAgreesIff(states, actions, i, j, table);
    FullHotPageIsTablePage(states[j].order, states[j].payload, table, before);
    LoadMessagesIsNewestPage(table, before, CacheLimit(before));
  }

  // ----- any index of a run, threads and system messages included -----

  /**
   Take any run, ids read in state i and payloads in state j, with any steps in between. If what was
   written last under the keys read is what the rows show, the newest n rows of the cached answer
   are the table's exactly when the newest n entries found are root rows and miss none. Trims between
   the two reads drop no entry that is still among the 300 newest.
   */
  lemma RunPageIff(
    states: seq<H.State>, actions: seq<H.Action>, i: nat, j: nat, table: Table, before: Option<Key>, n: nat)
    requires H.IsRun(states, actions) && i <= j < |states|
    requires forall k :: k in states[i].order && k in states[j].payload ==> WrittenLast(actions, j, table, k)
    requires n <= |LoadHot(states[i].order, states[j].payload, before)|
    ensures var order, payload := states[i].order, states[j].payload;
            && Reached(order, before) * H.Hot(states[j]) <= Found(order, payload, before)
            && (Last(LoadHot(order, payload, before), n) == NewestPage(table, before, n) <==>
                UpwardClosed(Newest(Found(order, payload, before), n), Candidates(table, before)))
  {
    H.IndexNeverLosesHot(states, actions, j);
    forall k | k in states[i].order && k in states[j].payload
      ensures k in table && states[j].payload[k] == View(k, table[k])
    {
      PayloadIsLastWrite(states, actions, j, k);
    }
    CachePageIff(states[i].order, states[j].payload, table, before, n);
  }

  // ----- a reply, and a system message, break the page -----

  /** The keys (0, 0) to (n - 1, n - 1). */
  function Line(n: nat): set<Key> {
    set i | 0 <= i < n :: Key(i, i)
  }

  lemma {:induction false} LineCount(n: nat)
    ensures |Line(n)| == n
  {
    if n != 0 {
      LineCount(n - 1);
      LineGrows(n - 1);
    }
  }

  lemma LineGrows(n: nat)
    ensures Line(n + 1) == Line(n) + {Key(n, n)} && Key(n, n) !in Line(n)
  {
  }

  /** A table of n rows, of which the one at `reply` answers the first. */
  function Rows(n: nat, reply: int): Table {
    map k | k in Line(n) :: Row("", false, None, if k.at == reply then Some(0) else None)
  }

  function Copy(i: nat, reply: int): Message {
    Message(Key(i, i), "", false, false, if i == reply then Some(0) else None)
  }

  function Copies(n: nat, reply: int): seq<Message> {
    seq(n, i requires 0 <= i < n => Copy(i, reply))
  }

  lemma CopiesAreRows(n: nat, size: nat, reply: int)
    requires n <= size
    ensures KeysOf(Copies(n, reply)) == Line(n)
    ensures forall m :: m in Copies(n, reply) ==>
              m.key in Rows(size, reply) && m == View(m.key, Rows(size, reply)[m.key])
  {
    var ms := Copies(n, reply);
    forall k | k in Line(n) ensures k in KeysOf(ms) {
      var i :| 0 <= i < n && k == Key(i, i);
      assert ms[i].key == k;
    }
    forall m | m in ms ensures m.key in Line(n) && m.key in Line(size) {
      var i :| 0 <= i < n && ms[i] == m;
    }
  }

  /** A cursor above a short line of entries finds them all, the newest among them. */
  lemma LineFound(n: nat, payload: map<Key, Message>, c: Key)
    requires 0 < n <= HOT_HISTORY_LIMIT && Line(n) <= payload.Keys && c.at >= n
    ensures Found(Line(n), payload, Some(c)) == Line(n)
    ensures Key(n - 1, n - 1) in Newest(Line(n), HISTORY_PAGE_SIZE)
  {
    LineCount(n);
    assert AtMost(Line(n), c.at) == Line(n);
    NewestCount(Line(n), HOT_HISTORY_LIMIT);
    assert Newer(Line(n), Key(n - 1, n - 1)) == {};
  }

  /** Over a line of at least 50 true copies a cursor above them gets a full page from the cache. */
  lemma LinePage(n: nat, table: Table, payload: map<Key, Message>, c: Key)
    requires HISTORY_PAGE_SIZE <= n <= HOT_HISTORY_LIMIT && c.at >= n
    requires Mirrors(Line(n), payload, table) && Line(n) <= payload.Keys
    ensures |LoadHot(Line(n), payload, Some(c))| == HISTORY_PAGE_SIZE
    ensures LoadHot(Line(n), payload, Some(c)) == LoadMessages(table, Some(c), HISTORY_PAGE_SIZE)
            <==> UpwardClosed(Newest(Line(n), HISTORY_PAGE_SIZE), Before(Roots(table), c))
  {
    LineFound(n, payload, c);
    LineCount(n);
    HotPageKeys(Line(n), payload, table, Some(c));
    CachePageIff(Line(n), payload, table, Some(c), HISTORY_PAGE_SIZE);
    LoadMessagesIsNewestPage(table, Some(c), HISTORY_PAGE_SIZE);
  }

  lemma LineWithReply(n: nat, table: Table, payload: map<Key, Message>, c: Key)
    requires HISTORY_PAGE_SIZE <= n <= HOT_HISTORY_LIMIT && c.at >= n
    requires Mirrors(Line(n), payload, table) && Line(n) <= payload.Keys
    requires Key(n - 1, n - 1) !in Roots(table)
    ensures |LoadHot(Line(n), payload, Some(c))| == HISTORY_PAGE_SIZE
    ensures LoadHot(Line(n), payload, Some(c)) != LoadMessages(table, Some(c), HISTORY_PAGE_SIZE)
  {
    LineFound(n, payload, c);
    LinePage(n, table, payload, c);
  }

  lemma LineWithGap(n: nat, table: Table, payload: map<Key, Message>, c: Key, missing: Key)
    requires HISTORY_PAGE_SIZE <= n <= HOT_HISTORY_LIMIT && c.at >= n
    requires Mirrors(Line(n), payload, table) && Line(n) <= payload.Keys
    requires missing in Roots(table) && missing !in Line(n) && Less(Key(n - 1, n - 1), missing) && Less(missing, c)
    ensures |LoadHot(Line(n), payload, Some(c))| == HISTORY_PAGE_SIZE
    ensures LoadHot(Line(n), payload, Some(c)) != LoadMessages(table, Some(c), HISTORY_PAGE_SIZE)
  {
    LineFound(n, payload, c);
    LinePage(n, table, payload, c);
    assert missing in Before(Roots(table), c);
  }

  lemma ReplyNoRoot(n: nat)
    ensures Key(n, n) !in Roots(Rows(n + 1, n))
  {
  }

  lemma SystemRoot(n: nat)
    ensures Key(n, n) in Roots(Rows(n + 1, -1))
  {
    LineGrows(n);
  }

  lemma CopiesMirror(n: nat, size: nat, reply: int)
    requires n <= size
    ensures PutAll(map[], Copies(n, reply)).Keys == Line(n)
    ensures Mirrors(Line(n), PutAll(map[], Copies(n, reply)), Rows(size, reply))
  {
    CopiesAreRows(n, size, reply);
    PutViews(map[], Rows(size, reply), Copies(n, reply));
  }

  lemma ShortIsHot(n: nat)
    requires n <= HOT_HISTORY_LIMIT
    ensures Newest(Line(n), HOT_HISTORY_LIMIT) == Line(n) && H.OldIds(Line(n)) == {}
  {
    LineCount(n);
    NewestCount(Line(n), HOT_HISTORY_LIMIT);
    H.OldIdsAreTheRest(Line(n));
  }

  /** An index with no store in flight and nothing trimmed. */
  function Idle(order: set<Key>, hash: map<Key, Message>): H.State {
    H.State(order, hash, map[], order, {})
  }

  function Storing(order: set<Key>, hash: map<Key, Message>): H.State {
    H.State(order, hash, map[1 := H.Added], order, {})
  }

  lemma HydrateStep(ms: seq<Message>, keys: set<Key>)
    requires keys == KeysOf(ms)
    ensures H.Apply(H.EMPTY, H.Hydrate(ms)) == Idle(keys, PutAll(map[], ms))
  {
    assert {} + KeysOf(ms) == keys;
  }

  lemma StoreStep(order: set<Key>, hash: map<Key, Message>, m: Message, more: set<Key>)
    requires more == order + {m.key}
    ensures H.Enabled(Idle(order, hash), H.Store(1, m))
    ensures H.Apply(Idle(order, hash), H.Store(1, m)) == Storing(more, hash[m.key := m])
  {
  }

  lemma ReadStep(order: set<Key>, hash: map<Key, Message>)
    requires H.OldIds(order) == {}
    ensures H.Enabled(Storing(order, hash), H.ReadOld(1))
    ensures H.Apply(Storing(order, hash), H.ReadOld(1)) == Idle(order, hash)
  {
    var stores := Storing(order, hash).stores;
    assert stores - {1} == map[];
  }

  function Hydrated(n: nat, reply: int): map<Key, Message> {
    PutAll(map[], Copies(n, reply))
  }

  /** n root rows are hydrated, then a reply is stored and its trim finds nothing to do. */
  function ReplyRun(n: nat): seq<H.Action> {
    [H.Hydrate(Copies(n, n)), H.Store(1, Copy(n, n)), H.ReadOld(1)]
  }

  function WithReply(n: nat): map<Key, Message> {
    Hydrated(n, n)[Key(n, n) := Copy(n, n)]
  }

  function ReplyStates(n: nat): seq<H.State> {
    [H.EMPTY, Idle(Line(n), Hydrated(n, n)), Storing(Line(n + 1), WithReply(n)), Idle(Line(n + 1), WithReply(n))]
  }

  lemma ReplyRunRuns(n: nat)
    requires n < HOT_HISTORY_LIMIT
    ensures H.IsRun(ReplyStates(n), ReplyRun(n))
  {
    CopiesAreRows(n, n, n);
    HydrateStep(Copies(n, n), Line(n));
    LineGrows(n);
    StoreStep(Line(n), Hydrated(n, n), Copy(n, n), Line(n + 1));
    ShortIsHot(n + 1);
    ReadStep(Line(n + 1), WithReply(n));
    ThreeSteps(
      H.Hydrate(Copies(n, n)), H.Store(1, Copy(n, n)), H.ReadOld(1),
      Idle(Line(n), Hydrated(n, n)), Storing(Line(n + 1), WithReply(n)), Idle(Line(n + 1), WithReply(n)));
  }

  lemma ThreeSteps(a: H.Action, b: H.Action, c: H.Action, s: H.State, t: H.State, u: H.State)
    requires H.Enabled(H.EMPTY, a) && H.Apply(H.EMPTY, a) == s
    requires H.Enabled(s, b) && H.Apply(s, b) == t
    requires H.Enabled(t, c) && H.Apply(t, c) == u
    ensures H.IsRun([H.EMPTY, s, t, u], [a, b, c])
  {
  }

  lemma WithReplyMirrors(n: nat)
    ensures Mirrors(Line(n + 1), WithReply(n), Rows(n + 1, n)) && WithReply(n).Keys == Line(n + 1)
  {
    CopiesMirror(n, n + 1, n);
    LineGrows(n);
    assert Key(n, n) in Line(n + 1);
  }

  lemma ReplyPage(n: nat, c: Key)
    requires HISTORY_PAGE_SIZE - 1 <= n < HOT_HISTORY_LIMIT && c == Key(n + 1, 0)
    ensures |LoadHot(Line(n + 1), WithReply(n), Some(c))| == HISTORY_PAGE_SIZE
    ensures LoadHot(Line(n + 1), WithReply(n), Some(c)) != LoadMessages(Rows(n + 1, n), Some(c), HISTORY_PAGE_SIZE)
  {
    WithReplyMirrors(n);
    ReplyNoRoot(n);
    LineWithReply(n + 1, Rows(n + 1, n), WithReply(n), c);
  }

  /**
   In every channel of 49 to 299 cached rows, one reply is enough: the settled index holds true
   copies only, serves a full cursor page, and the page is not the table's.
   */
  lemma ReplyBreaksPage(n: nat) returns (s: H.State, table: Table, cursor: Key)
    requires 49 <= n < 300
    ensures H.IsRun(ReplyStates(n), ReplyRun(n)) && s == ReplyStates(n)[3]
    ensures s.stores == map[] && s.order == H.Hot(s) && Mirrors(s.order, s.payload, table)
    ensures |LoadHot(s.order, s.payload, Some(cursor))| == 50
    ensures LoadHot(s.order, s.payload, Some(cursor)) != LoadMessages(table, Some(cursor), 50)
  {
    s, table, cursor := ReplyStates(n)[3], Rows(n + 1, n), Key(n + 1, 0);
    ReplyRunRuns(n);
    WithReplyMirrors(n);
    ShortIsHot(n + 1);
    ReplyPage(n, cursor);
    IdleServes(Line(n + 1), WithReply(n), s, table, cursor);
  }

  /** What the index of an idle state serves, said of the state. */
  lemma IdleServes(order: set<Key>, hash: map<Key, Message>, s: H.State, table: Table, cursor: Key)
    requires s == Idle(order, hash) && Newest(order, HOT_HISTORY_LIMIT) == order && Mirrors(order, hash, table)
    requires |LoadHot(order, hash, Some(cursor))| == HISTORY_PAGE_SIZE
    requires LoadHot(order, hash, Some(cursor)) != LoadMessages(table, Some(cursor), HISTORY_PAGE_SIZE)
    ensures s.stores == map[] && s.order == H.Hot(s) && Mirrors(s.order, s.payload, table)
    ensures |LoadHot(s.order, s.payload, Some(cursor))| == HISTORY_PAGE_SIZE
    ensures LoadHot(s.order, s.payload, Some(cursor)) != LoadMessages(table, Some(cursor), HISTORY_PAGE_SIZE)
  {
  }

  /** The index is hydrated with n rows; then a system message goes to the table only. */
  function SystemRun(n: nat): seq<H.Action> {
    [H.Hydrate(Copies(n, -1))]
  }

  function SystemStates(n: nat): seq<H.State> {
    [H.EMPTY, Idle(Line(n), Hydrated(n, -1))]
  }

  lemma SystemRunRuns(n: nat)
    ensures H.IsRun(SystemStates(n), SystemRun(n))
  {
    CopiesAreRows(n, n, -1);
    HydrateStep(Copies(n, -1), Line(n));
  }

  lemma SystemPage(n: nat, c: Key)
    requires HISTORY_PAGE_SIZE <= n <= HOT_HISTORY_LIMIT && c == Key(n + 1, 0)
    ensures |LoadHot(Line(n), Hydrated(n, -1), Some(c))| == HISTORY_PAGE_SIZE
    ensures LoadHot(Line(n), Hydrated(n, -1), Some(c)) != LoadMessages(Rows(n + 1, -1), Some(c), HISTORY_PAGE_SIZE)
  {
    CopiesMirror(n, n + 1, -1);
    SystemRoot(n);
    LineGrows(n);
    LineWithGap(n, Rows(n + 1, -1), Hydrated(n, -1), c, Key(n, n));
  }

  /** In every channel of 50 to 300 cached rows, one system message is enough: the full cursor page lacks it. */
  lemma SystemMessageBreaksPage(n: nat) returns (s: H.State, table: Table, cursor: Key)
    requires 50 <= n <= 300
    ensures H.IsRun(SystemStates(n), SystemRun(n)) && s == SystemStates(n)[1]
    ensures s.stores == map[] && s.order == H.Hot(s) && Mirrors(s.order, s.payload, table)
    ensures |LoadHot(s.order, s.payload, Some(cursor))| == 50
    ensures LoadHot(s.order, s.payload, Some(cursor)) != LoadMessages(table, Some(cursor), 50)
  {
    s, table, cursor := SystemStates(n)[1], Rows(n + 1, -1), Key(n + 1, 0);
    SystemRunRuns(n);
    CopiesMirror(n, n + 1, -1);
    ShortIsHot(n);
    SystemPage(n, cursor);
    IdleServes(Line(n), Hydrated(n, -1), s, table, cursor);
  }
}
