/**
 Commits to the messages table and writes to the hot index as steps of one run. A sender, editor or
 deleter commits and later writes the copy its statement returned; a reader without cursor reads the
 newest rows and later hydrates them. Between the two anybody may commit and write.
 */
module CommitOrder {
  import opened KeyOrder
  import opened ChatTypes
  import H = HotIndex
  import opened HistoryPages

  /**
   A copy on its way to the cache, with the row and its number of commits when the copy was made. It is
   faithful unless it came from an edit of a deleted row.
   */
  datatype Copy = Copy(message: Message, row: Row, stamp: nat, faithful: bool)

  /** What a process holds between its statement and its write: one copy, or the table as it read it. */
  datatype Pending = One(copy: Copy) | Newest300(table: Table, commits: map<Key, nat>)

  /**
   commits counts the commits per row, changed is the count at the last commit that changed what the
   row shows, and written is the copy last written under each key.
   */
  datatype State = State(
    table: Table, commits: map<Key, nat>, changed: map<Key, nat>, index: H.State, pending: map<int, Pending>,
    written: map<Key, Copy>)

  datatype Action =
    | Save(p: int, k: Key, row: Row)
    | SaveUncached(k: Key, row: Row)      // a system message
    | Edit(p: int, k: Key, text: string)
    | Delete(p: int, k: Key, now: int)
    | ReadRows(p: int)
    | Write(p: int)
    | Trim(step: H.Action)
    | Lose(p: int)

  const EMPTY := State(map[], map[], map[], H.EMPTY, map[], map[])

  function Page(table: Table): seq<Message> {
    NewestPage(table, None, HOT_HISTORY_LIMIT)
  }

  predicate Enabled(s: State, a: Action) {
    match a
    case Save(p, k, _) => p !in s.pending && k !in s.table
    case SaveUncached(k, _) => k !in s.table
    case Edit(p, k, _) => p !in s.pending && k in s.table && k in s.commits && k in s.changed
    case Delete(p, k, _) => p !in s.pending && k in s.table && k in s.commits && k in s.changed
    case ReadRows(p) => p !in s.pending
    case Write(p) =>
      p in s.pending && (s.pending[p].One? ==> H.Enabled(s.index, H.Store(p, s.pending[p].copy.message)))
    case Trim(step) => !step.Store? && !step.Hydrate? && H.Enabled(s.index, step)
    case Lose(_) => true
  }

  /** Process p commits row k and holds the copy its statement returns. */
  function Commit(s: State, p: int, k: Key, m: Message, table: Table, faithful: bool): State
    requires k in table && k in s.table && k in s.commits && k in s.changed
  {
    s.(table := table, commits := s.commits[k := s.commits[k] + 1],
       changed := if View(k, table[k]) == View(k, s.table[k]) then s.changed else s.changed[k := s.commits[k] + 1],
       pending := s.pending[p := One(Copy(m, table[k], s.commits[k] + 1, faithful))])
  }

  function CopiesOf(table: Table, commits: map<Key, nat>, keys: set<Key>): map<Key, Copy> {
    map k | k in keys && k in table && k in commits :: Copy(View(k, table[k]), table[k], commits[k], true)
  }

  function Apply(s: State, a: Action): State
    requires Enabled(s, a)
  {
    match a
    case Save(p, k, row) =>
      s.(table := s.table[k := row], commits := s.commits[k := 1], changed := s.changed[k := 1],
         pending := s.pending[p := One(Copy(View(k, row), row, 1, true))])
    case SaveUncached(k, row) =>
      s.(table := s.table[k := row], commits := s.commits[k := 1], changed := s.changed[k := 1])
    case Edit(p, k, text) =>
      var (m, table) := EditMessage(s.table, k, text);
      Commit(s, p, k, m, table, s.table[k].deletedAt.None?)
    case Delete(p, k, now) =>
      var (m, table) := DeleteMessage(s.table, k, now);
      Commit(s, p, k, m, table, true)
    case ReadRows(p) => s.(pending := s.pending[p := Newest300(s.table, s.commits)])
    case Write(p) =>
      (match s.pending[p]
       case One(copy) =>
         s.(index := H.Apply(s.index, H.Store(p, copy.message)), written := s.written[copy.message.key := copy],
            pending := s.pending - {p})
       case Newest300(table, commits) =>
         s.(index := H.Apply(s.index, H.Hydrate(Page(table))),
            written := s.written + CopiesOf(table, commits, KeysOf(Page(table))), pending := s.pending - {p}))
    case Trim(step) => s.(index := H.Apply(s.index, step))
    case Lose(p) => s.(pending := s.pending - {p})
  }

  ghost predicate IsPath(states: seq<State>, actions: seq<Action>) {
    && |states| == |actions| + 1
    && forall i :: 0 <= i < |actions| ==>
         Enabled(states[i], actions[i]) && states[i + 1] == Apply(states[i], actions[i])
  }

  ghost predicate IsRun(states: seq<State>, actions: seq<Action>) {
    IsPath(states, actions) && states[0] == EMPTY
  }

  // ----- what every step keeps -----

  /**
   Row and stamp are of a version of row k: it shows what the row shows now if no commit since changed
   that, and no deletion is taken back.
   */
  predicate IsVersion(s: State, k: Key, row: Row, stamp: nat) {
    && k in s.table && k in s.commits && k in s.changed && stamp <= s.commits[k]
    && (s.changed[k] <= stamp ==> View(k, row) == View(k, s.table[k]))
    && (row.deletedAt.Some? ==> s.table[k].deletedAt.Some?)
  }

  predicate IsCopy(s: State, copy: Copy) {
    && IsVersion(s, copy.message.key, copy.row, copy.stamp)
    && (copy.faithful ==> copy.message == View(copy.message.key, copy.row))
    && (!copy.faithful ==> copy.row.deletedAt.Some? && !copy.message.deleted)
  }

  ghost predicate PendingSound(s: State, pending: Pending) {
    match pending
    case One(copy) => IsCopy(s, copy)
    case Newest300(table, commits) =>
      table.Keys == commits.Keys && forall k :: k in table ==> IsVersion(s, k, table[k], commits[k])
  }

  /** The hash holds the copies written last. */
  ghost predicate WrittenSound(s: State) {
    && (forall k :: k in s.written ==> s.written[k].message.key == k && IsCopy(s, s.written[k]))
    && forall k :: k in s.index.payload ==> k in s.written && s.written[k].message == s.index.payload[k]
  }

  ghost predicate Inv(s: State) {
    && s.table.Keys == s.commits.Keys == s.changed.Keys && (forall k :: k in s.changed ==> s.changed[k] <= s.commits[k])
    && (forall p :: p in s.pending ==> PendingSound(s, s.pending[p]))
    && WrittenSound(s) && H.Inv(s.index)
  }

  /** A commit leaves every version, and so every copy, a version. */
  lemma CommitKeeps(s: State, s': State, k: Key)
    requires Inv(s) && k in s'.table && s'.index == s.index && s'.written == s.written
    requires s'.table == s.table[k := s'.table[k]]
    requires s'.commits == s.commits[k := if k in s.commits then s.commits[k] + 1 else 1]
    requires k in s.table && s.table[k].deletedAt.Some? ==> s'.table[k].deletedAt.Some?
    requires s'.changed == if k in s.table && View(k, s'.table[k]) == View(k, s.table[k]) then s.changed
                           else s.changed[k := s'.commits[k]]
    ensures forall j, row, stamp :: IsVersion(s, j, row, stamp) ==> IsVersion(s', j, row, stamp)
    ensures WrittenSound(s') && s'.table.Keys == s'.commits.Keys == s'.changed.Keys
    ensures forall j :: j in s'.changed ==> s'.changed[j] <= s'.commits[j]
    ensures IsVersion(s', k, s'.table[k], s'.commits[k])
    ensures forall p :: p in s.pending ==> PendingSound(s', s.pending[p])
  {
    forall p | p in s.pending ensures PendingSound(s', s.pending[p]) {
      assert PendingSound(s, s.pending[p]);
    }
  }

  lemma ReadCopies(s: State, table: Table, commits: map<Key, nat>)
    requires PendingSound(s, Newest300(table, commits))
    ensures var copies := CopiesOf(table, commits, KeysOf(Page(table)));
            forall k :: k in copies ==> copies[k].message.key == k && IsCopy(s, copies[k])
  {
  }

  /** A hydrate puts the rows read into the hash. */
  lemma HydrateStores(payload: map<Key, Message>, table: Table, k: Key)
    ensures k in Newest(Roots(table), HOT_HISTORY_LIMIT) <==> k in KeysOf(Page(table))
    ensures k in KeysOf(Page(table)) ==> k in table && PutAll(payload, Page(table))[k] == View(k, table[k])
    ensures k in payload && k !in KeysOf(Page(table)) ==> PutAll(payload, Page(table))[k] == payload[k]
  {
    NewestPageKeys(table, HOT_HISTORY_LIMIT);
    PutViews(payload, table, Page(table));
  }

  lemma HydrateWrites(s: State, p: int)
    requires Inv(s) && Enabled(s, Write(p)) && s.pending[p].Newest300?
    ensures WrittenSound(Apply(s, Write(p)))
  {
    var s', table, commits := Apply(s, Write(p)), s.pending[p].table, s.pending[p].commits;
    assert PendingSound(s, s.pending[p]);
    ReadCopies(s, table, commits);
    forall k | k in s'.written ensures s'.written[k].message.key == k && IsCopy(s', s'.written[k]) {
      assert IsCopy(s, s'.written[k]);
    }
    forall k | k in s'.index.payload ensures k in s'.written && s'.written[k].message == s'.index.payload[k] {
      HydrateStores(s.index.payload, table, k);
    }
  }

  lemma StoreWrites(s: State, p: int)
    requires Inv(s) && Enabled(s, Write(p)) && s.pending[p].One?
    ensures WrittenSound(Apply(s, Write(p)))
  {
    var s', copy := Apply(s, Write(p)), s.pending[p].copy;
    assert PendingSound(s, s.pending[p]);
    forall k | k in s'.written ensures s'.written[k].message.key == k && IsCopy(s', s'.written[k]) {
      assert IsCopy(s, s'.written[k]);
    }
  }

  lemma SameRowsKeep(s: State, s': State)
    requires Inv(s) && s'.table == s.table && s'.commits == s.commits && s'.changed == s.changed
    requires forall p :: p in s'.pending ==> p in s.pending && s'.pending[p] == s.pending[p]
    ensures forall p :: p in s'.pending ==> PendingSound(s', s'.pending[p])
  {
    forall p | p in s'.pending ensures PendingSound(s', s'.pending[p]) {
      assert PendingSound(s, s.pending[p]);
    }
  }

  lemma IndexStep(s: State, step: H.Action)
    requires Inv(s) && H.Enabled(s.index, step)
    ensures H.Inv(H.Apply(s.index, step))
    ensures !step.Store? && !step.Hydrate? ==>
              forall k :: k in H.Apply(s.index, step).payload ==>
                k in s.index.payload && H.Apply(s.index, step).payload[k] == s.index.payload[k]
  {
    H.StepKeeps(s.index, step);
  }

  lemma StepKeeps(s: State, a: Action)
    requires Inv(s) && Enabled(s, a)
    ensures Inv(Apply(s, a))
  {
    if a.Save? || a.SaveUncached? || a.Edit? || a.Delete? {
      CommitStepKeeps(s, a);
    } else {
      OtherStepKeeps(s, a);
    }
  }

  lemma CommitStepKeeps(s: State, a: Action)
    requires Inv(s) && Enabled(s, a) && (a.Save? || a.SaveUncached? || a.Edit? || a.Delete?)
    ensures Inv(Apply(s, a))
  {
    CommitKeeps(s, Apply(s, a), a.k);
  }

  lemma OtherStepKeeps(s: State, a: Action)
    requires Inv(s) && Enabled(s, a) && !a.Save? && !a.SaveUncached? && !a.Edit? && !a.Delete?
    ensures Inv(Apply(s, a))
  {
    var s' := Apply(s, a);
    match a
    case ReadRows(p) => ReadKeeps(s, p);
    case Write(p) => WriteKeeps(s, p);
    case Trim(step) =>
      SameRowsKeep(s, s');
      IndexStep(s, step);
    case Lose(p) => SameRowsKeep(s, s');
  }

  lemma ReadKeeps(s: State, p: int)
    requires Inv(s) && Enabled(s, ReadRows(p))
    ensures Inv(Apply(s, ReadRows(p)))
  {
    var s' := Apply(s, ReadRows(p));
    SameRowsKeep(s, s'.(pending := s.pending));
    assert PendingSound(s', s'.pending[p]);
  }

  lemma WriteKeeps(s: State, p: int)
    requires Inv(s) && Enabled(s, Write(p))
    ensures Inv(Apply(s, Write(p)))
  {
    SameRowsKeep(s, Apply(s, Write(p)));
    if s.pending[p].One? {
      IndexStep(s, H.Store(p, s.pending[p].copy.message));
      StoreWrites(s, p);
    } else {
      IndexStep(s, H.Hydrate(Page(s.pending[p].table)));
      HydrateWrites(s, p);
    }
  }

  lemma {:induction false} RunKeeps(states: seq<State>, actions: seq<Action>, i: nat)
    requires IsRun(states, actions) && i < |states|
    ensures Inv(states[i])
  {
    if i != 0 {
      RunKeeps(states, actions, i - 1);
      StepKeeps(states[i - 1], actions[i - 1]);
    }
  }

  // ----- when the cache shows the table's row -----

  /** The copy written last shows what the row shows now, and was no edit of a deleted row. */
  predicate ShowsRow(s: State, k: Key) {
    && k in s.written && k in s.table && s.written[k].faithful
    && View(k, s.written[k].row) == View(k, s.table[k])
  }

  /** Since the commit or read that the copy written last stems from, no commit changed what the row shows. */
  predicate UnchangedSince(s: State, k: Key) {
    k in s.written && k in s.changed && s.changed[k] <= s.written[k].stamp
  }

  /**
   In every run a cached message is the row's view exactly when the copy written last was no edit of a
   deleted row and was made of a version that shows what the row shows now. That is so if no commit
   since changed what the row shows; a later one may also have put it back.
   */
  lemma CachedIsRowIff(states: seq<State>, actions: seq<Action>, i: nat, k: Key)
    requires IsRun(states, actions) && i < |states| && k in states[i].index.payload
    ensures k in states[i].table && k in states[i].written
    ensures states[i].index.payload[k] == View(k, states[i].table[k]) <==> ShowsRow(states[i], k)
    ensures UnchangedSince(states[i], k) ==> (ShowsRow(states[i], k) <==> states[i].written[k].faithful)
  {
    RunKeeps(states, actions, i);
  }

  /**
   In every run, an exact index of the table's newest 300 root rows agrees with the table exactly when
   the copies written last show these rows.
   */
  lemma IndexAgreesIff(states: seq<State>, actions: seq<Action>, i: nat)
    requires IsRun(states, actions) && i < |states|
    requires states[i].index.order == H.Hot(states[i].index) == Newest(Roots(states[i].table), HOT_HISTORY_LIMIT)
    ensures Agrees(states[i].index.order, states[i].index.payload, states[i].table) <==>
            forall k :: k in states[i].index.order ==> ShowsRow(states[i], k)
  {
    RunKeeps(states, actions, i);
    var s := states[i];
    forall k | k in s.index.order
      ensures k in s.index.payload && (s.index.payload[k] == View(k, s.table[k]) <==> ShowsRow(s, k))
    {
      CachedIsRowIff(states, actions, i, k);
    }
    NewestUpwardClosed(Roots(s.table), HOT_HISTORY_LIMIT);
  }

  /**
   So the two agree when each row's last write stems from its last change or later, and none is of an
   edited deleted row.
   */
  lemma CommitOrderAgrees(states: seq<State>, actions: seq<Action>, i: nat)
    requires IsRun(states, actions) && i < |states|
    requires states[i].index.order == H.Hot(states[i].index) == Newest(Roots(states[i].table), HOT_HISTORY_LIMIT)
    requires forall k :: k in states[i].index.order ==> UnchangedSince(states[i], k) && states[i].written[k].faithful
    ensures Agrees(states[i].index.order, states[i].index.payload, states[i].table)
  {
    RunKeeps(states, actions, i);
    forall k | k in states[i].index.order ensures ShowsRow(states[i], k) {
      CachedIsRowIff(states, actions, i, k);
    }
    IndexAgreesIff(states, actions, i);
  }

  // ----- writes that come right after their commits -----

  /** A saved message is in the table and, once written, in the hash and the order as the table shows it. */
  lemma SaveThenWrite(s: State, p: int, k: Key, row: Row)
    requires Idle(s, p) && k !in s.table
    ensures Enabled(s, Save(p, k, row)) && Enabled(Apply(s, Save(p, k, row)), Write(p))
    ensures var end := Apply(Apply(s, Save(p, k, row)), Write(p));
            && end.table == s.table[k := row] && p !in end.pending && k in end.index.order
            && k in end.index.payload && end.index.payload[k] == View(k, row)
  {
  }

  /** An edit of a row that is not deleted, and any deletion, is in the table and, once written, in the hash. */
  lemma ChangeThenWrite(s: State, p: int, k: Key, text: string, now: int)
    requires Idle(s, p) && k in s.table && k in s.commits && k in s.changed
    ensures Enabled(s, Edit(p, k, text)) && Enabled(Apply(s, Edit(p, k, text)), Write(p))
    ensures var end := Apply(Apply(s, Edit(p, k, text)), Write(p));
            && k in end.table && end.table == s.table[k := end.table[k]] && k in end.index.payload
            && end.table[k].text == text && end.table[k].edited
            && (s.table[k].deletedAt == None ==> end.index.payload[k] == View(k, end.table[k]))
    ensures Enabled(s, Delete(p, k, now)) && Enabled(Apply(s, Delete(p, k, now)), Write(p))
    ensures var end := Apply(Apply(s, Delete(p, k, now)), Write(p));
            && k in end.table && end.table == s.table[k := end.table[k]] && k in end.index.payload
            && end.table[k].deletedAt != None && end.index.payload[k] == View(k, end.table[k])
            && end.index.payload[k].text == "" && end.index.payload[k].deleted
  {
  }

  /** A system message is in the table and changes no cache; a lost copy changes neither. */
  lemma UncachedSteps(s: State, k: Key, row: Row, p: int)
    ensures k !in s.table ==>
              && Enabled(s, SaveUncached(k, row)) && Apply(s, SaveUncached(k, row)).table == s.table[k := row]
              && Apply(s, SaveUncached(k, row)).index == s.index && Apply(s, SaveUncached(k, row)).pending == s.pending
    ensures Apply(s, Lose(p)).table == s.table && Apply(s, Lose(p)).index == s.index && p !in Apply(s, Lose(p)).pending
  {
  }

  /** A replica's ZRANGE, ZREM, HDEL or death is a step of the hot index and touches nothing else. */
  lemma TrimIsIndexStep(s: State, step: H.Action)
    requires (step.ReadOld? || step.Zrem? || step.Hdel? || step.Crash?) && H.Enabled(s.index, step)
    ensures Enabled(s, Trim(step)) && Apply(s, Trim(step)) == s.(index := H.Apply(s.index, step))
  {
  }

  /** Rows read and hydrated at once are in the hash as the table shows them. */
  lemma ReadThenWrite(s: State, p: int, k: Key)
    requires p !in s.pending && k in Newest(Roots(s.table), HOT_HISTORY_LIMIT)
    ensures Enabled(s, ReadRows(p)) && Enabled(Apply(s, ReadRows(p)), Write(p))
    ensures var end := Apply(Apply(s, ReadRows(p)), Write(p));
            end.table == s.table && k in end.index.payload && end.index.payload[k] == View(k, s.table[k])
  {
    StaleWrite(Apply(s, ReadRows(p)), p, s.table, k);
  }

  // ----- three ways to go wrong, from any state -----

  ghost predicate Idle(s: State, p: int) {
    p !in s.pending && p !in s.index.stores
  }

  /** Two edits commit in one order and are written in the other: the cache keeps the older text. */
  lemma RacingEditsLeaveOldText(s: State, k: Key, p: int, q: int, a: string, b: string) returns (states: seq<State>)
    requires Inv(s) && k in s.table && s.table[k].deletedAt.None?
    requires p != q && Idle(s, p) && Idle(s, q) && a != b
    ensures IsPath(states, [Edit(p, k, a), Edit(q, k, b), Write(q), Write(p)]) && states[0] == s
    ensures var end := states[4];
            k in end.table && end.table[k].text == b && k in end.index.payload && end.index.payload[k].text == a
  {
    var s1 := Apply(s, Edit(p, k, a));
    var s2 := Apply(s1, Edit(q, k, b));
    var s3 := Apply(s2, Write(q));
    assert Enabled(s3, Write(p));
    states := FourSteps(s, Edit(p, k, a), Edit(q, k, b), Write(q), Write(p));
  }

  /** Rows read before an edit and hydrated after it put the old text back. */
  lemma StaleHydrateLeavesOldText(s: State, k: Key, p: int, q: int, text: string) returns (states: seq<State>)
    requires Inv(s) && k in Newest(Roots(s.table), HOT_HISTORY_LIMIT)
    requires s.table[k].deletedAt.None? && s.table[k].text != text
    requires p != q && Idle(s, p) && Idle(s, q)
    ensures IsPath(states, [ReadRows(q), Edit(p, k, text), Write(p), Write(q)]) && states[0] == s
    ensures var end := states[4];
            && k in end.table && end.table[k].text == text
            && k in end.index.payload && end.index.payload[k] == View(k, s.table[k])
  {
    var s1 := Apply(s, ReadRows(q));
    EditThenWrite(s1, p, k, text);
    var s2 := Apply(s1, Edit(p, k, text));
    var s3 := Apply(s2, Write(p));
    StaleWrite(s3, q, s.table, k);
    states := FourSteps(s, ReadRows(q), Edit(p, k, text), Write(p), Write(q));
  }

  lemma EditThenWrite(s: State, p: int, k: Key, text: string)
    requires Idle(s, p) && k in s.table && k in s.commits && k in s.changed
    ensures Enabled(s, Edit(p, k, text)) && Enabled(Apply(s, Edit(p, k, text)), Write(p))
    ensures var end := Apply(Apply(s, Edit(p, k, text)), Write(p));
            && end.table == EditMessage(s.table, k, text).1
            && forall q :: q != p && q in s.pending ==> q in end.pending && end.pending[q] == s.pending[q]
  {
  }

  lemma FourSteps(s: State, a: Action, b: Action, c: Action, d: Action) returns (states: seq<State>)
    requires Enabled(s, a) && Enabled(Apply(s, a), b) && Enabled(Apply(Apply(s, a), b), c)
    requires Enabled(Apply(Apply(Apply(s, a), b), c), d)
    ensures IsPath(states, [a, b, c, d]) && states[0] == s
    ensures states[4] == Apply(Apply(Apply(Apply(s, a), b), c), d)
  {
    var s1 := Apply(s, a);
    var s2 := Apply(s1, b);
    var s3 := Apply(s2, c);
    states := [s, s1, s2, s3, Apply(s3, d)];
  }

  lemma StaleWrite(s: State, q: int, table: Table, k: Key)
    requires q in s.pending && s.pending[q].Newest300? && s.pending[q].table == table
    requires k in Newest(Roots(table), HOT_HISTORY_LIMIT)
    ensures Enabled(s, Write(q))
    ensures var end := Apply(s, Write(q));
            end.table == s.table && k in end.index.payload && end.index.payload[k] == View(k, table[k])
  {
    HydrateStores(s.index.payload, table, k);
  }

  /** An edit of a deleted row shows its new text in the cache as if it were not deleted. */
  lemma EditRevivesInCache(s: State, k: Key, p: int, text: string) returns (states: seq<State>)
    requires Inv(s) && k in s.table && s.table[k].deletedAt.Some? && Idle(s, p)
    ensures IsPath(states, [Edit(p, k, text), Write(p)]) && states[0] == s
    ensures var end := states[2];
            && k in end.table && View(k, end.table[k]).deleted
            && k in end.index.payload && !end.index.payload[k].deleted && end.index.payload[k].text == text
  {
    var s1 := Apply(s, Edit(p, k, text));
    states := [s, s1, Apply(s1, Write(p))];
  }

  /** Edited away and back, with only the first edit written: changed since, and yet the cached text is the row's. */
  lemma EditBackShowsRow(s: State, k: Key, p: int, q: int, r: int, a: string, b: string) returns (states: seq<State>)
    requires Inv(s) && k in s.table && s.table[k].deletedAt.None? && a != b
    requires p != q && q != r && p != r && Idle(s, p) && q !in s.pending && r !in s.pending
    ensures IsPath(states, [Edit(p, k, a), Write(p), Edit(q, k, b), Edit(r, k, a)]) && states[0] == s
    ensures !UnchangedSince(states[4], k) && ShowsRow(states[4], k)
  {
    EditThenWrite(s, p, k, a);
    var s2 := Apply(Apply(s, Edit(p, k, a)), Write(p));
    assert s2.written[k].row == s2.table[k] && s2.written[k].stamp == s2.commits[k] && s2.written[k].faithful;
    var s3 := Apply(s2, Edit(q, k, b));
    assert Enabled(s3, Edit(r, k, a));
    states := FourSteps(s, Edit(p, k, a), Write(p), Edit(q, k, b), Edit(r, k, a));
  }
}
