/**
 The Valkey hot index of one channel: a sorted set of ids, a hash of payloads, and any number
 of replicas that add and trim concurrently. A store is four separate server-side steps
 (atomic HSET+ZADD, ZRANGE, ZREM, HDEL), so trims of different replicas interleave.
 */
module HotIndex {
  import opened KeyOrder
  import opened ChatTypes

  // ----- the commands -----

  /** ZRANGE with inclusive, possibly negative indices over the ascending order. */
  function ZRange(order: set<Key>, start: int, stop: int): seq<Key> {
    var s := Sorted(order);
    var lo := if start < 0 then start + |s| else start;
    var hi := if stop < 0 then stop + |s| else stop;
    var from := if lo < 0 then 0 else lo;
    var to := if hi >= |s| then |s| - 1 else hi;
    if from > to || from >= |s| then [] else s[from..to + 1]
  }

  /** What a store reads as the ids to drop: everything below the newest 300. */
  function OldIds(order: set<Key>): set<Key> {
    Elements(ZRange(order, 0, -(HOT_HISTORY_LIMIT + 1)))
  }

  /** Reading ranks 0 to -301 yields exactly the members outside the 300 newest. */
  lemma OldIdsAreTheRest(order: set<Key>)
    ensures OldIds(order) == order - Newest(order, 300)
  {
    var s := Sorted(order);
    var n := if |s| <= HOT_HISTORY_LIMIT then 0 else |s| - HOT_HISTORY_LIMIT;
    assert ZRange(order, 0, -(HOT_HISTORY_LIMIT + 1)) == s[..n];
    SplitAscending(s, n);
    assert s[n..] == Last(s, HOT_HISTORY_LIMIT);
    TailByRank(s, HOT_HISTORY_LIMIT);
  }

  /** Reading ranks -300 to -1 yields the newest 300 in ascending order. */
  lemma NewestRange(order: set<Key>)
    ensures ZRange(order, 0 - HOT_HISTORY_LIMIT, -1) == Last(Sorted(order), HOT_HISTORY_LIMIT)
  {
  }

  lemma SplitAscending(s: seq<Key>, n: nat)
    requires Ascending(s) && n <= |s|
    ensures Elements(s[..n]) == Elements(s) - Elements(s[n..])
  {
    assert s == s[..n] + s[n..];
    forall k | k in Elements(s[..n]) ensures k !in Elements(s[n..]) {
      var i :| 0 <= i < n && s[i] == k;
      assert forall j :: n <= j < |s| ==> s[j] != k;
    }
  }

  // ----- the protocol -----

  /** Where a replica's store stands. */
  datatype Phase =
    | Added                      // written, old ids not read yet
    | Doomed(ids: set<Key>)      // old ids read, ZREM not sent yet
    | Unlinked(ids: set<Key>)    // removed from the order, HDEL not sent yet

  /** added and leaked are history: every key ever written, and keys whose HDEL was lost in a crash. */
  datatype State = State(
    order: set<Key>, payload: map<Key, Message>, stores: map<int, Phase>, added: set<Key>, leaked: set<Key>)

  datatype Action =
    | Store(p: int, message: Message)
    | Hydrate(messages: seq<Message>)
    | ReadOld(p: int)
    | Zrem(p: int)
    | Hdel(p: int)
    | Crash(p: int)

  const EMPTY := State({}, map[], map[], {}, {})

  predicate Enabled(s: State, a: Action) {
    match a
    case Store(p, _) => p !in s.stores
    case Hydrate(_) => true
    case ReadOld(p) => p in s.stores && s.stores[p].Added?
    case Zrem(p) => p in s.stores && s.stores[p].Doomed?
    case Hdel(p) => p in s.stores && s.stores[p].Unlinked?
    case Crash(p) => p in s.stores
  }

  function Apply(s: State, a: Action): State
    requires Enabled(s, a)
  {
    match a
    case Store(p, m) =>
      s.(order := s.order + {m.key}, payload := s.payload[m.key := m],
         stores := s.stores[p := Added], added := s.added + {m.key})
    case Hydrate(ms) =>
      s.(order := s.order + KeysOf(ms), payload := PutAll(s.payload, ms), added := s.added + KeysOf(ms))
    case ReadOld(p) =>
      var doomed := OldIds(s.order);
      s.(stores := if doomed == {} then s.stores - {p} else s.stores[p := Doomed(doomed)])
    case Zrem(p) =>
      s.(order := s.order - s.stores[p].ids, stores := s.stores[p := Unlinked(s.stores[p].ids)])
    case Hdel(p) =>
      s.(payload := s.payload - s.stores[p].ids, stores := s.stores - {p})
    case Crash(p) =>
      s.(stores := s.stores - {p},
         leaked := s.leaked + if s.stores[p].Unlinked? then s.stores[p].ids else {})
  }

  ghost predicate IsRun(states: seq<State>, actions: seq<Action>) {
    && |states| == |actions| + 1
    && states[0] == EMPTY
    && forall i :: 0 <= i < |actions| ==>
         Enabled(states[i], actions[i]) && states[i + 1] == Apply(states[i], actions[i])
  }

  // ----- what every step keeps -----

  /** The 300 newest keys written so far. */
  ghost function Hot(s: State): set<Key> {
    Newest(s.added, HOT_HISTORY_LIMIT)
  }

  ghost predicate Condemned(s: State, k: Key) {
    exists p :: p in s.stores && s.stores[p].Unlinked? && k in s.stores[p].ids
  }

  ghost predicate DoomedSomewhere(s: State, k: Key) {
    exists p :: p in s.stores && s.stores[p].Doomed? && k in s.stores[p].ids
  }

  ghost predicate TrimsSpareHot(s: State) {
    forall p :: p in s.stores && !s.stores[p].Added? ==> s.stores[p].ids <= s.added && s.stores[p].ids !! Hot(s)
  }

  ghost predicate PayloadAccounted(s: State) {
    forall k :: k in s.payload ==> k in s.order || k in s.leaked || Condemned(s, k)
  }

  ghost predicate Inv(s: State) {
    && Hot(s) <= s.order <= s.added
    && Hot(s) <= s.payload.Keys <= s.added
    && TrimsSpareHot(s)
    && PayloadAccounted(s)
  }

  /** Writing more keys keeps every replica's pending removals away from the newest 300. */
  lemma GrowKeepsTrims(s: State, more: set<Key>)
    requires TrimsSpareHot(s)
    ensures Newest(s.added + more, HOT_HISTORY_LIMIT) <= Hot(s) + more
    ensures forall p :: p in s.stores && !s.stores[p].Added? ==>
              s.stores[p].ids !! Newest(s.added + more, HOT_HISTORY_LIMIT)
  {
    NewestShrinks(s.added, s.added + more, HOT_HISTORY_LIMIT);
  }

  /** With the newest 300 in the order, the old ids a replica reads are exactly the rest. */
  lemma OldIdsOutsideHot(s: State)
    requires Hot(s) <= s.order <= s.added
    ensures OldIds(s.order) == s.order - Hot(s)
  {
    OldIdsAreTheRest(s.order);
    NewestStable(s.order, s.added, HOT_HISTORY_LIMIT);
  }

  lemma StoreKeeps(s: State, a: Action)
    requires Inv(s) && Enabled(s, a) && a.Store?
    ensures Inv(Apply(s, a))
  {
    var s' := Apply(s, a);
    GrowKeepsTrims(s, {a.message.key});
    forall k | k in s'.payload ensures k in s'.order || k in s'.leaked || Condemned(s', k) {
      if k != a.message.key && Condemned(s, k) {
        var p :| p in s.stores && s.stores[p].Unlinked? && k in s.stores[p].ids;
        assert p in s'.stores && s'.stores[p] == s.stores[p];
      }
    }
  }

  lemma HydrateKeeps(s: State, a: Action)
    requires Inv(s) && Enabled(s, a) && a.Hydrate?
    ensures Inv(Apply(s, a))
  {
    GrowKeepsTrims(s, KeysOf(a.messages));
    var s' := Apply(s, a);
    forall k | k in s'.payload ensures k in s'.order || k in s'.leaked || Condemned(s', k) {
      if k !in KeysOf(a.messages) && Condemned(s, k) {
        var p :| p in s.stores && s.stores[p].Unlinked? && k in s.stores[p].ids;
        assert p in s'.stores;
      }
    }
  }

  lemma ReadKeeps(s: State, a: Action)
    requires Inv(s) && Enabled(s, a) && a.ReadOld?
    ensures Inv(Apply(s, a))
  {
    OldIdsOutsideHot(s);
    AccountedKept(s, a);
  }

  lemma TrimKeeps(s: State, a: Action)
    requires Inv(s) && Enabled(s, a) && !a.Store? && !a.Hydrate? && !a.ReadOld?
    ensures Inv(Apply(s, a))
  {
    AccountedKept(s, a);
  }

  /** A payload entry whose order entry goes stays known to the replica that still has to delete it. */
  lemma AccountedKept(s: State, a: Action)
    requires Inv(s) && Enabled(s, a) && !a.Store? && !a.Hydrate?
    ensures PayloadAccounted(Apply(s, a))
  {
    var s' := Apply(s, a);
    forall k | k in s'.payload ensures k in s'.order || k in s'.leaked || Condemned(s', k) {
      if Condemned(s, k) {
        var p :| p in s.stores && s.stores[p].Unlinked? && k in s.stores[p].ids;
        assert p == a.p || (p in s'.stores && s'.stores[p] == s.stores[p]);
      } else if a.Zrem? && k in s.stores[a.p].ids {
        assert a.p in s'.stores && s'.stores[a.p].Unlinked?;
      }
    }
  }

  lemma StepKeeps(s: State, a: Action)
    requires Inv(s) && Enabled(s, a)
    ensures Inv(Apply(s, a))
  {
    match a
    case Store(_, _) => StoreKeeps(s, a);
    case Hydrate(_) => HydrateKeeps(s, a);
    case ReadOld(_) => ReadKeeps(s, a);
    case _ => TrimKeeps(s, a);
  }

  /**
   In every state of every run, whatever the interleaving and wherever replicas crash, the index
   and the hash hold the 300 newest keys written so far.
   */
  lemma {:induction false} IndexNeverLosesHot(states: seq<State>, actions: seq<Action>, i: nat)
    requires IsRun(states, actions) && i < |states|
    ensures Inv(states[i])
    ensures Hot(states[i]) <= states[i].order && Hot(states[i]) <= states[i].payload.Keys
  {
    if i == 0 {
    } else {
      IndexNeverLosesHot(states, actions, i - 1);
      StepKeeps(states[i - 1], actions[i - 1]);
    }
  }

  // ----- one store, uninterrupted -----

  ghost predicate IsPath(states: seq<State>, actions: seq<Action>) {
    && |states| == |actions| + 1
    && forall i :: 0 <= i < |actions| ==>
         Enabled(states[i], actions[i]) && states[i + 1] == Apply(states[i], actions[i])
  }

  /** A store that nobody interrupts leaves what the replica's own method leaves, whatever others have under way. */
  lemma LoneStore(s: State, p: int, m: Message) returns (states: seq<State>, actions: seq<Action>)
    requires p !in s.stores
    ensures IsPath(states, actions) && states[0] == s
    ensures actions == [Store(p, m), ReadOld(p)] || actions == [Store(p, m), ReadOld(p), Zrem(p), Hdel(p)]
    ensures var end := states[|actions|];
            && end.stores == s.stores && end.added == s.added + {m.key} && end.leaked == s.leaked
            && end.order == Newest(s.order + {m.key}, HOT_HISTORY_LIMIT)
            && end.payload == s.payload[m.key := m] - (s.order + {m.key} - end.order)
  {
    var ids := OldIds(s.order + {m.key});
    states, actions := StorePath(s, p, m, ids);
    TrimEffect(s.order + {m.key}, s.payload[m.key := m]);
  }

  lemma StorePath(s: State, p: int, m: Message, ids: set<Key>) returns (states: seq<State>, actions: seq<Action>)
    requires p !in s.stores && ids == OldIds(s.order + {m.key})
    ensures IsPath(states, actions) && states[0] == s
    ensures actions == [Store(p, m), ReadOld(p)] || actions == [Store(p, m), ReadOld(p), Zrem(p), Hdel(p)]
    ensures var end := states[|actions|];
            && end.stores == s.stores && end.added == s.added + {m.key} && end.leaked == s.leaked
            && end.order == (if ids == {} then s.order + {m.key} else s.order + {m.key} - ids)
            && end.payload == (if ids == {} then s.payload[m.key := m] else s.payload[m.key := m] - ids)
  {
    states, actions := ReadPath(s, p, m, ids);
    if ids != {} {
      assert s.stores[p := Doomed(ids)] - {p} == s.stores;
      states, actions := TrimPath(states, actions, p, ids);
    }
  }

  lemma ReadPath(s: State, p: int, m: Message, ids: set<Key>) returns (states: seq<State>, actions: seq<Action>)
    requires p !in s.stores && ids == OldIds(s.order + {m.key})
    ensures actions == [Store(p, m), ReadOld(p)] && IsPath(states, actions) && states[0] == s
    ensures states[2] == s.(order := s.order + {m.key}, payload := s.payload[m.key := m], added := s.added + {m.key},
                            stores := if ids == {} then s.stores else s.stores[p := Doomed(ids)])
  {
    StoreThenRead(s, p, m);
    states, actions := Extend([s], [], Store(p, m));
    states, actions := Extend(states, actions, ReadOld(p));
  }

  lemma TrimPath(states: seq<State>, actions: seq<Action>, p: int, ids: set<Key>)
    returns (more: seq<State>, done: seq<Action>)
    requires IsPath(states, actions) && p in states[|actions|].stores && states[|actions|].stores[p] == Doomed(ids)
    ensures IsPath(more, done) && more[0] == states[0] && done == actions + [Zrem(p), Hdel(p)]
    ensures var s := states[|actions|];
            more[|done|] == s.(order := s.order - ids, payload := s.payload - ids, stores := s.stores - {p})
  {
    ZremThenHdel(states[|actions|], p, ids);
    more, done := Extend(states, actions, Zrem(p));
    more, done := Extend(more, done, Hdel(p));
  }

  lemma StoreThenRead(s: State, p: int, m: Message)
    requires p !in s.stores
    ensures var ids := OldIds(s.order + {m.key});
            && Enabled(s, Store(p, m)) && Enabled(Apply(s, Store(p, m)), ReadOld(p))
            && Apply(s, Store(p, m)).order == s.order + {m.key}
            && Apply(Apply(s, Store(p, m)), ReadOld(p))
               == s.(order := s.order + {m.key}, payload := s.payload[m.key := m], added := s.added + {m.key},
                     stores := if ids == {} then s.stores else s.stores[p := Doomed(ids)])
  {
    var ids := OldIds(s.order + {m.key});
    assert s.stores[p := Added] - {p} == s.stores;
    assert s.stores[p := Added][p := Doomed(ids)] == s.stores[p := Doomed(ids)];
  }

  /** One more step of a path. */
  lemma Extend(states: seq<State>, actions: seq<Action>, a: Action) returns (more: seq<State>, done: seq<Action>)
    requires IsPath(states, actions) && Enabled(states[|actions|], a)
    ensures more == states + [Apply(states[|actions|], a)] && done == actions + [a] && IsPath(more, done)
  {
    more, done := states + [Apply(states[|actions|], a)], actions + [a];
    forall i | 0 <= i < |done| ensures Enabled(more[i], done[i]) && more[i + 1] == Apply(more[i], done[i]) {
      if i < |actions| {
        assert Enabled(states[i], actions[i]) && states[i + 1] == Apply(states[i], actions[i]);
      }
    }
  }

  lemma ZremThenHdel(s: State, p: int, ids: set<Key>)
    requires p in s.stores && s.stores[p] == Doomed(ids)
    ensures Enabled(s, Zrem(p)) && Enabled(Apply(s, Zrem(p)), Hdel(p))
    ensures Apply(Apply(s, Zrem(p)), Hdel(p))
            == s.(order := s.order - ids, payload := s.payload - ids, stores := s.stores - {p})
  {
    assert s.stores[p := Unlinked(ids)] - {p} == s.stores - {p};
  }

  /** A replica may die at any point of its store; what it did stays, and what it had still to do is left undone. */
  lemma CrashKeepsStores(s: State, p: int)
    requires p in s.stores
    ensures Enabled(s, Crash(p))
    ensures Apply(s, Crash(p)).order == s.order && Apply(s, Crash(p)).payload == s.payload
    ensures Apply(s, Crash(p)).stores == s.stores - {p} && Apply(s, Crash(p)).added == s.added
  {
  }

  // ----- settling -----

  /** Every surplus entry of the order is in the hands of some replica about to send ZREM. */
  ghost predicate Covered(s: State) {
    forall k :: k in s.order && k !in Hot(s) ==> DoomedSomewhere(s, k)
  }

  /** Steps after which no surplus entry is left unattended: nothing is written, no read is thrown away. */
  predicate Calm(s: State, a: Action)
    requires Enabled(s, a)
  {
    match a
    case Store(_, _) => false
    case Hydrate(_) => false
    case Crash(p) => !s.stores[p].Doomed?
    case _ => true
  }

  lemma ReadCovers(s: State, p: int)
    requires Inv(s) && Enabled(s, ReadOld(p))
    ensures Covered(Apply(s, ReadOld(p)))
  {
    OldIdsOutsideHot(s);
    var s' := Apply(s, ReadOld(p));
    forall k | k in s'.order && k !in Hot(s') ensures DoomedSomewhere(s', k) {
      assert k in OldIds(s.order);
      assert p in s'.stores && s'.stores[p].Doomed?;
    }
  }

  lemma CalmKeepsCovered(s: State, a: Action)
    requires Inv(s) && Covered(s) && Enabled(s, a) && Calm(s, a)
    ensures Covered(Apply(s, a))
  {
    if a.ReadOld? {
      ReadCovers(s, a.p);
    } else {
      var s' := Apply(s, a);
      forall k | k in s'.order && k !in Hot(s') ensures DoomedSomewhere(s', k) {
        var p :| p in s.stores && s.stores[p].Doomed? && k in s.stores[p].ids;
        assert p != a.p;
        assert p in s'.stores && s'.stores[p] == s.stores[p];
      }
    }
  }

  lemma {:induction false} StaysCovered(states: seq<State>, actions: seq<Action>, i: nat, j: nat)
    requires IsRun(states, actions) && i <= j < |states|
    requires Covered(states[i])
    requires forall t :: i <= t < j ==> Calm(states[t], actions[t])
    ensures Covered(states[j])
  {
    if i == j {
    } else {
      StaysCovered(states, actions, i, j - 1);
      IndexNeverLosesHot(states, actions, j - 1);
      CalmKeepsCovered(states[j - 1], actions[j - 1]);
    }
  }

  /** With no store in flight, a covered index is exactly the 300 newest keys. */
  lemma CoveredAndIdle(s: State)
    requires Inv(s) && Covered(s) && s.stores == map[]
    ensures s.order == Hot(s)
    ensures Hot(s) <= s.payload.Keys <= Hot(s) + s.leaked
  {
    assert forall k :: !DoomedSomewhere(s, k) && !Condemned(s, k);
  }

  /**
   Take any run. If at step i some store reads its old ids and from then on nothing more is
   written and no replica dies between its ZRANGE and its ZREM, then once all stores have finished
   the order holds exactly the 300 newest keys ever written. The hash holds them too, and anything
   else in it was left by a replica that died between ZREM and HDEL.
   */
  lemma IndexSettles(states: seq<State>, actions: seq<Action>, i: nat, j: nat)
    requires IsRun(states, actions) && i < j < |states|
    requires actions[i].ReadOld?
    requires forall t :: i < t < j ==> Calm(states[t], actions[t])
    requires states[j].stores == map[]
    ensures states[j].order == Hot(states[j])
    ensures Hot(states[j]) <= states[j].payload.Keys <= Hot(states[j]) + states[j].leaked
  {
    IndexNeverLosesHot(states, actions, i);
    ReadCovers(states[i], actions[i].p);
    StaysCovered(states, actions, i + 1, j);
    IndexNeverLosesHot(states, actions, j);
    CoveredAndIdle(states[j]);
  }

  /** Without a crash nothing leaks, so order and hash then agree exactly. */
  lemma {:induction false} NoCrashNoLeak(states: seq<State>, actions: seq<Action>, i: nat)
    requires IsRun(states, actions) && i < |states|
    requires forall t :: 0 <= t < i ==> !actions[t].Crash?
    ensures states[i].leaked == {}
  {
    if i == 0 {
    } else {
      NoCrashNoLeak(states, actions, i - 1);
    }
  }

  /**
   A settled index stays settled under a hydrate exactly when index and hydrated rows together
   are at most 300: a hydrate adds without trimming.
   */
  lemma HydrateKeepsSettledIff(s: State, messages: seq<Message>)
    requires Inv(s) && s.order == Hot(s)
    ensures var s' := Apply(s, Hydrate(messages));
            s'.order == Hot(s') <==> |s.order + KeysOf(messages)| <= HOT_HISTORY_LIMIT
  {
    var s' := Apply(s, Hydrate(messages));
    HydrateKeeps(s, Hydrate(messages));
    NewestStable(s'.order, s'.added, HOT_HISTORY_LIMIT);
    NewestCount(s'.order, HOT_HISTORY_LIMIT);
  }

  // ----- one replica working alone -----

  lemma TrimEffect(order: set<Key>, payload: map<Key, Message>)
    ensures var ids := OldIds(order);
            && (if ids == {} then order else order - ids) == Newest(order, HOT_HISTORY_LIMIT)
            && (if ids == {} then payload else payload - ids) == payload - (order - Newest(order, HOT_HISTORY_LIMIT))
  {
    OldIdsAreTheRest(order);
    Removing(order, Newest(order, HOT_HISTORY_LIMIT), OldIds(order), payload);
  }

  lemma Removing(order: set<Key>, hot: set<Key>, ids: set<Key>, payload: map<Key, Message>)
    requires hot <= order && ids == order - hot
    ensures (if ids == {} then order else order - ids) == hot
    ensures (if ids == {} then payload else payload - ids) == payload - ids
  {
    if ids == {} {
      assert forall k :: k in order ==> k in hot || k in ids;
      assert order == hot;
      assert payload - ids == payload;
    }
  }

  /** The two keys of one channel as a replica changes them. */
  class ChannelIndex {
    var order: set<Key>
    var payload: map<Key, Message>

    constructor ()
      ensures order == {} && payload == map[]
    {
      order, payload := {}, map[];
    }

    /** One HSET and one ZADD per message, in list order. */
    method Hydrate(messages: seq<Message>)
      modifies this
      ensures order == old(order) + KeysOf(messages)
      ensures payload == PutAll(old(payload), messages)
    {
      for i := 0 to |messages|
        invariant order == old(order) + KeysOf(messages[..i])
        invariant payload == PutAll(old(payload), messages[..i])
      {
        PrefixGrows(old(payload), messages, i);
        payload := payload[messages[i].key := messages[i]];
        order := order + {messages[i].key};
      }
      assert messages[..|messages|] == messages;
    }

    /** ZRANGE, ZREM and HDEL in a row. */
    method Trim()
      modifies this
      ensures order == Newest(old(order), HOT_HISTORY_LIMIT)
      ensures payload == old(payload) - (old(order) - order)
    {
      TrimEffect(order, payload);
      var oldIds := OldIds(order);
      if oldIds != {} {
        order := order - oldIds;
        payload := payload - oldIds;
      }
    }

    /** A store that no other replica interrupts leaves exactly the 300 newest. */
    method StoreMessage(message: Message)
      modifies this
      ensures order == Newest(old(order) + {message.key}, HOT_HISTORY_LIMIT)
      ensures payload == old(payload)[message.key := message] - (old(order) + {message.key} - order)
    {
      payload := payload[message.key := message];
      order := order + {message.key};
      Trim();
    }
  }

  lemma PrefixGrows(hash: map<Key, Message>, messages: seq<Message>, i: nat)
    requires i < |messages|
    ensures KeysOf(messages[..i + 1]) == KeysOf(messages[..i]) + {messages[i].key}
    ensures PutAll(hash, messages[..i + 1]) == PutAll(hash, messages[..i])[messages[i].key := messages[i]]
  {
    assert messages[..i + 1] == messages[..i] + [messages[i]];
    PutAllAppend(hash, messages[..i], messages[i]);
    KeysOfAppend(messages[..i], messages[i]);
  }

  lemma KeysOfAppend(messages: seq<Message>, m: Message)
    ensures KeysOf(messages + [m]) == KeysOf(messages) + {m.key}
  {
    assert forall x :: x in messages + [m] <==> x in messages || x == m;
  }

  lemma {:induction false} PutAllAppend(hash: map<Key, Message>, messages: seq<Message>, m: Message)
    ensures PutAll(hash, messages + [m]) == PutAll(hash, messages)[m.key := m]
    decreases |messages|
  {
    if messages == [] {
      assert [m][1..] == [];
    } else {
      assert (messages + [m])[1..] == messages[1..] + [m];
      PutAllAppend(hash[messages[0].key := messages[0]], messages[1..], m);
    }
  }
}
