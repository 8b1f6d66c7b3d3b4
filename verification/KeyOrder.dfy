/**
 The keyset order (created_at, id) that both stores page by, and the facts about
 "the n newest" that the cache and the table share.
 */
module KeyOrder {

  /** A message's position in a channel: its creation time, then its id as a number. */
  datatype Key = Key(at: int, id: int)

  predicate Less(a: Key, b: Key) {
    a.at < b.at || (a.at == b.at && a.id < b.id)
  }

  predicate Ascending(s: seq<Key>) {
    forall i, j :: 0 <= i < j < |s| ==> Less(s[i], s[j])
  }

  function Elements(s: seq<Key>): set<Key> {
    set k | k in s
  }

  /** The members of S strictly newer than k. */
  function Newer(S: set<Key>, k: Key): set<Key> {
    set j | j in S && Less(k, j)
  }

  /** The n newest members of S, by rank: fewer than n members are newer. */
  function Newest(S: set<Key>, n: nat): set<Key> {
    set k | k in S && |Newer(S, k)| < n
  }

  /** The members of S strictly before the cursor. */
  function Before(S: set<Key>, cursor: Key): set<Key> {
    set k | k in S && Less(k, cursor)
  }

  /** The newest n elements of an ascending list. */
  function Last<T>(s: seq<T>, n: nat): (r: seq<T>) {
    if |s| <= n then s else s[|s| - n..]
  }

  /** A is closed upwards in B: everything in B newer than a member of A is in A. */
  ghost predicate UpwardClosed(A: set<Key>, B: set<Key>) {
    A <= B && forall a, b :: a in A && b in B && Less(a, b) ==> b in A
  }

  predicate IsMax(S: set<Key>, m: Key) {
    m in S && forall k :: k in S && k != m ==> Less(k, m)
  }

  lemma {:induction false} MaxExists(S: set<Key>)
    requires S != {}
    ensures exists m :: IsMax(S, m)
    decreases |S|
  {
    var x :| x in S;
    var rest := S - {x};
    if rest == {} {
      assert S == {x};
      assert IsMax(S, x);
    } else {
      MaxExists(rest);
      var m :| IsMax(rest, m);
      var top := if Less(m, x) then x else m;
      forall k | k in S && k != top ensures Less(k, top) {
        assert k == x || k in rest;
      }
      assert IsMax(S, top);
    }
  }

  lemma AppendMax(S: set<Key>, m: Key, front: seq<Key>)
    requires IsMax(S, m) && Ascending(front) && Elements(front) == S - {m}
    ensures Ascending(front + [m]) && Elements(front + [m]) == S
  {
    assert forall i :: 0 <= i < |front| ==> front[i] in Elements(front);
    assert Elements(front + [m]) == Elements(front) + {m};
  }

  /** The members of S as the ascending list both stores answer with. */
  function Sorted(S: set<Key>): (s: seq<Key>)
    ensures Ascending(s)
    ensures Elements(s) == S
    ensures |s| == |S|
    decreases |S|
  {
    if S == {} then []
    else
      MaxExists(S);
      var m :| IsMax(S, m);
      AppendMax(S, m, Sorted(S - {m}));
      Sorted(S - {m}) + [m]
  }

  lemma LastIsMax(a: seq<Key>)
    requires Ascending(a) && a != []
    ensures IsMax(Elements(a), a[|a| - 1])
    ensures Ascending(a[..|a| - 1])
    ensures Elements(a[..|a| - 1]) == Elements(a) - {a[|a| - 1]}
  {
    var front, x := a[..|a| - 1], a[|a| - 1];
    assert a == front + [x];
    assert forall i :: 0 <= i < |front| ==> front[i] == a[i];
    assert Elements(a) == Elements(front) + {x};
  }

  lemma MaxUnique(S: set<Key>, x: Key, y: Key)
    requires IsMax(S, x) && IsMax(S, y)
    ensures x == y
  {
  }

  lemma NoElements(s: seq<Key>)
    ensures s != [] ==> Elements(s) != {}
  {
    if s != [] {
      assert s[0] in Elements(s);
    }
  }

  /** An ascending list is determined by its elements. */
  lemma {:induction false} AscendingUnique(a: seq<Key>, b: seq<Key>)
    requires Ascending(a) && Ascending(b)
    requires Elements(a) == Elements(b)
    ensures a == b
    decreases |a|
  {
    if a == [] {
      NoElements(b);
    } else {
      assert a[0] in Elements(b);
      LastIsMax(a);
      LastIsMax(b);
      MaxUnique(Elements(a), a[|a| - 1], b[|b| - 1]);
      AscendingUnique(a[..|a| - 1], b[..|b| - 1]);
      assert a == a[..|a| - 1] + [a[|a| - 1]];
      assert b == b[..|b| - 1] + [b[|b| - 1]];
    }
  }

  lemma {:induction false} ElementsCount(s: seq<Key>)
    requires Ascending(s)
    ensures |Elements(s)| == |s|
  {
    if s == [] {
    } else {
      var s', x := s[..|s| - 1], s[|s| - 1];
      assert s == s' + [x];
      ElementsCount(s');
      assert Elements(s) == Elements(s') + {x};
    }
  }

  /** In an ascending list, position fixes rank. */
  lemma RankAt(s: seq<Key>, i: nat)
    requires Ascending(s) && i < |s|
    ensures |Newer(Elements(s), s[i])| == |s| - 1 - i
  {
    var tail := s[i + 1..];
    assert Newer(Elements(s), s[i]) == Elements(tail) by {
      forall k | k in Newer(Elements(s), s[i]) ensures k in Elements(tail) {
        var j :| 0 <= j < |s| && s[j] == k;
        assert j > i;
        assert tail[j - i - 1] == k;
      }
      forall k | k in Elements(tail) ensures k in Newer(Elements(s), s[i]) {
        var j :| 0 <= j < |tail| && tail[j] == k;
        assert s[i + 1 + j] == k;
      }
    }
    ElementsCount(tail);
  }

  lemma TailByRank(s: seq<Key>, n: nat)
    requires Ascending(s)
    ensures Elements(Last(s, n)) == Newest(Elements(s), n)
  {
    var t := Last(s, n);
    var off := |s| - |t|;
    forall k | k in Elements(t) ensures k in Newest(Elements(s), n) {
      var j :| 0 <= j < |t| && t[j] == k;
      assert s[off + j] == k;
      RankAt(s, off + j);
    }
    forall k | k in Newest(Elements(s), n) ensures k in Elements(t) {
      var i :| 0 <= i < |s| && s[i] == k;
      RankAt(s, i);
      assert t[i - off] == k;
    }
  }

  lemma LastAscending(s: seq<Key>, n: nat)
    requires Ascending(s)
    ensures Ascending(Last(s, n))
  {
    var t := Last(s, n);
    var off := |s| - |t|;
    forall i, j | 0 <= i < j < |t| ensures Less(t[i], t[j]) {
      assert t[i] == s[off + i] && t[j] == s[off + j];
    }
  }

  lemma NewestCount(S: set<Key>, n: nat)
    ensures |Newest(S, n)| == if |S| <= n then |S| else n
    ensures |S| <= n ==> Newest(S, n) == S
  {
    TailByRank(Sorted(S), n);
    LastAscending(Sorted(S), n);
    ElementsCount(Last(Sorted(S), n));
  }

  /** The n newest by rank, listed, are the tail of the ascending list. */
  lemma NewestIsTail(S: set<Key>, n: nat)
    ensures Sorted(Newest(S, n)) == Last(Sorted(S), n)
  {
    TailByRank(Sorted(S), n);
    LastAscending(Sorted(S), n);
    AscendingUnique(Sorted(Newest(S, n)), Last(Sorted(S), n));
  }

  lemma NewerMonotone(T: set<Key>, S: set<Key>, k: Key)
    requires T <= S
    ensures Newer(T, k) <= Newer(S, k)
    ensures |Newer(T, k)| <= |Newer(S, k)|
  {
    SubsetCount(Newer(T, k), Newer(S, k));
  }

  lemma {:induction false} SubsetCount<T>(A: set<T>, B: set<T>)
    requires A <= B
    ensures |A| <= |B|
    decreases |A|
  {
    if A != {} {
      var x :| x in A;
      SubsetCount(A - {x}, B - {x});
    }
  }

  /** A member that is not among the n newest is older than each of them. */
  lemma OlderThanNewest(S: set<Key>, n: nat, k: Key, top: Key)
    requires k in S && k !in Newest(S, n) && top in Newest(S, n)
    ensures Less(k, top)
  {
    if !Less(k, top) {
      NewerOfOlder(S, top, k);
    }
  }

  lemma NewerOfOlder(S: set<Key>, older: Key, newer: Key)
    requires older == newer || Less(older, newer)
    ensures |Newer(S, newer)| <= |Newer(S, older)|
  {
    SubsetCount(Newer(S, newer), Newer(S, older));
  }

  /** Dropping members outside the n newest does not change the n newest. */
  lemma NewestStable(T: set<Key>, S: set<Key>, n: nat)
    requires Newest(S, n) <= T <= S
    ensures Newest(T, n) == Newest(S, n)
  {
    forall k | k in Newest(S, n) ensures k in Newest(T, n) {
      NewerMonotone(T, S, k);
    }
    forall k | k in Newest(T, n) ensures k in Newest(S, n) {
      if k !in Newest(S, n) {
        NewestCount(S, n);
        SubsetCount(Newer(S, k), S - {k});
        assert |S| > n;
        forall j | j in Newest(S, n) ensures j in Newer(T, k) { OlderThanNewest(S, n, k, j); }
        SubsetCount(Newest(S, n), Newer(T, k));
      }
    }
  }

  /** Adding members never promotes an old one. */
  lemma NewestShrinks(T: set<Key>, S: set<Key>, n: nat)
    requires T <= S
    ensures Newest(S, n) * T <= Newest(T, n)
  {
    forall k | k in Newest(S, n) * T ensures k in Newest(T, n) { NewerMonotone(T, S, k); }
  }

  lemma NewestUpwardClosed(S: set<Key>, n: nat)
    ensures UpwardClosed(Newest(S, n), S)
  {
    forall a, b | a in Newest(S, n) && b in S && Less(a, b) ensures b in Newest(S, n) {
      NewerOfOlder(S, a, b);
    }
  }

  /** If an upward closed part has at least n members, it shows the whole set's n newest. */
  lemma UpwardClosedTail(A: set<Key>, B: set<Key>, n: nat)
    requires UpwardClosed(A, B)
    requires n <= |A| || A == B
    ensures Newest(A, n) == Newest(B, n)
    ensures Last(Sorted(A), n) == Last(Sorted(B), n)
  {
    assert Newest(B, n) <= A by {
      forall k | k in Newest(B, n) ensures k in A {
        if k !in A {
          forall a | a in A ensures a in Newer(B, k) {
            assert Less(k, a) || Less(a, k);
          }
          SubsetCount(A, Newer(B, k));
        }
      }
    }
    NewestStable(A, B, n);
    NewestIsTail(A, n);
    NewestIsTail(B, n);
  }

  /** With n members in A, the tails of A and B are the same list exactly when A's n newest leave no gap in B. */
  lemma SameTailIff(A: set<Key>, B: set<Key>, n: nat)
    requires n <= |A|
    ensures Last(Sorted(A), n) == Last(Sorted(B), n) <==> UpwardClosed(Newest(A, n), B)
  {
    var T := Newest(A, n);
    NewestIsTail(A, n);
    NewestIsTail(B, n);
    NewestCount(A, n);
    if UpwardClosed(T, B) {
      UpwardClosedTail(T, B, n);
      assert Last(Sorted(T), n) == Sorted(T);
    }
    if Last(Sorted(A), n) == Last(Sorted(B), n) {
      assert T == Elements(Sorted(T)) == Newest(B, n);
      NewestUpwardClosed(B, n);
    }
  }
}
