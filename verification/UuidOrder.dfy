/**
 The sorted set orders equal scores by the bytes of the member, which is a UUID in its lower-case
 text form; the table orders equal times by the 128-bit id. Both orders are the same, so one key
 (time, id) orders both stores.
 */
module UuidOrder {
  import opened KeyOrder

  const DIGITS := 32
  const LENGTH := 36

  function Power(k: nat): nat {
    if k == 0 then 1 else 16 * Power(k - 1)
  }

  /** The last k hexadecimal digits of n, most significant first. */
  function Nibbles(n: nat, k: nat): (d: seq<nat>)
    ensures |d| == k && forall i :: 0 <= i < k ==> d[i] < 16
  {
    if k == 0 then [] else Nibbles(n / 16, k - 1) + [n % 16]
  }

  /** The lower-case hexadecimal digit as its ASCII code. */
  function Ascii(d: nat): nat
    requires d < 16
  {
    if d < 10 then 48 + d else 97 + (d - 10)
  }

  const DASH: nat := 45

  predicate IsDash(p: int) {
    p == 8 || p == 13 || p == 18 || p == 23
  }

  /** The digit shown at a position that is no dash. */
  function DigitAt(p: nat): (i: int)
    requires p < LENGTH && !IsDash(p)
    ensures 0 <= i < DIGITS && Position(i) == p
  {
    if p < 8 then p else if p < 13 then p - 1 else if p < 18 then p - 2 else if p < 23 then p - 3 else p - 4
  }

  function Position(i: nat): nat {
    if i < 8 then i else if i < 12 then i + 1 else if i < 16 then i + 2 else if i < 20 then i + 3 else i + 4
  }

  /** The 8-4-4-4-12 text form. */
  function Text(id: nat): (t: seq<nat>)
    ensures |t| == LENGTH
  {
    seq(LENGTH, p requires 0 <= p < LENGTH =>
      if IsDash(p) then DASH else Ascii(Nibbles(id, DIGITS)[DigitAt(p)]))
  }

  /** The value of a lower-case hexadecimal digit, by its place in "0123456789abcdef". */
  function DigitValue(code: nat): int {
    if 48 <= code <= 57 then code - 48 else if 97 <= code <= 102 then code - 87 else -1
  }

  function ValueOf(digits: seq<nat>): nat {
    if digits == [] then 0 else 16 * ValueOf(digits[..|digits| - 1]) + digits[|digits| - 1]
  }

  lemma {:induction false} NibblesValue(n: nat, k: nat)
    requires n < Power(k)
    ensures ValueOf(Nibbles(n, k)) == n
  {
    if k != 0 {
      NibblesValue(n / 16, k - 1);
      assert Nibbles(n, k)[..k - 1] == Nibbles(n / 16, k - 1);
    }
  }

  /** The digits of a text in the 8-4-4-4-12 form, its dashes left out. */
  function ReadDigits(text: seq<nat>): seq<int>
    requires |text| == 36
  {
    seq(32, i requires 0 <= i < 32 =>
      DigitValue(text[if i < 8 then i else if i < 12 then i + 1 else if i < 16 then i + 2
                      else if i < 20 then i + 3 else i + 4]))
  }

  /** The text of an id has dashes at 8, 13, 18 and 23 and lower-case digits elsewhere, whose value is the id. */
  lemma TextReadsBack(id: nat) returns (digits: seq<nat>)
    requires id < Power(DIGITS)
    ensures Text(id)[8] == Text(id)[13] == Text(id)[18] == Text(id)[23] == 45
    ensures |digits| == 32 && forall i :: 0 <= i < 32 ==> 0 <= ReadDigits(Text(id))[i] == digits[i] < 16
    ensures ValueOf(digits) == id
  {
    digits := Nibbles(id, DIGITS);
    forall i | 0 <= i < 32 ensures ReadDigits(Text(id))[i] == digits[i] {
      TextAt(id, i);
      assert DigitValue(Ascii(digits[i])) == digits[i];
      assert ReadDigits(Text(id))[i] == DigitValue(Text(id)[Position(i)]);
    }
    NibblesValue(id, DIGITS);
  }

  lemma TextAt(id: nat, i: nat)
    requires i < DIGITS
    ensures Position(i) < LENGTH && Text(id)[Position(i)] == Ascii(Nibbles(id, DIGITS)[i])
  {
    assert !IsDash(Position(i)) && DigitAt(Position(i)) == i;
  }

  /** Byte order on strings of one length: the first difference decides. */
  ghost predicate Precedes(s: seq<nat>, t: seq<nat>) {
    exists k :: FirstDifference(s, t, k) && s[k] < t[k]
  }

  ghost predicate FirstDifference(s: seq<nat>, t: seq<nat>, k: int) {
    0 <= k < |s| && k < |t| && s[k] != t[k] && forall i :: 0 <= i < k ==> s[i] == t[i]
  }

  lemma Asymmetric(s: seq<nat>, t: seq<nat>)
    requires Precedes(s, t)
    ensures s != t && !Precedes(t, s)
  {
    var k :| FirstDifference(s, t, k) && s[k] < t[k];
    forall l | FirstDifference(t, s, l) ensures l == k {
      assert !(l < k) && !(k < l);
    }
  }

  lemma {:induction false} NibblesOrder(m: nat, n: nat, k: nat)
    requires m < n < Power(k)
    ensures Precedes(Nibbles(m, k), Nibbles(n, k))
  {
    var s, t := Nibbles(m, k), Nibbles(n, k);
    if m / 16 == n / 16 {
      assert FirstDifference(s, t, k - 1);
    } else {
      NibblesOrder(m / 16, n / 16, k - 1);
      var s', t' := Nibbles(m / 16, k - 1), Nibbles(n / 16, k - 1);
      var d :| FirstDifference(s', t', d) && s'[d] < t'[d];
      assert s[..k - 1] == s' && t[..k - 1] == t';
      assert forall i :: 0 <= i < k - 1 ==> s[i] == s'[i] && t[i] == t'[i];
      assert FirstDifference(s, t, d);
    }
  }

  lemma SamePrefix(m: nat, n: nat, d: nat)
    requires d < DIGITS && forall i :: 0 <= i < d ==> Nibbles(m, DIGITS)[i] == Nibbles(n, DIGITS)[i]
    ensures forall q :: 0 <= q < Position(d) ==> Text(m)[q] == Text(n)[q]
  {
    forall q | 0 <= q < Position(d) ensures Text(m)[q] == Text(n)[q] {
      if !IsDash(q) {
        assert DigitAt(q) < d;
      }
    }
  }

  lemma TextKeepsOrder(m: nat, n: nat)
    requires m < n < Power(DIGITS)
    ensures Precedes(Text(m), Text(n))
  {
    NibblesOrder(m, n, DIGITS);
    var s, t := Nibbles(m, DIGITS), Nibbles(n, DIGITS);
    var d :| FirstDifference(s, t, d) && s[d] < t[d];
    var p := Position(d);
    assert !IsDash(p) && DigitAt(p) == d;
    SamePrefix(m, n, d);
    assert FirstDifference(Text(m), Text(n), p);
  }

  /** Members with equal scores are ordered as the table orders rows with equal times. */
  lemma MemberOrderIsIdOrder(m: nat, n: nat)
    requires m < Power(DIGITS) && n < Power(DIGITS)
    ensures Precedes(Text(m), Text(n)) <==> m < n
    ensures Text(m) == Text(n) <==> m == n
  {
    if m < n {
      TextKeepsOrder(m, n);
      Asymmetric(Text(m), Text(n));
    } else if n < m {
      TextKeepsOrder(n, m);
      Asymmetric(Text(n), Text(m));
    }
  }

  /** Valkey's order of sorted-set entries: by score, then by member. */
  ghost predicate EntryLess(a: Key, b: Key)
    requires a.id >= 0 && b.id >= 0
  {
    a.at < b.at || (a.at == b.at && Precedes(Text(a.id), Text(b.id)))
  }

  lemma EntryOrderIsKeyOrder(a: Key, b: Key)
    requires 0 <= a.id < Power(DIGITS) && 0 <= b.id < Power(DIGITS)
    ensures EntryLess(a, b) <==> Less(a, b)
  {
    MemberOrderIsIdOrder(a.id, b.id);
  }
}
