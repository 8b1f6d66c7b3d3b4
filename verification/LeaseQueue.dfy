/**
 The two leased work queues: outbox events and notification deliveries. Any number of workers on
 any number of replicas sample a shared clock, claim rows, dispatch them and write the outcome back
 as separate steps, and may die between any two of them. Neither completion statement checks that
 the finisher still owns the claim.
 */
module LeaseQueue {
  import opened ChatTypes
  import opened KeyOrder

  datatype Queue = Outbox | Deliveries

  const CLAIM_TIMEOUT: int := 60_000
  const ATTEMPT_CAP: nat := 5
  const BATCH: nat := 32

  // ----- backoff -----

  const I64_MAX: int := 0x7FFF_FFFF_FFFF_FFFF
  const ONE_HOUR: int := 3_600_000

  function Shl(n: nat): int {
    if n == 0 then 1 else 2 * Shl(n - 1)
  }

  function SaturatingMul(a: int, b: int): int {
    if a * b > I64_MAX then I64_MAX else a * b
  }

  function Clamp(attempts: int): nat {
    if attempts < 0 then 0 else if attempts > 12 then 12 else attempts
  }

  /** retry_delay_ms on an i32 attempt count. */
  function RetryDelay(attempts: int): int {
    var d := SaturatingMul(Shl(Clamp(attempts)), 1000);
    if d < ONE_HOUR then d else ONE_HOUR
  }

  lemma {:induction false} ShlMonotone(m: nat, n: nat)
    requires m <= n
    ensures 1 <= Shl(m) <= Shl(n)
  {
    if m == n {
      if m != 0 { ShlMonotone(m - 1, n - 1); }
    } else {
      ShlMonotone(m, n - 1);
    }
  }

  /** The product never saturates, and the delay is monotone within one second to one hour. */
  lemma RetryDelayBounds(attempts: int, more: int)
    requires attempts <= more
    ensures Shl(Clamp(attempts)) * 1000 <= 4_096_000 < I64_MAX
    ensures 1000 <= RetryDelay(attempts) <= RetryDelay(more) <= 3_600_000
    ensures attempts <= 0 ==> RetryDelay(attempts) == 1000
    ensures 0 < attempts <= 11 ==> RetryDelay(attempts) == 2 * RetryDelay(attempts - 1)
    ensures attempts >= 12 ==> RetryDelay(attempts) == 3_600_000
  {
    ShlMonotone(0, Clamp(attempts));
    ShlMonotone(Clamp(attempts), Clamp(more));
    ShlMonotone(Clamp(more), 12);
    ShlMonotone(Clamp(attempts), 12);
    assert Shl(12) == 4096 by { assert Shl(6) == 64; assert Shl(9) == 512; }
    if 0 <= attempts <= 11 {
      ShlMonotone(attempts, 11);
    }
    if 0 < attempts <= 11 {
      ShlMonotone(attempts - 1, 11);
    }
  }

  // ----- rows, leases, steps -----

  /** nextAt is used by deliveries only; doneAt is published_at or sent_at. */
  datatype Row = Row(createdAt: int, attempts: nat, claimedAt: Option<int>, doneAt: Option<int>, nextAt: int)

  /** One claim of one row: the attempt number the claim wrote. */
  datatype Lease = Lease(row: int, attempt: nat)

  datatype Phase = Claimed | Succeeded | Failed

  /** What a worker holding a lease remembers: the claimed_at it wrote and the dispatch outcome. */
  datatype Holding = Holding(at: int, phase: Phase)

  /** dispatched, succeeded and lastClaim are history. */
  datatype State = State(
    now: int, rows: map<int, Row>, samples: map<int, int>, leases: map<Lease, Holding>,
    dispatched: set<Lease>, succeeded: set<Lease>, lastClaim: map<int, int>)

  datatype Action =
    | Advance(t: int)
    | Enqueue(id: int, createdAt: int, nextAt: int)
    | Sample(w: int)
    | Claim(w: int, ids: set<int>)
    | Dispatch(l: Lease, ok: bool)
    | Finish(l: Lease)
    | Lose(l: Lease)           // the worker dies, or its completion update fails

  predicate Claimable(q: Queue, row: Row, t: int) {
    && row.doneAt.None?
    && (row.claimedAt.None? || row.claimedAt.value < t - CLAIM_TIMEOUT)
    && (q.Outbox? ==> row.attempts < ATTEMPT_CAP)
    && (q.Deliveries? ==> row.nextAt <= t)
  }

  function ClaimRow(row: Row, t: int): Row {
    row.(claimedAt := Some(t), attempts := row.attempts + 1)
  }

  function ClaimRows(rows: map<int, Row>, ids: set<int>, t: int): map<int, Row> {
    map id | id in rows :: if id in ids then ClaimRow(rows[id], t) else rows[id]
  }

  function FinishRow(q: Queue, row: Row, attempt: nat, ok: bool, now: int): Row {
    if row.doneAt.Some? then row
    else if ok then row.(doneAt := Some(now), claimedAt := None)
    else if q.Outbox? then row.(claimedAt := None)
    else row.(claimedAt := None, nextAt := now + RetryDelay(attempt))
  }

  predicate Enabled(q: Queue, s: State, a: Action) {
    match a
    case Advance(t) => s.now <= t
    case Enqueue(id, _, _) => id !in s.rows
    case Sample(_) => true
    case Claim(w, ids) =>
      && w in s.samples && |ids| <= BATCH && ids <= s.rows.Keys
      && forall id :: id in ids ==> Claimable(q, s.rows[id], s.samples[w])
    case Dispatch(l, _) => l in s.leases && s.leases[l].phase.Claimed?
    case Finish(l) => l in s.leases && l.row in s.rows && !s.leases[l].phase.Claimed?
    case Lose(l) => l in s.leases
  }

  function NewLeases(rows: map<int, Row>, ids: set<int>): set<Lease>
    requires ids <= rows.Keys
  {
    set id | id in ids :: Lease(id, rows[id].attempts + 1)
  }

  function Apply(q: Queue, s: State, a: Action): State
    requires Enabled(q, s, a)
  {
    match a
    case Advance(t) => s.(now := t)
    case Enqueue(id, createdAt, nextAt) => s.(rows := s.rows[id := Row(createdAt, 0, None, None, nextAt)])
    case Sample(w) => s.(samples := s.samples[w := s.now])
    case Claim(w, ids) =>
      var t := s.samples[w];
      s.(rows := ClaimRows(s.rows, ids, t),
         samples := s.samples - {w},
         leases := s.leases + map l | l in NewLeases(s.rows, ids) :: Holding(t, Claimed),
         lastClaim := s.lastClaim + map id | id in ids :: t)
    case Dispatch(l, ok) =>
      s.(leases := s.leases[l := s.leases[l].(phase := if ok then Succeeded else Failed)],
         dispatched := s.dispatched + {l},
         succeeded := if ok then s.succeeded + {l} else s.succeeded)
    case Finish(l) =>
      s.(rows := s.rows[l.row := FinishRow(q, s.rows[l.row], l.attempt, s.leases[l].phase.Succeeded?, s.now)],
         leases := s.leases - {l})
    case Lose(l) => s.(leases := s.leases - {l})
  }

  ghost predicate Init(s: State) {
    && s.rows == map[] && s.samples == map[] && s.leases == map[]
    && s.dispatched == {} && s.succeeded == {} && s.lastClaim == map[]
  }

  ghost predicate IsRun(q: Queue, states: seq<State>, actions: seq<Action>) {
    && |states| == |actions| + 1
    && Init(states[0])
    && forall i :: 0 <= i < |actions| ==>
         Enabled(q, states[i], actions[i]) && states[i + 1] == Apply(q, states[i], actions[i])
  }

  // ----- what every step keeps, crashes and slow workers included -----

  ghost predicate LeasesBounded(s: State) {
    forall l :: l in s.leases ==>
      && l.row in s.rows && 1 <= l.attempt <= s.rows[l.row].attempts
      && (s.leases[l].phase.Claimed? <==> l !in s.dispatched)
      && (s.leases[l].phase.Succeeded? ==> l in s.succeeded)
      && s.leases[l].at <= s.now
  }

  ghost predicate DispatchesBounded(s: State) {
    && s.succeeded <= s.dispatched
    && forall l :: l in s.dispatched ==> l.row in s.rows && 1 <= l.attempt <= s.rows[l.row].attempts
  }

  ghost predicate SuccessOf(s: State, r: int) {
    exists l :: l in s.succeeded && l.row == r
  }

  ghost predicate RowsSound(q: Queue, s: State) {
    forall r :: r in s.rows ==>
      && (q.Outbox? ==> s.rows[r].attempts <= ATTEMPT_CAP)
      && (s.rows[r].doneAt.Some? ==> SuccessOf(s, r))
      && (s.rows[r].attempts > 0 <==> r in s.lastClaim)
      && (s.rows[r].claimedAt.Some? ==> r in s.lastClaim && s.rows[r].claimedAt.value == s.lastClaim[r])
  }

  ghost predicate Inv(q: Queue, s: State) {
    && LeasesBounded(s)
    && DispatchesBounded(s)
    && RowsSound(q, s)
    && (forall w :: w in s.samples ==> s.samples[w] <= s.now)
    && s.lastClaim.Keys <= s.rows.Keys
  }

  lemma ClaimKeeps(q: Queue, s: State, a: Action)
    requires Inv(q, s) && Enabled(q, s, a) && a.Claim?
    ensures Inv(q, Apply(q, s, a))
  {
    var s' := Apply(q, s, a);
    forall l | l in s'.leases
      ensures l.row in s'.rows && 1 <= l.attempt <= s'.rows[l.row].attempts
      ensures s'.leases[l].phase.Claimed? <==> l !in s'.dispatched
      ensures s'.leases[l].phase.Succeeded? ==> l in s'.succeeded
      ensures s'.leases[l].at <= s'.now
    {
      if l in NewLeases(s.rows, a.ids) {
        assert l !in s.dispatched;
      } else {
        assert l in s.leases;
      }
    }
    SuccessKept(s, s');
  }

  lemma SuccessKept(s: State, s': State)
    requires s.succeeded <= s'.succeeded
    ensures forall r :: SuccessOf(s, r) ==> SuccessOf(s', r)
  {
    forall r | SuccessOf(s, r) ensures SuccessOf(s', r) {
      var l :| l in s.succeeded && l.row == r;
      assert l in s'.succeeded;
    }
  }

  lemma FinishKeeps(q: Queue, s: State, a: Action)
    requires Inv(q, s) && Enabled(q, s, a) && a.Finish?
    ensures Inv(q, Apply(q, s, a))
  {
    var s' := Apply(q, s, a);
    SuccessKept(s, s');
    assert s'.rows[a.l.row].attempts == s.rows[a.l.row].attempts;
    if s'.rows[a.l.row].doneAt.Some? && s.rows[a.l.row].doneAt.None? {
      assert a.l in s'.succeeded;
    }
  }

  lemma StepKeeps(q: Queue, s: State, a: Action)
    requires Inv(q, s) && Enabled(q, s, a)
    ensures Inv(q, Apply(q, s, a))
  {
    match a
    case Claim(_, _) => ClaimKeeps(q, s, a);
    case Finish(_) => FinishKeeps(q, s, a);
    case _ => SuccessKept(s, Apply(q, s, a));
  }

  lemma {:induction false} RunKeeps(q: Queue, states: seq<State>, actions: seq<Action>, i: nat)
    requires IsRun(q, states, actions) && i < |states|
    ensures Inv(q, states[i])
  {
    if i != 0 {
      RunKeeps(q, states, actions, i - 1);
      StepKeeps(q, states[i - 1], actions[i - 1]);
    }
  }

  // ----- what the steps do -----

  /** A new row is claimable by anybody once it is due. */
  lemma EnqueuedIsClaimable(q: Queue, s: State, id: int, createdAt: int, nextAt: int, t: int)
    requires id !in s.rows && (q.Deliveries? ==> nextAt <= t)
    ensures Enabled(q, s, Enqueue(id, createdAt, nextAt))
    ensures var end := Apply(q, s, Enqueue(id, createdAt, nextAt));
            && end.rows.Keys == s.rows.Keys + {id} && (forall r :: r in s.rows ==> end.rows[r] == s.rows[r])
            && end.rows[id].createdAt == createdAt && end.rows[id].nextAt == nextAt && Claimable(q, end.rows[id], t)
  {
  }

  /** A claim gives its worker a lease on each row it names, at the time the worker sampled, and on no other. */
  lemma ClaimLeases(q: Queue, s: State, w: int, ids: set<int>, r: int)
    requires Enabled(q, s, Claim(w, ids)) && r in s.rows
    ensures var end := Apply(q, s, Claim(w, ids));
            var l := Lease(r, s.rows[r].attempts + 1);
            && r in end.rows && w !in end.samples
            && (r in ids ==>
                  && l in end.leases && end.leases[l] == Holding(s.samples[w], Claimed) && Carries(end, l)
                  && end.rows[r].attempts == s.rows[r].attempts + 1 && end.lastClaim[r] == s.samples[w])
            && (r !in ids ==> end.rows[r] == s.rows[r] && (l in end.leases <==> l in s.leases))
  {
    var end, l := Apply(q, s, Claim(w, ids)), Lease(r, s.rows[r].attempts + 1);
    assert l in NewLeases(s.rows, ids) <==> r in ids;
  }

  /**
   A dispatch and its completion: a success finishes an unfinished row now; a failure frees it, a
   delivery after its backoff; a finished row stays as it is, and so does every other row.
   */
  lemma DispatchAndFinish(q: Queue, s: State, l: Lease, ok: bool)
    requires l in s.leases && s.leases[l].phase.Claimed? && l.row in s.rows
    ensures Enabled(q, s, Dispatch(l, ok)) && Enabled(q, Apply(q, s, Dispatch(l, ok)), Finish(l))
    ensures var end := Apply(q, Apply(q, s, Dispatch(l, ok)), Finish(l));
            var was := s.rows[l.row];
            && l !in end.leases && l in end.dispatched && (ok ==> l in end.succeeded)
            && end.rows.Keys == s.rows.Keys && (forall r :: r in s.rows && r != l.row ==> end.rows[r] == s.rows[r])
            && (was.doneAt.Some? ==> end.rows[l.row] == was)
            && (was.doneAt.None? ==>
                  && end.rows[l.row].doneAt == (if ok then Some(s.now) else None)
                  && end.rows[l.row].claimedAt == None && end.rows[l.row].attempts == was.attempts
                  && (!ok && q.Deliveries? ==> end.rows[l.row].nextAt == s.now + RetryDelay(l.attempt)))
  {
  }

  /** A worker that dies leaves every row as it is. */
  lemma LossKeepsRows(q: Queue, s: State, l: Lease)
    requires l in s.leases
    ensures Enabled(q, s, Lose(l)) && Apply(q, s, Lose(l)).rows == s.rows
    ensures Apply(q, s, Lose(l)).leases.Keys == s.leases.Keys - {l}
  {
  }

  // ----- bounded at-least-once -----

  function DispatchesOf(s: State, r: int): set<Lease> {
    set l | l in s.dispatched && l.row == r
  }

  /** How often the first i actions dispatch row r. */
  function DispatchCount(actions: seq<Action>, r: int, i: nat): nat
    requires i <= |actions|
  {
    if i == 0 then 0
    else DispatchCount(actions, r, i - 1) + if actions[i - 1].Dispatch? && actions[i - 1].l.row == r then 1 else 0
  }

  lemma {:induction false} CountIsDispatches(q: Queue, states: seq<State>, actions: seq<Action>, r: int, i: nat)
    requires IsRun(q, states, actions) && i <= |actions|
    ensures DispatchCount(actions, r, i) == |DispatchesOf(states[i], r)|
  {
    if i == 0 {
      assert DispatchesOf(states[0], r) == {};
    } else {
      CountIsDispatches(q, states, actions, r, i - 1);
      RunKeeps(q, states, actions, i - 1);
      DispatchStep(q, states[i - 1], actions[i - 1], r);
    }
  }

  lemma DispatchStep(q: Queue, s: State, a: Action, r: int)
    requires Inv(q, s) && Enabled(q, s, a)
    ensures |DispatchesOf(Apply(q, s, a), r)| == |DispatchesOf(s, r)| + if a.Dispatch? && a.l.row == r then 1 else 0
  {
    var s' := Apply(q, s, a);
    if a.Dispatch? && a.l.row == r {
      assert DispatchesOf(s', r) == DispatchesOf(s, r) + {a.l};
      assert a.l !in DispatchesOf(s, r);
    } else {
      assert DispatchesOf(s', r) == DispatchesOf(s, r);
    }
  }

  lemma {:induction false} AttemptsFit(ls: set<Lease>, r: int, n: nat)
    requires forall l :: l in ls ==> l.row == r && 1 <= l.attempt <= n
    ensures |ls| <= n
  {
    if n == 0 {
      assert ls == {};
    } else {
      var rest := ls - {Lease(r, n)};
      AttemptsFit(rest, r, n - 1);
      assert ls <= rest + {Lease(r, n)};
      SubsetCount(ls, rest + {Lease(r, n)});
    }
  }

  /** Whatever the interleaving and the crashes, an outbox event is dispatched at most five times. */
  lemma OutboxDispatchedAtMostFiveTimes(states: seq<State>, actions: seq<Action>, r: int, i: nat)
    requires IsRun(Outbox, states, actions) && i <= |actions|
    ensures DispatchCount(actions, r, i) <= ATTEMPT_CAP
  {
    CountIsDispatches(Outbox, states, actions, r, i);
    RunKeeps(Outbox, states, actions, i);
    AttemptsFit(DispatchesOf(states[i], r), r, if r in states[i].rows then states[i].rows[r].attempts else 0);
  }

  /** A finished row was dispatched successfully, and stays exactly as finished for the rest of the run. */
  lemma {:induction false} DoneIsFinal(q: Queue, states: seq<State>, actions: seq<Action>, r: int, i: nat, j: nat)
    requires IsRun(q, states, actions) && i <= j < |states|
    requires r in states[i].rows && states[i].rows[r].doneAt.Some?
    ensures SuccessOf(states[i], r)
    ensures r in states[j].rows && states[j].rows[r] == states[i].rows[r]
  {
    RunKeeps(q, states, actions, i);
    if i < j {
      DoneIsFinal(q, states, actions, r, i, j - 1);
    }
  }

  /** An unfinished row with attempts left is claimable by anyone who samples more than 60 s after its last claim. */
  lemma AlwaysClaimableAgain(q: Queue, s: State, r: int, t: int)
    requires Inv(q, s) && r in s.rows && s.rows[r].doneAt.None?
    requires r in s.lastClaim ==> t > s.lastClaim[r] + CLAIM_TIMEOUT
    requires q.Outbox? ==> s.rows[r].attempts < ATTEMPT_CAP
    requires q.Deliveries? ==> s.rows[r].nextAt <= t
    ensures Claimable(q, s.rows[r], t)
  {
  }

  // ----- lease exclusion -----

  /** The row still carries the claim this lease wrote. */
  predicate Carries(s: State, l: Lease) {
    && l in s.leases && l.row in s.rows && s.rows[l.row].attempts == l.attempt
    && s.rows[l.row].claimedAt == Some(s.leases[l].at) && s.rows[l.row].doneAt.None?
  }

  ghost predicate Owned(s: State) {
    forall l :: l in s.leases ==> Carries(s, l)
  }

  /** No row has two holders. */
  ghost predicate Exclusive(s: State) {
    forall l, m :: l in s.leases && m in s.leases && l.row == m.row ==> l == m
  }

  /** The step claims a row more than 60 s after the claim of somebody who still holds it. */
  ghost predicate Overdue(s: State, a: Action) {
    a.Claim? && a.w in s.samples &&
    exists l :: l in s.leases && l.row in a.ids && s.samples[a.w] > s.leases[l].at + CLAIM_TIMEOUT
  }

  /**
   A row that carries its holder's claim is claimable exactly past the holder's 60 s, if due and with
   attempts left.
   */
  lemma HeldClaimableIff(q: Queue, s: State, l: Lease, t: int)
    requires Carries(s, l)
    ensures Claimable(q, s.rows[l.row], t) <==>
            && t > s.leases[l].at + CLAIM_TIMEOUT
            && (q.Outbox? ==> l.attempt < ATTEMPT_CAP)
            && (q.Deliveries? ==> s.rows[l.row].nextAt <= t)
  {
  }

  lemma OwnedKept(q: Queue, s: State, a: Action)
    requires Inv(q, s) && Owned(s) && Enabled(q, s, a) && !Overdue(s, a)
    ensures Owned(Apply(q, s, a))
  {
    var s' := Apply(q, s, a);
    if a.Claim? {
      forall l | l in s'.leases ensures Carries(s', l) {
        if l !in NewLeases(s.rows, a.ids) {
          assert l in s.leases && Carries(s, l);
          assert l.row !in a.ids;
        }
      }
    } else if a.Finish? {
      assert forall l :: l in s'.leases ==> Carries(s, l) && l.row != a.l.row;
    } else {
      assert forall l :: l in s'.leases ==> Carries(s, l);
    }
  }

  lemma OverdueShares(q: Queue, s: State, a: Action)
    requires Owned(s) && Enabled(q, s, a) && Overdue(s, a)
    ensures !Exclusive(Apply(q, s, a))
  {
    var s' := Apply(q, s, a);
    var l :| l in s.leases && l.row in a.ids && s.samples[a.w] > s.leases[l].at + CLAIM_TIMEOUT;
    assert Carries(s, l);
    var m := Lease(l.row, s.rows[l.row].attempts + 1);
    assert m in NewLeases(s.rows, a.ids);
    assert l in s'.leases && m in s'.leases && l != m;
  }

  lemma OwnedIsExclusive(s: State)
    requires Owned(s)
    ensures Exclusive(s)
  {
    assert forall l :: l in s.leases ==> Carries(s, l);
  }

  lemma {:induction false} OwnedUntilOverdue(q: Queue, states: seq<State>, actions: seq<Action>, i: nat)
    requires IsRun(q, states, actions) && i < |states|
    requires forall t :: 0 <= t < i ==> !Overdue(states[t], actions[t])
    ensures Owned(states[i])
  {
    if i != 0 {
      OwnedUntilOverdue(q, states, actions, i - 1);
      RunKeeps(q, states, actions, i - 1);
      OwnedKept(q, states[i - 1], actions[i - 1]);
    }
  }

  /**
   In both queues, whatever the interleaving and the crashes: no row has two holders in any state
   up to i exactly when none of the first i steps is an overdue claim.
   */
  lemma ExclusiveIff(q: Queue, states: seq<State>, actions: seq<Action>, i: nat)
    requires IsRun(q, states, actions) && i < |states|
    ensures (forall t :: 0 <= t <= i ==> Exclusive(states[t])) <==>
            (forall t :: 0 <= t < i ==> !Overdue(states[t], actions[t]))
  {
    if forall t :: 0 <= t < i ==> !Overdue(states[t], actions[t]) {
      forall t | 0 <= t <= i ensures Exclusive(states[t]) {
        OwnedUntilOverdue(q, states, actions, t);
        OwnedIsExclusive(states[t]);
      }
    } else {
      var t := FirstOverdue(states, actions, i);
      OwnedUntilOverdue(q, states, actions, t);
      OverdueShares(q, states[t], actions[t]);
      assert !Exclusive(states[t + 1]);
    }
  }

  lemma {:induction false} FirstOverdue(states: seq<State>, actions: seq<Action>, i: nat) returns (t: nat)
    requires i <= |actions| <= |states|
    requires exists t :: 0 <= t < i && Overdue(states[t], actions[t])
    ensures t < i && Overdue(states[t], actions[t])
    ensures forall r :: 0 <= r < t ==> !Overdue(states[r], actions[r])
  {
    if r :| 0 <= r < i - 1 && Overdue(states[r], actions[r]) {
      t := FirstOverdue(states, actions, i - 1);
    } else {
      t := i - 1;
    }
  }

  /** Every lease is still inside its 60 s. */
  ghost predicate Timely(s: State) {
    forall l :: l in s.leases ==> s.now <= s.leases[l].at + CLAIM_TIMEOUT
  }

  /** If every claim is finished within 60 s of the claimed_at it wrote, no row ever has two holders. */
  lemma LeaseExclusion(q: Queue, states: seq<State>, actions: seq<Action>, i: nat)
    requires IsRun(q, states, actions) && i < |states|
    requires forall t :: 0 <= t < i ==> Timely(states[t])
    ensures forall t :: 0 <= t <= i ==> Exclusive(states[t])
  {
    forall t | 0 <= t < i ensures !Overdue(states[t], actions[t]) {
      RunKeeps(q, states, actions, t);
      assert Timely(states[t]);
    }
    ExclusiveIff(q, states, actions, i);
  }

  /** The latest claim's lease, while somebody holds it, knows the time that claim wrote. */
  ghost predicate LatestKnown(s: State) {
    forall l :: l in s.leases && l.row in s.rows && l.row in s.lastClaim && l.attempt == s.rows[l.row].attempts ==>
      s.leases[l].at == s.lastClaim[l.row]
  }

  lemma LatestKept(q: Queue, s: State, a: Action)
    requires Inv(q, s) && LatestKnown(s) && Enabled(q, s, a)
    ensures LatestKnown(Apply(q, s, a))
  {
    var s' := Apply(q, s, a);
    if a.Claim? {
      forall l | l in s'.leases && l.row in s'.rows && l.row in s'.lastClaim && l.attempt == s'.rows[l.row].attempts
        ensures s'.leases[l].at == s'.lastClaim[l.row]
      {
        assert l in NewLeases(s.rows, a.ids) <==> l.row in a.ids;
      }
    }
  }

  lemma {:induction false} RunKeepsLatest(q: Queue, states: seq<State>, actions: seq<Action>, i: nat)
    requires IsRun(q, states, actions) && i < |states|
    ensures LatestKnown(states[i])
  {
    if i != 0 {
      RunKeepsLatest(q, states, actions, i - 1);
      RunKeeps(q, states, actions, i - 1);
      LatestKept(q, states[i - 1], actions[i - 1]);
    }
  }

  /** Finishing l takes a claim off the row that another holder wrote and relies on. */
  ghost predicate FreesAnother(q: Queue, s: State, l: Lease)
    requires Enabled(q, s, Finish(l))
  {
    exists m :: m != l && Carries(s, m) && !Carries(Apply(q, s, Finish(l)), m)
  }

  /**
   In every reachable state, a completion takes away another holder's claim exactly when the row is
   unfinished and claimed, its attempt number is not the finisher's, and that attempt is still held.
   If the finisher failed, an outbox row with attempts left is then free for anybody at once.
   */
  lemma FinishFreesAnotherIff(q: Queue, states: seq<State>, actions: seq<Action>, i: nat, l: Lease)
    requires IsRun(q, states, actions) && i < |states| && Enabled(q, states[i], Finish(l))
    ensures var row := states[i].rows[l.row];
            FreesAnother(q, states[i], l) <==>
            && row.doneAt.None? && row.claimedAt.Some? && row.attempts != l.attempt
            && Lease(l.row, row.attempts) in states[i].leases
    ensures FreesAnother(q, states[i], l) && q.Outbox? && states[i].leases[l].phase.Failed?
            && states[i].rows[l.row].attempts < ATTEMPT_CAP ==>
              forall t :: Claimable(q, Apply(q, states[i], Finish(l)).rows[l.row], t)
  {
    RunKeeps(q, states, actions, i);
    RunKeepsLatest(q, states, actions, i);
    var s := states[i];
    var row := s.rows[l.row];
    var m := Lease(l.row, row.attempts);
    if row.doneAt.None? && row.claimedAt.Some? && row.attempts != l.attempt && m in s.leases {
      assert Carries(s, m) && !Carries(Apply(q, s, Finish(l)), m);
    }
    if FreesAnother(q, s, l) {
      var o :| o != l && Carries(s, o) && !Carries(Apply(q, s, Finish(l)), o);
      assert o.row == l.row;
      assert o == m;
    }
  }

  /** It takes an overdue claim to get there. */
  lemma FreeingNeedsOverdue(q: Queue, states: seq<State>, actions: seq<Action>, i: nat, l: Lease)
    requires IsRun(q, states, actions) && i < |states| && Enabled(q, states[i], Finish(l))
    requires FreesAnother(q, states[i], l)
    ensures exists t :: 0 <= t < i && Overdue(states[t], actions[t])
  {
    FinishFreesAnotherIff(q, states, actions, i, l);
    if forall t :: 0 <= t < i ==> !Overdue(states[t], actions[t]) {
      OwnedUntilOverdue(q, states, actions, i);
    }
  }

  // ----- spacing of delivery claims -----

  /** Once claimed, an unfinished delivery waits out its claim or its backoff. */
  ghost predicate Spaced(s: State) {
    forall r :: r in s.rows && s.rows[r].attempts > 0 && s.rows[r].doneAt.None? && s.rows[r].claimedAt.None? ==>
      r in s.lastClaim && s.rows[r].nextAt >= s.lastClaim[r] + RetryDelay(s.rows[r].attempts)
  }

  lemma SpacedKept(s: State, a: Action)
    requires Inv(Deliveries, s) && Owned(s) && Spaced(s) && Enabled(Deliveries, s, a)
    ensures Spaced(Apply(Deliveries, s, a))
  {
    var s' := Apply(Deliveries, s, a);
    if a.Finish? {
      assert Carries(s, a.l);
      assert s.rows[a.l.row].claimedAt.value == s.lastClaim[a.l.row] <= s.now;
    }
  }

  lemma {:induction false} RunSpaces(states: seq<State>, actions: seq<Action>, i: nat)
    requires IsRun(Deliveries, states, actions) && i < |states|
    requires forall t :: 0 <= t < i ==> !Overdue(states[t], actions[t])
    ensures Spaced(states[i])
  {
    if i != 0 {
      RunSpaces(states, actions, i - 1);
      OwnedUntilOverdue(Deliveries, states, actions, i - 1);
      RunKeeps(Deliveries, states, actions, i - 1);
      SpacedKept(states[i - 1], actions[i - 1]);
    }
  }

  /**
   With no overdue claim before, a delivery claimed again is claimed at least
   min(retry_delay_ms(attempts), 60 001) ms after its previous claim.
   */
  lemma DeliveryClaimsSpaced(states: seq<State>, actions: seq<Action>, i: nat, r: int)
    requires IsRun(Deliveries, states, actions) && i < |actions|
    requires forall t :: 0 <= t < i ==> !Overdue(states[t], actions[t])
    requires actions[i].Claim? && r in actions[i].ids && r in states[i].rows && states[i].rows[r].attempts > 0
    ensures r in states[i].lastClaim && actions[i].w in states[i].samples
    ensures var gap := states[i].samples[actions[i].w] - states[i].lastClaim[r];
            gap >= RetryDelay(states[i].rows[r].attempts) || gap >= CLAIM_TIMEOUT + 1
    ensures states[i + 1].lastClaim[r] == states[i].samples[actions[i].w]
  {
    RunSpaces(states, actions, i);
    RunKeeps(Deliveries, states, actions, i);
  }

  // ----- the condition is needed -----

  const FIRST := Lease(1, 1)
  const SECOND := Lease(1, 2)

  const SLOW_RUN: seq<Action> :=
    [Enqueue(1, 0, 0), Sample(1), Claim(1, {1}), Advance(60_001), Sample(2), Claim(2, {1}),
     Dispatch(FIRST, false), Finish(FIRST)]

  /** The states the slow run passes through. */
  function SlowState(i: nat): State {
    var row := Row(0, 0, None, None, 0);
    var claimed := row.(attempts := 1, claimedAt := Some(0));
    var again := row.(attempts := 2, claimedAt := Some(60_001));
    var held := map[FIRST := Holding(0, Claimed)];
    var both := held[SECOND := Holding(60_001, Claimed)];
    if i == 0 then State(0, map[], map[], map[], {}, {}, map[])
    else if i == 1 then State(0, map[1 := row], map[], map[], {}, {}, map[])
    else if i == 2 then State(0, map[1 := row], map[1 := 0], map[], {}, {}, map[])
    else if i == 3 then State(0, map[1 := claimed], map[], held, {}, {}, map[1 := 0])
    else if i == 4 then State(60_001, map[1 := claimed], map[], held, {}, {}, map[1 := 0])
    else if i == 5 then State(60_001, map[1 := claimed], map[2 := 60_001], held, {}, {}, map[1 := 0])
    else if i == 6 then State(60_001, map[1 := again], map[], both, {}, {}, map[1 := 60_001])
    else if i == 7 then
      State(60_001, map[1 := again], map[], both[FIRST := Holding(0, Failed)], {FIRST}, {}, map[1 := 60_001])
    else
      State(60_001, map[1 := again.(claimedAt := None)], map[], map[SECOND := Holding(60_001, Claimed)],
            {FIRST}, {}, map[1 := 60_001])
  }

  lemma ClaimSingle(q: Queue, s: State, w: int, id: int)
    requires Enabled(q, s, Claim(w, {id}))
    ensures var t := s.samples[w];
            Apply(q, s, Claim(w, {id})) ==
              s.(rows := s.rows[id := ClaimRow(s.rows[id], t)], samples := s.samples - {w},
                 leases := s.leases[Lease(id, s.rows[id].attempts + 1) := Holding(t, Claimed)],
                 lastClaim := s.lastClaim[id := t])
  {
    var t := s.samples[w];
    assert NewLeases(s.rows, {id}) == {Lease(id, s.rows[id].attempts + 1)};
    ClaimRowsOne(s.rows, id, t);
    PutOne(s.leases, NewLeases(s.rows, {id}), Lease(id, s.rows[id].attempts + 1), Holding(t, Claimed));
    PutOne(s.lastClaim, {id}, id, t);
  }

  lemma ClaimRowsOne(rows: map<int, Row>, id: int, t: int)
    requires id in rows
    ensures ClaimRows(rows, {id}, t) == rows[id := ClaimRow(rows[id], t)]
  {
  }

  lemma PutOne<K, V>(m: map<K, V>, keys: set<K>, key: K, value: V)
    requires keys == {key}
    ensures m + (map k | k in keys :: value) == m[key := value]
  {
  }

  lemma SlowClaims(i: nat)
    requires i == 2 || i == 5
    ensures Enabled(Outbox, SlowState(i), SLOW_RUN[i]) && Apply(Outbox, SlowState(i), SLOW_RUN[i]) == SlowState(i + 1)
  {
    if i == 2 {
      ClaimSingle(Outbox, SlowState(2), 1, 1);
    } else {
      ClaimSingle(Outbox, SlowState(5), 2, 1);
    }
  }

  lemma SlowStep(i: nat)
    requires i < 8
    ensures Enabled(Outbox, SlowState(i), SLOW_RUN[i]) && Apply(Outbox, SlowState(i), SLOW_RUN[i]) == SlowState(i + 1)
  {
    if i == 2 || i == 5 {
      SlowClaims(i);
    } else {
      var s' := Apply(Outbox, SlowState(i), SLOW_RUN[i]);
      assert s'.leases == SlowState(i + 1).leases;
      assert s'.rows == SlowState(i + 1).rows;
    }
  }

  /**
   A worker that stays away for 60 001 ms: a second worker claims the same row, so both hold it.
   When the first then reports failure it wipes the second's claim, and a third may claim at once.
   */
  lemma SlowWorkerSharesRow() returns (states: seq<State>)
    ensures IsRun(Outbox, states, SLOW_RUN)
    ensures FIRST in states[6].leases && SECOND in states[6].leases && FIRST.row == SECOND.row
    ensures SECOND in states[8].leases && 1 in states[8].rows && Claimable(Outbox, states[8].rows[1], states[8].now)
  {
    states := seq(9, i requires 0 <= i < 9 => SlowState(i));
    forall i | 0 <= i < |SLOW_RUN|
      ensures Enabled(Outbox, states[i], SLOW_RUN[i]) && states[i + 1] == Apply(Outbox, states[i], SLOW_RUN[i])
    {
      SlowStep(i);
    }
  }

  // ----- one worker's round -----

  function OrderKey(q: Queue, id: int, row: Row): Key {
    Key(if q.Outbox? then row.createdAt else row.nextAt, id)
  }

  function ClaimableKeys(q: Queue, rows: map<int, Row>, t: int): set<Key> {
    set id | id in rows && Claimable(q, rows[id], t) :: OrderKey(q, id, rows[id])
  }

  /** ORDER BY the queue's key LIMIT 32. */
  function Picked(q: Queue, rows: map<int, Row>, t: int): seq<Key> {
    var s := Sorted(ClaimableKeys(q, rows, t));
    if |s| <= BATCH then s else s[..BATCH]
  }

  function Ids(keys: seq<Key>): set<int> {
    set k | k in keys :: k.id
  }

  /** The statement's order, column by column: by created_at and id, or by next_attempt_at and id. */
  predicate Precedes(q: Queue, rows: map<int, Row>, i: int, j: int)
    requires i in rows && j in rows
  {
    match q
    case Outbox => rows[i].createdAt < rows[j].createdAt || (rows[i].createdAt == rows[j].createdAt && i < j)
    case Deliveries => rows[i].nextAt < rows[j].nextAt || (rows[i].nextAt == rows[j].nextAt && i < j)
  }

  /**
   The picked rows are claimable, at most 32, in the statement's order, and every claimable row left behind
   comes after all of them; none is left behind unless there are 32.
   */
  lemma PickedOldestFirst(q: Queue, rows: map<int, Row>, t: int)
    ensures var p := Picked(q, rows, t);
            && |p| <= 32
            && (forall i :: 0 <= i < |p| ==> p[i].id in rows && Claimable(q, rows[p[i].id], t))
            && (forall i, j :: 0 <= i < j < |p| ==> p[i].id != p[j].id && Precedes(q, rows, p[i].id, p[j].id))
            && (|p| < 32 ==> forall id :: id in rows && Claimable(q, rows[id], t) ==> id in Ids(p))
            && (forall id, i :: id in rows && Claimable(q, rows[id], t) && id !in Ids(p) && 0 <= i < |p| ==>
                  Precedes(q, rows, p[i].id, id))
  {
    PickedByKey(q, rows, t);
  }

  lemma PickedByKey(q: Queue, rows: map<int, Row>, t: int)
    ensures var p := Picked(q, rows, t);
            && |p| <= BATCH
            && (forall i :: 0 <= i < |p| ==>
                  p[i].id in rows && Claimable(q, rows[p[i].id], t) && p[i] == OrderKey(q, p[i].id, rows[p[i].id]))
            && (forall i, j :: 0 <= i < j < |p| ==> p[i].id != p[j].id && Less(p[i], p[j]))
            && (|p| < BATCH ==> forall id :: id in rows && Claimable(q, rows[id], t) ==> id in Ids(p))
            && (forall id, i :: id in rows && Claimable(q, rows[id], t) && id !in Ids(p) && 0 <= i < |p| ==>
                  Less(p[i], OrderKey(q, id, rows[id])))
  {
    var K := ClaimableKeys(q, rows, t);
    var s := Sorted(K);
    var p := Picked(q, rows, t);
    forall i | 0 <= i < |s|
      ensures s[i].id in rows && Claimable(q, rows[s[i].id], t) && s[i] == OrderKey(q, s[i].id, rows[s[i].id])
    {
      assert s[i] in Elements(s);
    }
    assert forall i :: 0 <= i < |p| ==> p[i] == s[i];
    forall i, j | 0 <= i < j < |p| ensures p[i].id != p[j].id && Less(p[i], p[j]) {
      assert Less(s[i], s[j]);
    }
    if |p| < BATCH {
      AllPicked(q, rows, t);
    }
    forall id, i | id in rows && Claimable(q, rows[id], t) && id !in Ids(p) && 0 <= i < |p|
      ensures Less(p[i], OrderKey(q, id, rows[id]))
    {
      var k := OrderKey(q, id, rows[id]);
      assert k in Elements(s);
      var j :| 0 <= j < |s| && s[j] == k;
      assert forall m :: 0 <= m < |p| ==> p[m].id in Ids(p);
    }
  }

  /** The WHERE clause: unfinished, unclaimed or claimed over 60 s ago, and under five attempts or due. */
  predicate MayClaim(q: Queue, row: Row, now: int) {
    && row.doneAt == None && (row.claimedAt == None || now - row.claimedAt.value > 60_000)
    && (if q == Outbox then row.attempts <= 4 else now >= row.nextAt)
  }

  /** A batch that is not full leaves no claimable row behind. */
  lemma AllPicked(q: Queue, rows: map<int, Row>, t: int)
    requires |Picked(q, rows, t)| < BATCH
    ensures forall id :: id in rows && Claimable(q, rows[id], t) ==> id in Ids(Picked(q, rows, t))
  {
    var s := Sorted(ClaimableKeys(q, rows, t));
    forall id | id in rows && Claimable(q, rows[id], t) ensures id in Ids(s) {
      assert OrderKey(q, id, rows[id]) in Elements(s);
    }
  }

  function FinishedRow(q: Queue, row: Row, delivered: bool, finishedAt: int): Row {
    FinishRow(q, row, row.attempts, delivered, finishedAt)
  }

  /** A row claimed and finished by the same worker. */
  function RoundRow(q: Queue, row: Row, now: int, delivered: bool, finishedAt: int): Row {
    FinishedRow(q, ClaimRow(row, now), delivered, finishedAt)
  }

  /**
   What the claim statement picks is always a batch some worker may claim, so every real round is a
   run of the machine.
   */
  lemma PickedIsClaim(q: Queue, s: State, w: int)
    requires w in s.samples
    ensures Enabled(q, s, Claim(w, Ids(Picked(q, s.rows, s.samples[w]))))
    ensures Apply(q, s, Claim(w, Ids(Picked(q, s.rows, s.samples[w])))).rows
            == ClaimRows(s.rows, Ids(Picked(q, s.rows, s.samples[w])), s.samples[w])
  {
    var p := Picked(q, s.rows, s.samples[w]);
    PickedOldestFirst(q, s.rows, s.samples[w]);
    IdsCount(p);
  }

  lemma {:induction false} IdsCount(keys: seq<Key>)
    ensures |Ids(keys)| <= |keys|
  {
    if keys == [] {
      assert Ids(keys) == {};
    } else {
      var front, last := keys[..|keys| - 1], keys[|keys| - 1];
      assert keys == front + [last];
      assert Ids(keys) == Ids(front) + {last.id};
      IdsCount(front);
    }
  }

  lemma IdAt(keys: seq<Key>, id: int) returns (j: nat)
    requires id in Ids(keys)
    ensures j < |keys| && keys[j].id == id
  {
    var k :| k in keys && k.id == id;
    j :| 0 <= j < |keys| && keys[j] == k;
  }

  class WorkTable {
    const q: Queue
    var rows: map<int, Row>

    constructor (q: Queue, rows: map<int, Row>)
      ensures this.q == q && this.rows == rows
    {
      this.q := q;
      this.rows := rows;
    }

    /**
     The claim statement: the oldest claimable rows, at most 32, each get the new time and one more
     attempt; no other row and no other column changes.
     */
    method ClaimEvents(now: int) returns (claimed: seq<Key>)
      modifies this`rows
      ensures claimed == Picked(q, old(rows), now)
      ensures |claimed| <= 32 && rows.Keys == old(rows).Keys
      ensures forall i :: 0 <= i < |claimed| ==> claimed[i].id in rows && MayClaim(q, old(rows)[claimed[i].id], now)
      ensures forall i, j :: 0 <= i < j < |claimed| ==>
                claimed[i].id != claimed[j].id && Precedes(q, old(rows), claimed[i].id, claimed[j].id)
      ensures forall id, i ::
                id in rows && MayClaim(q, old(rows)[id], now) && id !in Ids(claimed) && 0 <= i < |claimed| ==>
                  Precedes(q, old(rows), claimed[i].id, id)
      ensures |claimed| < 32 ==> forall id :: id in rows && MayClaim(q, old(rows)[id], now) ==> id in Ids(claimed)
      ensures forall id :: id in rows && id in Ids(claimed) ==>
                && rows[id].claimedAt == Some(now) && rows[id].attempts == old(rows)[id].attempts + 1
                && rows[id].createdAt == old(rows)[id].createdAt && rows[id].nextAt == old(rows)[id].nextAt
                && rows[id].doneAt.None?
      ensures forall id :: id in rows && id !in Ids(claimed) ==> rows[id] == old(rows)[id]
    {
      claimed := Picked(q, rows, now);
      PickedOldestFirst(q, rows, now);
      rows := ClaimRows(rows, Ids(claimed), now);
    }

    /**
     The completion statement. A finished or unknown row stays as it is; an unfinished one keeps its
     attempts and is done if delivered, else free again, a delivery after its backoff.
     */
    method FinishEvent(id: int, attempt: nat, delivered: bool, now: int)
      modifies this`rows
      ensures rows.Keys == old(rows).Keys
      ensures forall k :: k in rows && (k != id || old(rows)[k].doneAt.Some?) ==> rows[k] == old(rows)[k]
      ensures id in rows && old(rows)[id].doneAt.None? ==>
                && rows[id].attempts == old(rows)[id].attempts && rows[id].createdAt == old(rows)[id].createdAt
                && rows[id].claimedAt.None?
                && rows[id].doneAt == (if delivered then Some(now) else None)
                && (delivered || q.Outbox? ==> rows[id].nextAt == old(rows)[id].nextAt)
                && (!delivered && q.Deliveries? ==> rows[id].nextAt == now + RetryDelay(attempt))
    {
      if id in rows && rows[id].doneAt.None? {
        if delivered {
          rows := rows[id := rows[id].(doneAt := Some(now), claimedAt := None)];
        } else if q.Outbox? {
          rows := rows[id := rows[id].(claimedAt := None)];
        } else {
          rows := rows[id := rows[id].(claimedAt := None, nextAt := now + RetryDelay(attempt))];
        }
      }
    }

    /**
     One uninterrupted round: every picked row uses up one attempt and is either done or free
     again; every other row is untouched.
     */
    method RunOnce(now: int, delivered: int -> bool, finishedAt: int)
      modifies this`rows
      ensures rows.Keys == old(rows).Keys
      ensures forall id :: id in old(rows) ==>
                rows[id] == if id in Ids(Picked(q, old(rows), now))
                            then RoundRow(q, old(rows)[id], now, delivered(id), finishedAt) else old(rows)[id]
    {
      var claimed := ClaimEvents(now);
      PickedOldestFirst(q, old(rows), now);
      FinishAll(claimed, delivered, finishedAt);
      forall id | id in old(rows) && id in Ids(claimed)
        ensures rows[id] == RoundRow(q, old(rows)[id], now, delivered(id), finishedAt)
      {
        var j := IdAt(claimed, id);
      }
    }

    /** The loop over the claimed rows, each finished with the attempt number its claim returned. */
    method FinishAll(claimed: seq<Key>, delivered: int -> bool, finishedAt: int)
      requires forall j :: 0 <= j < |claimed| ==> claimed[j].id in rows
      requires forall i, j :: 0 <= i < j < |claimed| ==> claimed[i].id != claimed[j].id
      modifies this`rows
      ensures rows.Keys == old(rows).Keys
      ensures forall id :: id in old(rows) && id !in Ids(claimed) ==> rows[id] == old(rows)[id]
      ensures forall j :: 0 <= j < |claimed| ==>
                rows[claimed[j].id] == FinishedRow(q, old(rows)[claimed[j].id], delivered(claimed[j].id), finishedAt)
    {
      for i := 0 to |claimed|
        invariant rows.Keys == old(rows).Keys
        invariant forall id :: id in old(rows) && id !in Ids(claimed) ==> rows[id] == old(rows)[id]
        invariant forall j :: i <= j < |claimed| ==> rows[claimed[j].id] == old(rows)[claimed[j].id]
        invariant forall j :: 0 <= j < i ==>
                    rows[claimed[j].id]
                    == FinishedRow(q, old(rows)[claimed[j].id], delivered(claimed[j].id), finishedAt)
      {
        var id := claimed[i].id;
        FinishEvent(id, rows[id].attempts, delivered(id), finishedAt);
      }
    }
  }
}
