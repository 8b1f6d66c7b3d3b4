/**
 Password verification with one flight per (user, hash, password) and a bounded number of
 verifications at a time. Callers share the flight under their key; the flight's task waits for a
 permit, verifies, publishes the outcome and removes its map entry, each as its own step. Hashing
 and verifying stay abstract.
 */
module SingleFlight {
  import opened ChatTypes

  type Bytes = seq<int>

  datatype Inputs = Inputs(user: Bytes, encoded: Bytes, password: Bytes)

  const UUID_BYTES: nat := 16

  // ----- the key -----

  function KeyBytes(i: Inputs): Bytes {
    i.user + i.encoded + i.password
  }

  /** No encoded hash in use is a proper prefix of another. */
  ghost predicate PrefixFree(encodeds: set<Bytes>) {
    forall a, b :: a in encodeds && b in encodeds && a <= b ==> a == b
  }

  ghost predicate Admits(encodeds: set<Bytes>, i: Inputs) {
    |i.user| == UUID_BYTES && i.encoded in encodeds
  }

  /** Different inputs never digest the same bytes. */
  ghost predicate KeysDistinct(encodeds: set<Bytes>) {
    forall i, j :: Admits(encodeds, i) && Admits(encodeds, j) && KeyBytes(i) == KeyBytes(j) ==> i == j
  }

  lemma SameKeySameInputs(encodeds: set<Bytes>, i: Inputs, j: Inputs)
    requires PrefixFree(encodeds) && Admits(encodeds, i) && Admits(encodeds, j) && KeyBytes(i) == KeyBytes(j)
    ensures i == j
  {
    var k := KeyBytes(i);
    assert i.user == k[..UUID_BYTES] && j.user == k[..UUID_BYTES];
    var rest := k[UUID_BYTES..];
    assert rest == i.encoded + i.password && rest == j.encoded + j.password;
    assert i.encoded == rest[..|i.encoded|] && j.encoded == rest[..|j.encoded|];
    assert i.encoded <= j.encoded || j.encoded <= i.encoded;
    assert i.password == rest[|i.encoded|..] && j.password == rest[|j.encoded|..];
  }

  /** Concatenating without separators identifies the inputs exactly when the encoded hashes are prefix-free. */
  lemma KeysDistinctIffPrefixFree(encodeds: set<Bytes>)
    ensures KeysDistinct(encodeds) <==> PrefixFree(encodeds)
  {
    if PrefixFree(encodeds) {
      forall i, j | Admits(encodeds, i) && Admits(encodeds, j) && KeyBytes(i) == KeyBytes(j) ensures i == j {
        SameKeySameInputs(encodeds, i, j);
      }
    }
    if KeysDistinct(encodeds) {
      forall a, b | a in encodeds && b in encodeds && a <= b ensures a == b {
        var user := seq(UUID_BYTES, _ => 0);
        var i, j := Inputs(user, a, b[|a|..]), Inputs(user, b, []);
        assert a + b[|a|..] == b;
        assert KeyBytes(i) == KeyBytes(j);
        assert Admits(encodeds, i) && Admits(encodeds, j);
      }
    }
  }

  // ----- the protocol -----

  datatype Outcome = Verified(ok: bool) | Overloaded | Unavailable

  datatype Phase =
    | Queueing                        // waiting up to five seconds for a permit
    | Running                         // verifying, permit held
    | Verdict(outcome: Outcome)       // outcome known to the task, permit returned
    | Published(outcome: Outcome)     // sent to the waiters, entry still in the map
    | Removed(outcome: Outcome)

  datatype Flight = Flight(inputs: Inputs, phase: Phase)

  datatype Caller = Caller(inputs: Inputs, flight: int)

  datatype State = State(entries: map<int, int>, flights: map<int, Flight>, callers: map<int, Caller>, permits: nat)

  /** The two abstract functions: the digest and the password check. */
  datatype Env = Env(digest: Bytes -> int, verify: (Bytes, Bytes) -> bool)

  datatype Action =
    | Call(c: int, inputs: Inputs, f: int)
    | Acquire(f: int)
    | GiveUpWaiting(f: int)
    | Verify(f: int, panicked: bool)
    | Publish(f: int)
    | Remove(f: int)

  function KeyOf(env: Env, i: Inputs): int {
    env.digest(KeyBytes(i))
  }

  predicate Enabled(s: State, a: Action) {
    match a
    case Call(c, _, f) => c !in s.callers && f !in s.flights
    case Acquire(f) => f in s.flights && s.flights[f].phase.Queueing? && s.permits > 0
    case GiveUpWaiting(f) => f in s.flights && s.flights[f].phase.Queueing?
    case Verify(f, _) => f in s.flights && s.flights[f].phase.Running?
    case Publish(f) => f in s.flights && s.flights[f].phase.Verdict?
    case Remove(f) => f in s.flights && s.flights[f].phase.Published?
  }

  function SetPhase(s: State, f: int, p: Phase): State
    requires f in s.flights
  {
    s.(flights := s.flights[f := s.flights[f].(phase := p)])
  }

  function Apply(env: Env, s: State, a: Action): State
    requires Enabled(s, a)
  {
    match a
    case Call(c, i, f) =>
      var k := KeyOf(env, i);
      if k in s.entries then s.(callers := s.callers[c := Caller(i, s.entries[k])])
      else
        s.(entries := s.entries[k := f], flights := s.flights[f := Flight(i, Queueing)],
           callers := s.callers[c := Caller(i, f)])
    case Acquire(f) => SetPhase(s, f, Running).(permits := s.permits - 1)
    case GiveUpWaiting(f) => SetPhase(s, f, Verdict(Overloaded))
    case Verify(f, panicked) =>
      var i := s.flights[f].inputs;
      SetPhase(s, f, Verdict(if panicked then Unavailable else Verified(env.verify(i.password, i.encoded))))
        .(permits := s.permits + 1)
    case Publish(f) => SetPhase(s, f, Published(s.flights[f].phase.outcome))
    case Remove(f) =>
      SetPhase(s, f, Removed(s.flights[f].phase.outcome)).(entries := s.entries - {KeyOf(env, s.flights[f].inputs)})
  }

  ghost predicate IsRun(env: Env, limit: nat, states: seq<State>, actions: seq<Action>) {
    && |states| == |actions| + 1
    && states[0] == State(map[], map[], map[], limit)
    && forall i :: 0 <= i < |actions| ==>
         Enabled(states[i], actions[i]) && states[i + 1] == Apply(env, states[i], actions[i])
  }

  // ----- invariant -----

  /** An entry exists exactly while its flight is unfinished. */
  ghost predicate EntriesAreOpenFlights(env: Env, s: State) {
    && (forall k :: k in s.entries ==>
          var f := s.entries[k];
          f in s.flights && !s.flights[f].phase.Removed? && KeyOf(env, s.flights[f].inputs) == k)
    && (forall f :: f in s.flights && !s.flights[f].phase.Removed? ==>
          var k := KeyOf(env, s.flights[f].inputs);
          k in s.entries && s.entries[k] == f)
  }

  function RunningFlights(s: State): set<int> {
    set f | f in s.flights && s.flights[f].phase.Running?
  }

  predicate HasOutcome(p: Phase) {
    p.Verdict? || p.Published? || p.Removed?
  }

  ghost predicate OutcomesTrue(env: Env, s: State) {
    forall f :: f in s.flights && HasOutcome(s.flights[f].phase) && s.flights[f].phase.outcome.Verified? ==>
      s.flights[f].phase.outcome.ok == env.verify(s.flights[f].inputs.password, s.flights[f].inputs.encoded)
  }

  ghost predicate CallersFly(env: Env, s: State) {
    forall c :: c in s.callers ==>
      && s.callers[c].flight in s.flights
      && KeyOf(env, s.flights[s.callers[c].flight].inputs) == KeyOf(env, s.callers[c].inputs)
  }

  ghost predicate Inv(env: Env, limit: nat, s: State) {
    && EntriesAreOpenFlights(env, s)
    && |RunningFlights(s)| + s.permits == limit
    && OutcomesTrue(env, s)
    && CallersFly(env, s)
  }

  lemma AcquireTakesPermit(env: Env, s: State, f: int)
    requires Enabled(s, Acquire(f))
    ensures |RunningFlights(Apply(env, s, Acquire(f)))| == |RunningFlights(s)| + 1
  {
    assert RunningFlights(Apply(env, s, Acquire(f))) == RunningFlights(s) + {f};
  }

  lemma VerifyReturnsPermit(env: Env, s: State, a: Action)
    requires a.Verify? && Enabled(s, a)
    ensures |RunningFlights(Apply(env, s, a))| == |RunningFlights(s)| - 1
  {
    assert RunningFlights(Apply(env, s, a)) == RunningFlights(s) - {a.f};
    assert a.f in RunningFlights(s);
  }

  lemma OthersKeepRunning(env: Env, s: State, a: Action)
    requires Enabled(s, a) && !a.Acquire? && !a.Verify?
    ensures RunningFlights(Apply(env, s, a)) == RunningFlights(s)
  {
  }

  lemma PermitsKept(env: Env, s: State, a: Action)
    requires Enabled(s, a)
    ensures var s' := Apply(env, s, a); |RunningFlights(s')| + s'.permits == |RunningFlights(s)| + s.permits
  {
    match a
    case Acquire(f) => AcquireTakesPermit(env, s, f);
    case Verify(_, _) => VerifyReturnsPermit(env, s, a);
    case _ => OthersKeepRunning(env, s, a);
  }

  lemma StepKeeps(env: Env, limit: nat, s: State, a: Action)
    requires Inv(env, limit, s) && Enabled(s, a)
    ensures Inv(env, limit, Apply(env, s, a))
  {
    PermitsKept(env, s, a);
    EntriesKept(env, s, a);
    OutcomesKept(env, s, a);
  }

  lemma EntriesKept(env: Env, s: State, a: Action)
    requires EntriesAreOpenFlights(env, s) && CallersFly(env, s) && Enabled(s, a)
    ensures EntriesAreOpenFlights(env, Apply(env, s, a)) && CallersFly(env, Apply(env, s, a))
  {
  }

  lemma OutcomesKept(env: Env, s: State, a: Action)
    requires OutcomesTrue(env, s) && Enabled(s, a)
    ensures OutcomesTrue(env, Apply(env, s, a))
  {
  }

  lemma {:induction false} RunKeeps(env: Env, limit: nat, states: seq<State>, actions: seq<Action>, i: nat)
    requires IsRun(env, limit, states, actions) && i < |states|
    ensures Inv(env, limit, states[i])
  {
    if i == 0 {
      assert RunningFlights(states[0]) == {};
    } else {
      RunKeeps(env, limit, states, actions, i - 1);
      StepKeeps(env, limit, states[i - 1], actions[i - 1]);
    }
  }

  /** At most one unfinished flight per key, and at most `limit` verifications at a time. */
  lemma OneFlightPerKey(env: Env, limit: nat, states: seq<State>, actions: seq<Action>, i: nat, f: int, g: int)
    requires IsRun(env, limit, states, actions) && i < |states|
    requires f in states[i].flights && !states[i].flights[f].phase.Removed?
    requires g in states[i].flights && !states[i].flights[g].phase.Removed?
    requires KeyOf(env, states[i].flights[f].inputs) == KeyOf(env, states[i].flights[g].inputs)
    ensures f == g
    ensures |RunningFlights(states[i])| <= limit
  {
    RunKeeps(env, limit, states, actions, i);
  }

  /** A key is in the map exactly while a flight for it is unfinished. */
  lemma EntryIffUnfinished(env: Env, limit: nat, states: seq<State>, actions: seq<Action>, i: nat, key: int)
    requires IsRun(env, limit, states, actions) && i < |states|
    ensures key in states[i].entries <==>
            exists f :: f in states[i].flights && !states[i].flights[f].phase.Removed?
              && KeyOf(env, states[i].flights[f].inputs) == key
  {
    RunKeeps(env, limit, states, actions, i);
  }

  /** What a caller sees on its receiver. */
  function Answer(s: State, c: int): Option<Outcome>
    requires c in s.callers && s.callers[c].flight in s.flights
  {
    var p := s.flights[s.callers[c].flight].phase;
    if p.Published? || p.Removed? then Some(p.outcome) else None
  }

  ghost predicate Ideal(env: Env) {
    forall x, y :: env.digest(x) == env.digest(y) ==> x == y
  }

  /**
   With an ideal digest and prefix-free hashes, an answered caller got the verdict on its own
   password and hash, whichever caller's flight produced it.
   */
  lemma AnswerIsOwnVerdict(
    env: Env, limit: nat, states: seq<State>, actions: seq<Action>, i: nat, c: int, encodeds: set<Bytes>)
    requires IsRun(env, limit, states, actions) && i < |states|
    requires Ideal(env) && PrefixFree(encodeds)
    requires forall f :: f in states[i].flights ==> Admits(encodeds, states[i].flights[f].inputs)
    requires c in states[i].callers && Admits(encodeds, states[i].callers[c].inputs)
    ensures states[i].callers[c].flight in states[i].flights
    ensures Answer(states[i], c).Some? && Answer(states[i], c).value.Verified? ==>
              Answer(states[i], c).value.ok
              == env.verify(states[i].callers[c].inputs.password, states[i].callers[c].inputs.encoded)
  {
    RunKeeps(env, limit, states, actions, i);
    var s := states[i];
    SameKeySameInputs(encodeds, s.callers[c].inputs, s.flights[s.callers[c].flight].inputs);
  }

  // ----- the outcome comes from what the flight did -----

  /** One of the first i actions is a. */
  predicate Did(actions: seq<Action>, i: nat, a: Action)
    requires i <= |actions|
  {
    i > 0 && (actions[i - 1] == a || Did(actions, i - 1, a))
  }

  /** What a flight's phase tells of the actions so far; a flight that does not exist has done nothing. */
  ghost predicate Tells(s: State, actions: seq<Action>, i: nat, f: int)
    requires i <= |actions|
  {
    var decided := f in s.flights && HasOutcome(s.flights[f].phase);
    && (Did(actions, i, Verify(f, false)) <==> decided && s.flights[f].phase.outcome.Verified?)
    && (Did(actions, i, Verify(f, true)) <==> decided && s.flights[f].phase.outcome.Unavailable?)
    && (Did(actions, i, GiveUpWaiting(f)) <==> decided && s.flights[f].phase.outcome.Overloaded?)
    && (Did(actions, i, Publish(f)) <==>
          f in s.flights && (s.flights[f].phase.Published? || s.flights[f].phase.Removed?))
  }

  lemma StepTells(env: Env, s: State, actions: seq<Action>, i: nat, f: int)
    requires i < |actions| && Enabled(s, actions[i]) && Tells(s, actions, i, f)
    ensures Tells(Apply(env, s, actions[i]), actions, i + 1, f)
  {
  }

  /**
   In every run a flight's outcome is Verified exactly when it verified without a panic, Unavailable
   exactly when the verification panicked, Overloaded exactly when it gave up waiting for a permit,
   and it is out for its callers exactly when it was published.
   */
  lemma {:induction false} OutcomeFromActions(
    env: Env, limit: nat, states: seq<State>, actions: seq<Action>, i: nat, f: int)
    requires IsRun(env, limit, states, actions) && i < |states|
    ensures Tells(states[i], actions, i, f)
  {
    if i != 0 {
      OutcomeFromActions(env, limit, states, actions, i - 1, f);
      StepTells(env, states[i - 1], actions, i - 1, f);
    }
  }

  /**
   So a caller has an answer exactly when its flight was published, and if that flight verified without a
   panic, the answer is the verdict on the caller's own password and hash.
   */
  lemma AnswerFromActions(
    env: Env, limit: nat, states: seq<State>, actions: seq<Action>, i: nat, c: int, encodeds: set<Bytes>)
    requires IsRun(env, limit, states, actions) && i < |states|
    requires Ideal(env) && PrefixFree(encodeds)
    requires forall f :: f in states[i].flights ==> Admits(encodeds, states[i].flights[f].inputs)
    requires c in states[i].callers && Admits(encodeds, states[i].callers[c].inputs)
    ensures var me := states[i].callers[c];
            && me.flight in states[i].flights
            && (Answer(states[i], c).Some? <==> Did(actions, i, Publish(me.flight)))
            && (Did(actions, i, Publish(me.flight)) && Did(actions, i, Verify(me.flight, false)) ==>
                  Answer(states[i], c) == Some(Verified(env.verify(me.inputs.password, me.inputs.encoded))))
            && (Did(actions, i, Publish(me.flight)) && Did(actions, i, Verify(me.flight, true)) ==>
                  Answer(states[i], c) == Some(Unavailable))
            && (Did(actions, i, Publish(me.flight)) && Did(actions, i, GiveUpWaiting(me.flight)) ==>
                  Answer(states[i], c) == Some(Overloaded))
  {
    AnswerIsOwnVerdict(env, limit, states, actions, i, c, encodeds);
    OutcomeFromActions(env, limit, states, actions, i, states[i].callers[c].flight);
  }

  /** A call joins the open flight of its key, or starts one with its own inputs; nothing else changes. */
  lemma CallJoinsOrStarts(env: Env, s: State, c: int, inputs: Inputs, f: int)
    requires c !in s.callers && f !in s.flights
    ensures Enabled(s, Call(c, inputs, f))
    ensures var end, key := Apply(env, s, Call(c, inputs, f)), KeyOf(env, inputs);
            && end.permits == s.permits
            && end.callers == s.callers[c := Caller(inputs, if key in s.entries then s.entries[key] else f)]
            && (key in s.entries ==> end.flights == s.flights && end.entries == s.entries)
            && (key !in s.entries ==>
                  end.flights == s.flights[f := Flight(inputs, Queueing)] && end.entries == s.entries[key := f])
  {
  }

  /** A waiting flight with a permit free may run, verify and publish, whoever else is under way. */
  lemma FlightMayFinish(env: Env, s: State, f: int, panicked: bool)
    requires f in s.flights && s.flights[f].phase.Queueing? && s.permits > 0
    ensures Enabled(s, Acquire(f))
    ensures var running := Apply(env, s, Acquire(f));
            && running.permits == s.permits - 1 && Enabled(running, Verify(f, panicked))
            && var decided := Apply(env, running, Verify(f, panicked));
               && decided.permits == s.permits && Enabled(decided, Publish(f))
               && Enabled(Apply(env, decided, Publish(f)), Remove(f))
  {
  }

  // ----- nobody waits for ever -----

  function Rank(p: Phase): nat {
    match p
    case Queueing => 0
    case Running => 1
    case Verdict(_) => 2
    case Published(_) => 3
    case Removed(_) => 4
  }

  /** The step that moves an unpublished flight on without anybody else's help. */
  function OwnStep(f: int, p: Phase): Action {
    match p
    case Queueing => GiveUpWaiting(f)
    case Running => Verify(f, false)
    case _ => Publish(f)
  }

  ghost predicate IsPath(env: Env, states: seq<State>, actions: seq<Action>) {
    && |states| == |actions| + 1
    && forall i :: 0 <= i < |actions| ==>
         Enabled(states[i], actions[i]) && states[i + 1] == Apply(env, states[i], actions[i])
  }

  /**
   From any reachable state an unanswered caller is at most three steps of its own flight away
   from an answer: no permit, no other caller and no other flight is needed.
   */
  lemma {:induction false} AnswerIsNear(env: Env, limit: nat, s: State, c: int)
    returns (states: seq<State>, actions: seq<Action>)
    requires Inv(env, limit, s) && c in s.callers
    ensures IsPath(env, states, actions) && states[0] == s
    ensures forall t :: 0 <= t < |states| ==>
              && Inv(env, limit, states[t]) && c in states[t].callers && states[t].callers[c] == s.callers[c]
              && s.callers[c].flight in states[t].flights
    ensures forall t :: 0 <= t < |actions| ==>
              actions[t] == OwnStep(s.callers[c].flight, states[t].flights[s.callers[c].flight].phase)
    ensures Answer(states[|actions|], c).Some?
    ensures Answer(s, c).None? ==> |actions| <= 3 - Rank(s.flights[s.callers[c].flight].phase)
    decreases 4 - Rank(s.flights[s.callers[c].flight].phase)
  {
    if Answer(s, c).Some? {
      states, actions := [s], [];
    } else {
      var a := OwnStep(s.callers[c].flight, s.flights[s.callers[c].flight].phase);
      StepKeeps(env, limit, s, a);
      var later, more := AnswerIsNear(env, limit, Apply(env, s, a), c);
      states, actions := [s] + later, [a] + more;
    }
  }

  /** An answer, once given, never changes, and no step of anyone sets a flight back. */
  lemma {:induction false} AnswersAreFinal(
    env: Env, limit: nat, states: seq<State>, actions: seq<Action>, i: nat, j: nat, c: int)
    requires IsRun(env, limit, states, actions) && i <= j < |states| && c in states[i].callers
    ensures c in states[j].callers && states[j].callers[c] == states[i].callers[c]
    ensures var f := states[i].callers[c].flight;
            && f in states[i].flights && f in states[j].flights
            && Rank(states[i].flights[f].phase) <= Rank(states[j].flights[f].phase)
            && (Answer(states[i], c).Some? ==> Answer(states[j], c) == Answer(states[i], c))
  {
    RunKeeps(env, limit, states, actions, i);
    if i < j {
      AnswersAreFinal(env, limit, states, actions, i, j - 1, c);
    }
  }
}
