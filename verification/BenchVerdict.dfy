/**
 The benchmark in a WebSocket mode: any number of interleaved client tasks, each with its own
 pending messages, sharing one set of counters, and the pass verdict read from the counters when
 all tasks have ended.
 */
module BenchVerdict {
  import opened ChatTypes

  datatype Phase =
    | Starting
    | AuthFailed
    | Authenticated
    | Connecting                 // socket open, waiting at the traffic gate
    | SocketFailed
    | Traffic
    | Draining                   // traffic over, waiting for acknowledgements
    | Tallying                   // about to count what is still pending
    | Ended

  /** sent and acked are the client's share of the shared counters. */
  datatype Client = Client(phase: Phase, pending: set<int>, sent: nat, acked: nat)

  datatype Metrics = Metrics(
    requests: nat, failures: nat, throttles: nat, authSuccesses: nat, attempts: nat, connected: nat,
    socketFailures: nat, realtimeFailures: nat, messages: nat, acknowledged: nat)

  datatype State = State(clients: seq<Client>, m: Metrics)

  datatype Action =
    | Request(ok: bool, throttled: bool)
    | Login(i: nat, ok: bool)
    | Connect(i: nat, ok: bool)
    | PassGate(i: nat, ok: bool)
    | SendMessage(i: nat, marker: int, ok: bool)
    | ErrorFrame(i: nat)
    | Acknowledge(i: nat, marker: int)
    | SocketError(i: nat)
    | StopTraffic(i: nat)
    | StopDraining(i: nat)
    | Tally(i: nat)

  predicate In(s: State, i: nat, phase: Phase) {
    i < |s.clients| && s.clients[i].phase == phase
  }

  predicate Listening(s: State, i: nat) {
    In(s, i, Traffic) || In(s, i, Draining)
  }

  predicate Enabled(s: State, a: Action) {
    match a
    case Request(_, _) => true
    case Login(i, _) => In(s, i, Starting)
    case Connect(i, _) => In(s, i, Authenticated)
    case PassGate(i, _) => In(s, i, Connecting)
    case SendMessage(i, marker, _) => In(s, i, Traffic) && marker !in s.clients[i].pending
    case ErrorFrame(i) => Listening(s, i) || In(s, i, Connecting)
    case Acknowledge(i, marker) => Listening(s, i) && marker in s.clients[i].pending
    case SocketError(i) => Listening(s, i)
    case StopTraffic(i) => In(s, i, Traffic)
    case StopDraining(i) => In(s, i, Draining)
    case Tally(i) => In(s, i, Tallying)
  }

  function Set(s: State, i: nat, c: Client): State
    requires i < |s.clients|
  {
    s.(clients := s.clients[i := c])
  }

  function Enter(s: State, i: nat, phase: Phase): State
    requires i < |s.clients|
  {
    Set(s, i, s.clients[i].(phase := phase))
  }

  function Apply(s: State, a: Action): State
    requires Enabled(s, a)
  {
    var m := s.m;
    match a
    case Request(ok, throttled) =>
      s.(m := m.(requests := m.requests + 1, failures := m.failures + (if ok then 0 else 1),
                 throttles := m.throttles + if throttled then 1 else 0))
    case Login(i, ok) =>
      if ok then Enter(s, i, Authenticated).(m := m.(authSuccesses := m.authSuccesses + 1)) else Enter(s, i, AuthFailed)
    case Connect(i, ok) =>
      if ok then Enter(s, i, Connecting).(m := m.(attempts := m.attempts + 1))
      else Enter(s, i, SocketFailed).(m := m.(attempts := m.attempts + 1, socketFailures := m.socketFailures + 1))
    case PassGate(i, ok) =>
      if ok then Enter(s, i, Traffic).(m := m.(connected := m.connected + 1))
      else Enter(s, i, SocketFailed).(m := m.(socketFailures := m.socketFailures + 1))
    case SendMessage(i, marker, ok) =>
      var c := s.clients[i];
      if ok then
        Set(s, i, c.(pending := c.pending + {marker}, sent := c.sent + 1)).(m := m.(messages := m.messages + 1))
      else Enter(s, i, Tallying).(m := m.(realtimeFailures := m.realtimeFailures + 1))
    case ErrorFrame(i) => s.(m := m.(realtimeFailures := m.realtimeFailures + 1))
    case Acknowledge(i, marker) =>
      var c := s.clients[i];
      Set(s, i, c.(pending := c.pending - {marker}, acked := c.acked + 1)).(m := m.(acknowledged := m.acknowledged + 1))
    case SocketError(i) => Enter(s, i, Tallying).(m := m.(realtimeFailures := m.realtimeFailures + 1))
    case StopTraffic(i) => Enter(s, i, Draining)
    case StopDraining(i) => Enter(s, i, Tallying)
    case Tally(i) =>
      Enter(s, i, Ended).(m := m.(realtimeFailures := m.realtimeFailures + |s.clients[i].pending|))
  }

  /** The administrator's own login comes first and is the one authentication the report takes off. */
  ghost predicate IsRun(users: nat, states: seq<State>, actions: seq<Action>) {
    && |states| == |actions| + 1
    && |states[0].clients| == users
    && (forall i :: 0 <= i < users ==> states[0].clients[i] == Client(Starting, {}, 0, 0))
    && states[0].m == Metrics(1, 0, 0, 1, 0, 0, 0, 0, 0, 0)
    && forall i :: 0 <= i < |actions| ==>
         Enabled(states[i], actions[i]) && states[i + 1] == Apply(states[i], actions[i])
  }

  // ----- what the actions do to a client -----

  /** Which actions a client's phase admits. */
  lemma MayHappen(s: State, i: nat, marker: int, ok: bool)
    requires i < |s.clients|
    ensures var c := s.clients[i];
            && (Enabled(s, Login(i, ok)) <==> c.phase == Starting)
            && (Enabled(s, Connect(i, ok)) <==> c.phase == Authenticated)
            && (Enabled(s, PassGate(i, ok)) <==> c.phase == Connecting)
            && (Enabled(s, SendMessage(i, marker, ok)) <==> c.phase == Traffic && marker !in c.pending)
            && (Enabled(s, ErrorFrame(i)) <==> c.phase == Connecting || c.phase == Traffic || c.phase == Draining)
            && (Enabled(s, Acknowledge(i, marker)) <==>
                  (c.phase == Traffic || c.phase == Draining) && marker in c.pending)
            && (Enabled(s, SocketError(i)) <==> c.phase == Traffic || c.phase == Draining)
            && (Enabled(s, StopTraffic(i)) <==> c.phase == Traffic)
            && (Enabled(s, StopDraining(i)) <==> c.phase == Draining)
            && (Enabled(s, Tally(i)) <==> c.phase == Tallying)
    ensures forall throttled :: Enabled(s, Request(ok, throttled))
  {
  }

  /** Where an action takes its client, and what it leaves pending; no other client changes. */
  lemma ClientMoves(s: State, a: Action)
    requires Enabled(s, a) && !a.Request?
    ensures var c, c' := s.clients[a.i], Apply(s, a).clients[a.i];
            && Apply(s, a).clients == s.clients[a.i := c']
            && c'.phase == (match a
                            case Login(_, ok) => if ok then Authenticated else AuthFailed
                            case Connect(_, ok) => if ok then Connecting else SocketFailed
                            case PassGate(_, ok) => if ok then Traffic else SocketFailed
                            case SendMessage(_, _, ok) => if ok then Traffic else Tallying
                            case SocketError(_) => Tallying
                            case StopTraffic(_) => Draining
                            case StopDraining(_) => Tallying
                            case Tally(_) => Ended
                            case _ => c.phase)
            && c'.pending == (if a.SendMessage? && a.ok then c.pending + {a.marker}
                              else if a.Acknowledge? then c.pending - {a.marker} else c.pending)
  {
  }

  // ----- sums over clients -----

  function Sum(clients: seq<Client>, f: Client -> nat): nat {
    if clients == [] then 0 else f(clients[0]) + Sum(clients[1..], f)
  }

  lemma {:induction false} SumUpdate(clients: seq<Client>, f: Client -> nat, i: nat, c: Client)
    requires i < |clients|
    ensures Sum(clients[i := c], f) + f(clients[i]) == Sum(clients, f) + f(c)
  {
    if i == 0 {
      assert clients[i := c][1..] == clients[1..];
    } else {
      assert clients[i := c][1..] == clients[1..][i - 1 := c];
      SumUpdate(clients[1..], f, i - 1, c);
    }
  }

  lemma {:induction false} SumZero(clients: seq<Client>, f: Client -> nat)
    ensures Sum(clients, f) == 0 <==> forall i :: 0 <= i < |clients| ==> f(clients[i]) == 0
  {
    if clients != [] {
      SumZero(clients[1..], f);
      assert forall i :: 0 <= i < |clients[1..]| ==> clients[1..][i] == clients[i + 1];
      assert forall i :: 1 <= i < |clients| ==> clients[i] == clients[1..][i - 1];
    }
  }

  /** If each term is at most 1 and the sum reaches the number of clients, each term is 1. */
  lemma {:induction false} SumFull(clients: seq<Client>, f: Client -> nat)
    requires forall i :: 0 <= i < |clients| ==> f(clients[i]) <= 1
    ensures Sum(clients, f) <= |clients|
    ensures Sum(clients, f) == |clients| ==> forall i :: 0 <= i < |clients| ==> f(clients[i]) == 1
  {
    if clients != [] {
      assert forall i :: 0 <= i < |clients[1..]| ==> clients[1..][i] == clients[i + 1];
      SumFull(clients[1..], f);
      assert forall i :: 1 <= i < |clients| ==> clients[i] == clients[1..][i - 1];
    }
  }

  lemma {:induction false} SumEqual(clients: seq<Client>, f: Client -> nat, g: Client -> nat)
    requires forall i :: 0 <= i < |clients| ==> f(clients[i]) == g(clients[i])
    ensures Sum(clients, f) == Sum(clients, g)
  {
    if clients != [] {
      assert forall i :: 0 <= i < |clients[1..]| ==> clients[1..][i] == clients[i + 1];
      SumEqual(clients[1..], f, g);
    }
  }

  function Sent(c: Client): nat { c.sent }

  function Acked(c: Client): nat { c.acked }

  /** Pending messages of clients that have already counted theirs as failures. */
  function Missed(c: Client): nat { if c.phase.Ended? then |c.pending| else 0 }

  function DidAuth(c: Client): nat { if c.phase.Starting? || c.phase.AuthFailed? then 0 else 1 }

  function DidAttempt(c: Client): nat {
    if c.phase.Starting? || c.phase.AuthFailed? || c.phase.Authenticated? then 0 else 1
  }

  function DidJoin(c: Client): nat {
    match c.phase
    case Traffic => 1
    case Draining => 1
    case Tallying => 1
    case Ended => 1
    case _ => 0
  }

  function DidFail(c: Client): nat { if c.phase.SocketFailed? then 1 else 0 }

  // ----- invariant -----

  /** Per client, what was sent is what was acknowledged plus what is pending. */
  ghost predicate Conserved(s: State) {
    forall i :: 0 <= i < |s.clients| ==> s.clients[i].sent == s.clients[i].acked + |s.clients[i].pending|
  }

  ghost predicate Counted(s: State) {
    && s.m.messages == Sum(s.clients, Sent)
    && s.m.acknowledged == Sum(s.clients, Acked)
    && s.m.realtimeFailures >= Sum(s.clients, Missed)
    && s.m.authSuccesses == 1 + Sum(s.clients, DidAuth)
    && s.m.attempts == Sum(s.clients, DidAttempt)
    && s.m.connected == Sum(s.clients, DidJoin)
    && s.m.socketFailures == Sum(s.clients, DidFail)
  }

  ghost predicate Inv(s: State) {
    Conserved(s) && Counted(s)
  }

  /** A step changes the term of at most one client. */
  lemma SumStep(s: State, a: Action, f: Client -> nat)
    requires Enabled(s, a)
    ensures a.Request? ==> Sum(Apply(s, a).clients, f) == Sum(s.clients, f)
    ensures !a.Request? ==> |Apply(s, a).clients| == |s.clients| && a.i < |s.clients|
    ensures !a.Request? ==>
              Sum(Apply(s, a).clients, f) + f(s.clients[a.i]) == Sum(s.clients, f) + f(Apply(s, a).clients[a.i])
  {
    if !a.Request? {
      var c := Apply(s, a).clients[a.i];
      assert Apply(s, a).clients == s.clients[a.i := c];
      SumUpdate(s.clients, f, a.i, c);
    }
  }

  lemma TrafficCounted(s: State, a: Action)
    requires Enabled(s, a)
    ensures Apply(s, a).m.messages + Sum(s.clients, Sent) == s.m.messages + Sum(Apply(s, a).clients, Sent)
    ensures Apply(s, a).m.acknowledged + Sum(s.clients, Acked) == s.m.acknowledged + Sum(Apply(s, a).clients, Acked)
  {
    SumStep(s, a, Sent);
    SumStep(s, a, Acked);
  }

  lemma FailuresCounted(s: State, a: Action)
    requires Enabled(s, a)
    ensures Apply(s, a).m.realtimeFailures + Sum(s.clients, Missed)
            >= s.m.realtimeFailures + Sum(Apply(s, a).clients, Missed)
    ensures Apply(s, a).m.socketFailures + Sum(s.clients, DidFail)
            == s.m.socketFailures + Sum(Apply(s, a).clients, DidFail)
  {
    SumStep(s, a, Missed);
    SumStep(s, a, DidFail);
  }

  lemma SetupCounted(s: State, a: Action)
    requires Enabled(s, a)
    ensures Apply(s, a).m.authSuccesses + Sum(s.clients, DidAuth)
            == s.m.authSuccesses + Sum(Apply(s, a).clients, DidAuth)
    ensures Apply(s, a).m.attempts + Sum(s.clients, DidAttempt) == s.m.attempts + Sum(Apply(s, a).clients, DidAttempt)
  {
    SumStep(s, a, DidAuth);
    SumStep(s, a, DidAttempt);
  }

  lemma JoinsCounted(s: State, a: Action)
    requires Enabled(s, a)
    ensures Apply(s, a).m.connected + Sum(s.clients, DidJoin) == s.m.connected + Sum(Apply(s, a).clients, DidJoin)
  {
    SumStep(s, a, DidJoin);
  }

  lemma CountedKept(s: State, a: Action)
    requires Counted(s) && Enabled(s, a)
    ensures Counted(Apply(s, a))
  {
    TrafficCounted(s, a);
    FailuresCounted(s, a);
    SetupCounted(s, a);
    JoinsCounted(s, a);
  }

  lemma ConservedKept(s: State, a: Action)
    requires Conserved(s) && Enabled(s, a)
    ensures Conserved(Apply(s, a))
  {
  }

  lemma {:induction false} RunKeeps(users: nat, states: seq<State>, actions: seq<Action>, i: nat)
    requires IsRun(users, states, actions) && i < |states|
    ensures Inv(states[i]) && |states[i].clients| == users
  {
    if i == 0 {
      var cs := states[0].clients;
      SumZero(cs, Sent);
      SumZero(cs, Acked);
      SumZero(cs, Missed);
      SumZero(cs, DidAuth);
      SumZero(cs, DidAttempt);
      SumZero(cs, DidJoin);
      SumZero(cs, DidFail);
    } else {
      RunKeeps(users, states, actions, i - 1);
      CountedKept(states[i - 1], actions[i - 1]);
      ConservedKept(states[i - 1], actions[i - 1]);
    }
  }

  // ----- the verdict -----

  function Ratio(a: int, b: nat): real
    requires b > 0
  {
    a as real / b as real
  }

  /** make_report's pass condition for a requested number of users. */
  predicate Passed(m: Metrics, users: nat) {
    var failures := SaturatingSub(m.failures, m.throttles);
    var authenticated := SaturatingSub(m.authSuccesses, 1);
    var divisor := if users == 0 then 1 else users;
    && (if m.requests == 0 then 1.0 else Ratio(failures, m.requests)) < 0.01
    && (if m.attempts == 0 then 0.0 else Ratio(m.socketFailures, m.attempts)) < 0.01
    && Ratio(authenticated, divisor) >= 1.0
    && (if m.attempts > 0 then Ratio(m.connected, divisor) else 1.0) >= 1.0
    && m.realtimeFailures == 0
  }

  lemma RatioAtLeastOne(a: int, b: nat)
    requires b > 0
    ensures Ratio(a, b) >= 1.0 <==> a >= b
  {
    var x, y := a as real, b as real;
    Quotient(x, y, Ratio(a, b));
    assert x >= y <==> a >= b;
  }

  lemma Quotient(x: real, y: real, q: real)
    requires y > 0.0 && q * y == x
    ensures q >= 1.0 <==> x >= y
  {
    assert x - y == (q - 1.0) * y;
    if q >= 1.0 {
      assert (q - 1.0) * y >= 0.0;
    } else {
      assert (1.0 - q) * y > 0.0;
    }
  }

  predicate TaskOver(c: Client) {
    c.phase.AuthFailed? || c.phase.SocketFailed? || c.phase.Ended?
  }

  ghost predicate AllOver(s: State) {
    forall k :: 0 <= k < |s.clients| ==> TaskOver(s.clients[k])
  }

  /** Every client went through traffic to the end and had nothing left unacknowledged. */
  ghost predicate AllDelivered(s: State) {
    forall k :: 0 <= k < |s.clients| ==> s.clients[k].phase.Ended? && s.clients[k].pending == {}
  }

  // ----- counting actions -----

  /** How many of the first i actions satisfy the predicate. */
  function Count(actions: seq<Action>, i: nat, what: Action -> bool): nat
    requires i <= |actions|
  {
    if i == 0 then 0 else Count(actions, i - 1, what) + if what(actions[i - 1]) then 1 else 0
  }

  predicate IsRequest(a: Action) { a.Request? }

  predicate IsFailedRequest(a: Action) { a.Request? && !a.ok }

  predicate IsThrottled(a: Action) { a.Request? && a.throttled }

  predicate IsLogin(a: Action) { a.Login? && a.ok }

  predicate IsAttempt(a: Action) { a.Connect? }

  predicate IsJoin(a: Action) { a.PassGate? && a.ok }

  predicate IsSocketFailure(a: Action) { (a.Connect? || a.PassGate?) && !a.ok }

  predicate IsSend(a: Action) { a.SendMessage? && a.ok }

  predicate IsAcknowledgement(a: Action) { a.Acknowledge? }

  /** An error frame, a lost socket, or a message or heartbeat that could not be sent. */
  predicate IsRealtimeError(a: Action) {
    a.ErrorFrame? || a.SocketError? || (a.SendMessage? && !a.ok)
  }

  /** The counters say what happened: each is the number of actions of its kind, the administrator's login apart. */
  ghost predicate CountsActions(s: State, actions: seq<Action>, i: nat)
    requires i <= |actions|
  {
    && s.m.requests == 1 + Count(actions, i, IsRequest)
    && s.m.failures == Count(actions, i, IsFailedRequest)
    && s.m.throttles == Count(actions, i, IsThrottled)
    && s.m.authSuccesses == 1 + Count(actions, i, IsLogin)
    && s.m.attempts == Count(actions, i, IsAttempt)
    && s.m.connected == Count(actions, i, IsJoin)
    && s.m.socketFailures == Count(actions, i, IsSocketFailure)
    && s.m.messages == Count(actions, i, IsSend)
    && s.m.acknowledged == Count(actions, i, IsAcknowledgement)
    && s.m.realtimeFailures == Count(actions, i, IsRealtimeError) + Sum(s.clients, Missed)
  }

  /** What one action adds to each counter; a tally adds what its client missed. */
  lemma StepAdds(s: State, a: Action)
    requires Enabled(s, a)
    ensures var m, m' := s.m, Apply(s, a).m;
            && m'.requests == m.requests + (if IsRequest(a) then 1 else 0)
            && m'.failures == m.failures + (if IsFailedRequest(a) then 1 else 0)
            && m'.throttles == m.throttles + (if IsThrottled(a) then 1 else 0)
            && m'.authSuccesses == m.authSuccesses + (if IsLogin(a) then 1 else 0)
            && m'.attempts == m.attempts + (if IsAttempt(a) then 1 else 0)
            && m'.connected == m.connected + (if IsJoin(a) then 1 else 0)
            && m'.socketFailures == m.socketFailures + (if IsSocketFailure(a) then 1 else 0)
            && m'.messages == m.messages + (if IsSend(a) then 1 else 0)
            && m'.acknowledged == m.acknowledged + (if IsAcknowledgement(a) then 1 else 0)
            && m'.realtimeFailures == m.realtimeFailures + (if IsRealtimeError(a) then 1 else 0)
                                      + (if a.Tally? then |s.clients[a.i].pending| else 0)
  {
  }

  lemma MissedByTally(s: State, a: Action)
    requires Enabled(s, a)
    ensures Sum(Apply(s, a).clients, Missed)
            == Sum(s.clients, Missed) + if a.Tally? then |s.clients[a.i].pending| else 0
  {
    SumStep(s, a, Missed);
  }

  lemma {:induction false} CountersAreCounts(users: nat, states: seq<State>, actions: seq<Action>, i: nat)
    requires IsRun(users, states, actions) && i < |states|
    ensures CountsActions(states[i], actions, i)
  {
    if i == 0 {
      SumZero(states[0].clients, Missed);
    } else {
      CountersAreCounts(users, states, actions, i - 1);
      StepAdds(states[i - 1], actions[i - 1]);
      MissedByTally(states[i - 1], actions[i - 1]);
    }
  }

  /** None of the first i actions is a realtime error. */
  ghost predicate NoRealtimeError(actions: seq<Action>, i: nat)
    requires i <= |actions|
  {
    forall t :: 0 <= t < i ==>
      !actions[t].ErrorFrame? && !actions[t].SocketError? && (actions[t].SendMessage? ==> actions[t].ok)
  }

  lemma {:induction false} NoErrorIff(actions: seq<Action>, i: nat)
    requires i <= |actions|
    ensures Count(actions, i, IsRealtimeError) == 0 <==> NoRealtimeError(actions, i)
  {
    if i != 0 {
      NoErrorIff(actions, i - 1);
    }
  }

  /** Under one percent of the requests, the administrator's login included, failed without being throttled. */
  ghost predicate FewFailures(actions: seq<Action>, i: nat)
    requires i <= |actions|
  {
    var failed, throttled := Count(actions, i, IsFailedRequest), Count(actions, i, IsThrottled);
    100 * (failed - throttled) < 1 + Count(actions, i, IsRequest)
  }

  /** The HTTP error rate, throttled logins not counted, is under one percent. */
  predicate FewErrors(m: Metrics) {
    m.requests > 0 && 100 * SaturatingSub(m.failures, m.throttles) < m.requests
  }

  /** Over with all authentications counted, the clients number what the report says they do. */
  lemma SetupVerdictIff(s: State)
    requires Counted(s) && AllOver(s) && |s.clients| > 0
    ensures s.m.authSuccesses - 1 >= |s.clients| && s.m.attempts > 0 && s.m.connected >= |s.clients|
            <==> forall k :: 0 <= k < |s.clients| ==> s.clients[k].phase.Ended?
    ensures s.m.authSuccesses - 1 >= |s.clients| ==> s.m.attempts > 0
    ensures s.m.connected >= |s.clients| ==> s.m.socketFailures == 0
  {
    var cs := s.clients;
    SumFull(cs, DidAuth);
    SumFull(cs, DidJoin);
    SumFull(cs, DidAttempt);
    SumZero(cs, DidAttempt);
    SumZero(cs, DidFail);
    if s.m.authSuccesses - 1 >= |cs| {
      assert DidAuth(cs[0]) == 1 && DidAttempt(cs[0]) == 1;
    }
    if s.m.connected >= |cs| {
      assert forall k :: 0 <= k < |cs| ==> DidJoin(cs[k]) == 1;
    }
    if forall k :: 0 <= k < |cs| ==> cs[k].phase.Ended? {
      SumOnes(cs, DidAuth);
      SumOnes(cs, DidJoin);
      SumOnes(cs, DidAttempt);
    }
  }

  lemma {:induction false} SumOnes(clients: seq<Client>, f: Client -> nat)
    requires forall i :: 0 <= i < |clients| ==> f(clients[i]) == 1
    ensures Sum(clients, f) == |clients|
  {
    if clients != [] {
      assert forall i :: 0 <= i < |clients[1..]| ==> clients[1..][i] == clients[i + 1];
      SumOnes(clients[1..], f);
    }
  }

  lemma ErrorRate(m: Metrics)
    ensures (if m.requests == 0 then 1.0 else Ratio(SaturatingSub(m.failures, m.throttles), m.requests)) < 0.01
            <==> FewErrors(m)
  {
    if m.requests > 0 {
      var x, y := SaturatingSub(m.failures, m.throttles) as real, m.requests as real;
      var q := x / y;
      assert q * y == x;
      Quotient(100.0 * x, y, 100.0 * q);
      assert 100.0 * x >= y <==> 100 * SaturatingSub(m.failures, m.throttles) >= m.requests;
    }
  }

  /**
   A report made after all tasks have ended passes exactly when at least one client was asked for,
   every client authenticated, connected and ended with nothing pending, none of the actions was an
   error frame, a lost socket or a failed send, and under one percent of the requests failed. The
   socket error rate adds nothing.
   */
  lemma PassesIff(users: nat, states: seq<State>, actions: seq<Action>, i: nat)
    requires IsRun(users, states, actions) && i < |states| && AllOver(states[i])
    ensures Passed(states[i].m, users)
            <==> users > 0 && AllDelivered(states[i]) && NoRealtimeError(actions, i) && FewFailures(actions, i)
  {
    CountersPassIff(users, states, actions, i);
    CountersAreCounts(users, states, actions, i);
    NoErrorIff(actions, i);
    SumZero(states[i].clients, Missed);
  }

  lemma CountersPassIff(users: nat, states: seq<State>, actions: seq<Action>, i: nat)
    requires IsRun(users, states, actions) && i < |states| && AllOver(states[i])
    ensures Passed(states[i].m, users)
            <==> users > 0 && AllDelivered(states[i]) && states[i].m.realtimeFailures == 0 && FewErrors(states[i].m)
  {
    RunKeeps(users, states, actions, i);
    var s := states[i];
    ErrorRate(s.m);
    var divisor := if users == 0 then 1 else users;
    RatioAtLeastOne(SaturatingSub(s.m.authSuccesses, 1), divisor);
    RatioAtLeastOne(s.m.connected, divisor);
    if users > 0 {
      SetupVerdictIff(s);
      SumZero(s.clients, Missed);
      if s.m.realtimeFailures == 0 {
        assert forall k :: 0 <= k < |s.clients| ==> Missed(s.clients[k]) == 0;
      }
      if s.m.socketFailures == 0 && s.m.attempts > 0 {
        assert Ratio(s.m.socketFailures, s.m.attempts) == 0.0;
      }
    }
  }

  /** So after a pass as many messages were acknowledged as were sent. */
  lemma PassMeansDelivered(users: nat, states: seq<State>, actions: seq<Action>, i: nat)
    requires IsRun(users, states, actions) && i < |states| && AllOver(states[i])
    requires Passed(states[i].m, users)
    ensures Count(actions, i, IsLogin) == Count(actions, i, IsJoin) == users && Count(actions, i, IsSocketFailure) == 0
    ensures Count(actions, i, IsSend) == Count(actions, i, IsAcknowledgement)
    ensures NoRealtimeError(actions, i)
  {
    PassesIff(users, states, actions, i);
    CountersAreCounts(users, states, actions, i);
    RunKeeps(users, states, actions, i);
    var s := states[i];
    SumOnes(s.clients, DidAuth);
    SumOnes(s.clients, DidJoin);
    SumZero(s.clients, DidFail);
    SumEqual(s.clients, Sent, Acked);
  }

  // ----- one client's way -----

  /** From its start a client may log in, connect, pass the gate, send, be acknowledged, drain and end. */
  const CLEAN_RUN: seq<Action> :=
    [Login(0, true), Connect(0, true), PassGate(0, true), SendMessage(0, 7, true), Acknowledge(0, 7),
     StopTraffic(0), StopDraining(0), Tally(0)]

  function CleanState(i: nat): State {
    var c := Client(Starting, {}, 0, 0);
    var m := Metrics(1, 0, 0, 2, 1, 1, 0, 0, 1, 1);
    if i == 0 then State([c], Metrics(1, 0, 0, 1, 0, 0, 0, 0, 0, 0))
    else if i == 1 then State([c.(phase := Authenticated)], Metrics(1, 0, 0, 2, 0, 0, 0, 0, 0, 0))
    else if i == 2 then State([c.(phase := Connecting)], Metrics(1, 0, 0, 2, 1, 0, 0, 0, 0, 0))
    else if i == 3 then State([c.(phase := Traffic)], Metrics(1, 0, 0, 2, 1, 1, 0, 0, 0, 0))
    else if i == 4 then State([Client(Traffic, {7}, 1, 0)], Metrics(1, 0, 0, 2, 1, 1, 0, 0, 1, 0))
    else if i == 5 then State([Client(Traffic, {}, 1, 1)], m)
    else if i == 6 then State([Client(Draining, {}, 1, 1)], m)
    else if i == 7 then State([Client(Tallying, {}, 1, 1)], m)
    else State([Client(Ended, {}, 1, 1)], m)
  }

  lemma CleanStep(i: nat)
    requires i < 8
    ensures Enabled(CleanState(i), CLEAN_RUN[i]) && Apply(CleanState(i), CLEAN_RUN[i]) == CleanState(i + 1)
  {
    var c, c' := CleanState(i).clients[0], Apply(CleanState(i), CLEAN_RUN[i]).clients[0];
    assert i == 3 ==> c'.pending == {7};
    assert i == 4 ==> c'.pending == {};
    assert c' == CleanState(i + 1).clients[0];
    assert Apply(CleanState(i), CLEAN_RUN[i]).clients == CleanState(i + 1).clients;
  }

  /** And then the report passes. */
  lemma CleanRunPasses() returns (states: seq<State>)
    ensures IsRun(1, states, CLEAN_RUN) && AllOver(states[8]) && Passed(states[8].m, 1)
  {
    states := seq(9, i requires 0 <= i < 9 => CleanState(i));
    forall i | 0 <= i < |CLEAN_RUN|
      ensures Enabled(states[i], CLEAN_RUN[i]) && states[i + 1] == Apply(states[i], CLEAN_RUN[i])
    {
      CleanStep(i);
    }
    PassesIff(1, states, CLEAN_RUN, 8);
  }
}
