/**
 One replica's room manager, its mailbox and its sockets. Sockets send Subscribe and Release
 commands and wait; the manager handles one command at a time, keeps a client count per room and
 one Valkey subscription per room, and rebuilds all subscriptions after a lost connection.
 */
module RoomService {
  import opened ChatTypes

  type Channel = string

  const MAIN: Channel := "main"

  datatype Topic = Control | Room(channel: Channel)

  /** A room's broadcast sender, numbered in creation order, and its client count. */
  datatype Entry = Entry(sender: nat, clients: nat)

  /** genuine is history: false marks a release for a channel the socket never got. */
  datatype Command = Subscribe(socket: int, channel: Channel) | Release(channel: Channel, genuine: bool)

  datatype Socket =
    | Asking(channel: Channel, first: bool)      // Subscribe sent, reply not in
    | Refused(channel: Channel, first: bool)     // the reply was an error
    | Holding(channel: Channel, receiver: nat)   // subscribed to that sender
    | Moving(channel: Channel)                   // old room released, new one not asked for yet
    | Closed

  datatype Link = Serving(topics: set<Topic>) | Lost

  datatype State = State(
    rooms: map<Channel, Entry>, mailbox: seq<Command>, sockets: map<int, Socket>, nextSender: nat, link: Link)

  datatype Action =
    | Open(k: int)
    | Handle(valkeyOk: bool)
    | Switch(k: int, to: Channel)
    | Ask(k: int)
    | Exit(k: int)
    | GiveUp(k: int)
    | LoseConnection
    | FailRestore
    | Restore

  const START := State(map[], [], map[], 0, Serving({Control}))

  // ----- the manager's handling of one command -----

  function HandleSubscribe(s: State, k: int, ch: Channel, ok: bool): State
    requires k in s.sockets && s.sockets[k].Asking? && s.link.Serving?
  {
    if ch in s.rooms then
      var e := s.rooms[ch];
      s.(rooms := s.rooms[ch := e.(clients := e.clients + 1)], sockets := s.sockets[k := Holding(ch, e.sender)])
    else if ok then
      s.(rooms := s.rooms[ch := Entry(s.nextSender, 1)], sockets := s.sockets[k := Holding(ch, s.nextSender)],
         nextSender := s.nextSender + 1, link := Serving(s.link.topics + {Room(ch)}))
    else s.(sockets := s.sockets[k := Refused(ch, s.sockets[k].first)])
  }

  function HandleRelease(s: State, ch: Channel, ok: bool): State
    requires s.link.Serving?
  {
    if ch !in s.rooms then s
    else
      var left := SaturatingSub(s.rooms[ch].clients, 1);
      if left == 0 then
        s.(rooms := s.rooms - {ch}, link := if ok then Serving(s.link.topics - {Room(ch)}) else s.link)
      else s.(rooms := s.rooms[ch := s.rooms[ch].(clients := left)])
  }

  // ----- steps; asWritten selects the failed switch's exit path -----

  predicate Enabled(s: State, a: Action) {
    match a
    case Open(k) => k !in s.sockets
    case Handle(_) =>
      && s.link.Serving? && |s.mailbox| > 0
      && (s.mailbox[0].Subscribe? ==> s.mailbox[0].socket in s.sockets && s.sockets[s.mailbox[0].socket].Asking?)
    case Switch(k, _) => k in s.sockets && s.sockets[k].Holding?
    case Ask(k) => k in s.sockets && s.sockets[k].Moving?
    case Exit(k) => k in s.sockets && s.sockets[k].Holding?
    case GiveUp(k) => k in s.sockets && s.sockets[k].Refused?
    case LoseConnection => s.link.Serving?
    case FailRestore => s.link.Lost?
    case Restore => s.link.Lost?
  }

  function Send(s: State, c: Command): State {
    s.(mailbox := s.mailbox + [c])
  }

  function Apply(asWritten: bool, s: State, a: Action): State
    requires Enabled(s, a)
  {
    match a
    case Open(k) => Send(s.(sockets := s.sockets[k := Asking(MAIN, true)]), Subscribe(k, MAIN))
    case Handle(ok) =>
      var c := s.mailbox[0];
      var rest := s.(mailbox := s.mailbox[1..]);
      if c.Subscribe? then HandleSubscribe(rest, c.socket, c.channel, ok) else HandleRelease(rest, c.channel, ok)
    case Switch(k, to) =>
      Send(s.(sockets := s.sockets[k := Moving(to)]), Release(s.sockets[k].channel, true))
    case Ask(k) =>
      var to := s.sockets[k].channel;
      Send(s.(sockets := s.sockets[k := Asking(to, false)]), Subscribe(k, to))
    case Exit(k) =>
      Send(s.(sockets := s.sockets[k := Closed]), Release(s.sockets[k].channel, true))
    case GiveUp(k) =>
      var done := s.(sockets := s.sockets[k := Closed]);
      if asWritten && !s.sockets[k].first then Send(done, Release(s.sockets[k].channel, false)) else done
    case LoseConnection => s.(link := Lost)
    case FailRestore => s
    case Restore => s.(link := Serving(AllTopics(s.rooms)))
  }

  function AllTopics(rooms: map<Channel, Entry>): set<Topic> {
    {Control} + set ch | ch in rooms :: Room(ch)
  }

  ghost predicate IsRun(asWritten: bool, states: seq<State>, actions: seq<Action>) {
    && |states| == |actions| + 1
    && states[0] == START
    && forall i :: 0 <= i < |actions| ==>
         Enabled(states[i], actions[i]) && states[i + 1] == Apply(asWritten, states[i], actions[i])
  }

  // ----- the counting law -----

  function Holders(s: State, ch: Channel): set<int> {
    set k | k in s.sockets && s.sockets[k].Holding? && s.sockets[k].channel == ch
  }

  function Undoes(c: Command, ch: Channel): nat {
    if c.Release? && c.genuine && c.channel == ch then 1 else 0
  }

  /** Releases of ch still in the mailbox that a holder of ch sent. */
  function Queued(mailbox: seq<Command>, ch: Channel): nat {
    if mailbox == [] then 0
    else Undoes(mailbox[0], ch) + Queued(mailbox[1..], ch)
  }

  function Clients(s: State, ch: Channel): nat {
    if ch in s.rooms then s.rooms[ch].clients else 0
  }

  /**
   A room's count is the sockets granted the room plus its queued releases, and an entry exists
   exactly when that is positive.
   */
  ghost predicate Balanced(s: State) {
    forall ch ::
      && Clients(s, ch) == |Holders(s, ch)| + Queued(s.mailbox, ch)
      && (ch in s.rooms <==> |Holders(s, ch)| + Queued(s.mailbox, ch) > 0)
  }

  /** Sockets hold the live sender of their room. */
  ghost predicate Attached(s: State) {
    && (forall k :: k in s.sockets && s.sockets[k].Holding? && s.sockets[k].channel in s.rooms ==>
          s.sockets[k].receiver == s.rooms[s.sockets[k].channel].sender)
    && (forall k :: k in s.sockets && s.sockets[k].Holding? ==> s.sockets[k].receiver < s.nextSender)
    && (forall ch :: ch in s.rooms ==> s.rooms[ch].sender < s.nextSender)
    && (forall ch, dh :: ch in s.rooms && dh in s.rooms && ch != dh ==> s.rooms[ch].sender != s.rooms[dh].sender)
  }

  /** A socket waits for at most one reply, and every queued Subscribe has its socket waiting. */
  ghost predicate Waiting(s: State) {
    && (forall i :: 0 <= i < |s.mailbox| && s.mailbox[i].Subscribe? ==>
          s.mailbox[i].socket in s.sockets && s.sockets[s.mailbox[i].socket].Asking?
          && s.sockets[s.mailbox[i].socket].channel == s.mailbox[i].channel)
    && (forall i, j :: 0 <= i < j < |s.mailbox| && s.mailbox[i].Subscribe? && s.mailbox[j].Subscribe? ==>
          s.mailbox[i].socket != s.mailbox[j].socket)
  }

  ghost predicate Subscribed(s: State) {
    s.link.Serving? ==> AllTopics(s.rooms) <= s.link.topics
  }

  ghost predicate Law(s: State) {
    Balanced(s) && Attached(s)
  }

  lemma {:induction false} QueuedAppend(mailbox: seq<Command>, c: Command, ch: Channel)
    ensures Queued(mailbox + [c], ch) == Queued(mailbox, ch) + Undoes(c, ch)
  {
    if mailbox == [] {
      assert [c][1..] == [];
    } else {
      assert (mailbox + [c])[1..] == mailbox[1..] + [c];
      QueuedAppend(mailbox[1..], c, ch);
    }
  }

  /** How many clients a socket accounts for in room ch. */
  function Weight(socket: Socket, ch: Channel): nat {
    if socket.Holding? && socket.channel == ch then 1 else 0
  }

  lemma HoldersUpdate(s: State, s': State, k: int, ch: Channel)
    requires k in s'.sockets && s'.sockets == s.sockets[k := s'.sockets[k]]
    ensures |Holders(s', ch)|
            == |Holders(s, ch)| - (if k in s.sockets then Weight(s.sockets[k], ch) else 0) + Weight(s'.sockets[k], ch)
  {
    var base := Holders(s, ch) - {k};
    assert Holders(s, ch) == if k in Holders(s, ch) then base + {k} else base;
    assert Holders(s', ch) == if Weight(s'.sockets[k], ch) == 1 then base + {k} else base;
  }

  // ----- every step -----

  lemma WaitingKept(w: bool, s: State, a: Action)
    requires Waiting(s) && Enabled(s, a)
    ensures Waiting(Apply(w, s, a))
  {
    var s' := Apply(w, s, a);
    if a.Handle? {
      assert forall i :: 0 <= i < |s'.mailbox| ==> s'.mailbox[i] == s.mailbox[i + 1];
    }
  }

  /** While serving, the manager is subscribed to _control and to every room it has. */
  lemma SubscribedKept(w: bool, s: State, a: Action)
    requires Subscribed(s) && Enabled(s, a)
    ensures Subscribed(Apply(w, s, a))
  {
  }

  /** Sockets and mailbox: everything but the manager's own steps keeps the law. */
  lemma SocketStepKeepsLaw(w: bool, s: State, a: Action)
    requires Law(s) && Enabled(s, a) && !a.Handle?
    ensures Law(Apply(w, s, a))
  {
    var s' := Apply(w, s, a);
    forall ch ensures Clients(s', ch) == |Holders(s', ch)| + Queued(s'.mailbox, ch) {
      assert Clients(s, ch) == |Holders(s, ch)| + Queued(s.mailbox, ch);
      if a.Open? || a.Switch? || a.Ask? || a.Exit? || a.GiveUp? {
        HoldersUpdate(s, s', a.k, ch);
        if s'.mailbox != s.mailbox {
          QueuedAppend(s.mailbox, s'.mailbox[|s.mailbox|], ch);
        }
      } else {
        assert Holders(s', ch) == Holders(s, ch);
      }
    }
  }

  lemma SubscribeKeepsAttached(w: bool, s: State, ok: bool)
    requires Law(s) && Waiting(s) && Enabled(s, Handle(ok)) && s.mailbox[0].Subscribe?
    ensures Attached(Apply(w, s, Handle(ok)))
  {
    var room := s.mailbox[0].channel;
    assert room in s.rooms || Holders(s, room) == {} by {
      assert Clients(s, room) == |Holders(s, room)| + Queued(s.mailbox, room);
    }
    assert forall j :: j in s.sockets && s.sockets[j].Holding? && s.sockets[j].channel == room ==>
      j in Holders(s, room);
  }

  lemma SubscribeBalances(w: bool, s: State, ok: bool, ch: Channel)
    requires Balanced(s) && Waiting(s) && Enabled(s, Handle(ok)) && s.mailbox[0].Subscribe?
    ensures var s' := Apply(w, s, Handle(ok));
            && Clients(s', ch) == |Holders(s', ch)| + Queued(s'.mailbox, ch)
            && (ch in s'.rooms <==> |Holders(s', ch)| + Queued(s'.mailbox, ch) > 0)
  {
    var s' := Apply(w, s, Handle(ok));
    assert Clients(s, ch) == |Holders(s, ch)| + Queued(s.mailbox, ch);
    HoldersUpdate(s, s', s.mailbox[0].socket, ch);
  }

  lemma HandleSubscribeKeepsLaw(w: bool, s: State, ok: bool)
    requires Law(s) && Waiting(s) && Enabled(s, Handle(ok)) && s.mailbox[0].Subscribe?
    ensures Law(Apply(w, s, Handle(ok)))
  {
    SubscribeKeepsAttached(w, s, ok);
    forall ch { SubscribeBalances(w, s, ok, ch); }
  }

  lemma ReleaseKeepsAttached(w: bool, s: State, ok: bool)
    requires Attached(s) && Enabled(s, Handle(ok)) && s.mailbox[0].Release?
    ensures Attached(Apply(w, s, Handle(ok)))
  {
  }

  lemma GenuineReleaseBalances(w: bool, s: State, ok: bool, ch: Channel)
    requires Balanced(s) && Enabled(s, Handle(ok)) && s.mailbox[0].Release? && s.mailbox[0].genuine
    ensures var s' := Apply(w, s, Handle(ok));
            && Clients(s', ch) == |Holders(s', ch)| + Queued(s'.mailbox, ch)
            && (ch in s'.rooms <==> |Holders(s', ch)| + Queued(s'.mailbox, ch) > 0)
  {
    var s' := Apply(w, s, Handle(ok));
    assert Clients(s, ch) == |Holders(s, ch)| + Queued(s.mailbox, ch);
    assert Holders(s', ch) == Holders(s, ch);
  }

  lemma HandleGenuineReleaseKeepsLaw(w: bool, s: State, ok: bool)
    requires Law(s) && Enabled(s, Handle(ok)) && s.mailbox[0].Release? && s.mailbox[0].genuine
    ensures Law(Apply(w, s, Handle(ok)))
  {
    ReleaseKeepsAttached(w, s, ok);
    forall ch { GenuineReleaseBalances(w, s, ok, ch); }
  }

  /** A release for a channel its sender never got is harmless exactly when the room is absent. */
  lemma SpuriousReleaseKeepsLawIff(w: bool, s: State, ok: bool)
    requires Law(s) && Enabled(s, Handle(ok)) && s.mailbox[0].Release? && !s.mailbox[0].genuine
    ensures Law(Apply(w, s, Handle(ok))) <==> s.mailbox[0].channel !in s.rooms
  {
    var s' := Apply(w, s, Handle(ok));
    var ch := s.mailbox[0].channel;
    assert Clients(s, ch) == |Holders(s, ch)| + Queued(s.mailbox, ch);
    assert forall c :: Holders(s', c) == Holders(s, c) && Queued(s'.mailbox, c) == Queued(s.mailbox, c);
    if ch in s.rooms {
      assert Clients(s', ch) == Clients(s, ch) - 1;
    }
  }

  /** The one step that breaks the law: handling a spurious release for a room that exists. */
  predicate Breaks(s: State, a: Action) {
    a.Handle? && |s.mailbox| > 0 && s.mailbox[0].Release? && !s.mailbox[0].genuine && s.mailbox[0].channel in s.rooms
  }

  lemma StepKeepsLawIff(w: bool, s: State, a: Action)
    requires Law(s) && Waiting(s) && Enabled(s, a)
    ensures Law(Apply(w, s, a)) <==> !Breaks(s, a)
  {
    if !a.Handle? {
      SocketStepKeepsLaw(w, s, a);
    } else if s.mailbox[0].Subscribe? {
      HandleSubscribeKeepsLaw(w, s, a.valkeyOk);
    } else if s.mailbox[0].genuine {
      HandleGenuineReleaseKeepsLaw(w, s, a.valkeyOk);
    } else {
      SpuriousReleaseKeepsLawIff(w, s, a.valkeyOk);
    }
  }

  lemma {:induction false} RunKeepsBasics(w: bool, states: seq<State>, actions: seq<Action>, i: nat)
    requires IsRun(w, states, actions) && i < |states|
    ensures Waiting(states[i]) && Subscribed(states[i])
    ensures !w ==> forall c :: c in states[i].mailbox && c.Release? ==> c.genuine
  {
    if i != 0 {
      RunKeepsBasics(w, states, actions, i - 1);
      WaitingKept(w, states[i - 1], actions[i - 1]);
      SubscribedKept(w, states[i - 1], actions[i - 1]);
    }
  }

  lemma StartLaw()
    ensures Law(START)
  {
    assert forall ch :: Holders(START, ch) == {} && Queued([], ch) == 0;
  }

  lemma {:induction false} LawUntilBreak(w: bool, states: seq<State>, actions: seq<Action>, i: nat)
    requires IsRun(w, states, actions) && i < |states|
    requires forall t :: 0 <= t < i ==> !Breaks(states[t], actions[t])
    ensures Law(states[i])
  {
    if i == 0 {
      StartLaw();
    } else {
      LawUntilBreak(w, states, actions, i - 1);
      RunKeepsBasics(w, states, actions, i - 1);
      StepKeepsLawIff(w, states[i - 1], actions[i - 1]);
    }
  }

  /**
   The law holds in every state up to i exactly when none of the first i steps handles a spurious
   release for an existing room.
   */
  lemma LawHoldsIff(w: bool, states: seq<State>, actions: seq<Action>, i: nat)
    requires IsRun(w, states, actions) && i < |states|
    ensures (forall t :: 0 <= t <= i ==> Law(states[t])) <==>
            (forall t :: 0 <= t < i ==> !Breaks(states[t], actions[t]))
  {
    if forall t :: 0 <= t < i ==> !Breaks(states[t], actions[t]) {
      forall t | 0 <= t <= i ensures Law(states[t]) {
        LawUntilBreak(w, states, actions, t);
      }
    }
    if forall t :: 0 <= t <= i ==> Law(states[t]) {
      forall t | 0 <= t < i ensures !Breaks(states[t], actions[t]) {
        RunKeepsBasics(w, states, actions, t);
        StepKeepsLawIff(w, states[t], actions[t]);
        assert Law(states[t + 1]);
      }
    }
  }

  /** When a failed switch releases nothing, the law holds in every state of every run. */
  lemma LawHoldsWithFix(states: seq<State>, actions: seq<Action>, i: nat)
    requires IsRun(false, states, actions) && i < |states|
    ensures Law(states[i])
  {
    forall t | 0 <= t < i ensures !Breaks(states[t], actions[t]) {
      RunKeepsBasics(false, states, actions, t);
      assert |states[t].mailbox| > 0 ==> states[t].mailbox[0] in states[t].mailbox;
    }
    LawUntilBreak(false, states, actions, i);
  }

  // ----- the sockets -----

  /**
   Each socket step changes its own socket and appends at most one command: to "main" on opening, a
   release on leaving.
   */
  lemma SocketSteps(w: bool, s: State, k: int, to: Channel)
    ensures k !in s.sockets ==>
              Apply(w, s, Open(k))
              == s.(sockets := s.sockets[k := Asking("main", true)], mailbox := s.mailbox + [Subscribe(k, "main")])
    ensures k in s.sockets && s.sockets[k].Holding? ==>
              && Enabled(s, Switch(k, to)) && Enabled(s, Exit(k))
              && Apply(w, s, Switch(k, to))
                 == s.(sockets := s.sockets[k := Moving(to)],
                       mailbox := s.mailbox + [Release(s.sockets[k].channel, true)])
              && Apply(w, s, Exit(k))
                 == s.(sockets := s.sockets[k := Closed], mailbox := s.mailbox + [Release(s.sockets[k].channel, true)])
    ensures k in s.sockets && s.sockets[k].Moving? ==>
              && Enabled(s, Ask(k))
              && Apply(w, s, Ask(k))
                 == s.(sockets := s.sockets[k := Asking(s.sockets[k].channel, false)],
                       mailbox := s.mailbox + [Subscribe(k, s.sockets[k].channel)])
    ensures k in s.sockets && s.sockets[k].Refused? ==>
              && Enabled(s, GiveUp(k))
              && Apply(w, s, GiveUp(k)).sockets == s.sockets[k := Closed]
              && Apply(w, s, GiveUp(k)).mailbox
                 == (if w && !s.sockets[k].first then s.mailbox + [Release(s.sockets[k].channel, false)] else s.mailbox)
  {
  }

  // ----- the connection -----

  /**
   Losing the connection keeps rooms, counts, sockets and mailbox; a restored one listens to `_control`
   and to each room of the map, and to nothing else; a failed restore changes nothing.
   */
  lemma ConnectionSteps(w: bool, s: State)
    ensures s.link.Serving? ==>
              && Enabled(s, LoseConnection) && Apply(w, s, LoseConnection).link.Lost?
              && Apply(w, s, LoseConnection).(link := s.link) == s
    ensures s.link.Lost? ==>
              && Enabled(s, FailRestore) && Apply(w, s, FailRestore) == s
              && Enabled(s, Restore) && Apply(w, s, Restore).link.Serving? && Apply(w, s, Restore).(link := s.link) == s
              && forall t :: t in Apply(w, s, Restore).link.topics <==> t.Control? || t.channel in s.rooms
  {
    forall t: Topic ensures t in AllTopics(s.rooms) <==> t.Control? || t.channel in s.rooms {
      if t.Room? {
        assert t == Room(t.channel);
      }
    }
  }

  // ----- routing -----

  datatype Kind =
    | Message | MessageUpdated | ReactionUpdated
    | Participants | ParticipantJoined | ParticipantLeft | PresenceSync | Typing
    | ChannelCreated | ChannelDeleted
    | Members | Unrouted

  datatype Event = Event(kind: Kind, channel: Channel)

  datatype Wire = ToSender(sender: nat) | ToControl | Nowhere

  predicate RoomKind(kind: Kind) {
    match kind
    case Message | MessageUpdated | ReactionUpdated => true
    case Participants | ParticipantJoined | ParticipantLeft | PresenceSync | Typing => true
    case ChannelCreated | ChannelDeleted | Members | Unrouted => false
  }

  function Route(rooms: map<Channel, Entry>, e: Event): Wire {
    if RoomKind(e.kind) then
      if e.channel in rooms then ToSender(rooms[e.channel].sender) else Nowhere
    else if e.kind.ChannelCreated? || e.kind.ChannelDeleted? then ToControl
    else Nowhere
  }

  /** Socket k is sent event e when some replica publishes e on the topic. */
  predicate Receives(s: State, topic: Topic, e: Event, k: int) {
    && s.link.Serving? && topic in s.link.topics
    && k in s.sockets && !s.sockets[k].Closed?
    && match Route(s.rooms, e)
       case ToSender(n) => s.sockets[k].Holding? && s.sockets[k].receiver == n
       case ToControl => true
       case Nowhere => false
  }

  // ----- who hears what, in every run of the code as written and of the fixed one -----

  predicate Listens(s: State, k: int, sender: nat) {
    k in s.sockets && s.sockets[k].Holding? && s.sockets[k].receiver == sender
  }

  /** Senders are never reused, and a live sender is known only to sockets that hold its own room. */
  ghost predicate OwnSenders(s: State) {
    && (forall ch :: ch in s.rooms ==> s.rooms[ch].sender < s.nextSender)
    && (forall ch, dh :: ch in s.rooms && dh in s.rooms && s.rooms[ch].sender == s.rooms[dh].sender ==> ch == dh)
    && (forall k :: k in s.sockets && s.sockets[k].Holding? ==> s.sockets[k].receiver < s.nextSender)
    && (forall k, ch :: ch in s.rooms && Listens(s, k, s.rooms[ch].sender) ==> s.sockets[k].channel == ch)
  }

  lemma SubscribeKeepsSenders(s: State, k: int, ch: Channel, ok: bool)
    requires OwnSenders(s) && k in s.sockets && s.sockets[k].Asking? && s.link.Serving?
    ensures OwnSenders(HandleSubscribe(s, k, ch, ok))
  {
    if ch in s.rooms {
      JoinKeepsSenders(s, k, ch, ok);
    } else if ok {
      OpenKeepsSenders(s, k, ch);
    }
  }

  lemma JoinKeepsSenders(s: State, k: int, ch: Channel, ok: bool)
    requires OwnSenders(s) && k in s.sockets && s.sockets[k].Asking? && s.link.Serving? && ch in s.rooms
    ensures OwnSenders(HandleSubscribe(s, k, ch, ok))
  {
    var s' := HandleSubscribe(s, k, ch, ok);
    assert forall dh :: dh in s'.rooms ==> dh in s.rooms && s'.rooms[dh].sender == s.rooms[dh].sender;
    assert forall j, n :: Listens(s', j, n) ==> Listens(s, j, n) || (j == k && n == s.rooms[ch].sender);
  }

  lemma OpenKeepsSenders(s: State, k: int, ch: Channel)
    requires OwnSenders(s) && k in s.sockets && s.sockets[k].Asking? && s.link.Serving? && ch !in s.rooms
    ensures OwnSenders(HandleSubscribe(s, k, ch, true))
  {
    var s' := HandleSubscribe(s, k, ch, true);
    assert forall j, n :: Listens(s', j, n) ==> Listens(s, j, n) || (j == k && n == s.nextSender);
  }

  lemma ReleaseKeepsSenders(s: State, ch: Channel, ok: bool)
    requires OwnSenders(s) && s.link.Serving?
    ensures OwnSenders(HandleRelease(s, ch, ok))
  {
  }

  lemma SendersKept(w: bool, s: State, a: Action)
    requires OwnSenders(s) && Enabled(s, a)
    ensures OwnSenders(Apply(w, s, a))
  {
    if a.Handle? {
      var c, rest := s.mailbox[0], s.(mailbox := s.mailbox[1..]);
      if c.Subscribe? {
        SubscribeKeepsSenders(rest, c.socket, c.channel, a.valkeyOk);
      } else {
        ReleaseKeepsSenders(rest, c.channel, a.valkeyOk);
      }
    } else {
      SocketStepKeepsSenders(w, s, a);
    }
  }

  lemma SocketStepKeepsSenders(w: bool, s: State, a: Action)
    requires OwnSenders(s) && Enabled(s, a) && !a.Handle?
    ensures OwnSenders(Apply(w, s, a))
  {
    var s' := Apply(w, s, a);
    assert s'.rooms == s.rooms && s'.nextSender == s.nextSender;
    assert forall k :: k in s'.sockets && s'.sockets[k].Holding? ==> k in s.sockets && s'.sockets[k] == s.sockets[k];
  }

  lemma {:induction false} RunKeepsSenders(w: bool, states: seq<State>, actions: seq<Action>, i: nat)
    requires IsRun(w, states, actions) && i < |states|
    ensures OwnSenders(states[i])
  {
    if i != 0 {
      RunKeepsSenders(w, states, actions, i - 1);
      SendersKept(w, states[i - 1], actions[i - 1]);
    }
  }

  /** In every run, whatever was released, a room event reaches only sockets that hold its own channel. */
  lemma ReachesOnlyItsChannel(w: bool, states: seq<State>, actions: seq<Action>, i: nat, topic: Topic, e: Event, k: int)
    requires IsRun(w, states, actions) && i < |states|
    requires IsRoomEvent(e) && Receives(states[i], topic, e, k)
    ensures k in Holders(states[i], e.channel)
  {
    RunKeepsSenders(w, states, actions, i);
  }

  /** Every holder is attached to the live sender of its room. */
  ghost predicate Hears(s: State) {
    forall k :: k in s.sockets && s.sockets[k].Holding? ==>
      s.sockets[k].channel in s.rooms && s.sockets[k].receiver == s.rooms[s.sockets[k].channel].sender
  }

  /** Everything but channel creation and deletion, member lists and the kinds the manager ignores. */
  predicate IsRoomEvent(e: Event) {
    e.kind != ChannelCreated && e.kind != ChannelDeleted && e.kind != Members && e.kind != Unrouted
  }

  /**
   A message, an update, a reaction, a participant list, a join, a leave, a presence or a typing event,
   published on its room's topic, reaches exactly the sockets that hold the room.
   */
  ghost predicate Exact(s: State) {
    forall e: Event, k :: IsRoomEvent(e) ==> (Receives(s, Room(e.channel), e, k) <==> k in Holders(s, e.channel))
  }

  /** While the manager serves, delivery is exact exactly when every holder hears. */
  lemma ExactIffHears(s: State)
    requires OwnSenders(s) && Subscribed(s) && s.link.Serving?
    ensures Exact(s) <==> Hears(s)
  {
    if Exact(s) {
      forall k | k in s.sockets && s.sockets[k].Holding?
        ensures s.sockets[k].channel in s.rooms && s.sockets[k].receiver == s.rooms[s.sockets[k].channel].sender
      {
        var e := Event(Kind.Message, s.sockets[k].channel);
        assert k in Holders(s, e.channel);
        assert Receives(s, Room(e.channel), e, k);
      }
    }
  }

  /** Nothing arrives on a topic the manager is not subscribed to, and nothing while its connection is lost. */
  lemma DeafOffTopic(s: State, topic: Topic, e: Event, k: int)
    requires s.link.Lost? || topic !in s.link.topics
    ensures !Receives(s, topic, e, k)
  {
  }

  /** A Members event or one of an ignored kind reaches nobody on any topic, a control event every open socket. */
  lemma OtherEvents(s: State, topic: Topic, e: Event, k: int)
    requires Subscribed(s) && s.link.Serving?
    ensures e.kind.Members? || e.kind.Unrouted? ==> !Receives(s, topic, e, k)
    ensures e.kind.ChannelCreated? || e.kind.ChannelDeleted? ==>
              (Receives(s, Control, e, k) <==> k in s.sockets && !s.sockets[k].Closed?)
  {
  }

  /** The step handles a release that removes a room somebody still holds. */
  ghost predicate Steals(s: State, a: Action) {
    && a.Handle? && |s.mailbox| > 0 && s.mailbox[0].Release? && s.mailbox[0].channel in s.rooms
    && s.rooms[s.mailbox[0].channel].clients <= 1 && Holders(s, s.mailbox[0].channel) != {}
  }

  lemma SubscribeKeepsHearing(s: State, k: int, ch: Channel, ok: bool)
    requires Hears(s) && k in s.sockets && s.sockets[k].Asking? && s.link.Serving?
    ensures Hears(HandleSubscribe(s, k, ch, ok))
  {
  }

  lemma ReleaseKeepsHearingIff(s: State, ch: Channel, ok: bool)
    requires Hears(s) && s.link.Serving?
    ensures Hears(HandleRelease(s, ch, ok)) <==>
            !(ch in s.rooms && s.rooms[ch].clients <= 1 && Holders(s, ch) != {})
  {
    if ch in s.rooms && s.rooms[ch].clients <= 1 && Holders(s, ch) != {} {
      ghost var k := SomeElement(Holders(s, ch));
      assert HandleRelease(s, ch, ok).sockets[k].channel == ch;
    } else {
      assert forall k :: k in s.sockets && s.sockets[k].Holding? && s.sockets[k].channel == ch ==> k in Holders(s, ch);
    }
  }

  lemma StepKeepsHearingIff(w: bool, s: State, a: Action)
    requires Hears(s) && Enabled(s, a)
    ensures Hears(Apply(w, s, a)) <==> !Steals(s, a)
  {
    if a.Handle? {
      var c, rest := s.mailbox[0], s.(mailbox := s.mailbox[1..]);
      if c.Subscribe? {
        SubscribeKeepsHearing(rest, c.socket, c.channel, a.valkeyOk);
      } else {
        assert Holders(rest, c.channel) == Holders(s, c.channel);
        ReleaseKeepsHearingIff(rest, c.channel, a.valkeyOk);
      }
    } else {
      var s' := Apply(w, s, a);
      assert forall k :: k in s'.sockets && s'.sockets[k].Holding? ==> k in s.sockets && s'.sockets[k] == s.sockets[k];
    }
  }

  lemma {:induction false} HearsUntilTheft(w: bool, states: seq<State>, actions: seq<Action>, i: nat)
    requires IsRun(w, states, actions) && i < |states|
    requires forall t :: 0 <= t < i ==> !Steals(states[t], actions[t])
    ensures Hears(states[i])
  {
    if i != 0 {
      HearsUntilTheft(w, states, actions, i - 1);
      StepKeepsHearingIff(w, states[i - 1], actions[i - 1]);
    }
  }

  /**
   In every run, of the code as written and of the fixed one: all holders hear their rooms in every
   state up to i exactly when none of the first i steps handles a release that takes the last count
   of a room somebody still holds.
   */
  lemma HearsIff(w: bool, states: seq<State>, actions: seq<Action>, i: nat)
    requires IsRun(w, states, actions) && i < |states|
    ensures (forall t :: 0 <= t <= i ==> Hears(states[t])) <==>
            (forall t :: 0 <= t < i ==> !Steals(states[t], actions[t]))
  {
    if forall t :: 0 <= t < i ==> !Steals(states[t], actions[t]) {
      forall t | 0 <= t <= i ensures Hears(states[t]) {
        HearsUntilTheft(w, states, actions, t);
      }
    }
    if forall t :: 0 <= t <= i ==> Hears(states[t]) {
      forall t | 0 <= t < i ensures !Steals(states[t], actions[t]) {
        assert Hears(states[t]) && Hears(states[t + 1]);
        StepKeepsHearingIff(w, states[t], actions[t]);
      }
    }
  }

  /** So in every run without such a theft so far, a serving manager delivers exactly to the holders. */
  lemma RunDeliversExactlyToHolders(w: bool, states: seq<State>, actions: seq<Action>, i: nat)
    requires IsRun(w, states, actions) && i < |states| && states[i].link.Serving?
    requires forall t :: 0 <= t < i ==> !Steals(states[t], actions[t])
    ensures Exact(states[i])
  {
    RunKeepsSenders(w, states, actions, i);
    RunKeepsBasics(w, states, actions, i);
    HearsUntilTheft(w, states, actions, i);
    ExactIffHears(states[i]);
  }

  /** Under the law a theft is a break: the release's own count comes on top of the holders'. */
  lemma LawfulTheftBreaks(s: State, a: Action)
    requires Law(s) && Enabled(s, a) && Steals(s, a)
    ensures Breaks(s, a)
  {
    var ch := s.mailbox[0].channel;
    ghost var k := SomeElement(Holders(s, ch));
    assert Clients(s, ch) == |Holders(s, ch)| + Queued(s.mailbox, ch);
  }

  /** With the fix no run steals, so every serving state of every run delivers exactly. */
  lemma FixDeliversExactly(states: seq<State>, actions: seq<Action>, i: nat)
    requires IsRun(false, states, actions) && i < |states|
    ensures forall t :: 0 <= t < i ==> !Steals(states[t], actions[t])
    ensures states[i].link.Serving? ==> Exact(states[i])
  {
    forall t | 0 <= t < i ensures !Steals(states[t], actions[t]) {
      LawHoldsWithFix(states, actions, t);
      LawHoldsWithFix(states, actions, t + 1);
      RunKeepsBasics(false, states, actions, t);
      StepKeepsLawIff(false, states[t], actions[t]);
      if Steals(states[t], actions[t]) {
        LawfulTheftBreaks(states[t], actions[t]);
      }
    }
    if states[i].link.Serving? {
      RunDeliversExactlyToHolders(false, states, actions, i);
    }
  }

  // ----- the run that breaks the law as written -----

  const BROKEN_RUN: seq<Action> :=
    [Open(1), Handle(true), Switch(1, MAIN), Ask(1), Handle(true), Handle(false),
     Open(2), Handle(true), GiveUp(1), Handle(true)]

  function BrokenState(i: nat): State {
    var on := Serving({Control, Room(MAIN)});
    var off := Serving({Control});
    var one := map[MAIN := Entry(0, 1)];
    var two := map[MAIN := Entry(1, 1)];
    var refused := Refused(MAIN, false);
    if i == 0 then START
    else if i == 1 then State(map[], [Subscribe(1, MAIN)], map[1 := Asking(MAIN, true)], 0, off)
    else if i == 2 then State(one, [], map[1 := Holding(MAIN, 0)], 1, on)
    else if i == 3 then State(one, [Release(MAIN, true)], map[1 := Moving(MAIN)], 1, on)
    else if i == 4 then State(one, [Release(MAIN, true), Subscribe(1, MAIN)], map[1 := Asking(MAIN, false)], 1, on)
    else if i == 5 then State(map[], [Subscribe(1, MAIN)], map[1 := Asking(MAIN, false)], 1, off)
    else if i == 6 then State(map[], [], map[1 := refused], 1, off)
    else if i == 7 then State(map[], [Subscribe(2, MAIN)], map[1 := refused, 2 := Asking(MAIN, true)], 1, off)
    else if i == 8 then State(two, [], map[1 := refused, 2 := Holding(MAIN, 1)], 2, on)
    else if i == 9 then State(two, [Release(MAIN, false)], map[1 := Closed, 2 := Holding(MAIN, 1)], 2, on)
    else State(map[], [], map[1 := Closed, 2 := Holding(MAIN, 1)], 2, off)
  }

  lemma BrokenHandles(i: nat)
    requires i < 10 && BROKEN_RUN[i].Handle?
    ensures Enabled(BrokenState(i), BROKEN_RUN[i]) && Apply(true, BrokenState(i), BROKEN_RUN[i]) == BrokenState(i + 1)
  {
    var s := BrokenState(i);
    assert s.mailbox[1..] == BrokenState(i + 1).mailbox;
    var s' := Apply(true, s, BROKEN_RUN[i]);
    assert s'.rooms == BrokenState(i + 1).rooms;
    assert s'.sockets == BrokenState(i + 1).sockets;
    assert s'.link.topics == BrokenState(i + 1).link.topics;
  }

  lemma BrokenStep(i: nat)
    requires i < 10
    ensures Enabled(BrokenState(i), BROKEN_RUN[i]) && Apply(true, BrokenState(i), BROKEN_RUN[i]) == BrokenState(i + 1)
  {
    if BROKEN_RUN[i].Handle? {
      BrokenHandles(i);
    } else {
      assert Apply(true, BrokenState(i), BROKEN_RUN[i]).sockets == BrokenState(i + 1).sockets;
    }
  }

  /**
   As written: socket 1's switch is refused, socket 2 then gets the room, and socket 1's exit
   release takes the room away from socket 2, which holds it and no longer receives its messages.
   */
  lemma FailedSwitchStealsRoom() returns (states: seq<State>)
    ensures IsRun(true, states, BROKEN_RUN)
    ensures 2 in Holders(states[10], MAIN) && MAIN !in states[10].rooms && !Law(states[10])
    ensures !Receives(states[10], Room(MAIN), Event(Kind.Message, MAIN), 2)
    ensures Steals(states[9], BROKEN_RUN[9]) && Orphaned(states[10], 2, MAIN)
  {
    states := seq(11, i requires 0 <= i < 11 => BrokenState(i));
    forall i | 0 <= i < |BROKEN_RUN|
      ensures Enabled(states[i], BROKEN_RUN[i]) && states[i + 1] == Apply(true, states[i], BROKEN_RUN[i])
    {
      BrokenStep(i);
    }
    assert 2 in Holders(states[9], MAIN) && 2 in Holders(states[10], MAIN);
    assert |Holders(states[10], MAIN)| > 0;
  }

  /** The socket holds the room, the manager has no such room, and no command is under way. */
  predicate Orphaned(s: State, k: int, ch: Channel) {
    && s.link.Serving? && s.mailbox == [] && ch !in s.rooms
    && k in s.sockets && s.sockets[k].Holding? && s.sockets[k].channel == ch
  }

  /** The same while a newcomer's Subscribe is under way. */
  predicate Coming(s: State, k: int, j: int, ch: Channel) {
    && s.link.Serving? && s.mailbox == [Subscribe(j, ch)] && ch !in s.rooms && j in s.sockets && s.sockets[j].Asking?
    && k in s.sockets && s.sockets[k].Holding? && s.sockets[k].channel == ch
  }

  ghost predicate IsPath(w: bool, states: seq<State>, actions: seq<Action>) {
    && |states| == |actions| + 1
    && forall i :: 0 <= i < |actions| ==>
         Enabled(states[i], actions[i]) && states[i + 1] == Apply(w, states[i], actions[i])
  }

  /** A new socket comes to the main room by opening. */
  lemma OpenComes(w: bool, s: State, k: int, j: int)
    requires Orphaned(s, k, MAIN) && j !in s.sockets
    ensures Enabled(s, Open(j)) && Coming(Apply(w, s, Open(j)), k, j, MAIN)
  {
  }

  /** A socket that holds another room comes to any room by switching. */
  lemma SwitchComes(w: bool, s: State, k: int, j: int, ch: Channel) returns (states: seq<State>)
    requires Orphaned(s, k, ch) && j in s.sockets && s.sockets[j].Holding? && s.sockets[j].channel != ch
    ensures IsPath(w, states, [Switch(j, ch), Ask(j), Handle(true)]) && states[0] == s
    ensures Coming(states[3], k, j, ch)
  {
    var s1 := Apply(w, s, Switch(j, ch));
    var s2 := Apply(w, s1, Ask(j));
    assert s2.mailbox == [Release(s.sockets[j].channel, true), Subscribe(j, ch)];
    assert s2.mailbox[1..] == [Subscribe(j, ch)];
    states := [s, s1, s2, Apply(w, s2, Handle(true))];
  }

  /** The newcomer opens the room afresh. */
  lemma NewcomerOpens(w: bool, s: State, k: int, j: int, ch: Channel)
    requires Coming(s, k, j, ch)
    ensures Enabled(s, Handle(true))
    ensures var first := Apply(w, s, Handle(true));
            && first.link.Serving? && first.mailbox == [] && ch in first.rooms && first.rooms[ch].clients == 1
            && first.sockets == s.sockets[j := Holding(ch, s.nextSender)]
  {
    assert s.mailbox[1..] == [];
  }

  /** The orphan, whose receiver is closed, leaves and releases the room once more. */
  lemma OrphanReleases(w: bool, s: State, k: int, ch: Channel)
    requires s.link.Serving? && s.mailbox == [] && ch in s.rooms && s.rooms[ch].clients == 1
    requires k in s.sockets && s.sockets[k].Holding? && s.sockets[k].channel == ch
    ensures Enabled(s, Exit(k)) && Enabled(Apply(w, s, Exit(k)), Handle(true))
    ensures var end := Apply(w, Apply(w, s, Exit(k)), Handle(true));
            && end.link.Serving? && end.mailbox == [] && ch !in end.rooms
            && end.sockets == s.sockets[k := Closed]
  {
    var left := Apply(w, s, Exit(k));
    assert left.mailbox == [Release(ch, true)] && left.mailbox[1..] == [];
  }

  /**
   After a theft it goes on, in any room and for any newcomer: the orphan's own release takes the
   fresh room down, and the newcomer is the next orphan, holding a room it hears nothing of.
   */
  lemma OrphanTakesFreshRoom(w: bool, s: State, k: int, j: int, ch: Channel) returns (states: seq<State>)
    requires Coming(s, k, j, ch)
    ensures IsPath(w, states, [Handle(true), Exit(k), Handle(true)]) && states[0] == s
    ensures Orphaned(states[3], j, ch) && !Hears(states[3])
    ensures !Receives(states[3], Room(ch), Event(Kind.Message, ch), j)
  {
    NewcomerOpens(w, s, k, j, ch);
    var s1 := Apply(w, s, Handle(true));
    OrphanReleases(w, s1, k, ch);
    var s2 := Apply(w, s1, Exit(k));
    states := [s, s1, s2, Apply(w, s2, Handle(true))];
  }

  // ----- reconnecting -----

  const FIRST_RETRY: int := 250
  const MAX_RETRY: int := 10_000

  function NextRetryDelay(current: int): int {
    if current * 2 < MAX_RETRY then current * 2 else MAX_RETRY
  }

  /** The delay before attempt n. */
  function RetryWait(n: nat): int {
    if n == 0 then FIRST_RETRY else NextRetryDelay(RetryWait(n - 1))
  }

  lemma {:induction false} RetryWaitBounds(n: nat)
    ensures 250 <= RetryWait(n) <= 10_000
    ensures RetryWait(0) == 250 && (n < 5 ==> RetryWait(n + 1) == 2 * RetryWait(n))
    ensures RetryWait(n) <= RetryWait(n + 1)
    ensures n >= 6 ==> RetryWait(n) == 10_000
  {
    if n == 0 {
    } else if n <= 6 {
      assert RetryWait(2) == 1000 && RetryWait(4) == 4000;
      RetryWaitBounds(n - 1);
    } else {
      RetryWaitBounds(n - 1);
    }
  }

  /** One attempt on a fresh connection: `_control` first, then every room, giving up at the first refusal. */
  method TryRestore(rooms: map<Channel, Entry>, accepts: Topic -> bool) returns (restored: bool, topics: set<Topic>)
    ensures restored <==> forall t :: t in AllTopics(rooms) ==> accepts(t)
    ensures restored ==> topics == AllTopics(rooms)
  {
    topics := {};
    if !accepts(Control) {
      assert Control in AllTopics(rooms);
      return false, topics;
    }
    topics := {Control};
    restored := true;
    var todo := rooms.Keys;
    while todo != {}
      invariant todo <= rooms.Keys && restored
      invariant topics == {Control} + set ch | ch in rooms && ch !in todo :: Room(ch)
      invariant forall t :: t in topics ==> accepts(t)
      decreases |todo|
    {
      var ch :| ch in todo;
      if !accepts(Room(ch)) {
        assert Room(ch) in AllTopics(rooms);
        return false, topics;
      }
      topics := topics + {Room(ch)};
      todo := todo - {ch};
    }
    assert topics == AllTopics(rooms);
  }

  /**
   The reconnect loop over a finite list of attempts: None where no connection came up. It ends at
   the first attempt that accepts everything, has waited RetryWait(i) before attempt i, and then
   serves exactly `_control` and all rooms.
   */
  method Reconnect(rooms: map<Channel, Entry>, attempts: seq<Option<Topic -> bool>>)
    returns (restored: bool, topics: set<Topic>, waits: seq<int>)
    ensures restored ==> topics == AllTopics(rooms)
    ensures restored <==>
            exists i :: 0 <= i < |attempts| && attempts[i].Some?
              && forall t :: t in AllTopics(rooms) ==> attempts[i].value(t)
    ensures |waits| <= |attempts| && forall i :: 0 <= i < |waits| ==> waits[i] == RetryWait(i)
  {
    var delay := FIRST_RETRY;
    waits := [];
    topics := {};
    for n := 0 to |attempts|
      invariant |waits| == n && delay == RetryWait(n)
      invariant forall i :: 0 <= i < n ==> waits[i] == RetryWait(i)
      invariant forall i :: 0 <= i < n && attempts[i].Some? ==>
                  exists t :: t in AllTopics(rooms) && !attempts[i].value(t)
    {
      waits := waits + [delay];
      if attempts[n].Some? {
        restored, topics := TryRestore(rooms, attempts[n].value);
        if restored {
          return;
        }
      }
      delay := NextRetryDelay(delay);
    }
    restored := false;
  }

  // ----- the manager as an object -----

  /** The manager's own fields while it serves, and its two command arms. */
  class RoomManager {
    var rooms: map<Channel, Entry>
    var topics: set<Topic>
    var nextSender: nat

    constructor ()
      ensures rooms == map[] && topics == {Control} && nextSender == 0
    {
      rooms, topics, nextSender := map[], {Control}, 0;
    }

    ghost predicate Valid()
      reads this
    {
      AllTopics(rooms) <= topics && forall ch :: ch in rooms ==> rooms[ch].clients > 0
    }

    /** The manager's fields are those of the machine's state s, serving. */
    ghost predicate Reflects(s: State)
      reads this
    {
      rooms == s.rooms && nextSender == s.nextSender && s.link == Serving(topics)
    }

    /**
     The reply is the room's sender, or None when Valkey refused a new room. Seen from the machine,
     the arm is its step for socket k, which then holds that sender or is refused.
     */
    method OnSubscribe(channel: Channel, valkeyOk: bool, ghost s: State, ghost k: int) returns (receiver: Option<nat>)
      requires Valid() && Reflects(s) && k in s.sockets && s.sockets[k].Asking?
      modifies this
      ensures Valid() && Reflects(HandleSubscribe(s, k, channel, valkeyOk))
      ensures HandleSubscribe(s, k, channel, valkeyOk).sockets[k]
              == if receiver.Some? then Holding(channel, receiver.value) else Refused(channel, s.sockets[k].first)
      ensures receiver.None? <==> channel !in old(rooms) && !valkeyOk
      ensures receiver.None? ==> rooms == old(rooms) && topics == old(topics)
      ensures receiver.Some? ==>
                && channel in rooms && receiver.value == rooms[channel].sender
                && rooms[channel].clients == (if channel in old(rooms) then old(rooms)[channel].clients else 0) + 1
                && (channel in old(rooms) ==> receiver.value == old(rooms)[channel].sender)
                && rooms - {channel} == old(rooms) - {channel}
    {
      if channel in rooms {
        var entry := rooms[channel];
        rooms := rooms[channel := entry.(clients := entry.clients + 1)];
        receiver := Some(entry.sender);
      } else if valkeyOk {
        rooms := rooms[channel := Entry(nextSender, 1)];
        topics := topics + {Room(channel)};
        receiver := Some(nextSender);
        nextSender := nextSender + 1;
      } else {
        receiver := None;
      }
    }

    /** Undoes one subscription; the last one out removes the room and, if Valkey agrees, its topic. */
    method OnRelease(channel: Channel, valkeyOk: bool, ghost s: State)
      requires Valid() && Reflects(s)
      modifies this
      ensures Valid() && Reflects(HandleRelease(s, channel, valkeyOk))
      ensures topics == if channel in old(rooms) && channel !in rooms && valkeyOk
                        then old(topics) - {Room(channel)} else old(topics)
      ensures rooms - {channel} == old(rooms) - {channel} && nextSender == old(nextSender)
      ensures channel !in old(rooms) ==> rooms == old(rooms)
      ensures channel in old(rooms) ==> (channel in rooms <==> old(rooms)[channel].clients > 1)
      ensures channel in rooms ==> rooms[channel] == old(rooms)[channel].(clients := old(rooms)[channel].clients - 1)
    {
      if channel in rooms {
        var left := SaturatingSub(rooms[channel].clients, 1);
        if left == 0 {
          rooms := rooms - {channel};
          if valkeyOk {
            topics := topics - {Room(channel)};
          }
        } else {
          rooms := rooms[channel := rooms[channel].(clients := left)];
        }
      }
    }
  }
}
