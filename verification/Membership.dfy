/**
 Channel membership and ownership. Every handler first reads and checks, then writes; between the
 two, other handlers may write. A serial run is one where each handler's write follows its check
 immediately.
 */
module Membership {
  import opened ChatTypes

  datatype Role = Owner | Moderator | Member

  datatype Kind = Public | Private | Direct

  datatype Channel = Channel(kind: Kind, owner: Option<int>, members: map<int, Role>)

  /** moderate is the caller's chat:moderate permission. */
  datatype Op =
    | CreatePrivate(c: int, user: int)
    | OpenDirect(c: int, user: int, other: int)
    | CreatePublic(c: int)
    | Invite(c: int, actor: int, user: int)
    | Expel(c: int, actor: int, user: int)
    | Leave(c: int, user: int)
    | Promote(c: int, actor: int, moderate: bool, user: int)
    | Demote(c: int, actor: int, moderate: bool, user: int)
    | Transfer(c: int, actor: int, target: int)
    | AcceptLink(c: int, user: int)

  type Channels = map<int, Channel>

  // ----- the checks -----

  predicate OwnedPrivate(ch: Channel, user: int) {
    ch.kind.Private? && ch.owner == Some(user)
  }

  predicate Check(s: Channels, op: Op) {
    match op
    case CreatePrivate(c, _) => c !in s
    case OpenDirect(c, user, other) => user != other
    case CreatePublic(c) => c !in s
    case Invite(c, actor, _) => c in s && OwnedPrivate(s[c], actor)
    case Expel(c, actor, _) => c in s && OwnedPrivate(s[c], actor)
    case Leave(c, user) =>
      && c in s && user in s[c].members && !s[c].kind.Public?
      && s[c].owner != Some(user) && !s[c].members[user].Owner?
    case Promote(c, actor, moderate, _) => c in s && (moderate || OwnedPrivate(s[c], actor))
    case Demote(c, actor, moderate, _) => c in s && (moderate || OwnedPrivate(s[c], actor))
    case Transfer(c, actor, target) =>
      c in s && s[c].owner == Some(actor) && target != actor && target in s[c].members
    case AcceptLink(c, _) => c in s
  }

  // ----- the writes, as SQL leaves them whatever the state then is -----

  function SetRole(ch: Channel, user: int, role: Role): Channel {
    if user in ch.members then ch.(members := ch.members[user := role]) else ch
  }

  /** INSERT ... ON CONFLICT DO NOTHING, and the invite link's insert guarded by its membership read. */
  function AddMember(ch: Channel, user: int): Channel {
    if user in ch.members then ch else ch.(members := ch.members[user := Member])
  }

  function TransferTo(ch: Channel, actor: int, target: int): Channel {
    SetRole(SetRole(ch.(owner := Some(target)), actor, Moderator), target, Owner)
  }

  function WriteChannel(ch: Channel, op: Op): Channel {
    match op
    case CreatePrivate(_, _) => ch
    case CreatePublic(_) => ch
    case OpenDirect(_, user, other) => if ch.kind.Direct? then AddMember(AddMember(ch, user), other) else ch
    case Invite(_, _, user) => AddMember(ch, user)
    case Expel(_, _, user) =>
      if user in ch.members && !ch.members[user].Owner? then ch.(members := ch.members - {user}) else ch
    case Leave(_, user) => ch.(members := ch.members - {user})
    case Promote(_, _, _, user) =>
      if user in ch.members && ch.members[user].Member? then SetRole(ch, user, Moderator) else ch
    case Demote(_, _, _, user) =>
      if user in ch.members && ch.members[user].Moderator? then SetRole(ch, user, Member) else ch
    case Transfer(_, actor, target) => TransferTo(ch, actor, target)
    case AcceptLink(_, user) => AddMember(ch, user)
  }

  function NewChannel(op: Op): Option<Channel> {
    match op
    case CreatePrivate(_, user) => Some(Channel(Private, Some(user), map[user := Owner]))
    case CreatePublic(_) => Some(Channel(Public, None, map[]))
    case OpenDirect(_, user, other) => Some(Channel(Direct, None, map[user := Member, other := Member]))
    case _ => None
  }

  /** Inserting a channel that exists changes nothing but, for a direct one, its members. */
  function Write(s: Channels, op: Op): Channels {
    if op.c in s then s[op.c := WriteChannel(s[op.c], op)]
    else if NewChannel(op).Some? then s[op.c := NewChannel(op).value]
    else s
  }

  // ----- who may do what, and what it does -----

  function RoleOf(ch: Channel, user: int): Option<Role> {
    if user in ch.members then Some(ch.members[user]) else None
  }

  /** Whom each handler lets through. */
  lemma ChecksDemand(s: Channels, op: Op)
    ensures op.Invite? || op.Expel? ==>
              (Check(s, op) <==> op.c in s && s[op.c].kind == Private && s[op.c].owner == Some(op.actor))
    ensures op.Promote? || op.Demote? ==>
              (Check(s, op) <==>
               op.c in s && (op.moderate || (s[op.c].kind == Private && s[op.c].owner == Some(op.actor))))
    ensures op.Transfer? ==>
              (Check(s, op) <==> op.c in s && s[op.c].owner == Some(op.actor) && op.target != op.actor
                                 && RoleOf(s[op.c], op.target) != None)
    ensures op.Leave? ==>
              (Check(s, op) <==> op.c in s && s[op.c].kind != Public && s[op.c].owner != Some(op.user)
                                 && RoleOf(s[op.c], op.user) != None && RoleOf(s[op.c], op.user) != Some(Owner))
    ensures op.AcceptLink? ==> (Check(s, op) <==> op.c in s)
    ensures op.CreatePrivate? || op.CreatePublic? ==> (Check(s, op) <==> op.c !in s)
  {
  }

  /** What a handler's write does to a member's role, whatever the channel looks like then. */
  function RoleAfter(op: Op, user: int, was: Option<Role>): Option<Role> {
    match op
    case Invite(_, _, u) => if user == u && was == None then Some(Member) else was
    case AcceptLink(_, u) => if user == u && was == None then Some(Member) else was
    case Expel(_, _, u) => if user == u && was != Some(Owner) then None else was
    case Leave(_, u) => if user == u then None else was
    case Promote(_, _, _, u) => if user == u && was == Some(Member) then Some(Moderator) else was
    case Demote(_, _, _, u) => if user == u && was == Some(Moderator) then Some(Member) else was
    case Transfer(_, actor, target) =>
      if was == None then None else if user == target then Some(Owner)
      else if user == actor then Some(Moderator) else was
    case OpenDirect(_, u, v) => if (user == u || user == v) && was == None then Some(Member) else was
    case _ => was
  }

  /**
   A write to an existing channel changes roles as said and nothing else but, by a transfer, the recorded
   owner; no other channel changes. An opened direct conversation gains members only if it is one.
   */
  lemma WriteDoes(s: Channels, op: Op, user: int)
    requires op.c in s
    ensures op.c in Write(s, op) && Write(s, op) - {op.c} == s - {op.c} && Write(s, op)[op.c].kind == s[op.c].kind
    ensures Write(s, op)[op.c].owner == if op.Transfer? then Some(op.target) else s[op.c].owner
    ensures RoleOf(Write(s, op)[op.c], user)
            == if op.OpenDirect? && s[op.c].kind != Direct then RoleOf(s[op.c], user)
               else RoleAfter(op, user, RoleOf(s[op.c], user))
  {
  }

  /** A new channel starts with its creator as owner, with nobody, or with the two of a direct conversation. */
  lemma CreateDoes(s: Channels, op: Op, user: int)
    requires op.c !in s
    ensures Write(s, op) - {op.c} == s
    ensures op.c in Write(s, op) <==> op.CreatePrivate? || op.CreatePublic? || op.OpenDirect?
    ensures op.CreatePrivate? ==>
              && Write(s, op)[op.c].kind == Private && Write(s, op)[op.c].owner == Some(op.user)
              && RoleOf(Write(s, op)[op.c], user) == if user == op.user then Some(Owner) else None
    ensures op.CreatePublic? ==> Write(s, op)[op.c].kind == Public && RoleOf(Write(s, op)[op.c], user) == None
    ensures op.OpenDirect? ==>
              && Write(s, op)[op.c].kind == Direct && Write(s, op)[op.c].owner == None
              && RoleOf(Write(s, op)[op.c], user) == if user == op.user || user == op.other then Some(Member) else None
  {
  }

  // ----- the invariant -----

  /** A private channel has exactly one member with role owner, its owner_user_id; other kinds have none. */
  ghost predicate OneOwner(ch: Channel) {
    if ch.kind.Private? then
      && ch.owner.Some? && ch.owner.value in ch.members
      && forall u :: u in ch.members ==> (ch.members[u].Owner? <==> u == ch.owner.value)
    else ch.owner.None? && forall u :: u in ch.members ==> !ch.members[u].Owner?
  }

  ghost predicate Sound(s: Channels) {
    forall c :: c in s ==> OneOwner(s[c])
  }

  /** What must still hold when a handler writes. */
  predicate Safe(s: Channels, op: Op) {
    op.c in s ==>
      match op
      case Leave(c, user) => s[c].owner != Some(user)
      case Transfer(c, actor, target) =>
        s[c].kind.Private? && target in s[c].members && (s[c].owner == Some(actor) || s[c].owner == Some(target))
      case _ => true
  }

  /** A transfer is safe exactly when its target is a member and the owner is still the actor, or already the target. */
  lemma TransferKeepsIff(ch: Channel, actor: int, target: int)
    requires OneOwner(ch) && actor != target
    ensures OneOwner(TransferTo(ch, actor, target))
            <==> ch.kind.Private? && target in ch.members && (ch.owner == Some(actor) || ch.owner == Some(target))
  {
    var ch' := TransferTo(ch, actor, target);
    if ch.kind.Private? && target in ch.members && ch.owner != Some(actor) && ch.owner != Some(target) {
      var o := ch.owner.value;
      assert o in ch'.members && ch'.members[o].Owner? && ch'.owner == Some(target);
    }
  }

  lemma LeaveKeepsIff(ch: Channel, user: int)
    requires OneOwner(ch)
    ensures OneOwner(ch.(members := ch.members - {user})) <==> ch.owner != Some(user)
  {
  }

  /**
   From a sound state, a handler's write keeps every channel sound exactly when it is safe then;
   only a transfer and a leave can be unsafe, however stale the check.
   */
  lemma WriteKeepsIff(s: Channels, op: Op)
    requires Sound(s)
    requires op.Transfer? ==> op.actor != op.target
    requires op.OpenDirect? ==> op.user != op.other
    ensures Sound(Write(s, op)) <==> Safe(s, op)
  {
    var s' := Write(s, op);
    if op.c in s {
      var ch := s[op.c];
      if op.Transfer? {
        TransferKeepsIff(ch, op.actor, op.target);
      } else if op.Leave? {
        LeaveKeepsIff(ch, op.user);
      }
      assert Sound(s') <==> OneOwner(s'[op.c]) by {
        assert forall c :: c in s' && c != op.c ==> s'[c] == s[c];
      }
    }
  }

  /** A check that holds at the moment of the write makes the write safe. */
  lemma CheckedIsSafe(s: Channels, op: Op)
    requires Sound(s) && Check(s, op)
    ensures Safe(s, op)
  {
  }

  // ----- runs -----

  /** started holds the handlers that have passed their check and not written yet. */
  datatype State = State(channels: Channels, started: map<int, Op>)

  datatype Action = Start(h: int, op: Op) | Finish(h: int) | Drop(h: int)

  predicate Enabled(s: State, a: Action) {
    match a
    case Start(h, op) => h !in s.started && Check(s.channels, op)
    case Finish(h) => h in s.started
    case Drop(h) => h in s.started
  }

  function Apply(s: State, a: Action): State
    requires Enabled(s, a)
  {
    match a
    case Start(h, op) => s.(started := s.started[h := op])
    case Finish(h) => State(Write(s.channels, s.started[h]), s.started - {h})
    case Drop(h) => s.(started := s.started - {h})
  }

  /** A handler that passed its check may write at any later time, or stop without writing. */
  lemma HandlerSteps(s: State, h: int, op: Op)
    ensures h !in s.started && Check(s.channels, op) ==>
              Enabled(s, Start(h, op)) && Apply(s, Start(h, op)) == s.(started := s.started[h := op])
    ensures h in s.started ==>
              && Enabled(s, Finish(h)) && Apply(s, Finish(h)) == State(Write(s.channels, s.started[h]), s.started - {h})
              && Enabled(s, Drop(h)) && Apply(s, Drop(h)) == State(s.channels, s.started - {h})
  {
  }

  ghost predicate IsRun(states: seq<State>, actions: seq<Action>) {
    && |states| == |actions| + 1
    && states[0] == State(map[], map[])
    && forall i :: 0 <= i < |actions| ==>
         Enabled(states[i], actions[i]) && states[i + 1] == Apply(states[i], actions[i])
  }

  ghost predicate WellFormed(s: State) {
    forall h :: h in s.started ==>
      && (s.started[h].Transfer? ==> s.started[h].actor != s.started[h].target)
      && (s.started[h].OpenDirect? ==> s.started[h].user != s.started[h].other)
  }

  lemma {:induction false} RunWellFormed(states: seq<State>, actions: seq<Action>, i: nat)
    requires IsRun(states, actions) && i < |states|
    ensures WellFormed(states[i])
  {
    if i != 0 {
      RunWellFormed(states, actions, i - 1);
    }
  }

  predicate SafeStep(s: State, a: Action) {
    a.Finish? && a.h in s.started ==> Safe(s.channels, s.started[a.h])
  }

  lemma {:induction false} SoundWhileSafe(states: seq<State>, actions: seq<Action>, i: nat)
    requires IsRun(states, actions) && i < |states|
    requires forall t :: 0 <= t < i ==> SafeStep(states[t], actions[t])
    ensures Sound(states[i].channels)
  {
    if i != 0 {
      SoundWhileSafe(states, actions, i - 1);
      RunWellFormed(states, actions, i - 1);
      if actions[i - 1].Finish? {
        WriteKeepsIff(states[i - 1].channels, states[i - 1].started[actions[i - 1].h]);
      }
    }
  }

  /** Over any interleaving, ownership is sound throughout exactly when every write is safe when it happens. */
  lemma SoundIffSafe(states: seq<State>, actions: seq<Action>, i: nat)
    requires IsRun(states, actions) && i < |states|
    ensures (forall t :: 0 <= t <= i ==> Sound(states[t].channels)) <==>
            (forall t :: 0 <= t < i ==> SafeStep(states[t], actions[t]))
  {
    if forall t :: 0 <= t < i ==> SafeStep(states[t], actions[t]) {
      forall t | 0 <= t <= i ensures Sound(states[t].channels) {
        SoundWhileSafe(states, actions, t);
      }
    }
    if forall t :: 0 <= t <= i ==> Sound(states[t].channels) {
      forall t | 0 <= t < i ensures SafeStep(states[t], actions[t]) {
        RunWellFormed(states, actions, t);
        assert Sound(states[t + 1].channels);
        if actions[t].Finish? {
          WriteKeepsIff(states[t].channels, states[t].started[actions[t].h]);
        }
      }
    }
  }

  /** Each write directly follows its own check. */
  ghost predicate Serial(actions: seq<Action>) {
    forall t :: 0 <= t < |actions| && actions[t].Finish? ==>
      t > 0 && actions[t - 1].Start? && actions[t - 1].h == actions[t].h
  }

  /** In every serial run each private channel has exactly one owner member, the recorded owner. */
  lemma {:induction false} SerialRunsAreSound(states: seq<State>, actions: seq<Action>, i: nat)
    requires IsRun(states, actions) && i < |states| && Serial(actions)
    ensures Sound(states[i].channels)
  {
    if i != 0 {
      SerialRunsAreSound(states, actions, i - 1);
      RunWellFormed(states, actions, i - 1);
      if actions[i - 1].Finish? {
        assert states[i - 1] == Apply(states[i - 2], actions[i - 2]);
        CheckedIsSafe(states[i - 1].channels, actions[i - 2].op);
        WriteKeepsIff(states[i - 1].channels, states[i - 1].started[actions[i - 1].h]);
      }
    }
  }

  // ----- the run that breaks it -----

  const ALICE := 1
  const BOB := 2
  const CAROL := 3

  const RACE: seq<Action> := [
    Start(0, CreatePrivate(9, ALICE)), Finish(0), Start(0, Invite(9, ALICE, BOB)), Finish(0),
    Start(0, Invite(9, ALICE, CAROL)), Finish(0),
    Start(1, Transfer(9, ALICE, BOB)), Start(2, Transfer(9, ALICE, CAROL)), Finish(1), Finish(2)]

  function RaceState(i: nat): State {
    var one := Channel(Private, Some(ALICE), map[ALICE := Owner]);
    var two := one.(members := map[ALICE := Owner, BOB := Member]);
    var three := one.(members := map[ALICE := Owner, BOB := Member, CAROL := Member]);
    var toBob := Channel(Private, Some(BOB), map[ALICE := Moderator, BOB := Owner, CAROL := Member]);
    var toBoth := Channel(Private, Some(CAROL), map[ALICE := Moderator, BOB := Owner, CAROL := Owner]);
    if i == 0 then State(map[], map[])
    else if i == 1 then State(map[], map[0 := CreatePrivate(9, ALICE)])
    else if i == 2 then State(map[9 := one], map[])
    else if i == 3 then State(map[9 := one], map[0 := Invite(9, ALICE, BOB)])
    else if i == 4 then State(map[9 := two], map[])
    else if i == 5 then State(map[9 := two], map[0 := Invite(9, ALICE, CAROL)])
    else if i == 6 then State(map[9 := three], map[])
    else if i == 7 then State(map[9 := three], map[1 := Transfer(9, ALICE, BOB)])
    else if i == 8 then State(map[9 := three], map[1 := Transfer(9, ALICE, BOB), 2 := Transfer(9, ALICE, CAROL)])
    else if i == 9 then State(map[9 := toBob], map[2 := Transfer(9, ALICE, CAROL)])
    else State(map[9 := toBoth], map[])
  }

  lemma RaceStep(i: nat)
    requires i < 10
    ensures Enabled(RaceState(i), RACE[i]) && Apply(RaceState(i), RACE[i]) == RaceState(i + 1)
  {
    var s' := Apply(RaceState(i), RACE[i]);
    assert s'.started == RaceState(i + 1).started;
    if i == 1 || i == 3 || i == 5 || i == 8 || i == 9 {
      assert s'.channels[9].members == RaceState(i + 1).channels[9].members;
      assert s'.channels == RaceState(i + 1).channels;
    }
  }

  /** Two transfers checked before either writes leave a channel with two owners. */
  lemma RacingTransfersMakeTwoOwners() returns (states: seq<State>)
    ensures IsRun(states, RACE)
    ensures 9 in states[10].channels
    ensures var members := states[10].channels[9].members;
            BOB in members && CAROL in members && members[BOB].Owner? && members[CAROL].Owner?
  {
    states := seq(11, i requires 0 <= i < 11 => RaceState(i));
    forall i | 0 <= i < |RACE| ensures Enabled(states[i], RACE[i]) && states[i + 1] == Apply(states[i], RACE[i]) {
      RaceStep(i);
    }
  }
}
