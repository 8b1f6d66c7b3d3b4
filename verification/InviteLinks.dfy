/**
 Accepting invite links. Each accept is a transaction: it locks the link row, reads it, looks for an
 existing membership, inserts one and counts the use; direct invites and removals commit in between.
 The membership primary key makes a second writer of the same membership wait for the first, and an
 insert of a membership that has been committed meanwhile fails and rolls everything back.
 */
module InviteLinks {
  import opened ChatTypes

  /** maxUses 0 means unlimited. */
  datatype Link = Link(channel: int, maxUses: nat, uses: nat, expiresAt: Option<int>)

  datatype Step = Locked | KnownMember | NotMember | Inserted | Counted

  datatype Tx = Tx(link: int, user: int, step: Step)

  /** grants lists, in commit order, which link let which user in. */
  datatype State = State(links: map<int, Link>, members: set<(int, int)>, txs: map<int, Tx>, grants: seq<(int, int)>)

  datatype Action =
    | CreateLink(l: int, link: Link)
    | Lock(x: int, l: int, user: int, now: int)
    | LookUp(x: int)
    | InsertMember(x: int)
    | CountUse(x: int)
    | Commit(x: int)
    | Rollback(x: int)
    | Invite(channel: int, user: int)
    | Expel(channel: int, user: int)

  const EMPTY := State(map[], {}, map[], [])

  function Membership(s: State, t: Tx): (int, int)
    requires t.link in s.links
  {
    (s.links[t.link].channel, t.user)
  }

  predicate Writing(t: Tx) {
    t.step.Inserted? || t.step.Counted?
  }

  /** Some open transaction has an uncommitted insert of this membership. */
  predicate Pending(s: State, m: (int, int)) {
    exists x :: x in s.txs && Writing(s.txs[x]) && s.txs[x].link in s.links && Membership(s, s.txs[x]) == m
  }

  predicate Expired(link: Link, now: int) {
    link.expiresAt.Some? && link.expiresAt.value <= now
  }

  predicate Exhausted(link: Link) {
    link.maxUses > 0 && link.uses >= link.maxUses
  }

  predicate At(s: State, x: int, step: Step) {
    x in s.txs && s.txs[x].step == step && s.txs[x].link in s.links
  }

  predicate Enabled(s: State, a: Action) {
    match a
    case CreateLink(l, link) => l !in s.links && link.uses == 0
    case Lock(x, l, user, now) =>
      && x !in s.txs && l in s.links && (forall y :: y in s.txs ==> s.txs[y].link != l)
      && !Expired(s.links[l], now) && !Exhausted(s.links[l])
    case LookUp(x) => At(s, x, Locked)
    case InsertMember(x) => At(s, x, NotMember) && !Pending(s, Membership(s, s.txs[x]))
    case CountUse(x) => At(s, x, Inserted)
    case Commit(x) => At(s, x, KnownMember) || At(s, x, Counted)
    case Rollback(x) => x in s.txs
    case Invite(channel, user) => !Pending(s, (channel, user))
    case Expel(_, _) => true
  }

  function SetStep(s: State, x: int, step: Step): State
    requires x in s.txs
  {
    s.(txs := s.txs[x := s.txs[x].(step := step)])
  }

  function Apply(s: State, a: Action): State
    requires Enabled(s, a)
  {
    match a
    case CreateLink(l, link) => s.(links := s.links[l := link])
    case Lock(x, l, user, _) => s.(txs := s.txs[x := Tx(l, user, Locked)])
    case LookUp(x) => SetStep(s, x, if Membership(s, s.txs[x]) in s.members then KnownMember else NotMember)
    case InsertMember(x) =>
      if Membership(s, s.txs[x]) in s.members then s.(txs := s.txs - {x}) else SetStep(s, x, Inserted)
    case CountUse(x) => SetStep(s, x, Counted)
    case Commit(x) =>
      var t := s.txs[x];
      if t.step.KnownMember? then s.(txs := s.txs - {x})
      else
        s.(txs := s.txs - {x}, members := s.members + {Membership(s, t)}, grants := s.grants + [(t.link, t.user)],
           links := s.links[t.link := s.links[t.link].(uses := s.links[t.link].uses + 1)])
    case Rollback(x) => s.(txs := s.txs - {x})
    case Invite(channel, user) => s.(members := s.members + {(channel, user)})
    case Expel(channel, user) => s.(members := s.members - {(channel, user)})
  }

  ghost predicate IsRun(states: seq<State>, actions: seq<Action>) {
    && |states| == |actions| + 1
    && states[0] == EMPTY
    && forall i :: 0 <= i < |actions| ==>
         Enabled(states[i], actions[i]) && states[i + 1] == Apply(states[i], actions[i])
  }

  // ----- invariant -----

  function Granted(grants: seq<(int, int)>, l: int): nat {
    if grants == [] then 0 else (if grants[|grants| - 1].0 == l then 1 else 0) + Granted(grants[..|grants| - 1], l)
  }

  /** An open transaction owns its link row, and the row still has a use left for it. */
  ghost predicate LocksHeld(s: State) {
    && (forall x :: x in s.txs ==> s.txs[x].link in s.links && !Exhausted(s.links[s.txs[x].link]))
    && (forall x, y :: x in s.txs && y in s.txs && x != y ==> s.txs[x].link != s.txs[y].link)
  }

  /** A membership being inserted is not committed, and only one transaction inserts it. */
  ghost predicate InsertsExclusive(s: State) {
    && (forall x :: x in s.txs && Writing(s.txs[x]) && s.txs[x].link in s.links ==>
          Membership(s, s.txs[x]) !in s.members)
    && (forall x, y :: x in s.txs && y in s.txs && x != y && Writing(s.txs[x]) && Writing(s.txs[y])
                       && s.txs[x].link in s.links && s.txs[y].link in s.links ==>
          Membership(s, s.txs[x]) != Membership(s, s.txs[y]))
  }

  ghost predicate UsesCounted(s: State) {
    forall l :: l in s.links ==>
      s.links[l].uses == Granted(s.grants, l) && (s.links[l].maxUses > 0 ==> s.links[l].uses <= s.links[l].maxUses)
  }

  ghost predicate Inv(s: State) {
    && LocksHeld(s) && InsertsExclusive(s) && UsesCounted(s)
    && forall i :: 0 <= i < |s.grants| ==> s.grants[i].0 in s.links
  }

  lemma {:induction false} NoGrants(grants: seq<(int, int)>, l: int)
    requires forall i :: 0 <= i < |grants| ==> grants[i].0 != l
    ensures Granted(grants, l) == 0
  {
    if grants != [] {
      NoGrants(grants[..|grants| - 1], l);
    }
  }

  lemma CommitKeeps(s: State, a: Action)
    requires Inv(s) && Enabled(s, a) && a.Commit? && !s.txs[a.x].step.KnownMember?
    ensures Inv(Apply(s, a))
  {
    var s' := Apply(s, a);
    assert s'.grants[..|s.grants|] == s.grants;
    assert forall y :: y in s'.txs ==> y != a.x && s'.txs[y] == s.txs[y];
    assert forall y :: y in s'.txs ==> Membership(s', s'.txs[y]) == Membership(s, s.txs[y]);
  }

  lemma InsertKeeps(s: State, a: Action)
    requires Inv(s) && Enabled(s, a) && a.InsertMember?
    ensures Inv(Apply(s, a))
  {
    var s' := Apply(s, a);
    forall y | y in s.txs && y != a.x && Writing(s.txs[y])
      ensures Membership(s, s.txs[y]) != Membership(s, s.txs[a.x])
    {
      assert !Pending(s, Membership(s, s.txs[a.x]));
    }
  }

  lemma InviteKeeps(s: State, a: Action)
    requires Inv(s) && Enabled(s, a) && a.Invite?
    ensures Inv(Apply(s, a))
  {
    forall x | x in s.txs && Writing(s.txs[x]) ensures Membership(s, s.txs[x]) != (a.channel, a.user) {
      assert !Pending(s, (a.channel, a.user));
    }
  }

  lemma StepKeeps(s: State, a: Action)
    requires Inv(s) && Enabled(s, a)
    ensures Inv(Apply(s, a))
  {
    match a
    case Commit(x) => if !s.txs[x].step.KnownMember? { CommitKeeps(s, a); }
    case InsertMember(_) => InsertKeeps(s, a);
    case Invite(_, _) => InviteKeeps(s, a);
    case CreateLink(l, _) => NoGrants(s.grants, l);
    case _ =>
  }

  lemma {:induction false} RunKeeps(states: seq<State>, actions: seq<Action>, i: nat)
    requires IsRun(states, actions) && i < |states|
    ensures Inv(states[i])
  {
    if i != 0 {
      RunKeeps(states, actions, i - 1);
      StepKeeps(states[i - 1], actions[i - 1]);
    }
  }

  /**
   Over every interleaving of accepts, invites, removals and rollbacks, a link's uses are exactly
   the memberships it granted and never exceed a positive max_uses.
   */
  lemma UsesAreGrants(states: seq<State>, actions: seq<Action>, i: nat, l: int)
    requires IsRun(states, actions) && i < |states| && l in states[i].links
    ensures states[i].links[l].uses == Granted(states[i].grants, l)
    ensures states[i].links[l].maxUses > 0 ==> states[i].links[l].uses <= states[i].links[l].maxUses
  {
    RunKeeps(states, actions, i);
  }

  /**
   Any step that changes a link's uses is one commit: it adds exactly one use, and the user it lets
   in was not a member before and is one after.
   */
  lemma UseBuysAMembership(states: seq<State>, actions: seq<Action>, i: nat, l: int)
    requires IsRun(states, actions) && i < |actions| && l in states[i].links
    requires l in states[i + 1].links && states[i + 1].links[l].uses != states[i].links[l].uses
    ensures actions[i].Commit? && actions[i].x in states[i].txs
    ensures var t := states[i].txs[actions[i].x];
            && t.link == l
            && states[i + 1].links[l] == states[i].links[l].(uses := states[i].links[l].uses + 1)
            && (states[i].links[l].channel, t.user) !in states[i].members
            && states[i + 1].members == states[i].members + {(states[i].links[l].channel, t.user)}
  {
    RunKeeps(states, actions, i);
  }

  // ----- one accept -----

  /** A link lets a transaction in exactly when it is unlocked, not past its expiry and has a use left. */
  lemma LockIff(s: State, x: int, l: int, user: int, now: int)
    requires x !in s.txs && l in s.links
    ensures Enabled(s, Lock(x, l, user, now)) <==>
            && (forall y :: y in s.txs ==> s.txs[y].link != l)
            && (s.links[l].expiresAt == None || now < s.links[l].expiresAt.value)
            && (s.links[l].maxUses == 0 || s.links[l].uses < s.links[l].maxUses)
  {
  }

  ghost predicate IsPath(states: seq<State>, actions: seq<Action>) {
    && |states| == |actions| + 1
    && forall i :: 0 <= i < |actions| ==>
         Enabled(states[i], actions[i]) && states[i + 1] == Apply(states[i], actions[i])
  }

  /** An accept by a newcomer whom nobody else is letting in: one membership, one use, one grant. */
  lemma AcceptLetsIn(s: State, x: int, l: int, user: int, now: int) returns (states: seq<State>)
    requires Enabled(s, Lock(x, l, user, now))
    requires (s.links[l].channel, user) !in s.members && !Pending(s, (s.links[l].channel, user))
    ensures IsPath(states, [Lock(x, l, user, now), LookUp(x), InsertMember(x), CountUse(x), Commit(x)])
    ensures states[0] == s && states[5].txs == s.txs && states[5].members == s.members + {(s.links[l].channel, user)}
    ensures states[5].links == s.links[l := s.links[l].(uses := s.links[l].uses + 1)]
    ensures states[5].grants == s.grants + [(l, user)]
  {
    var s1 := Apply(s, Lock(x, l, user, now));
    var s2 := Apply(s1, LookUp(x));
    NoneInserting(s, s2, x, (s.links[l].channel, user));
    var s3 := Apply(s2, InsertMember(x));
    var s4 := Apply(s3, CountUse(x));
    states := [s, s1, s2, s3, s4, Apply(s4, Commit(x))];
    assert states[5].txs == s.txs;
  }

  lemma NoneInserting(s: State, s': State, x: int, m: (int, int))
    requires !Pending(s, m) && x !in s.txs && x in s'.txs && s'.txs == s.txs[x := s'.txs[x]] && s'.links == s.links
    requires !Writing(s'.txs[x])
    ensures !Pending(s', m)
  {
    forall y | y in s'.txs && Writing(s'.txs[y]) && s'.txs[y].link in s'.links ensures Membership(s', s'.txs[y]) != m {
      assert y in s.txs && s'.txs[y] == s.txs[y];
    }
  }

  /** An accept by a member changes neither memberships nor the link. */
  lemma AcceptByMember(s: State, x: int, l: int, user: int, now: int) returns (states: seq<State>)
    requires Enabled(s, Lock(x, l, user, now)) && (s.links[l].channel, user) in s.members
    ensures IsPath(states, [Lock(x, l, user, now), LookUp(x), Commit(x)]) && states[0] == s
    ensures states[3] == s
  {
    var s1 := Apply(s, Lock(x, l, user, now));
    var s2 := Apply(s1, LookUp(x));
    states := [s, s1, s2, Apply(s2, Commit(x))];
    assert states[3].txs == s.txs;
  }

  /** A rolled back accept leaves nothing; a direct invite or a removal touches one membership and no link. */
  lemma OtherStepsDo(s: State, a: Action)
    requires Enabled(s, a)
    ensures forall x :: x in s.txs ==> Enabled(s, Rollback(x))
    ensures forall ch, u :: Enabled(s, Expel(ch, u)) && (Enabled(s, Invite(ch, u)) <==> !Pending(s, (ch, u)))
    ensures forall l, link: Link :: l !in s.links && link.uses == 0 ==> Enabled(s, CreateLink(l, link))
    ensures a.Rollback? ==> Apply(s, a) == s.(txs := s.txs - {a.x})
    ensures a.Invite? ==> Apply(s, a) == s.(members := s.members + {(a.channel, a.user)})
    ensures a.Expel? ==> Apply(s, a) == s.(members := s.members - {(a.channel, a.user)})
    ensures a.CreateLink? ==> Apply(s, a) == s.(links := s.links[a.l := a.link])
  {
  }
}
