/**
 The SendMessage arm: look the client id up, insert, and on any insert error look it up again.
 Sends and retries of any number of sockets interleave between these three statements, with edits,
 deletions and channel removals of other users in between, and an insert may commit although its
 caller sees an error. Rows are never removed here (retention is outside this model).
 */
module IdempotentSend {
  import opened ChatTypes

  /** clientId is the request's id with blank ones already dropped. */
  datatype Request = Request(
    session: int, clientId: Option<string>, channel: string, text: string, root: Option<int>, files: seq<int>)

  datatype Row = Row(request: Request, text: string, deleted: bool)

  datatype Outcome = Sent(id: int) | Rejected | Failed

  datatype Phase =
    | Checking
    | Inserting(id: int)
    | Rechecking(id: int)
    | Done(outcome: Outcome)

  datatype Send = Send(request: Request, phase: Phase)

  /** used holds every id ever generated. */
  datatype State = State(rows: map<int, Row>, sends: map<int, Send>, used: set<int>, removed: set<string>)

  datatype Action =
    | Begin(p: int, request: Request)
    | Check(p: int, found: Option<int>, listed: seq<int>, id: int)
    | Insert(p: int, committed: bool, heard: bool)
    | Recheck(p: int, found: Option<int>, listed: seq<int>)
    | Edit(id: int, text: string)
    | Delete(id: int)
    | RemoveChannel(channel: string)
    | RestoreChannel(channel: string)

  const EMPTY := State(map[], map[], {}, {})

  predicate HasKey(row: Row, session: int, clientId: string) {
    row.request.session == session && row.request.clientId == Some(clientId)
  }

  /** find_message_by_client_id answers a row with the key in a live channel, or nothing when there is none. */
  predicate Answers(s: State, session: int, clientId: string, found: Option<int>) {
    match found
    case Some(id) => id in s.rows && HasKey(s.rows[id], session, clientId) && s.rows[id].request.channel !in s.removed
    case None => forall id :: id in s.rows && HasKey(s.rows[id], session, clientId) ==>
      s.rows[id].request.channel in s.removed
  }

  /** The row as read, with its file ids in whatever order the subselect lists them, equals the request. */
  predicate Matches(row: Row, listed: seq<int>, r: Request) {
    && row.request.channel == r.channel && ShownText(row) == r.text
    && row.request.root == r.root && listed == r.files
  }

  function ShownText(row: Row): string {
    if row.deleted then "" else row.text
  }

  predicate Conflicts(s: State, r: Request) {
    r.clientId.Some? && exists id :: id in s.rows && HasKey(s.rows[id], r.session, r.clientId.value)
  }

  predicate Listing(s: State, found: Option<int>, listed: seq<int>) {
    found.Some? ==> found.value in s.rows && multiset(listed) == multiset(s.rows[found.value].request.files)
  }

  predicate Enabled(s: State, a: Action) {
    match a
    case Begin(p, _) => p !in s.sends
    case Check(p, found, listed, id) =>
      && p in s.sends && s.sends[p].phase.Checking? && id !in s.used
      && Listing(s, found, listed)
      && (match s.sends[p].request.clientId
          case Some(c) => Answers(s, s.sends[p].request.session, c, found)
          case None => found.None?)
    case Insert(p, committed, heard) =>
      && p in s.sends && s.sends[p].phase.Inserting?
      && (committed ==> !Conflicts(s, s.sends[p].request) && s.sends[p].request.channel !in s.removed)
      && (heard ==> committed)
    case Recheck(p, found, listed) =>
      && p in s.sends && s.sends[p].phase.Rechecking?
      && Listing(s, found, listed)
      && (match s.sends[p].request.clientId
          case Some(c) => Answers(s, s.sends[p].request.session, c, found)
          case None => found.None?)
    case Edit(id, _) => id in s.rows
    case Delete(id) => id in s.rows
    case RemoveChannel(_) => true
    case RestoreChannel(_) => true
  }

  function Judge(s: State, r: Request, found: int, listed: seq<int>): Outcome
    requires found in s.rows
  {
    if Matches(s.rows[found], listed, r) then Sent(found) else Rejected
  }

  function Move(s: State, p: int, phase: Phase): State
    requires p in s.sends
  {
    s.(sends := s.sends[p := s.sends[p].(phase := phase)])
  }

  function Apply(s: State, a: Action): State
    requires Enabled(s, a)
  {
    match a
    case Begin(p, r) => s.(sends := s.sends[p := Send(r, Checking)])
    case Check(p, found, listed, id) =>
      if found.Some? then Move(s, p, Done(Judge(s, s.sends[p].request, found.value, listed)))
      else Move(s, p, Inserting(id)).(used := s.used + {id})
    case Insert(p, committed, heard) =>
      var r := s.sends[p].request;
      var id := s.sends[p].phase.id;
      Move(s, p, if heard then Done(Sent(id)) else Rechecking(id))
        .(rows := if committed then s.rows[id := Row(r, r.text, false)] else s.rows)
    case Recheck(p, found, listed) =>
      Move(s, p, Done(if found.Some? then Judge(s, s.sends[p].request, found.value, listed) else Failed))
    case Edit(id, text) => s.(rows := s.rows[id := s.rows[id].(text := text)])
    case Delete(id) => s.(rows := s.rows[id := s.rows[id].(deleted := true)])
    case RemoveChannel(c) => s.(removed := s.removed + {c})
    case RestoreChannel(c) => s.(removed := s.removed - {c})
  }

  ghost predicate IsRun(states: seq<State>, actions: seq<Action>) {
    && |states| == |actions| + 1
    && states[0] == EMPTY
    && forall i :: 0 <= i < |actions| ==>
         Enabled(states[i], actions[i]) && states[i + 1] == Apply(states[i], actions[i])
  }

  // ----- invariant -----

  predicate SameKey(a: Request, b: Request) {
    a.clientId.Some? && a.session == b.session && a.clientId == b.clientId
  }

  ghost predicate OneRowPerKey(s: State) {
    forall a, b :: a in s.rows && b in s.rows && SameKey(s.rows[a].request, s.rows[b].request) ==> a == b
  }

  /** Two requests say the same thing as far as no edit can change it. */
  ghost predicate SameEnvelope(a: Request, b: Request) {
    a.session == b.session && a.clientId == b.clientId && a.channel == b.channel && a.root == b.root
    && multiset(a.files) == multiset(b.files)
  }

  ghost predicate Succeeded(s: State, p: int) {
    p in s.sends && s.sends[p].phase.Done? && s.sends[p].phase.outcome.Sent?
  }

  function SentId(s: State, p: int): int
    requires Succeeded(s, p)
  {
    s.sends[p].phase.outcome.id
  }

  ghost predicate SuccessesStored(s: State) {
    forall p :: Succeeded(s, p) ==>
      SentId(s, p) in s.rows && SameEnvelope(s.rows[SentId(s, p)].request, s.sends[p].request)
  }

  ghost predicate IdsFresh(s: State) {
    && s.rows.Keys <= s.used
    && (forall p :: p in s.sends && s.sends[p].phase.Inserting? ==>
          s.sends[p].phase.id in s.used && s.sends[p].phase.id !in s.rows)
    && (forall p, q ::
          p in s.sends && q in s.sends && p != q && s.sends[p].phase.Inserting? && s.sends[q].phase.Inserting? ==>
          s.sends[p].phase.id != s.sends[q].phase.id)
  }

  ghost predicate Inv(s: State) {
    OneRowPerKey(s) && SuccessesStored(s) && IdsFresh(s)
  }

  lemma InsertKeeps(s: State, a: Action)
    requires Inv(s) && Enabled(s, a) && a.Insert?
    ensures Inv(Apply(s, a))
  {
    var s' := Apply(s, a);
    forall p | Succeeded(s', p)
      ensures SentId(s', p) in s'.rows && SameEnvelope(s'.rows[SentId(s', p)].request, s'.sends[p].request)
    {
      assert p == a.p || Succeeded(s, p);
    }
  }

  lemma StepKeeps(s: State, a: Action)
    requires Inv(s) && Enabled(s, a)
    ensures Inv(Apply(s, a))
  {
    if a.Insert? {
      InsertKeeps(s, a);
    } else {
      var s' := Apply(s, a);
      forall p | Succeeded(s', p)
        ensures SentId(s', p) in s'.rows && SameEnvelope(s'.rows[SentId(s', p)].request, s'.sends[p].request)
      {
        assert Succeeded(s, p) || ((a.Check? || a.Recheck?) && p == a.p);
      }
    }
  }

  lemma {:induction false} RunKeeps(states: seq<State>, actions: seq<Action>, i: nat)
    requires IsRun(states, actions) && i < |states|
    ensures Inv(states[i])
  {
    if i != 0 {
      RunKeeps(states, actions, i - 1);
      StepKeeps(states[i - 1], actions[i - 1]);
    }
  }

  /**
   In every run there is at most one row per (session, client id), all successful sends with that
   key name it, and they agree on channel, thread root and files.
   */
  lemma SendsAreIdempotent(states: seq<State>, actions: seq<Action>, i: nat, p: int, q: int)
    requires IsRun(states, actions) && i < |states|
    requires Succeeded(states[i], p) && Succeeded(states[i], q)
    requires SameKey(states[i].sends[p].request, states[i].sends[q].request)
    ensures OneRowPerKey(states[i])
    ensures SentId(states[i], p) == SentId(states[i], q)
    ensures SameEnvelope(states[i].sends[p].request, states[i].sends[q].request)
  {
    RunKeeps(states, actions, i);
  }

  /** At the step where a send succeeds, the stored row shows exactly the request. */
  lemma SuccessMatchedWhenChecked(states: seq<State>, actions: seq<Action>, i: nat, p: int)
    requires IsRun(states, actions) && i < |actions|
    requires Succeeded(states[i + 1], p) && !Succeeded(states[i], p)
    ensures var id := SentId(states[i + 1], p);
            var r := states[i + 1].sends[p].request;
            && id in states[i + 1].rows
            && ShownText(states[i + 1].rows[id]) == r.text
            && SameEnvelope(states[i + 1].rows[id].request, r)
  {
    RunKeeps(states, actions, i + 1);
  }

  // ----- without edits, the text is settled too -----

  ghost predicate TextStored(s: State) {
    && (forall id :: id in s.rows ==> s.rows[id].text == s.rows[id].request.text && !s.rows[id].deleted)
    && (forall p :: Succeeded(s, p) ==>
          SentId(s, p) in s.rows && s.rows[SentId(s, p)].request.text == s.sends[p].request.text)
  }

  lemma TextKept(s: State, a: Action)
    requires TextStored(s) && Enabled(s, a) && !a.Edit? && !a.Delete?
    requires IdsFresh(s)
    ensures TextStored(Apply(s, a))
  {
    var s' := Apply(s, a);
    forall p | Succeeded(s', p)
      ensures SentId(s', p) in s'.rows && s'.rows[SentId(s', p)].request.text == s'.sends[p].request.text
    {
      assert Succeeded(s, p) || ((a.Check? || a.Recheck? || a.Insert?) && p == a.p);
    }
  }

  lemma {:induction false} RunKeepsText(states: seq<State>, actions: seq<Action>, i: nat)
    requires IsRun(states, actions) && i < |states|
    requires forall t :: 0 <= t < i ==> !actions[t].Edit? && !actions[t].Delete?
    ensures TextStored(states[i])
  {
    if i != 0 {
      RunKeepsText(states, actions, i - 1);
      RunKeeps(states, actions, i - 1);
      TextKept(states[i - 1], actions[i - 1]);
    }
  }

  /** Unless somebody edits or deletes, two successes with one key were sends of the same text. */
  lemma SameKeySameText(states: seq<State>, actions: seq<Action>, i: nat, p: int, q: int)
    requires IsRun(states, actions) && i < |states|
    requires forall t :: 0 <= t < i ==> !actions[t].Edit? && !actions[t].Delete?
    requires Succeeded(states[i], p) && Succeeded(states[i], q)
    requires SameKey(states[i].sends[p].request, states[i].sends[q].request)
    ensures states[i].sends[p].request.text == states[i].sends[q].request.text
  {
    SendsAreIdempotent(states, actions, i, p, q);
    RunKeepsText(states, actions, i);
  }

  // ----- what each step of a run does -----

  /** What the others' statements do: an edit changes the text, a deletion hides it, removals hide channels. */
  lemma OtherSteps(s: State, a: Action)
    requires Enabled(s, a) && !LooksUp(a) && !a.Begin? && !a.Insert?
    ensures Apply(s, a).sends == s.sends && Apply(s, a).rows.Keys == s.rows.Keys
    ensures forall id :: id in s.rows ==> Apply(s, a).rows[id].request == s.rows[id].request
    ensures a.Edit? ==> Apply(s, a).rows == s.rows[a.id := s.rows[a.id].(text := a.text)]
    ensures forall id, text :: Enabled(s, Edit(id, text)) <==> id in s.rows
    ensures forall id :: Enabled(s, Delete(id)) <==> id in s.rows
    ensures forall c :: Enabled(s, RemoveChannel(c)) && Enabled(s, RestoreChannel(c))
    ensures a.Delete? ==> ShownText(Apply(s, a).rows[a.id]) == "" && Apply(s, a).rows - {a.id} == s.rows - {a.id}
    ensures a.RemoveChannel? || a.RestoreChannel? ==>
              Apply(s, a).rows == s.rows && (a.channel in Apply(s, a).removed <==> a.RemoveChannel?)
  {
  }

  /** A first look-up that finds nothing leaves the table alone and the send inserting under its new id. */
  lemma MissGoesOn(s: State, p: int, listed: seq<int>, id: int)
    requires Enabled(s, Check(p, None, listed, id))
    ensures var end := Apply(s, Check(p, None, listed, id));
            && end.rows == s.rows && id in end.used
            && end.sends == s.sends[p := Send(s.sends[p].request, Inserting(id))]
  {
  }

  /**
   An insert that commits adds exactly the request's row under the send's id; heard, it ends the send with
   that id; unheard or refused, the send looks its key up again.
   */
  lemma InsertDoes(s: State, p: int, committed: bool, heard: bool)
    requires Enabled(s, Insert(p, committed, heard))
    ensures var end, r, id := Apply(s, Insert(p, committed, heard)), s.sends[p].request, s.sends[p].phase.id;
            && end.rows == (if committed then s.rows[id := Row(r, r.text, false)] else s.rows)
            && end.sends == s.sends[p := Send(r, if heard then Done(Sent(id)) else Rechecking(id))]
  {
  }

  /** The second look-up fails the send exactly when it finds nothing, and changes no row. */
  lemma SecondLookUpFailsIff(s: State, p: int, found: Option<int>, listed: seq<int>)
    requires Enabled(s, Recheck(p, found, listed))
    ensures Apply(s, Recheck(p, found, listed)).rows == s.rows
    ensures Apply(s, Recheck(p, found, listed)).sends[p].phase == Done(Failed) <==> found == None
  {
  }

  ghost predicate IsPath(states: seq<State>, actions: seq<Action>) {
    && |states| == |actions| + 1
    && forall i :: 0 <= i < |actions| ==>
         Enabled(states[i], actions[i]) && states[i + 1] == Apply(states[i], actions[i])
  }

  /** Row k is found for the request, or none is. */
  ghost predicate FindsRow(s: State, r: Request, found: Option<int>) {
    match found
    case Some(k) => LiveHit(s.rows, s.removed, r, k)
    case None => forall k :: !LiveHit(s.rows, s.removed, r, k)
  }

  lemma FoundAnswers(s: State, r: Request, found: Option<int>)
    requires FindsRow(s, r, found)
    ensures r.clientId.Some? ==> Answers(s, r.session, r.clientId.value, found)
    ensures r.clientId.None? ==> found == None
  {
    if r.clientId.Some? && found.None? {
      assert forall k :: k in s.rows && HasKey(s.rows[k], r.session, r.clientId.value) ==>
          !LiveHit(s.rows, s.removed, r, k);
    }
  }

  /** A lone send whose key is stored in a live channel ends at once, by the row as listed, and changes no row. */
  lemma LoneRetry(s: State, p: int, r: Request, k: int, listed: seq<int>, id: int) returns (states: seq<State>)
    requires p !in s.sends && id !in s.used && LiveHit(s.rows, s.removed, r, k)
    requires Lists(listed, s.rows[k].request.files)
    ensures IsPath(states, [Begin(p, r), Check(p, Some(k), listed, id)]) && states[0] == s
    ensures states[2].rows == s.rows && p in states[2].sends
    ensures states[2].sends[p].phase == Done(if Matches(s.rows[k], listed, r) then Sent(k) else Rejected)
  {
    var s1 := Apply(s, Begin(p, r));
    FoundAnswers(s1, r, Some(k));
    states := [s, s1, Apply(s1, Check(p, Some(k), listed, id))];
  }

  /** A lone send of a new key in a live channel whose commit is heard stores its row and succeeds. */
  lemma LoneSend(s: State, p: int, r: Request, id: int) returns (states: seq<State>)
    requires p !in s.sends && id !in s.used && FindsRow(s, r, None) && !Conflicts(s, r) && r.channel !in s.removed
    ensures IsPath(states, [Begin(p, r), Check(p, None, [], id), Insert(p, true, true)]) && states[0] == s
    ensures states[3].rows == s.rows[id := Row(r, r.text, false)] && p in states[3].sends
    ensures states[3].sends[p].phase == Done(Sent(id))
  {
    var s1 := Apply(s, Begin(p, r));
    FoundAnswers(s1, r, None);
    var s2 := Apply(s1, Check(p, None, [], id));
    states := [s, s1, s2, Apply(s2, Insert(p, true, true))];
  }

  /**
   One whose commit nobody heard of finds its own row again and is decided by it; without a client id, or
   when nothing was committed, it fails.
   */
  lemma LoneUnheardSend(s: State, p: int, r: Request, id: int, committed: bool, listed: seq<int>)
    returns (states: seq<State>, found: Option<int>)
    requires p !in s.sends && id !in s.used && id !in s.rows && FindsRow(s, r, None) && Lists(listed, r.files)
    requires committed ==> !Conflicts(s, r) && r.channel !in s.removed
    ensures found == if committed && r.clientId.Some? then Some(id) else None
    ensures IsPath(
              states,
              [Begin(p, r), Check(p, None, [], id), Insert(p, committed, false), Recheck(p, found, listed)])
    ensures states[0] == s && p in states[4].sends
    ensures states[4].rows == if committed then s.rows[id := Row(r, r.text, false)] else s.rows
    ensures states[4].sends[p].phase
            == Done(if found == None then Failed else if listed == r.files then Sent(id) else Rejected)
  {
    var s1 := Apply(s, Begin(p, r));
    FoundAnswers(s1, r, None);
    var s2 := Apply(s1, Check(p, None, [], id));
    var s3 := Apply(s2, Insert(p, committed, false));
    found := if committed && r.clientId.Some? then Some(id) else None;
    OwnRowFound(s, s3, r, id, committed, found);
    FoundAnswers(s3, r, found);
    states := [s, s1, s2, s3, Apply(s3, Recheck(p, found, listed))];
  }

  lemma OwnRowFound(s: State, s': State, r: Request, id: int, committed: bool, found: Option<int>)
    requires id !in s.rows && FindsRow(s, r, None) && s'.removed == s.removed && (committed ==> r.channel !in s.removed)
    requires s'.rows == if committed then s.rows[id := Row(r, r.text, false)] else s.rows
    requires found == if committed && r.clientId.Some? then Some(id) else None
    ensures FindsRow(s', r, found)
  {
    if found.None? {
      forall k ensures !LiveHit(s'.rows, s'.removed, r, k) {
        assert !LiveHit(s.rows, s.removed, r, k);
      }
    }
  }

  // ----- what a retry gets -----

  /** The step looks the sender's key up, before the insert or after it failed. */
  predicate LooksUp(a: Action) {
    a.Check? || a.Recheck?
  }

  /**
   In every run, a look-up whose key is stored in a live channel finds that row and decides the send
   at once: it succeeds with the row's id exactly when the row as listed shows the request.
   */
  lemma RetryDecided(states: seq<State>, actions: seq<Action>, i: nat, id: int)
    requires IsRun(states, actions) && i < |actions| && LooksUp(actions[i])
    requires Stores(states[i], states[i].sends[actions[i].p].request, id)
    ensures actions[i].found == Some(id)
    ensures states[i + 1].sends[actions[i].p].phase
            == Done(if Matches(states[i].rows[id], actions[i].listed, states[i].sends[actions[i].p].request)
                    then Sent(id) else Rejected)
  {
    RunKeeps(states, actions, i);
    var s, r := states[i], states[i].sends[actions[i].p].request;
    assert Enabled(s, actions[i]) && Answers(s, r.session, r.clientId.value, actions[i].found);
    var found := actions[i].found.value;
    assert SameKey(s.rows[found].request, s.rows[id].request);
  }

  /** Row id has the request's key, in a live channel. */
  predicate Stores(s: State, r: Request, id: int) {
    && r.clientId.Some? && id in s.rows && HasKey(s.rows[id], r.session, r.clientId.value)
    && s.rows[id].request.channel !in s.removed
  }

  /** The row still is what the request says, as far as the order of its files does not matter. */
  predicate Unchanged(row: Row, r: Request) {
    row.request == r && ShownText(row) == r.text
  }

  predicate Lists(listed: seq<int>, files: seq<int>) {
    multiset(listed) == multiset(files)
  }

  /** Whatever order the subselect lists the files in, the list reads the same. */
  ghost predicate OrderFree(files: seq<int>) {
    forall listed :: Lists(listed, files) ==> listed == files
  }

  /** That is so exactly when no two of the files differ; the handler admits no file twice, so for at most one file. */
  lemma OrderFreeIff(files: seq<int>)
    ensures OrderFree(files) <==> forall i, j :: 0 <= i < j < |files| ==> files[i] == files[j]
  {
    if i, j :| 0 <= i < j < |files| && files[i] != files[j] {
      var swapped := files[i := files[j]][j := files[i]];
      assert Lists(swapped, files);
      assert swapped[i] != files[i];
    } else {
      forall listed | Lists(listed, files) ensures listed == files {
        assert |listed| == |multiset(listed)| == |files|;
        forall i | 0 <= i < |listed| ensures listed[i] == files[i] {
          assert listed[i] in multiset(files);
          var j :| 0 <= j < |files| && files[j] == listed[i];
        }
      }
    }
  }

  /** In every run the retry of an unchanged message with at most one file succeeds with the same id. */
  lemma RetrySucceeds(states: seq<State>, actions: seq<Action>, i: nat, id: int)
    requires IsRun(states, actions) && i < |actions| && LooksUp(actions[i])
    requires var r := states[i].sends[actions[i].p].request;
             Stores(states[i], r, id) && Unchanged(states[i].rows[id], r) && |r.files| <= 1
    ensures states[i + 1].sends[actions[i].p].phase == Done(Sent(id))
  {
    RetryDecided(states, actions, i, id);
    OrderFreeIff(states[i].sends[actions[i].p].request.files);
    assert Lists(actions[i].listed, states[i].sends[actions[i].p].request.files);
  }

  /**
   With two different files it need not: from every state in which such a retry is about to look its
   key up, there is a listing of the row's files under which it is rejected.
   */
  lemma RetryMayBeRejected(s: State, p: int, id: int, next: int) returns (listed: seq<int>)
    requires p in s.sends && s.sends[p].phase.Checking? && next !in s.used && OneRowPerKey(s)
    requires Stores(s, s.sends[p].request, id) && Unchanged(s.rows[id], s.sends[p].request)
    requires !OrderFree(s.sends[p].request.files)
    ensures Enabled(s, Check(p, Some(id), listed, next))
    ensures Apply(s, Check(p, Some(id), listed, next)).sends[p].phase == Done(Rejected)
  {
    listed :| Lists(listed, s.sends[p].request.files) && listed != s.sends[p].request.files;
  }

  // ----- one send, uninterrupted -----

  /** The messages table as the handler changes it, and the channels removed from sight. */
  class MessageTable {
    var rows: map<int, Row>
    var removed: set<string>

    constructor (removed: set<string>)
      ensures rows == map[] && this.removed == removed
    {
      this.rows, this.removed := map[], removed;
    }

    ghost function Stored(): (s: State)
      reads this
    {
      State(rows, map[], {}, removed)
    }

    /** A row with the key in a live channel, or the answer that there is none. */
    method Find(session: int, clientId: string) returns (found: Option<int>)
      ensures Answers(Stored(), session, clientId, found)
    {
      if hit :| hit in rows && HasKey(rows[hit], session, clientId) && rows[hit].request.channel !in removed {
        return Some(hit);
      }
      found := None;
    }

    /**
     The insert: it can commit only in a live channel and under an unused key; the database decides
     whether it does, and whether the caller hears of it.
     */
    method Save(r: Request, id: int, commits: bool, heard: bool) returns (ok: bool)
      requires id !in rows
      modifies this`rows
      ensures ok == (heard && rows != old(rows))
      ensures rows == if commits && !Conflicts(old(Stored()), r) && r.channel !in removed
                      then old(rows)[id := Row(r, r.text, false)] else old(rows)
    {
      if hit :| hit in rows && r.clientId.Some? && HasKey(rows[hit], r.session, r.clientId.value) {
        assert Conflicts(Stored(), r);
        return false;
      }
      if !commits || r.channel in removed {
        return false;
      }
      rows := rows[id := Row(r, r.text, false)];
      assert id in rows && id !in old(rows);
      ok := heard;
    }

    /**
     One send with nobody else at work; `listing` is the order in which the subselect lists files. A
     key known in a live channel never changes the table, and the send succeeds exactly when the
     stored row as listed still shows the request. Otherwise the row is stored if the insert commits,
     and a commit nobody heard of is found again by its key and compared; every other send fails and
     changes nothing.
     */
    method SendMessage(r: Request, id: int, commits: bool, heard: bool, listing: seq<int> -> seq<int>)
      returns (outcome: Outcome)
      requires id !in rows && OneRowPerKey(Stored())
      modifies this`rows
      ensures OneRowPerKey(Stored())
      ensures forall k :: LiveHit(old(rows), removed, r, k) ==>
                && rows == old(rows)
                && outcome == if Matches(rows[k], listing(rows[k].request.files), r) then Sent(k) else Rejected
      ensures (forall k :: !LiveHit(old(rows), removed, r, k)) ==>
                if commits && !Conflicts(old(Stored()), r) && r.channel !in removed then
                  && rows == old(rows)[id := Row(r, r.text, false)]
                  && outcome == (if heard then Sent(id) else if r.clientId.None? then Failed
                                 else if listing(r.files) == r.files then Sent(id) else Rejected)
                else rows == old(rows) && outcome == Failed
    {
      if r.clientId.Some? {
        var found := Find(r.session, r.clientId.value);
        if found.Some? {
          var hit := found.value;
          assert LiveHit(rows, removed, r, hit);
          assert forall k :: LiveHit(rows, removed, r, k) ==> SameKey(rows[k].request, rows[hit].request);
          outcome := Compare(r, hit, listing);
          return;
        }
      }
      assert forall k :: !LiveHit(old(rows), removed, r, k);
      var ok := Save(r, id, commits, heard);
      if ok {
        return Sent(id);
      }
      if r.clientId.Some? {
        var found := Find(r.session, r.clientId.value);
        if found.Some? {
          assert found.value == id && LiveHit(rows, removed, r, id);
          outcome := Compare(r, found.value, listing);
          return;
        }
        assert rows != old(rows) ==> LiveHit(rows, removed, r, id);
      }
      outcome := Failed;
    }

    /** The row found is compared with the request before it counts as the request's own. */
    method Compare(r: Request, key: int, listing: seq<int> -> seq<int>) returns (outcome: Outcome)
      requires key in rows
      ensures outcome == if Matches(rows[key], listing(rows[key].request.files), r) then Sent(key) else Rejected
    {
      var row := rows[key];
      if !Matches(row, listing(row.request.files), r) {
        return Rejected;
      }
      outcome := Sent(key);
    }
  }

  /** Row k has the request's key and is in a live channel. */
  predicate LiveHit(rows: map<int, Row>, removed: set<string>, r: Request, k: int) {
    && r.clientId.Some? && k in rows && HasKey(rows[k], r.session, r.clientId.value)
    && rows[k].request.channel !in removed
  }
}
