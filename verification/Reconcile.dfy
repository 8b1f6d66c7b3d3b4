/**
 Notification reconciliation: each send, retry and outbox replay of a message runs the same
 transaction, an upsert of notifications on (user, message, kind) followed by an insert of
 deliveries that skips existing (notification, channel) pairs. The transaction is one step of a
 run in which the delivery worker and readers change the same rows.
 */
module Reconcile {
  import opened ChatTypes
  import L = LeaseQueue

  datatype Kind = Mention | DirectMessage | ChannelMessage

  datatype Medium = Email | Browser

  /** The key of the unique index on notifications. */
  datatype Slot = Slot(user: int, message: int, kind: Kind)

  datatype Note = Note(slot: Slot, actor: int, channel: int, body: string, createdAt: int, readAt: Option<int>)

  datatype Job = Job(
    note: int, medium: Medium, user: int, email: string, kind: Kind, body: string,
    nextAttemptAt: int, attempts: nat, claimedAt: Option<int>, sentAt: Option<int>)

  datatype Tables = Tables(notes: map<int, Note>, jobs: map<int, Job>)

  /** What the transaction needs of the message and its author. */
  datatype Message = Message(
    id: int, actor: int, actorName: string, channelName: string, createdAt: int,
    toChannel: bool, toHere: bool, online: set<int>, mentioned: set<string>)

  /** A row of the recipient query. */
  datatype Candidate = Candidate(
    user: int, username: string, mentionsOn: bool, channel: int, direct: bool,
    email: string, emailOn: bool, browserOn: bool)

  function KindFor(m: Message, c: Candidate): Kind {
    if c.mentionsOn && (m.toChannel || (m.toHere && c.user in m.online) || c.username in m.mentioned) then Mention
    else if c.direct then DirectMessage
    else ChannelMessage
  }

  function Body(m: Message, kind: Kind): string {
    match kind
    case Mention => m.actorName + " mentioned you in #" + m.channelName
    case DirectMessage => m.actorName + " sent you a direct message"
    case ChannelMessage => m.actorName + " posted in #" + m.channelName
  }

  function SlotFor(m: Message, c: Candidate): Slot {
    Slot(c.user, m.id, KindFor(m, c))
  }

  function NewNote(m: Message, c: Candidate): Note {
    Note(SlotFor(m, c), m.actor, c.channel, Body(m, KindFor(m, c)), m.createdAt, None)
  }

  function NewJob(m: Message, c: Candidate, note: int, medium: Medium, now: int): Job {
    Job(note, medium, c.user, c.email, KindFor(m, c), Body(m, KindFor(m, c)), now, 0, None, None)
  }

  predicate Wants(c: Candidate, medium: Medium) {
    match medium
    case Email => c.emailOn
    case Browser => c.browserOn
  }

  predicate Holds(notes: map<int, Note>, n: int, slot: Slot) {
    n in notes && notes[n].slot == slot
  }

  predicate IsJob(jobs: map<int, Job>, j: int, note: int, medium: Medium) {
    j in jobs && jobs[j].note == note && jobs[j].medium == medium
  }

  ghost predicate Taken(notes: map<int, Note>, slot: Slot) {
    exists n :: Holds(notes, n, slot)
  }

  ghost predicate HasJob(jobs: map<int, Job>, note: int, medium: Medium) {
    exists j :: IsJob(jobs, j, note, medium)
  }

  ghost predicate UniqueNotes(notes: map<int, Note>) {
    forall n, k :: n in notes && k in notes && notes[n].slot == notes[k].slot ==> n == k
  }

  predicate SamePair(x: Job, y: Job) {
    x.note == y.note && x.medium == y.medium
  }

  ghost predicate UniqueJobs(jobs: map<int, Job>) {
    forall j, k :: j in jobs && k in jobs && SamePair(jobs[j], jobs[k]) ==> j == k
  }

  /** No two rows the transaction adds share a slot. */
  ghost predicate NewSlotsDiffer(before: map<int, Note>, after: map<int, Note>) {
    forall n, k :: n in after && k in after && n !in before && k !in before && after[n].slot == after[k].slot ==> n == k
  }

  /** No two deliveries the transaction adds share a notification and a medium. */
  ghost predicate NewPairsDiffer(before: map<int, Job>, after: map<int, Job>) {
    forall j, k ::
      j in after && k in after && j !in before && k !in before && SamePair(after[j], after[k]) ==> j == k
  }

  /** The query joins users by their primary key to one channel, so it lists a user at most once. */
  ghost predicate DistinctUsers(rows: seq<Candidate>) {
    forall i, k :: 0 <= i < k < |rows| ==> rows[i].user != rows[k].user
  }

  // ----- the transaction, as a relation between the tables before and after -----

  /** Row i, among the first k, is for the slot. */
  predicate Names(m: Message, rows: seq<Candidate>, k: nat, i: int, slot: Slot)
    requires k <= |rows|
  {
    0 <= i < k && SlotFor(m, rows[i]) == slot
  }

  ghost predicate Named(m: Message, rows: seq<Candidate>, k: nat, slot: Slot)
    requires k <= |rows|
  {
    exists i :: Names(m, rows, k, i, slot)
  }

  /** The note is the new one of one of the first k rows. */
  ghost predicate Comes(m: Message, rows: seq<Candidate>, k: nat, note: Note)
    requires k <= |rows|
  {
    exists i :: Names(m, rows, k, i, note.slot) && note == NewNote(m, rows[i])
  }

  /** The upsert for the first k rows of the query. */
  ghost predicate NotesReconciled(
    before: map<int, Note>, after: map<int, Note>, m: Message, rows: seq<Candidate>, k: nat)
    requires k <= |rows|
  {
    && NewSlotsDiffer(before, after)
    && (forall n :: n in before ==> n in after && after[n] == before[n].(body := after[n].body))
    && (forall n :: n in before && after[n] != before[n] ==> Named(m, rows, k, before[n].slot))
    && (forall n :: n in after && n !in before ==>
          !Taken(before, after[n].slot) && Comes(m, rows, k, after[n]))
    && (forall i :: 0 <= i < k ==> Covered(after, m, rows[i]))
  }

  /** The candidate has a notification in its slot, saying what the message says now. */
  ghost predicate Covered(notes: map<int, Note>, m: Message, c: Candidate) {
    exists n :: Holds(notes, n, SlotFor(m, c)) && notes[n].body == Body(m, KindFor(m, c))
  }

  /** Every medium the candidate has switched on has a delivery of the candidate's notification. */
  ghost predicate Queued(notes: map<int, Note>, jobs: map<int, Job>, m: Message, c: Candidate) {
    forall n, medium :: Holds(notes, n, SlotFor(m, c)) && Wants(c, medium) ==> HasJob(jobs, n, medium)
  }

  /** The job is the new one of some row. */
  ghost predicate IsNewJob(notes: map<int, Note>, job: Job, m: Message, rows: seq<Candidate>, now: int) {
    exists i :: 0 <= i < |rows| && Holds(notes, job.note, SlotFor(m, rows[i])) && Wants(rows[i], job.medium)
      && job == NewJob(m, rows[i], job.note, job.medium, now)
  }

  ghost predicate JobsReconciled(
    notes: map<int, Note>, before: map<int, Job>, after: map<int, Job>, m: Message, rows: seq<Candidate>, now: int)
  {
    && NewPairsDiffer(before, after)
    && (forall j :: j in before ==> j in after && after[j] == before[j])
    && (forall j :: j in after && j !in before ==>
          !HasJob(before, after[j].note, after[j].medium) && IsNewJob(notes, after[j], m, rows, now))
    && (forall i :: 0 <= i < |rows| ==> Queued(notes, after, m, rows[i]))
  }

  ghost predicate Reconciled(before: Tables, after: Tables, m: Message, rows: seq<Candidate>, now: int) {
    && NotesReconciled(before.notes, after.notes, m, rows, |rows|)
    && JobsReconciled(after.notes, before.jobs, after.jobs, m, rows, now)
  }

  /** The upsert keeps slots unique: what it adds was not taken and differs. */
  lemma NotesStayUnique(before: map<int, Note>, after: map<int, Note>, m: Message, rows: seq<Candidate>, k: nat)
    requires k <= |rows| && UniqueNotes(before) && NotesReconciled(before, after, m, rows, k)
    ensures UniqueNotes(after)
  {
    forall n, o | n in after && o in after && after[n].slot == after[o].slot ensures n == o {
      assert n in before ==> Holds(before, n, after[n].slot);
      assert o in before ==> Holds(before, o, after[n].slot);
    }
  }

  /** So does the insert of deliveries. */
  lemma JobsStayUnique(
    notes: map<int, Note>, before: map<int, Job>, after: map<int, Job>, m: Message, rows: seq<Candidate>, now: int)
    requires UniqueJobs(before) && JobsReconciled(notes, before, after, m, rows, now)
    ensures UniqueJobs(after)
  {
    forall i, j | i in after && j in after && SamePair(after[i], after[j]) ensures i == j {
      assert i in before ==> IsJob(before, i, after[i].note, after[i].medium);
      assert j in before ==> IsJob(before, j, after[i].note, after[i].medium);
    }
  }

  // ----- the transaction as the code runs it -----

  datatype Recipient = Recipient(
    id: int, user: int, channel: int, email: string, kind: Kind, body: string, emailOn: bool, browserOn: bool)

  datatype Insertion = Insertion(id: int, job: Job)

  function RecipientFor(m: Message, c: Candidate, id: int): Recipient {
    Recipient(id, c.user, c.channel, c.email, KindFor(m, c), Body(m, KindFor(m, c)), c.emailOn, c.browserOn)
  }

  lemma UpsertFound(before: map<int, Note>, mid: map<int, Note>, m: Message, rows: seq<Candidate>, k: nat, n: int)
    requires DistinctUsers(rows) && k < |rows| && NotesReconciled(before, mid, m, rows, k)
    requires Holds(mid, n, SlotFor(m, rows[k]))
    ensures NotesReconciled(before, mid[n := mid[n].(body := Body(m, KindFor(m, rows[k])))], m, rows, k + 1)
  {
    var after := mid[n := mid[n].(body := Body(m, KindFor(m, rows[k])))];
    forall i | 0 <= i < k + 1 ensures Covered(after, m, rows[i]) {
      if i == k {
        assert Holds(after, n, SlotFor(m, rows[k]));
      } else {
        var o :| Holds(mid, o, SlotFor(m, rows[i])) && mid[o].body == Body(m, KindFor(m, rows[i]));
        assert Holds(after, o, SlotFor(m, rows[i]));
      }
    }
    assert forall i :: !Names(m, rows, k, i, SlotFor(m, rows[k]));
    assert n in before;
    forall o | o in before && after[o] != before[o] ensures Named(m, rows, k + 1, before[o].slot) {
      if o == n {
        assert Names(m, rows, k + 1, k, before[o].slot);
      } else {
        var i :| Names(m, rows, k, i, before[o].slot);
        assert Names(m, rows, k + 1, i, before[o].slot);
      }
    }
    KeepsOrigin(before, mid, m, rows, k);
  }

  /** Rows added so far keep their origin when one more row of the query is considered. */
  lemma KeepsOrigin(before: map<int, Note>, mid: map<int, Note>, m: Message, rows: seq<Candidate>, k: nat)
    requires k < |rows| && NotesReconciled(before, mid, m, rows, k)
    ensures forall n :: n in mid && n !in before ==>
              !Taken(before, mid[n].slot) && Comes(m, rows, k + 1, mid[n])
  {
    forall n | n in mid && n !in before
      ensures !Taken(before, mid[n].slot) && Comes(m, rows, k + 1, mid[n])
    {
      var i :| Names(m, rows, k, i, mid[n].slot) && mid[n] == NewNote(m, rows[i]);
      assert Names(m, rows, k + 1, i, mid[n].slot);
    }
  }

  lemma UpsertNew(before: map<int, Note>, mid: map<int, Note>, m: Message, rows: seq<Candidate>, k: nat, n: int)
    requires k < |rows| && NotesReconciled(before, mid, m, rows, k)
    requires n !in mid && !Taken(mid, SlotFor(m, rows[k]))
    ensures NotesReconciled(before, mid[n := NewNote(m, rows[k])], m, rows, k + 1)
  {
    var after := mid[n := NewNote(m, rows[k])];
    NewCovers(mid, m, rows, k, n);
    SlotsStillDiffer(before, mid, NewNote(m, rows[k]), n);
    forall o | o in before && after[o] != before[o] ensures Named(m, rows, k + 1, before[o].slot) {
      var i :| Names(m, rows, k, i, before[o].slot);
      assert Names(m, rows, k + 1, i, before[o].slot);
    }
    assert Names(m, rows, k + 1, k, SlotFor(m, rows[k]));
    assert !Taken(before, SlotFor(m, rows[k])) by {
      assert forall o :: Holds(before, o, SlotFor(m, rows[k])) ==> Holds(mid, o, SlotFor(m, rows[k]));
    }
    KeepsOrigin(before, mid, m, rows, k);
  }

  lemma NewCovers(mid: map<int, Note>, m: Message, rows: seq<Candidate>, k: nat, n: int)
    requires k < |rows| && n !in mid && forall i :: 0 <= i < k ==> Covered(mid, m, rows[i])
    ensures forall i :: 0 <= i < k + 1 ==> Covered(mid[n := NewNote(m, rows[k])], m, rows[i])
  {
    var after := mid[n := NewNote(m, rows[k])];
    forall i | 0 <= i < k + 1 ensures Covered(after, m, rows[i]) {
      if i == k {
        assert Holds(after, n, SlotFor(m, rows[k]));
      } else {
        var o :| Holds(mid, o, SlotFor(m, rows[i])) && mid[o].body == Body(m, KindFor(m, rows[i]));
        assert Holds(after, o, SlotFor(m, rows[i]));
      }
    }
  }

  lemma SlotsStillDiffer(before: map<int, Note>, mid: map<int, Note>, note: Note, n: int)
    requires NewSlotsDiffer(before, mid) && n !in mid && !Taken(mid, note.slot)
    ensures NewSlotsDiffer(before, mid[n := note])
  {
    assert forall o :: o in mid ==> Holds(mid, o, mid[o].slot);
  }

  /** The returned ids, by user and kind, are those of the recipients' notifications. */
  ghost predicate Returned(notes: map<int, Note>, ids: map<(int, Kind), int>, m: Message, rows: seq<Candidate>, k: nat)
    requires k <= |rows|
  {
    forall i :: 0 <= i < k ==>
      && (rows[i].user, KindFor(m, rows[i])) in ids
      && Holds(notes, ids[(rows[i].user, KindFor(m, rows[i]))], SlotFor(m, rows[i]))
  }

  lemma ReturnedGrows(
    before: map<int, Note>, after: map<int, Note>, ids: map<(int, Kind), int>,
    m: Message, rows: seq<Candidate>, k: nat, n: int)
    requires DistinctUsers(rows) && k < |rows| && Returned(before, ids, m, rows, k)
    requires forall o :: o in before ==> o in after && after[o].slot == before[o].slot
    requires Holds(after, n, SlotFor(m, rows[k]))
    ensures Returned(after, ids[(rows[k].user, KindFor(m, rows[k])) := n], m, rows, k + 1)
  {
  }

  class NotificationTables {
    var notes: map<int, Note>
    var jobs: map<int, Job>
    var nextId: int

    /** Generated ids never repeat: every id in the tables is behind the generator. */
    ghost predicate Valid() reads this {
      && (forall n :: n in notes ==> n < nextId)
      && (forall j :: j in jobs ==> j < nextId)
      && UniqueNotes(notes) && UniqueJobs(jobs)
    }

    constructor ()
      ensures Valid() && notes == map[] && jobs == map[]
    {
      notes, jobs, nextId := map[], map[], 0;
    }

    /** The loop that turns query rows into recipients, each with a new id. */
    method Recipients(m: Message, rows: seq<Candidate>) returns (recipients: seq<Recipient>)
      requires Valid()
      modifies this`nextId
      ensures Valid() && nextId >= old(nextId)
      ensures |recipients| == |rows|
      ensures forall i :: 0 <= i < |rows| ==> recipients[i] == RecipientFor(m, rows[i], old(nextId) + i)
      ensures nextId == old(nextId) + |rows|
    {
      recipients := [];
      for k := 0 to |rows|
        invariant |recipients| == k && nextId == old(nextId) + k
        invariant forall i :: 0 <= i < k ==> recipients[i] == RecipientFor(m, rows[i], old(nextId) + i)
      {
        recipients := recipients + [RecipientFor(m, rows[k], nextId)];
        nextId := nextId + 1;
      }
    }

    /** INSERT ... ON CONFLICT (user_id, message_id, kind) DO UPDATE SET body ... RETURNING. */
    method Upsert(m: Message, ghost rows: seq<Candidate>, recipients: seq<Recipient>, ghost first: int)
      returns (ids: map<(int, Kind), int>)
      requires UniqueNotes(notes) && DistinctUsers(rows) && |recipients| == |rows|
      requires forall n :: n in notes ==> n < first
      requires forall i :: 0 <= i < |rows| ==> recipients[i] == RecipientFor(m, rows[i], first + i)
      modifies this`notes
      ensures NotesReconciled(old(notes), notes, m, rows, |rows|)
      ensures forall n :: n in notes ==> n < first + |rows|
      ensures Returned(notes, ids, m, rows, |rows|)
    {
      ids := map[];
      for k := 0 to |recipients|
        invariant NotesReconciled(old(notes), notes, m, rows, k)
        invariant forall n :: n in notes ==> n < first + k
        invariant Returned(notes, ids, m, rows, k)
      {
        var r := recipients[k];
        ghost var mid := notes;
        var n := UpsertOne(m, r, old(notes), rows, k);
        ReturnedGrows(mid, notes, ids, m, rows, k, n);
        ids := ids[(r.user, r.kind) := n];
      }
    }

    method UpsertOne(m: Message, r: Recipient, ghost before: map<int, Note>, ghost rows: seq<Candidate>, ghost k: nat)
      returns (n: int)
      requires DistinctUsers(rows) && k < |rows| && NotesReconciled(before, notes, m, rows, k)
      requires r == RecipientFor(m, rows[k], r.id) && r.id !in notes
      modifies this`notes
      ensures NotesReconciled(before, notes, m, rows, k + 1)
      ensures Holds(notes, n, SlotFor(m, rows[k]))
      ensures forall o :: o in old(notes) ==> o in notes && notes[o].slot == old(notes)[o].slot
      ensures forall o :: o in notes ==> o in old(notes) || o == r.id
    {
      var slot := Slot(r.user, m.id, r.kind);
      if hit :| hit in notes && notes[hit].slot == slot {
        UpsertFound(before, notes, m, rows, k, hit);
        n := hit;
        notes := notes[n := notes[n].(body := r.body)];
      } else {
        UpsertNew(before, notes, m, rows, k, r.id);
        n := r.id;
        notes := notes[n := Note(slot, m.actor, r.channel, r.body, m.createdAt, None)];
      }
    }

    /** The loop that lists, per recipient, a delivery for each medium that is switched on. */
    method Insertions(
      m: Message, ghost rows: seq<Candidate>, recipients: seq<Recipient>, ids: map<(int, Kind), int>, now: int)
      returns (wanted: seq<Insertion>)
      requires |recipients| == |rows|
      requires forall i :: 0 <= i < |rows| ==> recipients[i] == RecipientFor(m, rows[i], recipients[i].id)
      requires Returned(notes, ids, m, rows, |rows|)
      modifies this`nextId
      ensures nextId == old(nextId) + |wanted|
      ensures forall t :: 0 <= t < |wanted| ==>
                wanted[t].id == old(nextId) + t && IsNewJob(notes, wanted[t].job, m, rows, now)
      ensures forall i, medium :: 0 <= i < |rows| && Wants(rows[i], medium) ==>
                Listed(wanted, ids[(rows[i].user, KindFor(m, rows[i]))], medium)
    {
      wanted := [];
      for k := 0 to |recipients|
        invariant nextId == old(nextId) + |wanted|
        invariant forall t :: 0 <= t < |wanted| ==>
                    wanted[t].id == old(nextId) + t && IsNewJob(notes, wanted[t].job, m, rows, now)
        invariant forall i, medium :: 0 <= i < k && Wants(rows[i], medium) ==>
                    Listed(wanted, ids[(rows[i].user, KindFor(m, rows[i]))], medium)
      {
        var r := recipients[k];
        var note := ids[(r.user, r.kind)];
        if r.emailOn {
          var job := Job(note, Email, r.user, r.email, r.kind, r.body, now, 0, None, None);
          ListedGrows(wanted, Insertion(nextId, job));
          wanted := wanted + [Insertion(nextId, job)];
          nextId := nextId + 1;
        }
        if r.browserOn {
          var job := Job(note, Browser, r.user, r.email, r.kind, r.body, now, 0, None, None);
          ListedGrows(wanted, Insertion(nextId, job));
          wanted := wanted + [Insertion(nextId, job)];
          nextId := nextId + 1;
        }
      }
    }

    /** INSERT ... ON CONFLICT (notification_id, channel) DO NOTHING. */
    method Enqueue(wanted: seq<Insertion>, ghost first: int)
      requires UniqueJobs(jobs)
      requires forall j :: j in jobs ==> j < first
      requires forall t :: 0 <= t < |wanted| ==> wanted[t].id == first + t
      modifies this`jobs
      ensures Enqueued(old(jobs), jobs, wanted, |wanted|)
      ensures forall j :: j in jobs ==> j < first + |wanted|
    {
      for k := 0 to |wanted|
        invariant Enqueued(old(jobs), jobs, wanted, k)
        invariant forall j :: j in jobs ==> j < first + k
      {
        var w := wanted[k];
        if j :| j in jobs && jobs[j].note == w.job.note && jobs[j].medium == w.job.medium {
          SkipInsert(old(jobs), jobs, wanted, k, j);
        } else {
          InsertNew(old(jobs), jobs, wanted, k);
          jobs := jobs[w.id := w.job];
        }
      }
    }

    /** create_message_notifications_with_clock from the query's rows on. */
    method CreateNotifications(m: Message, rows: seq<Candidate>, now: int)
      requires Valid() && DistinctUsers(rows)
      modifies this
      ensures Valid()
      ensures Reconciled(Tables(old(notes), old(jobs)), Tables(notes, jobs), m, rows, now)
    {
      ghost var first := nextId;
      var recipients := Recipients(m, rows);
      if recipients == [] {
        return;
      }
      var ids := Upsert(m, rows, recipients, first);
      NotesStayUnique(old(notes), notes, m, rows, |rows|);
      ghost var firstJob := nextId;
      var wanted := Insertions(m, rows, recipients, ids, now);
      if wanted != [] {
        Enqueue(wanted, firstJob);
      }
      Inserted(notes, old(jobs), jobs, m, rows, now, wanted, ids);
      JobsStayUnique(notes, old(jobs), jobs, m, rows, now);
    }
  }

  ghost predicate Listed(wanted: seq<Insertion>, note: int, medium: Medium) {
    exists t :: 0 <= t < |wanted| && wanted[t].job.note == note && wanted[t].job.medium == medium
  }

  lemma ListedGrows(wanted: seq<Insertion>, w: Insertion)
    ensures forall note, medium :: Listed(wanted, note, medium) ==> Listed(wanted + [w], note, medium)
    ensures Listed(wanted + [w], w.job.note, w.job.medium)
  {
    var more := wanted + [w];
    forall note, medium | Listed(wanted, note, medium) ensures Listed(more, note, medium) {
      var t :| 0 <= t < |wanted| && wanted[t].job.note == note && wanted[t].job.medium == medium;
      assert more[t] == wanted[t];
    }
    assert more[|wanted|] == w;
  }

  /** The insert for the first k of the wanted deliveries. */
  ghost predicate Enqueued(before: map<int, Job>, after: map<int, Job>, wanted: seq<Insertion>, k: nat)
    requires k <= |wanted|
  {
    && NewPairsDiffer(before, after)
    && (forall j :: j in before ==> j in after && after[j] == before[j])
    && (forall j :: j in after && j !in before ==>
          !HasJob(before, after[j].note, after[j].medium) && exists t :: 0 <= t < k && after[j] == wanted[t].job)
    && (forall t :: 0 <= t < k ==> HasJob(after, wanted[t].job.note, wanted[t].job.medium))
  }

  lemma SkipInsert(before: map<int, Job>, mid: map<int, Job>, wanted: seq<Insertion>, k: nat, j: int)
    requires k < |wanted| && Enqueued(before, mid, wanted, k)
    requires IsJob(mid, j, wanted[k].job.note, wanted[k].job.medium)
    ensures Enqueued(before, mid, wanted, k + 1)
  {
  }

  lemma InsertNew(before: map<int, Job>, mid: map<int, Job>, wanted: seq<Insertion>, k: nat)
    requires k < |wanted| && Enqueued(before, mid, wanted, k)
    requires wanted[k].id !in mid
    requires forall j :: j in mid ==> !(mid[j].note == wanted[k].job.note && mid[j].medium == wanted[k].job.medium)
    ensures Enqueued(before, mid[wanted[k].id := wanted[k].job], wanted, k + 1)
  {
    var w := wanted[k];
    var after := mid[w.id := w.job];
    forall t | 0 <= t < k + 1 ensures HasJob(after, wanted[t].job.note, wanted[t].job.medium) {
      if t == k {
        assert IsJob(after, w.id, w.job.note, w.job.medium);
      } else {
        var j :| IsJob(mid, j, wanted[t].job.note, wanted[t].job.medium);
        assert IsJob(after, j, wanted[t].job.note, wanted[t].job.medium);
      }
    }
  }

  lemma Inserted(
    notes: map<int, Note>, before: map<int, Job>, after: map<int, Job>, m: Message, rows: seq<Candidate>, now: int,
    wanted: seq<Insertion>, ids: map<(int, Kind), int>)
    requires UniqueNotes(notes) && Enqueued(before, after, wanted, |wanted|)
    requires forall t :: 0 <= t < |wanted| ==> IsNewJob(notes, wanted[t].job, m, rows, now)
    requires Returned(notes, ids, m, rows, |rows|)
    requires forall i, medium :: 0 <= i < |rows| && Wants(rows[i], medium) ==>
               Listed(wanted, ids[(rows[i].user, KindFor(m, rows[i]))], medium)
    ensures JobsReconciled(notes, before, after, m, rows, now)
  {
    forall i, n, medium | 0 <= i < |rows| && Holds(notes, n, SlotFor(m, rows[i])) && Wants(rows[i], medium)
      ensures HasJob(after, n, medium)
    {
      assert Listed(wanted, ids[(rows[i].user, KindFor(m, rows[i]))], medium);
      var t :| 0 <= t < |wanted| && wanted[t].job.note == n && wanted[t].job.medium == medium;
      assert HasJob(after, wanted[t].job.note, wanted[t].job.medium);
    }
  }

  // ----- one transaction: what it adds, and that repeating it adds nothing -----

  /** The slots taken afterwards are those taken before and those of the recipients, no others. */
  lemma SlotsAfter(before: Tables, after: Tables, m: Message, rows: seq<Candidate>, now: int, slot: Slot)
    requires Reconciled(before, after, m, rows, now)
    ensures Taken(after.notes, slot) <==> Taken(before.notes, slot) || Named(m, rows, |rows|, slot)
  {
    if Taken(before.notes, slot) {
      var n :| Holds(before.notes, n, slot);
      assert Holds(after.notes, n, slot);
    }
    if i :| Names(m, rows, |rows|, i, slot) {
      assert Covered(after.notes, m, rows[i]);
    }
    if Taken(after.notes, slot) {
      var n :| Holds(after.notes, n, slot);
      if n in before.notes {
        assert Holds(before.notes, n, slot);
      }
    }
  }

  /** A user is mentioned: by name, by @channel, or by @here while online, unless mentions are switched off. */
  predicate Mentions(m: Message, c: Candidate) {
    !(!c.mentionsOn || (c.username !in m.mentioned && !m.toChannel && !(m.toHere && c.user in m.online)))
  }

  /**
   What the transaction leaves each recipient, in the notification's own words: a mention, a direct message
   or a post, with a delivery by e-mail and by browser exactly as far as switched on or queued before.
   */
  lemma RecipientIsTold(before: Tables, after: Tables, m: Message, rows: seq<Candidate>, now: int, i: nat)
    requires Reconciled(before, after, m, rows, now) && i < |rows|
    ensures exists n :: n in after.notes
              && after.notes[n].slot.user == rows[i].user && after.notes[n].slot.message == m.id
              && Says(after.notes[n], m, rows[i])
              && (rows[i].emailOn ==> HasJob(after.jobs, n, Email))
              && (rows[i].browserOn ==> HasJob(after.jobs, n, Browser))
  {
    assert Covered(after.notes, m, rows[i]) && Queued(after.notes, after.jobs, m, rows[i]);
    var n :| Holds(after.notes, n, SlotFor(m, rows[i])) && after.notes[n].body == Body(m, KindFor(m, rows[i]));
    assert Says(after.notes[n], m, rows[i]);
  }

  predicate Says(note: Note, m: Message, c: Candidate) {
    if Mentions(m, c) then note.slot.kind == Mention && note.body == m.actorName + " mentioned you in #" + m.channelName
    else if c.direct then note.slot.kind == DirectMessage && note.body == m.actorName + " sent you a direct message"
    else note.slot.kind == ChannelMessage && note.body == m.actorName + " posted in #" + m.channelName
  }

  /** A delivery the transaction adds is due at once, unclaimed, unsent, for the user and kind of its notification. */
  lemma NewDeliveryIs(before: Tables, after: Tables, m: Message, rows: seq<Candidate>, now: int, j: int)
    requires Reconciled(before, after, m, rows, now) && j in after.jobs && j !in before.jobs
    ensures var job := after.jobs[j];
            && job.note in after.notes && job.attempts == 0 && job.claimedAt == None && job.sentAt == None
            && job.nextAttemptAt == now && job.user == after.notes[job.note].slot.user
            && job.kind == after.notes[job.note].slot.kind
            && exists i :: 0 <= i < |rows| && rows[i].user == job.user && job.email == rows[i].email
                 && (if job.medium == Email then rows[i].emailOn else rows[i].browserOn)
  {
  }

  ghost predicate UpToDate(s: Tables, m: Message, rows: seq<Candidate>) {
    forall i :: 0 <= i < |rows| ==> Covered(s.notes, m, rows[i]) && Queued(s.notes, s.jobs, m, rows[i])
  }

  /**
   Where every recipient is up to date, whatever ids it draws and whenever it runs, the transaction
   changes nothing.
   */
  lemma RepeatChangesNothing(s: Tables, s': Tables, m: Message, rows: seq<Candidate>, now: int)
    requires UniqueNotes(s.notes) && Reconciled(s, s', m, rows, now) && UpToDate(s, m, rows)
    ensures s' == s
  {
    forall i | 0 <= i < |rows| ensures Taken(s.notes, SlotFor(m, rows[i])) {
      assert Covered(s.notes, m, rows[i]);
    }
    assert forall n :: n in s'.notes ==> n in s.notes;
    forall n | n in s.notes ensures s'.notes[n] == s.notes[n] {
      SameBody(s, s', m, rows, now, n);
    }
    SameTable(s.notes, s'.notes);
    SameTable(s.jobs, s'.jobs);
  }

  lemma SameTable<V>(a: map<int, V>, b: map<int, V>)
    requires forall k :: k in a ==> k in b && b[k] == a[k]
    requires forall k :: k in b ==> k in a
    ensures a == b
  {
    assert forall k :: k in a.Keys ==> k in b.Keys && b[k] == a[k];
    assert forall k :: k in b.Keys ==> k in a.Keys;
    assert a == b;
  }

  lemma SameBody(s: Tables, s': Tables, m: Message, rows: seq<Candidate>, now: int, n: int)
    requires UniqueNotes(s.notes) && Reconciled(s, s', m, rows, now) && UpToDate(s, m, rows) && n in s.notes
    ensures s'.notes[n] == s.notes[n]
  {
    if i :| Names(m, rows, |rows|, i, s.notes[n].slot) {
      assert Covered(s.notes, m, rows[i]) && Covered(s'.notes, m, rows[i]);
      NotesStayUnique(s.notes, s'.notes, m, rows, |rows|);
      assert forall o :: o in s.notes ==> Holds(s'.notes, o, s.notes[o].slot);
    }
  }

  // ----- runs -----

  datatype Action =
    | Reconcile(m: Message, rows: seq<Candidate>, now: int)
    | Read(n: int, at: int)
    | Claim(j: int, now: int)
    | Acknowledge(j: int, now: int)
    | Reschedule(j: int, next: int)

  predicate Pending(s: Tables, j: int) {
    j in s.jobs && s.jobs[j].sentAt.None?
  }

  predicate Claimable(job: Job, now: int) {
    job.sentAt.None? && job.nextAttemptAt <= now && (job.claimedAt.None? || job.claimedAt.value < now - 60_000)
  }

  function WithJob(s: Tables, j: int, job: Job): Tables {
    s.(jobs := s.jobs[j := job])
  }

  /** An acknowledgement or rescheduling of a sent delivery, and a reading of an unknown notification, match no row. */
  ghost predicate Next(s: Tables, a: Action, s': Tables) {
    match a
    case Reconcile(m, rows, now) => Reconciled(s, s', m, rows, now)
    case Read(n, at) =>
      s' == if n in s.notes && s.notes[n].readAt.None?
            then s.(notes := s.notes[n := s.notes[n].(readAt := Some(at))]) else s
    case Claim(j, now) =>
      && j in s.jobs && Claimable(s.jobs[j], now)
      && s' == WithJob(s, j, s.jobs[j].(claimedAt := Some(now), attempts := s.jobs[j].attempts + 1))
    case Acknowledge(j, now) =>
      s' == if Pending(s, j) then WithJob(s, j, s.jobs[j].(sentAt := Some(now), claimedAt := None)) else s
    case Reschedule(j, next) =>
      s' == if Pending(s, j) then WithJob(s, j, s.jobs[j].(claimedAt := None, nextAttemptAt := next)) else s
  }

  /** A delivery as a row of the leased queue. */
  function AsRow(job: Job): L.Row {
    L.Row(0, job.attempts, job.claimedAt, job.sentAt, job.nextAttemptAt)
  }

  /**
   The worker's statements are those of the leased queue: the same rows may be claimed, and claim,
   acknowledgement and rescheduling leave what that queue's steps leave; nothing else changes.
   */
  lemma WorkerIsQueue(s: Tables, a: Action, s': Tables, attempt: nat, now: int)
    requires Next(s, a, s')
    requires a.Reschedule? ==> a.next == now + L.RetryDelay(attempt)
    ensures a.Claim? ==>
              && a.j in s.jobs && a.j in s'.jobs && L.Claimable(L.Deliveries, AsRow(s.jobs[a.j]), a.now)
              && AsRow(s'.jobs[a.j]) == L.ClaimRow(AsRow(s.jobs[a.j]), a.now)
    ensures a.Acknowledge? && a.j in s.jobs ==>
              a.j in s'.jobs
              && AsRow(s'.jobs[a.j]) == L.FinishRow(L.Deliveries, AsRow(s.jobs[a.j]), attempt, true, a.now)
    ensures a.Reschedule? && a.j in s.jobs ==>
              a.j in s'.jobs
              && AsRow(s'.jobs[a.j]) == L.FinishRow(L.Deliveries, AsRow(s.jobs[a.j]), attempt, false, now)
    ensures a.Claim? || a.Acknowledge? || a.Reschedule? ==> s'.notes == s.notes && s'.jobs - {a.j} == s.jobs - {a.j}
  {
  }

  /** A row the queue's claim admits is one this machine's claim admits. */
  lemma ClaimPossible(s: Tables, j: int, now: int) returns (s': Tables)
    requires j in s.jobs && L.Claimable(L.Deliveries, AsRow(s.jobs[j]), now)
    ensures Next(s, Claim(j, now), s')
  {
    s' := WithJob(s, j, s.jobs[j].(claimedAt := Some(now), attempts := s.jobs[j].attempts + 1));
  }

  /** A reading sets the time once and changes nothing else. */
  lemma ReadOnce(s: Tables, n: int, at: int, s': Tables)
    requires Next(s, Read(n, at), s')
    ensures s'.jobs == s.jobs && s'.notes.Keys == s.notes.Keys
    ensures forall k :: k in s.notes ==>
              s'.notes[k]
              == s.notes[k].(readAt := if k == n && s.notes[k].readAt == None then Some(at) else s.notes[k].readAt)
  {
  }

  ghost predicate IsRun(states: seq<Tables>, actions: seq<Action>) {
    && |states| == |actions| + 1
    && states[0] == Tables(map[], map[])
    && forall i :: 0 <= i < |actions| ==> Next(states[i], actions[i], states[i + 1])
  }

  ghost predicate Inv(s: Tables) {
    UniqueNotes(s.notes) && UniqueJobs(s.jobs)
  }

  lemma StepKeeps(s: Tables, a: Action, s': Tables)
    requires Inv(s) && Next(s, a, s')
    ensures Inv(s')
  {
    if a.Reconcile? {
      NotesStayUnique(s.notes, s'.notes, a.m, a.rows, |a.rows|);
      JobsStayUnique(s'.notes, s.jobs, s'.jobs, a.m, a.rows, a.now);
    }
  }

  /**
   At most one notification per (user, message, kind) and one delivery per (notification, channel),
   in every state.
   */
  lemma {:induction false} RunKeeps(states: seq<Tables>, actions: seq<Action>, i: nat)
    requires IsRun(states, actions) && i < |states|
    ensures Inv(states[i])
  {
    if i != 0 {
      RunKeeps(states, actions, i - 1);
      StepKeeps(states[i - 1], actions[i - 1], states[i]);
    }
  }

  /** What no later step takes back: ids, identities, readings, attempts made and deliveries sent. */
  ghost predicate Extends(s: Tables, t: Tables) {
    && (forall n :: n in s.notes ==> n in t.notes && NoteKept(s.notes[n], t.notes[n]))
    && (forall j :: j in s.jobs ==> j in t.jobs && JobKept(s.jobs[j], t.jobs[j]))
  }

  predicate NoteKept(x: Note, y: Note) {
    x == y.(body := x.body, readAt := x.readAt) && (x.readAt.Some? ==> y.readAt == x.readAt)
  }

  predicate JobKept(x: Job, y: Job) {
    && x == y.(nextAttemptAt := x.nextAttemptAt, attempts := x.attempts, claimedAt := x.claimedAt, sentAt := x.sentAt)
    && x.attempts <= y.attempts
    && (x.sentAt.Some? ==> x == y)
  }

  lemma {:induction false} NothingTakenBack(states: seq<Tables>, actions: seq<Action>, i: nat, k: nat)
    requires IsRun(states, actions) && i <= k < |states|
    ensures Extends(states[i], states[k])
    decreases k
  {
    if i < k {
      NothingTakenBack(states, actions, i, k - 1);
      StepExtends(states[k - 1], actions[k - 1], states[k]);
      ExtendsTransitive(states[i], states[k - 1], states[k]);
    }
  }

  lemma StepExtends(s: Tables, a: Action, s': Tables)
    requires Next(s, a, s')
    ensures Extends(s, s')
  {
  }

  lemma ExtendsTransitive(s: Tables, t: Tables, u: Tables)
    requires Extends(s, t) && Extends(t, u)
    ensures Extends(s, u)
  {
    assert forall n :: n in s.notes ==> n in t.notes && NoteKept(s.notes[n], t.notes[n]);
    assert forall j :: j in s.jobs ==> j in t.jobs && JobKept(s.jobs[j], t.jobs[j]);
  }

  /** The step is a delivery worker's statement about job j. */
  predicate Works(a: Action, j: int) {
    (a.Claim? || a.Acknowledge? || a.Reschedule?) && a.j == j
  }

  /**
   Only the worker touches a delivery: over any stretch of a run without a worker's statement about
   it, whatever is reconciled, retried, replayed and read, attempts, claim and sent state stay.
   */
  lemma {:induction false} ReconcileResetsNothing(states: seq<Tables>, actions: seq<Action>, i: nat, k: nat, j: int)
    requires IsRun(states, actions) && i <= k < |states| && j in states[i].jobs
    requires forall t :: i <= t < k ==> !Works(actions[t], j)
    ensures j in states[k].jobs && states[k].jobs[j] == states[i].jobs[j]
    decreases k
  {
    if i < k {
      ReconcileResetsNothing(states, actions, i, k - 1, j);
      assert Next(states[k - 1], actions[k - 1], states[k]) && !Works(actions[k - 1], j);
    }
  }

  /**
   Once a reconciliation named a recipient, all later states hold exactly one notification in the
   slot, under the same id, and exactly one delivery of it per medium then switched on.
   */
  lemma NotifiedExactlyOnce(states: seq<Tables>, actions: seq<Action>, i: nat, k: nat, r: nat)
    requires IsRun(states, actions) && i < k < |states|
    requires actions[i].Reconcile? && r < |actions[i].rows|
    ensures var c := actions[i].rows[r];
            var slot := SlotFor(actions[i].m, c);
            exists n :: Holds(states[i + 1].notes, n, slot) && Holds(states[k].notes, n, slot)
              && (forall o :: Holds(states[k].notes, o, slot) ==> o == n)
              && forall medium :: Wants(c, medium) ==> OneJob(states[k].jobs, n, medium)
  {
    var m, c := actions[i].m, actions[i].rows[r];
    assert Next(states[i], actions[i], states[i + 1]);
    assert Covered(states[i + 1].notes, m, c) && Queued(states[i + 1].notes, states[i + 1].jobs, m, c);
    var n :| Holds(states[i + 1].notes, n, SlotFor(m, c));
    NothingTakenBack(states, actions, i + 1, k);
    RunKeeps(states, actions, k);
    assert Holds(states[k].notes, n, SlotFor(m, c));
    forall medium | Wants(c, medium) ensures OneJob(states[k].jobs, n, medium) {
      assert HasJob(states[i + 1].jobs, n, medium);
      var j :| IsJob(states[i + 1].jobs, j, n, medium);
      assert IsJob(states[k].jobs, j, n, medium);
    }
  }

  ghost predicate OneJob(jobs: map<int, Job>, note: int, medium: Medium) {
    exists j :: IsJob(jobs, j, note, medium) && forall o :: IsJob(jobs, o, note, medium) ==> o == j
  }

  /** The step is not a reconciliation of the message under another author or channel name. */
  predicate KeepsWording(m: Message, a: Action) {
    a.Reconcile? && a.m.id == m.id ==> a.m.actorName == m.actorName && a.m.channelName == m.channelName
  }

  lemma UpToDateKept(s: Tables, a: Action, s': Tables, m: Message, rows: seq<Candidate>)
    requires Inv(s) && Next(s, a, s') && Inv(s') && KeepsWording(m, a) && UpToDate(s, m, rows)
    ensures UpToDate(s', m, rows)
  {
    forall i | 0 <= i < |rows| ensures Covered(s'.notes, m, rows[i]) && Queued(s'.notes, s'.jobs, m, rows[i]) {
      CandidateKept(s, a, s', m, rows[i]);
    }
  }

  lemma CandidateKept(s: Tables, a: Action, s': Tables, m: Message, c: Candidate)
    requires Inv(s) && Next(s, a, s') && Inv(s') && KeepsWording(m, a)
    requires Covered(s.notes, m, c) && Queued(s.notes, s.jobs, m, c)
    ensures Covered(s'.notes, m, c) && Queued(s'.notes, s'.jobs, m, c)
  {
    var slot := SlotFor(m, c);
    var n :| Holds(s.notes, n, slot) && s.notes[n].body == Body(m, KindFor(m, c));
    assert Holds(s'.notes, n, slot);
    if a.Reconcile? {
      if i :| Names(a.m, a.rows, |a.rows|, i, slot) {
        assert Covered(s'.notes, a.m, a.rows[i]);
      }
    }
    forall o, medium | Holds(s'.notes, o, slot) && Wants(c, medium) ensures HasJob(s'.jobs, o, medium) {
      assert o == n;
      var j :| IsJob(s.jobs, j, n, medium);
      assert IsJob(s'.jobs, j, n, medium);
    }
  }

  lemma {:induction false} StaysUpToDate(states: seq<Tables>, actions: seq<Action>, i: nat, k: nat)
    requires IsRun(states, actions) && i < k < |states| && actions[i].Reconcile?
    requires forall t :: i < t < k ==> KeepsWording(actions[i].m, actions[t])
    ensures UpToDate(states[k], actions[i].m, actions[i].rows)
    decreases k
  {
    assert Next(states[k - 1], actions[k - 1], states[k]);
    if k > i + 1 {
      StaysUpToDate(states, actions, i, k - 1);
      RunKeeps(states, actions, k - 1);
      RunKeeps(states, actions, k);
      UpToDateKept(states[k - 1], actions[k - 1], states[k], actions[i].m, actions[i].rows);
    }
  }

  /**
   A retry or outbox replay of a message that was reconciled for the same recipients changes
   nothing at all, whatever the delivery workers, readers and other messages did in between.
   */
  lemma ReplayChangesNothing(states: seq<Tables>, actions: seq<Action>, i: nat, k: nat)
    requires IsRun(states, actions) && i < k < |actions|
    requires actions[i].Reconcile? && actions[k].Reconcile?
    requires actions[k].m == actions[i].m && actions[k].rows == actions[i].rows
    requires forall t :: i < t < k ==> KeepsWording(actions[i].m, actions[t])
    ensures states[k + 1] == states[k]
  {
    StaysUpToDate(states, actions, i, k);
    assert Next(states[k], actions[k], states[k + 1]);
    RunKeeps(states, actions, k);
    RepeatChangesNothing(states[k], states[k + 1], actions[k].m, actions[k].rows, actions[k].now);
  }
}
