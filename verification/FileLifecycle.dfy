/**
 Uploaded files: a blob in the object store and a metadata row that names it. Uploads put the blob
 and then insert the row, deleting the blob again when the insert fails; cleanup tasks on any number
 of replicas mark unlinked rows deleted, delete their blobs and then their rows. All of them
 interleave and may die anywhere. A file's storage key is its id.
 */
module FileLifecycle {
  import opened ChatTypes

  datatype File = File(createdAt: int, deleted: bool)

  datatype Upload = Stored | Compensating

  /** A file in the hands of one cleanup task. */
  datatype Job = Job(task: int, file: int)

  /** linked are the files some message carries; used are all ids ever generated. */
  datatype State = State(
    blobs: set<int>, files: map<int, File>, linked: set<int>, uploads: map<int, Upload>,
    claimed: set<Job>, emptied: set<Job>, used: set<int>)

  datatype Action =
    | Put(id: int, ok: bool, leftover: bool)
    | InsertRow(id: int, createdAt: int)
    | FailInsert(id: int, rowStays: bool, createdAt: int)
    | Compensate(id: int, ok: bool)
    | LoseUpload(id: int)
    | Link(id: int)
    | Unlink(id: int)
    | Claim(task: int, cutoff: int)
    | DeleteBlob(job: Job, ok: bool)
    | DeleteRow(job: Job, ok: bool)
    | LoseJob(job: Job)

  const EMPTY := State({}, map[], {}, map[], {}, {}, {})

  predicate Orphan(f: File, linked: bool, cutoff: int) {
    (f.deleted || f.createdAt < cutoff) && !linked
  }

  /** UPDATE files SET deleted_at=COALESCE(...) WHERE ... RETURNING id. */
  function Orphans(files: map<int, File>, linked: set<int>, cutoff: int): set<int> {
    set id | id in files && Orphan(files[id], id in linked, cutoff)
  }

  function Mark(files: map<int, File>, ids: set<int>): map<int, File> {
    map id | id in files :: if id in ids then files[id].(deleted := true) else files[id]
  }

  predicate Enabled(s: State, a: Action) {
    match a
    case Put(id, ok, _) => id !in s.used
    case InsertRow(id, _) => id in s.uploads && s.uploads[id].Stored?
    case FailInsert(id, _, _) => id in s.uploads && s.uploads[id].Stored?
    case Compensate(id, _) => id in s.uploads && s.uploads[id].Compensating?
    case LoseUpload(id) => id in s.uploads
    case Link(id) => id in s.files
    case Unlink(_) => true
    case Claim(_, _) => true
    case DeleteBlob(job, _) => job in s.claimed
    case DeleteRow(job, _) => job in s.emptied
    case LoseJob(_) => true
  }

  function Apply(s: State, a: Action): State
    requires Enabled(s, a)
  {
    match a
    case Put(id, ok, leftover) =>
      s.(used := s.used + {id}, blobs := if ok || leftover then s.blobs + {id} else s.blobs,
         uploads := if ok then s.uploads[id := Stored] else s.uploads)
    case InsertRow(id, createdAt) => s.(files := s.files[id := File(createdAt, false)], uploads := s.uploads - {id})
    case FailInsert(id, rowStays, createdAt) =>
      s.(uploads := s.uploads[id := Compensating],
         files := if rowStays then s.files[id := File(createdAt, false)] else s.files)
    case Compensate(id, ok) => s.(uploads := s.uploads - {id}, blobs := if ok then s.blobs - {id} else s.blobs)
    case LoseUpload(id) => s.(uploads := s.uploads - {id})
    case Link(id) => s.(linked := s.linked + {id})
    case Unlink(id) => s.(linked := s.linked - {id})
    case Claim(task, cutoff) =>
      var ids := Orphans(s.files, s.linked, cutoff);
      s.(files := Mark(s.files, ids), claimed := s.claimed + set id | id in ids :: Job(task, id))
    case DeleteBlob(job, ok) =>
      s.(claimed := s.claimed - {job}, blobs := if ok then s.blobs - {job.file} else s.blobs,
         emptied := if ok then s.emptied + {job} else s.emptied)
    case DeleteRow(job, ok) =>
      s.(emptied := s.emptied - {job},
         files := if ok && job.file in s.files && s.files[job.file].deleted then s.files - {job.file} else s.files,
         linked := if ok && job.file in s.files && s.files[job.file].deleted then s.linked - {job.file} else s.linked)
    case LoseJob(job) => s.(claimed := s.claimed - {job}, emptied := s.emptied - {job})
  }

  ghost predicate IsRun(states: seq<State>, actions: seq<Action>) {
    && |states| == |actions| + 1
    && states[0] == EMPTY
    && forall i :: 0 <= i < |actions| ==>
         Enabled(states[i], actions[i]) && states[i + 1] == Apply(states[i], actions[i])
  }

  // ----- what every step keeps -----

  predicate Live(s: State, id: int) {
    id in s.files && !s.files[id].deleted
  }

  predicate IsStored(s: State, id: int) {
    id in s.uploads && s.uploads[id].Stored?
  }

  /** Every live row has its blob. */
  ghost predicate LiveBacked(s: State) {
    forall id :: Live(s, id) ==> id in s.blobs
  }

  ghost predicate UploadsSound(s: State) {
    && s.uploads.Keys <= s.used
    && forall id :: IsStored(s, id) ==> id !in s.files && id in s.blobs
  }

  /** A file a cleanup task works on is not live, waits for no insert, and once emptied has no blob. */
  ghost predicate JobsDead(s: State) {
    && (forall j :: j in s.claimed + s.emptied ==> j.file in s.used && !IsStored(s, j.file) && !Live(s, j.file))
    && (forall j :: j in s.emptied ==> j.file !in s.blobs)
  }

  ghost predicate Inv(s: State) {
    UploadsSound(s) && JobsDead(s) && s.files.Keys <= s.used
  }

  lemma ClaimKeeps(s: State, a: Action)
    requires Inv(s) && Enabled(s, a) && a.Claim?
    ensures Inv(Apply(s, a))
  {
    var s' := Apply(s, a);
    forall j | j in s'.claimed + s'.emptied ensures j.file in s'.used && !IsStored(s', j.file) && !Live(s', j.file) {
      if j !in s.claimed + s.emptied {
        assert j.file in Orphans(s.files, s.linked, a.cutoff);
      }
    }
  }

  lemma StepKeeps(s: State, a: Action)
    requires Inv(s) && Enabled(s, a)
    ensures Inv(Apply(s, a))
  {
    if a.Claim? {
      ClaimKeeps(s, a);
    } else {
      var s' := Apply(s, a);
      assert forall id :: IsStored(s', id) ==> IsStored(s, id) || (a.Put? && id == a.id);
      assert forall id :: Live(s', id) ==> Live(s, id) || IsStored(s, id);
    }
  }

  lemma {:induction false} RunKeeps(states: seq<State>, actions: seq<Action>, i: nat)
    requires IsRun(states, actions) && i < |states|
    ensures Inv(states[i])
  {
    if i != 0 {
      RunKeeps(states, actions, i - 1);
      StepKeeps(states[i - 1], actions[i - 1]);
    }
  }

  /** Whatever fails and whoever dies, a row disappears only when its blob is gone. */
  lemma RowGoesAfterBlob(states: seq<State>, actions: seq<Action>, i: nat, id: int)
    requires IsRun(states, actions) && i < |actions|
    requires id in states[i].files && id !in states[i + 1].files
    ensures id !in states[i].blobs && id !in states[i + 1].blobs
  {
    RunKeeps(states, actions, i);
  }

  // ----- what the steps do -----

  /** A stored blob and a heard insert make a live row with its blob. */
  lemma UploadMakesLiveFile(s: State, id: int, createdAt: int)
    requires id !in s.used
    ensures Enabled(s, Put(id, true, false)) && Enabled(Apply(s, Put(id, true, false)), InsertRow(id, createdAt))
    ensures var end := Apply(Apply(s, Put(id, true, false)), InsertRow(id, createdAt));
            && id in end.blobs && end.files == s.files[id := File(createdAt, false)]
            && end.blobs == s.blobs + {id} && id !in end.uploads
  {
  }

  /** A failed insert without a row, compensated, leaves the stores as they were. */
  lemma FailedUploadLeavesNothing(s: State, id: int)
    requires id !in s.used && id !in s.blobs
    ensures Enabled(s, Put(id, true, false)) && Enabled(Apply(s, Put(id, true, false)), FailInsert(id, false, 0))
    ensures var failed := Apply(Apply(s, Put(id, true, false)), FailInsert(id, false, 0));
            && Enabled(failed, Compensate(id, true))
            && var end := Apply(failed, Compensate(id, true));
               end.blobs == s.blobs && end.files == s.files && id !in end.uploads
  {
  }

  /** A claim takes exactly the unlinked rows that are deleted or older than the cutoff, and marks them deleted. */
  lemma ClaimTakes(s: State, task: int, cutoff: int, id: int)
    requires id in s.files
    ensures var end, taken := Apply(s, Claim(task, cutoff)),
                              id !in s.linked && (s.files[id].deleted || s.files[id].createdAt < cutoff);
            && id in end.files && end.files[id].createdAt == s.files[id].createdAt
            && (end.files[id].deleted <==> s.files[id].deleted || taken)
            && (Job(task, id) in end.claimed <==> Job(task, id) in s.claimed || taken)
            && end.blobs == s.blobs && end.files.Keys == s.files.Keys
  {
    var end := Apply(s, Claim(task, cutoff));
    assert Job(task, id) in end.claimed <==> Job(task, id) in s.claimed || id in Orphans(s.files, s.linked, cutoff);
  }

  /** The row delete spares a row that is not marked. */
  lemma LiveRowStays(s: State, job: Job)
    requires job in s.emptied && Live(s, job.file)
    ensures Apply(s, DeleteRow(job, true)).files == s.files
  {
  }

  /** A job that succeeds deletes the blob and then the row that is marked; no other file changes. */
  lemma JobDeletes(s: State, job: Job)
    requires job in s.claimed && job.file in s.files && s.files[job.file].deleted
    ensures Enabled(s, DeleteBlob(job, true)) && Enabled(Apply(s, DeleteBlob(job, true)), DeleteRow(job, true))
    ensures Apply(s, DeleteBlob(job, true)).blobs == s.blobs - {job.file}
    ensures var end := Apply(Apply(s, DeleteBlob(job, true)), DeleteRow(job, true));
            end.blobs == s.blobs - {job.file} && end.files == s.files - {job.file}
  {
  }

  /** A message takes files up and its removal lets them go; a lost upload or job leaves stores and rows alone. */
  lemma OtherStepsDo(s: State, id: int, job: Job)
    ensures Enabled(s, Link(id)) <==> id in s.files
    ensures id in s.files ==> Apply(s, Link(id)) == s.(linked := s.linked + {id})
    ensures Enabled(s, Unlink(id)) && Apply(s, Unlink(id)) == s.(linked := s.linked - {id})
    ensures id in s.uploads ==>
              Enabled(s, LoseUpload(id)) && Apply(s, LoseUpload(id)) == s.(uploads := s.uploads - {id})
    ensures Enabled(s, LoseJob(job))
    ensures Apply(s, LoseJob(job)) == s.(claimed := s.claimed - {job}, emptied := s.emptied - {job})
    ensures job in s.claimed ==>
              Enabled(s, DeleteBlob(job, false)) && Apply(s, DeleteBlob(job, false)) == s.(claimed := s.claimed - {job})
    ensures job in s.emptied ==>
              Enabled(s, DeleteRow(job, false)) && Apply(s, DeleteRow(job, false)) == s.(emptied := s.emptied - {job})
    ensures id !in s.used ==>
              && Enabled(s, Put(id, false, false)) && Apply(s, Put(id, false, false)) == s.(used := s.used + {id})
              && Enabled(s, Put(id, false, true)) && Apply(s, Put(id, false, true)).blobs == s.blobs + {id}
  {
  }

  // ----- a cleanup round among others -----

  /** The step is a failed delete of the task, or the loss of one of its jobs. */
  predicate Faults(a: Action, task: int) {
    match a
    case DeleteBlob(job, ok) => job.task == task && !ok
    case DeleteRow(job, ok) => job.task == task && !ok
    case LoseJob(job) => job.task == task
    case _ => false
  }

  /** The task still has the file's blob to delete, or its row, or both are gone. */
  predicate Doomed(s: State, task: int, id: int) {
    && id in s.used && !IsStored(s, id) && !Live(s, id)
    && (|| Job(task, id) in s.claimed
        || (Job(task, id) in s.emptied && id !in s.blobs)
        || (id !in s.files && id !in s.blobs))
  }

  lemma DoomedKept(s: State, a: Action, task: int, id: int)
    requires Inv(s) && Enabled(s, a) && Doomed(s, task, id) && !Faults(a, task)
    ensures Doomed(Apply(s, a), task, id)
  {
  }

  lemma ClaimDooms(s: State, task: int, cutoff: int, id: int)
    requires Inv(s) && id in Orphans(s.files, s.linked, cutoff)
    ensures Doomed(Apply(s, Claim(task, cutoff)), task, id)
  {
    assert Job(task, id) in Apply(s, Claim(task, cutoff)).claimed;
  }

  lemma {:induction false} StaysDoomed(states: seq<State>, actions: seq<Action>, i: nat, j: nat, task: int, id: int)
    requires IsRun(states, actions) && i <= j < |states| && Doomed(states[i], task, id)
    requires forall t :: i <= t < j ==> !Faults(actions[t], task)
    ensures Doomed(states[j], task, id)
    decreases j
  {
    if i < j {
      StaysDoomed(states, actions, i, j - 1, task, id);
      RunKeeps(states, actions, j - 1);
      DoomedKept(states[j - 1], actions[j - 1], task, id);
    }
  }

  /**
   In any run, among uploads, other cleanups and crashes of others: a task claims at step i, none of
   its deletes fails and it does not die, and at j it has no job left. Then every row that was
   unlinked and past the cutoff at the claim is gone, with its blob.
   */
  lemma FaultFreeRoundRemoves(states: seq<State>, actions: seq<Action>, i: nat, j: nat, id: int)
    requires IsRun(states, actions) && i < j < |states| && actions[i].Claim?
    requires forall t :: i < t < j ==> !Faults(actions[t], actions[i].task)
    requires forall job :: job in states[j].claimed + states[j].emptied ==> job.task != actions[i].task
    requires id in states[i].files && id !in states[i].linked
    requires states[i].files[id].deleted || states[i].files[id].createdAt < actions[i].cutoff
    ensures id !in states[j].files && id !in states[j].blobs
  {
    RunKeeps(states, actions, i);
    ClaimDooms(states[i], actions[i].task, actions[i].cutoff, id);
    StaysDoomed(states, actions, i + 1, j, actions[i].task, id);
    assert Job(actions[i].task, id) !in states[j].claimed + states[j].emptied;
  }

  /** Once gone, a row's blob never comes back, and a deleted row never becomes live again. */
  lemma {:induction false} DeletionIsFinal(states: seq<State>, actions: seq<Action>, i: nat, j: nat, id: int)
    requires IsRun(states, actions) && i <= j < |states|
    requires id in states[i].used && !IsStored(states[i], id) && !Live(states[i], id)
    ensures id in states[j].used && !IsStored(states[j], id) && !Live(states[j], id)
    ensures id !in states[i].blobs ==> id !in states[j].blobs
  {
    if i < j {
      DeletionIsFinal(states, actions, i, j - 1, id);
      RunKeeps(states, actions, j - 1);
    }
  }

  // ----- live rows have their blobs -----

  /** A compensating delete that succeeds although its insert left a row that is live. */
  predicate Strikes(s: State, a: Action) {
    a.Compensate? && a.ok && Live(s, a.id)
  }

  /** A step keeps live rows backed exactly when it does not strike. */
  lemma StepBacksIff(s: State, a: Action)
    requires Inv(s) && LiveBacked(s) && Enabled(s, a)
    ensures LiveBacked(Apply(s, a)) <==> !Strikes(s, a)
  {
    var s' := Apply(s, a);
    if Strikes(s, a) {
      assert Live(s', a.id) && a.id !in s'.blobs;
    } else {
      forall id | Live(s', id) ensures id in s'.blobs {
        assert Live(s, id) || IsStored(s, id);
      }
    }
  }

  lemma {:induction false} BackedUntilStrike(states: seq<State>, actions: seq<Action>, i: nat)
    requires IsRun(states, actions) && i < |states|
    requires forall t :: 0 <= t < i ==> !Strikes(states[t], actions[t])
    ensures LiveBacked(states[i])
  {
    if i != 0 {
      BackedUntilStrike(states, actions, i - 1);
      RunKeeps(states, actions, i - 1);
      StepBacksIff(states[i - 1], actions[i - 1]);
    }
  }

  /**
   Over every interleaving of uploads, concurrent cleanups and crashes: all live rows have their
   blobs in every state up to i exactly when no step so far was a compensating delete of a file
   whose failed insert had left a live row.
   */
  lemma LiveBackedIff(states: seq<State>, actions: seq<Action>, i: nat)
    requires IsRun(states, actions) && i < |states|
    ensures (forall t :: 0 <= t <= i ==> LiveBacked(states[t])) <==>
            (forall t :: 0 <= t < i ==> !Strikes(states[t], actions[t]))
  {
    if forall t :: 0 <= t < i ==> !Strikes(states[t], actions[t]) {
      forall t | 0 <= t <= i ensures LiveBacked(states[t]) {
        BackedUntilStrike(states, actions, t);
      }
    }
    if forall t :: 0 <= t <= i ==> LiveBacked(states[t]) {
      forall t | 0 <= t < i ensures !Strikes(states[t], actions[t]) {
        assert LiveBacked(states[t]) && LiveBacked(states[t + 1]);
        RunKeeps(states, actions, t);
        StepBacksIff(states[t], actions[t]);
      }
    }
  }

  /** A failed insert that leaves no row. */
  predicate CleanFailure(a: Action) {
    a.FailInsert? ==> !a.rowStays
  }

  lemma {:induction false} CleanUploadsRowless(states: seq<State>, actions: seq<Action>, i: nat)
    requires IsRun(states, actions) && i < |states|
    requires forall t :: 0 <= t < i ==> CleanFailure(actions[t])
    ensures states[i].uploads.Keys !! states[i].files.Keys
  {
    if i != 0 {
      CleanUploadsRowless(states, actions, i - 1);
      RunKeeps(states, actions, i - 1);
      assert CleanFailure(actions[i - 1]);
    }
  }

  /** So it is in every run in which a failed insert leaves no row. */
  lemma FilesOutliveTheirRows(states: seq<State>, actions: seq<Action>, i: nat)
    requires IsRun(states, actions) && i < |states|
    requires forall t :: 0 <= t < i ==> CleanFailure(actions[t])
    ensures LiveBacked(states[i])
  {
    forall t | 0 <= t < i ensures !Strikes(states[t], actions[t]) {
      CleanUploadsRowless(states, actions, t);
    }
    BackedUntilStrike(states, actions, i);
  }

  /** An insert that commits although its caller sees an error ends in a live row without a blob. */
  lemma UnheardInsertLosesBlob() returns (states: seq<State>)
    ensures IsRun(states, [Put(7, true, false), FailInsert(7, true, 0), Compensate(7, true)])
    ensures Strikes(states[2], Compensate(7, true)) && Live(states[3], 7) && 7 !in states[3].blobs
  {
    var s1 := Apply(EMPTY, Put(7, true, false));
    var s2 := Apply(s1, FailInsert(7, true, 0));
    states := [EMPTY, s1, s2, Apply(s2, Compensate(7, true))];
  }

  // ----- files that messages carry -----

  /** Every file a message carries is live. */
  ghost predicate LinkedLive(s: State) {
    forall id :: id in s.linked ==> Live(s, id)
  }

  /** The handler checks that the file is live some steps before the message is saved; here the check is stale. */
  predicate LateLink(s: State, a: Action) {
    a.Link? && !Live(s, a.id)
  }

  lemma StepLinksIff(s: State, a: Action)
    requires Inv(s) && LinkedLive(s) && Enabled(s, a)
    ensures LinkedLive(Apply(s, a)) <==> !LateLink(s, a)
  {
    var s' := Apply(s, a);
    if a.Link? {
      assert a.id in s'.linked && Live(s', a.id) == Live(s, a.id);
    }
    if !LateLink(s, a) {
      forall id | id in s'.linked ensures Live(s', id) {
        assert Live(s, id);
      }
    }
  }

  lemma {:induction false} LinkedUntilLate(states: seq<State>, actions: seq<Action>, i: nat)
    requires IsRun(states, actions) && i < |states|
    requires forall t :: 0 <= t < i ==> !LateLink(states[t], actions[t])
    ensures LinkedLive(states[i])
  {
    if i != 0 {
      LinkedUntilLate(states, actions, i - 1);
      RunKeeps(states, actions, i - 1);
      StepLinksIff(states[i - 1], actions[i - 1]);
    }
  }

  /**
   All files that messages carry are live in every state up to i exactly when no link came after its
   file was claimed.
   */
  lemma LinkedLiveIff(states: seq<State>, actions: seq<Action>, i: nat)
    requires IsRun(states, actions) && i < |states|
    ensures (forall t :: 0 <= t <= i ==> LinkedLive(states[t])) <==>
            (forall t :: 0 <= t < i ==> !LateLink(states[t], actions[t]))
  {
    if forall t :: 0 <= t < i ==> !LateLink(states[t], actions[t]) {
      forall t | 0 <= t <= i ensures LinkedLive(states[t]) {
        LinkedUntilLate(states, actions, t);
      }
    }
    if forall t :: 0 <= t <= i ==> LinkedLive(states[t]) {
      forall t | 0 <= t < i ensures !LateLink(states[t], actions[t]) {
        assert LinkedLive(states[t]) && LinkedLive(states[t + 1]);
        RunKeeps(states, actions, t);
        StepLinksIff(states[t], actions[t]);
      }
    }
  }

  const LATE_RUN: seq<Action> :=
    [Put(7, true, false), InsertRow(7, 0), Claim(1, 10), Link(7), DeleteBlob(Job(1, 7), true)]

  function LateState(i: nat): State {
    var claimed := map[7 := File(0, true)];
    if i == 0 then EMPTY
    else if i == 1 then State({7}, map[], {}, map[7 := Stored], {}, {}, {7})
    else if i == 2 then State({7}, map[7 := File(0, false)], {}, map[], {}, {}, {7})
    else if i == 3 then State({7}, claimed, {}, map[], {Job(1, 7)}, {}, {7})
    else if i == 4 then State({7}, claimed, {7}, map[], {Job(1, 7)}, {}, {7})
    else State({}, claimed, {7}, map[], {}, {Job(1, 7)}, {7})
  }

  lemma LateStep(i: nat)
    requires i < 5
    ensures Enabled(LateState(i), LATE_RUN[i]) && Apply(LateState(i), LATE_RUN[i]) == LateState(i + 1)
  {
    var s, s' := LateState(i), LateState(i + 1);
    if i == 2 {
      assert Orphans(s.files, s.linked, 10) == {7};
      assert Mark(s.files, {7}) == s'.files;
      assert (set id | id in Orphans(s.files, s.linked, 10) :: Job(1, id)) == {Job(1, 7)};
    }
    var t := Apply(s, LATE_RUN[i]);
    assert t.blobs == s'.blobs && t.files == s'.files && t.uploads == s'.uploads;
  }

  /** A file checked while live, then claimed, then linked: its blob goes while the message carries it. */
  lemma LateLinkLosesBlob() returns (states: seq<State>)
    ensures IsRun(states, LATE_RUN)
    ensures Live(states[2], 7) && LateLink(states[3], LATE_RUN[3])
    ensures 7 in states[5].linked && 7 in states[5].files && 7 !in states[5].blobs
  {
    states := seq(6, i requires 0 <= i < 6 => LateState(i));
    forall i | 0 <= i < |LATE_RUN|
      ensures Enabled(states[i], LATE_RUN[i]) && states[i + 1] == Apply(states[i], LATE_RUN[i])
    {
      LateStep(i);
    }
  }

  // ----- one cleanup round -----

  lemma StillThere(files: map<int, File>, orphans: set<int>, gone: set<int>, id: int)
    requires orphans <= files.Keys && id in orphans && id !in gone
    ensures id in Mark(files, orphans) - gone && (Mark(files, orphans) - gone)[id].deleted
  {
  }

  /** The stores as one cleanup task changes them; deleting a missing blob succeeds. */
  class FileStore {
    var blobs: set<int>
    var files: map<int, File>

    constructor (blobs: set<int>, files: map<int, File>)
      ensures this.blobs == blobs && this.files == files
    {
      this.blobs, this.files := blobs, files;
    }

    /**
     A round in which blob deletes and row deletes fail for the files named. Every orphan is marked;
     an orphan whose blob delete succeeds loses its blob, and if the row delete succeeds too, its
     row; nothing else changes.
     */
    method CleanupRound(linked: set<int>, cutoff: int, blobFails: set<int>, rowFails: set<int>)
      modifies this
      ensures var orphans := Orphans(old(files), linked, cutoff);
              && blobs == old(blobs) - (orphans - blobFails)
              && files == Mark(old(files), orphans) - (orphans - blobFails - rowFails)
    {
      var orphans := Orphans(files, linked, cutoff);
      files := Mark(files, orphans);
      var todo := orphans;
      while todo != {}
        invariant todo <= orphans
        invariant blobs == old(blobs) - (orphans - todo - blobFails)
        invariant files == Mark(old(files), orphans) - (orphans - todo - blobFails - rowFails)
        decreases |todo|
      {
        ghost var some := SomeElement(todo);
        var id: int :| id in todo;
        StillThere(old(files), orphans, orphans - todo - blobFails - rowFails, id);
        if id !in blobFails {
          blobs := blobs - {id};
          if id !in rowFails && id in files && files[id].deleted {
            files := files - {id};
          }
        }
        todo := todo - {id};
      }
    }

    /** A fault-free round removes every unlinked row past the cutoff, with its blob, and keeps every other row. */
    method FaultFreeRound(linked: set<int>, cutoff: int)
      modifies this
      ensures forall id ::
                id in old(files) && id !in linked && (old(files)[id].deleted || old(files)[id].createdAt < cutoff) ==>
                id !in files && id !in blobs
      ensures forall id ::
                id in old(files) && (id in linked || !(old(files)[id].deleted || old(files)[id].createdAt < cutoff)) ==>
                id in files && files[id] == old(files)[id] && (id in old(blobs) ==> id in blobs)
    {
      CleanupRound(linked, cutoff, {}, {});
    }
  }
}
