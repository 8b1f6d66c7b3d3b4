# Verified models of the vussa chat backend

vussa keeps its state in PostgreSQL rows and Valkey keys and changes it from many replicas,
workers and sockets at once. This project models the small concurrent protocols inside it, one
module per protocol, and proves what holds in every reachable state of every run: interleavings are
arbitrary, replicas and workers may crash between any two statements, and outside calls may
succeed or fail at will.

A protocol is a state, an `Enabled`/`Apply` pair whose actions are single SQL statements,
transactions or atomic pipes, and `IsRun`, the runs from the initial state. Beside it, code that
changes fields step by step is a class or a method with loops, proved against the same
specification functions. A `Step…Keeps` lemma is the inductive step, a `Run…` lemma the invariant of
all runs, and the lemmas with sentence names are the results.

| module | what it covers |
|---|---|
| `KeyOrder`, `UuidOrder`, `ChatTypes` | the (created_at, id) order, "the n newest" by rank, and why UUID text sorts like UUID numbers |
| `HotIndex` | the Valkey hot index under concurrent stores, hydrates, trims and crashes |
| `HistoryPages`, `PageWalk`, `ClientScroll`, `ThreadedScroll` | history pages from cache and table, the arithmetic of walks over pages, and a client scrolling back through the handler, without and with threads |
| `SettledHistory`, `CommitOrder` | the two tiers together over whole runs, and runs in which commits and cache writes interleave |
| `LeaseQueue` | the leased outbox and notification delivery queues |
| `RoomService` | sockets, mailbox and room manager, routing, reconnection |
| `IdempotentSend`, `Reconcile` | idempotent sends and notification reconciliation |
| `SingleFlight` | coalesced password verification |
| `Membership`, `InviteLinks` | channel ownership and invite conservation |
| `FileLifecycle` | blobs and their metadata rows |
| `Frames` | the smoke client's frame writer and reader (sections 5.2 and 5.3 of RFC 6455) |
| `BenchVerdict` | the benchmark's counters and pass verdict |

## Where the code departs from its evident intent

The models follow the code. Each departure is stated as an exact condition or a concrete run.

- A 51-row database page is cut at the wrong end (`backend/src/websocket/history.rs:128`):
  `CursorPageIntendedIff` says when that shows on one page. Over a whole scroll-back the cache serves
  the first pages, since a first page from the database hydrates 300 rows; `ScrollBack` and
  `ScrollMisses` say exactly which rows below those a client never sees, `ScrollShowsAllIff` when it
  sees all, and `ScrollThreads` and `NoneLostIff` the same where the index holds replies too.
- The first page compares with 300 although 50 rows are sent: `FirstPage` and `FirstHasMoreRightIff`
  say when has_more is right, and `IntendedScrollShowsAllIff` that a channel of 51 to 300 rows whose
  first page comes from the database stops at 50 even with the newest-50 cut. `OlderPage` and
  `CursorHasMoreRightIff` answer the same question for cursor pages.
- Replies enter the index but no table page, and system messages enter the table only:
  `CachePageIff` gives the exact condition for a cached page to be the table's, `ReplyBreaksPage` and
  `SystemMessageBreaksPage` families of runs in which it is not.
- An edit reports `deleted: false` unseen: `CachedCopyIsTheRow` holds exactly for rows not deleted, and
  `EditRevivesInCache` is what readers then get.
- The cache is written after the commit, in whatever order: `CachedIsRowIff` gives the exact condition,
  `RacingEditsLeaveOldText` and `StaleHydrateLeavesOldText` the runs.
- A retry compares file ids in the order an unordered subselect lists them: `RetryDecided`,
  `RetrySucceeds` and `RetryMayBeRejected`.
- A hydrate adds without trimming: `HydrateKeepsSettledIff`.
- A failed switch still releases: `LawHoldsIff` gives the exact condition, `FailedSwitchStealsRoom`
  a run, `OrphanTakesFreshRoom` how it goes on from there, `LawHoldsWithFix` the law when that exit
  releases nothing.
- So a holder may stop hearing its room: `ReachesOnlyItsChannel` holds nevertheless, `HearsIff` says
  exactly when all holders hear, and `ExactIffHears` that this is exact delivery.
- `Members` events are published but not routed: `OtherEvents`.
- A completion does not check that its claim is still its own: `ExclusiveIff` says exactly when a
  row gets two holders, `FinishFreesAnotherIff` exactly when a completion takes away another holder's
  claim, and `SlowWorkerSharesRow` is a run with both.
- A transfer is checked before its transaction: `SoundIffSafe` gives the exact condition,
  `RacingTransfersMakeTwoOwners` a run.
- A metadata insert that commits although the caller sees an error loses its blob: `LiveBackedIff`
  and `UnheardInsertLosesBlob`.
- A file is checked some statements before the message that carries it is saved: `LinkedLiveIff` and
  `LateLinkLosesBlob`.
- The verification key concatenates without separators: `KeysDistinctIffPrefixFree`.

## Model

| member | source | states |
|---|---|---|
| `UuidOrder.MemberOrderIsIdOrder` | backend/src/websocket/history.rs:236-245 | lower-case UUID text compares bytewise exactly as the 128-bit ids do, and distinct ids have distinct text |
| `UuidOrder.EntryOrderIsKeyOrder` | backend/src/websocket/history.rs:218-220 | Valkey's (score, member) order is the (created_at, id) order of cursor and table |
| `UuidOrder.TextReadsBack` | backend/src/websocket/history.rs:236-245 | the text of an id has its dashes at 8, 13, 18 and 23 and lower-case digits elsewhere, whose value is the id |
| `HotIndex.OldIdsAreTheRest` | backend/src/websocket/history.rs:273-279 | the ids read for trimming are exactly those outside the 300 newest by rank |
| `HotIndex.NewestRange` | backend/src/websocket/history.rs:153-159 | ranks -300 to -1 are the 300 newest, oldest first |
| `HotIndex.StepKeeps` | backend/src/websocket/history.rs:222-294 | every store, hydrate, ZRANGE, ZREM, HDEL and crash keeps the index invariant |
| `HotIndex.IndexNeverLosesHot` | backend/src/websocket/history.rs:222-294 | in every run, order set and hash always hold the 300 newest keys written so far |
| `HotIndex.LoneStore` | backend/src/websocket/history.rs:251-294 | from any state, a store nobody interrupts runs through its commands and leaves exactly the 300 newest of the order and the payloads that go with them |
| `HotIndex.CrashKeepsStores` | backend/src/websocket/history.rs:273-292 | a replica may die at any point of its store; what it did stays |
| `HotIndex.IndexSettles` | backend/src/websocket/history.rs:251-294 | after a last trim with no write or lost ZREM following, once all stores end the order is exactly the 300 newest; any surplus in the hash was left by a crash between ZREM and HDEL |
| `HotIndex.CoveredAndIdle` | backend/src/websocket/history.rs:273-292 | with no store in flight and every stale id doomed or gone, the order is exactly the 300 newest |
| `HotIndex.NoCrashNoLeak` | backend/src/websocket/history.rs:280-292 | without crashes the hash has no surplus |
| `HotIndex.HydrateKeepsSettledIff` | backend/src/websocket/history.rs:222-249 | a hydrate keeps an exact index exact if and only if index and rows together are at most 300 |
| `HotIndex.ChannelIndex.Hydrate` | backend/src/websocket/history.rs:233-247 | the loop adds all keys and payloads, later entries winning |
| `HotIndex.ChannelIndex.Trim` | backend/src/websocket/history.rs:273-292 | leaves the 300 newest of the order and drops exactly the trimmed payloads |
| `HotIndex.ChannelIndex.StoreMessage` | backend/src/websocket/history.rs:251-294 | an uninterrupted store leaves exactly the 300 newest including the new one |
| `HistoryPages.LoadMessagesIsNewestPage` | backend/src/repository/postgres.rs:232-252 | descending query, limit and reversal give the newest root rows strictly before the cursor, oldest first, defined by rank |
| `HistoryPages.CachedCopyIsTheRow` | backend/src/repository/postgres.rs:254-335 | the copy an edit returns is the row's view if and only if the row was not deleted; a deletion's copy always is; what each writes to the row, column by column, the first deletion time kept, and nothing to any other row |
| `HistoryPages.HotKeysSorted` | backend/src/websocket/history.rs:187-211 | score range, limit, dropped payloads, cursor filter and sort list the index entries found before the cursor in ascending order |
| `HistoryPages.HotPageKeys` | backend/src/websocket/history.rs:148-216 | a cached read over true copies answers with the views of the newest entries found, entries without payload dropped |
| `HistoryPages.CachePageIff` | backend/src/websocket/history.rs:177-216 | over any index of true copies and any trims between its two reads: the newest n rows shown are the table's newest n if and only if the newest n entries found are root rows and no root row newer than the oldest of them is missing |
| `HistoryPages.NewestAgree` | backend/src/websocket/history.rs:148-175 | an index of the 300 newest root rows with true payloads agrees with the table |
| `HistoryPages.FullHotPageIsTablePage` | backend/src/websocket/history.rs:148-216 | a full read of an agreeing index, with or without a cursor, is the table's newest rows strictly before the cursor |
| `HistoryPages.HydrateAgrees` | backend/src/websocket/history.rs:118-121 | hydrating the newest table rows keeps index and table in agreement |
| `HistoryPages.ReadThrough` | backend/src/websocket/history.rs:108-123 | reads one row more than the limit, tells exactly whether more exist, hydrates the newest 300 on a first page only, and keeps agreement |
| `HistoryPages.SendHistoryPage` | backend/src/websocket/history.rs:92-146 | over any index, ids and payloads read apart: which source serves, what the database page is (first page exact and hydrated, cursor page the 51 newest without the newest of them), when a cache page is the intended one (if and only if), the value of has_more, agreement kept |
| `HistoryPages.CursorPageIntendedIff` | backend/src/websocket/history.rs:127-129 | the database cut is the intended page if and only if at most 50 rows precede the cursor |
| `SettledHistory.PayloadIsLastWrite` | backend/src/websocket/history.rs:251-302 | in every run the hash holds under each key what was written last there by a store, an update or a hydrate |
| `SettledHistory.SettledIndexAgreesIff` | backend/src/websocket/history.rs:222-302 | over whole runs with edits and deletions: a settled index of the table's newest 300 rows agrees with the table if and only if each of these rows was written last as it is now |
| `SettledHistory.SettledPagesAreTablePages` | backend/src/websocket/history.rs:148-216 | then its full pages equal the table query's answer, from every cursor and without one |
| `SettledHistory.RunPageIff` | backend/src/websocket/history.rs:187-203 | in any run, ids read in one state and payloads in a later one: when the cached rows are the table's (if and only if), and no entry still among the 300 newest is dropped in between |
| `SettledHistory.ReplyBreaksPage` | backend/src/websocket/handler.rs:394 | runs for 49 to 299 cached rows: one stored reply makes a settled index of true copies serve a full cursor page that is not the table's |
| `SettledHistory.SystemMessageBreaksPage` | backend/src/api/channels.rs:150-178 | runs for 50 to 300 cached rows: one system message, written to the table only, does the same |
| `CommitOrder.StepKeeps` | backend/src/websocket/handler.rs:398-431 | commits, reads, cache writes, trims and losses keep: every copy under way or written is of a version of its row, and the hash holds the copies written last |
| `CommitOrder.CachedIsRowIff` | backend/src/websocket/handler.rs:405-409 | in every run a cached message is the row's view if and only if the copy written last was no edit of a deleted row and was made of a version that shows what the row shows now; the latter holds if no commit since changed what the row shows |
| `CommitOrder.EditBackShowsRow` | backend/src/websocket/handler.rs:405-409 | why the views are compared: from any state, a text edited away and back is current in the cache although commits changed it since |
| `CommitOrder.IndexAgreesIff` | backend/src/websocket/history.rs:222-302 | in every run an exact index of the newest 300 root rows agrees with the table if and only if the copies written last show these rows |
| `CommitOrder.CommitOrderAgrees` | backend/src/websocket/handler.rs:405-409 | so it does when each row's last write stems from its last change or later and none is of an edited deleted row |
| `CommitOrder.SaveThenWrite` | backend/src/websocket/handler.rs:354-394 | from any state, a message saved and then written is in table, order and hash, the same |
| `CommitOrder.ChangeThenWrite` | backend/src/websocket/handler.rs:398-431 | from any state, an edit of a row not deleted, and any deletion, once written, is in table and hash, the same |
| `CommitOrder.ReadThenWrite` | backend/src/websocket/history.rs:110-120 | rows read and hydrated at once are in the hash as the table shows them |
| `CommitOrder.UncachedSteps` | backend/src/api/channels.rs:150-178 | a system message goes to the table and changes no cache |
| `CommitOrder.TrimIsIndexStep` | backend/src/websocket/history.rs:273-292 | a replica's trim steps are the hot index's steps and touch nothing else |
| `CommitOrder.RacingEditsLeaveOldText` | backend/src/websocket/handler.rs:405-409 | from any state with a live row: two edits written against their commit order leave the older text in the cache |
| `CommitOrder.StaleHydrateLeavesOldText` | backend/src/websocket/history.rs:110-120 | from any state: rows read before an edit and hydrated after it put the old text back |
| `CommitOrder.EditRevivesInCache` | backend/src/repository/postgres.rs:277-293 | from any state with a deleted row: an edit shows it in the cache as not deleted |
| `PageWalk.PageKeysAreTheHandlers` | backend/src/websocket/history.rs:92-146 | the handler's cursor page and has_more are the walk's page and continuation |
| `PageWalk.RequestIsPage` | backend/src/websocket/history.rs:92-146 | the page of a request is the slice of rows its stop names, and has_more is the walk's continuation |
| `PageWalk.NextCursor` | backend/src/websocket/history.rs:218-220 | asking again with the oldest row held leaves exactly the rows before the page |
| `PageWalk.WalkTiles` | backend/src/websocket/history.rs:92-146 | from any cursor, whoever serves each page, the walk ends, each request starts where the last ended, and the requests cover all rows before the cursor |
| `PageWalk.WalkMovesBackwards` | backend/src/websocket/history.rs:92-146 | later pages lie strictly before earlier ones, so no row repeats |
| `PageWalk.ShownOrJumped` | backend/src/websocket/history.rs:92-146 | every row is shown or jumped over, never both |
| `PageWalk.IntendedWalkShowsAll` | backend/src/websocket/history.rs:124-129 | with the newest-50 cut the walk shows every row before its first cursor |
| `PageWalk.RequestJumps` | backend/src/websocket/history.rs:127-129 | as written, a request jumps over exactly the row next to the cursor when the database serves it and more than 50 rows are left, otherwise over nothing |
| `PageWalk.DatabaseWalkSkips` | backend/src/websocket/history.rs:127-129 | a walk served by the database from its cursor on misses row i if and only if i is one of the positions 51 apart |
| `PageWalk.ScrollTiles` | backend/src/websocket/history.rs:100-129 | first page included, a scroll-back ends, its pages follow one another, and they reach the oldest row if and only if there are at most 50 rows or the first page announces more |
| `PageWalk.ScrollMovesBackwards` | backend/src/websocket/history.rs:100-129 | a scroll-back shows no row twice |
| `PageWalk.IntendedScrollShowsAllIff` | backend/src/websocket/history.rs:107-126 | even with the newest-50 cut a scroll-back shows every row if and only if there are at most 50 or the first page announces more |
| `PageWalk.JumpFreeScrollIff` | backend/src/websocket/history.rs:107-129 | whoever serves the pages, every row is shown if and only if there are at most 50, or the first page announces more and the database cuts no cursor page |
| `PageWalk.ScrollMisses` | backend/src/websocket/history.rs:100-129 | of n rows with m in the index, exactly which are never shown: all but 50 if the first page stops, else every 51st row of those below the pages the cache serves |
| `PageWalk.ScrollShowsAllIff` | backend/src/websocket/history.rs:100-129 | every row is shown if and only if n is at most 50, or n exceeds 300 or m reaches 300 and at most 50 rows lie below the pages the cache serves |
| `ClientScroll.FirstHasMoreRightIff` | backend/src/websocket/history.rs:107-117 | a first page's has_more is true to the rows left if and only if there are at most 50 or more than 300 rows or the cache served it |
| `ClientScroll.CursorHasMoreRightIff` | backend/src/websocket/history.rs:107-117 | a cursor page's has_more is true to the rows left if and only if more than 50 rows precede the cursor (cache), or not exactly 51 (database) |
| `ClientScroll.ReachedBelow` | backend/src/websocket/history.rs:187-194 | the score range reaches 50 entries before the cursor if and only if the index has them, unless it exceeds 300 entries with over 250 in one millisecond |
| `ClientScroll.FullReadIff` | backend/src/websocket/history.rs:187-214 | a cached cursor read is full if and only if the index holds 50 entries before the cursor |
| `ClientScroll.FullFirstReadIff` | backend/src/websocket/history.rs:153-174 | a cached first read is full if and only if the index holds 300 entries |
| `ClientScroll.EntriesBefore` | backend/src/websocket/history.rs:218-220 | how many entries an index without gaps has before a row, from the two sizes |
| `ClientScroll.HydrateFills` | backend/src/websocket/history.rs:118-121 | a hydrate fills an index of fewer than 300 entries to exactly the newest 300 rows |
| `ClientScroll.FirstPage` | backend/src/websocket/history.rs:100-126 | over an agreeing index: the cache serves the first page if and only if it holds 300, the page shows the newest 50 rows, when its has_more is right (if and only if), and how many entries the index then has |
| `ClientScroll.OlderPage` | backend/src/websocket/history.rs:92-146 | over an agreeing index: when the cache serves the page before the oldest row held (if and only if), which rows it shows, when its has_more is right (if and only if), index unchanged |
| `ClientScroll.ScrollBack` | backend/src/websocket/history.rs:92-146 | a client that asks until has_more is false: the loop ends, the row count and the size of the index decide who serves each page, exactly which rows no page shows, and when none is lost (if and only if) |
| `ThreadedScroll.AskFirst` | backend/src/websocket/history.rs:100-126 | over an index with replies: the first page shows the newest 50 entries if the index has 300, else the newest 50 root rows, and then the newest 300 root rows are hydrated |
| `ThreadedScroll.AskOlder` | backend/src/websocket/history.rs:92-146 | over an index with replies: a cursor page comes from the cache if and only if 50 entries precede the cursor, and then shows the newest 50 of them, replies included |
| `ThreadedScroll.ScrollThreads` | backend/src/websocket/history.rs:92-146 | over any index of true copies, replies included, that misses no root row above its oldest entry: the loop ends, and exactly which root rows no page shows |
| `ThreadedScroll.NoneLostIff` | backend/src/websocket/history.rs:100-129 | no root row is lost if and only if there are at most 50, or the first page announces more and at most 50 root rows lie below the entry at which the index ends |
| `ThreadedScroll.AgreesIsThreaded` | backend/src/websocket/history.rs:148-175 | an index that agrees with the table is such an index without replies |
| `ThreadedScroll.UpwardClosedIsThreaded` | backend/src/websocket/handler.rs:394 | an index without gaps among all rows, replies included, is such an index |
| `LeaseQueue.RetryDelayBounds` | backend/src/notifications/delivery.rs:209-213 | the delay never saturates the multiplication, is monotone, doubles up to attempt 11 and stays within one second to one hour |
| `LeaseQueue.StepKeeps` | backend/src/outbox.rs:29-55 | every claim, dispatch, completion, loss and clock step keeps the queue invariant |
| `LeaseQueue.RunKeeps` | backend/src/outbox.rs:5-55 | the invariant holds in every state of every run |
| `LeaseQueue.EnqueuedIsClaimable` | backend/src/outbox.rs:32-38 | a new row is claimable by anybody once it is due |
| `LeaseQueue.ClaimLeases` | backend/src/outbox.rs:41-47 | a claim gives its worker a lease on each row it names, at the time sampled, with one more attempt, and touches no other row |
| `LeaseQueue.DispatchAndFinish` | backend/src/outbox.rs:127-145 | from any state, a dispatch and its completion: a success finishes an unfinished row now, a failure frees it, a delivery after its backoff; nothing else changes |
| `LeaseQueue.LossKeepsRows` | backend/src/outbox.rs:10-21 | a worker that dies leaves every row as it is |
| `LeaseQueue.OutboxDispatchedAtMostFiveTimes` | backend/src/outbox.rs:29-55 | whatever the interleaving and crashes, an event is dispatched at most five times |
| `LeaseQueue.CountIsDispatches` | backend/src/outbox.rs:10-14 | dispatches counted over the run are the leases that were dispatched |
| `LeaseQueue.DoneIsFinal` | backend/src/outbox.rs:127-145 | a finished row had a successful dispatch and never changes again |
| `LeaseQueue.AlwaysClaimableAgain` | backend/src/outbox.rs:32-41 | an unfinished row with attempts left is claimable more than 60 s after its last claim |
| `LeaseQueue.HeldClaimableIff` | backend/src/outbox.rs:35-37 | a row carrying its holder's claim is claimable if and only if the sample is past the holder's 60 s, attempts are left and a delivery is due |
| `LeaseQueue.ExclusiveIff` | backend/src/outbox.rs:3-55 | in both queues, over every run: no row ever has two holders if and only if no claim came more than 60 s after the claim of somebody still holding the row |
| `LeaseQueue.LeaseExclusion` | backend/src/outbox.rs:3-55 | so if each claim is finished within 60 s of its claimed_at, no row ever has two holders |
| `LeaseQueue.FinishFreesAnotherIff` | backend/src/outbox.rs:127-145 | in every reachable state a completion takes another holder's claim if and only if the row is unfinished and claimed under an attempt that is not the finisher's and still held; a failing one leaves an outbox row with attempts left free for anybody |
| `LeaseQueue.FreeingNeedsOverdue` | backend/src/outbox.rs:137-139 | that happens only after an overdue claim |
| `LeaseQueue.DeliveryClaimsSpaced` | backend/src/notifications/delivery.rs:146-198 | with no overdue claim before, successive claims of a delivery are at least min(retry delay, 60 001 ms) apart |
| `LeaseQueue.SlowWorkerSharesRow` | backend/src/outbox.rs:137-139 | a concrete run: two workers hold one row and the first one's failure wipes the second's claim |
| `LeaseQueue.PickedOldestFirst` | backend/src/outbox.rs:32-41 | the batch is claimable, at most 32, in the order of created_at (outbox) or next_attempt_at (deliveries) and id, and every claimable row left out comes after all of it by those columns |
| `LeaseQueue.PickedIsClaim` | backend/src/outbox.rs:41-47 | what the statement picks and writes is always a step of the machine |
| `LeaseQueue.WorkTable.ClaimEvents` | backend/src/outbox.rs:29-55 | claims the first 32, by created_at or next_attempt_at and id, of the rows that are unfinished, unclaimed or claimed over 60 s ago, and under five attempts or due; each gets the new time and one more attempt; nothing else changes |
| `LeaseQueue.WorkTable.FinishEvent` | backend/src/outbox.rs:127-145 | finished and unknown rows stay; an unfinished one keeps its attempts and is done if delivered, else free, a delivery after its backoff; nothing else changes |
| `LeaseQueue.WorkTable.FinishAll` | backend/src/outbox.rs:10-21 | finishes each claimed row by its own outcome and leaves all others |
| `LeaseQueue.WorkTable.RunOnce` | backend/src/outbox.rs:6-26 | one round uses one attempt of each picked row, leaves it done or free, and touches nothing else |
| `RoomService.StepKeepsLawIff` | backend/src/websocket/rooms.rs:98-128 | a step keeps "client count = holders + queued releases, entry present exactly when positive" if and only if it does not handle a release its sender had no room for while the room exists |
| `RoomService.SpuriousReleaseKeepsLawIff` | backend/src/websocket/rooms.rs:115-126 | such a release is harmless if and only if the room is absent |
| `RoomService.LawHoldsIff` | backend/src/websocket/handler.rs:133-159 | over whole runs, the law holds throughout if and only if no such step occurred |
| `RoomService.LawHoldsWithFix` | backend/src/websocket/handler.rs:198-211 | with the failed-switch exit releasing nothing, the law holds in every run |
| `RoomService.FailedSwitchStealsRoom` | backend/src/websocket/handler.rs:154-157 | a concrete run as written: a socket holds a room, yet the room is gone and its messages do not arrive |
| `RoomService.OpenComes` | backend/src/websocket/handler.rs:69-75 | a new socket comes to the orphaned main room by opening |
| `RoomService.SwitchComes` | backend/src/websocket/handler.rs:133-153 | a socket that holds another room comes to any orphaned room by switching |
| `RoomService.OrphanTakesFreshRoom` | backend/src/websocket/handler.rs:192-210 | in any room and for any newcomer: the orphan's own release takes the fresh room down and leaves the newcomer orphaned |
| `RoomService.SubscribedKept` | backend/src/websocket/rooms.rs:98-128 | every step keeps a serving manager subscribed to `_control` and to all its rooms |
| `RoomService.RunKeepsBasics` | backend/src/websocket/rooms.rs:83-210 | so in every run, across connection losses, failed restores and failed unsubscribes |
| `RoomService.SocketSteps` | backend/src/websocket/handler.rs:133-159 | what opening, switching, asking, leaving and giving up do to the socket and which command each sends |
| `RoomService.ConnectionSteps` | backend/src/websocket/rooms.rs:174-208 | a lost connection keeps rooms, counts, sockets and mailbox; a restored one listens to `_control` and exactly the rooms of the map |
| `RoomService.ReachesOnlyItsChannel` | backend/src/websocket/rooms.rs:142-166 | in every run of the code as written and of the fixed one, whatever was released, a routed room event reaches only sockets that hold its own channel |
| `RoomService.ExactIffHears` | backend/src/websocket/rooms.rs:142-166 | while the manager serves, every message, update, reaction, participant, presence and typing event reaches exactly the holders of its room if and only if every holder is attached to the live sender of its room |
| `RoomService.OtherEvents` | backend/src/websocket/rooms.rs:153-165 | a Members event or one of an ignored kind reaches nobody on any topic, a control event every open socket |
| `RoomService.DeafOffTopic` | backend/src/websocket/rooms.rs:130-133 | nothing arrives on a topic the manager is not subscribed to, nor while its connection is lost |
| `RoomService.StepKeepsHearingIff` | backend/src/websocket/rooms.rs:115-126 | a step leaves every holder hearing if and only if it does not take the last count of a room somebody still holds |
| `RoomService.HearsIff` | backend/src/websocket/rooms.rs:98-128 | over whole runs, as written and fixed, all holders hear throughout if and only if no step was such a theft |
| `RoomService.RunDeliversExactlyToHolders` | backend/src/websocket/rooms.rs:130-173 | in every run without a theft so far, as written and fixed, a serving manager delivers room events exactly to the holders |
| `RoomService.FixDeliversExactly` | backend/src/websocket/handler.rs:198-211 | with the failed-switch exit releasing nothing there is no theft, so every serving state of every run delivers exactly |
| `RoomService.RetryWaitBounds` | backend/src/websocket/rooms.rs:212-214 | waits are monotone, within 250 ms to 10 s, and reach 10 s |
| `RoomService.TryRestore` | backend/src/websocket/rooms.rs:190-205 | one attempt succeeds if and only if Valkey accepts `_control` and every room, and then all are subscribed |
| `RoomService.Reconnect` | backend/src/websocket/rooms.rs:185-208 | the loop restores if and only if some attempt accepts everything, and waits as scheduled before each |
| `RoomService.RoomManager.OnSubscribe` | backend/src/websocket/rooms.rs:100-114 | is the machine's subscribe step; counts one more client of the same sender, or opens the room unless Valkey refuses; other rooms unchanged |
| `RoomService.RoomManager.OnRelease` | backend/src/websocket/rooms.rs:115-126 | is the machine's release step; undoes one subscription; the room goes with the last client, its topic if Valkey agrees; other rooms unchanged |
| `IdempotentSend.StepKeeps` | backend/src/websocket/handler.rs:301-380 | look-up, insert and second look-up of any socket keep the invariant, edits, deletions and channel removals in between |
| `IdempotentSend.MissGoesOn` | backend/src/websocket/handler.rs:325-355 | a first look-up that finds nothing leaves the table alone and the send inserting under its new id |
| `IdempotentSend.InsertDoes` | backend/src/websocket/handler.rs:356-361 | an insert that commits adds exactly the request's row; heard it ends the send with its id, unheard or refused it leads to the second look-up |
| `IdempotentSend.SecondLookUpFailsIff` | backend/src/websocket/handler.rs:361-380 | the second look-up fails the send if and only if it finds nothing, and changes no row |
| `IdempotentSend.OtherSteps` | backend/src/repository/postgres.rs:254-335 | what edits, deletions and channel removals of others do to the rows |
| `IdempotentSend.LoneRetry` | backend/src/websocket/handler.rs:302-324 | from any state, a lone send whose key is stored in a live channel is decided by the row as listed and changes no row |
| `IdempotentSend.LoneSend` | backend/src/websocket/handler.rs:325-361 | from any state, a lone send of a new key whose commit is heard stores its row and succeeds with its id |
| `IdempotentSend.LoneUnheardSend` | backend/src/websocket/handler.rs:356-380 | from any state, one whose commit nobody heard of finds its own row again and is decided by it; without a client id or a commit it fails |
| `IdempotentSend.RunKeeps` | backend/migrations/0006_message_collaboration.sql:23-25 | one row per (session, client id) in every state of every run |
| `IdempotentSend.SendsAreIdempotent` | backend/src/websocket/handler.rs:301-380 | all successful sends with one key return the same id and agree on channel, root and files |
| `IdempotentSend.SuccessMatchedWhenChecked` | backend/src/websocket/handler.rs:301-380 | at the step where a send succeeds, the stored row shows its channel, text, root and files |
| `IdempotentSend.SameKeySameText` | backend/src/websocket/handler.rs:301-380 | without edits and deletions two successes with one key had the same text |
| `IdempotentSend.RetryDecided` | backend/src/websocket/handler.rs:302-324 | in every run a look-up whose key is stored in a live channel finds that row and succeeds with its id if and only if the row as listed shows the request |
| `IdempotentSend.OrderFreeIff` | backend/src/repository/postgres.rs:221 | a list of files reads the same in every order if and only if no two of them differ |
| `IdempotentSend.RetrySucceeds` | backend/src/websocket/handler.rs:302-324 | in every run the retry of an unchanged message with at most one file succeeds with the same id |
| `IdempotentSend.RetryMayBeRejected` | backend/src/websocket/handler.rs:308-316 | with two different files, from every such state, some listing of the files rejects the retry |
| `IdempotentSend.MessageTable.Find` | backend/src/repository/postgres.rs:215-230 | finds a row with the key in a live channel or tells that there is none |
| `IdempotentSend.MessageTable.Save` | backend/src/repository/postgres.rs:179-213 | the row is stored if and only if the insert commits, the key is unused and the channel live; the caller may not hear of it |
| `IdempotentSend.MessageTable.SendMessage` | backend/src/websocket/handler.rs:301-380 | alone, for every fate of the insert: whatever order files are listed in: a key known in a live channel changes nothing and succeeds exactly when the row as listed still shows the request; a commit nobody heard of is found again and compared; every other send fails and changes nothing |
| `Reconcile.NotificationTables.Recipients` | backend/src/api/notifications.rs:258-288 | one recipient with a new id per query row, in order |
| `Reconcile.NotificationTables.Upsert` | backend/src/api/notifications.rs:294-347 | the upsert updates only bodies of named slots, adds only missing slots, keeps slots unique, and returns each recipient's own notification id |
| `Reconcile.NotificationTables.Insertions` | backend/src/api/notifications.rs:348-371 | lists one new delivery per recipient and medium switched on, and none else |
| `Reconcile.NotificationTables.Enqueue` | backend/src/api/notifications.rs:372-392 | adds exactly the missing (notification, channel) pairs and leaves every existing delivery as it was |
| `Reconcile.NotificationTables.CreateNotifications` | backend/src/api/notifications.rs:257-396 | the whole transaction meets the relation between tables before and after that the run lemmas use |
| `Reconcile.SlotsAfter` | backend/src/api/notifications.rs:295-305 | the slots taken afterwards are those taken before and those of the recipients, no others |
| `Reconcile.RecipientIsTold` | backend/src/api/notifications.rs:259-289 | each recipient ends with a notification whose kind and words follow from the mention, the switch and the channel, and a delivery per medium switched on |
| `Reconcile.NewDeliveryIs` | backend/src/api/notifications.rs:348-391 | a delivery the transaction adds is due at once, unclaimed, unsent, for the user of its notification and for a medium that user has on |
| `Reconcile.WorkerIsQueue` | backend/src/notifications/delivery.rs:146-198 | claim, acknowledgement and rescheduling of a delivery are the leased queue's claim and completions of its row |
| `Reconcile.ClaimPossible` | backend/src/notifications/delivery.rs:148 | a delivery the leased queue may claim may be claimed here |
| `Reconcile.ReadOnce` | backend/src/api/notifications.rs:34 | a reading sets the time once and changes nothing else |
| `Reconcile.RepeatChangesNothing` | backend/src/api/notifications.rs:303-304 | where every recipient is up to date the transaction changes nothing, whatever ids it draws |
| `Reconcile.NotesStayUnique` | backend/src/api/notifications.rs:295-305 | the upsert keeps (user, message, kind) unique: what it adds was not taken and differs |
| `Reconcile.JobsStayUnique` | backend/src/api/notifications.rs:372-391 | the insert keeps (notification, channel) unique |
| `Reconcile.RunKeeps` | backend/migrations/0019_notification_idempotency.sql:18-19 | in every run at most one notification per (user, message, kind) and one delivery per (notification, channel) |
| `Reconcile.NothingTakenBack` | backend/src/api/notifications.rs:294-391 | ids, identities, readings, attempts and sent deliveries survive every later step |
| `Reconcile.ReconcileResetsNothing` | backend/migrations/0020_notification_delivery_idempotency.sql:7-8 | over any stretch of a run without a worker's statement about a delivery, whatever is reconciled or replayed, its attempts, claim and sent state stay |
| `Reconcile.NotifiedExactlyOnce` | backend/src/api/notifications.rs:257-435 | once reconciled, a recipient has in all later states exactly one notification, under a stable id, with exactly one delivery per medium |
| `Reconcile.ReplayChangesNothing` | backend/src/api/notifications.rs:398-435 | a retry or replay for the same recipients changes nothing, whatever workers, readers and other messages did in between |
| `SingleFlight.KeysDistinctIffPrefixFree` | backend/src/auth.rs:35-41 | the key's bytes identify user, hash and password if and only if the encoded hashes are prefix-free |
| `SingleFlight.StepKeeps` | backend/src/auth.rs:43-103 | every join, permit, verdict, publication and removal keeps the flight invariant |
| `SingleFlight.OneFlightPerKey` | backend/src/auth.rs:50-59 | at most one unfinished flight per key and at most the permit limit running |
| `SingleFlight.EntryIffUnfinished` | backend/src/auth.rs:79-80 | a map entry exists if and only if a flight for its key is unfinished |
| `SingleFlight.AnswerIsOwnVerdict` | backend/src/auth.rs:83-103 | with an ideal digest and prefix-free hashes an Ok answer is the verdict on the caller's own inputs |
| `SingleFlight.OutcomeFromActions` | backend/src/auth.rs:63-80 | in every run an outcome is Verified if and only if the flight verified without a panic, Unavailable if and only if it panicked, Overloaded if and only if it gave up waiting, and out if and only if published |
| `SingleFlight.AnswerFromActions` | backend/src/auth.rs:83-103 | in every run a caller is answered if and only if its flight was published, and a flight that verified without a panic answers the verdict on the caller's own inputs |
| `SingleFlight.CallJoinsOrStarts` | backend/src/auth.rs:49-59 | a call joins the open flight of its key or starts one with its own inputs |
| `SingleFlight.FlightMayFinish` | backend/src/auth.rs:63-81 | a waiting flight with a permit free may run, verify, publish and be removed, and gives the permit back |
| `SingleFlight.AnswerIsNear` | backend/src/auth.rs:63-81 | from any reachable state a caller is at most three steps of its own flight away from an answer |
| `SingleFlight.AnswersAreFinal` | backend/src/auth.rs:83-103 | answers never change and flights never go back |
| `Membership.TransferKeepsIff` | backend/src/api/members.rs:174-199 | a transfer's write keeps the single owner if and only if the target is a member of the private channel and the owner is the actor, or already the target |
| `Membership.LeaveKeepsIff` | backend/src/api/members.rs:36-66 | a leave keeps it if and only if the leaver is not the owner |
| `Membership.WriteKeepsIff` | backend/src/services.rs:158-245 | any handler's write from a sound state keeps all channels sound if and only if it is safe then, however stale its check |
| `Membership.CheckedIsSafe` | backend/src/api/channels.rs:254-279 | a check that holds at the write makes the write safe |
| `Membership.ChecksDemand` | backend/src/api/channels.rs:254-279 | whom each handler lets through |
| `Membership.WriteDoes` | backend/src/api/members.rs:97-219 | what each handler's write does to every member's role, to the recorded owner and to no other channel |
| `Membership.CreateDoes` | backend/src/services.rs:55-156 | with whom, in which role, a new channel starts |
| `Membership.HandlerSteps` | backend/src/api/members.rs:164-219 | a handler that passed its check may write at any later time |
| `Membership.SoundIffSafe` | backend/src/api/members.rs:97-219 | over any interleaving, ownership is sound throughout if and only if every write is safe when it happens |
| `Membership.SerialRunsAreSound` | backend/src/services.rs:55-99 | in every serial run each private channel has exactly one owner member, the recorded owner |
| `Membership.RacingTransfersMakeTwoOwners` | backend/src/api/members.rs:174-199 | a concrete run: two transfers checked before either writes leave two owners |
| `InviteLinks.StepKeeps` | backend/src/api/channels.rs:59-111 | every lock, check, insert, commit, rollback, invite and removal keeps the link invariant |
| `InviteLinks.UsesAreGrants` | backend/src/api/channels.rs:71-99 | over every interleaving a link's uses are the memberships it granted and never exceed a positive max_uses |
| `InviteLinks.UseBuysAMembership` | backend/src/services.rs:167-193 | a change of uses is one commit that lets in one user who was not a member |
| `InviteLinks.LockIff` | backend/src/api/channels.rs:71-83 | a link lets a transaction in if and only if it is unlocked, not at or past its expiry and has a use left |
| `InviteLinks.AcceptLetsIn` | backend/src/api/channels.rs:71-99 | from any state, an accept by a newcomer runs through and leaves one membership, one use and one grant more |
| `InviteLinks.AcceptByMember` | backend/src/api/channels.rs:90-99 | from any state, an accept by a member changes neither memberships nor the link |
| `InviteLinks.OtherStepsDo` | backend/src/services.rs:167-193 | what rollbacks, direct invites and removals do |
| `FileLifecycle.StepKeeps` | backend/src/bootstrap.rs:102-129 | uploads, claims, blob deletes, row deletes and crashes keep the file invariant |
| `FileLifecycle.UploadMakesLiveFile` | backend/src/api/media.rs:253-269 | from any state, a stored blob and a heard insert make a live row with its blob |
| `FileLifecycle.FailedUploadLeavesNothing` | backend/src/api/media.rs:259-268 | a failed insert without a row, compensated, leaves the stores as they were |
| `FileLifecycle.ClaimTakes` | backend/src/repository/postgres.rs:345-363 | a claim takes exactly the unlinked rows that are deleted or older than the cutoff and marks them |
| `FileLifecycle.JobDeletes` | backend/src/bootstrap.rs:102-129 | a job that succeeds deletes the blob and then the marked row, nothing else |
| `FileLifecycle.LiveRowStays` | backend/src/repository/postgres.rs:365-371 | the row delete spares a row that is not marked |
| `FileLifecycle.OtherStepsDo` | backend/src/storage.rs:172-183 | what links, unlinks, failed deletes, failed puts and losses do |
| `FileLifecycle.RowGoesAfterBlob` | backend/src/bootstrap.rs:102-129 | in every run, whatever fails, a metadata row disappears only when its blob is gone |
| `FileLifecycle.FaultFreeRoundRemoves` | backend/src/bootstrap.rs:102-129 | in any run, among uploads, other cleanups and crashes of others: a round of one task with no failed delete removes every row that was unlinked and past the cutoff at its claim, with its blob |
| `FileLifecycle.LiveBackedIff` | backend/src/api/media.rs:253-269 | over every run live rows always have their blobs if and only if no compensating delete hit a live row |
| `FileLifecycle.FilesOutliveTheirRows` | backend/src/api/media.rs:253-269 | so in every run where a failed insert leaves no row, every live row has its blob |
| `FileLifecycle.DeletionIsFinal` | backend/src/repository/postgres.rs:345-371 | a deleted row never becomes live again and a deleted blob never returns |
| `FileLifecycle.StepBacksIff` | backend/src/api/media.rs:253-269 | a step keeps live rows backed if and only if it is no successful compensating delete of a live row |
| `FileLifecycle.LinkedLiveIff` | backend/src/websocket/handler.rs:294-300 | over every run the files that messages carry are live throughout if and only if no link came after its file was claimed |
| `FileLifecycle.LateLinkLosesBlob` | backend/src/websocket/handler.rs:294-300 | a concrete run: a file checked, then claimed, then linked loses its blob while a message carries it |
| `FileLifecycle.UnheardInsertLosesBlob` | backend/src/api/media.rs:253-269 | a concrete run: commit unheard, blob deleted, row live |
| `FileLifecycle.FileStore.CleanupRound` | backend/src/bootstrap.rs:102-129 | with any blob and row deletes failing, exactly which rows and blobs are gone |
| `FileLifecycle.FileStore.FaultFreeRound` | backend/src/storage.rs:262-268 | alone, a fault-free round removes every unlinked row past the cutoff with its blob, present or not, and keeps all others |
| `Frames.BigEndianRoundTrip` | scripts/websocket-smoke.py:83-85 | reading back the packed length gives the length |
| `Frames.MaskedTwice` | scripts/websocket-smoke.py:65-67 | masking twice with one mask is the identity on every payload |
| `Frames.XorIsBitwise` | scripts/websocket-smoke.py:77-78 | the exclusive or of two bytes has a bit set exactly where theirs differ |
| `Frames.ExtensionRoundTrip` | scripts/websocket-smoke.py:80-85 | the extended length has 0, 2 or 8 bytes by range and reads back exactly |
| `Frames.SendText` | scripts/websocket-smoke.py:73-86 | the loop masking in place writes exactly the encoded text frame |
| `Frames.WebSocket.ReadExact` | scripts/websocket-smoke.py:47-51 | bytes returned, buffered and unread concatenate to the stream, however chunked |
| `Frames.WebSocket.ReadUntil` | scripts/websocket-smoke.py:40-45 | returns the stream up to and including the first marker and keeps the rest |
| `Frames.WebSocket.RecvLength` | scripts/websocket-smoke.py:57-61 | recovers the length that was framed |
| `Frames.WebSocket.RecvFrame` | scripts/websocket-smoke.py:55-67 | recovers opcode and payload of the frame and leaves the rest of the stream |
| `Frames.WebSocket.RecvText` | scripts/websocket-smoke.py:53-71 | skips to the first text or close frame and returns its payload or the close |
| `Frames.WebSocket.RecvAll` | scripts/websocket-smoke.py:53-71 | a stream without close frames yields exactly its text payloads in order |
| `Frames.RoundTrip` | scripts/websocket-smoke.py:40-86 | for all payloads under 2^63 bytes, masks and chunkings, the reader returns what the writer framed, in order |
| `BenchVerdict.RunKeeps` | bench/src/main.rs:1205-1299 | for any number of interleaved clients: per client sent = acknowledged + pending, and every counter is the sum over clients |
| `BenchVerdict.MayHappen` | bench/src/main.rs:1014-1306 | which actions each phase of a client admits |
| `BenchVerdict.ClientMoves` | bench/src/main.rs:1014-1306 | where each action takes its client and what it leaves pending |
| `BenchVerdict.CountersAreCounts` | bench/src/main.rs:1349-1397 | in every run each counter is the number of actions of its kind, realtime failures with what ended clients missed |
| `BenchVerdict.PassesIff` | bench/src/main.rs:1413-1476 | after all tasks end, a report passes if and only if clients were asked for, each connected and ended with nothing pending, no action was an error frame, a lost socket or a failed send, and under one percent of the requests failed |
| `BenchVerdict.CleanRunPasses` | bench/src/main.rs:1205-1299 | a concrete run: a client logs in, connects, sends, is acknowledged and ends, and the report passes |
| `BenchVerdict.PassMeansDelivered` | bench/src/main.rs:1349-1397 | after a pass as many logins and joins happened as clients were asked for, no socket failed, no realtime error occurred, and as many messages were acknowledged as sent |
| `BenchVerdict.ErrorRate` | bench/src/main.rs:1429-1433 | the ratio test is the integer comparison of failures and requests |

## Left out

- Axum routing, cookies, JSON and bitcode encoding, metrics and tracing: plumbing over libraries.
- Argon2, SHA-256, random bytes and UUID generation: uninterpreted functions, or ids assumed new.
- Valkey scores are integers here; the doubles Valkey stores are exact for millisecond times below 2^53.
- Moderation invalidation of the hot keys (`backend/src/api/admin.rs:600-610`): the index results hold between invalidations.
- Retention pruning and the 90-day read window: modelled rows are inside both.
- Reply counts, metadata, mentions and file ids of a history message: copied along, never decided on.
- Ownership and permission checks of edit and delete: single comparisons before the modelled update.
- `FOR UPDATE SKIP LOCKED`: the claim machine lets any claimable subset be claimed; the class claims with nobody else at work.
- Dispatch itself and the notification sinks: an arbitrary success or failure.
- The bounded size of the room manager's mailbox and broadcast channels, and dropped frames of lagging receivers.
- RoomService.Reconnect: takes a finite list of connection attempts and so covers every finite part of the loop, because the loop of the original need not end.
- ClientScroll.ScrollBack: runs with nobody else writing; the page results that hold under interleaving are in `SettledHistory`. Which rows are lost is not stated for an index of more than 300 entries of which over 250 share one millisecond: there the 300-entry score range may end before 50 entries are found.
- ThreadedScroll.ScrollThreads: is stated for channels in which no millisecond has more than 250 rows, for the same reason, and for an index that misses no root row above its oldest entry; `SystemMessageBreaksPage` shows what one missing row does.
- Idempotent sends assume that rows are not removed; retention is outside the model, and the notification side effects of a send are in `Reconcile`.
- The recipient query, mention extraction and notification preferences: the query's rows are inputs, one per user.
- A reconciliation transaction is one step: the unique index makes a second transaction on the same slot wait for the first to end.
- Deletion of users, messages and channels with their dependent rows.
- Channel deletion and public channels beside the membership handlers: they touch no owner row.
- A five-second permit timeout is an arbitrary step to the overloaded outcome; a panicking flight task is not modelled.
- S3 request signing, HTTP status handling and upload size limits: the blob store is put and delete with arbitrary failures.
- Frames.WebSocket.ReadExact: requires that enough bytes are on their way, because at the end of the stream the original loops for ever.
- Frames.WebSocket.ReadUntil: requires the marker to be on its way, for the same reason.
- Fragmented messages: like the original, the reader ignores FIN and skips continuation frames.
- Frames of 2^63 bytes and more, which section 5.2 of RFC 6455 forbids.
- BenchVerdict.PassesIff: uses real arithmetic; the 64-bit float ratios round, which can only matter for counts near 2^53.
- The API-only benchmark modes, latency percentiles and the ramp search.
- Presence, typing, rate limits, full-text search, link previews, admin listings, the web page, charts and shell scripts: little state, or outside libraries.
