# A verified model of the dmn library's concurrent cores

This project models nine components of the dmn C++ library and proves what they promise:
an interval index with cached overlay states, a lock-free queue, a master election, a job
executor, a streaming parser with its text check, a value codec with a pending-call protocol,
a bounded output endpoint, a scheduled pipe and a recurring timer.

`dafny verify dfyconfig.toml` checks everything.

## How it is built

| Component | Files |
|---|---|
| Shared | `Common` |
| Interval index (`Dmn_IntervalBTree`) | `Intervals`, `EntryOrder`, `IntervalNodes`, `IntervalErase`, `IntervalQueries`, `OverlayStates`, `CanonicalOrder`, `IntervalIndex` |
| Lock-free queue (`Dmn_BlockingQueue_Lf`) | `LockFreeQueue`, `QueueRuns`, `QueueProgress` |
| Master election (`Dmn_DMesgNet`) | `ElectionNode`, `Election`, `ElectionRuns`, `ElectionHearing` |
| Job executor (`Dmn_Runtime_Manager`) | `JobExecutor`, `JobRuns`, `JobLeftovers`, `JobProgress` |
| ANCS Data Source reassembler | `Utf8`, `AncsReassembler`, `AncsResponses`, `AncsFaults` |
| D-Bus values and calls (`Dmn_DbusClient`) | `DbusSignature`, `DbusCodec`, `DbusWire`, `DbusCalls`, `DbusCallRuns`, `CallProgress` |
| D-Bus output endpoint (`Dmn_DbusOutput`) | `DbusOutput`, `OutputRuns`, `OutputProgress` |
| Scheduled pipe (`Dmn_Pipe`) | `ScheduledPipe`, `PipeRuns`, `PipeProgress` |
| Timer (`Dmn_Timer`) | `RecurringTimer`, `TimerRuns`, `TimerProgress` |

- The interval tree is a class whose methods change `root`, `size`, `nextOrdinal` and `states`.
  Its contract is stated on `Entries()`, the entries in order; `Valid()` says that the tree is
  balanced with exact maxima and that every cached state equals a recomputation. Nodes are owned
  by one pointer each, so node operations are methods that take a node and return the new one. The
  choice of how to refill a child before descending, written out in `eraseEntry`, `removeMaximum` and
  `removeMinimum`, is the one method `Refill`.
- Where threads interleave inside one operation (the queue, the executor, the D-Bus calls), every
  atomic access or critical section is one step of a state machine, an invariant is proved for
  every step, and the main results speak about the state after any sequence of steps.
- Where an object works under one mutex (election node, output, pipe, timer), a class method per
  critical section says what it keeps and changes and is proved equal to a function on the object's
  value; the state machine is built from the same functions.
- Safety is stated over all runs. That the operations also get on is stated in the modules named
  `Progress`: from any reachable state, an operation or a worker left alone finishes within a given
  number of steps and with the answer that is due.
- History fields (what was linked, returned, accepted, delivered, resolved) only record; where a
  null pointer, a moved-from item or a counter below zero would be used, `fault` is raised, and the
  runs are proved never to raise it.

Results that are not what the sources say:

- The stack-is-empty assertion at `include/dmn-runtime.hpp:753` can fail: a job that is pushed but
  not yet counted can preempt a suspended one and complete, taking the counter to zero.
  `JobLeftovers.AssertionHoldsIff` says exactly when it cannot: for a given set of jobs that callers
  submit, and of those among them that may suspend, it holds in all runs if and only if no job that
  may suspend has a lower priority than another submitted job.
  `JobLeftovers.TokenGivenUpOverSuspendedJob` is one failing run, and
  `JobRuns.LeftoversAreUncounted` counts the jobs left. No job is stranded by it
  (`JobRuns.NoJobIsStranded`).
- `Election.AssertionsHoldIff`: an empty node name makes an election assertion fail, and in a
  cluster of two nodes or more nothing else does.
- Seniority breaks a tie between two masters only by start time. Any two nodes can both come to lead
  (`ElectionRuns.BothCanLead`), and with non-empty names, once they have heard each other, both still
  lead if and only if they started at the same instant (`ElectionRuns.BothStillLeadIff`). Two leaders
  both lead in every continuation in which neither is destroyed if and only if no earlier node is
  alive or has sent a heartbeat that makes either of them follow (`ElectionRuns.LeadForEverIff`).
- The comment on `Dmn_AncsAttributeSet` (`include/dmn-ancs-client.hpp:307-311`) says that an absent
  optional stands for a zero-length value; the parser stores a present, empty string for it.
  `AncsResponses.CompleteIsPresent`: no attribute of a completed response is ever absent.
  `AncsResponses.DocumentedIffNoEmptyValue`: a response follows the comment if and only if no
  requested attribute in it has length zero. `AncsResponses.EmptyValuesArePresent` is an instance.

## Model

| member | source | states |
|---|---|---|
| Intervals.OverlapsIsSharedPoint | src/dmn-interval-btree.cpp:14-22 | two valid ranges overlap exactly when they share an integer point, and invalid ranges overlap nothing |
| Intervals.SortRanges | include/dmn-interval-btree.hpp:614-621 | the clipped ranges come out sorted by start, then end, as a permutation |
| Intervals.Sweep | include/dmn-interval-btree.hpp:623-639 | the sweep decides coverage of both ends and of the whole range, without overflow at the largest 64-bit value |
| Intervals.ClassifyTopology | include/dmn-interval-btree.hpp:599-674 | the classification equals the one read off from which integer points are covered |
| Intervals.GeometryIgnoresOrder | include/dmn-interval-btree.hpp:599-674 | the classification does not depend on the order of the overlapping ranges |
| EntryOrder.LessIsStrictTotalOrder | include/dmn-interval-btree.hpp:710-731 | for any strict weak user order, entries with different ordinals are totally and strictly ordered |
| EntryOrder.SortedOnFields | include/dmn-interval-btree.hpp:676-731 | the order of the tree on fields: without a comparator by start, then end, then ordinal; with one, as it says of different ranges, and by start and end where it has no opinion |
| EntryOrder.InsertKeepsSorted | include/dmn-interval-btree.hpp:1190-1218 | insertion at its place keeps a sorted sequence sorted |
| EntryOrder.RemoveKeepsSorted | include/dmn-interval-btree.hpp:1069-1120 | removal of one entry keeps a sorted sequence sorted |
| IntervalNodes.MaxEndIsMaximum | include/dmn-interval-btree.hpp:796-809 | the recorded maximum is an upper bound of all right ends and is attained |
| IntervalNodes.RefreshMaxEnd | include/dmn-interval-btree.hpp:796-809 | a node of right shape gets the exact maximum of its whole subtree from its entries and its children's records |
| IntervalNodes.SplitChild | include/dmn-interval-btree.hpp:1147-1188 | splitting a full child keeps order and contents, moves its middle entry up, leaves one entry on either side, and keeps balance and maxima |
| IntervalNodes.InsertNonFull | include/dmn-interval-btree.hpp:1190-1218 | inserting below a node with room gives the sorted insertion of the contents and a balanced node of the same height |
| IntervalNodes.InsertRoot | include/dmn-interval-btree.hpp:830-853 | insertion at the root grows the tree by at most one level and gives the sorted insertion of the contents |
| IntervalErase.BorrowFromPrevious | include/dmn-interval-btree.hpp:1011-1028 | rotating right keeps the contents and balance and leaves two entries in the child |
| IntervalErase.BorrowFromNext | include/dmn-interval-btree.hpp:1030-1045 | rotating left keeps the contents and balance and leaves two entries in the child |
| IntervalErase.MergeChildren | include/dmn-interval-btree.hpp:1047-1067 | merging two minimal children around their separator keeps the contents and balance |
| IntervalErase.Refill | include/dmn-interval-btree.hpp:1102-1116 | before descending, the child has two entries, and it still holds everything it held |
| IntervalErase.RemoveMaximum | include/dmn-interval-btree.hpp:960-984 | splits off the last entry of the contents and keeps balance |
| IntervalErase.RemoveMinimum | include/dmn-interval-btree.hpp:986-1009 | splits off the first entry of the contents and keeps balance |
| IntervalErase.EraseEntry | include/dmn-interval-btree.hpp:1069-1120 | erasing a stored entry removes exactly that entry from the contents and keeps balance, order and maxima |
| IntervalErase.EraseRoot | include/dmn-interval-btree.hpp:1122-1139 | erasure at the root removes exactly the target; the tree loses at most one level |
| IntervalQueries.PrunedIsEmpty | include/dmn-interval-btree.hpp:1220-1246 | a subtree whose maximum lies before the query holds no overlapping entry |
| IntervalQueries.HasOverlapInSubtree | include/dmn-interval-btree.hpp:1220-1239 | the pruned search finds something exactly when the filtered contents are not empty |
| IntervalQueries.VisitOverlappingInOrder | include/dmn-interval-btree.hpp:1241-1261 | the pruned visit yields the contents filtered by overlap, in order |
| IntervalQueries.OverlappingKeepsOrder | include/dmn-interval-btree.hpp:1241-1261 | what an overlap query finds stands in that order on fields |
| IntervalQueries.CollectEntriesInOrder | include/dmn-interval-btree.hpp:733-749 | the traversal yields the contents in order |
| OverlayStates.InsertIsLocal | include/dmn-interval-btree.hpp:824-828 | an insertion leaves the state of every entry that does not overlap the new one as it was |
| OverlayStates.OthersWithout | include/dmn-interval-btree.hpp:1395-1409 | removals leave what an entry sees as it was, if it overlaps none of the removed |
| OverlayStates.NewEntryState | include/dmn-interval-btree.hpp:1651-1682 | the state of a new entry is the one a query before the insertion gives |
| OverlayStates.StateOnFields | include/dmn-interval-btree.hpp:768-794 | the topology of an entry tells which of its points others cover, and it is on top unless another one sharing a point has a higher priority |
| OverlayStates.QueryOnFields | include/dmn-interval-btree.hpp:1651-1682 | the same of the range of a query |
| OverlayStates.NoticesAreExact | include/dmn-interval-btree.hpp:863-896 | notified are exactly the entries with a callback whose state changed, with the old and the recomputed state |
| OverlayStates.NoticesOnFields | include/dmn-interval-btree.hpp:863-896 | a notice is given exactly for an entry with a callback whose recorded state differs from the recomputed one, with both |
| OverlayStates.NoticesAreOnce | include/dmn-interval-btree.hpp:889-894 | no entry is notified twice |
| OverlayStates.OnlyAffectedAreTold | include/dmn-interval-btree.hpp:863-896 | looking at the affected entries only gives the same notifications as looking at all |
| IntervalIndex.AfterInsert | include/dmn-interval-btree.hpp:857-858 | recomputing the new entry and the overlapping ones makes every cached state equal a recomputation from scratch |
| IntervalIndex.AfterRemoval | include/dmn-interval-btree.hpp:1395-1415 | recomputing the survivors that overlapped a removed entry makes every cached state equal a recomputation from scratch |
| IntervalIndex.IntervalBTree.constructor | include/dmn-interval-btree.hpp:1265-1273 | a new tree is valid and empty |
| IntervalIndex.IntervalBTree.CalculateState | include/dmn-interval-btree.hpp:768-794 | topology and rank against all other entries that overlap |
| IntervalIndex.IntervalBTree.UpdateStatesAndNotify | include/dmn-interval-btree.hpp:863-896 | the captured entries get their recomputed states, and exactly the changed ones are notified unless suppressed |
| IntervalIndex.IntervalBTree.InsertEntry | include/dmn-interval-btree.hpp:811-861 | keeps the tree valid with all states exact, adds the entry at its place, and notifies over all old entries |
| IntervalIndex.IntervalBTree.Add | include/dmn-interval-btree.hpp:1278-1308 | adds one entry with the next ordinal, or refuses an invalid range and changes nothing |
| IntervalIndex.IntervalBTree.AddWithTopology | include/dmn-interval-btree.hpp:1310-1330 | the reported topology and rank equal the state stored for the new entry |
| IntervalIndex.IntervalBTree.RemoveByRange | include/dmn-interval-btree.hpp:1337-1366 | refuses an invalid range; otherwise removes the first entry with exactly that range that the matcher accepts and nothing else, or reports that there is none |
| IntervalIndex.IntervalBTree.RemoveAllOverlapping | include/dmn-interval-btree.hpp:1368-1418 | removes all overlapping entries and reports how many, with all states exact and the changed survivors notified |
| IntervalIndex.IntervalBTree.HasOverlap | include/dmn-interval-btree.hpp:1610-1613 | true exactly when a stored entry overlaps the range |
| IntervalIndex.IntervalBTree.FindOverlapping | include/dmn-interval-btree.hpp:1615-1649 | exactly the entries that share a point with the range, ordered by the comparator, start, end and ordinal |
| IntervalIndex.IntervalBTree.QueryTopology | include/dmn-interval-btree.hpp:1651-1682 | topology, rank and overlaps a candidate would have; refuses an invalid range |
| IntervalIndex.IntervalBTree.StateOfStored | include/dmn-interval-btree.hpp:768-794 | in a valid tree the recorded state of every entry says which of its points others cover and whether another one outranks it |
| IntervalIndex.IntervalBTree.EnumerateCanonical | include/dmn-interval-btree.hpp:1436-1474 | the pairs of all entries: ranges as the tree orders them, pairs of one range as the evaluator orders them, ties in the order in which they were added |
| IntervalIndex.IntervalBTree.EnumerateCanonicalMove | include/dmn-interval-btree.hpp:1476-1520 | the same snapshot, after which the tree is empty |
| IntervalIndex.IntervalBTree.ReconstructFromCanonical | include/dmn-interval-btree.hpp:1522-1555 | replaces the entries by the snapshot's, or refuses any invalid range and changes nothing |
| IntervalIndex.IntervalBTree.Clear | include/dmn-interval-btree.hpp:1420-1426 | the tree is empty and ordinals start again |
| CanonicalOrder.StableSortIsSorted | include/dmn-interval-btree.hpp:1450-1463 | the snapshot is a permutation in canonical order, for any strict weak user orders |
| CanonicalOrder.StableSortIsStable | include/dmn-interval-btree.hpp:1450-1463 | entries that the order does not tell apart keep the order they have in the tree |
| CanonicalOrder.SnapshotOnFields | include/dmn-interval-btree.hpp:1450-1463 | the snapshot is a permutation that is in canonical order on starts, ends, values and ordinals |
| CanonicalOrder.RebuiltMembers | include/dmn-interval-btree.hpp:1522-1555 | a rebuilt tree holds one entry a pair, numbered in order, with a callback exactly where one is reconnected |
| CanonicalOrder.PlainEnumeration | include/dmn-interval-btree.hpp:1450-1463 | without a duplicate order the snapshot is the tree order |
| CanonicalOrder.RebuildRoundTrip | include/dmn-interval-btree.hpp:1522-1555 | rebuilding from a snapshot and enumerating with the same duplicate order or none gives the snapshot again |
| LockFreeQueue.LinkKeeps | include/dmn-blockingqueue-lf.hpp:694-704 | a successful link appends to the one chain, and only happens at its end with the tail up to date |
| LockFreeQueue.PushStepKeeps | include/dmn-blockingqueue-lf.hpp:666-722 | every step of a push keeps the invariant |
| LockFreeQueue.PopStepKeeps | include/dmn-blockingqueue-lf.hpp:561-610 | every step of a pop keeps the invariant |
| QueueRuns.RunsKeepInv | include/dmn-blockingqueue-lf.hpp:410-423 | the invariant holds after any interleaving from the initial queue |
| QueueRuns.EveryRunIsFifo | include/dmn-blockingqueue-lf.hpp:561-722 | returned items, the one in hand and those found from the head are the linked items in link order; no null or moved-from node is used; the head never passes the tail, which lags by at most one |
| QueueRuns.NoPushIsLostOrDoubled | include/dmn-blockingqueue-lf.hpp:666-704 | every started push is linked exactly once or still in its producer's hands |
| QueueRuns.EmptyIsReportedTruly | include/dmn-blockingqueue-lf.hpp:573-588 | a pop that reports empty saw an instant since it began at which the queue was empty |
| QueueProgress.AnswersAreAsAsked | include/dmn-blockingqueue-lf.hpp:574-585 | in every run only a pop that may not wait reports empty, and only one that may wait spins |
| QueueProgress.PushFinishes | include/dmn-blockingqueue-lf.hpp:666-722 | from any reachable state a push running alone is through in at most twelve steps, with its item linked last and counted, and the tail moved to it |
| QueueProgress.PushAlone | include/dmn-blockingqueue-lf.hpp:666-722 | the same from the start of the push, on the items |
| QueueProgress.PopFinishes | include/dmn-blockingqueue-lf.hpp:561-610 | from any reachable state a pop running alone has, in at most sixteen steps, returned the item after the head, reported that there is none, or is spinning on the tail as asked |
| QueueProgress.PopAlone | include/dmn-blockingqueue-lf.hpp:561-610 | a pop that starts and runs alone takes exactly the first stored item; without one it says so, or waits if asked to |
| QueueRuns.OutstandingIsZeroIff | include/dmn-blockingqueue-lf.hpp:739-743 | the drain counter is zero exactly when nothing is linked, no counted push is under way and no removal is unsubtracted |
| QueueRuns.DrainedTotalIsReturned | include/dmn-blockingqueue-lf.hpp:719-747 | the wait sees the counter at zero in one state and reads the push total in a later one: in the first, everything linked has been removed, and the total read counts exactly that plus what was linked in between, but for pushes about to be added |
| ElectionNode.NetNode.Tick | src/dmn-dmesgnet.cpp:413-458 | the heartbeat tick as a function of the node's state, and the heartbeat it sends |
| ElectionNode.NetNode.Reconcile | src/dmn-dmesgnet.cpp:540-643 | the reconciliation of a heartbeat as a function of the node's state, or the report of the assertion that fails |
| ElectionNode.NetNode.UpdateNodelist | src/dmn-dmesgnet.cpp:606-642 | the search and update of the node list |
| ElectionNode.NetNode.SendPending | src/dmn-dmesgnet.cpp:507-526 | every deferred message is written behind its topic's earlier ones and all queues are left empty |
| ElectionNode.NetNode.Publish | src/dmn-dmesgnet.cpp:354-377 | a message is deferred while not ready, otherwise written behind all deferred ones |
| Election.LeftAloneLeads | src/dmn-dmesgnet.cpp:413-456 | without deliveries a node leads itself after exactly the computed number of ticks, at most eight |
| ElectionRuns.LeftAloneInCluster | src/dmn-dmesgnet.cpp:413-456 | the same in any reachable cluster: eight ticks in a row leave any node that is not destroyed leading itself |
| Election.SevenTicksAreNotEnough | include/dmn-dmesgnet.hpp:88-94 | a follower that has just heard its master does not lead after seven |
| ElectionRuns.HearingRenews | src/dmn-dmesgnet.cpp:547-600 | in any reachable cluster a follower that hears its master keeps it through four silent ticks, and leads itself after eight and no fewer |
| ElectionRuns.DestroyedMasterIsReplaced | src/dmn-dmesgnet.cpp:569-582 | in any reachable cluster a follower that hears of its master's destruction leads itself after three silent ticks and no fewer |
| ElectionRuns.DuelEnds | src/dmn-dmesgnet.cpp:583-602 | when two nodes that both lead themselves hear each other's claim, in either order, the one that started earlier leads and the other follows it |
| ElectionRuns.LeaderHasClaimed | src/dmn-dmesgnet.cpp:413-602 | in every run a node that leads itself is alive and has sent the heartbeat that says so |
| ElectionRuns.StatesAreAnnounced | src/dmn-dmesgnet.cpp:413-604 | in every run every node has sent a heartbeat with the state and the master it has now |
| ElectionRuns.BothCanLead | src/dmn-dmesgnet.cpp:413-458 | for any two nodes there is a run from the start after which both lead themselves |
| ElectionRuns.BothStillLeadIff | src/dmn-dmesgnet.cpp:583-602 | two leaders that have heard each other both go on leading exactly when their start times are equal |
| ElectionRuns.UnchallengedLeads | src/dmn-dmesgnet.cpp:413-602 | a leader leads in every continuation that does not destroy it, if every earlier node is destroyed and has only sent Ready heartbeats that name this leader |
| ElectionRuns.ChallengedGivesWay | src/dmn-dmesgnet.cpp:583-602 | otherwise there is a continuation without any destruction after which it leads no more |
| ElectionRuns.LeadForEverIff | src/dmn-dmesgnet.cpp:413-602 | two leaders, or one, lead in every continuation that destroys neither exactly when nobody challenges them in that way |
| ElectionRuns.TiedMastersStay | src/dmn-dmesgnet.cpp:583-602 | two leaders with the same, earliest start time both lead in every continuation until one is destroyed |
| Election.NodelistIsLatest | src/dmn-dmesgnet.cpp:606-642 | the list holds one entry a sender, its latest heartbeat, and none after Destroyed |
| Election.ReconcileKeeps | src/dmn-dmesgnet.cpp:540-604 | reconciling any heartbeat a node can have sent keeps the node's invariant, and fails an assertion only if some node has the empty name |
| Election.EveryRun | src/dmn-dmesgnet.cpp:413-604 | with non-empty names no assertion fails in any run; the counters stay below 3 and 5; ready is up exactly in Ready |
| Election.EmptyNameFails | src/dmn-dmesgnet.cpp:565-566 | a run in which a node with the empty name fails an assertion |
| Election.AssertionsHoldIff | src/dmn-dmesgnet.cpp:540-604 | among two nodes or more, no run fails an assertion exactly when no name is empty |
| Election.SeniorStaysMaster | src/dmn-dmesgnet.cpp:583-602 | once a node that nobody precedes leads itself, it does so in every continuation until it is destroyed |
| Election.SettledStays | src/dmn-dmesgnet.cpp:413-604 | a cluster in which nobody follows anyone but the master stays so under all deliveries and all ticks but self-elections |
| Election.WaitingNodeJoins | src/dmn-dmesgnet.cpp:547-564 | in a settled cluster any Ready heartbeat makes a waiting node follow the master |
| Election.DeferredKeepTheirPlace | src/dmn-dmesgnet.cpp:339-526 | in every run, the messages written and those deferred are, in order, those published on the topic |
| ElectionHearing.Hears | src/dmn-dmesgnet.cpp:540-642 | in any reachable cluster, what each kind of heartbeat makes of the hearer: joining, renewal, loss of the master, following an earlier starter or nothing; how many silent ticks it is then from leading; and its node list |
| ElectionHearing.NotReadyWritesNothing | src/dmn-dmesgnet.cpp:354-377 | a step that leaves a node not ready has written nothing for it |
| ElectionHearing.WaitingNodeDefers | src/dmn-dmesgnet.cpp:354-377 | a node that has never been ready has written nothing and holds back exactly what it was handed, in order |
| ElectionHearing.ReadyNodeHoldsNothing | src/dmn-dmesgnet.cpp:354-377 | a ready node that publishes or flushes, and one that has just joined a master, holds nothing back |
| JobExecutor.RunsKeepInv | include/dmn-runtime.hpp:563-593 | the executor invariant holds after any interleaving |
| JobRuns.OneTaskIffWork | include/dmn-runtime.hpp:589-592 | exactly one executor task is queued, running or about to be queued when the counter is positive, none when it is zero; the counter never underflows and every run finds a job |
| JobRuns.NoJobIsStranded | include/dmn-runtime.hpp:705-763 | jobs of one priority finish in the order accepted, and when nothing is left to run all accepted jobs have finished |
| JobRuns.StackIsShallow | include/dmn-runtime.hpp:628-648 | the job and task stacks stay paired, with strictly rising priority and so at most three jobs |
| JobRuns.ResumedIsHighest | include/dmn-runtime.hpp:715-741 | the job resumed outranks the rest of the stack, and all higher queues were found empty in this run |
| JobProgress.NotedEmptyIsEmpty | include/dmn-runtime.hpp:715-741 | a queue is noted as empty only by a poll that finds it empty |
| JobProgress.SubmitIsAccepted | include/dmn-runtime.hpp:563-593 | a job of any priority but the scheduler's own joins the end of its queue |
| JobProgress.PicksHighest | include/dmn-runtime.hpp:628-741 | an executor run starts the oldest job of the highest queued priority if it outranks the suspended one on top, and otherwise goes on with that one |
| JobProgress.RunsOneJob | include/dmn-runtime.hpp:705-763 | if that job completes, it is finished and counted and nothing else changes |
| JobProgress.FinishesAll | include/dmn-runtime.hpp:705-763 | when no thread is in the middle of adding a job, the executor alone finishes every accepted job, in order within each priority |
| JobRuns.LeftoversAreUncounted | include/dmn-runtime.hpp:749-756 | when the counter reaches zero, the jobs left are exactly as many as the pushes not counted yet |
| JobLeftovers.LeftoverWasOvertaken | include/dmn-runtime.hpp:705-763 | whatever is left on the stack when a job has ended may suspend and was outranked by that job |
| JobLeftovers.OvertakenJobIsLeft | include/dmn-runtime.hpp:749-756 | for every job that may suspend and every other that outranks it there is a run in which the first is left on the stack when the counter reaches zero |
| JobLeftovers.AssertionHoldsIff | include/dmn-runtime.hpp:752-755 | for any set of submitted jobs, the stack is empty at the assertion, and at every give-up, in all runs exactly when no job that may suspend is outranked by another |
| JobLeftovers.TokenGivenUpOverSuspendedJob | include/dmn-runtime.hpp:752-755 | a run of two jobs in which a suspended job is on the stack when the counter reaches zero |
| Utf8.Utf8IffUniqueEncoding | src/dmn-ancs-client.cpp:63-113 | the grammar of section 4 of RFC 3629 describes exactly the encodings of Unicode scalar values, each of one sequence |
| Utf8.IsValidUtf8 | src/dmn-ancs-client.cpp:63-113 | the check accepts exactly the byte strings of that grammar |
| AncsReassembler.FourDigits | src/dmn-ancs-client.cpp:48-54 | the little-endian reader gives a number exactly for its four digits |
| AncsReassembler.EncodedItemsParse | src/dmn-ancs-client.cpp:247-303 | the encoding of a well-formed list of attributes parses to these attributes |
| AncsReassembler.ParsedItems | src/dmn-ancs-client.cpp:247-317 | whatever parses completely is the encoding of such a list |
| AncsReassembler.ParseIffResponse | src/dmn-ancs-client.cpp:195-325 | parsing completes with given attributes exactly on the well-formed responses that carry them |
| AncsFaults.AnswersExactly | src/dmn-ancs-client.cpp:195-325 | every error, and the request for more, is given exactly when the bytes are a proper header and tuples in order followed by what that error is about: misplaced, too long, not UTF-8, unasked for, or not whole yet |
| AncsResponses.CompleteIsPresent | src/dmn-ancs-client.cpp:292-303 | in a completed response every requested attribute is present with exactly the value of its item, empty for a zero-length value |
| AncsResponses.DocumentedIffNoEmptyValue | include/dmn-ancs-client.hpp:307-311 | absence stands for zero length, as documented, exactly when no requested attribute has length zero |
| AncsResponses.EmptyValuesArePresent | src/dmn-ancs-client.cpp:292-303 | the response of five zero-length values gives five present, empty strings |
| AncsReassembler.PrefixWaits | src/dmn-ancs-client.cpp:247-286 | a proper prefix of a complete response asks for more |
| AncsReassembler.Reassembler.Consume | src/dmn-ancs-client.cpp:195-245 | each call answers what parsing everything accepted so far gives; after the end, for an empty fragment and beyond 8192 bytes it gives the error for that; every error is told apart, with its kind, text and fatal mark |
| AncsReassembler.Reassembler.ConsumeTuples | src/dmn-ancs-client.cpp:247-325 | the attribute loop over the buffered rest agrees with parsing the whole stream |
| AncsResponses.CutsDoNotMatter | src/dmn-ancs-client.cpp:195-325 | the last fragment returns attributes exactly when it is not empty and the concatenation is a well-formed response of at most 8192 bytes carrying them |
| AncsResponses.EarlierFragmentsWait | src/dmn-ancs-client.cpp:195-325 | before that, every non-empty fragment asked for more |
| DbusSignature.SignatureTypeLength | src/dmn-dbus-client.cpp:83-112 | the recursive search with its bracket loop equals its specification |
| DbusSignature.LengthOfSig | src/dmn-dbus-client.cpp:83-112 | the length found at the start of a complete type followed by any text is the type's length |
| DbusSignature.UnclosedHasNoLength | src/dmn-dbus-client.cpp:83-112 | no length is found for a bracket that is not closed |
| DbusSignature.KeyAndValueComeApart | src/dmn-dbus-client.cpp:544-550 | a key signature followed by a value signature is split into the two |
| DbusSignature.SigsDoNotOverlap | src/dmn-dbus-client.cpp:83-112 | no signature is the beginning of another |
| DbusCodec.RoundTrip | src/dmn-dbus-client.cpp:246-603 | a value the encoder accepts is decoded to itself with the same count, under the same limits |
| DbusCodec.AllRoundTrip | src/dmn-dbus-client.cpp:246-603 | so is a list of values with one running count |
| DbusCodec.EncodeArguments | src/dmn-dbus-client.cpp:605-626 | the encoding loop with its size check after each value equals its specification |
| DbusCodec.DecodeArguments | src/dmn-dbus-client.cpp:628-658 | the decoding loop with its size check first equals its specification |
| DbusCodec.ArgumentsAcceptedIff | src/dmn-dbus-client.cpp:605-626 | if appending never shrinks a message, a list of arguments is accepted exactly when its values are well-typed and within depth and count limits and the whole message is small enough |
| DbusCodec.ArgumentsRoundTrip | src/dmn-dbus-client.cpp:605-658 | an argument list that is accepted is received unchanged, under the same limits and whatever sizes libdbus reports |
| DbusCodec.EncodeAcceptsIff | src/dmn-dbus-client.cpp:246-407 | the encoder accepts exactly the well-typed values within the depth, count and byte limits, counting every value once |
| DbusCodec.WellTypedFailsByLimitOnly | src/dmn-dbus-client.cpp:246-407 | a well-typed value is refused only with the resource-limit error |
| DbusCodec.DecodedWithinLimits | src/dmn-dbus-client.cpp:409-603 | whatever is decoded is within the limits and counted exactly |
| DbusCodec.LengthOfValueSignature | src/dmn-dbus-value.cpp:82-143 | the signature of an encodable value is found at the start of any text |
| DbusWire.EncodedIsConsistent | src/dmn-dbus-client.cpp:246-407 | what is encoded has on the wire the signature its value reports, and every array and variant holds what its signature says |
| DbusWire.DecodedSignature | src/dmn-dbus-client.cpp:409-603 | what is decoded reports the signature it had on the wire |
| DbusWire.CodesAreStandard | src/dmn-dbus-value.cpp:82-143 | the type codes are those of the D-Bus specification |
| DbusWire.LeavesAcceptedIff | src/dmn-dbus-client.cpp:246-407 | which texts, element types, key types and byte arrays are accepted |
| DbusWire.RefusedForTypesOnly | src/dmn-dbus-client.cpp:246-407 | a value within the depth, count and byte limits is never refused for a limit |
| DbusWire.DecodableFailsByLimitOnly | src/dmn-dbus-client.cpp:409-603 | a message without stray entries whose dictionary signatures come apart is refused for a limit only, and any other is refused |
| DbusCalls.AgentKeeps | src/dmn-dbus-client.cpp:895-930 | every step of a cancel, deadline, disconnect, shutdown or reply keeps the protocol's invariant |
| DbusCalls.SubmitterKeeps | src/dmn-dbus-client.cpp:757-881 | so does every step of a submission after admission |
| DbusCallRuns.NeverOverLimit | src/dmn-dbus-client.cpp:743-770 | never more calls are in flight than the smaller limit |
| DbusCallRuns.TurnedAwayIffFull | src/dmn-dbus-client.cpp:761-769 | a call is refused for capacity exactly when that many calls are in flight |
| CallProgress.AdmittedIffRoom | src/dmn-dbus-client.cpp:757-770 | a call is admitted exactly if fewer than the limit were in flight when it was submitted, whatever happens before the decision |
| CallProgress.QueuedIffOpen | src/dmn-dbus-client.cpp:820-860 | an admitted call is queued if it is sent and the client is open, and otherwise resolved once by its submitter with its slot given back |
| CallProgress.AgentEndsCall | src/dmn-dbus-client.cpp:895-930 | cancel, deadline, disconnect, shutdown or reply, running alone on a call that nobody has ended, ends it in five steps: resolved by it, slot given back, pending call released |
| CallProgress.AgentComesLate | src/dmn-dbus-client.cpp:895-930 | on a call that is ended it resolves nothing, and a late cancel does nothing at all |
| CallProgress.NothingAfterShutdown | src/dmn-dbus-client.cpp:745-860 | once a shutdown has begun nothing is submitted or queued any more |
| CallProgress.ShutdownEnds | src/dmn-dbus-client.cpp:1106-1177 | the sweep running alone ends every call that was left, and the client closes with none pending |
| DbusCallRuns.AtMostOnce | src/dmn-dbus-client.cpp:895-930 | in no run is a call resolved twice, its slot given back twice or its reference released twice; the last sweep finds nothing |
| DbusCallRuns.EndedIsDoneOnce | src/dmn-dbus-client.cpp:895-930 | a queued call that is completed or detached, all of whose agents have finished, was resolved once and by the agent that completed it, gave its slot back once and had its reference released once, shutdown or not |
| DbusCallRuns.ExactlyOnce | src/dmn-dbus-client.cpp:1106-1177 | after shutdown, when everybody has finished, this holds of every queued call, a refused one is resolved and gave its slot back once, and the counter is zero |
| DbusOutput.OutputQueue.BeginWrite | src/dmn-dbus-io.cpp:503-536 | exactly when each answer is given: too long, failed, stopped, admitted behind the queue with exactly its bytes if nobody waits and there is room, and otherwise the next ticket; both limits are kept |
| DbusOutput.OutputQueue.EndWrite | src/dmn-dbus-io.cpp:538-558 | a woken writer is admitted behind the queue exactly if the endpoint neither failed nor stopped, with the ticket being served; the next ticket is served after it and both limits are kept |
| DbusOutput.OutputQueue.Pop | src/dmn-dbus-io.cpp:712-720 | exactly the first payload leaves, the bytes go down by its length, and handed over plus queued stays the same |
| OutputRuns.InOrderWithinLimits | src/dmn-dbus-io.cpp:503-559 | admitted are the first payloads that arrived, in that order; sent then queued is admitted; both queue limits hold, and the status shows the queue |
| OutputRuns.WrittenIsSentPlusUnsent | src/dmn-dbus-io.cpp:561-603 | after shutdown, messages written are those sent and those reported unsent |
| OutputRuns.EmptyQueueServesNext | src/dmn-dbus-io.cpp:81-88 | with valid limits, whenever the queue of a running endpoint is empty the writer whose ticket is served can proceed |
| OutputProgress.WriteArrives | src/dmn-dbus-io.cpp:503-536 | a write of allowed size on a running endpoint always arrives, and is admitted at once exactly if nobody waits and there is room |
| OutputProgress.WakeAnswers | src/dmn-dbus-io.cpp:531-558 | a woken writer is admitted once it is served and fits, and gives up exactly after a failure or the stop |
| OutputProgress.LookDecides | src/dmn-dbus-io.cpp:666-698 | exactly when the worker leaves, takes the first payload, or only keeps the connection going |
| OutputProgress.FailureEndsEndpoint | src/dmn-dbus-io.cpp:700-775 | a failed send or dispatch ends the endpoint and lets every waiting writer leave |
| OutputProgress.ShutdownDrains | src/dmn-dbus-io.cpp:561-603 | a shutdown begun at any time, without failure or deadline, sends every admitted payload and reports nothing unsent |
| OutputProgress.EverybodyIsServed | src/dmn-dbus-io.cpp:523-558 | in a running endpoint with valid limits the worker and the woken writers get to a state in which all that arrived is sent and nobody waits |
| OutputRuns.OnlyNotifyingStepsFree | src/dmn-dbus-io.cpp:531-541 | a blocked writer becomes free only by a step that notifies the blocked writers |
| ScheduledPipe.PipeObject.WriteAt | include/dmn-pipe.hpp:614-647 | unless shut down, the deadline queue gains exactly the new item and stays in order of deadline, then submission, and immediate items are untouched; else nothing changes |
| ScheduledPipe.PipeObject.Choose | include/dmn-pipe.hpp:688-729 | exactly when the worker leaves, sleeps, sleeps until the first deadline, or takes the first item, immediate before scheduled |
| ScheduledPipe.EmplaceKeepsOrder | include/dmn-pipe.hpp:626-627 | the deadline queue stays in order of deadline, then submission |
| PipeRuns.SubmittedIsAccountedFor | include/dmn-pipe.hpp:578-740 | submitted is processed plus in hand plus both queues, and every accepted item is delivered once or queued once |
| PipeRuns.ImmediatesAreFifo | include/dmn-pipe.hpp:700-705 | immediate items are delivered in the order accepted |
| PipeRuns.ChoiceIsRight | include/dmn-pipe.hpp:700-718 | a scheduled item is chosen only when no immediate one waits, not before its deadline, and before all other pending ones |
| PipeRuns.DeadlinesAreKept | include/dmn-pipe.hpp:707-718 | deliveries are on time, and of two scheduled items the earlier deadline, then the earlier submission, goes first |
| PipeRuns.SleepsOnlyWhenIdle | include/dmn-pipe.hpp:707-729 | the worker sleeps only when nothing is ready, and not beyond the earliest deadline |
| PipeRuns.CleanExitHasDrained | include/dmn-pipe.hpp:348-369 | a worker that exits without failure has processed every accepted item, and none is accepted after |
| PipeProgress.WritesAreAccepted | include/dmn-pipe.hpp:578-647 | a pipe that is not shut down accepts every write |
| PipeProgress.NothingAfterShutdown | include/dmn-pipe.hpp:348-369 | a pipe that is shut down accepts nothing more |
| PipeProgress.FailureEndsPipe | include/dmn-pipe.hpp:688-740 | a processing that fails drops its item uncounted, and nothing more is delivered |
| PipeProgress.DeliversNext | include/dmn-pipe.hpp:700-729 | an idle worker delivers the next item after exactly the time it is not due yet |
| PipeProgress.DrainsAfterShutdown | include/dmn-pipe.hpp:348-369 | from any reachable state with a live worker every accepted item is delivered and processed once time goes by, and after the shutdown the worker leaves |
| RecurringTimer.TimerObject.Start | include/dmn-timer.hpp:110-126 | exactly when it overflows or is refused; otherwise the timer is active without failure, with the new interval and callback, and exactly one tick is added, of a generation no queued tick has; on an error state and queue stay |
| RecurringTimer.TimerObject.Resume | include/dmn-timer.hpp:153-167 | exactly when it rethrows, overflows or is refused; otherwise a paused timer gets exactly one tick, of a generation no queued tick has, with the old interval and callback; an active one and any error leave state and queue |
| RecurringTimer.TimerObject.EndTick | include/dmn-timer.hpp:257-280 | exactly when it overflows or cannot write; otherwise an active generation stays active and gets one more tick, due one interval from now, others none; a stale tick changes nothing; a failed write pauses the timer |
| TimerRuns.OneLiveTick | include/dmn-timer.hpp:110-300 | an active timer has exactly one tick of its generation, queued or being processed; no generation has two; a failed timer is paused |
| TimerRuns.StaleForever | include/dmn-timer.hpp:229-300 | a generation once stale is stale in every continuation, and none of its ticks ever calls, schedules or records a failure again |
| TimerRuns.QueuedTicksAreCurrentOrStale | include/dmn-timer.hpp:110-300 | in every run a queued tick is of the active generation or stale for ever |
| TimerRuns.CallsKeepTheInterval | include/dmn-timer.hpp:214-280 | every callback run is of the callback asked for last and comes at least the interval after the last start, resumption or run; no deadline leaves the clock range |
| TimerRuns.StaleTickChangesNothing | include/dmn-timer.hpp:233-300 | from the moment a generation is stale, every later step of its ticks leaves the timer as it is |
| TimerRuns.StoppedStaysQuiet | include/dmn-timer.hpp:136-140 | after stop nothing is called, scheduled or recorded until start or resume |
| TimerProgress.ActiveStaysActive | include/dmn-timer.hpp:229-300 | an active timer stays active, of the same generation until a new start, in every continuation without stop, destruction, failing write, overflow or other exception |
| TimerProgress.CallsAgain | include/dmn-timer.hpp:229-272 | waiting one interval is enough for the next callback, after which the timer is active with its next tick due exactly one interval later |
| TimerProgress.CallsForEver | include/dmn-timer.hpp:229-272 | n intervals bring n callbacks, as far as the clock's range allows |
| TimerProgress.StartRuns | include/dmn-timer.hpp:110-126 | a timer that is not destroyed can be started in any state, and runs anew exactly for an interval in range |
| TimerProgress.ResumeRuns | include/dmn-timer.hpp:153-167 | a paused timer without a failure runs anew; an active or failed one is left as it is |
| TimerProgress.DestroyedForEver | include/dmn-timer.hpp:95-300 | after its destruction nothing is called or scheduled |
| TimerProgress.OtherExceptionPauses | include/dmn-timer.hpp:245-255 | another exception pauses the timer with its failure, and resuming rethrows it |
| TimerProgress.NoNextTickPauses | include/dmn-timer.hpp:257-300 | so does a next tick that is out of range or cannot be written |

## Left out

- Interval tree: callback registration and unregistration, exceptions of callbacks and comparators, the reentrancy guard and the wrap-around of ordinals; cached states are kept in a map by ordinal, which identifies an entry. Methods on nodes return new nodes, so update in place and allocation failure are not captured. `std::sort` and `std::stable_sort` are insertion sorts here.
- Lock-free queue: several consumers, shutdown, thread cancellation, weaker memory orders and the epoch-based freeing of nodes; nodes are never freed or reused.
- Election: the resending of last messages, the conflict and playback paths, sequence counters of messages, timestamps other than the start time, and nodes without both handlers. Which single leader a cluster ends up with under which deliveries is not stated beyond `SettledStays`, `WaitingNodeJoins` and the results on two leaders.
- Job executor: entering and leaving the main loop, signals, timed jobs; the task queue of the asynchronous thread is a count of queued executor tasks.
- DbusCodec.EncodeAcceptsIff: counts an empty structure as accepted, as the encoder's own code does; libdbus may refuse to close a structure without fields.
- D-Bus codec: how libdbus computes the size of a message and what it accepts as signature, text or path are parameters; allocation failures of libdbus are not modelled; the content of fixed-size values is carried through unchanged. The three names of an error are those of the exceptions thrown.
- DbusCallRuns.EndedIsDoneOnce: does not model the failure path of registering the completion hook, which bypasses the completion flag.
- DbusCallRuns.ExactlyOnce: does not model that path either.
- D-Bus client: signals, subscriptions and their callbacks, and libdbus itself.
- D-Bus output: the input endpoint, the outgoing byte counts of libdbus, time; the worker may find libdbus full or the deadline passed at any look.
- Scheduled pipe: ordinary mode, outside readers and the waiting for emptiness, which compares counts only.
- Timer: the conversion of intervals to clock ticks; standard exceptions of callbacks are only logged and have no effect here.
- The mutex queue, publish-subscribe, the distributed lock prototype, GATT and BlueZ clients, Kafka and sockets: they would add easier members or need foreign calls.
