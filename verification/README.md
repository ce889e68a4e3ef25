# Iris in Dafny

Iris is an actor runtime: actors with two-class mailboxes and generational pids, a supervisor
that restarts children, links that carry exit messages, timers, hot swap of handlers, and a
binary protocol between nodes with a failure detector. This project models the stateful,
concurrent core and proves what it keeps over every run and every interleaving.

How it is built: each component is a step machine on values. An operation is cut at its
accesses to shared state and named by the access it performs next; a run is any sequence of
steps of any number of operations, and a step that is not possible changes nothing, so every
sequence is a run. Beside the machine stands the object that the source has, a class with the
same fields; its methods are proved to be runs of the machine, or to compute the machine's
functions, so what is proved of all runs is proved of them.

| module | what it holds |
|---|---|
| `Pids`, `SlotReuse` | generational pids, the slab, its history, and which slot an allocation takes |
| `Links` | the link multigraph |
| `SupervisorSteps` | the supervisor as a step machine, one shared access per step |
| `MarkOwnership` | no pid is stuck in `restarting` |
| `RestartTermination` | every schedule ends; three calls; one error per failed call |
| `RestartLineage`, `RestartOutcomes` | which child replaces which, and what becomes of each |
| `RestartWaves` | what a RestartAll wave leads to |
| `DoubleRestarts` | when a pid gets two restarts |
| `FactoryPanics` | which pids stay marked when factories panic |
| `Removals` | what unwatch and remove_child stop |
| `LinkInterleavings` | links access by access |
| `SupervisorRaces` | what the code does not keep, and exactly when |
| `Supervisor` | the supervisor as an object |
| `Mailbox`, `MailboxRefinement` | the mailbox, and the two queues it stands for |
| `SelectiveOrder` | exactly what a selective receive returns and leaves |
| `SelectiveSlices` | selective receive cut into timed slices |
| `MailboxCounter` | the shared count of user messages, access by access |
| `Lifecycle`, `LinkCounts`, `LinkOrder`, `Runtime` | spawn, stop, send, exit, links and the Exit messages they lead to; the runtime as an object |
| `HotSwapping` | a push actor and swaps of its handler |
| `Timers` | timer creation, firing and cancelling |
| `Utf8`, `Wire`, `Connection` | the protocol, its parser and the connection loop |
| `RemoteMonitor` | the failure detector |

Where the code does not meet a property one could expect of it, a lemma states exactly when it
does, or shows a run in which it does not:

- A factory that returns the pid it restarts loses the child (`SupervisorRaces.SwapKeepsChildExactly`, `SupervisorRaces.WatchedChildIsLost`).
- A pid gets a second restart exactly when a RestartAll notification collects it, or a notification spawns its RestartOne task, while another operation will restart it (`DoubleRestarts.RunKeepsOneEachExactly`); the wave's marking does not prevent it (`SupervisorRaces.TwoExitsAtOnce`, `SupervisorRaces.LateSiblingGetsTwo`).
- A factory that panics leaves its pid marked (`FactoryPanics.StuckExactly`).
- `unwatch` and `remove_child` do not stop a restart whose operation already has the spec (`Removals.UnwatchStopsExactly`, `SupervisorRaces.UnwatchDoesNotStopRestart`).
- A link and a cleanup that the two lists of a pair see in different orders leave a one-sided entry (`SupervisorRaces.LinkRaceLeavesStaleEntry`, `LinkInterleavings.MisorderShows`); in the same order links are symmetric (`LinkInterleavings.SymmetricAtRest`).
- A slab of more than 2^32 slots issues one pid for two slots (`Pids.ReissueNeedsWrapExactly`).
- `recv` gives up with user messages still queued once all senders are gone, and a selective receive misses a match there (`MailboxRefinement.ClosedRecvExact`, `MailboxRefinement.ClosedSelectiveExact`).
- The documentation of `selective_recv` (`src/mailbox.rs:207-209`) promises delivery of stashed messages in the order they were encountered; the code delivers a system message, stashed or queued, before a user message stashed earlier (`MailboxRefinement.StashOrderExactly`, `MailboxRefinement.StashedSystemOvertakes`). Order is kept within each class.
- A cancelled one-shot may have sent its message or may still send it, and an interval of period zero leaves its table entry behind (`Timers.CancelledAfterSendExactly`, `Timers.CancelMayLoseTheRace`, `Timers.LeaksExactly`).
- A swap that falls between the two polls of one receive is missed by that receive (`HotSwapping.HandlerExactly`, `HotSwapping.SwapBetweenPolls`).
- `send_remote` lets payloads of 4 GiB and more through that cannot arrive as sent, and `resolve_remote` asks for a prefix of a name of 4 GiB or more (`Wire.PayloadArrivesExactly`, `Connection.RemoteResolveExactly`, `Connection.LongNameAliases`).
- A backoff factor that takes a delay below 0 or to 2^64 seconds panics before the cap applies, and the node is never reported (`RemoteMonitor.ReportsExactly`, `RemoteMonitor.NegativeFactorPanics`).
- With a backoff factor below 1 the delay can fall below min(base * factor^k, max) (`RemoteMonitor.DelayClosedFormExactly`).

## Model

| member | source | states |
|---|---|---|
| `Pids.SplitInvertsMake` | src/pid.rs:71-77 | `split_pid` undoes `make_pid` if and only if the index has at most 32 bits |
| `Pids.ZeroPid` | src/pid.rs:71-73 | for 32-bit indices, the wire's sentinel 0 is the pid of slot 0 in generation 0 and of nothing else |
| `Pids.AllocateKeepsWf` | src/pid.rs:30-43 | after an allocation the free list is still duplicate-free and exactly the unoccupied indices |
| `Pids.DeallocateKeepsWf` | src/pid.rs:46-60 | the same after a deallocation of any pid, valid or not, and that pid is not valid afterwards |
| `Pids.SlabAllocator.constructor` | src/pid.rs:22-27 | an empty, well-formed slab |
| `Pids.SlabAllocator.Allocate` | src/pid.rs:30-43 | the in-place allocation returns the pid and leaves the slab of the allocation function that SlotReuse and the other results are about, well-formed |
| `Pids.SlabAllocator.Deallocate` | src/pid.rs:46-60 | true exactly for valid pids; the slab of the deallocation function, well-formed; the pid is stale afterwards |
| `Pids.Run` | src/pid.rs:30-60 | in every run, each generation counts the frees of its slot modulo 2^32, and each issued pid encodes its slot and the frees before it |
| `Pids.ReissuedExactlyAfterWrap` | src/pid.rs:30-60 | in every run with at most 2^32 slots, two allocations return the same pid if and only if they are for one slot that was freed a positive multiple of 2^32 times in between |
| `Pids.ReissueNeedsWrapExactly` | src/pid.rs:30-73 | a run reissues pids only after such wraps if and only if its slab has at most 2^32 slots |
| `Pids.FreshBeforeWrap` | src/pid.rs:30-60 | before any generation wraps, all pids issued are distinct |
| `Pids.NonZeroBeforeWrap` | src/pid.rs:36-41 | before any generation wraps, no pid issued is 0 and all fit 64 bits |
| `Pids.ValidIffLive` | src/pid.rs:63-68 | a pid is valid if and only if it is that of an occupied slot, and the pids of two slots differ |
| `SlotReuse.TakesLastFreed` | src/pid.rs:31-34 | an allocation after any run takes exactly the slot whose successful free is the latest that no allocation has taken since, with generation 1 + the number of its frees, modulo 2^32 |
| `SlotReuse.TakesNewExactly` | src/pid.rs:35-42 | it takes a new slot, in generation 1, if and only if every slot is occupied, which is if and only if no freed slot is left |
| `SlotReuse.AsLongAsMostLive` | src/pid.rs:30-60 | after any run the slab has exactly as many slots as were occupied at once at most during the run |
| `Links.LinkMult` | src/supervisor.rs:98-101 | `link` adds one record in each direction and touches no other multiplicity |
| `Links.UnlinkMult` | src/supervisor.rs:78-85 | `unlink` erases all records between two pids, both ways, and touches no other multiplicity |
| `Links.CleanupMult` | src/supervisor.rs:122-130 | cleanup erases the row of the pid, and of its column the entries its own list reaches; all else keeps its multiplicity |
| `Links.CleanupExact` | src/supervisor.rs:108-130 | cleanup leaves the pid nowhere if and only if every peer that records it is recorded by it |
| `Links.RunsStaySymmetric` | src/supervisor.rs:78-130 | after every sequence of link, unlink and cleanup the links are a symmetric multigraph, so cleanup leaves the pid nowhere |
| `MarkOwnership.StepKeepsMarksOwned` | src/supervisor.rs:158-313 | every step of every operation keeps each marked pid owned by an operation in flight that will unmark it |
| `MarkOwnership.NoMarkIsStuck` | src/supervisor.rs:158-313 | that holds in every interleaving of notifications, tasks, unwatch, remove_child, links and adds from the empty supervisor |
| `MarkOwnership.QuiescenceUnmarks` | src/supervisor.rs:158-170 | at quiescence `restarting` is empty, and the next exit of any pid is not swallowed |
| `MarkOwnership.SwallowedOnlyWhileOwned` | src/supervisor.rs:160-162 | an exit report is swallowed only while some other operation in flight owns that very pid |
| `FactoryPanics.StuckExactly` | src/supervisor.rs:210-223 | with factories that may panic anywhere: at quiescence the marked pids are exactly those whose task a panic ended while they were marked and which nothing has unmarked since, and exactly their exits are swallowed |
| `FactoryPanics.PanicDecreases` | src/supervisor.rs:203-252 | a panic lowers the measure of RestartTermination like any other step |
| `FactoryPanics.PanicLeavesMark` | src/supervisor.rs:261-281 | when the factory of the last restart in flight panics, all is at rest with its pid marked and the children as they were |
| `RestartTermination.StepDecreases` | src/supervisor.rs:203-309 | every step of an operation in flight strictly decreases one global lexicographic measure |
| `RestartTermination.Progress` | src/supervisor.rs:158-313 | every unfinished operation has a step it can take |
| `RestartTermination.EveryScheduleQuiesces` | src/supervisor.rs:158-313 | from every reachable state, with no new calls, every schedule reaches quiescence with no pid marked |
| `RestartTermination.TaskShapes` | src/supervisor.rs:261-309 | in every run each task waits 100 ms before its second and 200 ms before its third call and never makes a fourth |
| `RestartTermination.AtMostThreeCalls` | src/supervisor.rs:203-251 | in every run no operation calls a factory more than three times, and a task that has not finished has failed exactly as often as its counter says |
| `RestartTermination.OneErrorPerFailedCall` | src/supervisor.rs:284-289 | in every run the messages of the failed factory calls are, with multiplicity, the logged errors plus what is about to be logged; at quiescence exactly the log |
| `RestartLineage.ExactlyOneHolder` | src/supervisor.rs:158-313 | a pid is marked if and only if exactly one operation in flight holds it, also while idle children are removed |
| `RestartLineage.ReplacedAtMostOnce` | src/supervisor.rs:158-170 | however often the exit of a pid is reported, and by whom, at most one replacement is made for it |
| `RestartLineage.QuiescentChildren` | src/supervisor.rs:255-311 | at quiescence children are the added minus the dropped minus the removed: exactly one current incarnation for each, with the spec it was added with, and nothing marked |
| `RestartLineage.WaveReplacesTheGroup` | src/supervisor.rs:184-254 | after a RestartAll wave, whatever happens next, every pid of the old group is gone at quiescence |
| `RestartOutcomes.FateOfFormerChildren` | src/supervisor.rs:203-309 | a former child was replaced after fewer than three failed calls, or never: then its lineage was dropped after exactly three, or removed by a client before any; a child at quiescence has seen no call |
| `RestartOutcomes.DroppedAfterThree` | src/supervisor.rs:233-245 | every dropped lineage has a pid for which exactly three calls failed and none succeeded |
| `RestartWaves.HeirsAlways` | src/supervisor.rs:261-283 | in every run each replaced pid has exactly one heir, of its own lineage, and no two share one |
| `RestartWaves.WaveLeavesTheHeirs` | src/supervisor.rs:184-254 | a wave from rest, under every interleaving and any duplicate or late exits of the old group, ends with exactly one new child, with the old spec, for each old one whose factory failed fewer than three times, and with no other child and no mark |
| `Removals.RestartComesExactly` | src/supervisor.rs:158-313 | while a pid is no child and is not added or returned by a foreign factory, some continuation inserts a replacement for it if and only if an operation in flight has its spec |
| `Removals.UnwatchStopsExactly` | src/supervisor.rs:71-75 | `unwatch` and `remove_child`, from the access that removes the child on, stop every restart of it if and only if no operation in flight has its spec by then |
| `SupervisorRaces.WaveIsARun` | src/supervisor.rs:184-197 | the atomic wave of the lineage runs is a run of the fine-grained machine |
| `SupervisorRaces.WaveKeepsOneHolderExactly` | src/supervisor.rs:192-197 | a wave that nothing interrupts keeps one task per pid if and only if no child but the exited one is already marked |
| `SupervisorRaces.TwoExitsAtOnce` | src/supervisor.rs:184-197 | two RestartAll children that exit together get two waves over both, from the empty supervisor |
| `SupervisorRaces.LateSiblingGetsTwo` | src/supervisor.rs:185-197 | from the empty supervisor, a sibling that exits between the snapshot of a wave and its marking has its own task and is in the group the wave will spawn |
| `DoubleRestarts.StepKeepsOneEachExactly` | src/supervisor.rs:158-313 | a single access keeps at most one operation per pid that restarts it if and only if it is not a collection, nor a RestartOne spawn, of a pid that another operation will restart |
| `DoubleRestarts.RunKeepsOneEachExactly` | src/supervisor.rs:158-313 | in every run from the empty supervisor no pid ever has two restarts if and only if no step is one of those |
| `DoubleRestarts.LineageKeepsOneEach` | src/supervisor.rs:158-313 | the runs of RestartLineage never give a pid two restarts |
| `SupervisorRaces.SwapKeepsChildExactly` | src/supervisor.rs:271-272 | with any interleaving between insert and remove that leaves the replacement in place, it is a child afterwards if and only if it is a different pid |
| `SupervisorRaces.WatchedChildIsLost` | src/supervisor.rs:89-95 | from the empty supervisor, `watch`, one exit and its restart end with no child |
| `SupervisorRaces.UnwatchDoesNotStopRestart` | src/supervisor.rs:133-136 | the run in which a task in flight adds a replacement for a pid unwatched after it started |
| `SupervisorRaces.LinkRaceLeavesStaleEntry` | src/supervisor.rs:98-119 | a link that interleaves with the cleanup of one end leaves a one-sided entry that no cleanup of that end removes |
| `SupervisorRaces.LinkRaceMayEndWell` | src/supervisor.rs:98-119 | the same overlap with its last accesses in the other order ends symmetric |
| `LinkInterleavings.StepKeepsBalanceExactly` | src/supervisor.rs:78-130 | a single access keeps, for every pair, both directions due to agree once what is halfway is done in order, if and only if the access itself is in order |
| `LinkInterleavings.SymmetricAtRest` | src/supervisor.rs:78-130 | in every interleaving of single accesses in which the two lists of each pair see its links and erasures in the same order: whenever no link operation is halfway, links are a symmetric multigraph, a pid without a list is nowhere, and cleanup leaves its pid nowhere |
| `LinkInterleavings.MisorderShows` | src/supervisor.rs:98-119 | conversely, after one access out of order and with the rest finished in order, the links at rest are not symmetric |
| `Supervisor.Supervisor.constructor` | src/supervisor.rs:56-63 | an empty supervisor |
| `Supervisor.Supervisor.AddChild` | src/supervisor.rs:66-68 | the child is recorded with its spec, nothing else changes, as a run of the machine |
| `Supervisor.Supervisor.Watch` | src/supervisor.rs:89-95 | the recorded factory hands out the watched pid itself |
| `Supervisor.Supervisor.Unwatch` | src/supervisor.rs:133-136 | child and mark go, links stay, as a run of the machine |
| `Supervisor.Supervisor.RemoveChild` | src/supervisor.rs:71-75 | child, mark and links go, as a run of the machine |
| `Supervisor.Supervisor.LinkedPids` | src/supervisor.rs:108-119 | returns the recorded peers with multiplicity and cleans the pid up, as a run of the machine |
| `Supervisor.Supervisor.TakeAndClean` | src/supervisor.rs:122-130 | the loop over the peers computes the cleanup of the link map, as a run of the machine |
| `Supervisor.Supervisor.Link` | src/supervisor.rs:98-101 | both directions are recorded once more, as a run of the machine |
| `Supervisor.Supervisor.Unlink` | src/supervisor.rs:78-85 | both directions are erased, as a run of the machine |
| `Supervisor.Supervisor.NotifyExit` | src/supervisor.rs:158-313 | ignored for a marked pid or no child; one task for RestartOne; for RestartAll every child is marked and gets one task; always a run of the machine |
| `Supervisor.TasksExactly` | src/supervisor.rs:197-206 | the spawned tasks are, in order, one per listed child, with no call made and a first wait of 100 ms |
| `Supervisor.Supervisor.RestartTask` | src/supervisor.rs:261-310 | for every sequence of factory results: the waits; one more error per failed call, its very message, in order; the child swapped or dropped, links cleaned, mark gone; as a run of the machine whose factory answers are those results |
| `Supervisor.Supervisor.Respawn` | src/supervisor.rs:266-307 | the retry loop stops at the first success or the third failure, having made exactly those calls and logged exactly their messages |
| `Supervisor.Supervisor.Attempt` | src/supervisor.rs:268-289 | one call: the pid returned becomes a child with the spec, or the message returned is logged |
| `Supervisor.Supervisor.Retire` | src/supervisor.rs:272-282 | removal, link cleanup and unmarking, as a run of the machine |
| `Mailbox.Mailbox.constructor` | src/mailbox.rs:66-79 | an empty open mailbox |
| `Mailbox.Mailbox.Send` | src/mailbox.rs:83-106 | appended to its class, and counted if a user message; or handed back with the mailbox, count included, as it was |
| `Mailbox.Mailbox.Len` | src/mailbox.rs:131-133 | the counter, which while it is exact is the number of user messages in channel and stash |
| `Mailbox.Mailbox.Recv` | src/mailbox.rs:139-175 | computes the receive function that ReceiveRefines and ClosedRecvExact are about |
| `Mailbox.Mailbox.TryRecv` | src/mailbox.rs:178-205 | computes the non-waiting receive function that ReceiveRefines is about |
| `Mailbox.Mailbox.SelectiveRecv` | src/mailbox.rs:210-270 | the loop with its stash computes the selective receive that SelectiveRefines and SelectiveExactly are about |
| `MailboxRefinement.ReceiveRefines` | src/mailbox.rs:139-205 | on an open mailbox `recv`, and in any state `try_recv`, takes the head of the system queue if any, else the head of the user queue, and keeps the count exact |
| `MailboxRefinement.ClosedRecvExact` | src/mailbox.rs:162-174 | with all senders gone `recv` returns None if and only if no system message and no stashed user message is left, whatever the user channel holds |
| `MailboxRefinement.StashOrderExactly` | src/mailbox.rs:141-160 | with something stashed, `recv` and `try_recv` deliver what was stashed first if and only if it is a system message or no system message is stashed or queued |
| `MailboxRefinement.StashedSystemOvertakes` | src/mailbox.rs:207-209 | from a new mailbox, a user message stashed first is overtaken by a system message stashed second |
| `MailboxRefinement.ClosedSelectiveExact` | src/mailbox.rs:223-250 | with all senders gone a selective receive returns None if and only if neither stash nor system channel holds a match, and leaves the user channel as it is |
| `MailboxRefinement.SelectiveRefines` | src/mailbox.rs:210-270 | selective receive removes only the first match of its class and leaves both queues otherwise as they were; suspended it has found no match; None if and only if all senders are gone and no match is in reach |
| `SelectiveOrder.SelectiveExactly` | src/mailbox.rs:210-270 | the earliest match of the stash wins, else that of the system channel, else, while open, that of the user channel; what is passed over is appended to the stash, system messages first, each class in channel order; None and waiting likewise |
| `SelectiveOrder.FirstOrNone` | src/mailbox.rs:215-221 | a list of messages has an earliest match or none, so those cases are all |
| `SelectiveOrder.TurnsAfterArrivals` | src/mailbox.rs:223-269 | whatever came before, a call still waiting ends, once nothing more arrives, with the result and the mailbox of one selective receive on the mailbox it waits at |
| `MailboxRefinement.RunsRefine` | src/mailbox.rs:83-270 | along every run of sends, receives and selective receives, each step is a step of two plain FIFO queues with the same result, and the count is the length of the user queue |
| `SelectiveSlices.NothingLost` | src/py.rs:362-412 | however arrivals, turns, cuts and hangup interleave with a selective receive, nothing is lost or reordered, and what it returns is the first match of a class |
| `SelectiveSlices.CutsAreInvisible` | src/py.rs:386-411 | cutting the call into slices anywhere changes neither its result nor the mailbox |
| `SelectiveSlices.HangupGivesUp` | src/mailbox.rs:237-250 | once all senders are gone and no system message is left, the next turn returns None |
| `SelectiveSlices.RetrySkipsStash` | src/mailbox.rs:215-221 | a retried call does not deliver what an earlier slice stashed |
| `SelectiveSlices.PySelectiveRecv` | src/py.rs:362-412 | the slicing loop returns the message and leaves the mailbox of one uninterrupted call on the same arrivals |
| `MailboxCounter.CountIsExact` | src/mailbox.rs:83-119 | in every interleaving of senders and receiver the counter is user channel plus stashed users plus sends and delivery in progress, never underflows, and is exact at rest |
| `Lifecycle.MailboxesAreLive` | src/lib.rs:408-458 | at every step of spawn, stop and exit, each key of `mailboxes` is a live pid, its mailbox belongs to a running actor with that pid, and to no other actor was it ever issued |
| `Lifecycle.DeadForever` | src/lib.rs:388-390 | after stop or exit no later state has a mailbox under that pid: sends fail for ever and never reach a later actor of the slot |
| `Lifecycle.AtMostOneExitPerLink` | src/lib.rs:450-456 | in every run an exiting actor sends each peer at most one Exit per link it took, and none before it took them |
| `Lifecycle.ExactlyOneExitPerLink` | src/lib.rs:450-456 | a peer that keeps its mailbox gets exactly one Exit per link taken |
| `LinkCounts.RecordedExactly` | src/lib.rs:715-721 | after any run, the records between two pids are the links made between them since the last unlink of the two or the last time the links of one were taken or consumed |
| `LinkCounts.OneExitPerLinkMade` | src/lib.rs:450-456 | when an actor is gone, a peer that kept its mailbox has got exactly one Exit per such link |
| `LinkOrder.RetainSifts` | src/supervisor.rs:78-85 | what `retain` keeps is a subsequence: the places that do not hold the pid, all of them, in order |
| `LinkOrder.RecordedInOrder` | src/supervisor.rs:98-101 | after any run, the list of a pid holds the peers of the links still standing, all of them, in the order in which they were made |
| `LinkOrder.ExitsInOrder` | src/lib.rs:450-456 | if its peers keep their mailboxes, an exiting actor sends its Exit messages to the peers of its standing links in that order |
| `Lifecycle.LinksStaySymmetric` | src/lib.rs:439-456 | with each operation on the links as one step, they stay symmetric under every run of link, unlink, exit and consumption by restart tasks |
| `Lifecycle.TakesWhatIsRecorded` | src/lib.rs:450-450 | an exiting actor takes exactly the recorded links and, with taking and cleaning as one step, is then nowhere in the table |
| `Lifecycle.ConsumedTakesNothing` | src/lib.rs:440-450 | once a restart has consumed the links of a pid, whenever its exit gets to them before it is linked again, it takes none and tells nobody |
| `Runtime.Runtime.Spawn` | src/lib.rs:413-416 | the new pid is live, had no mailbox, and is that of a new running actor; nothing else changes; as a run of the lifecycle |
| `Runtime.Runtime.Stop` | src/lib.rs:388-390 | the mailbox goes and nothing else, as a run of the lifecycle |
| `Runtime.Runtime.Link` | src/lib.rs:715-717 | one more record in each direction and nothing else, as a run of the lifecycle |
| `Runtime.Runtime.Unlink` | src/lib.rs:719-721 | no record between the two and nothing else, as a run of the lifecycle |
| `Runtime.Runtime.Send` | src/lib.rs:667-673 | the message enters the mailbox of the running actor that holds the live pid, or is handed back because there is no mailbox or the actor has dropped its receiver |
| `Runtime.Runtime.DropReceiver` | src/lib.rs:424-425 | the receiver of the actor that ended is gone, and nothing else changes |
| `Runtime.Runtime.Exit` | src/lib.rs:439-456 | the exit sequence: mailbox and pid gone, links cleaned up, and one Exit in link order per recorded peer with a mailbox, or none if a restart consumed the links |
| `Runtime.Runtime.Retreat` | src/lib.rs:439-450 | mailbox dropped, pid freed, links taken unless consumed, as a run of the lifecycle |
| `Runtime.Runtime.Depart` | src/lib.rs:439-447 | the mailbox goes; the links are as before or cleaned up by a restart; slab and Exit messages are as before |
| `Runtime.Runtime.FreeAndTake` | src/lib.rs:448-450 | the pid is stale and the recorded peers are taken, in order and with repetitions |
| `Runtime.Runtime.TellAll` | src/lib.rs:451-456 | the loop over the peers sends exactly the due Exit messages, in order |
| `HotSwapping.HandlerExactly` | src/py.rs:878-897 | in every run the n-th message handled is the n-th sent, by the handler of the last swap sent before its receive polled the system channel; it misses a swap sent before it if and only if one was sent after that poll |
| `HotSwapping.SwapsOvertake` | src/lib.rs:402-406 | with receives as single steps, every message is handled by the handler of the last swap sent before it or by a later one |
| `HotSwapping.SwapBetweenPolls` | src/mailbox.rs:162-174 | a swap and a message sent between the two polls of one receive leave that message to the old handler |
| `HotSwapping.AtomicIsRecv` | src/lib.rs:533-545 | a receive as one step is `recv`: what it delivers is handled by the current handler or swaps it, at None the loop ends |
| `HotSwapping.StoppedEnds` | src/lib.rs:388-390 | a stopped actor without system messages ends at its next look, whatever user messages are queued |
| `Timers.IdsUniqueExactly` | src/lib.rs:102-131 | the ids of a run are pairwise distinct if and only if it created at most 2^64 timers |
| `Timers.IdsCountFromOne` | src/lib.rs:103-103 | the timers of a run are numbered from 1, modulo 2^64 |
| `Timers.NoEntryLeaks` | src/lib.rs:102-158 | in every interleaving each table entry belongs to a timer whose task has not finished; when all are done the table is empty |
| `Timers.CancelReturnsTrueOnce` | src/lib.rs:151-158 | cancel returns true at most once per id, and would for an id if and only if its entry was made, its task has not cleaned up, and it was not cancelled before |
| `Timers.OneShotSendsOnce` | src/lib.rs:102-122 | a one-shot sends at most once in every run; finished and not cancelled it sent exactly once; an interval finishes only when cancelled |
| `Timers.LeaksExactly` | src/lib.rs:126-148 | when all tasks have ended, an entry is left if and only if it is of an uncancelled interval of period zero, whose task panics |
| `Timers.CancelledAfterSendExactly` | src/lib.rs:111-118 | a cancel that can still return true comes after the message of a one-shot if and only if the timer is between its select and its cleanup, a phase no caller can see; CancelMayLoseTheRace shows that no earlier one is safe |
| `Timers.CancelMayLoseTheRace` | src/lib.rs:111-118 | from every state with a waiting one-shot both orders occur: sent and then cancelled, cancelled and then sent |
| `Timers.ClosedSendsNothing` | src/lib.rs:135-146 | once a task has left its select nothing in any continuation makes it send again |
| `Timers.TimerTable.constructor` | src/lib.rs:84-85 | counter at 0 and no entries |
| `Timers.TimerTable.Create` | src/lib.rs:102-109 | a new id, its entry and its task, as three steps of the machine |
| `Timers.TimerTable.CancelTimer` | src/lib.rs:151-158 | true exactly if there was an entry; there is none afterwards |
| `Timers.TimerTable.CleanUp` | src/lib.rs:118-118 | the entry goes, as a step of the machine |
| `Timers.TimerTable.OneShotTask` | src/lib.rs:109-119 | one message or none according to the branch taken, and no entry afterwards, as a run of the machine |
| `Timers.TimerTable.IntervalTask` | src/lib.rs:132-145 | for every sequence of branches taken: one message per tick before the cancellation is seen; if it is, no entry afterwards; as a run of the machine |
| `Utf8.WellFormedExactly` | src/network.rs:181-184 | the byte check accepts exactly the encodings of sequences of Unicode scalar values (section 3 of RFC 3629) |
| `Utf8.Examples` | src/network.rs:181-184 | the encoding gives the examples of section 7 of RFC 3629 |
| `Wire.ParseOneExactly` | src/network.rs:142-192 | a frame is taken from a stream if and only if the stream starts with the encoding of an acceptable frame, and it is that frame |
| `Wire.Layout` | src/network.rs:252-256 | type byte 0, 1 or 2, then the fields at their offsets, then the payload |
| `Wire.BEByte` | src/network.rs:254-255 | byte j of an n-byte field is that of weight 256^(n-1-j) |
| `Wire.PayloadArrivesExactly` | src/network.rs:246-257 | a payload that `send_remote` accepts arrives as sent if and only if it is shorter than 2^32 bytes |
| `Wire.ParseAllSound` | src/network.rs:142-194 | with limits that may change from frame to frame, every stream is the encoding of the acceptable frames taken from it and a rest that starts none |
| `Wire.OneDecomposition` | src/network.rs:142-194 | that decomposition is unique |
| `Wire.FramesThenAnything` | src/network.rs:142-194 | acceptable frames are taken as sent whatever bytes follow, and those are read as if they stood alone |
| `Wire.CutFrameEnds` | src/network.rs:94-110 | a cut frame can only be found to have ended, never taken for another |
| `Wire.CutYieldsPrefix` | src/network.rs:233-240 | a stream cut anywhere yields exactly the frames that arrived whole, in order |
| `Wire.RoundTrip` | src/network.rs:246-257 | any sequence of acceptable frames parses back to itself |
| `Connection.ReadExact` | src/network.rs:94-110 | however the transport splits the reads, the buffer holds the next bytes, or the stream ended first |
| `Connection.ReadFrame` | src/network.rs:142-192 | reading field by field computes the parser's frame and position |
| `Connection.HandleConnection` | src/network.rs:126-195 | on every byte stream and every splitting, with limits read anew for each frame, the effects are those of the complete acceptable frames before the first failure |
| `Connection.HandleFrame` | src/network.rs:142-193 | one turn of the loop reads and serves the next frame of the stream, or ends with the effects of all frames before the failure |
| `Connection.ServedAsSent` | src/network.rs:126-195 | version, acceptable frames, then anything: up to the first frame whose reply cannot be written, and in order, each User is handed on with its own pid and payload, each Resolve answered with 8 bytes that decode to the entry of its name, each Ping with the byte 3 |
| `Connection.DeliveredAsSent` | src/network.rs:152-167 | end to end, the deliveries of a connection are, in order, the pids and payloads of the User frames sent |
| `Connection.OtherVersions` | src/network.rs:134-139 | a stream that does not start with the byte 1 has no effect |
| `Connection.PingPong` | src/network.rs:189-191 | the bytes 1 and 2 are answered with the byte 3 |
| `Connection.ServedWhenCut` | src/network.rs:233-240 | cut inside a frame, exactly the frames before it are served, as ServedAsSent says |
| `Connection.ResolveRemote` | src/network.rs:198-217 | the client's bytes, the server's reply and the decoding compute the remote answer |
| `Connection.RemoteAnswerExactly` | src/network.rs:206-216 | for every name the answer is the entry of the name with its length cut to 32 bits, if that is within both limits, well-formed, bound, and not to 0 |
| `Connection.LongNameAliases` | src/network.rs:211-212 | an unregistered name of 2^32 bytes resolves to the pid of the empty name |
| `Connection.RemoteResolveExactly` | src/lib.rs:351-361 | for every name, remote and local resolve agree if and only if it is bound and the server finds the name it sees, bound to the same pid, or it is unbound and the server finds none |
| `Connection.IssuedPidsResolve` | src/lib.rs:351-361 | before generation wrap, a well-formed name within both limits that is bound to any pid the slab issued resolves to it remotely |
| `RemoteMonitor.FailRunExactly` | src/network.rs:305-318 | a run of n failures at a turn means exactly that the last n probes failed |
| `RemoteMonitor.ServingNodeIsUp` | src/network.rs:292-303 | a probe finds a serving node up if and only if its reply can be written |
| `RemoteMonitor.Monitor` | src/network.rs:273-321 | for every sequence of turns the monitor ends at the first turn that ends it, as reported, local pid gone, or panic of the delay; each wait is the delay of the current run of failures |
| `RemoteMonitor.ReportsExactly` | src/network.rs:305-314 | a report comes only at the first complete run of max(threshold, 1) failures while the pid is alive; for a configuration every such run is reported if and only if none of the delays before it panics |
| `RemoteMonitor.BoundedIsSound` | src/network.rs:313-314 | that is so for every threshold if the factor is not negative and takes neither base nor cap to 2^64 seconds |
| `RemoteMonitor.NegativeFactorPanics` | src/network.rs:313-313 | it is not so for a negative factor, a positive base and a threshold of 2 or more |
| `RemoteMonitor.DelayClosedFormExactly` | src/network.rs:313-314 | the delay after every k >= 1 failures is min(base * factor^k, max) if and only if the factor is at least 1, or the first step is within the cap, or the cap is 0 |

## Left out

- Sockets, the accept loop, real time and the executor: a connection is a byte stream read in arbitrary pieces, a timeout is an outcome, and the scheduler is any order of steps.
- Floating-point rounding of the backoff, and factors that are infinite or not a number: delays and factors are reals.
- Foreign glue of the Python and Node bindings, message conversion, the interpreter lock, the shared worker pool and its thread limits: calls into other runtimes, with no order promised between actors.
- `PyMailbox::recv`: a plain receive that waits leaves the mailbox as it was, so slicing it adds nothing.
- Listing and prefix search of the name registry, the buffer table, configuration getters and setters, observers and logging: maps and copies that would add only easy members.
- Replacement of pooled peer connections and delivery across reconnects: the code promises nothing beyond the order on one connection.
- The budget of a handler loop: it decides when the loop yields, not what it handles.
- Lifecycle.MailboxesAreLive: the runs of `Lifecycle` are those in which no slot wraps its generation; `Pids.ReissuedExactlyAfterWrap` says what happens beyond. That a spawn holds the slab lock until its mailbox is entered is not used, so the model allows more interleavings than the code.
- Path-scoped supervisors: an exiting actor notifies them in one step of `Lifecycle`; each is a supervisor of its own, covered by the supervisor modules.
- Pids.ReissuedExactlyAfterWrap: for slabs of at most 2^32 slots; `Pids.ReissueNeedsWrapExactly` says that this is exactly where it holds.
- MarkOwnership.NoMarkIsStuck: for factories that return; `FactoryPanics.StuckExactly` says what a panic leaves.
- RestartTermination.EveryScheduleQuiesces: for factories that return; with panics schedules still end (`FactoryPanics.PanicDecreases`), with the marks of `FactoryPanics.StuckExactly`.
- SupervisorRaces.WaveKeepsOneHolderExactly: only for a wave that nothing interrupts; `DoubleRestarts.RunKeepsOneEachExactly` holds for all runs.
- LinkInterleavings.SymmetricAtRest: one way only, because two accesses out of order can cancel out; `LinkInterleavings.MisorderShows` is the converse for one.
- Lifecycle.LinksStaySymmetric: each operation on the links is one step there; access by access it holds in order, as `LinkInterleavings.SymmetricAtRest` states.
- Lifecycle.TakesWhatIsRecorded: that the pid is nowhere afterwards holds with taking and cleaning as one step; access by access see `LinkInterleavings.SymmetricAtRest`.
- Mailbox.Mailbox.Send: the counter is not wrapped at 2^64 on addition, because a mailbox cannot hold that many messages; subtraction wraps as in the source.
- Mailbox.Mailbox.constructor: the two halves of the channel are one object here, as they share their state; concurrent access to it is modelled in `MailboxCounter`, `SelectiveSlices` and `HotSwapping`.
- RestartLineage.QuiescentChildren: the runs are those in which a pid is added once, factories return fresh pids, no child is removed while it is marked, and a RestartAll notification takes its snapshot in one step while no other child is marked. Without each of the last three, one or another of the results on these runs fails: `SupervisorRaces.WatchedChildIsLost`, `Removals.UnwatchStopsExactly` and `SupervisorRaces.TwoExitsAtOnce` show how. Adding a pid a second time is not modelled there. `MarkOwnership`, `RestartTermination` and `Removals` need none of this.
- RestartLineage.WaveReplacesTheGroup: restricted to the same runs.
- RestartLineage.ExactlyOneHolder: restricted to the same runs.
- RestartLineage.ReplacedAtMostOnce: restricted to the same runs.
- RestartOutcomes.FateOfFormerChildren: restricted to the same runs.
- RestartOutcomes.DroppedAfterThree: restricted to the same runs.
- RestartWaves.HeirsAlways: restricted to the same runs.
- RestartWaves.WaveLeavesTheHeirs: restricted to the same runs.
- Runtime.Runtime.Exit: whether a restart has consumed the links is a parameter, because the supervisor's own steps are in `SupervisorSteps`.
- Supervisor.Supervisor.RestartTask: models one restart alone; its interleavings with others are runs of `SupervisorSteps`.
