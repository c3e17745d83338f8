# Throttling, packets and fields of SENF, in Dafny

This project models the core of the SENF library: the throttling protocol of its Packet Processing
Infrastructure (`senf/PPI`), the packet interpreter chain with its storage and its reference counts
(`senf/Packets`), and two compact arithmetic cores, the interval timer and the bit field parsers. The
properties are stated for all networks, all packets and all runs.

## What is modelled

**The throttling protocol** (`Network`, `Waves`, `Exactness`, `Reachability`, `Connectors`). A network is
a finite set of passive connectors (a native and a forwarded throttle bit), active connectors (the last
notification they acted on), events, peers and forwarding routes. `Network` holds the recursive
notifications as functions on the whole network state, with the log of all callbacks; `Connectors` holds the
connectors as objects whose methods change their fields in place, each proved to do what the function says.
The termination measure of a wave is the set of active connectors still to flip, so the notifications
terminate on every wiring, cyclic ones included. `Waves` describes what one wave does by a
relation between the state before and the state after that is closed under composition; `Exactness` derives
the invariant of every run, called coherence; `Reachability` compares it with the declarative meaning of
throttling: a passive connector is throttled if some natively throttled connector, or an unconnected active
connector, reaches it through peers and automatic routes. The main result is `ExactUnlessLiveCycle`: the
incremental protocol agrees with reachability in every run if and only if the wiring has no live cycle.

**What sits on it** (`ReadLog`, `InputQueue`, `InputReads`, `Marks`, `InputConnector`,
`PassiveQueue`, `PriorityJoin`, `Feeder`).
The input connector with its fast packet, its deque and the cell in which a read from the deque keeps its
packet, under nested and failing callbacks, and the threshold discipline. A read is two steps, taking out and
returning, since the report between them may release the input and let anything happen; the log of the reads
is a model of its own. Then the queue module; the priority join; and a source, an active feeder with its idle
event and a sink, wired with the connector objects of `Connectors`.

**Packets** (`Storage`, `PacketChain`, `PacketImpl`, `Ownership`). The byte container on an array with head
and tail room, overlapping moves, reallocation and memory it does not own; the chain of nested ranges into
one buffer, first as a value and then as interpreter objects whose indices are patched in place; and the two
levels of reference counting.

**Arithmetic** (`IntervalTimer`, `BitField`, `PacketFields`). The timer's schedule without accumulated drift,
and bit fields of 1 to 32 bits read and written with word loads, shifts and masks. Bytes and words are their
bits, most significant first, so 32-bit truncation is part of the model; `PacketFields` applies the fields to the bytes
of a packet.

## Where the code does less than one would expect

- On a wiring with a live cycle, a native throttle that is taken back leaves the cycle throttled for good
  (`LatchedForGood`; `SelfLoopIsLive` is such a wiring); the protocol is exact on precisely the other networks.
- A packet that arrives while an unread one is in the fast path overwrites it (`FastPacketOverwritten`;
  `RunInOrder` says exactly when).
- A read from the deque returns `slowPacket_` after it has reported the dequeue. If the report releases the
  input, the drain runs the callback, and a read there puts its own packet into `slowPacket_`: both reads
  return the second packet and the first is lost (`SlowPacketOverwritten`). `ReturnedInOrder`,
  `ReturnedOnce` and `SlowReadAtRisk` say exactly when.
- An exception from the module's callback skips the enqueue report, so a full input can stay
  unthrottled (`SkippedReport`; `MarksHoldUnlessSkipped` says exactly when).
- An exception while a request of the passive queue reads skips the check that would throttle the output, so
  an empty queue can stay open (`StrandedQueue`; `WatchedUnlessStranded` says exactly when).
- Threshold throttling does not demand that the high mark is above the low one; it works in every run exactly
  then (`MarksMustDiffer`).
- The index patch compares `pos` with the next interpreter only; an erase that starts at an empty next
  interpreter moves the later ranges although they should stay (`ErasePlacesLater`), and breaks the nesting
  exactly if they leave the interpreter (`EraseKeeps`, with the concrete packet of
  `EraseBehindEmptyPayload`).
- `append` truncates the chain before it finds out that there is no payload range and throws.
- `clearInterpreters`, used by `replaceAs`, unlinks without releasing; interpreters without handles are then
  left behind (`ClearingChain`, `ReplacingLeaks`, `ClearingLeaks`).
- A priority join without inputs never throttles its output (`OutputThrottledWithAllInputs`).
- The documentation at `senf/PPI/Route.hh:94-96` says that disabling an event throttles the passive connectors
  routed to it; in the code (`senf/PPI/Route.ih:71-79`) events never send notifications. The model follows the
  code.
- The comment at `senf/Packets/PacketImpl.cci:91-92` says that list membership changes the count of the
  packet; in the code only handles and guards do. The model follows the code.

## Model

| member | source | states |
|---|---|---|
| Waves.ActiveThrottleWave | senf/PPI/Connectors.cc:371-383 | On any wiring and from any state, a throttle notification at a throttled connector ends as a complete wave: bits are only set, every connector reached has passed it on, every bit set has a standing reason, and each callback came once per flip |
| Waves.ForwardThrottleWave | senf/PPI/Route.ct:44-51 | The notifications of a list of routes, made one after the other, form one wave after which every automatic target is throttled |
| Waves.TargetThrottleWave | senf/PPI/Connectors.cci:131-139 | A notified target, passive connector or event, takes the bit and completes the wave behind it |
| Waves.EventThrottleWave | senf/PPI/Events.cci:55-59 | A throttled event is disabled, with one call of v_disable if it was enabled |
| Waves.ThrottleWavesCompose | senf/PPI/Connectors.cc:378-381 | Two throttle waves in a row are one, whatever the order of the routes and however often a wave comes back |
| Waves.ActiveUnthrottleWave | senf/PPI/Connectors.cc:385-397 | An unthrottle notification at a free connector ends as a complete wave: bits are only cleared, every target behind a reached connector was looked at again, and nothing was released that has a throttled route |
| Waves.ForwardUnthrottleWave | senf/PPI/Route.ct:53-61 | After the notifications of a list of routes every automatic target is free or still has a throttled route |
| Waves.TargetUnthrottleWave | senf/PPI/Connectors.cc:329-339 | At the end of the wave a notified target is free or still has a throttled route, and it was freed only if it has none |
| Waves.EventUnthrottleWave | senf/PPI/Events.cc:51-62 | An event without throttled routes is released and enabled, with one call of v_enable if it was disabled |
| Waves.SecondLook | senf/PPI/Connectors.cc:329-339 | A target that kept its bit because of a route which the rest of the wave releases is looked at again by that rest |
| Waves.UnthrottleWavesCompose | senf/PPI/Connectors.cc:392-395 | Two unthrottle waves in a row are one |
| Exactness.ThrottleCoheres | senf/PPI/Connectors.cci:149-156 | throttle() keeps coherence: every connected active connector remembers its peer's state, forwarded bits are backed by throttled routes and cover all notified targets, throttled events are disabled, the callback log alternates; only the native bit of p changes |
| Exactness.UnthrottleCoheres | senf/PPI/Connectors.cci:158-166 | unthrottle() keeps coherence and clears exactly one native bit |
| Exactness.InitActiveCoheres | senf/PPI/Connectors.cc:365-369 | Initialising an active connector keeps coherence and the native bits, and notifies an unconnected one |
| Exactness.InitPassiveChangesNothing | senf/PPI/Connectors.cc:299-312 | In every coherent network the initialisation of a passive connector is the identity, so its place in the initialisation order does not matter |
| Exactness.SetEnabledCoheres | senf/PPI/Events.cc:64-74 | Enabling or disabling an event by hand keeps coherence |
| Exactness.SetEnabledObeys | senf/PPI/Events.cc:64-74 | An unthrottled event does what enabled(bool) says, a throttled one can only be disabled, each change is exactly one call of v_enable or v_disable, and nothing else changes |
| Exactness.EventsDoWhatWasSaid | senf/PPI/Events.cc:51-74 | Over every run an event is enabled exactly if that is what was said last, by an enabled(bool) that was not refused, by its throttling or by its release |
| Waves.ActiveWakes | senf/PPI/Events.cc:51-62 | An unthrottle wave enables every event it releases and no other |
| Exactness.InitPassiveTells | senf/PPI/Connectors.cc:299-312 | From any state, after v_init() of a passive connector its peer knows its state, and a connector without native throttling and throttled routes is free |
| Exactness.RunCoheres | senf/PPI/Connectors.cc:299-397 | Coherence holds after every run of throttle, unthrottle, init and enable steps on every wiring |
| Exactness.RunInitialises | senf/PPI/ModuleManager.cc:48-55 | Any run from construction in which the unconnected active connectors are initialised, in any order and mixed with anything, ends coherent with all of them notified |
| Exactness.ThrottleCallsOnce | senf/PPI/Connectors.cc:371-383 | On any network and from any state throttle() only sets bits and calls each active connector's callback once if it flips, else not at all |
| Exactness.UnthrottleCallsOnce | senf/PPI/Connectors.cc:385-397 | The same for unthrottle(); events are re-enabled only if no route into them is throttled at the end |
| Exactness.EventsOverRuns | senf/PPI/Events.cc:51-74 | In every run from construction a throttled event is disabled, and the enabled(bool) calls of v_enable and v_disable strictly alternate, as do throttle and unthrottle callbacks |
| Exactness.NativeStepsKeepEventsFollowing | senf/PPI/Events.cc:51-62 | Events nobody else disables are enabled exactly while they are not throttled |
| Reachability.ReachableIsThrottled | senf/PPI/Connectors.cc:371-397 | On every network, cyclic ones included, a connector reachable from a source of throttling is throttled |
| Reachability.UnexplainedMakesLiveCycle | senf/PPI/Connectors.cc:329-339 | A throttled connector that no source of throttling reaches can only exist on a live cycle |
| Reachability.CoherentIsExact | senf/PPI/Connectors.cc:299-397 | Without a live cycle throttled means reachable, each cached bit is the peer's state and each event is throttled exactly if a route into it is |
| Reachability.CycleLatches | senf/PPI/Connectors.cc:329-339 | On a live cycle, throttling and unthrottling a connector leaves a state that is not the declarative one |
| Reachability.RunLocked | senf/PPI/Connectors.cc:299-397 | On any network and from any state, a set of connectors with forwarded throttling that is fed from within itself keeps it in every run |
| Reachability.LatchedForGood | senf/PPI/Connectors.cc:329-339 | On a cycle, throttling a connector and taking it back leaves the whole cycle throttled in every later state of every run |
| Reachability.SelfLoopIsLive | senf/PPI/Connectors.cc:329-339 | A valid wiring with a live cycle: an active connector with an automatic route to its own peer |
| Reachability.ExactUnlessLiveCycle | senf/PPI/Connectors.cc:299-397 | The protocol agrees with reachability in every run after initialisation if and only if the wiring has no live cycle |
| Reachability.RankedHasNoCycle | senf/PPI/Route.hh:83-97 | An acyclic wiring, given by a numbering that grows along every forwarding, has no live cycle |
| Connectors.Ppi.FindThrottledRoute | senf/PPI/Connectors.cc:331-332 | The search over the registered routes finds a throttled one if and only if there is one |
| Connectors.Ppi.ActiveNotifyThrottle | senf/PPI/Connectors.cc:371-383 | The recursive notification on objects terminates and changes the whole network as the specification does |
| Connectors.Ppi.ActiveNotifyUnthrottle | senf/PPI/Connectors.cc:385-397 | The same for unthrottling |
| Connectors.Ppi.TargetNotifyThrottle | senf/PPI/Connectors.cci:131-139 | notifyThrottle of a passive connector or event on the objects |
| Connectors.Ppi.TargetNotifyUnthrottle | senf/PPI/Connectors.cc:329-339 | notifyUnthrottle of a passive connector or event on the objects |
| Connectors.Ppi.Throttle | senf/PPI/Connectors.cci:149-156 | throttle() on the objects |
| Connectors.Ppi.Unthrottle | senf/PPI/Connectors.cci:158-166 | unthrottle() on the objects |
| Connectors.Ppi.InitPassive | senf/PPI/Connectors.cc:299-312 | PassiveConnector::v_init() on the objects |
| Connectors.Ppi.InitActive | senf/PPI/Connectors.cc:365-369 | ActiveConnector::v_init() on the objects |
| Connectors.Ppi.SetEnabled | senf/PPI/Events.cc:64-74 | enabled(bool) on the objects |
| Connectors.Ppi.Init | senf/PPI/ModuleManager.cc:48-55 | The initialisation queue is worked off front to back and is empty afterwards |
| InputQueue.BeginReadInOrder | senf/PPI/Connectors.cc:414-437 | A read takes out the oldest waiting packet, from the fast path or the deque, and only that |
| InputQueue.EnterInOrder | senf/PPI/Connectors.cci:254-275 | An arrival goes behind what waits, unless an unread packet is in the fast path, which it replaces |
| InputQueue.LeaveInOrder | senf/PPI/Connectors.cci:259-274 | The end of an enqueue call, regular or by an exception, frees the fast path and keeps what waits |
| InputQueue.RunInOrder | senf/PPI/Connectors.cci:254-275 | Over every nesting of enqueue calls, reads and failing callbacks, what was taken out followed by what waits is what arrived, if and only if no arrival met an unread fast packet |
| InputQueue.ArrivalOverwrites | senf/PPI/Connectors.cci:254-257 | The packet such an arrival loses is the unread one |
| InputQueue.FastPacketOverwritten | senf/PPI/Connectors.cci:254-257 | Two nested arrivals of which only the second is left |
| ReadLog.StepStraight | senf/PPI/Connectors.cc:420-432 | Reads that returned what they took, in order, go on doing so until a read begins inside another one or is given up, and no longer |
| ReadLog.StepCrooked | senf/PPI/Connectors.cc:427-432 | Once that has happened the order of the returned packets is wrong for good |
| ReadLog.LosingStep | senf/PPI/Connectors.cc:428 | A read from the deque inside another one loses the packet of the outer one, whose place in slowPacket_ it takes |
| InputReads.ReturnedInOrder | senf/PPI/Connectors.cc:414-437 | Over every run, once all reads have returned, the k-th read returned the k-th packet taken out, if and only if no read began inside another one and none was given up |
| InputReads.ReturnedOnce | senf/PPI/Connectors.cc:414-437 | Over every run, once all reads have returned, each packet taken out was returned exactly once, if and only if no read from the deque began inside another one and none was given up |
| InputReads.DeliveredInOrder | senf/PPI/Connectors.cc:414-437 | Arrival to return: without overwriting and nesting, what the reads returned followed by what waits is what arrived |
| InputReads.SlowReadAtRisk | senf/PPI/Connectors.cc:516-537 | A read from the deque may return another packet than it took if and only if it releases the input: throttled by its discipline, not remotely, and down to the low mark with this read |
| InputReads.CarefulReader | senf/PPI/Connectors.cc:414-437 | A caller that never reads under that condition gets everything in order, whatever else happens |
| InputReads.SlowPacketOverwritten | senf/PPI/Connectors.cc:427-432 | With the marks (2, 1) two packets arrive, and the two reads both return the second |
| Marks.RunAboveLow | senf/PPI/Throttling.cc:42-54 | With high > low, in every run, failing callbacks included, a throttled input holds more than low packets and nothing in the fast path |
| Marks.FastReadsAreSafe | senf/PPI/Connectors.cc:420-426 | With high > low, in every run a read from the fast path never releases the input, so nothing comes between it and its return |
| Marks.BitsAfter | senf/PPI/Throttling.cc:42-54 | From any state and for any step: the native bit is cleared exactly by the report of a dequeue that leaves at most low packets, and set exactly by the report of an arrival with at least high packets |
| Marks.StaysThrottled | senf/PPI/Throttling.cc:49-52 | Over every run a throttled input stays throttled while it holds more than low packets |
| Marks.StaysOpen | senf/PPI/Throttling.cc:45-48 | Over every run an unthrottled input stays so while it holds fewer than high packets |
| Marks.MarksHoldUnlessSkipped | senf/PPI/Connectors.cc:509-514 | With high > low, in every run, failing callbacks included: both marks hold throughout (an unthrottled input holds fewer than high packets unless an enqueue is in progress) if and only if no exception skips a due report |
| Marks.AbortSkipsReport | senf/PPI/Connectors.cci:258-266 | Whatever calls are in progress, a failing callback breaks the hysteresis exactly if it ends the only enqueue call of an unthrottled input that has reached the high mark |
| Marks.SkippedReport | senf/PPI/Connectors.cci:258-266 | With the default marks, an exception at the first arrival leaves a waiting packet in an unthrottled, quiet input |
| Marks.QuiescentPoints | senf/PPI/Connectors.cc:509-520 | At every quiescent point of every run: throttled means more than low packets; if no due report was skipped, unthrottled means fewer than high (with the default marks (1, 0) throttled means not empty); packets were taken out in order exactly if none was overwritten, and returned in order exactly if no read began inside another one or was given up |
| Marks.MarksMustDiffer | senf/PPI/Throttling.cc:42-54 | The throttle state follows two marks in every run without a skipped report if and only if the high one is above the low one |
| InputConnector.ReadReturnsOwn | senf/PPI/Connectors.cc:414-437 | A whole read, drain included, returns its own packet unless it reads from the deque, releases the input, leaves packets behind and the callback reads when released: exactly then it returns another one |
| InputConnector.DrainedEmpties | senf/PPI/Connectors.cc:527-537 | The drain leaves nothing in an unthrottled input whose callback always reads |
| InputConnector.FullReadReached | senf/PPI/Connectors.cc:414-437 | A whole read with any callback that only reads is one of the runs of the connector |
| InputConnector.GenericPassiveInput.Get | senf/PPI/Connectors.cc:414-437 | operator() on the object, with the drain that its report may set off: a packet exactly if one waits, namely the one in slowPacket_ or the fast one |
| InputConnector.GenericPassiveInput.DequeueEvent | senf/PPI/Connectors.cc:516-520 | The report of a dequeue releases the input at the low mark and then drains it |
| InputConnector.GenericPassiveInput.Drain | senf/PPI/Connectors.cc:527-537 | The drain loop terminates and repeats the callback until it stops reading |
| InputConnector.GenericPassiveInput.Emit | senf/PPI/Connectors.cci:171-180 | The callback runs unless the input is throttled |
| InputConnector.GenericPassiveInput.Enqueue | senf/PPI/Connectors.cci:254-275 | enqueue() with a callback that reads any number of packets is arrival, reads and end of the specification |
| PassiveQueue.RunCoupled | senf/PPI/PassiveQueue.cc:53-70 | In every run, failing callbacks included, the output is throttled only on an empty queue and the input only on one that is not |
| PassiveQueue.WatchedUnlessStranded | senf/PPI/PassiveQueue.cc:64-70 | In every run an empty queue with an open output has a request in progress throughout, if and only if no exception ends the only such request |
| PassiveQueue.StrandedQueue | senf/PPI/PassiveQueue.cc:66-69 | With the default marks, one arrival, a request and an exception in the release of the input leave an empty queue with an open output and nothing in progress |
| PassiveQueue.NeverStuck | senf/PPI/PassiveQueue.cc:53-70 | In every run, failing callbacks included, input and output are never natively throttled together; without a request in progress and a stranding exception the output is throttled exactly if the queue is empty |
| PassiveQueue.RequestsCounted | senf/PPI/PassiveQueue.cc:64-70 | Over every run the requests in progress are those begun minus those ended, regularly or by an exception |
| PassiveQueue.RunOfInput | senf/PPI/PassiveQueue.cc:59-70 | Every run of the module is a run of its input connector |
| PassiveQueue.SentInOrder | senf/PPI/PassiveQueue.cc:64-70 | In every run packets are taken out in order exactly if none was overwritten, and sent in that order exactly if no request read inside the read of another one and no read was given up |
| PassiveQueue.PassiveQueueModule.VInit | senf/PPI/PassiveQueue.cc:53-57 | Initialisation throttles the output of an empty queue |
| PassiveQueue.PassiveQueueModule.Arrival | senf/PPI/PassiveQueue.cc:59-62 | An arrival enters the queue and, unless the input is throttled, opens the output |
| PassiveQueue.PassiveQueueModule.Enqueue | senf/PPI/Connectors.cci:254-275 | The arrival as a whole, with the report at its end |
| PassiveQueue.PassiveQueueModule.OnOutput | senf/PPI/PassiveQueue.cc:64-70 | The output callback sends the oldest packet if there is one, and throttles the output of a queue that is empty then |
| PassiveQueue.ServedInSteps | senf/PPI/PassiveQueue.cc:64-70 | The output callback as a whole is the begin of a request, the return of its read and its end |
| PriorityJoin.RunCoherent | senf/PPI/Joins.cc:86-96 | In every run each connected input remembers its peer, and the output is throttled exactly if all inputs are throttled and some input was notified |
| PriorityJoin.OutputThrottledWithAllInputs | senf/PPI/Joins.cc:86-96 | In every run in which the unconnected inputs are initialised, the output is natively throttled exactly if every input is unconnected or has a peer whose last change was to throttled: true if and only if the join has an input |
| PriorityJoin.OpenHasInput | senf/PPI/Joins.cc:75-84 | While the output is open some input can serve |
| PriorityJoin.JoinModule.FindUnthrottled | senf/PPI/Joins.cc:79-81 | The search returns the lowest-index input that is not throttled, or none exactly if all are |
| PriorityJoin.JoinModule.Request | senf/PPI/Joins.cc:75-84 | A request is served by the lowest-index unthrottled input, by none exactly if all are throttled, and always by one while the output of an initialised join is open |
| PriorityJoin.JoinModule.OnThrottle | senf/PPI/Joins.cc:86-91 | The output is throttled if all inputs are |
| PriorityJoin.JoinModule.PeerChanges | senf/PPI/Connectors.cc:371-397 | A change at a peer reaches the module as the specified step |
| PriorityJoin.ConnectorSetup | senf/PPI/Joins.cc:56-73 | The connector pushed last moves to its clamped priority index and the others keep their order |
| PriorityJoin.PlacedWhere | senf/PPI/Joins.cc:64-72 | The place of a connector: counted from the front, from the back for negative priorities, and at either end beyond the range |
| PriorityJoin.SetUp | senf/PPI/Joins.cc:64-72 | After any sequence of setups there is one connector for each, and the last one sits at its clamped priority index |
| PriorityJoin.SetupsKeepOrder | senf/PPI/Joins.cc:64-72 | After any sequence of setups the earlier connectors keep their relative order |
| Feeder.EnabledMeansOpen | senf/PPI/ActiveFeeder.cc:43-48 | The idle event is enabled exactly while the source has packets and the sink is open |
| Feeder.SubmitFlows | senf/PPI/DebugModules.cci:75-79 | A submission goes behind what was submitted before, keeps the system flowing and reopens the source |
| Feeder.FireConserves | senf/PPI/ActiveFeeder.cc:50-53 | From any state, throttled ones included, an idle event loses, duplicates and reorders nothing on its way |
| Feeder.FireFlows | senf/PPI/ActiveFeeder.cc:50-53 | An enabled idle event finds a packet at the source and moves exactly that packet to the sink |
| Feeder.RunFlows | senf/PPI/DebugModules.cc:43-60 | In every run of submissions, idle events and throttling of the sink, sink packets followed by source packets are what was submitted, and an enabled event never meets an empty source |
| Feeder.FiringStep | senf/PPI/IdleEvent.cc:56-61 | While the source has packets and the sink is open, an idle event moves exactly the next packet; otherwise none runs |
| Feeder.FeederSystem.Request | senf/PPI/ActiveFeeder.cc:50-53 | The callback on the objects does the specified step |
| Feeder.FeederSystem.Work | senf/PPI/IdleEvent.cc:56-61 | Repeated idle events stop; with an open sink everything has been delivered in order, with a throttled one nothing has changed |
| Storage.AllocationSize | senf/Packets/PacketVector.cci:160-163 | A multiple of the chunk size that leaves room for the request and both rooms, and is not larger than needed by more than one chunk |
| Storage.MemMove | senf/Packets/PacketVector.cc:50 | An overlapping move, in the direction that does not overwrite its source, reads all bytes as they were before |
| Storage.ShiftedFront | senf/Packets/PacketVector.cci:168-172 | Moving the front of the window down opens a gap at the same logical index |
| Storage.ShiftedBack | senf/Packets/PacketVector.cci:173-177 | Moving the back of the window up opens the same gap |
| Storage.CopiedAround | senf/Packets/PacketVector.cc:65-66 | Copying around a gap into a new block opens the same gap |
| Storage.PacketVector.Move | senf/Packets/PacketVector.cci:165-180 | All branches open an n-byte gap at the same logical index, keep the bytes around it, return the gap and keep the bounds; the block is kept if either room is large enough, else the new one has both rooms |
| Storage.PacketVector.MoveGrow | senf/Packets/PacketVector.cc:42-57 | Both branches, shift into the head room and reallocation, meet the specification of Move |
| Storage.PacketVector.Grow | senf/Packets/PacketVector.cc:59-75 | Reallocation moves the bytes to a block of its own, returns the old block to the pool with the length it was taken with, and only if it came from there |
| Storage.PacketVector.InsertFill | senf/Packets/PacketVector.cci:153-158 | insert is a splice of the contents |
| Storage.PacketVector.InsertRange | senf/Packets/PacketVector.cti:53-58 | insert of a range is a splice of the contents |
| Storage.PacketVector.Erase | senf/Packets/PacketVector.cci:127-133 | erase cuts exactly the given bytes out |
| Storage.PacketVector.ReleaseExternal | senf/Packets/PacketVector.cci:114-118 | Afterwards the memory is owned and the contents are the same |
| Storage.PacketVector.Destroy | senf/Packets/PacketVector.cci:69-73 | Nothing is left held from the pool, and memory of others is not returned to it |
| PacketChain.InsertSeen | senf/Packets/PacketImpl.cc:237-272 | Every insert into an interpreter's own bytes keeps the ranges nested, is seen at its place by the interpreters up to it, and leaves what all later ones see unchanged |
| PacketChain.InsertAroundNext | senf/Packets/PacketImpl.cc:263-271 | This includes inserts right in front of and right behind the next interpreter |
| PacketChain.ErasePlacesLater | senf/Packets/PacketImpl.cc:263-271 | An erase of an interpreter's own bytes puts the later ranges where they belong if and only if it does not start at the (then empty) next range |
| PacketChain.EraseKeeps | senf/Packets/PacketImpl.cc:237-272 | An erase of own bytes keeps the ranges nested, and what later interpreters see, if and only if it does not start at an empty next range that the patch moves out of the interpreter |
| PacketChain.EraseSeen | senf/Packets/PacketImpl.cc:237-272 | Under the same condition, and only then, it is also seen at its place by the interpreters up to this one |
| PacketChain.EraseBehindEmptyPayload | senf/Packets/PacketImpl.cc:263-271 | A three-byte packet with an empty payload whose nesting an erase of own bytes destroys |
| PacketChain.ClearedSeen | senf/Packets/PacketImpl.cc:214-222 | clear empties the interpreter, drops those behind it and is a correct edit for those before it |
| PacketChain.AppendedSeen | senf/Packets/PacketInterpreter.cc:57-74 | append is a splice: nesting holds, the interpreters up to the appending one see the packet in place of the payload range, and every copied interpreter sees what its original sees |
| PacketChain.AppendedInSteps | senf/Packets/PacketInterpreter.cc:66-71 | Truncating, splicing the body in and cloning the rest of the chain give exactly the appended packet |
| PacketChain.ClonedSeen | senf/Packets/PacketInterpreter.cc:45-53 | A clone is nested, begins at index 0, and its interpreters see what the originals see |
| PacketChain.AppendClonedBack | senf/Packets/PacketInterpreter.cc:45-74 | Round trip: a clone appended where it was taken from gives the packet again |
| PacketChain.FieldResizedSeen | senf/Packets/PacketParser.cc:40-48 | If and only if it does not shrink by an erase that breaks the nesting, resize keeps the common bytes, fills up with zeros, keeps all bytes around the field, the owner's begin, the nesting and what later interpreters see |
| PacketChain.ResizedData | senf/Packets/PacketData.cc:42-48 | Resizing any interpreter keeps its first bytes, fills growth up with the given byte, and keeps everything around it |
| PacketChain.ResizedSeen | senf/Packets/PacketData.cc:42-48 | Growing keeps the nesting and what later interpreters see; shrinking by bytes that are not the next interpreter's does so exactly if the erase does not break the nesting |
| PacketChain.ResizedEnclosing | senf/Packets/PacketData.cc:42-48 | Enclosing interpreters grow or shrink by the difference and keep their bytes before and behind |
| PacketChain.ResizedLast | senf/Packets/PacketData.cc:42-48 | Resizing the last interpreter keeps the bytes before and behind it and grows exactly the enclosing ranges |
| PacketImpl.PacketImpl.UpdateIterators | senf/Packets/PacketImpl.cc:237-272 | The two loops over the list do the three-case patch in place |
| PacketImpl.PacketImpl.Insert | senf/Packets/PacketImpl.cci:380-386 | insert on the objects: bytes and indices change as specified |
| PacketImpl.PacketImpl.Erase | senf/Packets/PacketImpl.cci:395-401 | erase on the objects |
| PacketImpl.PacketImpl.Clear | senf/Packets/PacketImpl.cc:214-222 | clear on the objects |
| PacketImpl.PacketImpl.Resize | senf/Packets/PacketData.cc:42-48 | PacketData::resize on the objects |
| PacketImpl.PacketImpl.ResizeField | senf/Packets/PacketParser.cc:40-48 | The parser's resize on the objects; the parser keeps its offset in the packet |
| PacketImpl.PacketImpl.Append | senf/Packets/PacketInterpreter.cc:57-74 | append of a packet in another implementation is the splice and returns the interpreter after this one; without a payload range it fails with the chain truncated |
| PacketImpl.PacketImpl.Clone | senf/Packets/PacketInterpreter.cc:45-53 | clone makes a fresh packet, sharing no object with this one, with exactly the cloned value |
| PacketImpl.PacketImpl.InsertBeside | senf/Packets/PacketImpl.cci:380-386 | An insert into one of two separate packets leaves the other unchanged and keeps them separate |
| PacketImpl.PacketImpl.EraseBeside | senf/Packets/PacketImpl.cci:395-401 | The same for an erase |
| Ownership.ReleaseOwned | senf/Packets/PacketInterpreter.cc:130-140 | Releasing a handle keeps the ownership invariant and frees the implementation exactly with its last reference |
| Ownership.AddRefOwned | senf/Packets/PacketInterpreter.cc:123-128 | Adding a handle keeps the invariant and holds the interpreter |
| Ownership.ErasedGuardedOwned | senf/Packets/PacketImpl.cci:339-349 | Truncating under a guard keeps the invariant, never frees the implementation, and cuts exactly the given part out of the chain |
| Ownership.ErasedLinked | senf/Packets/PacketImpl.cc:226-235 | Erasing front to back removes exactly the range |
| Ownership.DestroySelfReachesAll | senf/Packets/PacketImpl.cc:108-122 | Without handles the destructor's loop, which stops early, still destroys every interpreter outside the preallocated slots |
| Ownership.ImplReleasedOwned | senf/Packets/PacketImpl.cc:126-140 | Dropping a reference frees the implementation exactly if no handle and no guard is left |
| Ownership.StepOwned | senf/Packets/PacketImpl.cc:108-140 | Every step keeps: the count is the number of interpreters with a handle plus the guards, nothing unlinked and handle-free survives, and a freed implementation leaves nothing behind; it is freed exactly when the count would reach zero |
| Ownership.RunOwned | senf/Packets/PacketInterpreter.cc:123-140 | The invariant holds over every run from creation |
| Ownership.StepCounts | senf/Packets/PacketInterpreter.cc:123-140 | Each step changes the handles of each interpreter and the number of guards by what it takes or gives back, also where it destroys interpreters or the implementation |
| Ownership.RunCounts | senf/Packets/PacketInterpreter.cc:123-140 | Over every run from creation the handles of each interpreter, and the guards, are those taken minus those given back in the history |
| Ownership.FreedWhenUsedUp | senf/Packets/PacketImpl.cc:126-140 | Over every run from creation the implementation is gone exactly when every handle and every guard taken has been given back |
| Ownership.GuardKeepsAlive | senf/Packets/PacketImpl.cci:481-490 | Under a guard the release of the last handle does not free the implementation |
| Ownership.StepChain | senf/Packets/PacketImpl.cci:339-349 | Appending adds at the end, truncating cuts off from the given position on, or up to and including it, and no other step changes a living chain |
| Ownership.StepHeap | senf/Packets/PacketImpl.cci:199-225 | Interpreters outside the slots stay outside while they exist, and only an append makes one |
| Ownership.ClearingChain | senf/Packets/PacketImpl.cci:351-354 | clearInterpreters keeps the count right, and keeps the invariant if and only if every member of the chain has a handle |
| Ownership.ReplacingLeaks | senf/Packets/PacketInterpreter.ct:60-71 | replaceAs on a packet with a handle-free interpreter outside the slots leaks that interpreter in every later run |
| Ownership.ClearingLeaks | senf/Packets/PacketInterpreter.ct:60-71 | A packet of more interpreters than slots, replaced through the handle of its first one, is gone when both handles are released, and its ninth interpreter is not |
| Ownership.CountedImpl.EraseInterpreters | senf/Packets/PacketImpl.cc:226-235 | The loop on the object |
| Ownership.CountedImpl.DestroySelf | senf/Packets/PacketImpl.cc:108-122 | The destructor's loop on the object |
| Ownership.CountedImpl.ImplRelease | senf/Packets/PacketImpl.cc:126-140 | PacketImpl::release on the object |
| Ownership.CountedImpl.AddRef | senf/Packets/PacketInterpreter.cc:123-128 | add_ref on the object |
| Ownership.CountedImpl.Release | senf/Packets/PacketInterpreter.cc:130-140 | release on the object |
| Ownership.CountedImpl.TruncateInterpreters | senf/Packets/PacketImpl.cci:339-343 | truncateInterpreters on the object |
| IntervalTimer.OneIntervalLater | senf/PPI/IntervalTimer.cc:60-77 | No drift: as many events as there are per interval take exactly one interval |
| IntervalTimer.ExactToTheTick | senf/PPI/IntervalTimer.cc:60-64 | No expiry is off its exact position by a full tick, for intervals of either sign |
| IntervalTimer.IntervalTimerEvent.Enable | senf/PPI/IntervalTimer.cc:46-53 | Enabling starts the schedule; without events per interval nothing is scheduled |
| IntervalTimer.IntervalTimerEvent.Expire | senf/PPI/IntervalTimer.cc:66-77 | Each expiry schedules the next one at start + k * interval / eventsPerInterval |
| IntervalTimer.IntervalTimerEvent.RunTo | senf/PPI/IntervalTimer.cc:46-77 | The k-th expiry after enabling is due at exactly start + k * interval / eventsPerInterval, truncated once, for every k >= 1 |
| BitField.Parse | senf/Packets/IntParser.ih:266-360 | Reading with loads, shifts and masks over one to five bytes cuts exactly the bits of the field out of the buffer's bit string |
| BitField.Write | senf/Packets/IntParser.ih:266-360 | Writing replaces exactly those bits by the lowest bits of the value; every bit outside is unchanged |
| BitField.FieldValues | senf/Packets/IntParser.hh:488-492 | A field reads as the unsigned, or after sign extension as the two's complement, number of its bits |
| BitField.UnsignedRoundTrip | senf/Packets/IntParser.hh:529-552 | A written value is read back if and only if it fits into the field |
| BitField.SignedRoundTrip | senf/Packets/IntParser.hh:471-499 | The same for two's complement values |
| BitField.DisjointWritesCommute | senf/Packets/IntParser.ih:276-341 | Writes to disjoint fields commute |
| BitField.FlagIsField | senf/Packets/IntParser.hh:590-593 | Writing a flag is writing the field of its one bit |
| BitField.FlagRoundTrip | senf/Packets/IntParser.hh:589-593 | A written flag is read back |
| BitField.FlagAndFieldCommute | senf/Packets/IntParser.hh:590-593 | A flag outside a field can be written before or after it |
| BitField.Int24IsField | senf/Packets/IntParser.hh:242-259 | The 24-bit parser reads and writes as the signed field of the first 24 bits |
| PacketFields.PacketFieldRoundTrip | senf/Packets/IntParser.hh:529-552 | A field written to the bytes of a packet is read back exactly if the value fits |
| PacketFields.PacketFieldsApart | senf/Packets/IntParser.hh:529-552 | Another field in the same bytes reads as before |
| PacketFields.WrittenSeen | senf/Packets/IntParser.hh:546 | Interpreters that do not cover the parser's bytes see what they saw |
| PacketFields.WriteField | senf/Packets/IntParser.hh:546 | value(v) on the packet's byte container changes exactly the bytes of the field |
| BitField.WriteInPlace | senf/Packets/IntParser.ih:276-341 | The writer on the buffer itself does what Write says |

## Left out

- Connectors.Ppi.Unthrottle: without the drain `v_unthrottleEvent` that follows the notification of the peer, which is in `InputConnector`.
- Connectors.Ppi.TargetNotifyUnthrottle: without that drain, likewise.
- Data callbacks inside a throttle wave: throttle and unthrottle callbacks are logged but do not call back into the network, and the drain of a released input is modelled in `InputQueue`, not in `Network`; the join, whose callbacks do throttle, is a model of its own.
- Changes of peers, routes or automatic throttling in the middle of a run, and `connect`, `disconnect`, `registerInitializable` and `unregisterInitializable`: the wiring is fixed.
- The re-arming of the idle event's timer: the scheduler is "run an enabled event", and the alternation of v_enable and v_disable is about the calls made by `enabled(bool)`.
- InputConnector.GenericPassiveInput.Enqueue: its callback reads packets but does not enqueue into the same input; nested arrivals and failing callbacks are in the steps of `InputQueue`.
- InputConnector.GenericPassiveInput.Get: the callbacks of its drain only read; others are in the steps of `InputQueue`. A read hands out a value; that the original hands out a reference, which later reads change under a caller that keeps it, is not modelled.
- InputQueue.Abort: stands for exceptions of the library's own class; others leave the fast packet pointer set, which is not modelled.
- PriorityJoin.JoinModule.Request: says which input serves a request, not the transfer of the packet.
- PacketImpl.PacketImpl.Append: the appended packet lives in another implementation object; the payload range, which depends on the packet type, is a parameter.
- IntervalTimer.IntervalTimerEvent.Expire: the callback leaves the timer enabled and does not enable it again; 64-bit overflow of the time arithmetic is not modelled.
- Ownership: 32-bit wrap-around of the counts, the free list of preallocated slots (only whether an interpreter lies outside of them), and interpreters put in front of others.
- Annotations, `createBefore`, `createAfter`, `parseNextAs`, `truncateDataBackwards` and `finalizeTo` of packets, and the single-byte forms of insert and erase.
- Parsers other than integers and flags (lists, vectors, variants, strings), the packet registry, and packet types.
- Sockets, file descriptors, the scheduler, the console, tracing and the other modules of the PPI.
