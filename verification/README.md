# Stateful traffic generation: the core state machines, verified

This project models the hard logic of the stateful traffic generator under `src/`: the lazy timer wheel, the
receive-side flow checker that runs on it, the numbering of packets at the sender, the event scheduler with its flow
life cycle, NAT learning on both sides, the allocation and release of client ports, the split of addresses over
threads, the rewriting of payloads, sequence numbers and IP options, the token bucket, and the command-line parser.
`dafny verify dfyconfig.toml` checks all of it.

How the files depend on each other:

* `Basics` machine integers, `Option`, map sizes. `PriorityQueue` the binary heap that the wheel and the scheduler use.
* `TimerWheel` the wheel over heap objects; its `deadlines` map is what it stands for.
* `RxFlow` one flow as the checker sees it, as functions; `RxCheck` the checker itself, a class on top of the wheel,
  each call of which is a step between two `View`s; `RxEndToEnd` whole runs of such steps; `RxAlarms` what the counters
  mean: losses are counted, and silence means that nothing was lost.
* `PacketNumbering` loading and numbering of a capture, the header every generated packet carries, and with
  `RxEndToEnd` the statement for both ends.
* `FlowNodes` the nodes of the scheduler and the invariants between them; `Scheduler` the loop, its events and both
  passes; `Policer` the token bucket it asks; `NatBatch` the receive side of NAT learning.
* `LoadedTemplates` from the templates of `PacketNumbering` to those of `FlowNodes`; `SchedulerTraffic` from the log of
  a scheduler run to the checker, with `NetworkDelay` for the time on the way; `NatLearning` from learn packets over the
  batches of the receive side to the scheduler.
* `ClientTuples` runs of allocations on all threads, on top of `PortAllocator` and `AddressSplit`.
* `MiniVm`, `TcpSeq`, `IpOption`, `SimpleOpt` stand by themselves.

Code that updates objects is modelled by classes and methods; each method is specified by functions of the old state,
and the properties are lemmas about these functions. Times are reals, in seconds. Where the width of an integer matters
it is written out (`U16`, `U32`); statistics are unbounded.

Some of the properties do not hold of the code without a condition. The condition is then exact:

* A timer whose key is negative and that is restarted to a later time that is still not positive keeps its old time
  (`TimerWheel.CTimerWheel.RestartTimer`, `KeepsOldTime`): the test `m_updated_time > 0.0` takes the new time for none.
* The receiver can be made to retire a flow as complete that arrived out of order, by a sender that announces more than
  65536 packets in the two directions of a flow; with at most 65536 it cannot, whatever is lost or reordered
  (`RxFlow.CompletionIsSoundIff`). This program's own flows have fewer than 65000 packets, so a flow of its traffic that
  is retired without duplicates always came in order (`PacketNumbering.SentFlowsRetireInOrder`).
* Two open flows have the same client address and port if and only if they are of one client and the allocations of
  both failed, provided the addresses fit in 32 bits and the dual-port mask is 0 or at least the pool size
  (`ClientTuples.TuplesAreUnique`, `ClientTuples.FailedFlowsShareTuple`); no allocation fails while no client has 21
  ports out (`ClientTuples.FewPortsTuplesDiffer`).
* A flow that is retired as complete without an error came in order exactly if none of its packets came twice: the
  first packet of the second direction may have any id, so a packet received twice can stand in for one that was lost
  (`RxAlarms.OnlyADuplicateHidesALoss`, `RxAlarms.ADuplicateCanHideALoss`). Over packets that were not duplicated the
  checker is silent exactly if nothing was lost and nothing came out of order (`RxAlarms.SilentIff`).
* A capture is numbered as the receiver expects exactly when it holds at most 16 flows
  (`PacketNumbering.NumberedIffFewFlows`): the descriptor keeps five bits of the flow's index, the packed key four. A
  capture with more flows loads, but cannot be played to the end: each plugin ends the program at a flow of the
  template that it does not know (src/bp_sim.cpp:4911, 5040-5042, 5209, 5633).
* The first pass of `flush_file` with a `max_time` that is not positive can only end on an empty queue, where the second
  pass would take the top of nothing (`Scheduler.CFlowGenListPerThread.OpenEndedPass`); the one caller passes a positive
  time, for which the second pass finds its FLOW_SYNC node (`Scheduler.CFlowGenListPerThread.FirstPass`).
* Shares of addresses overlap exactly when they start less than a share apart (`AddressSplit.OverlapIff`); a dual-port
  mask smaller than the pool can bring that about.
* The RTSP replies need a byte behind the last port for the zero that `sprintf` writes, unless a port has fewer than five
  digits (`MiniVm.RtspReplyFitsIff`); all other programs leave room for it.
* 21 ports in use can make a client fail although nearly all others are free; fewer cannot
  (`PortAllocator.FewPortsNeverFail`, `PortAllocator.TwentyOnePortsMayFail`).

## Model

| member | source | states |
|---|---|---|
| PriorityQueue.RootIsEarliest | src/timer_wheel_pq.h:68-74 | the root of the heap that the comparator builds is an earliest element |
| PriorityQueue.Push | src/timer_wheel_pq.h:97-97 | appending and sifting up keeps the heap and adds just the element |
| PriorityQueue.Pop | src/timer_wheel_pq.h:97-97 | dropping the root keeps the heap and all other elements, even when the root's own key has just been raised |
| TimerWheel.CTimerWheel.RestartTimer | src/timer_wheel_pq.cpp:57-85 | the wheel stands for a map from handle to last restart time: restart overwrites one entry, whatever is still queued, with the one exact exception |
| TimerWheel.CTimerWheel.StopTimer | src/timer_wheel_pq.cpp:87-94 | stop removes one entry of the map and nothing else, although the timer stays queued |
| TimerWheel.CTimerWheel.PeekTopTime | src/timer_wheel_pq.cpp:99-122 | returns the minimum of the map, or false exactly when it is empty, past cancelled and postponed timers; the map does not change |
| TimerWheel.CTimerWheel.RequeueRoot | src/timer_wheel_pq.cpp:109-113 | a root whose key is raised in place is popped and pushed without harm to the heap |
| TimerWheel.CTimerWheel.HandleBegin | src/timer_wheel_pq.cpp:153-179 | the handle about to be called back is one that expires first, and it is disarmed |
| TimerWheel.CTimerWheel.HandleEnd | src/timer_wheel_pq.cpp:181-184 | after a callback that may stop timers but starts none, the fired timer is still the root and is freed |
| TimerWheel.CTimerWheel.Handle | src/timer_wheel_pq.cpp:153-188 | fires exactly one handle, one that expires first, or none if none is armed |
| TimerWheel.CTimerWheel.TryHandleEvents | src/timer_wheel_pq.cpp:137-150 | fires exactly the handles that expire before now, each once, earliest first |
| TimerWheel.CTimerWheel.DrainAll | src/timer_wheel_pq.cpp:124-134 | fires every armed handle once, earliest first, and ends |
| TimerWheel.FiredNext | src/timer_wheel_pq.cpp:137-150 | firing a handle that expires first extends an order of deadlines |
| TimerWheel.CTimerWheel.DueRootExpiresFirst | src/timer_wheel_pq.cpp:115-119 | a live root that is not postponed carries the earliest deadline of all armed handles |
| RxFlow.ErrorCounterIsModular | src/rx_check.cpp:299-376 | the flow's error counter is the number of errors its packets raised, modulo 2^16 |
| RxFlow.NoSequenceErrorsMeansInStep | src/rx_check.cpp:337-378 | without a sequence error (any error but a changed flow length), each direction received some first id and then 1, 2, 3, ..., and the first direction began with 0 |
| RxFlow.CountsUpMeansNoSequenceErrors | src/rx_check.cpp:299-376 | the other way round: directions that count up from 0 raise no sequence error |
| RxFlow.CompletionIsSound | src/rx_check.h:107-123 | in terms of the errors raised: if nothing was duplicated, a flow with all packets seen received ids 0 to size-1 in order in every direction it announced if and only if no packet of it was a sequence error; where every direction announces one size, if and only if fewer than 65536 errors were raised |
| RxFlow.CompletionIsSoundIff | src/rx_check.h:107-123 | in terms of the sizes announced: every history of sizes s0 and s1 without duplicates that counts as complete came in order if and only if s0 + s1 is at most 65536 |
| RxFlow.SmallSizesAreSound | src/rx_check.h:107-123 | the first half: at most one error a packet, none for the packet that opens the second direction, and no more packets than ids |
| RxFlow.CompletionIsSoundForShortFlows | src/rx_check.h:107-123 | the exception cannot occur in flows of fewer than 32768 packets |
| RxFlow.CompletionCanHideDisorder | src/rx_check.h:107-123 | the other half: for every pair of larger sizes, packets in an order that raises just 65536 errors, and the flow counts as complete |
| RxCheck.RxCheckManager.HandlePacket | src/rx_check.cpp:256-400 | one packet is one step between views: refused, or admitted, its flow retired if complete, and every 256th lookup exactly what is overdue given up |
| RxCheck.RxCheckManager.JudgeInTable | src/rx_check.cpp:306-379 | the record of a known flow and the counters after one packet are those of the automaton |
| RxCheck.CountErrorsByKind | src/rx_check.cpp:299-376 | each counter grows by the number of errors of its own kind |
| RxCheck.RxCheckManager.OnFlowEnd | src/rx_check.cpp:407-423 | one flow less in the table; what that counts is said by `RxCheck.GivenUpCounts` for a flow given up and by `RxCheck.CompleteCountsNothing` for one that is complete |
| RxCheck.GivenUpCounts | src/rx_check.cpp:407-423 | giving flows up raises m_err_aged by one for each and m_err_drop by what each announced and did not receive, where that is positive; while the table is drained neither moves |
| RxCheck.CompleteCountsNothing | src/rx_check.cpp:407-423 | a complete flow misses nothing, and its end raises no error |
| RxCheck.RxCheckManager.FlowAgingCallback | src/rx_check.cpp:432-439 | the callback removes the flow its handle belongs to, and no other |
| RxCheck.RxCheckManager.TwHandle | src/rx_check.cpp:193-196 | gives up exactly the flows whose last packet time plus max(aging, 5) is before the current time |
| RxCheck.RxCheckManager.TwDrain | src/rx_check.cpp:199-203 | empties table and timers, without counting an error |
| RxCheck.RxCheckManager.ValidIsConsistent | src/rx_check.cpp:315-317 | between operations m_active is the table size and m_add minus m_remove, and the flows in the table are just those with a timer |
| RxCheck.FirstDue | src/rx_check.cpp:381-381 | one live timer a flow: the handle that expires first leads to a flow that is due first |
| RxCheck.GaveUpAll | src/rx_check.cpp:391-399 | giving up one earliest flow after the other until none is overdue gives up exactly those that were |
| RxEndToEnd.ExpectedStep | src/rx_check.cpp:299-390 | an in-order packet raises no error, and completes the flow exactly when it is the last one missing |
| RxEndToEnd.NotYetDue | src/rx_check.cpp:391-399 | a flow whose next packet comes in time is never given up by a sweep |
| RxEndToEnd.NoFalseAlarms | src/rx_check.cpp:256-400 | for every interleaving of numbered streams that is lossless, in order per stream and in time, no error counter moves, and every flow is added once and removed once; the converse is `RxAlarms.SilenceMeansNumbered` |
| RxEndToEnd.RecordIsOfOwnPackets | src/rx_check.cpp:256-400 | in any run the record of a flow is a function of the packets it received since it was opened, whatever other flows do |
| RxEndToEnd.SequenceErrorsAreCounted | src/rx_check.cpp:299-376 | in any run, the sequence errors of one open flow are among those in the checker's five counters |
| RxEndToEnd.RetiredFlowsAreComplete | src/rx_check.cpp:383-388 | in any run, a flow retired as complete without duplicates received everything in order exactly under the two conditions of `RxFlow.CompletionIsSound` |
| RxEndToEnd.SmallFlowsRetireInOrder | src/rx_check.cpp:383-388 | in any run, a flow that announces at most 65536 packets in both directions and is retired without duplicates came in order |
| RxEndToEnd.CleanCountersMeanInOrder | src/rx_check.cpp:383-388 | while the five counters of sequence errors are zero, every flow retired without duplicates came in order |
| RxAlarms.LossesAreCounted | src/rx_check.cpp:407-423 | in any run, at every arrival: just the open flows that leave the table without being complete are counted as aged, one each, and m_err_drop grows by what they had announced less what they had received, both taken from the packets that had arrived |
| RxAlarms.SilenceMeansNumbered | src/rx_check.cpp:256-400 | any run over packets that were not duplicated or corrupted that ends with an empty table and no error: every flow has delivered ids 0 to size-1, in order, in every direction it announced |
| RxAlarms.SilentIff | src/rx_check.cpp:256-400 | over such packets in time the checker ends empty and without error if and only if nothing was lost and nothing came out of order |
| RxAlarms.OnlyADuplicateHidesALoss | src/rx_check.h:107-123 | a flow complete without a sequence error came in order if and only if nothing of it was duplicated |
| RxAlarms.ADuplicateCanHideALoss | src/rx_check.cpp:337-376 | a flow of three packets that is complete without any error although one was lost and another came twice |
| RxAlarms.FirstErrorSays | src/rx_check.cpp:345-376 | the first sequence error of a flow names what happened: "late" exactly after a gap, "dup" exactly for the packet received last, "early" for an older one, and a first packet that comes again |
| RxAlarms.CountersAddUp | src/rx_check.cpp:256-345 | in any run every packet is counted as refused, found or opening a flow, and every flow opened as begun by its first packet or without it |
| PacketNumbering.CCapFileFlowInfo.LoadCapFile | src/bp_sim.cpp:2046-2232 | refuses a capture exactly when its clock goes back or, without a plugin, it holds two flows; otherwise flow index, number within the flow, side, gaps and turns are those of the capture |
| PacketNumbering.CCapFileFlowInfo.ProcessPacket | src/bp_sim.cpp:2101-2184 | one captured packet is appended with its flow's index by first appearance, or counted as an error |
| PacketNumbering.CCapFileFlowInfo.SpaceOut | src/bp_sim.cpp:2190-2213 | capture times become gaps, direction changes are marked, the last packet is the last |
| PacketNumbering.CCapFileFlowInfo.UpdateInfo | src/bp_sim.cpp:1952-2020 | every packet gets its number within its direction of its flow, the sizes of both, the both-directions mark and the aging time |
| PacketNumbering.FlowTimeout | src/bp_sim.h:2304-2312 | the aging time is more than twice the longest gap plus 4 and at most that plus 5, cut at 65000 |
| PacketNumbering.PackedKeyCollides | src/bp_sim.h:3689-3690 | two packed keys are equal exactly when flow number, sub-flow and thread agree in the bits kept |
| PacketNumbering.HeaderIsNumbered | src/bp_sim.cpp:1651-1669 | packet id and flow size in the header are the position in and the size of the packet's stream, with one port or with two |
| PacketNumbering.SentTrafficIsNumbered | src/bp_sim.cpp:1653-1669 | any number of flows of any templates, interleaved in any way that keeps each stream, arrives numbered |
| PacketNumbering.NumberedIffFewFlows | src/bp_sim.cpp:1653-1653 | the packets of a flow are numbered as the receiver expects if and only if its capture holds at most 16 flows |
| PacketNumbering.LearnTemplatesAnswer | src/bp_sim.cpp:2010-2030 | a template starts with the initiator, and one marked as going both ways holds a responder packet |
| PacketNumbering.CCapFileFlowInfo.UpdateMinIpg | src/bp_sim.cpp:2265-2278 | a gap below the minimum, or below the gap that replaces it, is replaced; nothing else changes |
| PacketNumbering.FixedIpgIs | src/bp_sim.cpp:2271-2276 | a gap stays exactly if it is above both, and no gap is left below the one that replaces |
| LoadedTemplates.LoadedTemplateIsLegal | src/bp_sim.cpp:3058-3101 | a capture that loads, has its gaps fixed up and is numbered is prepared as the theorems on traffic ask, and gives a template of which all holds that the scheduler relies on: initiator first, a responder packet if it goes both ways, no negative gap |
| LoadedTemplates.LoadedPacketFollows | src/bp_sim.cpp:2190-2213 | from capture to wire: the next packet leaves after the captured gap, fixed up where a minimum is set, or else after the round-trip time exactly if the other side sends it, or else after the time between packets |
| PacketNumbering.CapturedGapsAreInTime | src/bp_sim.cpp:1990-2020 | between consecutive packets of a flow, twice the captured gap plus 4 seconds is within the announced aging |
| PacketNumbering.LongestGapOccurs | src/bp_sim.cpp:1990-2020 | the longest gap, from which the aging time is computed, is one that occurs in the capture |
| PacketNumbering.SentFlowsRetireInOrder | src/rx_check.h:107-123 | of this program's own traffic, whatever the network loses, delays and reorders, every flow retired as complete without duplicates received its packets in order |
| PacketNumbering.SentTrafficRaisesNoAlarm | src/rx_check.cpp:256-400 | both ends together: generated traffic that arrives complete, in order per stream and in time leaves all error counters at zero and the table empty |
| SchedulerTraffic.LogIsDelivered | src/bp_sim.cpp:3571-3594 | the log of a run in which every flow has sent its packets once each, in order, is the traffic of all its flows, however they are interleaved |
| SchedulerTraffic.ScheduledRunRaisesNoAlarm | src/bp_sim.cpp:4045-4110 | a whole scheduler run whose flows are not repeated and not given up, arriving complete, in order per stream and in time, leaves all error counters at zero and the table empty |
| SchedulerTraffic.PromptNetworkRaisesNoAlarm | src/bp_sim.cpp:4045-4110 | nothing asked about gaps: a whole run with the gaps of the capture, over a network that loses nothing, keeps each stream in order and delays no packet by more than four seconds, leaves all error counters at zero and the table empty |
| SchedulerTraffic.FlowIsSentInTime | src/bp_sim.h:3789-3804 | in such a run the next packet of a sub-flow leaves, with four seconds to spare, before the aging time that any packet of the sub-flow announces |
| SchedulerTraffic.CapModePlaysAsCaptured | src/bp_sim.h:3789-3791 | templates read with cap_mode set play the gaps of their descriptors |
| NetworkDelay.DelayedIsInTime | src/rx_check.cpp:391-399 | packets that leave close enough together, delayed each by at most five seconds with every stream in order, arrive before their flow is given up, however the streams overtake each other |
| FlowNodes.PortsTaken | src/bp_sim.h:1723-1734 | ports handed to a node belong to it and to no other from then on |
| FlowNodes.NatAssociated | src/bp_sim.h:3549-3553 | a new waiting flow enters the lookup table under an id that is not there |
| FlowNodes.NatLearned | src/bp_sim.cpp:3929-3961 | a translation takes the flow out of the table and stops its waiting; the node was in wait state |
| FlowNodes.NatTimedOut | src/bp_sim.cpp:3901-3906 | giving a waiting flow up takes it out of the table before its node is freed |
| FlowNodes.WaitingMeetsResponder | src/bp_sim.cpp:3650-3682 | a waiting flow never reaches its last packet: a responder packet comes first |
| FlowNodes.FlowSends | src/bp_sim.cpp:3573-3579 | sending the current packet extends what the flow has sent by just the next packet, and touches no other flow |
| FlowNodes.GapComesNext | src/bp_sim.h:3789-3799 | the gap to the next packet is that of the capture, else the round-trip time on a turn, else the time between packets |
| FlowNodes.GapIsKept | src/bp_sim.h:3789-3804 | in a log whose flows are paced, the next entry of a flow is its next packet at the time it has to come |
| FlowNodes.WorkStartsOver | src/bp_sim.cpp:3888-3899 | starting a template over before max_time uses up a bounded number of repetitions |
| Scheduler.Generated | src/bp_sim.h:3671-3750 | a new flow takes over the ports allocated for it, in the NAT table exactly if it has to learn its translation |
| Scheduler.Sends | src/bp_sim.cpp:3572-3579 | the earliest node may send: time does not go back, and the network may answer from its first packet on |
| Scheduler.Learned | src/bp_sim.cpp:3929-3961 | translations arriving at any time between events keep all invariants and no node's place |
| Scheduler.CFlowGenListPerThread.FreePort | src/tuple_gen.h:471-476 | a port returned is in use at that time, as return_port asserts, and no longer afterwards |
| Scheduler.CFlowGenListPerThread.HandlerDeferJob | src/bp_sim.cpp:3304-3311 | every port a full node has collected is returned, once |
| Scheduler.CFlowGenListPerThread.DeferClientPortFree | src/bp_sim.cpp:3328-3360 | without aging the port is returned at once and nothing else changes; with it, it joins those being collected, and the node that then has 16 is scheduled for after the aging time |
| Scheduler.CFlowGenListPerThread.FreeLastFlowNode | src/bp_sim.h:3618-3628 | the flow's port and the two of its plugin go, the node is freed, and no other flow is touched |
| Scheduler.CFlowGenListPerThread.PickTemplate | src/bp_sim.cpp:3849-3868 | in turn from the current template on, the first that has not reached its limit and is let through by its policer; those before it have been asked once, those behind it not at all; done exactly when every template has reached its limit |
| Scheduler.CFlowGenListPerThread.GenerateFlow | src/bp_sim.h:3671-3750 | one new node, with one port or three of one client that were free, is queued at the current time, and is in the NAT table under its id exactly if it learns; all other nodes stay |
| Scheduler.CFlowGenListPerThread.GenerateFlowsRoundrobin | src/bp_sim.cpp:3849-3886 | a flow is opened exactly if some template is below its limit and its bucket grants one: one queued node at the current time, of the first such template in turn, whose count grows with it; the turn then goes to the next |
| Scheduler.CFlowGenListPerThread.HandleFif | src/bp_sim.cpp:3594-3619 | the FLOW_FIF event opens a flow exactly if some template grants one at its time, and comes back after d_time until every template has reached its limit or the run is closed |
| Scheduler.FreshGrants | src/bp_sim.cpp:3856-3867 | a template that is without a limit, or below it, and was never asked grants a flow at once |
| Scheduler.CFlowGenListPerThread.HandleFlowPkt | src/bp_sim.cpp:3571-3594 | the FLOW_PKT event: the packet leaves unless the flow is repeated and the run is being closed; the flow moves on to its next packet after its gap, starts over after its restart time, or is over and its node freed; every invariant is kept and work used up |
| Scheduler.CFlowGenListPerThread.HandleNat | src/bp_sim.cpp:3650-3682 | the FLOW_PKT_NAT event: a flow that waits before a responder packet is freed and leaves the table without sending; any other sends its packet and moves on to the next, table unchanged |
| Scheduler.CFlowGenListPerThread.HandelNatMsg | src/bp_sim.cpp:3929-3961 | exactly the flows named in the message leave the table and stop waiting; each late or duplicated translation changes nothing but one counter |
| Scheduler.CFlowGenListPerThread.HandleSync | src/bp_sim.cpp:3684-3704 | FLOW_SYNC sets the current time and reads the messages on the ring, after which exactly the flows they name wait no longer; it stops the scheduler exactly when nothing else is queued, and is a millisecond later otherwise |
| Scheduler.CFlowGenListPerThread.HandleTop | src/bp_sim.cpp:3508-3621 | one round of the loop never finds the queue empty, keeps every invariant and makes progress of one of three kinds |
| Scheduler.CFlowGenListPerThread.FirstPass | src/bp_sim.cpp:3479-3621 | the first pass ends, by its EXIT_SCHED node, with FLOW_SYNC still queued; flows opened and flows counted by the templates agree, and a flow is opened if some template grants one at the first FLOW_FIF event |
| Scheduler.CFlowGenListPerThread.OpenEndedPass | src/bp_sim.cpp:3500-3509 | without an EXIT_SCHED node the pass can only end on an empty queue |
| Scheduler.CFlowGenListPerThread.CleanClose | src/bp_sim.cpp:3508-3633 | the clean close ends from every reachable queue and opens no flow; then every node, port and table entry is back and every flow is over |
| Scheduler.CFlowGenListPerThread.StartGenerateStateful | src/bp_sim.cpp:4045-4110 | a whole simulated run ends, closed as above; its flows are numbered from 1 on without a gap, as many as the templates have counted, and at least one if some template is not at its limit |
| Scheduler.AllClosed | src/bp_sim.cpp:3623-3633 | with no node left there is no port in use, no table entry, adds equal removes, and every flow has sent what it had to |
| Scheduler.EveryPacketOnce | src/bp_sim.cpp:3571-3594 | a flow that is not repeated sends packets 0 to n-1 once each, in order; one that times out in NAT learning sends those before its first responder packet |
| Scheduler.PacketsKeepTheirGaps | src/bp_sim.h:3789-3804 | at any moment of a run, between consecutive packets of a flow lies the gap of the capture, or the round-trip time, or the time between packets, as the earlier packet says; after the last one the restart time |
| Scheduler.TableIsWaitingFlows | src/bp_sim.cpp:3929-3961 | the flow-id table holds exactly the live flows in first or wait state, and adds minus removes is its size |
| Scheduler.PortsAreHeld | src/tuple_gen.h:393-404 | m_active_alloc counts the ports held by open flows and by nodes that wait to release them, each held by exactly one |
| Scheduler.OneTickLess | src/bp_sim.cpp:3696-3703 | when FLOW_SYNC was the earliest of several, one millisecond brings it closer to the next of the others |
| Policer.CPolicer.Update | src/bp_sim.cpp:4366-4393 | the bucket after one request, and whether it was let through, as the laws below and `Policer.LetThroughIff` speak of it |
| Policer.LetThroughIff | src/bp_sim.cpp:4366-4393 | the first request passes; after it a request passes exactly if the bucket, filled at the rate since the last one and cut at its size, holds more than is asked for, which is then taken |
| Policer.LevelStaysInBucket | src/bp_sim.cpp:4378-4385 | over any run in order of time the level stays within 0 and the bucket size |
| Policer.WindowBound | src/bp_sim.cpp:4366-4393 | what is let through in a window after the first request is at most the bucket plus rate times window |
| Policer.BoundFromTheStart | src/bp_sim.cpp:4366-4393 | from an empty bucket, of unit requests at most 1 plus rate times elapsed time |
| Policer.NothingIsLost | src/bp_sim.cpp:4366-4393 | conservation: while the bucket is never full, what was let through and what is left is what was there and what was paid in |
| Policer.RefusedOnlyWhenShort | src/bp_sim.cpp:4366-4393 | with a rate above 0 a request is refused only if the starting level plus all that was paid in, cut at the bucket, less what was let through is at most its size |
| Policer.SlowRequestsPass | src/bp_sim.cpp:4366-4393 | over any run of unit requests that come slower than the rate, with a bucket above 1, every one is let through |
| PortAllocator.CIpInfo.GetNextFreePortByBit | src/tuple_gen.h:248-267 | the head stops at the first free port of 21 probed in a circle, all of them legal, or at the last of 21 in use |
| PortAllocator.CIpInfo.GetNewFreePort | src/tuple_gen.h:276-292 | the first free port of those probed, or the illegal port exactly when all 21 are in use |
| PortAllocator.CIpInfo.ReturnPort | src/tuple_gen.h:294-298 | a returned port is free again and no other bit changes |
| PortAllocator.FewPortsNeverFail | src/tuple_gen.h:248-292 | a client that holds fewer than 21 ports always gets another |
| PortAllocator.TwentyOnePortsMayFail | src/tuple_gen.h:257-261 | 21 ports can fail wherever the search starts |
| PortAllocator.CClientPool.GenerateTuple | src/tuple_gen.h:520-531 | the next client in turn, and its first free port of 21 probed; it fails exactly when that client has all 21 in use |
| PortAllocator.CClientPool.GenerateOnePort | src/tuple_gen.h:393-404 | as for a tuple, of a given client; active allocations are the ports out of the pool plus the failed allocations, which stay counted for ever |
| PortAllocator.CClientPool.FreePort | src/tuple_gen.h:471-476 | one port fewer out of the pool, one fewer active |
| AddressSplit.SplitIsExact | src/tuple_gen.cpp:355-369 | without overflow the share of a thread is a chunk at its offset |
| AddressSplit.Chunk | src/tuple_gen.cpp:355-369 | all threads together get at most the pool, and fewer addresses than there are threads stay unused |
| AddressSplit.OverlapIff | src/tuple_gen.cpp:355-369 | two shares overlap exactly when they start less than a chunk apart |
| AddressSplit.SharesAreDisjoint | src/tuple_gen.cpp:355-369 | with dual mask 0 or at least the pool size all shares are disjoint |
| AddressSplit.SmallMaskOverlaps | src/tuple_gen.cpp:366-368 | with a smaller mask two shares can overlap |
| AddressSplit.ClientsDiffer | src/tuple_gen.cpp:355-369 | two clients of any threads have the same address only if they are one client |
| ClientTuples.RunIsOk | src/tuple_gen.h:393-404 | over any run of allocations and returns on any threads, no two open flows of a thread have one client and port, failed allocations aside |
| ClientTuples.TuplesAreUnique | src/bp_sim.cpp:3257-3273 | at every moment of every such run, two open flows on any threads share client address and port if and only if both are of one client and both allocations failed |
| ClientTuples.FewPortsTuplesDiffer | src/tuple_gen.h:248-292 | as long as no client ever has 21 ports out, any two open flows differ in client address or port |
| ClientTuples.FailedFlowsShareTuple | src/tuple_gen.h:276-292 | a run of 62978 flows of one client, the last two of which have the same address and port |
| TcpSeq.CTcpSeq.Update | src/bp_sim.cpp:4773-4805 | a segment moves by what its own and the other stream have grown, modulo 2^32 |
| TcpSeq.FixOnline | src/bp_sim.cpp:4773-4805 | over a whole flow the online fix-up gives every segment its fixed numbers |
| TcpSeq.UpdateTcpSeqNum | src/main.cpp:395-423 | one changed packet shifts exactly the sequence or acknowledgment numbers after it |
| TcpSeq.FixOffline | src/main.cpp:395-423 | applied once for every changed packet, the offline fix-up gives the same numbers as the online one |
| TcpSeq.StaysContiguous | src/bp_sim.cpp:4778-4781 | a stream that was contiguous is contiguous with the new sizes |
| TcpSeq.StillAcknowledges | src/bp_sim.cpp:4786-4796 | an acknowledgment of everything sent still is one |
| NatBatch.CNatRxManager.HandlePacketIpv4 | src/nat_check.cpp:126-171 | a translation of a known thread and protocol is appended to what the thread has accepted; it waits in the message of its thread unless it is the seventh, which sends the message; others are counted |
| NatBatch.CNatRxManager.FlushNode | src/nat_check.cpp:105-124 | the message goes to the end of the ring, or the ring was found full eleven times |
| NatBatch.CNatRxManager.HandleAging | src/nat_check.cpp:90-102 | exactly the messages being filled that are older than two milliseconds are sent; the others stay as they are |
| NatBatch.FlattenEnqueued | src/nat_check.cpp:109-114 | a message put on the ring follows everything already there |
| NatBatch.AtMostSixPending | src/nat_check.h:63-85 | what a thread has consumed is a prefix of what was accepted for it, at most six short once its ring is empty |
| NatLearning.ReceiveLearned | src/latency.cpp:436-449 | learn packets that come back, in any order and any number of times, leave only flows of which a learn packet was sent among the accepted translations |
| NatLearning.ReadMessage | src/bp_sim.cpp:3929-3961 | a message taken from a thread's ring names only such flows, as the scheduler asks, and afterwards none of these is in the table |
| IpOption.RxRoundTrip | src/rx_check_header.h:58-103 | every field of the rx-check header is read back as written |
| IpOption.RxLayout | src/rx_check_header.h:58-103 | which byte holds what, numbers with their low byte first |
| IpOption.NatLayout | src/rx_check_header.h:113-214 | the same for the NAT option |
| IpOption.NatRoundTrip | src/rx_check_header.h:113-214 | the NAT option passes the magic test and gives back thread and flow id |
| IpOption.OptionInserted | src/bp_sim.cpp:1685-1725 | an option becomes the first one, the header length counts it, and all other bytes stay in order |
| IpOption.PushIpv4Option | src/bp_sim.cpp:1685-1745 | in place, the packet gains the option, or is left alone exactly when the header would exceed 60 bytes |
| IpOption.InsertRxCheck | src/bp_sim.cpp:1580-1682 | the fixed header stays in the first buffer, a new one holds the option and everything behind it |
| IpOption.ChainHoldsOption | src/bp_sim.cpp:1677-1682 | the buffers in a row hold the packet with the option inserted |
| IpOption.WalkOptions | src/latency.cpp:419-457 | the walk ends; it accepts exactly the options that are a row of known items, returns the items up to the end or the first thing that is none, and hands over the last rx-check header among them, even where it refuses |
| IpOption.WalkIsUnique | src/latency.cpp:419-457 | this determines what the walk gives |
| IpOption.WalkRecovers | src/latency.cpp:419-457 | whatever row of items was sent is what the walk recovers |
| IpOption.IsValidTemplateLoadTime | src/bp_sim.cpp:1910-1943 | a template is let in exactly if every packet has its Ethernet, IP and TCP or UDP header at the usual place, and no plugin is used in learn mode; the first packet that is not so names the reason |
| IpOption.SupportedIff | src/bp_sim.cpp:1910-1934 | a packet is supported exactly if its Ethernet, IP and transport headers lie at 0, 14 and 34, or 54 with IPv6 |
| IpOption.LoadedPacketsHaveRoom | src/bp_sim.cpp:1929-1932 | hence an IPv4 packet that was let in has no options, and its header has room for all that is ever inserted |
| IpOption.TemplateOptionsArrive | src/bp_sim.cpp:1580-1745 | every IPv4 packet of a template that was let in goes out with the rx-check option first, then the NAT option if there is one, and the payload untouched |
| IpOption.HeaderArrives | src/bp_sim.cpp:1580-1682 | from buffer chain to checker, for every such packet: the walk over the chain accepts, and the rx-check header and NAT option it decodes are those that were sent |
| IpOption.OptionsArrive | src/bp_sim.cpp:1580-1745 | the insertion itself, for captured headers of any length that leaves room: inserted options first, captured options behind them in order, payload untouched |
| IpOption.FixedHeaderArrives | src/bp_sim.cpp:1580-1745 | of the fixed header only the two lengths, the checksum and the time to live differ from the capture; the latter is the reserved mark, and the total length counts the options |
| IpOption.ReceiverWalks | src/latency.cpp:419-457 | the receiver's side of that: it recovers the inserted items and walks on over options behind them as if they came first |
| IpOption.OptionsArriveIff | src/bp_sim.cpp:1929-1932 | what the check at load is good for: on a header of any length, the insertion, which makes no test, would be sound if and only if 60 bytes are not exceeded |
| IpOption.FortyBytesAreTooMany | src/bp_sim.cpp:1929-1932 | an input the check at load keeps out: a header of 40 bytes would leave as one of length 0, which no receiver accepts |
| MiniVm.SplicedCanBeUndone | src/bp_sim.cpp:5742-5745 | only the marked fields change: with the captured texts put back, the captured payload is back |
| MiniVm.DecIsNumber | src/bp_sim.cpp:5890-5917 | a port is written as its digits, the most significant first, without a leading zero |
| MiniVm.NumberIsUnique | src/bp_sim.cpp:5890-5917 | a number has just one text without leading zeros |
| MiniVm.TextIsAddress | src/bp_sim.h:183-206 | an IPv4 address is written as four such numbers below 256 with dots between them, the first the most significant byte; an IPv6 address stands in brackets |
| MiniVm.CMiniVM.ReplaceIp | src/bp_sim.cpp:5927-5948 | the address field is replaced and the exact size reported |
| MiniVm.ReplaceIpReads | src/bp_sim.cpp:5927-5948 | read back from the payload: the address stands where the captured one stood, all else as captured |
| MiniVm.CMiniVM.ReplacePortIp | src/bp_sim.cpp:5901-5925 | address and port pair are replaced and the exact size reported |
| MiniVm.ReplacePortIpReads | src/bp_sim.cpp:5901-5925 | read back: the address in its place, and the two ports, one after the other, in theirs |
| MiniVm.CMiniVM.ReplacePorts | src/bp_sim.cpp:5883-5898 | both port pairs of a reply are replaced and the exact size reported |
| MiniVm.ReplacePortsReads | src/bp_sim.cpp:5883-5898 | read back: client port and the next, server port and the next, in the place of the captured ones |
| MiniVm.CMiniVM.ReplaceIpViaIpIpPorts | src/bp_sim.cpp:5779-5836 | the via field, both addresses, for IPv6 the digit before each, and the port are replaced |
| MiniVm.ViaReads | src/bp_sim.cpp:5779-5836 | read back: the via address and port, both addresses and the port stand in their places, with a 6 before each address if it is IPv6 |
| MiniVm.CMiniVM.MiniVmRun | src/bp_sim.cpp:5688-5731 | every command starts from the captured payload, so a program leaves the result of its last command |
| MiniVm.AddrLength | src/bp_sim.h:183-206 | no address text exceeds what INET_ADDRSTRLEN and INET6_ADDRSTRLEN plus brackets allow |
| MiniVm.AddrLengthIsReached | src/bp_sim.h:183-206 | and some addresses need all of that |
| MiniVm.HttpFits | src/bp_sim.cpp:4938-4965 | any address fits the room the HTTP program asks for |
| MiniVm.RtspFits | src/bp_sim.cpp:5255-5607 | any address and ports fit the room the RTSP programs ask for |
| MiniVm.RtspReplyFitsIff | src/bp_sim.cpp:5373-5390 | the replies always fit, and so does the zero behind them exactly when something follows or a port is short |
| MiniVm.SipFits | src/bp_sim.cpp:5080-5191 | any addresses and ports fit the room both SIP programs ask for |
| SimpleOpt.CalcMatch | src/SimpleOpt.h:932-987 | minus one exactly for a perfect match, positive exactly for a partial one, and then the length of the name |
| SimpleOpt.ExactCase | src/SimpleOpt.h:932-987 | with regard to case, a perfect match is the option itself, a partial one a proper start of it that goes beyond the hyphens |
| SimpleOpt.CaseOfForm | src/SimpleOpt.h:941-950 | words, short options and long options each have their own flag for that |
| SimpleOpt.CaseFolds | src/SimpleOpt.h:989-1005 | without regard to case two characters match exactly if they are the same or one letter small and capital |
| SimpleOpt.NameAndArgument | src/SimpleOpt.h:648-655 | the first equals sign of an option parts its name from its argument; other texts are names as they stand |
| SimpleOpt.LookupOption | src/SimpleOpt.h:892-926 | the first perfect match, or the only partial one when partial matches are on; otherwise the right error |
| SimpleOpt.LookupIsUnique | src/SimpleOpt.h:892-926 | there is just one right answer to a lookup |
| SimpleOpt.Classify | src/SimpleOpt.h:651-709 | an argument is an option, a clump, an error or data by its text, the table and the flags alone |
| SimpleOpt.ShortFormByFlags | src/SimpleOpt.h:659-695 | a short form that is no option by name: with its argument if its letter may have one and short arguments are on, else a clump if these are on, else data or an error |
| SimpleOpt.CSimpleOpt.ShuffleArg | src/SimpleOpt.h:870-890 | argv is rotated: the skipped arguments go to the end in their order |
| SimpleOpt.CSimpleOpt.TakeOption | src/SimpleOpt.h:711-768 | the data before an option joins the files, and the option takes its place |
| SimpleOpt.CSimpleOpt.MultiArg | src/SimpleOpt.h:1007-1039 | the next arguments become the option's, all or none: none if there are too few or one looks like an option; argv stays in order |
| SimpleOpt.CSimpleOpt.NextClumped | src/SimpleOpt.h:818-858 | takes one letter off a clump and reports what the letters of the clump must report first |
| SimpleOpt.CSimpleOpt.Report | src/SimpleOpt.h:713-782 | identity, text, argument and error of an option are those the simple parser reports, and the argument behind it goes with it exactly if it takes that |
| SimpleOpt.OptionByType | src/SimpleOpt.h:713-782 | argument and error of an option, type by type: absent, combined, behind it, missing, or of the wrong kind |
| SimpleOpt.CSimpleOpt.Next | src/SimpleOpt.h:607-783 | reports the first event that is still to come and leaves the others, or ends exactly when there is none; every call makes progress |
| SimpleOpt.CSimpleOpt.ParseAll | src/SimpleOpt.h:607-783 | calling Next to the end terminates and reports all events in order; argv is a permutation, options and their arguments first, files last, each in original order |
| SimpleOpt.ParseCommandLine | src/main.cpp:99-108 | from the constructor on, the parser that rotates argv in place reports the same events and finds the same files as one that reads from front to back and moves nothing |
| SimpleOpt.FilesAreData | src/SimpleOpt.h:628-700 | an argument is a file exactly if it is data and not taken by an option before it |
| SimpleOpt.ArrangedPermutes | src/SimpleOpt.h:870-890 | at every moment argv holds the pointers it held at first |

## Left out

- The node pool, rings and mbufs of the drivers: nodes of the scheduler are values in a map from address to node, which
  shows a use after free as a missing key; what the model then does not capture is several names for one node's fields.
- Scheduler.CFlowGenListPerThread.AllocPort: hands out some port that is not in use; the search for it, and its failure,
  are in `PortAllocator`. A flow that got the illegal port would fail the assertion in `return_port`; runs with such a
  flow are not part of the scheduler's model, nor are the pools without a bitmap (`CIpInfoL`), which repeat ports.
- Scheduler.CFlowGenListPerThread.StartGenerateStateful: asks, in learn mode, that fewer than 2^32 flows be opened, so
  that the 32-bit short flow id of a flow is its id.
- The realtime mode of `flush_file`, `now_sec` and the cadence of `flush_tx_queue`: simulated time; the wall clock that
  `schedule_node` reads is an arbitrary number.
- Stateless packets, COMMAND messages and the RPC side.
- The comparison of translated with original addresses under `--learn-verify`, and latency messages among NAT messages.
- Template counters, jitter and histograms of the RX checker, and `m_total_rx_bytes`.
- IpOption.WalkOptions: a received header length below 20 can lead the walk out of the packet's buffer; what it reads there
  is not modelled.
- SchedulerTraffic.PromptNetworkRaisesNoAlarm: for templates that keep the gaps of the capture and whose aging time is not
  cut to 65000 seconds; a template that is played with other gaps announces the aging time of its capture all the same,
  and for it `SchedulerTraffic.ScheduledRunRaisesNoAlarm` asks that the packets arrive in time.
- Checksums, MAC addresses, VLAN tags; IPv6 extension headers (the IPv4 option walk is modelled).
- Parsing of captured packets: a captured packet is its flow key, its orientation and its time; a capture without
  packets is not loaded.
- TcpSeq.FixOffline: a template of a single TCP flow; the offline form also shifts packets of other flows in a template
  that has several.
- The texts of IPv6 addresses: made by the C library, taken as any text of at most 45 characters. The random payload
  command (`VM_DYN_PYLOAD`) and the unused `VM_REPLACE_IP_IP_PORT`.
- Windows slashes and `Stop` in the command-line parser, and callers that take further arguments with `MultiArg` while the
  whole line is parsed (`SimpleOpt.CSimpleOpt.ParseAll` calls nothing but `Next`); the original moves the tail of
  argv with `memcpy` over ranges that overlap, the model copies front first.
- Client selection at random, server pools, and the reuse of one client for several flows (`m_cnt`, `m_w`).
- YAML loading, printing, object teardown.
