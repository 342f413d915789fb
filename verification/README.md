# Verification of in-network collectives

A Dafny model of an allreduce that runs inside a programmable switch, with proofs about it. Hosts send one packet per
64 words of a buffer; the switch adds up the packets of a group in register slots and sends the sums back. The model
follows the repository's code, from the pipeline's register actions to the controller's resource lists and the host
daemon's queues, and `dafny verify dfyconfig.toml` checks it.

## What is modelled

**The slot** (`SatArith`, `Bitmap`, `DataPlane`, `Collectives`). A register slot is a version, a bitmap of ranks and 32
aggregator pairs. The first pass of a packet overwrites, adds or only reads, and returns the even words; the second pass
reads the odd words. Addition saturates at 32 bits, so what "the sum" means needs a bound: the exact condition is that
neither the positive nor the negative contributions alone exceed a word.

**The protocol** (`Protocol`, `ProtocolSafety`, `ProtocolTheorems`, `Network`, `Progress`, `Results`). A state machine of one lane:
hosts with windows, lossy first-in-first-out links to the switch, the lane's slots, the recirculation queue between the
two passes, and results that may be lost, duplicated and reordered on their way back (`Network.AnyTimeLater`). One action is one packet event. An
inductive invariant over a history of arrivals gives window safety, agreement on results read in two halves, recovery,
one multicast per packet number, and that no loss ever leaves the lane stuck. The packet numbers may begin anywhere; `Starts`
is about members that do not begin at the same one. `Sequences` and `Arith` hold what all share.

**The wrap of the packet numbers** (`Wrap`, `WrapRuns`). The header has 32 bits of a packet number and slots are taken modulo
a lane's length. Which packets then share a slot, what that does to a run, and the exact condition under which no run is harmed.

**The hosts' window** (`HostSteps`, `Generator`, `Window`). The ring of packet states that a worker keeps, with wrapping
positions and 32-bit packet numbers, as a class. Its methods take only the steps that the protocol allows a host, put
exactly the packets of those steps on the wire, and answer requests in the order they came.

**The switch program** (`Switch`, `Comparator`). Ingress and egress as classes with register arrays and tables, assigned
step by step, proved against the slot functions.

**The controller** (`FreeList`, `Groups`, `Capacity`, `Controller`). The servicer as a class: a sorted list of free segments edited
in place, lists of free ids and nodes, port loads, tables, and an undo log per group that is replayed in reverse. A
conservation law holds after any sequence of calls.

**From the controller to the wire** (`Lanes`, `Isolation`). The slot ranges of groups and workers are disjoint; a new group's slots
are a start state of the protocol; and the pipeline, run on a packet of a lane, takes exactly the protocol's step and
leaves every other lane alone; and what a packet of a group that does not own the lane does to it.

**The host daemon** (`QueuePairs`, `LoadBalancer`, `Joins`, `JoinProgress`, `ProcessBuffer`). Splitting an operation over workers,
joining their completions while all threads interleave, and the buffered NIC queue.

## What turned out false, and what holds instead

- `free_seg` does not always coalesce: it uses the right neighbour's index after deleting the left one
  (`switch/bfrt_grpc.py:136-142`). `Controller.UncoalescedRun` is a run of four calls that ends so, `FreeList.MissedMerge`
  the step at fault; `FreeList.CoalescesIff` says exactly when the list stays coalesced. Everything else about the list, and fixed-size allocation, is unharmed.
- The order of arrival can matter: `SatArith.TwoOrders` gives three words with two results. It never does iff the
  one-sided totals of the word fit, or no two contributions have opposite signs: `SatArith.OrderIndependentIff`, and
  `Results.OrderMattersIff` for arrivals.
- A saturating fold need not be the sum: it is, in every order, iff the one-sided totals fit (`SatArith.ExactInEveryOrder`,
  `Results.ExactIffFits`).
- `check_flush_timer` compares a 16-bit timer with an `int`, so with 32768 or more transmit entries it never flushes:
  `ProcessBuffer.NeverFires`, and `ProcessBuffer.FlushWithin` for the exact condition.
- Packet numbers wrap at 2^32 but slots are taken modulo the lane length, so after the wrap a lane whose length does not
  divide 2^32 addresses other slots (`Wrap.AddressableIff`). What counts is the remainder r of 2^32 by the length: psns less
  than d apart never share a slot iff r is 0 or at least d (`Wrap.NeverShareIff`; d is the window for two packets of one
  window). Runs need it for two windows: a run that loses nothing can take a slot from a packet that waits for its second
  pass, and a host then holds a result whose even words are of one packet number and whose odd words are of another
  (`WrapRuns.TornRun`). All results of all runs agree, for all data, iff r is 0 or at least two windows
  (`WrapRuns.AgreementIff`, and `WrapRuns.KeptIff` for the slots); with up to 32 workers and a window of half a lane that is
  iff the worker count divides the group's slots evenly (`Lanes.WorkersFitIff`). `Lanes.ThreeWorkersWrap` has two packets of one
  window in one slot, `Lanes.SixWorkersWrap` only two of neighbouring windows.
- The data plane does not check to whom a slot belongs. A first pass of another group's packet, say a late one of a group
  destroyed since, changes a lane iff its address lies in the lane (`Isolation.StrayOnLane`); what waits for its second pass
  there is torn (`Isolation.StrayTears`) and what came for the slot is forgotten (`Isolation.StrayForgets`).
- A worker keeps the packet number of a group id when the group is destroyed (`worker.cpp:491-498`), so members that used the
  id differently start the next group from different numbers; then the one furthest behind never gets a result:
  `Starts.NeverTogether`.
- A worker is to change groups only when its window is empty, but inside one `shift_send` the emptiness test looks at a
  send position that is only written back after the loop: `Generator.MixedGroups` is an example, and
  `Generator.StaysInGroupIff` says exactly when a call keeps to one group.
- A reduce does not deliver the full sum: the root's packets carry no payload (`common.hpp:151-155`), so what is added up
  is the other hosts' words (`Results.ReduceTotal`). `Results.RootsWordLost` is an example; for a word that fits, the root
  gets the sum over all hosts iff its own word is 0 (`Results.FullReduceIff`).

## The host window and the queue pair, by source line

These follow `worker.cpp` and `common.hpp`.

- `HostSteps.PlayIsRun` (worker.cpp:660-691): whatever a window plays is a run of the protocol that changes only its own host and link.
- `Window.DistanceFinds` (worker.cpp:217-222): a 32-bit psn finds a place iff its packet is in the window, across wraps.
- `Generator.GenNext` (worker.cpp:470-518): each packet made has its group's next psn, whether or not it starts a request or changes the group.
- `Generator.StaysInGroupIff` (worker.cpp:479-486): one call keeps the window to one group iff the window was not empty or all requests it reaches are of one group.
- `Generator.MixedGroups` (worker.cpp:520-543): two one-packet requests of different groups at an empty window are both sent in one call.
- `Generator.PktCount` (worker.cpp:493-496): enough packets for the bytes, one too few would not do unless it is the only one.
- `Window.SendWindow.PushRequest` (load_balancer.cpp:84-87): a queued request changes nothing but the queue, and the window stays in agreement.
- `Window.SendWindow.GenPkt` (worker.cpp:470-518): the cell and the generator's next state, or nothing where a request must wait.
- `Window.SendWindow.SendOne` (worker.cpp:534-541): one turn of the loop is one fresh send of the host, of the cell it returns.
- `Window.SendWindow.SendUpTo` (worker.cpp:533-541): the loop is a run of fresh sends of one host, and what it sends are their packets.
- `Window.SendWindow.ShiftSend` (worker.cpp:520-556): new packets are fresh sends, in order, until the window reaches one of the four limits or there is no packet to make; the cells that go on the wire are those packets; and ring, psn bounds and generator agree with the host again.
- `Window.SendWindow.ShiftAck` (worker.cpp:272-285): the window slides past everything acknowledged and no further; `Window.SendWindow.SlideAll` is its loop, which answers each request at its last packet (worker.cpp:262-270).
- `Window.SendWindow.GetPosition` (worker.cpp:206-228): a position is found iff the packet is of the current group and in the window, and it is that packet's.
- `Window.SendWindow.CollectRetrans` (worker.cpp:287-309): the gap before an acknowledged packet is sent again: the cells sent are exactly its packets, in order.
- `Window.SendWindow.Transmit` (worker.cpp:244-248): the cells sent are the packets of a stretch of the ring, in order.
- `Window.SendWindow.RxProcessOne` (worker.cpp:311-378): a result is taken iff its packet is in the window and lacks one; then the packets of the gap before it are sent again.
- `Window.SendWindow.TakeAt` (worker.cpp:342-352): marking one cell is the host's step of taking the result.
- `Window.SendWindow.FullRetrans` (worker.cpp:558-572): the cells sent are exactly the packets in the window that lack a result, in order.
- `Window.AnsweredInOrder` (worker.cpp:262-285): the worker answers the requests in the order they came, each once, and all of them in the end; this is what `Joins` takes a worker to do.
- `Window.AnsweredWhenAcked` (worker.cpp:262-285): a request is answered exactly when the window has slid past its last packet, and then every result of it is there.
- `QueuePairs.QueuePair` (common.hpp:98-147): the requester's count covers both queues, so no assertion in it fails.
- `Collectives.NeedTx`, `Collectives.NeedRx` (common.hpp:151-161): who sends and who wants a payload.
- `Lanes.Names` (worker.cpp:431-447): the header fields of a packet, with its slot, the lane's start plus the 32-bit psn modulo the lane's length.

## Model

| member | source | states |
|---|---|---|
| SatArith.FitsIsExact | switch/aggregator.p4:20-28 | if neither all positive nor all negative contributions to a word together leave 32 bits, folding the saturating addition over them gives the mathematical sum |
| SatArith.ExactInEveryOrder | switch/aggregator.p4:20-28 | that bound is exact: it holds iff every order of the same contributions folds to the mathematical sum |
| SatArith.SmallWordsFit | switch/aggregator.p4:20-28 | contributions whose absolute values sum to at most 2^31 - 1 meet the bound |
| SatArith.OrderIndependentIff | switch/aggregator.p4:20-28 | every order of the same contributions folds to the same word iff they meet the bound or have no two words of opposite sign |
| SatArith.TwoOrders | switch/aggregator.p4:20-28 | three words whose sum fits fold to different words in two orders |
| Bitmap.FullTest | switch/forward.p4:53-56 | for a bitmap of group members and a rank of the group, the two equality tests with the flipped and the full mask hold iff the bitmap with the rank is the whole group |
| Bitmap.MembersOr | switch/ingress.p4:294-302 | or-ing in the bit of a rank adds exactly that rank to the set |
| Bitmap.MembersInjective | switch/ingress.p4:294-302 | two bitmaps with the same ranks are the same 32-bit word |
| DataPlane.SlotSum | switch/ingress.p4:294-302 | after any sequence of first passes at one slot, with any losses, duplicates and version changes, the aggregators hold the saturated sums over the ranks heard since the last version change, each once |
| DataPlane.SlotSumExact | switch/aggregator.p4:20-28 | such a slot holds the mathematical sum in every word whose contributions meet the bound |
| DataPlane.AbsorbFresh | switch/aggregator.p4:14-19 | a packet that finds no rank of its version replaces whatever the slot held by its own contribution alone |
| DataPlane.AbsorbSame | switch/aggregator.p4:77-82 | a packet of the slot's version is counted iff its rank is new; otherwise nothing changes |
| DataPlane.FrozenOnceFull | switch/aggregator.p4:77-82 | once all ranks are in, any number of further packets of the version leave the slot as it is, and each is sent on as a unicast with the same even words |
| DataPlane.MulticastIffCompleting | switch/forward.p4:80-90 | a first pass goes on iff it leaves the group complete, and asks for a multicast iff it is the one that completes it |
| DataPlane.TwoHalves | switch/aggregator.p4:29-38 | even words read from a row on pass 1 and odd words read from the same row on pass 2 make up all its words |
| Collectives.BroadcastWord | switch/ingress.p4:91-160 | with header-only packets parsed to zeros, every word of a broadcast folds to the root's own word in any arrival order and without any bound |
| Collectives.ReduceWord | switch/ingress.p4:52-58 | the fold of a reduce skips exactly the root |
| Collectives.StripMatchesNeedRx | switch/egress.p4:145-154 | egress leaves a payload exactly for the hosts that copy one out of the result |
| ProtocolSafety.TagsDiffer | switch/ingress.p4:199-205 | versions, made of the group and 24 bits of the psn, differ for psns less than 2^24 apart |
| ProtocolSafety.NeverBack | switch/ingress.p4:294-302 | no packet that arrives is older than what its slot is at |
| ProtocolSafety.NeverSkips | switch/ingress.p4:294-302 | a packet finds its slot unused, at its own psn or at the last psn before it that uses the slot, which is at least two windows and less than 2^24 older |
| ProtocolSafety.SafeAdvance | switch/bfrt_grpc.py:41-43 | when a slot moves on, every host holds the result it forgets and no packet of it waits for its second pass |
| ProtocolSafety.StepInv | switch/forward.p4:52-91 | every step of hosts, links, switch and network keeps the invariant of the whole lane |
| ProtocolSafety.StartInv | switch/bfrt_grpc.py:198 | a lane whose slots were reset satisfies the invariant, whatever stale aggregates remain |
| ProtocolTheorems.RunInv | switch/forward.p4:52-91 | every state of every run satisfies the invariant, as long as no host comes to a slot used less than two windows before |
| ProtocolTheorems.WindowSafety | switch/ingress.p4:199-205 | in every such state a slot's version is that of the last psn processed there; it never goes back, and advances only to the next psn that uses the slot, and only when all hosts hold the old result and nothing of it waits for a second pass |
| ProtocolTheorems.SlotWaits | switch/forward.p4:67-75 | what waits for its second pass finds its slot at its own psn, complete, and with the row its even words came from |
| ProtocolTheorems.Agreement | switch/aggregator.p4:29-38 | in every such run there is one arrival order per psn such that every result put out and every result held by any host, read in two halves at two times, is the saturating fold of all ranks in that order |
| ProtocolTheorems.StillHeld | switch/ingress.p4:294-302 | while some host lacks a complete result, its slot still holds that psn with all ranks |
| ProtocolTheorems.Recovers | switch/forward.p4:58-90 | a retransmission of a complete psn by a host that lacks it changes no slot and queues one unicast to that host with the result everybody gets |
| ProtocolTheorems.OneMulticastEach | switch/forward.p4:80-90 | in every such run a multicast is asked for each psn at most once, and for exactly the psns to which the whole group has contributed, among them every psn of which any result went out |
| Network.OneLost | switch/random_drop.p4:101-107 | any one packet on a link or in the recirculation queue may be dropped, and nothing else changes |
| Network.AllLost | switch/random_drop.p4:101-107 | all that is under way to the switch or waits in it may be dropped, and nothing else changes |
| Progress.NeverStuck | switch/forward.p4:58-90 | from the end of any such run, whatever was lost before, some continuation without any further loss ends with every host holding every one of the first p results, empty links and nothing waiting for a second pass, for any p up to which slots stay apart |
| Starts.NeverTogether | switch/ingress.p4:294-302 | if the members start from different psns, in no run does the one furthest behind get its first result, and no result ever goes out but of psns that its first window shares with the member furthest ahead |
| Wrap.AddressableIff | load_balancer.cpp:82-84 | a 32-bit psn addresses the slot of the real psn for ever iff the lane length divides 2^32, and in any case below 2^32 |
| Wrap.NeverShareIff | load_balancer.cpp:82-84 | for any distance up to a lane, psns less than that far apart never share a slot iff the remainder of 2^32 by the lane length is 0 or at least that distance |
| Wrap.ApartIff | load_balancer.cpp:82-84 | no host ever comes to a slot used less than two windows before iff that remainder is 0 or at least two windows |
| Wrap.BelowWrap | load_balancer.cpp:82-84 | below 2^32 none does, whatever the lane length |
| WrapRuns.TornRun | switch/aggregator.p4:29-38 | where two psns of one window or two neighbouring ones share a slot, from every start a run without any loss puts out a result with the even words of one and the odd words of the other, and the host it is for takes it, if it is not the one that sent the later psn or both are in one window |
| WrapRuns.KeptIff | switch/ingress.p4:294-302 | in every run whatever waits for its second pass finds its slot at its own version iff the remainder of 2^32 by the lane length is 0 or at least two windows |
| WrapRuns.AgreementIff | switch/aggregator.p4:29-38 | for all data and all runs one arrival order per psn explains all results, under exactly the same condition |
| Results.ExactIffFits | switch/aggregator.p4:20-28 | a word of a result is the sum of the contributions for every arrival order iff they meet the bound, and the contributions to an allreduce are the words of all hosts' buffers |
| Results.ContributionsAre | switch/ingress.p4:52-58 | what rank r adds to word w: in an allreduce its own buffer's word, in a reduce the same but 0 from the root, in a broadcast 0 from all but the root |
| Results.Totals | switch/ingress.p4:52-58 | the contributions sum to the words of all hosts in an allreduce, and to those less the root's own in a reduce |
| Results.OrderMattersIff | switch/aggregator.p4:20-28 | no two arrival orders of the group give different words iff the contributions meet the bound or no two hosts contribute words of opposite sign |
| Results.BroadcastResult | switch/egress.p4:145-154 | a broadcast delivers exactly the root's payload to every other host and a header to the root |
| Results.ReduceResult | switch/egress.p4:145-154 | a reduce delivers to the root alone, and what it delivers is the saturating fold over the other hosts in arrival order |
| Results.ReduceTotal | switch/ingress.p4:52-58 | the contributions to a word of a reduce sum to the words of all hosts but the root |
| Results.FullReduceIff | switch/ingress.p4:52-58 | for a word that meets the bound, the root of a reduce gets the sum over all hosts, itself among them, iff its own word is 0 |
| Results.RootsWordLost | switch/ingress.p4:52-58 | a lone host that reduces to itself gets 0 where its buffer has 1 |
| Results.EveryResultCorrect | switch/forward.p4:52-91 | at the end of every such run, every result any host holds is right: of an allreduce it is there, and the sum of all hosts' buffer words in every word that fits; of a reduce only the root's is there, with the sum of the others' words; of a broadcast all but the root's are there, and are the root's buffer |
| Switch.ParseExternal | switch/ingress.p4:35-65 | what external packets are parsed to: ours start pass 1 with their payload, or zeros if they had none; everything else gets the invalid pass and is left alone |
| Switch.Ingress.UpdateBitmap | switch/ingress.p4:277-316 | one atomic update: the old bitmap is returned, or 0 on a version change, and only this slot changes |
| Switch.Ingress.Access | switch/aggregator.p4:56-85 | the first matching entry decides what happens to one pair and to the packet's two words |
| Switch.Ingress.AccessAll | switch/aggregator.p4:92-173 | the 32 accesses together do to the row and to the 64 words what the slot functions say, and touch no other address |
| Switch.Ingress.Forward | switch/forward.p4:52-91 | where a packet goes and when it is marked for multicast |
| Switch.Ingress.FirstPassRegisters | switch/ingress.p4:396-421 | the register stages of a first pass in order |
| Switch.Ingress.RefinesAbsorb | switch/ingress.p4:322-376 | on bitmaps within the group, the bit-vector stages are the set-level slot function and its full and new tests |
| Switch.Ingress.Apply | switch/ingress.p4:382-431 | for any first pass, the exact new registers, words, mark and destination; within the group these are the slot function and its verdict; a second pass changes no register and adds the odd words; all other addresses and all other traffic are untouched |
| Switch.Egress.Apply | switch/egress.p4:121-163 | a result leaves with its receiver's rank, the table's addresses or its own on a miss, and a payload only if wanted; a packet on its way to pass 2 only counts the pass; other traffic is untouched |
| Comparator.Compares | switch/random_drop.p4:5-66 | at every width, first match over the descending entries is unsigned comparison: 3, 1 or 0 |
| Comparator.RandomDrop | switch/random_drop.p4:101-107 | a packet is dropped iff the random number is below the threshold |
| FreeList.AllocTakes | switch/bfrt_grpc.py:110-122 | allocation takes exactly the block out of the free bytes and keeps the segments non-empty, sorted, apart and in range |
| FreeList.InvalidIffOverlap | switch/bfrt_grpc.py:124-133 | "Invalid free" is reached iff the block overlaps free memory |
| FreeList.FreeGives | switch/bfrt_grpc.py:124-143 | freeing adds exactly the block and keeps the order, even where a merge is missed |
| FreeList.CoalescesIff | switch/bfrt_grpc.py:134-143 | a coalesced list stays coalesced iff the block does not touch free memory on both sides |
| FreeList.MissedMerge | switch/bfrt_grpc.py:134-143 | at any block size, a block freed between two free segments leaves two segments that touch |
| FreeList.UpperAlign | switch/bfrt_grpc.py:57-58 | the result is a multiple, and less than one multiple above the argument |
| FreeList.LeastAligned | switch/bfrt_grpc.py:57-58 | no smaller multiple will do |
| FreeList.FirstFitLowest | switch/bfrt_grpc.py:100-108 | first fit finds the lowest aligned block that lies in one segment, and fails iff there is none |
| FreeList.FixedSizeFit | switch/bfrt_grpc.py:100-143 | with one block size, allocation fails iff no memory is free, in spite of missed merges |
| FreeList.AllocAligned | switch/bfrt_grpc.py:110-122 | allocation keeps all segment ends at multiples of the block size |
| FreeList.FreeAligned | switch/bfrt_grpc.py:124-143 | so does freeing |
| Groups.CreateKeeps | switch/bfrt_grpc.py:145-209 | a new group keeps the conservation law: ids, nodes and memory are split between free and live without overlap, port loads count live groups, and table entries exist for exactly the live groups |
| Groups.DestroyKeeps | switch/bfrt_grpc.py:211-219 | replaying a live group's log never fails and keeps the law with that group gone and every other group as it was |
| Groups.ReplayLog | switch/bfrt_grpc.py:216-217 | the reverse replay of a log undoes each recorded step of its own group and nothing else |
| Controller.SelectPort | switch/bfrt_grpc.py:97-98 | the first of the least loaded ports |
| Controller.ResetConserved | switch/bfrt_grpc.py:68-86 | a reset establishes the law with no group live |
| Controller.ServeSound | switch/bfrt_grpc.py:145-219 | every call keeps the law |
| Controller.ConservedAlways | switch/bfrt_grpc.py:68-219 | the law holds after a reset and any sequence of calls |
| Controller.LiveDetermines | switch/bfrt_grpc.py:145-219 | two histories that end with the same live groups leave the same free ids, nodes and bytes, the same port loads and the same entries in all tables, replication nodes and multicast groups among them |
| Controller.UncoalescedRun | switch/bfrt_grpc.py:134-143 | after two groups are created and destroyed in the same order, all memory is free but in two segments that touch |
| Controller.INCServicer.Init | switch/bfrt_grpc.py:68-86 | the new state is the reset state and nothing is live |
| Controller.INCServicer.DeleteGroups | switch/bfrt_grpc.py:77-81 | exactly the listed multicast groups are gone |
| Controller.INCServicer.DeleteNodes | switch/bfrt_grpc.py:82-86 | exactly the listed nodes are gone |
| Arith.Power2Iff | switch/bfrt_grpc.py:54-55 | the bit test on unbounded numbers finds exactly the powers of two |
| Controller.INCServicer.AllocSeg | switch/bfrt_grpc.py:110-122 | the list edited in place is that of the list function |
| Controller.INCServicer.FreeSeg | switch/bfrt_grpc.py:124-143 | the scan and the edits in place are those of the list function, with the failing case apart |
| Controller.INCServicer.FitSeg | switch/bfrt_grpc.py:54-108 | a size that is no power-of-two number of slots is reported; otherwise the scan returns the first fit |
| Controller.INCServicer.ExecUndo | switch/bfrt_grpc.py:93-95 | one recorded action changes the server and the tables as its inverse says |
| Controller.INCServicer.CreateGroup | switch/bfrt_grpc.py:145-209 | it is accepted iff fewer than 16 groups are live and the members do not outnumber the free nodes; else nothing changes and the null group is returned; then a fresh id gets the first nodes, the first fit, the least loaded port and its entries, every member gets its own copy on the port of its IP, or on 511 if that is unknown, exactly the group's slots are reset, and the law holds |
| Capacity.AcceptedIff | switch/bfrt_grpc.py:150-153 | in every state that keeps the law, a creation is accepted iff fewer than 16 groups are live and the members do not outnumber the free nodes |
| Capacity.FreeNodes | switch/bfrt_grpc.py:160-166 | free nodes and nodes of live groups are always 1023 together |
| Capacity.FreeIds | switch/bfrt_grpc.py:158-159 | free and live ids are always 255 together, from 1 to 255 |
| Controller.InitFreesAll | switch/bfrt_grpc.py:68-86 | after Init nothing is live and every id, node and byte is free |
| Controller.INCServicer.AddGroup | switch/bfrt_grpc.py:155-200 | all that a new group takes and all the entries it gets |
| Controller.INCServicer.TakeResources | switch/bfrt_grpc.py:158-184 | the resources and group entries, with the first six inverse actions recorded |
| Controller.INCServicer.WriteMembers | switch/bfrt_grpc.py:186-193 | one address, one node and two inverse actions per member, as the state function has them; `Lanes.CopiesOfGroup` says what ports these are |
| Controller.INCServicer.ResetSlots | switch/bfrt_grpc.py:198 | exactly the group's slots are reset |
| Controller.INCServicer.DestroyGroup | switch/bfrt_grpc.py:211-219 | an unknown id changes nothing; a live one is undone by its log and leaves all others live |
| Lanes.LanesDisjoint | switch/bfrt_grpc.py:155-156 | no slot belongs to two lanes, of one group or of two with any worker counts, and every slot of a lane is a register |
| Lanes.SharesAreLanes | load_balancer.cpp:82-84 | the slots the load balancer gives a worker are that worker's lane of the group |
| Lanes.ThreeWorkersWrap | load_balancer.cpp:82-83 | with three workers the first psn after the wrap goes to the slot of a different version only four psns older, so two packets of one window can share a slot |
| Lanes.WorkersFitIff | load_balancer.cpp:82-84 | for up to 32 workers and a window of half a lane, that condition holds iff the worker count divides a group's slots evenly |
| Lanes.SixWorkersWrap | load_balancer.cpp:82-84 | with six workers no two packets of one window share a slot but two of neighbouring windows do |
| Lanes.FreshLane | switch/bfrt_grpc.py:198 | the slots of a new group are a start of the protocol for each worker, and the first packet of any version and rank overwrites stale data |
| Lanes.LiveIsKnown | switch/bfrt_grpc.py:178-184 | ingress has the mask and port of every live group |
| Lanes.LiveIsRestored | switch/bfrt_grpc.py:186-190 | egress has the address of every member of every live group |
| Lanes.CopiesOfGroup | switch/bfrt_grpc.py:192-195 | the traffic manager sends a multicast to a live group as one copy per member: copy i has replication id i and leaves by the port that the topology has for member i's IP, or by 511 if it has none |
| Lanes.IngressOnLane | switch/ingress.p4:382-431 | ingress on the packet at the head of a link does to the lane's slots, and decides, what the protocol's step says |
| Lanes.FirstPassOnLane | switch/ingress.p4:382-431 | parser, ingress and egress together take the protocol's first-pass step: same slots, same queue, and no other slot changes |
| Lanes.EgressAll | switch/egress.p4:121-163 | everything the traffic manager delivers leaves by its port as a result with its receiver's rank and address |
| Lanes.SecondPassOnLane | switch/ingress.p4:382-431 | ingress, traffic manager and egress together take the protocol's second-pass step: no register changes and exactly the step's messages leave; a multicast leaves once by the port of each member's IP, or 511; an answer leaves once by the one port that the forwarding table has for its sender, and is lost, which is the protocol's loss, iff there is no entry or one that sends nothing |
| Isolation.LanesAlone | switch/bfrt_grpc.py:155-156 | no slot of a live group's lane is in another lane |
| Isolation.FirstPassAmongLanes | switch/ingress.p4:382-431 | the pipeline takes a lane's first-pass step, and every other lane of every live group shows the slots it showed before |
| Isolation.StrayOnLane | switch/ingress.p4:396-421 | a first pass of another group's packet, of whatever rank below 32, leaves a lane as it was iff its address is outside; inside, its slot then holds that packet alone |
| Isolation.StrayTears | switch/aggregator.p4:29-38 | a packet that waits while its slot is struck so reaches every receiver with its own even words and the stray packet's odd words |
| Isolation.StrayForgets | switch/forward.p4:58-90 | the next packet to a struck slot starts it afresh, and is dropped unanswered iff the group has more than one member |
| QueuePairs.QueuePair.PushReq | load_balancer.cpp:87 | refused at capacity and otherwise queued; the assertion inside never fails |
| QueuePairs.QueuePair.PushResp | load_balancer.cpp:54 | an owed response is always accepted |
| QueuePairs.QueuePair.PopResp | load_balancer.cpp:47-49 | the oldest response goes and the count with it |
| LoadBalancer.Tiles | load_balancer.cpp:73-89 | the parts follow each other from the first byte to the last and begin on integers |
| LoadBalancer.OneOwner | load_balancer.cpp:73-89 | every byte of the buffer, and no other, is in exactly one worker's part |
| LoadBalancer.Balanced | load_balancer.cpp:79-81 | integer counts differ by at most one, and only the last part has a fraction of an integer |
| LoadBalancer.Shares | load_balancer.cpp:82-83 | slot shares are consecutive, of equal length and within the group's slots |
| LoadBalancer.TryPostOp | load_balancer.cpp:58-91 | the loop with its running offset pushes to each worker exactly its part, and does nothing without a request |
| LoadBalancer.TryCompleteOp | load_balancer.cpp:39-56 | a response is taken from every worker and the operation answered iff every worker has one |
| LoadBalancer.PopHeads | load_balancer.cpp:46-53 | the second loop takes one response from each worker and keeps the last one's operation |
| Joins.StepInv | load_balancer.cpp:39-91 | every queue operation of balancer, workers and client keeps the invariant |
| Joins.NothingRefused | load_balancer.cpp:87 | no push is ever refused and no assertion of the queue pairs or of the split ever fails, though the result of the push is ignored |
| Joins.HeadsAgree | load_balancer.cpp:46-53 | while the balancer pops, the heads of all workers are parts of one operation, the oldest unanswered one |
| Joins.CompletedInOrder | load_balancer.cpp:39-91 | in every interleaving, answers are the requests in order, each once, and each only after every worker finished its part |
| JoinProgress.CompleteRound | load_balancer.cpp:39-56 | with a response from every worker, the balancer's steps through its two loops answer exactly the oldest unanswered operation and take one response from every worker |
| JoinProgress.PostRound | load_balancer.cpp:58-91 | its steps through the posting loop take the first request, if there is one, and give every worker exactly its part |
| JoinProgress.CompleteIsRound | load_balancer.cpp:39-56 | `try_complete_op` on the queue pairs does what those steps do |
| JoinProgress.PostIsRound | load_balancer.cpp:58-91 | so does `try_post_op` |
| JoinProgress.AcceptedIff | load_balancer.cpp:87 | a request is queued iff fewer than 1024 are outstanding, and otherwise leaves no trace |
| JoinProgress.EveryRequestAnswered | load_balancer.cpp:93-116 | from every reachable state, workers and balancer alone can go on until every request is answered, and the client can then collect every answer |
| JoinProgress.QuietMeansDone | load_balancer.cpp:93-116 | when the workers have nothing to do and the balancer, however long it runs, takes and answers nothing, every request is answered |
| ProcessBuffer.FlushWithin | process_buffer.hpp:27-33 | within any 2 * tx_size + 1 receive calls, with any sends between them, a flush is attempted, iff tx_size is below 32768 |
| ProcessBuffer.NeverFires | process_buffer.hpp:27-33 | with more entries the 16-bit timer never reaches its limit |
| ProcessBuffer.QueueProcessBuffer.Flush | process_buffer.hpp:80-87 | whatever the NIC takes at a time, in the end it has everything sent, in order |
| ProcessBuffer.QueueProcessBuffer.FlushOnce | process_buffer.hpp:89-97 | accepted packets followed by the buffer are still what was sent, and the buffer shrinks by what was taken |
| ProcessBuffer.QueueProcessBuffer.CheckFlushTimer | process_buffer.hpp:27-33 | it flushes iff the timer fires |
| ProcessBuffer.QueueProcessBuffer.Receive | process_buffer.hpp:111-121 | the NIC is asked, once, iff the buffer is exhausted; the packet is the next one buffered, or else the first of that burst, or None iff the burst is empty; packets come back in the order the NIC delivered them, none lost or twice |
| ProcessBuffer.QueueProcessBuffer.Refill | process_buffer.hpp:113-117 | the NIC is asked once, and what it has, up to a buffer, replaces the exhausted batch |
| ProcessBuffer.QueueProcessBuffer.Send | process_buffer.hpp:140-147 | the packet joins the end of what is sent, and a flush is attempted iff the buffer was about to fill |

## Left out

- Progress.NeverStuck: says that a loss-free continuation exists, not that the hosts' and the network's scheduling will take it.
- ProtocolTheorems.OneMulticastEach: counts requests for a multicast; the recirculated packet itself may be lost.
- Window.SendWindow.ShiftSend: requires that an empty window has one group ahead of it, which `worker.cpp:208-209` calls a
  barrier; `Generator.StaysInGroupIff` is the exact condition.
- Window.SendWindow.RxProcessOne: requires that a response is less than 2^32 packets old.
- Controller.INCServicer.CreateGroup: for more than 32 members the mask is cut to 32 bits; what the table interface does with
  a wider one is not modelled, and the data plane's theorems are about groups of at most 32.
- ProtocolTheorems.RunInv: and all theorems on runs assume that no host came to a slot used less than two windows before;
  `Wrap.ApartIff` says when no host ever does, `Wrap.BelowWrap` that none does below 2^32, and `WrapRuns.AgreementIff` that
  they fail otherwise.
- Starts.NeverTogether: members that start so far apart that the 24 psn bits of the version repeat between them.
- Isolation.StrayOnLane: late packets of an earlier life of the same group id, whose versions may be those of the new one.
- JoinProgress.EveryRequestAnswered: says that the threads can answer everything, not that their scheduling will let them.
- Exceptions from the switch's table interface, the RPC transport, and the printing and evaluation of command strings;
  undo entries are a datatype of inverse actions, and the calls are atomic because the server has one worker thread.
- The header file of the worker is not part of this model; ring size and limits are parameters.
- Congestion control, timeouts, congestion marking and the random number generator: the congestion window and the number of
  packets per burst are arbitrary arguments, and a host may send again whenever the protocol allows it.
- Checksums, ethernet addresses other than the destination's, byte order, and the loop that spreads a payload over a buffer.
- Memory management of packets and sub-operations, shared memory, thread start and argument parsing.
- The older `process_buffer_copy.hpp`, the reflector, and the overflow and device tests.
- Operations other than allreduce, reduce and broadcast; the switch knows no others.
