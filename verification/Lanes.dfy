/**
 * From the controller to the wire: the slot ranges that groups and workers get, and the switch pipeline working on
 * one such range as the protocol's steps say, without touching any other.
 */
module Lanes {
  import Arith
  import opened Bitmap
  import opened DataPlane
  import opened Collectives
  import opened Groups
  import opened Controller
  import opened Switch
  import opened Protocol
  import opened ProtocolSafety
  import opened ProtocolTheorems
  import opened Wrap
  import LoadBalancer
  import opened Sequences

  /** One worker's share of a live group's slots. */
  datatype Lane = Lane(id: nat, workers: nat, i: nat)

  function LaneLen(workers: nat): nat
    requires workers > 0
  {
    AGG_LEN / workers
  }

  function LaneStart(g: Group, workers: nat, i: nat): nat
    requires workers > 0
  {
    g.addr / MTU_SIZE + LaneLen(workers) * i
  }

  predicate InLane(g: Group, workers: nat, i: nat, x: int)
    requires workers > 0
  {
    LaneStart(g, workers, i) <= x < LaneStart(g, workers, i) + LaneLen(workers)
  }

  lemma {:induction false} LaneInGroup(g: Group, workers: nat, i: nat)
    requires i < workers
    ensures g.addr / MTU_SIZE <= LaneStart(g, workers, i)
    ensures LaneStart(g, workers, i) + LaneLen(workers) <= g.addr / MTU_SIZE + AGG_LEN
  {
    var len := LaneLen(workers);
    Arith.DivMod(AGG_LEN, workers);
    Arith.MulMinus(workers, i, len);
    Arith.MulAtLeast(workers - i, len);
  }

  /** A slot of an aligned block lies, byte for byte, in that block. */
  lemma {:induction false} SlotBytes(addr: nat, x: int)
    requires addr % ALLOC_SIZE == 0 && addr / MTU_SIZE <= x < addr / MTU_SIZE + AGG_LEN
    ensures addr <= x * MTU_SIZE < addr + ALLOC_SIZE
  {
  }

  lemma {:induction false} SameShare(len: nat, i: nat, j: nat, y: int)
    requires len * i <= y < len * i + len && len * j <= y < len * j + len
    ensures i == j
  {
    Arith.MulMinus(i, j, len);
    if i > j {
      Arith.MulAtLeast(i - j, len);
    } else if i < j {
      Arith.MulMinus(j, i, len);
      Arith.MulAtLeast(j - i, len);
    }
  }

  /** No slot belongs to two lanes, whatever worker counts two groups have, and every lane is within the registers. */
  lemma {:induction false} LanesDisjoint(topo: Topology, server: Server, a: Lane, b: Lane, x: int)
    requires Sound(topo, server) && a.id in server.live && b.id in server.live && a.i < a.workers && b.i < b.workers
    requires a.id == b.id ==> a.workers == b.workers
    requires InLane(server.live[a.id], a.workers, a.i, x) && InLane(server.live[b.id], b.workers, b.i, x)
    ensures a == b && 0 <= x < REGISTER_LEN
  {
    hide GroupsOk, NodesOk, PortsOk, TablesOk, LaneStart, LaneLen;
    var ga, gb := server.live[a.id], server.live[b.id];
    LaneInGroup(ga, a.workers, a.i);
    LaneInGroup(gb, b.workers, b.i);
    SlotBytes(ga.addr, x);
    SlotBytes(gb.addr, x);
    assert x * MTU_SIZE in Block(ga) && x * MTU_SIZE in Block(gb);
    assert a.id == b.id;
    SameLane(ga, a.workers, a.i, b.i, x);
  }

  lemma {:induction false} SameLane(g: Group, workers: nat, i: nat, j: nat, x: int)
    requires i < workers && j < workers && InLane(g, workers, i, x) && InLane(g, workers, j, x)
    ensures i == j
  {
    SameShare(LaneLen(workers), i, j, x - g.addr / MTU_SIZE);
  }

  /** The slots that the load balancer gives worker `i` of an operation are worker `i`'s lane of its group. */
  lemma {:induction false} SharesAreLanes(op: LoadBalancer.Op, g: Group, workers: nat, i: nat)
    requires i < workers && g.addr + ALLOC_SIZE <= SWITCH_MEM_SIZE
    requires op.aggAddr == g.addr / MTU_SIZE && op.aggLen == AGG_LEN
    ensures LoadBalancer.SubOpOf(op, workers, i).aggAddr == LaneStart(g, workers, i)
    ensures LoadBalancer.SubOpOf(op, workers, i).aggLen == LaneLen(workers)
  {
    hide LoadBalancer.Boundary;
    LoadBalancer.Shares(op, workers, i);
  }

  // ----- which worker counts survive the wrap of the 32-bit psn

  /** With up to 32 workers a lane survives the wrap if and only if the worker count divides the group's slots evenly. */
  lemma {:induction false} WorkersFitIff(c: Config, workers: nat)
    requires Protocol.Valid(c) && 1 <= workers <= 32 && c.len == LaneLen(workers) && c.win == c.len / 2
    ensures FitsWrap(c, 2 * c.win) <==> AGG_LEN % workers == 0
  {
    FewLanes();
    MoreLanes();
    OneOfThem(if workers <= 16 then 1 else 17, if workers <= 16 then 16 else 32, AGG_LEN, workers);
  }

  /** With three workers, the first psn after the wrap takes the slot of one that is only four older. */
  lemma {:induction false} ThreeWorkersWrap(c: Config)
    requires Protocol.Valid(c) && c.len == LaneLen(3) && c.win == c.len / 2
    ensures c.len == 341 && Index(c, PSN_WRAP) == Index(c, PSN_WRAP - 4) && Tag(c, PSN_WRAP) != Tag(c, PSN_WRAP - 4)
    ensures !NeverShare(c, c.win)
  {
    hide Index, Tag, NeverShare;
    Arith.Remainder(PSN_WRAP, 12595212, 4, 341);
    TagsDiffer(c, PSN_WRAP - 4, PSN_WRAP);
    NeverShareIff(c, c.win);
    SharedAtWrap(c, 1);
  }

  /** With six, no window has two packets of one slot, but two neighbouring windows do. */
  lemma {:induction false} SixWorkersWrap(c: Config)
    requires Protocol.Valid(c) && c.len == LaneLen(6) && c.win == c.len / 2
    ensures NeverShare(c, c.win) && !NeverShare(c, 2 * c.win)
  {
    hide Index, NeverShare;
    Arith.Remainder(PSN_WRAP, 25264513, 86, 170);
    NeverShareIff(c, c.win);
    NeverShareIff(c, 2 * c.win);
  }

  // ----- a new group's lanes

  ghost function LaneSlots(ingress: Ingress, start: nat, len: nat): (slots: seq<Slot>)
    requires ingress.Valid() && start + len <= ingress.regBitmap.Length
    reads ingress, ingress.regBitmap, ingress.aggregators
    ensures |slots| == len && forall k | 0 <= k < len :: slots[k] == ingress.SlotAt(start + k)
  {
    seq(len, k requires 0 <= k < len reads ingress, ingress.regBitmap, ingress.aggregators => ingress.SlotAt(start + k))
  }

  /** `c` describes what the members of `g`, live as `id`, run on the lane. */
  predicate RunsOn(c: Config, lane: Lane, g: Group) {
    && Protocol.Valid(c) && lane.i < lane.workers
    && c.group == lane.id && c.size == |g.members| && c.len == LaneLen(lane.workers)
  }

  /**
   * The slots that CreateGroup reset are a start of the protocol for each worker, whatever the aggregators hold: the
   * first packet of any version and rank overwrites them.
   */
  lemma {:induction false} FreshLane(ingress: Ingress, c: Config, lane: Lane, g: Group, data: Source, tag: nat, rank: nat)
    requires ingress.Valid() && RunsOn(c, lane, g) && g.addr / MTU_SIZE + AGG_LEN <= ingress.regBitmap.Length
    requires forall x | g.addr / MTU_SIZE <= x < g.addr / MTU_SIZE + AGG_LEN :: ingress.regBitmap[x] == BitmapPair(0, 0)
    ensures LaneStart(g, lane.workers, lane.i) + c.len <= ingress.regBitmap.Length
    ensures var slots := LaneSlots(ingress, LaneStart(g, lane.workers, lane.i), c.len);
            && Initial(c, Net(seq(c.size, h => Host(c.base, c.base, map[])), seq(c.size, h => []), slots, [], {}))
            && forall k | 0 <= k < c.len :: Holds(Absorb(slots[k], tag, rank, data(tag, rank)), data, tag, [rank])
  {
    hide Absorb, Holds, LaneStart, LaneLen;
    LaneInGroup(g, lane.workers, lane.i);
    MembersEmpty(0);
    var slots := LaneSlots(ingress, LaneStart(g, lane.workers, lane.i), c.len);
    forall k | 0 <= k < c.len
      ensures slots[k].version == 0 && slots[k].members == {}
      ensures Holds(Absorb(slots[k], tag, rank, data(tag, rank)), data, tag, [rank])
    {
      AbsorbFresh(slots[k], data, tag, rank);
    }
  }

  // ----- the pipeline takes the protocol's steps

  /** The lane that begins at `start` holds the slots of the protocol state `net`. */
  ghost predicate ShowsSlots(ingress: Ingress, c: Config, start: nat, net: Net)
    reads ingress, ingress.regBitmap, ingress.aggregators
  {
    && ingress.Valid() && Shape(c, net)
    && start + c.len <= ingress.regBitmap.Length && net.slots == LaneSlots(ingress, start, c.len)
  }

  /** Ingress knows the group's mask and recirculation port. */
  ghost predicate Knows(ingress: Ingress, c: Config, port: nat)
    reads ingress
  {
    && c.group in ingress.metadataTable && ingress.metadataTable[c.group] == GroupMask(c.size)
    && c.group in ingress.recirculateTable && ingress.recirculateTable[c.group] == port
  }

  /** The controller has told ingress about every live group. */
  lemma {:induction false} LiveIsKnown(ctl: INCServicer, lane: Lane, c: Config)
    requires ctl.Valid() && lane.id in ctl.live && RunsOn(c, lane, ctl.live[lane.id])
    ensures ctl.live[lane.id].port < |ctl.topo.recirPorts|
    ensures Knows(ctl.ingress, c, ctl.topo.recirPorts[ctl.live[lane.id].port])
  {
    hide GroupsOk, NodesOk, MemoryOk, PortsOk, RestoreOk, NodeTableOk, UndoLog, GroupMask;
  }

  /** The header fields that name a packet of the lane. */
  predicate Names(c: Config, start: nat, rank: nat, psn: nat, hdr: Headers)
    requires Protocol.Valid(c)
  {
    && hdr.isNetccl && hdr.coll == c.coll(psn) && hdr.groupId == c.group && hdr.rank == rank
    && hdr.psn == psn % PSN_WRAP && hdr.aggAddr == start + Index(c, psn)
  }

  /** What `fill_pkt` puts on the wire: with a payload only if the collective wants one of this rank. */
  predicate Sent(c: Config, start: nat, rank: nat, psn: nat, raw: Headers)
    requires Protocol.Valid(c)
  {
    && Names(c, start, rank, psn, raw)
    && if NeedTx(c.coll(psn), rank) then raw.length == FULL_LENGTH && raw.payload == Some(c.buffer(psn, rank))
       else raw.length == HEADER_LENGTH
  }

  /** A recirculated packet that waits for its second pass as `w` says. */
  predicate InFlight(c: Config, start: nat, w: Waiting, hdr: Headers)
    requires Protocol.Valid(c)
  {
    && Names(c, start, w.rank, w.psn, hdr) && hdr.passCnt == 2
    && hdr.payload == Some(w.payload) && hdr.enableMulticast == w.multicast
  }

  lemma {:induction false} TagOfWire(group: nat, psn: nat)
    ensures VersionOf(group, psn % PSN_WRAP) == VersionOf(group, psn)
  {
  }

  /** The slot a first pass finds holds members of the group only. */
  lemma {:induction false} FoundInGroup(c: Config, net: Net, log: Log, h: nat)
    requires Reached(c, net, log) && Enabled(c, net, FirstPass(h))
    ensures var psn := net.links[h][0]; Found(net.slots[Index(c, psn)], Tag(c, psn)) <= Ranks(c.size)
  {
    hide Holds, Folded;
    ReachedInv(c, net, log);
    var i := Index(c, net.links[h][0]);
    assert SlotOk(c, net.slots[i], log, i);
    MembersInGroup(c, net.slots[i], log, i);
  }

  lemma {:induction false} MembersInGroup(c: Config, slot: Slot, log: Log, i: nat)
    requires Protocol.Valid(c) && LogShape(c, log) && i < c.len && SlotOk(c, slot, log, i)
    ensures slot.members <= Ranks(c.size)
  {
    hide Folded;
    if log.at[i] >= 0 {
      var psn: nat := log.at[i];
      assert slot.members == ToSet(log.order[psn]);
    }
  }

  /** Only the slot at `addr` changed. */
  twostate predicate OnlySlot(ingress: Ingress, addr: nat)
    requires ingress.Valid()
    reads ingress, ingress.regBitmap, ingress.aggregators
  {
    forall x | 0 <= x < ingress.regBitmap.Length && x != addr :: ingress.SlotAt(x) == old(ingress.SlotAt(x))
  }

  /** The head of `h`'s link, as the parser hands it to ingress. */
  predicate HeadPacket(c: Config, start: nat, net: Net, h: nat, hdr: Headers)
    requires Protocol.Valid(c) && Shape(c, net) && Enabled(c, net, FirstPass(h))
  {
    var psn := net.links[h][0];
    && Names(c, start, h, psn, hdr) && hdr.passCnt == 1 && !hdr.enableMulticast
    && hdr.payload == Some(Data(c, psn, h)) && Version(hdr) == Tag(c, psn)
  }

  lemma {:induction false} ParsedPacket(c: Config, start: nat, net: Net, h: nat, raw: Headers)
    requires Protocol.Valid(c) && Shape(c, net) && Enabled(c, net, FirstPass(h)) && Sent(c, start, h, net.links[h][0], raw)
    ensures HeadPacket(c, start, net, h, ParseExternal(raw))
    ensures ParseExternal(raw).aggAddr == raw.aggAddr
  {
    TagOfWire(c.group, net.links[h][0]);
  }

  lemma {:induction false} HeadFound(c: Config, start: nat, net: Net, log: Log, h: nat, hdr: Headers)
    requires Reached(c, net, log) && Enabled(c, net, FirstPass(h)) && HeadPacket(c, start, net, h, hdr)
    ensures start <= hdr.aggAddr < start + c.len && hdr.groupId == c.group
    ensures Found(net.slots[hdr.aggAddr - start], Version(hdr)) <= Ranks(c.size)
  {
    hide Found;
    assert Protocol.Valid(c) && Shape(c, net);
    hide Reached;
    FoundInGroup(c, net, log, h);
    Arith.DivMod(net.links[h][0] % PSN_WRAP, c.len);
  }

  /** What the protocol's step puts in the recirculation queue is what ingress sends to the port. */
  predicate Queued(c: Config, start: nat, net: Net, h: nat, port: nat, forwarding: Forwarding, out: Headers)
    requires Protocol.Valid(c) && Shape(c, net) && Enabled(c, net, FirstPass(h))
  {
    var queue := OnFirstPass(c, net, h).queue;
    if forwarding == Dropped then queue == net.queue
    else
      && forwarding == Unicast(port)
      && |queue| == |net.queue| + 1 && queue[..|net.queue|] == net.queue
      && InFlight(c, start, queue[|net.queue|], out)
  }

  /** Ingress on the head of a link: the lane's slots and the verdict are the protocol step's. */
  method IngressOnLane(ingress: Ingress, ghost c: Config, ghost start: nat, ghost net: Net, ghost h: nat, hdr: Headers)
    returns (out: Headers, forwarding: Forwarding)
    requires Protocol.Valid(c) && ShowsSlots(ingress, c, start, net) && Enabled(c, net, FirstPass(h))
    requires HeadPacket(c, start, net, h, hdr)
    requires Found(net.slots[hdr.aggAddr - start], Version(hdr)) <= Ranks(c.size)
    requires exists port :: Knows(ingress, c, port)
    modifies ingress.regBitmap, ingress.aggregators
    ensures OnlySlot(ingress, hdr.aggAddr)
    ensures ShowsSlots(ingress, c, start, OnFirstPass(c, net, h))
    ensures Carries(Decide(c.size, net.slots[hdr.aggAddr - start], Version(hdr), h, hdr.payload.value),
                    ingress.recirculateTable, hdr, out, forwarding)
  {
    hide Absorb, Decide, Found, GroupMask, Data, Tag, Carries, LaneSlots, VersionOf;
    ghost var i := hdr.aggAddr - start;
    out, forwarding := ingress.Apply(hdr);
    ghost var target := net.slots[i := ingress.SlotAt(hdr.aggAddr)];
    forall k | 0 <= k < c.len
      ensures LaneSlots(ingress, start, c.len)[k] == target[k]
    {
      assert k != i ==> ingress.SlotAt(start + k) == old(ingress.SlotAt(start + k));
    }
    assert LaneSlots(ingress, start, c.len) == target;
  }

  lemma {:induction false} QueuedOut(c: Config, start: nat, net: Net, h: nat, hdr: Headers, table: map<nat, nat>,
                                     applied: Headers, forwarding: Forwarding, out: Headers)
    requires Protocol.Valid(c) && Shape(c, net) && Enabled(c, net, FirstPass(h)) && HeadPacket(c, start, net, h, hdr)
    requires Carries(Decide(c.size, net.slots[hdr.aggAddr - start], Version(hdr), h, hdr.payload.value),
                     table, hdr, applied, forwarding)
    requires hdr.groupId in table
    requires forwarding != Dropped ==> out == applied.(passCnt := applied.passCnt + 1)
    ensures Queued(c, start, net, h, table[hdr.groupId], forwarding, out)
  {
    hide Absorb, Decide, Data, Tag;
  }

  /**
   * A packet from `h` at the head of its link, through parser, ingress and, if it is recirculated, egress: the
   * lane's slots and the recirculation queue change as the protocol's step says, and no other slot does.
   */
  method FirstPassOnLane(ingress: Ingress, egress: Egress, ghost port: nat, ghost c: Config, ghost start: nat, ghost net: Net,
                         ghost log: Log, ghost h: nat, raw: Headers)
    returns (out: Headers, forwarding: Forwarding)
    requires Reached(c, net, log) && Enabled(c, net, FirstPass(h))
    requires ShowsSlots(ingress, c, start, net) && Knows(ingress, c, port)
    requires Sent(c, start, h, net.links[h][0], raw)
    modifies ingress.regBitmap, ingress.aggregators
    ensures start <= raw.aggAddr < start + c.len && OnlySlot(ingress, raw.aggAddr)
    ensures ShowsSlots(ingress, c, start, OnFirstPass(c, net, h))
    ensures Queued(c, start, net, h, port, forwarding, out)
  {
    hide Absorb, Decide, Found, GroupMask, LaneSlots, Sent, HeadPacket, Version, Queued, Carries, OnlySlot, OnFirstPass;
    assert Protocol.Valid(c) && Shape(c, net);
    hide Reached;
    var hdr := ParseExternal(raw);
    ParsedPacket(c, start, net, h, raw);
    HeadFound(c, start, net, log, h, hdr);
    var applied;
    applied, forwarding := IngressOnLane(ingress, c, start, net, h, hdr);
    out := applied;
    if forwarding != Dropped {
      Recirculated(c, start, net, h, hdr, ingress.recirculateTable, applied, forwarding);
      var internal;
      out, internal := egress.Apply(applied, 0);
    }
    QueuedOut(c, start, net, h, hdr, ingress.recirculateTable, applied, forwarding, out);
  }

  lemma {:induction false} Recirculated(c: Config, start: nat, net: Net, h: nat, hdr: Headers, table: map<nat, nat>,
                                        applied: Headers, forwarding: Forwarding)
    requires Protocol.Valid(c) && Shape(c, net) && Enabled(c, net, FirstPass(h)) && HeadPacket(c, start, net, h, hdr)
    requires forwarding != Dropped
    requires Carries(Decide(c.size, net.slots[hdr.aggAddr - start], Version(hdr), h, hdr.payload.value),
                     table, hdr, applied, forwarding)
    ensures applied.isNetccl && applied.passCnt == 1 && applied.payload.Some?
  {
    hide Absorb, Decide, Data, Tag;
  }

  // ----- second pass

  /** The replication engine's groups and nodes. */
  datatype Replication = Replication(mgid: map<nat, seq<nat>>, node: map<nat, (nat, nat)>)

  /** The copies it makes for group `id`: replication id and port of each. */
  function Copies(engine: Replication, id: nat): seq<(nat, nat)>
    requires id in engine.mgid && forall n | n in engine.mgid[id] :: n in engine.node
  {
    seq(|engine.mgid[id]|, i requires 0 <= i < |engine.mgid[id]| => engine.node[engine.mgid[id][i]])
  }

  /** What the traffic manager sends to egress; a group without an entry has no copies. */
  function Deliveries(engine: Replication, forwarding: Forwarding): seq<(nat, nat)> {
    match forwarding
    case Dropped => []
    case Unicast(port) => [(0, port)]
    case Multicast(id) =>
      if id in engine.mgid && forall n | n in engine.mgid[id] :: n in engine.node then Copies(engine, id) else []
  }

  /** Copy `i` has replication id `i` and member `i`'s port, or 511 if the topology has none. */
  predicate OnePerMember(copies: seq<(nat, nat)>, topo: Topology, members: seq<nat>) {
    && |copies| == |members|
    && forall i | 0 <= i < |members| ::
         copies[i] == (i, if members[i] in topo.ports then topo.ports[members[i]] else 511)
  }

  /** Egress knows the address of every member. */
  ghost predicate Restores(egress: Egress, id: nat, switchIp: nat, members: seq<nat>)
    reads egress
  {
    forall r | 0 <= r < |members| ::
      (id, r) in egress.restoreTable && egress.restoreTable[(id, r)] == (switchIp, members[r])
  }

  /** Where an engine has a copy for each member, a multicast is delivered so. */
  lemma {:induction false} DeliversCopies(topo: Topology, engine: Replication, id: nat, members: seq<nat>)
    requires CopyForEach(topo, engine.mgid, engine.node, id, members)
    ensures OnePerMember(Deliveries(engine, Multicast(id)), topo, members)
  {
    forall n | n in engine.mgid[id]
      ensures n in engine.node
    {
      var i :| 0 <= i < |engine.mgid[id]| && engine.mgid[id][i] == n;
      assert 0 <= i < |members|;
    }
  }

  /** A multicast to a live group makes one copy per member, each for the port of its member. */
  lemma {:induction false} CopiesOfGroup(topo: Topology, s: State, live: map<nat, Group>, id: nat)
    requires Conserved(topo, s, live) && id in live
    ensures CopyForEach(topo, s.mgid, s.node, id, live[id].members)
    ensures var copies, members := Deliveries(Replication(s.mgid, s.node), Multicast(id)), live[id].members;
            && |copies| == |members|
            && forall i | 0 <= i < |members| ::
                 copies[i].0 == i && copies[i].1 == if members[i] in topo.ports then topo.ports[members[i]] else 511
  {
    hide Conserved, Deliveries;
    LiveCopies(topo, s, live, id);
    DeliversCopies(topo, Replication(s.mgid, s.node), id, live[id].members);
  }

  /** The controller has told egress every live member's address. */
  lemma {:induction false} LiveIsRestored(ctl: INCServicer, id: nat)
    requires ctl.Valid() && id in ctl.live
    ensures Restores(ctl.egress, id, ctl.topo.switchIp, ctl.live[id].members)
  {
    hide GroupsOk, NodesOk, MemoryOk, PortsOk, GroupTablesOk, NodeTableOk, UndoLog;
  }

  /** The result of `w` as `rank` gets it. */
  predicate ResultFor(c: Config, w: Waiting, words: Payload, switchIp: nat, members: seq<nat>, rank: nat, result: Headers) {
    && rank < |members|
    && result.rank == rank && result.groupId == c.group && result.psn == w.psn % PSN_WRAP
    && result.sip == switchIp && result.dip == members[rank]
    && result.payload == Strip(c.coll(w.psn), rank, words)
  }

  /** Results with the ports they leave by: one per receiver, in rank order, or all for the one that asked. */
  predicate Results(c: Config, w: Waiting, words: Payload, topo: Topology, members: seq<nat>, results: seq<(Headers, nat)>) {
    if w.multicast then
      |results| == c.size == |members|
      && forall r | 0 <= r < c.size ::
           ResultFor(c, w, words, topo.switchIp, members, r, results[r].0)
           && results[r].1 == if members[r] in topo.ports then topo.ports[members[r]] else 511
    else forall i | 0 <= i < |results| :: ResultFor(c, w, words, topo.switchIp, members, w.rank, results[i].0)
  }

  /** The messages that the results are. */
  function Messages(psn: nat, results: seq<(Headers, nat)>): set<Message> {
    set i | 0 <= i < |results| :: Message(results[i].0.rank, psn, results[i].0.payload)
  }

  /** The results that egress sends are the messages of the protocol's step. */
  lemma {:induction false} ResultsAreSent(c: Config, net: Net, words: Payload, topo: Topology, members: seq<nat>,
                                          results: seq<(Headers, nat)>)
    requires Protocol.Valid(c) && Shape(c, net) && Enabled(c, net, SecondPass)
    requires words == ReadOdd(net.slots[Index(c, net.queue[0].psn)].row, net.queue[0].payload)
    requires Results(c, net.queue[0], words, topo, members, results) && results != []
    ensures OnSecondPass(c, net).sent == net.sent + Messages(net.queue[0].psn, results)
  {
    hide ReadOdd, Strip, Index;
    var w := net.queue[0];
    var new_ := Messages(w.psn, results);
    var wanted := set r | r in Receivers(c, w) :: Message(r, w.psn, Strip(c.coll(w.psn), r, words));
    forall m | m in wanted
      ensures m in new_
    {
      var r :| r in Receivers(c, w) && m == Message(r, w.psn, Strip(c.coll(w.psn), r, words));
      assert ResultFor(c, w, words, topo.switchIp, members, r, results[if w.multicast then r else 0].0);
    }
    forall m | m in new_
      ensures m in wanted
    {
      var i :| 0 <= i < |results| && m == Message(results[i].0.rank, w.psn, results[i].0.payload);
      assert ResultFor(c, w, words, topo.switchIp, members, if w.multicast then i else w.rank, results[i].0);
    }
    assert new_ == wanted;
  }

  /** What the traffic manager makes of the three kinds of entries. */
  lemma {:induction false} Delivered(engine: Replication, entry: Forwarding, results: seq<(Headers, nat)>)
    requires |results| == |Deliveries(engine, entry)|
    requires forall i | 0 <= i < |results| :: results[i].1 == Deliveries(engine, entry)[i].1
    ensures LeavesBy(engine, entry, results)
  {
  }

  /** Egress on everything the traffic manager delivers. */
  method EgressAll(egress: Egress, hdr: Headers, copies: seq<(nat, nat)>, ghost c: Config, ghost start: nat, ghost w: Waiting,
                   ghost words: Payload, ghost topo: Topology, ghost members: seq<nat>)
    returns (results: seq<(Headers, nat)>)
    requires Protocol.Valid(c) && |members| == c.size && w.rank < c.size
    requires Names(c, start, w.rank, w.psn, hdr) && hdr.passCnt == 2 && hdr.enableMulticast == w.multicast
    requires hdr.payload == Some(words)
    requires w.multicast ==> OnePerMember(copies, topo, members)
    requires Restores(egress, c.group, topo.switchIp, members)
    ensures |results| == |copies| && forall i | 0 <= i < |copies| :: results[i].1 == copies[i].1
    ensures Results(c, w, words, topo, members, results)
  {
    hide Index, Strip;
    results := [];
    for i := 0 to |copies|
      invariant |results| == i
      invariant forall r | 0 <= r < i :: results[r].1 == copies[r].1
      invariant forall r | 0 <= r < i ::
                  ResultFor(c, w, words, topo.switchIp, members, if w.multicast then r else w.rank, results[r].0)
    {
      var result, internal := egress.Apply(hdr, copies[i].0);
      results := results + [(result, copies[i].1)];
    }
  }

  /** The results leave as a forwarding entry says: once by its port, not at all, or by the ports of its group's nodes. */
  predicate LeavesBy(engine: Replication, entry: Forwarding, results: seq<(Headers, nat)>) {
    match entry
    case Unicast(port) => |results| == 1 && results[0].1 == port
    case Dropped => results == []
    case Multicast(id) =>
      if id in engine.mgid && forall n | n in engine.mgid[id] :: n in engine.node then
        && |results| == |engine.mgid[id]|
        && forall i | 0 <= i < |results| :: results[i].1 == engine.node[engine.mgid[id][i]].1
      else results == []
  }

  /** The protocol's step for what left: its second pass, or the loss of the packet if nothing did. */
  function AfterSecondPass(c: Config, net: Net, lost: bool): Net
    requires Protocol.Valid(c) && Shape(c, net) && Enabled(c, net, SecondPass)
  {
    if lost then Step(c, net, LoseInQueue(0)) else Step(c, net, SecondPass)
  }

  /**
   * The packet at the head of the recirculation queue, through ingress, traffic manager and egress: no register
   * changes, and what leaves is the protocol step's, each result with its receiver's rank and address. A multicast goes
   * to every member's port; a unicast goes where the forwarding table sends its sender, and is lost if it has no entry.
   */
  method SecondPassOnLane(ingress: Ingress, egress: Egress, engine: Replication, ghost c: Config, ghost start: nat,
                          ghost net: Net, ghost log: Log, ghost topo: Topology, ghost members: seq<nat>, hdr: Headers)
    returns (results: seq<(Headers, nat)>)
    requires Reached(c, net, log) && Enabled(c, net, SecondPass)
    requires ShowsSlots(ingress, c, start, net) && InFlight(c, start, net.queue[0], hdr)
    requires |members| == c.size && Restores(egress, c.group, topo.switchIp, members)
    requires CopyForEach(topo, engine.mgid, engine.node, c.group, members)
    modifies ingress.regBitmap, ingress.aggregators
    ensures ingress.UnchangedBut(ingress.regBitmap.Length)
    ensures ShowsSlots(ingress, c, start, AfterSecondPass(c, net, results == []))
    ensures AfterSecondPass(c, net, results == []).sent == net.sent + Messages(net.queue[0].psn, results)
    ensures Results(c, net.queue[0], ReadOdd(net.slots[Index(c, net.queue[0].psn)].row, net.queue[0].payload),
                    topo, members, results)
    ensures results != [] ==> ShowsSlots(ingress, c, start, OnSecondPass(c, net))
    // A multicast leaves once by every member's port.
    ensures net.queue[0].multicast ==>
              && |results| == |members|
              && forall i | 0 <= i < |members| ::
                   results[i].1 == if members[i] in topo.ports then topo.ports[members[i]] else 511
    // An answer leaves once by the port that the forwarding table has for its sender.
    ensures !net.queue[0].multicast ==>
              if hdr.smac in ingress.forwardTable then
                && LeavesBy(engine, ingress.forwardTable[hdr.smac], results)
                && (ingress.forwardTable[hdr.smac].Unicast? ==>
                      |results| == 1 && results[0].1 == ingress.forwardTable[hdr.smac].port)
              else results == []
  {
    DeliversCopies(topo, engine, c.group, members);
    hide ReadOdd, Results, Restores, LaneSlots, Deliveries, OnePerMember, CopyForEach;
    WaiterRank(c, net, log);
    hide Reached;
    ghost var w := net.queue[0];
    Arith.DivMod(w.psn % PSN_WRAP, c.len);
    ghost var words := ReadOdd(net.slots[Index(c, w.psn)].row, w.payload);
    var out, forwarding := ingress.Apply(hdr);
    forall k | 0 <= k < c.len
      ensures LaneSlots(ingress, start, c.len)[k] == net.slots[k]
    {
      assert ingress.RowAt(start + k) == old(ingress.RowAt(start + k));
    }
    assert LaneSlots(ingress, start, c.len) == net.slots;
    results := EgressAll(egress, out, Deliveries(engine, forwarding), c, start, w, words, topo, members);
    Delivered(engine, forwarding, results);
    if results == [] {
      assert Messages(w.psn, results) == {};
    } else {
      ResultsAreSent(c, net, words, topo, members, results);
    }
  }

  lemma {:induction false} WaiterRank(c: Config, net: Net, log: Log)
    requires Reached(c, net, log) && Enabled(c, net, SecondPass)
    ensures net.queue[0].rank < c.size
  {
    hide Reached, Inv;
    ReachedInv(c, net, log);
    Front(c, net, log);
  }
}
