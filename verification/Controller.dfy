/** The controller's RPC handlers: lists, counters, the undo log and the switch tables, edited in place. */
module Controller {
  import Arith
  import opened Bitmap
  import opened Capacity
  import opened FreeList
  import opened Groups
  import opened Switch
  import opened Sequences

  const AGG_LEN: nat := ALLOC_SIZE / MTU_SIZE
  const REGISTER_LEN: nat := SWITCH_MEM_SIZE / MTU_SIZE

  /** `CreateGroupResponse`; id 0 is the null group. */
  datatype Response = Response(groupId: nat, aggAddr: nat, aggLen: nat, members: nat)

  // ----- the calls as functions

  function UpTo(n: nat): seq<nat> {
    if n <= 1 then [] else UpTo(n - 1) + [n - 1]
  }

  function Zeros(n: nat): seq<int> {
    if n == 0 then [] else Zeros(n - 1) + [0]
  }

  /** `reinit`: all ids and nodes free, all memory free, no port used, no entry left. */
  function Reset(topo: Topology, s: State): State {
    State(UpTo(MAX_GROUP_NUM), UpTo(MAX_WORKER_NUM), Zeros(|topo.recirPorts|), [Seg(0, SWITCH_MEM_SIZE)],
          map[], map[], map[],
          Drop(s.node, UpTo(MAX_WORKER_NUM)), Drop(s.mgid, UpTo(MAX_GROUP_NUM)))
  }

  function Drop<K, V>(m: map<K, V>, keys: seq<K>): map<K, V> {
    map k | k in m && k !in keys :: m[k]
  }

  /** `select_recir_port_idx`. */
  function SelectPort(counts: seq<int>): (i: nat)
    requires counts != []
    ensures LeastLoaded(counts, i)
  {
    var n := |counts| - 1;
    if n == 0 then 0
    else
      var i := SelectPort(counts[..n]);
      if counts[n] < counts[i] then n else i
  }

  datatype Call = Create(members: seq<nat>) | Destroy(id: nat) | Init

  /** The server's state with the groups it has live. */
  datatype Server = Server(s: State, live: map<nat, Group>)

  function NewGroup(s: State, members: seq<nat>): Group
    requires !NoResource(s, members) && s.recirPortCnt != []
  {
    Group(members, s.freeNode[..|members|], FirstFit(s.memseg, ALLOC_SIZE).addr, SelectPort(s.recirPortCnt))
  }

  ghost predicate Sound(topo: Topology, server: Server) {
    topo.recirPorts != [] && Conserved(topo, server.s, server.live)
  }

  /** One call. */
  ghost function Serve(topo: Topology, server: Server, call: Call): Server
    requires Sound(topo, server)
  {
    match call
    case Create(members) =>
      if NoResource(server.s, members) then server
      else
        var g := NewGroup(server.s, members);
        var id := server.s.freeGroup[0];
        Server(Created(topo, server.s, id, g, FirstFit(server.s.memseg, ALLOC_SIZE).index), server.live[id := g])
    case Destroy(id) =>
      if id !in server.live then server
      else
        DestroyKeeps(topo, server.s, server.live, id);
        Server(Replay(server.s, UndoLog(id, server.live[id])), server.live - {id})
    case Init => Server(Reset(topo, server.s), map[])
  }

  lemma {:induction false} UpToAll(n: nat)
    ensures Distinct(UpTo(n))
    ensures forall x: int :: x in UpTo(n) <==> 0 < x < n
    ensures |UpTo(n)| == (if n <= 1 then 0 else n - 1) && forall k | 0 <= k < |UpTo(n)| :: UpTo(n)[k] == k + 1
  {
    if n > 1 {
      UpToAll(n - 1);
      var front := UpTo(n - 1);
      assert UpTo(n) == front + [n - 1];
      assert n - 1 !in front;
    }
  }

  lemma {:induction false} ZerosAll(n: nat)
    ensures |Zeros(n)| == n && forall i | 0 <= i < n :: Zeros(n)[i] == 0
  {
    if n > 0 {
      ZerosAll(n - 1);
    }
  }

  lemma {:induction false} ResetMemory(topo: Topology, s: State)
    ensures MemoryOk(Reset(topo, s), map[])
  {
    hide UpTo, Zeros;
    var segs := [Seg(0, SWITCH_MEM_SIZE)];
    assert Reset(topo, s).memseg == segs;
    forall x | 0 <= x < SWITCH_MEM_SIZE
      ensures x in Bytes(segs)
    {
      assert Covers(segs[0], x);
    }
  }

  /** `reinit` establishes the conservation law with no group live. */
  lemma {:induction false} ResetConserved(topo: Topology, s: State)
    ensures Conserved(topo, Reset(topo, s), map[])
  {
    hide UpTo, Zeros;
    UpToAll(MAX_GROUP_NUM);
    UpToAll(MAX_WORKER_NUM);
    ZerosAll(|topo.recirPorts|);
    ResetMemory(topo, s);
    var none: map<nat, Group> := map[];
    forall i: nat ensures GroupsOn(none, i) == {} {
    }
  }

  lemma {:induction false} ResetSound(topo: Topology, s: State)
    requires topo.recirPorts != []
    ensures Sound(topo, Server(Reset(topo, s), map[]))
  {
    hide Conserved, Reset;
    ResetConserved(topo, s);
  }

  lemma {:induction false} ServeSound(topo: Topology, server: Server, call: Call)
    requires Sound(topo, server)
    ensures Sound(topo, Serve(topo, server, call))
  {
    hide Conserved, Created, Replay, UndoLog, Reset;
    match call
    case Create(members) =>
      if !NoResource(server.s, members) {
        assert server.s.recirPortCnt != [] by {
          PortsThere(topo, server);
        }
        CreateKeeps(topo, server.s, server.live, members, server.s.freeGroup[0], NewGroup(server.s, members),
                    FirstFit(server.s.memseg, ALLOC_SIZE).index);
      }
    case Destroy(id) =>
      if id in server.live {
        DestroyKeeps(topo, server.s, server.live, id);
      }
    case Init => ResetConserved(topo, server.s);
  }

  /** What serving a successful CreateGroup comes to. */
  lemma {:induction false} ServeCreate(topo: Topology, server: Server, members: seq<nat>)
    requires Sound(topo, server) && !NoResource(server.s, members)
    ensures |server.s.recirPortCnt| == |topo.recirPorts| > 0
    ensures var id, g := server.s.freeGroup[0], NewGroup(server.s, members);
            && id !in server.live && 0 < id < MAX_GROUP_NUM
            && Serve(topo, server, Create(members))
               == Server(Created(topo, server.s, id, g, FirstFit(server.s.memseg, ALLOC_SIZE).index), server.live[id := g])
  {
    hide NodesOk, MemoryOk, TablesOk, Created, FirstFit;
    assert server.s.freeGroup[0] in server.s.freeGroup;
  }

  lemma {:induction false} PortsThere(topo: Topology, server: Server)
    requires Sound(topo, server)
    ensures |server.s.recirPortCnt| == |topo.recirPorts| > 0
  {
  }

  lemma {:induction false} SoundAccepts(topo: Topology, server: Server, members: seq<nat>)
    requires Sound(topo, server)
    ensures !NoResource(server.s, members) <==> |server.live| < 16 && |members| <= |server.s.freeNode|
  {
    hide Conserved, NoResource;
    AcceptedIff(topo, server.s, server.live, members);
  }

  lemma {:induction false} SoundCopies(topo: Topology, server: Server, id: nat)
    requires Sound(topo, server) && id in server.live
    ensures CopyForEach(topo, server.s.mgid, server.s.node, id, server.live[id].members)
  {
    hide Conserved, CopyForEach;
    LiveCopies(topo, server.s, server.live, id);
  }

  /** After Init no group is live, and every id, node and byte is free. */
  lemma {:induction false} InitFreesAll(topo: Topology, server: Server)
    requires Sound(topo, server)
    ensures var after := Serve(topo, server, Init);
            && after.live == map[]
            && (forall id: nat :: id in after.s.freeGroup <==> 1 <= id <= 255)
            && (forall n: nat :: n in after.s.freeNode <==> 1 <= n <= 1023)
            && (forall x: int :: x in Bytes(after.s.memseg) <==> 0 <= x < SWITCH_MEM_SIZE)
            && after.s.recirculate == map[] && after.s.metadata == map[] && after.s.restore == map[]
  {
    hide Conserved;
    UpToAll(MAX_GROUP_NUM);
    UpToAll(MAX_WORKER_NUM);
    var segs := [Seg(0, SWITCH_MEM_SIZE)];
    forall x: int
      ensures x in Bytes(segs) <==> 0 <= x < SWITCH_MEM_SIZE
    {
      if 0 <= x < SWITCH_MEM_SIZE {
        assert Covers(segs[0], x);
      }
    }
  }

  /** Any sequence of calls, in order. */
  ghost function ServeAll(topo: Topology, server: Server, calls: seq<Call>): (after: Server)
    requires Sound(topo, server)
    ensures Sound(topo, after)
    decreases |calls|
  {
    if calls == [] then server
    else
      ServeSound(topo, server, calls[0]);
      ServeAll(topo, Serve(topo, server, calls[0]), calls[1..])
  }

  /** From any start, whatever is called after the first Init, nothing is leaked or handed out twice. */
  lemma {:induction false} ConservedAlways(topo: Topology, s: State, calls: seq<Call>)
    requires topo.recirPorts != []
    ensures Sound(topo, Server(Reset(topo, s), map[]))
    ensures var server := ServeAll(topo, Server(Reset(topo, s), map[]), calls);
            Conserved(topo, server.s, server.live)
  {
    hide Conserved, Reset, Serve;
    ResetConserved(topo, s);
    var server := ServeAll(topo, Server(Reset(topo, s), map[]), calls);
    assert Sound(topo, server);
  }

  /**
   * The live groups determine the resources: two histories that end with the same live groups leave the same free
   * bytes, the same free ids and nodes, the same port loads and the same table entries.
   */
  lemma {:induction false} LiveDetermines(topo: Topology, a: State, b: State, live: map<nat, Group>)
    requires Conserved(topo, a, live) && Conserved(topo, b, live)
    ensures Bytes(a.memseg) == Bytes(b.memseg)
    ensures forall id: nat :: id in a.freeGroup <==> id in b.freeGroup
    ensures forall n: nat :: n in a.freeNode <==> n in b.freeNode
    ensures a.recirPortCnt == b.recirPortCnt && a.recirculate == b.recirculate && a.metadata == b.metadata
    ensures a.restore == b.restore
    ensures forall n | 0 < n < MAX_WORKER_NUM :: (n in a.node <==> n in b.node) && (n in a.node ==> a.node[n] == b.node[n])
    ensures forall id | 0 < id < MAX_GROUP_NUM :: (id in a.mgid <==> id in b.mgid) && (id in a.mgid ==> a.mgid[id] == b.mgid[id])
  {
    hide GroupsOk, NodesOk, MemoryOk, PortsOk, GroupTablesOk, RestoreOk, NodeTableOk, Bytes;
    SameIds(a, b, live);
    SameNodes(a, b, live);
    SameMemory(a, b, live);
    SamePorts(topo, a, b, live);
    SameTables(topo, a, b, live);
    SameRestore(topo, a, b, live);
    SameMulticasts(topo, a, b, live);
    forall n | 0 < n < MAX_WORKER_NUM
      ensures (n in a.node <==> n in b.node) && (n in a.node ==> a.node[n] == b.node[n])
    {
      if n in a.node {
        NodeOfLive(topo, a, b, live, n);
      }
      if n in b.node {
        NodeOfLive(topo, b, a, live, n);
      }
    }
  }

  lemma {:induction false} SameMulticasts(topo: Topology, a: State, b: State, live: map<nat, Group>)
    requires GroupTablesOk(topo, a, live) && GroupTablesOk(topo, b, live)
    ensures forall id | 0 < id < MAX_GROUP_NUM :: (id in a.mgid <==> id in b.mgid) && (id in a.mgid ==> a.mgid[id] == b.mgid[id])
  {
    hide GroupMask;
  }

  /** Both states say of a replication node what the live group that owns it says. */
  lemma {:induction false} NodeOfLive(topo: Topology, a: State, b: State, live: map<nat, Group>, n: nat)
    requires Conserved(topo, a, live) && Conserved(topo, b, live) && 0 < n < MAX_WORKER_NUM && n in a.node
    ensures n in b.node && a.node[n] == b.node[n]
  {
    hide GroupsOk, MemoryOk, PortsOk, GroupTablesOk, RestoreOk, Distinct, IpToPort;
    assert Owned(live, n);
    var id :| id in live && n in live[id].nodes;
    var r :| 0 <= r < |live[id].nodes| && live[id].nodes[r] == n;
    assert |live[id].nodes| == |live[id].members|;
  }

  lemma {:induction false} SameIds(a: State, b: State, live: map<nat, Group>)
    requires GroupsOk(a, live) && GroupsOk(b, live)
    ensures forall id: nat :: id in a.freeGroup <==> id in b.freeGroup
  {
  }

  lemma {:induction false} SameNodes(a: State, b: State, live: map<nat, Group>)
    requires NodesOk(a, live) && NodesOk(b, live)
    ensures forall n: nat :: n in a.freeNode <==> n in b.freeNode
  {
    hide Owned;
  }

  lemma {:induction false} SameMemory(a: State, b: State, live: map<nat, Group>)
    requires MemoryOk(a, live) && MemoryOk(b, live)
    ensures Bytes(a.memseg) == Bytes(b.memseg)
  {
    SameFree(a.memseg, b.memseg, live);
  }

  lemma {:induction false} SamePorts(topo: Topology, a: State, b: State, live: map<nat, Group>)
    requires PortsOk(topo, a, live) && PortsOk(topo, b, live)
    ensures a.recirPortCnt == b.recirPortCnt
  {
    hide GroupsOn;
  }

  lemma {:induction false} SameTables(topo: Topology, a: State, b: State, live: map<nat, Group>)
    requires GroupTablesOk(topo, a, live) && GroupTablesOk(topo, b, live)
    ensures a.recirculate == b.recirculate && a.metadata == b.metadata
  {
    hide GroupMask;
    assert a.recirculate.Keys == b.recirculate.Keys && a.metadata.Keys == b.metadata.Keys;
  }

  lemma {:induction false} SameRestore(topo: Topology, a: State, b: State, live: map<nat, Group>)
    requires RestoreOk(topo, a, live) && RestoreOk(topo, b, live)
    ensures a.restore == b.restore
  {
    forall k | k in a.restore
      ensures k in b.restore && b.restore[k] == a.restore[k]
    {
      assert (k.0, k.1) in a.restore;
    }
    forall k | k in b.restore
      ensures k in a.restore
    {
      assert (k.0, k.1) in b.restore;
    }
  }

  lemma {:induction false} InRange(segs: seq<Seg>, limit: nat, x: int)
    requires Ordered(segs, limit) && x in Bytes(segs)
    ensures 0 <= x < limit
  {
    var i :| 0 <= i < |segs| && Covers(segs[i], x);
  }

  lemma {:induction false} SameFree(a: seq<Seg>, b: seq<Seg>, live: map<nat, Group>)
    requires Ordered(a, SWITCH_MEM_SIZE) && Ordered(b, SWITCH_MEM_SIZE)
    requires Partitioned(Bytes(a), live) && Partitioned(Bytes(b), live)
    ensures Bytes(a) == Bytes(b)
  {
    forall x
      ensures x in Bytes(a) <==> x in Bytes(b)
    {
      if x in Bytes(a) {
        InRange(a, SWITCH_MEM_SIZE, x);
        OneSide(Bytes(a), Bytes(b), live, x);
      }
      if x in Bytes(b) {
        InRange(b, SWITCH_MEM_SIZE, x);
        OneSide(Bytes(b), Bytes(a), live, x);
      }
    }
  }

  lemma {:induction false} OneSide(a: iset<int>, b: iset<int>, live: map<nat, Group>, x: int)
    requires Partitioned(a, live) && Partitioned(b, live) && x in a && 0 <= x < SWITCH_MEM_SIZE
    ensures x in b
  {
    assert x in b || InBlock(live, x);
  }

  // ----- a run that leaves free memory in two pieces

  lemma {:induction false} AddMembersMemory(topo: Topology, s: State, id: nat, g: Group, k: nat)
    requires k <= |g.members| == |g.nodes|
    ensures AddMembers(topo, s, id, g, k).memseg == s.memseg && AddMembers(topo, s, id, g, k).freeGroup == s.freeGroup
    ensures AddMembers(topo, s, id, g, k).freeNode == s.freeNode
  {
    if k > 0 {
      AddMembersMemory(topo, s, id, g, k - 1);
    }
  }

  /** What a successful CreateGroup does to the lists. */
  lemma {:induction false} CreateLists(topo: Topology, server: Server, members: seq<nat>)
    requires Sound(topo, server) && !NoResource(server.s, members)
    ensures |server.s.recirPortCnt| > 0
    ensures var server' := Serve(topo, server, Create(members)); var fit := FirstFit(server.s.memseg, ALLOC_SIZE);
            && server'.s.memseg == Alloc(server.s.memseg, fit.index, fit.addr, fit.addr + ALLOC_SIZE)
            && server'.s.freeGroup == server.s.freeGroup[1..]
            && server'.s.freeNode == server.s.freeNode[|members|..]
            && server'.live == server.live[server.s.freeGroup[0] := NewGroup(server.s, members)]
  {
    hide Sound, Serve, AddMembers, Alloc, FirstFit, SelectPort;
    ServeCreate(topo, server, members);
    var id, g := server.s.freeGroup[0], NewGroup(server.s, members);
    var index := FirstFit(server.s.memseg, ALLOC_SIZE).index;
    AddMembersMemory(topo, Allocated(topo, server.s, id, g, index), id, g, |members|);
  }

  /** What replaying a live group's log does to the free list. */
  lemma {:induction false} ReplayMemory(topo: Topology, s: State, live: map<nat, Group>, id: nat)
    requires Conserved(topo, s, live) && id in live
    ensures CanReplay(s, UndoLog(id, live[id])) && Free(s.memseg, live[id].addr, live[id].addr + ALLOC_SIZE).Freed?
    ensures Replay(s, UndoLog(id, live[id])).memseg == Free(s.memseg, live[id].addr, live[id].addr + ALLOC_SIZE).segs
  {
    hide Conserved, Free, UndoLog, CanReplay, Replay;
    CanUndo(topo, s, live, id);
    ReplayLog(s, id, live[id]);
  }

  /** What DestroyGroup of a live group does to the free list. */
  lemma {:induction false} DestroyMemory(topo: Topology, server: Server, id: nat, segs: seq<Seg>)
    requires Sound(topo, server) && id in server.live
    requires Free(server.s.memseg, server.live[id].addr, server.live[id].addr + ALLOC_SIZE) == Freed(segs)
    ensures var server' := Serve(topo, server, Destroy(id)); server'.live == server.live - {id} && server'.s.memseg == segs
  {
    hide Conserved, Free, UndoLog, CanReplay, Replay;
    ReplayMemory(topo, server.s, server.live, id);
  }

  /**
   * Two groups come and go, in the same order: all memory is free again, but in two segments that touch where the
   * second group ended.
   */
  lemma {:induction false} UncoalescedRun(topo: Topology, s: State, a: seq<nat>, b: seq<nat>)
    requires topo.recirPorts != [] && |a| + |b| < MAX_WORKER_NUM
    ensures Sound(topo, Server(Reset(topo, s), map[]))
    ensures var server := ServeAll(topo, Server(Reset(topo, s), map[]), [Create(a), Create(b), Destroy(1), Destroy(2)]);
            server.live == map[] && server.s.memseg == TwoPieces(2 * ALLOC_SIZE, 2 * ALLOC_SIZE)
    ensures !Coalesced(TwoPieces(2 * ALLOC_SIZE, 2 * ALLOC_SIZE))
  {
    hide Sound, Serve, ServeAll, TwoPieces, UpTo, Zeros, SelectPort, Drop, Free, Alloc, FirstFit;
    ResetSound(topo, s);
    UpToAll(MAX_GROUP_NUM);
    UpToAll(MAX_WORKER_NUM);
    var s0 := Server(Reset(topo, s), map[]);
    FirstBlocks();
    CreateLists(topo, s0, a);
    var s1 := Serve(topo, s0, Create(a));
    ServeSound(topo, s0, Create(a));
    CreateLists(topo, s1, b);
    var s2 := Serve(topo, s1, Create(b));
    ServeSound(topo, s1, Create(b));
    DestroyMemory(topo, s2, 1, TwoPieces(ALLOC_SIZE, 2 * ALLOC_SIZE));
    var s3 := Serve(topo, s2, Destroy(1));
    ServeSound(topo, s2, Destroy(1));
    DestroyMemory(topo, s3, 2, TwoPieces(2 * ALLOC_SIZE, 2 * ALLOC_SIZE));
    var s4 := Serve(topo, s3, Destroy(2));
    ServeSound(topo, s3, Destroy(2));
    FourCalls(topo, s0, Create(a), Create(b), Destroy(1), Destroy(2));
    assert s4.live.Keys == {};
  }

  lemma {:induction false} FourCalls(topo: Topology, server: Server, a: Call, b: Call, c: Call, d: Call)
    requires Sound(topo, server)
    ensures Sound(topo, Serve(topo, server, a))
    ensures Sound(topo, Serve(topo, Serve(topo, server, a), b))
    ensures Sound(topo, Serve(topo, Serve(topo, Serve(topo, server, a), b), c))
    ensures ServeAll(topo, server, [a, b, c, d])
         == Serve(topo, Serve(topo, Serve(topo, Serve(topo, server, a), b), c), d)
  {
    hide Sound, Serve;
    var s1 := Serve(topo, server, a);
    ServeSound(topo, server, a);
    var s2 := Serve(topo, s1, b);
    ServeSound(topo, s1, b);
    var s3 := Serve(topo, s2, c);
    ServeSound(topo, s2, c);
    ServeSound(topo, s3, d);
    assert [a, b, c, d][1..] == [b, c, d] && [b, c, d][1..] == [c, d] && [c, d][1..] == [d] && [d][1..] == [];
    assert ServeAll(topo, s3, [d]) == Serve(topo, s3, d);
    assert ServeAll(topo, s2, [c, d]) == ServeAll(topo, s3, [d]);
    assert ServeAll(topo, s1, [b, c, d]) == ServeAll(topo, s2, [c, d]);
  }

  /** All memory but the bytes from `lo` to `hi`. */
  function TwoPieces(lo: nat, hi: nat): seq<Seg> {
    [Seg(0, lo), Seg(hi, SWITCH_MEM_SIZE)]
  }

  /** The free list along that run. */
  lemma {:induction false} FirstBlocks()
    ensures var all, one, two := [Seg(0, SWITCH_MEM_SIZE)], [Seg(ALLOC_SIZE, SWITCH_MEM_SIZE)], [Seg(2 * ALLOC_SIZE, SWITCH_MEM_SIZE)];
            && FirstFit(all, ALLOC_SIZE) == Fit(0, 0) && Alloc(all, 0, 0, ALLOC_SIZE) == one
            && FirstFit(one, ALLOC_SIZE) == Fit(0, ALLOC_SIZE) && Alloc(one, 0, ALLOC_SIZE, 2 * ALLOC_SIZE) == two
            && Free(two, 0, ALLOC_SIZE) == Freed(TwoPieces(ALLOC_SIZE, 2 * ALLOC_SIZE))
    ensures Free(TwoPieces(ALLOC_SIZE, 2 * ALLOC_SIZE), ALLOC_SIZE, 2 * ALLOC_SIZE)
         == Freed(TwoPieces(2 * ALLOC_SIZE, 2 * ALLOC_SIZE))
    ensures !Coalesced(TwoPieces(2 * ALLOC_SIZE, 2 * ALLOC_SIZE))
  {
    hide FirstFit, Alloc, Free;
    FirstAlloc(0);
    FirstAlloc(ALLOC_SIZE);
    FirstFree();
    MissedMerge(ALLOC_SIZE, SWITCH_MEM_SIZE);
  }

  lemma {:induction false} FirstFree()
    ensures Free([Seg(2 * ALLOC_SIZE, SWITCH_MEM_SIZE)], 0, ALLOC_SIZE) == Freed(TwoPieces(ALLOC_SIZE, 2 * ALLOC_SIZE))
  {
    hide RightOf;
    var two := [Seg(2 * ALLOC_SIZE, SWITCH_MEM_SIZE)];
    RightOfUnique(two, 0, 0);
    assert InsertAt(two, 0, Seg(0, ALLOC_SIZE)) == TwoPieces(ALLOC_SIZE, 2 * ALLOC_SIZE);
  }

  /** One segment from an aligned address on gives its first block. */
  lemma {:induction false} FirstAlloc(lo: nat)
    requires lo % ALLOC_SIZE == 0 && lo + ALLOC_SIZE < SWITCH_MEM_SIZE
    ensures FirstFit([Seg(lo, SWITCH_MEM_SIZE)], ALLOC_SIZE) == Fit(0, lo)
    ensures Alloc([Seg(lo, SWITCH_MEM_SIZE)], 0, lo, lo + ALLOC_SIZE) == [Seg(lo + ALLOC_SIZE, SWITCH_MEM_SIZE)]
  {
    LeastAligned(lo, ALLOC_SIZE, lo);
    var segs := [Seg(lo, SWITCH_MEM_SIZE)];
    assert RemoveAt(segs, 0) == [];
    assert InsertAt([], 0, Seg(lo + ALLOC_SIZE, SWITCH_MEM_SIZE)) == [Seg(lo + ALLOC_SIZE, SWITCH_MEM_SIZE)];
  }

  // ----- the servicer

  class INCServicer {
    const topo: Topology
    const ingress: Ingress
    const egress: Egress
    var freeGroup: seq<nat>
    var freeNode: seq<nat>
    var recirPortCnt: seq<int>
    var memseg: seq<Seg>
    var undo: map<nat, seq<Undo>>
    // The packet replication engine, `bfrt.pre`.
    var node: map<nat, (nat, nat)>
    var mgid: map<nat, seq<nat>>
    ghost var live: map<nat, Group>

    ghost function Now(): State
      reads this, ingress, egress
    {
      State(freeGroup, freeNode, recirPortCnt, memseg,
            ingress.recirculateTable, ingress.metadataTable, egress.restoreTable, node, mgid)
    }

    ghost predicate Valid()
      reads this, ingress, egress
    {
      && Sound(topo, Server(Now(), live))
      && undo.Keys == live.Keys
      && (forall id | id in live :: undo[id] == UndoLog(id, live[id]))
      && ingress.Valid() && ingress.regBitmap.Length == REGISTER_LEN
    }

    constructor (topo: Topology, ingress: Ingress, egress: Egress)
      requires topo.recirPorts != [] && ingress.Valid() && ingress.regBitmap.Length == REGISTER_LEN
      modifies ingress`recirculateTable, ingress`metadataTable, egress`restoreTable
      ensures Valid() && live == map[]
      ensures this.topo == topo && this.ingress == ingress && this.egress == egress
    {
      this.topo, this.ingress, this.egress := topo, ingress, egress;
      freeGroup, freeNode, recirPortCnt, memseg, undo, node, mgid := [], [], [], [], map[], map[], map[];
      new;
      Init();
    }

    /** `Init`, that is `reinit`. */
    method Init()
      requires topo.recirPorts != [] && ingress.Valid() && ingress.regBitmap.Length == REGISTER_LEN
      modifies this, ingress`recirculateTable, ingress`metadataTable, egress`restoreTable
      ensures Valid() && live == map[] && Now() == Reset(topo, old(Now()))
    {
      hide Sound, UpTo, Zeros, Drop, UndoLog;
      ghost var before := Now();
      ResetSound(topo, before);
      var groups, nodes := UpTo(MAX_GROUP_NUM), UpTo(MAX_WORKER_NUM);
      freeGroup, freeNode := groups, nodes;
      recirPortCnt := Zeros(|topo.recirPorts|);
      undo, live := map[], map[];
      memseg := [Seg(0, SWITCH_MEM_SIZE)];
      ingress.recirculateTable := map[];
      ingress.metadataTable := map[];
      egress.restoreTable := map[];
      DeleteGroups(groups);
      DeleteNodes(nodes);
      assert Now() == Reset(topo, before);
    }

    /** `bfrt.pre.mgid.delete` on each id; a missing entry is ignored. */
    method DeleteGroups(ids: seq<nat>)
      modifies this`mgid
      ensures mgid == Drop(old(mgid), ids)
    {
      for i := 0 to |ids|
        invariant mgid == Drop(old(mgid), ids[..i])
      {
        assert ids[..i + 1] == ids[..i] + [ids[i]];
        mgid := mgid - {ids[i]};
      }
      assert ids[..|ids|] == ids;
    }

    /** `bfrt.pre.node.delete` on each node; a missing entry is ignored. */
    method DeleteNodes(nodes: seq<nat>)
      modifies this`node
      ensures node == Drop(old(node), nodes)
    {
      for i := 0 to |nodes|
        invariant node == Drop(old(node), nodes[..i])
      {
        assert nodes[..i + 1] == nodes[..i] + [nodes[i]];
        node := node - {nodes[i]};
      }
      assert nodes[..|nodes|] == nodes;
    }

    /** `alloc_seg`. */
    method AllocSeg(index: nat, lo: nat, hi: nat)
      requires index < |memseg|
      modifies this`memseg
      ensures memseg == Alloc(old(memseg), index, lo, hi)
    {
      var seg := memseg[index];
      memseg := RemoveAt(memseg, index);
      if seg.hi != hi {
        memseg := InsertAt(memseg, index, Seg(hi, seg.hi));
      }
      if seg.lo != lo {
        memseg := InsertAt(memseg, index, Seg(seg.lo, lo));
      }
    }

    /** `free_seg`; `ok` is false where the server prints "Invalid free" and exits. */
    method FreeSeg(lo: nat, hi: nat) returns (ok: bool)
      modifies this`memseg
      ensures match Free(old(memseg), lo, hi)
              case InvalidFree => !ok && memseg == old(memseg)
              case Freed(segs) => ok && memseg == segs
    {
      hide RightOf, InsertAt;
      var right: nat := 0;
      while right < |memseg| && memseg[right].hi <= lo
        invariant right <= |memseg|
        invariant forall j | 0 <= j < right :: memseg[j].hi <= lo
      {
        right := right + 1;
      }
      RightOfUnique(memseg, lo, right);
      if right < |memseg| && memseg[right].lo < hi {
        return false;
      }
      var lo', hi', index := lo, hi, right;
      if right > 0 && memseg[right - 1].hi == lo {
        lo' := memseg[right - 1].lo;
        index := right - 1;
        memseg := RemoveAt(memseg, right - 1);
      }
      if right < |memseg| && memseg[right].lo == hi {
        hi' := memseg[right].hi;
        memseg := RemoveAt(memseg, right);
      }
      memseg := InsertAt(memseg, index, Seg(lo', hi'));
      ok := true;
    }

    /** `fit_seg`: first fit over the segments; `valid` is false where the server prints "Invalid size". */
    method FitSeg(size: nat) returns (valid: bool, fit: Fit)
      ensures valid <==> size % MTU_SIZE == 0 && Arith.IsPower2(size / MTU_SIZE)
      ensures valid ==> size > 0 && fit == FirstFit(memseg, size)
    {
      fit := NoFit;
      valid := size % MTU_SIZE == 0 && Arith.IsPower2(size / MTU_SIZE);
      if !valid {
        return;
      }
      var i := 0;
      while i < |memseg|
        invariant 0 <= i <= |memseg|
        invariant FirstFit(memseg, size) == match FirstFit(memseg[i..], size)
                                            case NoFit => NoFit
                                            case Fit(index, addr) => Fit(index + i, addr)
      {
        var addr := UpperAlign(memseg[i].lo, size);
        if addr + size <= memseg[i].hi {
          fit := Fit(i, addr);
          return;
        }
        assert memseg[i..][1..] == memseg[i + 1..];
        i := i + 1;
      }
    }

    /** Runs one recorded action. */
    method ExecUndo(u: Undo)
      requires CanExec(Now(), u)
      modifies this`memseg, this`freeGroup, this`freeNode, this`recirPortCnt, this`node, this`mgid
      modifies ingress`recirculateTable, ingress`metadataTable, egress`restoreTable
      ensures Now() == Exec(old(Now()), u)
    {
      match u
      case FreeSeg(lo, hi) => var ok := FreeSeg(lo, hi);
      case AppendGroup(id) => freeGroup := freeGroup + [id];
      case AddNodes(nodes) => freeNode := freeNode + nodes;
      case DecPort(port) => recirPortCnt := recirPortCnt[port := recirPortCnt[port] - 1];
      case DelRecirculate(id) => ingress.recirculateTable := Groups.Without(ingress.recirculateTable, id);
      case DelMetadata(id) => ingress.metadataTable := Groups.Without(ingress.metadataTable, id);
      case DelRestore(id, rank) => egress.restoreTable := Groups.Without(egress.restoreTable, (id, rank));
      case DelNode(n) => node := Groups.Without(node, n);
      case DelMgid(id) => mgid := Groups.Without(mgid, id);
    }

    /** `DestroyGroup`: replays the group's log in reverse; an unknown id is ignored. */
    method DestroyGroup(id: nat)
      requires Valid()
      modifies this, ingress`recirculateTable, ingress`metadataTable, egress`restoreTable
      ensures Valid()
      ensures id !in old(live) ==> Now() == old(Now()) && live == old(live)
      ensures id in old(live) ==>
                && CanReplay(old(Now()), UndoLog(id, old(live)[id]))
                && Now() == Replay(old(Now()), UndoLog(id, old(live)[id]))
                && live == old(live) - {id}
    {
      hide Conserved, Exec, CanExec, UndoLog;
      if id !in undo {
        return;
      }
      DestroyKeeps(topo, Now(), live, id);
      var log := undo[id];
      ghost var goal := Replay(Now(), log);
      assert log[..|log|] == log;
      var i := |log|;
      while i > 0
        invariant 0 <= i <= |log|
        invariant CanReplay(Now(), log[..i]) && Replay(Now(), log[..i]) == goal
        invariant unchanged(`undo) && unchanged(`live)
      {
        assert log[..i][..i - 1] == log[..i - 1] && log[..i][i - 1] == log[i - 1];
        ExecUndo(log[i - 1]);
        i := i - 1;
      }
      undo := undo - {id};
      live := live - {id};
    }

    /**
     * `CreateGroup`: takes an id, nodes, a memory block and a port, writes the table entries, records how to undo
     * each step, and resets the group's slots.
     */
    method CreateGroup(members: seq<nat>) returns (response: Response)
      requires Valid()
      modifies this, ingress`recirculateTable, ingress`metadataTable, egress`restoreTable, ingress.regBitmap
      ensures Valid()
      ensures old(NoResource(Now(), members)) ==>
                && response == Response(0, 0, 0, 0)
                && Now() == old(Now()) && live == old(live) && ingress.regBitmap[..] == old(ingress.regBitmap[..])
      // It is accepted while fewer than 16 groups are live and the members do not outnumber the free nodes.
      ensures (response.groupId != 0) == (|old(live)| < 16 && |members| <= |old(freeNode)|)
      ensures response.groupId != 0 ==> CopyForEach(topo, mgid, node, response.groupId, members)
      ensures !old(NoResource(Now(), members)) ==>
                var server := old(Server(Now(), live));
                var id, g := server.s.freeGroup[0], NewGroup(server.s, members);
                && Server(Now(), live) == Serve(topo, server, Create(members))
                && id !in server.live && live == server.live[id := g]
                && response == Response(id, g.addr / MTU_SIZE, AGG_LEN, |members|)
                && response.aggAddr + AGG_LEN <= REGISTER_LEN
                && (forall i | 0 <= i < REGISTER_LEN ::
                      ingress.regBitmap[i] == if response.aggAddr <= i < response.aggAddr + AGG_LEN then BitmapPair(0, 0)
                                              else old(ingress.regBitmap[i]))
    {
      hide Sound, Conserved, Created, FirstFit, UndoLog, SelectPort, CopyForEach;
      ghost var before := Now();
      AllocSizeValid();
      SoundAccepts(topo, Server(before, live), members);
      var valid, fit := FitSeg(ALLOC_SIZE);
      if |freeGroup| < 1 || |freeNode| < |members| || fit.NoFit? {
        return Response(0, 0, 0, 0);
      }
      CreatedRange(topo, before, live, members);
      ServeCreate(topo, Server(before, live), members);
      var id := AddGroup(fit.index, fit.addr, members);
      ResetSlots(fit.addr / MTU_SIZE);
      SoundCopies(topo, Server(Now(), live), id);
      response := Response(id, fit.addr / MTU_SIZE, AGG_LEN, |members|);
    }

    /** All that a new group takes and all the entries it gets. */
    method AddGroup(index: nat, addr: nat, members: seq<nat>) returns (id: nat)
      requires Valid() && !NoResource(Now(), members) && FirstFit(memseg, ALLOC_SIZE) == Fit(index, addr)
      modifies this, ingress`recirculateTable, ingress`metadataTable, egress`restoreTable
      ensures Valid()
      ensures var server := old(Server(Now(), live));
              && id == server.s.freeGroup[0] && id !in server.live
              && Server(Now(), live) == Serve(topo, server, Create(members))
    {
      hide Sound, Serve, AddMembers, Allocated, GroupUndos, MemberUndos, SelectPort, FirstFit, LeastLoaded, IpToPort;
      ghost var before := Now();
      ServeCreate(topo, Server(before, live), members);
      ServeSound(topo, Server(before, live), Create(members));
      var g, log;
      id, g, log := TakeResources(index, addr, members);
      log := WriteMembers(id, g, log);
      mgid := mgid[id := g.nodes];
      log := log + [DelMgid(id)];
      undo := undo[id := log];
      live := live[id := g];
    }

    /** The group's memory, id, nodes and port, with the entries keyed on the group alone. */
    method TakeResources(index: nat, addr: nat, members: seq<nat>) returns (id: nat, g: Group, log: seq<Undo>)
      requires index < |memseg| && freeGroup != [] && |members| <= |freeNode|
      requires |recirPortCnt| == |topo.recirPorts| > 0
      modifies this`memseg, this`freeGroup, this`freeNode, this`recirPortCnt
      modifies ingress`recirculateTable, ingress`metadataTable
      ensures id == old(freeGroup[0])
      ensures g == Group(members, old(freeNode)[..|members|], addr, SelectPort(old(recirPortCnt)))
      ensures Now() == Allocated(topo, old(Now()), id, g, index)
      ensures log == GroupUndos(id, g)
    {
      hide Alloc, GroupMask, MemberUndos;
      AllocSeg(index, addr, addr + ALLOC_SIZE);
      log := [Undo.FreeSeg(addr, addr + ALLOC_SIZE)];
      id := freeGroup[0];
      freeGroup := freeGroup[1..];
      log := log + [AppendGroup(id)];
      var nodes := freeNode[..|members|];
      freeNode := freeNode[|members|..];
      log := log + [AddNodes(nodes)];
      var port := SelectPort(recirPortCnt);
      recirPortCnt := recirPortCnt[port := recirPortCnt[port] + 1];
      log := log + [DecPort(port)];
      ingress.recirculateTable := ingress.recirculateTable[id := topo.recirPorts[port]];
      log := log + [DelRecirculate(id)];
      ingress.metadataTable := ingress.metadataTable[id := GroupMask(|members|)];
      log := log + [DelMetadata(id)];
      g := Group(members, nodes, addr, port);
    }

    /** The loop over the members. */
    method WriteMembers(id: nat, g: Group, log: seq<Undo>) returns (log': seq<Undo>)
      requires |g.members| == |g.nodes|
      modifies egress`restoreTable, this`node
      ensures Now() == AddMembers(topo, old(Now()), id, g, |g.members|)
      ensures log' == log + MemberUndos(id, g.nodes, |g.nodes|)
    {
      log' := log;
      for i := 0 to |g.members|
        invariant Now() == AddMembers(topo, old(Now()), id, g, i)
        invariant log' == log + MemberUndos(id, g.nodes, i)
      {
        egress.restoreTable := egress.restoreTable[(id, i) := (topo.switchIp, g.members[i])];
        log' := log' + [DelRestore(id, i)];
        node := node[g.nodes[i] := (i, IpToPort(topo, g.members[i]))];
        log' := log' + [DelNode(g.nodes[i])];
      }
    }

    /** `reg_bitmap.mod(i, 0, 0)` over the group's slots. */
    method ResetSlots(aggAddr: nat)
      requires aggAddr + AGG_LEN <= ingress.regBitmap.Length
      modifies ingress.regBitmap
      ensures forall i | 0 <= i < ingress.regBitmap.Length ::
                ingress.regBitmap[i] == if aggAddr <= i < aggAddr + AGG_LEN then BitmapPair(0, 0)
                                        else old(ingress.regBitmap[i])
    {
      for i := aggAddr to aggAddr + AGG_LEN
        invariant forall j | 0 <= j < ingress.regBitmap.Length ::
                    ingress.regBitmap[j] == if aggAddr <= j < i then BitmapPair(0, 0) else old(ingress.regBitmap[j])
      {
        ingress.regBitmap[i] := BitmapPair(0, 0);
      }
    }
  }

  lemma {:induction false} AllocSizeValid()
    ensures ALLOC_SIZE % MTU_SIZE == 0 && Arith.IsPower2(ALLOC_SIZE / MTU_SIZE)
  {
    assert Arith.Pow2(5) == 32;
    assert Arith.Pow2(10) == 1024;
    Arith.Power2Iff(1024);
  }

  /** The block of a new group is a whole range of slots. */
  lemma {:induction false} CreatedRange(topo: Topology, s: State, live: map<nat, Group>, members: seq<nat>)
    requires Sound(topo, Server(s, live)) && !NoResource(s, members)
    ensures s.recirPortCnt != []
    ensures NewGroup(s, members).addr / MTU_SIZE + AGG_LEN <= REGISTER_LEN
  {
    FirstFitLowest(s.memseg, SWITCH_MEM_SIZE, ALLOC_SIZE);
  }
}
