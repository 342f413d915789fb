/**
 * The controller's resources as values: what CreateGroup and DestroyGroup do to them, and the conservation law they
 * keep whatever the order of calls.
 */
module Groups {
  import Arith
  import opened Bitmap
  import opened FreeList
  import opened Sequences

  const MTU_SIZE: nat := 256
  const SWITCH_MEM_SIZE: nat := 0x40_0000
  const MAX_GROUP_NUM: nat := 256
  const MAX_WORKER_NUM: nat := 1024
  const ALLOC_SIZE: nat := 256 * 1024
  const NO_PORT: nat := 511

  /** `topo.json`: host ports by IP, the switch's own IP, and the recirculation ports. */
  datatype Topology = Topology(ports: map<nat, nat>, switchIp: nat, recirPorts: seq<nat>)

  function IpToPort(topo: Topology, ip: nat): nat {
    if ip in topo.ports then topo.ports[ip] else NO_PORT
  }

  /** Everything CreateGroup and DestroyGroup change, in the server and in the switch. */
  datatype State = State(
    freeGroup: seq<nat>, freeNode: seq<nat>, recirPortCnt: seq<int>, memseg: seq<Seg>,
    recirculate: map<nat, nat>, metadata: map<nat, bv32>, restore: map<(nat, nat), (nat, nat)>,
    node: map<nat, (nat, nat)>, mgid: map<nat, seq<nat>>)

  /** A live group: its members' IPs, its replication nodes, its memory block and its recirculation port. */
  datatype Group = Group(members: seq<nat>, nodes: seq<nat>, addr: nat, port: nat)

  /** The inverse actions recorded by CreateGroup. */
  datatype Undo =
    | FreeSeg(lo: nat, hi: nat)
    | AppendGroup(id: nat)
    | AddNodes(nodes: seq<nat>)
    | DecPort(port: nat)
    | DelRecirculate(id: nat)
    | DelMetadata(id: nat)
    | DelRestore(id: nat, rank: nat)
    | DelNode(node: nat)
    | DelMgid(id: nat)

  function Without<K, V>(m: map<K, V>, k: K): map<K, V> {
    map x | x in m && x != k :: m[x]
  }

  /** The action raises no exception and does not stop the server. */
  predicate CanExec(s: State, u: Undo) {
    match u
    case FreeSeg(lo, hi) => Free(s.memseg, lo, hi).Freed?
    case AppendGroup(id) => true
    case AddNodes(nodes) => true
    case DecPort(port) => port < |s.recirPortCnt|
    case DelRecirculate(id) => id in s.recirculate
    case DelMetadata(id) => id in s.metadata
    case DelRestore(id, rank) => (id, rank) in s.restore
    case DelNode(node) => node in s.node
    case DelMgid(id) => id in s.mgid
  }

  function Exec(s: State, u: Undo): State
    requires CanExec(s, u)
  {
    match u
    case FreeSeg(lo, hi) => s.(memseg := Free(s.memseg, lo, hi).segs)
    case AppendGroup(id) => s.(freeGroup := s.freeGroup + [id])
    case AddNodes(nodes) => s.(freeNode := s.freeNode + nodes)
    case DecPort(port) => s.(recirPortCnt := s.recirPortCnt[port := s.recirPortCnt[port] - 1])
    case DelRecirculate(id) => s.(recirculate := Without(s.recirculate, id))
    case DelMetadata(id) => s.(metadata := Without(s.metadata, id))
    case DelRestore(id, rank) => s.(restore := Without(s.restore, (id, rank)))
    case DelNode(node) => s.(node := Without(s.node, node))
    case DelMgid(id) => s.(mgid := Without(s.mgid, id))
  }

  /** Replays a log from its end. */
  predicate CanReplay(s: State, undos: seq<Undo>)
    decreases |undos|
  {
    undos == [] || (CanExec(s, undos[|undos| - 1]) && CanReplay(Exec(s, undos[|undos| - 1]), undos[..|undos| - 1]))
  }

  function Replay(s: State, undos: seq<Undo>): State
    requires CanReplay(s, undos)
    decreases |undos|
  {
    if undos == [] then s else Replay(Exec(s, undos[|undos| - 1]), undos[..|undos| - 1])
  }

  // ----- creation

  /** Table entries of the first `k` members. */
  function AddMembers(topo: Topology, s: State, id: nat, g: Group, k: nat): State
    requires k <= |g.members| == |g.nodes|
  {
    if k == 0 then s
    else
      var t := AddMembers(topo, s, id, g, k - 1);
      t.(restore := t.restore[(id, k - 1) := (topo.switchIp, g.members[k - 1])],
         node := t.node[g.nodes[k - 1] := (k - 1, IpToPort(topo, g.members[k - 1]))])
  }

  function MemberUndos(id: nat, nodes: seq<nat>, k: nat): seq<Undo>
    requires k <= |nodes|
  {
    if k == 0 then [] else MemberUndos(id, nodes, k - 1) + [DelRestore(id, k - 1), DelNode(nodes[k - 1])]
  }

  /** The six entries that come before the members'. */
  function GroupUndos(id: nat, g: Group): seq<Undo> {
    [FreeSeg(g.addr, g.addr + ALLOC_SIZE), AppendGroup(id), AddNodes(g.nodes), DecPort(g.port),
     DelRecirculate(id), DelMetadata(id)]
  }

  function UndoLog(id: nat, g: Group): seq<Undo> {
    GroupUndos(id, g) + MemberUndos(id, g.nodes, |g.nodes|) + [DelMgid(id)]
  }

  /** `index(min(...))`: the first of the least loaded ports. */
  predicate LeastLoaded(counts: seq<int>, i: nat) {
    i < |counts|
    && (forall j | 0 <= j < |counts| :: counts[i] <= counts[j])
    && (forall j | 0 <= j < i :: counts[i] < counts[j])
  }

  /** The state that `Created` hands to `AddMembers`. */
  function Allocated(topo: Topology, s: State, id: nat, g: Group, index: nat): State
    requires |g.members| <= |s.freeNode| && s.freeGroup != [] && index < |s.memseg|
    requires g.port < |s.recirPortCnt| && g.port < |topo.recirPorts|
  {
    s.(memseg := Alloc(s.memseg, index, g.addr, g.addr + ALLOC_SIZE),
       freeGroup := s.freeGroup[1..],
       freeNode := s.freeNode[|g.members|..],
       recirPortCnt := s.recirPortCnt[g.port := s.recirPortCnt[g.port] + 1],
       recirculate := s.recirculate[id := topo.recirPorts[g.port]],
       metadata := s.metadata[id := GroupMask(|g.members|)])
  }

  /** The state after a group got its resources and its entries. */
  function Created(topo: Topology, s: State, id: nat, g: Group, index: nat): State
    requires |g.members| == |g.nodes| <= |s.freeNode| && s.freeGroup != [] && index < |s.memseg|
    requires g.port < |s.recirPortCnt| && g.port < |topo.recirPorts|
  {
    var t := Allocated(topo, s, id, g, index);
    var u := AddMembers(topo, t, id, g, |g.members|);
    u.(mgid := u.mgid[id := g.nodes])
  }

  /** The group that CreateGroup makes: first id, first nodes, first fit, least loaded port. */
  predicate Chosen(s: State, members: seq<nat>, id: nat, g: Group, index: nat) {
    && s.freeGroup != [] && id == s.freeGroup[0]
    && g.members == members && |members| <= |s.freeNode| && g.nodes == s.freeNode[..|members|]
    && FirstFit(s.memseg, ALLOC_SIZE) == Fit(index, g.addr)
    && LeastLoaded(s.recirPortCnt, g.port)
  }

  /** CreateGroup refuses: no id, too few nodes, or no memory. */
  predicate NoResource(s: State, members: seq<nat>) {
    |s.freeGroup| < 1 || |s.freeNode| < |members| || FirstFit(s.memseg, ALLOC_SIZE).NoFit?
  }

  // ----- conservation

  ghost predicate GroupsOk(s: State, live: map<nat, Group>) {
    && Distinct(s.freeGroup)
    && (forall id | id in s.freeGroup :: 0 < id < MAX_GROUP_NUM && id !in live)
    && (forall id | id in live :: 0 < id < MAX_GROUP_NUM)
    && (forall id | 0 < id < MAX_GROUP_NUM :: id in s.freeGroup || id in live)
  }

  /** A node of a live group. */
  ghost predicate Owned(live: map<nat, Group>, n: nat) {
    exists id :: id in live && n in live[id].nodes
  }

  ghost predicate NodesOk(s: State, live: map<nat, Group>) {
    && Distinct(s.freeNode)
    && (forall n | n in s.freeNode :: 0 < n < MAX_WORKER_NUM && !Owned(live, n))
    && (forall id | id in live :: |live[id].nodes| == |live[id].members| && Distinct(live[id].nodes))
    && (forall id, n | id in live && n in live[id].nodes :: 0 < n < MAX_WORKER_NUM)
    && (forall a, b, n | a in live && b in live && n in live[a].nodes && n in live[b].nodes :: a == b)
    && (forall n | 0 < n < MAX_WORKER_NUM :: n in s.freeNode || Owned(live, n))
  }

  ghost function Block(g: Group): iset<int> {
    Range(g.addr, g.addr + ALLOC_SIZE)
  }

  /** `free` and the blocks of the live groups split the switch memory. */
  ghost predicate Partitioned(free: iset<int>, live: map<nat, Group>) {
    && (forall id | id in live :: Block(live[id]) !! free)
    && (forall a, b | a in live && b in live && a != b :: Block(live[a]) !! Block(live[b]))
    && (forall x | 0 <= x < SWITCH_MEM_SIZE :: x in free || InBlock(live, x))
  }

  ghost predicate InBlock(live: map<nat, Group>, x: int) {
    exists id :: id in live && x in Block(live[id])
  }

  ghost predicate MemoryOk(s: State, live: map<nat, Group>) {
    && Ordered(s.memseg, SWITCH_MEM_SIZE) && Aligned(s.memseg, ALLOC_SIZE)
    && (forall id | id in live :: live[id].addr % ALLOC_SIZE == 0 && live[id].addr + ALLOC_SIZE <= SWITCH_MEM_SIZE)
    && Partitioned(Bytes(s.memseg), live)
  }

  function GroupsOn(live: map<nat, Group>, port: nat): set<nat> {
    set id | id in live && live[id].port == port
  }

  ghost predicate PortsOk(topo: Topology, s: State, live: map<nat, Group>) {
    && |s.recirPortCnt| == |topo.recirPorts|
    && (forall id | id in live :: live[id].port < |topo.recirPorts|)
    && (forall i | 0 <= i < |s.recirPortCnt| :: s.recirPortCnt[i] == |GroupsOn(live, i)|)
  }

  /** Table entries exist for exactly the live groups. */
  ghost predicate TablesOk(topo: Topology, s: State, live: map<nat, Group>) {
    GroupTablesOk(topo, s, live) && RestoreOk(topo, s, live) && NodeTableOk(topo, s, live)
  }

  ghost predicate GroupTablesOk(topo: Topology, s: State, live: map<nat, Group>) {
    && s.recirculate.Keys == live.Keys && s.metadata.Keys == live.Keys
    && (forall id | 0 < id < MAX_GROUP_NUM :: id in s.mgid <==> id in live)
    && (forall id | id in live :: 0 < id < MAX_GROUP_NUM && live[id].port < |topo.recirPorts|)
    && (forall id | id in live ::
          s.recirculate[id] == topo.recirPorts[live[id].port]
          && s.metadata[id] == GroupMask(|live[id].members|)
          && s.mgid[id] == live[id].nodes)
  }

  ghost predicate RestoreOk(topo: Topology, s: State, live: map<nat, Group>) {
    && (forall id: nat, r: nat | (id, r) in s.restore :: id in live && r < |live[id].members|)
    && (forall id, r | id in live && 0 <= r < |live[id].members| ::
          (id, r) in s.restore && s.restore[(id, r)] == (topo.switchIp, live[id].members[r]))
  }

  ghost predicate NodeTableOk(topo: Topology, s: State, live: map<nat, Group>) {
    && (forall n | 0 < n < MAX_WORKER_NUM && n in s.node :: Owned(live, n))
    && (forall id, r | id in live && 0 <= r < |live[id].members| && r < |live[id].nodes| ::
          live[id].nodes[r] in s.node && s.node[live[id].nodes[r]] == (r, IpToPort(topo, live[id].members[r])))
  }

  /**
   * The replication engine makes one copy of a multicast to `id` per member: copy `i` has replication id `i` and leaves by
   * the port that the topology has for the member's IP, or by 511 if it has none.
   */
  ghost predicate CopyForEach(topo: Topology, mgid: map<nat, seq<nat>>, node: map<nat, (nat, nat)>, id: nat, members: seq<nat>) {
    && id in mgid && |mgid[id]| == |members|
    && forall i | 0 <= i < |members| ::
         mgid[id][i] in node && node[mgid[id][i]] == (i, if members[i] in topo.ports then topo.ports[members[i]] else 511)
  }

  lemma {:induction false} LiveCopies(topo: Topology, s: State, live: map<nat, Group>, id: nat)
    requires Conserved(topo, s, live) && id in live
    ensures CopyForEach(topo, s.mgid, s.node, id, live[id].members)
  {
    hide GroupsOk, MemoryOk, PortsOk, RestoreOk, Owned, Distinct;
    assert s.mgid[id] == live[id].nodes && |live[id].nodes| == |live[id].members|;
  }

  ghost predicate Conserved(topo: Topology, s: State, live: map<nat, Group>) {
    && GroupsOk(s, live) && NodesOk(s, live) && MemoryOk(s, live) && PortsOk(topo, s, live) && TablesOk(topo, s, live)
  }

  // ----- a new group keeps the law

  lemma {:induction false} FirstAndRest(s: seq<nat>, k: nat)
    requires Distinct(s) && k <= |s|
    ensures Distinct(s[..k]) && Distinct(s[k..])
    ensures forall x | x in s :: (x in s[..k]) != (x in s[k..])
    ensures forall x | x in s[..k] :: x in s
    ensures forall x | x in s[k..] :: x in s
  {
    forall x | x in s
      ensures (x in s[..k]) != (x in s[k..])
    {
      var i :| 0 <= i < |s| && s[i] == x;
      if i < k {
        assert s[..k][i] == x;
      } else {
        assert s[k..][i - k] == x;
      }
    }
  }

  lemma {:induction false} CreateGroups(topo: Topology, s: State, live: map<nat, Group>, id: nat, g: Group, index: nat, s': State)
    requires GroupsOk(s, live) && s.freeGroup != [] && id == s.freeGroup[0] && s'.freeGroup == s.freeGroup[1..]
    ensures GroupsOk(s', live[id := g]) && id !in live
  {
    FirstAndRest(s.freeGroup, 1);
    assert id in s.freeGroup && s.freeGroup[..1] == [id];
  }

  lemma {:induction false} CreateNodes(s: State, live: map<nat, Group>, id: nat, g: Group, s': State)
    requires NodesOk(s, live) && id !in live
    requires |g.members| == |g.nodes| <= |s.freeNode| && g.nodes == s.freeNode[..|g.members|]
    requires s'.freeNode == s.freeNode[|g.members|..]
    ensures NodesOk(s', live[id := g])
  {
    FirstAndRest(s.freeNode, |g.members|);
    OwnedMore(live, id, g);
  }

  lemma {:induction false} TakeBlock(free: iset<int>, live: map<nat, Group>, id: nat, g: Group)
    requires Partitioned(free, live) && id !in live && Block(g) <= free
    ensures Partitioned(free - Block(g), live[id := g])
  {
    hide Block;
    var live' := live[id := g];
    forall x | 0 <= x < SWITCH_MEM_SIZE
      ensures x in free - Block(g) || InBlock(live', x)
    {
      if x in Block(g) {
        assert id in live' && x in Block(live'[id]);
      } else if x !in free {
        var a :| a in live && x in Block(live[a]);
        assert a in live' && x in Block(live'[a]);
      }
    }
  }

  lemma {:induction false} CreateMemory(s: State, live: map<nat, Group>, id: nat, g: Group, index: nat, s': State)
    requires MemoryOk(s, live) && id !in live
    requires FirstFit(s.memseg, ALLOC_SIZE) == Fit(index, g.addr)
    requires s'.memseg == Alloc(s.memseg, index, g.addr, g.addr + ALLOC_SIZE)
    ensures MemoryOk(s', live[id := g])
  {
    hide Partitioned, FirstFit, Alloc, Bytes, Range;
    FirstFitLowest(s.memseg, SWITCH_MEM_SIZE, ALLOC_SIZE);
    AllocTakes(s.memseg, SWITCH_MEM_SIZE, index, g.addr, g.addr + ALLOC_SIZE);
    Arith.OneBack(g.addr + ALLOC_SIZE, ALLOC_SIZE);
    AllocAligned(s.memseg, index, g.addr, g.addr + ALLOC_SIZE, ALLOC_SIZE);
    TakeBlock(Bytes(s.memseg), live, id, g);
  }

  lemma {:induction false} GroupsOnMore(live: map<nat, Group>, id: nat, g: Group, port: nat)
    requires id !in live
    ensures |GroupsOn(live[id := g], port)| == |GroupsOn(live, port)| + if g.port == port then 1 else 0
  {
    assert GroupsOn(live[id := g], port) == if port == g.port then GroupsOn(live, port) + {id} else GroupsOn(live, port);
  }

  lemma {:induction false} CreatePorts(topo: Topology, s: State, live: map<nat, Group>, id: nat, g: Group, s': State)
    requires PortsOk(topo, s, live) && id !in live && g.port < |s.recirPortCnt|
    requires s'.recirPortCnt == s.recirPortCnt[g.port := s.recirPortCnt[g.port] + 1]
    ensures PortsOk(topo, s', live[id := g])
  {
    hide GroupsOn;
    forall i | 0 <= i < |s.recirPortCnt|
      ensures s'.recirPortCnt[i] == |GroupsOn(live[id := g], i)|
    {
      GroupsOnMore(live, id, g, i);
    }
  }

  /** What `AddMembers` adds to the restore table. */
  lemma {:induction false} AddedRestore(topo: Topology, s: State, id: nat, g: Group, k: nat, a: nat, r: nat)
    requires k <= |g.members| == |g.nodes|
    ensures var t := AddMembers(topo, s, id, g, k).restore;
            && ((a, r) in t <==> (a, r) in s.restore || (a == id && r < k))
            && (a == id && r < k ==> t[(a, r)] == (topo.switchIp, g.members[r]))
            && (!(a == id && r < k) && (a, r) in s.restore ==> t[(a, r)] == s.restore[(a, r)])
  {
    if k > 0 {
      AddedRestore(topo, s, id, g, k - 1, a, r);
    }
  }

  /** What `AddMembers` adds to the replication nodes. */
  lemma {:induction false} AddedNodes(topo: Topology, s: State, id: nat, g: Group, k: nat)
    requires k <= |g.members| == |g.nodes|
    ensures forall n :: n in AddMembers(topo, s, id, g, k).node <==> n in s.node || n in g.nodes[..k]
  {
    if k > 0 {
      AddedNodes(topo, s, id, g, k - 1);
      assert g.nodes[..k] == g.nodes[..k - 1] + [g.nodes[k - 1]];
    }
  }

  lemma {:induction false} OldNode(topo: Topology, s: State, id: nat, g: Group, k: nat, n: nat)
    requires k <= |g.members| == |g.nodes| && n in s.node && n !in g.nodes
    ensures n in AddMembers(topo, s, id, g, k).node && AddMembers(topo, s, id, g, k).node[n] == s.node[n]
  {
    if k > 0 {
      OldNode(topo, s, id, g, k - 1, n);
      assert g.nodes[k - 1] in g.nodes;
    }
  }

  lemma {:induction false} NewNode(topo: Topology, s: State, id: nat, g: Group, k: nat, r: nat)
    requires r < k <= |g.members| == |g.nodes| && Distinct(g.nodes)
    ensures var t := AddMembers(topo, s, id, g, k);
            g.nodes[r] in t.node && t.node[g.nodes[r]] == (r, IpToPort(topo, g.members[r]))
  {
    if r < k - 1 {
      NewNode(topo, s, id, g, k - 1, r);
    }
  }

  lemma {:induction false} OwnedMore(live: map<nat, Group>, id: nat, g: Group)
    requires id !in live
    ensures forall n: nat :: Owned(live[id := g], n) <==> Owned(live, n) || n in g.nodes
  {
    var live' := live[id := g];
    forall n: nat
      ensures Owned(live', n) <==> Owned(live, n) || n in g.nodes
    {
      if n in g.nodes {
        assert id in live' && n in live'[id].nodes;
      }
      if Owned(live, n) {
        var a :| a in live && n in live[a].nodes;
        assert a in live' && n in live'[a].nodes;
      }
    }
  }

  lemma {:induction false} CreateGroupTables(topo: Topology, s: State, live: map<nat, Group>, id: nat, g: Group, s': State)
    requires GroupTablesOk(topo, s, live) && id !in live && 0 < id < MAX_GROUP_NUM && g.port < |topo.recirPorts|
    requires s'.recirculate == s.recirculate[id := topo.recirPorts[g.port]]
    requires s'.metadata == s.metadata[id := GroupMask(|g.members|)]
    requires s'.mgid == s.mgid[id := g.nodes]
    ensures GroupTablesOk(topo, s', live[id := g])
  {
    hide GroupMask;
  }

  lemma {:induction false} CreateRestore(topo: Topology, s: State, live: map<nat, Group>, id: nat, g: Group, t: State, s': State)
    requires RestoreOk(topo, s, live) && id !in live
    requires |g.members| == |g.nodes| && t.restore == s.restore
    requires s'.restore == AddMembers(topo, t, id, g, |g.members|).restore
    ensures RestoreOk(topo, s', live[id := g])
  {
    hide AddMembers;
    forall a: nat, r: nat
      ensures (a, r) in s'.restore <==> (a, r) in s.restore || (a == id && r < |g.members|)
      ensures a == id && r < |g.members| ==> s'.restore[(a, r)] == (topo.switchIp, g.members[r])
      ensures !(a == id && r < |g.members|) && (a, r) in s.restore ==> s'.restore[(a, r)] == s.restore[(a, r)]
    {
      AddedRestore(topo, t, id, g, |g.members|, a, r);
    }
  }

  lemma {:induction false} CreateTables(topo: Topology, s: State, live: map<nat, Group>, id: nat, g: Group, index: nat)
    requires TablesOk(topo, s, live) && id !in live && 0 < id < MAX_GROUP_NUM
    requires |g.members| == |g.nodes| <= |s.freeNode| && s.freeGroup != [] && index < |s.memseg|
    requires g.port < |s.recirPortCnt| && g.port < |topo.recirPorts|
    requires Distinct(g.nodes) && forall n | n in g.nodes :: !Owned(live, n)
    ensures TablesOk(topo, Created(topo, s, id, g, index), live[id := g])
  {
    hide Alloc, AddMembers, GroupMask, GroupTablesOk, RestoreOk, NodeTableOk;
    var t, s' := Allocated(topo, s, id, g, index), Created(topo, s, id, g, index);
    OnlyTables(topo, t, id, g, |g.members|);
    CreateGroupTables(topo, s, live, id, g, s');
    CreateRestore(topo, s, live, id, g, t, s');
    CreateNodeTable(topo, s, live, id, g, t, s');
  }

  lemma {:induction false} CreateNodeTable(topo: Topology, s: State, live: map<nat, Group>, id: nat, g: Group, t: State, s': State)
    requires NodeTableOk(topo, s, live) && id !in live
    requires |g.members| == |g.nodes| && t.node == s.node
    requires s'.node == AddMembers(topo, t, id, g, |g.members|).node
    requires Distinct(g.nodes) && forall n | n in g.nodes :: !Owned(live, n)
    ensures NodeTableOk(topo, s', live[id := g])
  {
    hide AddMembers, Owned, IpToPort;
    var live' := live[id := g];
    AddedNodes(topo, t, id, g, |g.members|);
    OwnedMore(live, id, g);
    assert g.nodes[..|g.members|] == g.nodes;
    forall a, r | a in live' && 0 <= r < |live'[a].members| && r < |live'[a].nodes|
      ensures live'[a].nodes[r] in s'.node
      ensures s'.node[live'[a].nodes[r]] == (r, IpToPort(topo, live'[a].members[r]))
    {
      if a == id {
        NewNode(topo, t, id, g, |g.members|, r);
      } else {
        MemberOwned(live, a, r);
        OldNode(topo, t, id, g, |g.members|, live[a].nodes[r]);
      }
    }
  }

  lemma {:induction false} MemberOwned(live: map<nat, Group>, id: nat, r: nat)
    requires id in live && r < |live[id].nodes|
    ensures Owned(live, live[id].nodes[r])
  {
    assert id in live && live[id].nodes[r] in live[id].nodes;
  }

  /** CreateGroup keeps the conservation law. */
  lemma {:induction false} CreateKeeps(topo: Topology, s: State, live: map<nat, Group>, members: seq<nat>, id: nat, g: Group, index: nat)
    requires Conserved(topo, s, live) && Chosen(s, members, id, g, index)
    ensures id !in live && g.port < |topo.recirPorts| && index < |s.memseg|
    ensures Conserved(topo, Created(topo, s, id, g, index), live[id := g])
  {
    hide GroupsOk, NodesOk, MemoryOk, PortsOk, TablesOk;
    assert g.port < |topo.recirPorts| by {
      assert PortsOk(topo, s, live);
      PortsBound(topo, s, live);
    }
    var s' := Created(topo, s, id, g, index);
    CreatedFields(topo, s, id, g, index);
    CreateGroups(topo, s, live, id, g, index, s');
    FreshNodes(s, live, g);
    IdInRange(s, live);
    CreateNodes(s, live, id, g, s');
    CreateMemory(s, live, id, g, index, s');
    CreatePorts(topo, s, live, id, g, s');
    CreateTables(topo, s, live, id, g, index);
  }

  lemma {:induction false} PortsBound(topo: Topology, s: State, live: map<nat, Group>)
    requires PortsOk(topo, s, live)
    ensures |s.recirPortCnt| == |topo.recirPorts|
  {
  }

  lemma {:induction false} IdInRange(s: State, live: map<nat, Group>)
    requires GroupsOk(s, live) && s.freeGroup != []
    ensures 0 < s.freeGroup[0] < MAX_GROUP_NUM
  {
    assert s.freeGroup[0] in s.freeGroup;
  }

  lemma {:induction false} FreshNodes(s: State, live: map<nat, Group>, g: Group)
    requires NodesOk(s, live) && |g.members| <= |s.freeNode| && g.nodes == s.freeNode[..|g.members|]
    ensures Distinct(g.nodes) && forall n | n in g.nodes :: !Owned(live, n)
  {
    FirstAndRest(s.freeNode, |g.members|);
  }

  lemma {:induction false} CreatedFields(topo: Topology, s: State, id: nat, g: Group, index: nat)
    requires |g.members| == |g.nodes| <= |s.freeNode| && s.freeGroup != [] && index < |s.memseg|
    requires g.port < |s.recirPortCnt| && g.port < |topo.recirPorts|
    ensures var s' := Created(topo, s, id, g, index);
            && s'.memseg == Alloc(s.memseg, index, g.addr, g.addr + ALLOC_SIZE)
            && s'.freeGroup == s.freeGroup[1..] && s'.freeNode == s.freeNode[|g.members|..]
            && s'.recirPortCnt == s.recirPortCnt[g.port := s.recirPortCnt[g.port] + 1]
  {
    hide Alloc;
    OnlyTables(topo, Allocated(topo, s, id, g, index), id, g, |g.members|);
  }

  lemma {:induction false} OnlyTables(topo: Topology, s: State, id: nat, g: Group, k: nat)
    requires k <= |g.members| == |g.nodes|
    ensures var t := AddMembers(topo, s, id, g, k); t == s.(restore := t.restore, node := t.node)
  {
    if k > 0 {
      OnlyTables(topo, s, id, g, k - 1);
    }
  }

  // ----- destruction replays the log

  /** Tables without the entries of the first `k` members. */
  function DropMembers(s: State, id: nat, nodes: seq<nat>, k: nat): State
    requires k <= |nodes|
  {
    s.(restore := map x | x in s.restore && !(x.0 == id && x.1 < k) :: s.restore[x],
       node := map n | n in s.node && n !in nodes[..k] :: s.node[n])
  }

  /** The state after everything the log names is undone. */
  function Destroyed(s: State, id: nat, g: Group): State
    requires Free(s.memseg, g.addr, g.addr + ALLOC_SIZE).Freed? && g.port < |s.recirPortCnt|
  {
    DropMembers(s, id, g.nodes, |g.nodes|).(
      memseg := Free(s.memseg, g.addr, g.addr + ALLOC_SIZE).segs,
      freeGroup := s.freeGroup + [id],
      freeNode := s.freeNode + g.nodes,
      recirPortCnt := s.recirPortCnt[g.port := s.recirPortCnt[g.port] - 1],
      recirculate := Without(s.recirculate, id),
      metadata := Without(s.metadata, id),
      mgid := Without(s.mgid, id))
  }

  /** Replaying the member entries takes them out, last member first, and leaves the rest of the log to do. */
  lemma {:induction false} ReplayMembers(s: State, before: seq<Undo>, id: nat, nodes: seq<nat>, k: nat)
    requires k <= |nodes| && Distinct(nodes)
    requires forall r | 0 <= r < k :: (id, r) in s.restore && nodes[r] in s.node
    requires CanReplay(DropMembers(s, id, nodes, k), before)
    ensures CanReplay(s, before + MemberUndos(id, nodes, k))
    ensures Replay(s, before + MemberUndos(id, nodes, k)) == Replay(DropMembers(s, id, nodes, k), before)
    decreases k
  {
    hide MemberUndos, DropMembers, Replay, CanReplay, Free, Exec, CanExec;
    if k == 0 {
      NothingGone(s, id, nodes);
      assert before + [] == before;
    } else {
      LastTwo(before, id, nodes, k);
      var t := MemberGone(s, id, nodes, k);
      ReplayMembers(t, before, id, nodes, k - 1);
      TwoSteps(s, before + MemberUndos(id, nodes, k), before + MemberUndos(id, nodes, k - 1));
    }
  }

  lemma {:induction false} NothingGone(s: State, id: nat, nodes: seq<nat>)
    ensures MemberUndos(id, nodes, 0) == [] && DropMembers(s, id, nodes, 0) == s
  {
  }

  /** The two entries of the last member can run, and what is left of its group afterwards. */
  lemma {:induction false} MemberGone(s: State, id: nat, nodes: seq<nat>, k: nat) returns (t: State)
    requires 0 < k <= |nodes| && Distinct(nodes)
    requires forall r | 0 <= r < k :: (id, r) in s.restore && nodes[r] in s.node
    ensures CanExec(s, DelNode(nodes[k - 1]))
    ensures CanExec(Exec(s, DelNode(nodes[k - 1])), DelRestore(id, k - 1))
    ensures t == Exec(Exec(s, DelNode(nodes[k - 1])), DelRestore(id, k - 1))
    ensures DropMembers(t, id, nodes, k - 1) == DropMembers(s, id, nodes, k)
    ensures forall r | 0 <= r < k - 1 :: (id, r) in t.restore && nodes[r] in t.node
  {
    hide DropMembers;
    t := Exec(Exec(s, DelNode(nodes[k - 1])), DelRestore(id, k - 1));
    DropOneMore(s, id, nodes, k, t);
  }

  lemma {:induction false} LastTwo(before: seq<Undo>, id: nat, nodes: seq<nat>, k: nat)
    requires 0 < k <= |nodes|
    ensures var log := before + MemberUndos(id, nodes, k); var n := |log|;
            && n >= 2 && log[n - 1] == DelNode(nodes[k - 1]) && log[n - 2] == DelRestore(id, k - 1)
            && log[..n - 1][..n - 2] == before + MemberUndos(id, nodes, k - 1)
  {
  }

  lemma {:induction false} TwoSteps(s: State, log: seq<Undo>, shorter: seq<Undo>)
    requires |log| >= 2 && log[..|log| - 1][..|log| - 2] == shorter
    requires CanExec(s, log[|log| - 1]) && CanExec(Exec(s, log[|log| - 1]), log[|log| - 2])
    requires CanReplay(Exec(Exec(s, log[|log| - 1]), log[|log| - 2]), shorter)
    ensures CanReplay(s, log)
    ensures Replay(s, log) == Replay(Exec(Exec(s, log[|log| - 1]), log[|log| - 2]), shorter)
  {
    hide CanExec, Exec;
    var front := log[..|log| - 1];
    assert front[|front| - 1] == log[|log| - 2];
    assert CanReplay(Exec(s, log[|log| - 1]), front);
  }

  lemma {:induction false} DropOneMore(s: State, id: nat, nodes: seq<nat>, k: nat, t: State)
    requires 0 < k <= |nodes| && Distinct(nodes)
    requires t == s.(node := Without(s.node, nodes[k - 1]), restore := Without(s.restore, (id, k - 1)))
    ensures DropMembers(t, id, nodes, k - 1) == DropMembers(s, id, nodes, k)
  {
    assert nodes[..k] == nodes[..k - 1] + [nodes[k - 1]];
    assert DropMembers(t, id, nodes, k - 1).restore == DropMembers(s, id, nodes, k).restore;
    assert DropMembers(t, id, nodes, k - 1).node == DropMembers(s, id, nodes, k).node;
  }

  /** What the log of a live group needs in order to run without an exception. */
  ghost predicate Undoable(s: State, id: nat, g: Group) {
    && Free(s.memseg, g.addr, g.addr + ALLOC_SIZE).Freed?
    && g.port < |s.recirPortCnt|
    && id in s.recirculate && id in s.metadata && id in s.mgid
    && Distinct(g.nodes)
    && (forall r | 0 <= r < |g.nodes| :: (id, r) in s.restore && g.nodes[r] in s.node)
  }

  lemma {:induction false} ReplayFirst(s: State, id: nat, g: Group)
    requires Free(s.memseg, g.addr, g.addr + ALLOC_SIZE).Freed? && g.port < |s.recirPortCnt|
    requires id in s.recirculate && id in s.metadata
    ensures CanReplay(s, GroupUndos(id, g))
    ensures Replay(s, GroupUndos(id, g)) == s.(
              memseg := Free(s.memseg, g.addr, g.addr + ALLOC_SIZE).segs,
              freeGroup := s.freeGroup + [id],
              freeNode := s.freeNode + g.nodes,
              recirPortCnt := s.recirPortCnt[g.port := s.recirPortCnt[g.port] - 1],
              recirculate := Without(s.recirculate, id),
              metadata := Without(s.metadata, id))
  {
    hide Free, Without;
    var log := GroupUndos(id, g);
    var one := Exec(Exec(s, log[5]), log[4]);
    var two := Exec(Exec(one, log[3]), log[2]);
    assert log[..2][..1][..0] == [];
    assert log[..2] == [log[0], log[1]] && log[..4] == [log[0], log[1], log[2], log[3]];
    TwoSteps(two, log[..2], []);
    assert log[..4][..3][..2] == log[..2];
    TwoSteps(one, log[..4], log[..2]);
    assert log[..5][..4] == log[..4];
    TwoSteps(s, log, log[..4]);
  }

  /** DestroyGroup's replay, in reverse order of creation, is exactly `Destroyed`. */
  lemma {:induction false} ReplayLog(s: State, id: nat, g: Group)
    requires Undoable(s, id, g)
    ensures CanReplay(s, UndoLog(id, g)) && Replay(s, UndoLog(id, g)) == Destroyed(s, id, g)
  {
    hide Free, MemberUndos;
    var log := UndoLog(id, g);
    var rest := GroupUndos(id, g) + MemberUndos(id, g.nodes, |g.nodes|);
    assert log[|log| - 1] == DelMgid(id) && log[..|log| - 1] == rest;
    var t := Exec(s, DelMgid(id));
    ReplayFirst(DropMembers(t, id, g.nodes, |g.nodes|), id, g);
    ReplayMembers(t, GroupUndos(id, g), id, g.nodes, |g.nodes|);
    assert DropMembers(t, id, g.nodes, |g.nodes|).restore == DropMembers(s, id, g.nodes, |g.nodes|).restore;
    assert DropMembers(t, id, g.nodes, |g.nodes|).node == DropMembers(s, id, g.nodes, |g.nodes|).node;
  }

  // ----- a destroyed group keeps the law

  lemma {:induction false} CanUndo(topo: Topology, s: State, live: map<nat, Group>, id: nat)
    requires Conserved(topo, s, live) && id in live
    ensures Undoable(s, id, live[id])
  {
    hide GroupsOk, Free, Ordered, Bytes, Partitioned, Owned, IpToPort, GroupMask, GroupsOn;
    var g := live[id];
    assert Block(g) !! Bytes(s.memseg) by {
      BlockApart(Bytes(s.memseg), live, id);
    }
    InvalidIffOverlap(s.memseg, SWITCH_MEM_SIZE, g.addr, g.addr + ALLOC_SIZE);
  }

  lemma {:induction false} BlockApart(free: iset<int>, live: map<nat, Group>, id: nat)
    requires Partitioned(free, live) && id in live
    ensures Block(live[id]) !! free
  {
  }

  lemma {:induction false} JoinApart(a: seq<nat>, b: seq<nat>)
    requires Distinct(a) && Distinct(b) && forall x | x in a :: x !in b
    ensures Distinct(a + b)
  {
    forall i, j | 0 <= i < j < |a + b|
      ensures (a + b)[i] != (a + b)[j]
    {
      if i < |a| <= j {
        assert a[i] in a && b[j - |a|] in b;
      }
    }
  }

  lemma {:induction false} DestroyGroups(s: State, live: map<nat, Group>, id: nat, s': State)
    requires GroupsOk(s, live) && id in live && s'.freeGroup == s.freeGroup + [id]
    ensures GroupsOk(s', live - {id})
  {
    JoinApart(s.freeGroup, [id]);
  }

  lemma {:induction false} OwnedLess(s: State, live: map<nat, Group>, id: nat)
    requires NodesOk(s, live) && id in live
    ensures forall n: nat :: Owned(live - {id}, n) <==> Owned(live, n) && n !in live[id].nodes
  {
    var live' := live - {id};
    forall n: nat
      ensures Owned(live', n) <==> Owned(live, n) && n !in live[id].nodes
    {
      if Owned(live', n) {
        var a :| a in live' && n in live'[a].nodes;
        assert a in live && n in live[a].nodes;
      }
      if Owned(live, n) && n !in live[id].nodes {
        var a :| a in live && n in live[a].nodes;
        assert a in live' && n in live'[a].nodes;
      }
    }
  }

  lemma {:induction false} DestroyNodes(s: State, live: map<nat, Group>, id: nat, s': State)
    requires NodesOk(s, live) && id in live && s'.freeNode == s.freeNode + live[id].nodes
    ensures NodesOk(s', live - {id})
  {
    OwnedLess(s, live, id);
    forall n | n in live[id].nodes
      ensures Owned(live, n)
    {
    }
    JoinApart(s.freeNode, live[id].nodes);
  }

  lemma {:induction false} GiveBlock(free: iset<int>, live: map<nat, Group>, id: nat)
    requires Partitioned(free, live) && id in live
    ensures Partitioned(free + Block(live[id]), live - {id})
  {
    hide Block;
    var live' := live - {id};
    forall x | 0 <= x < SWITCH_MEM_SIZE
      ensures x in free + Block(live[id]) || InBlock(live', x)
    {
      if x !in free {
        var a :| a in live && x in Block(live[a]);
        if a != id {
          assert a in live' && x in Block(live'[a]);
        }
      }
    }
  }

  lemma {:induction false} DestroyMemory(s: State, live: map<nat, Group>, id: nat, s': State)
    requires MemoryOk(s, live) && id in live
    requires Free(s.memseg, live[id].addr, live[id].addr + ALLOC_SIZE) == Freed(s'.memseg)
    ensures MemoryOk(s', live - {id})
  {
    hide Partitioned, Free, Bytes, Range;
    var g := live[id];
    FreeGives(s.memseg, SWITCH_MEM_SIZE, g.addr, g.addr + ALLOC_SIZE);
    Arith.OneBack(g.addr + ALLOC_SIZE, ALLOC_SIZE);
    FreeAligned(s.memseg, SWITCH_MEM_SIZE, g.addr, g.addr + ALLOC_SIZE, ALLOC_SIZE);
    GiveBlock(Bytes(s.memseg), live, id);
  }

  lemma {:induction false} DestroyPorts(topo: Topology, s: State, live: map<nat, Group>, id: nat, s': State)
    requires PortsOk(topo, s, live) && id in live
    requires s'.recirPortCnt == s.recirPortCnt[live[id].port := s.recirPortCnt[live[id].port] - 1]
    ensures PortsOk(topo, s', live - {id})
  {
    hide GroupsOn;
    var live' := live - {id};
    forall i | 0 <= i < |s.recirPortCnt|
      ensures s'.recirPortCnt[i] == |GroupsOn(live', i)|
    {
      GroupsOnMore(live', id, live[id], i);
      assert live'[id := live[id]] == live;
    }
  }

  lemma {:induction false} DestroyGroupTables(topo: Topology, s: State, live: map<nat, Group>, id: nat, s': State)
    requires GroupTablesOk(topo, s, live) && id in live
    requires s'.recirculate == Without(s.recirculate, id) && s'.metadata == Without(s.metadata, id)
    requires s'.mgid == Without(s.mgid, id)
    ensures GroupTablesOk(topo, s', live - {id})
  {
    hide GroupMask;
  }

  lemma {:induction false} DestroyRestore(topo: Topology, s: State, live: map<nat, Group>, id: nat, s': State)
    requires RestoreOk(topo, s, live) && id in live && |live[id].nodes| == |live[id].members|
    requires s'.restore == DropMembers(s, id, live[id].nodes, |live[id].nodes|).restore
    ensures RestoreOk(topo, s', live - {id})
  {
  }

  lemma {:induction false} DestroyTables(topo: Topology, s: State, live: map<nat, Group>, id: nat, s': State)
    requires TablesOk(topo, s, live) && NodesOk(s, live) && id in live
    requires s'.recirculate == Without(s.recirculate, id) && s'.metadata == Without(s.metadata, id)
    requires s'.mgid == Without(s.mgid, id)
    requires s'.restore == DropMembers(s, id, live[id].nodes, |live[id].nodes|).restore
    requires s'.node == DropMembers(s, id, live[id].nodes, |live[id].nodes|).node
    ensures TablesOk(topo, s', live - {id})
  {
    assert |live[id].nodes| == |live[id].members|;
    hide GroupTablesOk, RestoreOk, NodeTableOk, NodesOk, Without, DropMembers;
    DestroyGroupTables(topo, s, live, id, s');
    DestroyRestore(topo, s, live, id, s');
    DestroyNodeTable(topo, s, live, id, s');
  }

  lemma {:induction false} DestroyNodeTable(topo: Topology, s: State, live: map<nat, Group>, id: nat, s': State)
    requires NodeTableOk(topo, s, live) && NodesOk(s, live) && id in live
    requires s'.node == DropMembers(s, id, live[id].nodes, |live[id].nodes|).node
    ensures NodeTableOk(topo, s', live - {id})
  {
    hide Owned, IpToPort;
    OwnedLess(s, live, id);
    assert live[id].nodes[..|live[id].nodes|] == live[id].nodes;
    forall a, r | a in live - {id} && 0 <= r < |live[a].nodes|
      ensures live[a].nodes[r] !in live[id].nodes
    {
      assert live[a].nodes[r] in live[a].nodes;
    }
  }

  lemma {:induction false} DestroyedKeeps(topo: Topology, s: State, live: map<nat, Group>, id: nat, g: Group)
    requires Conserved(topo, s, live) && id in live && g == live[id]
    requires Free(s.memseg, g.addr, g.addr + ALLOC_SIZE).Freed? && g.port < |s.recirPortCnt|
    ensures Conserved(topo, Destroyed(s, id, g), live - {id})
  {
    hide GroupsOk, NodesOk, MemoryOk, PortsOk, TablesOk, DropMembers, Without, Free, Destroyed;
    DestroyedFields(s, id, g);
    var s' := Destroyed(s, id, g);
    DestroyGroups(s, live, id, s');
    DestroyNodes(s, live, id, s');
    DestroyMemory(s, live, id, s');
    DestroyPorts(topo, s, live, id, s');
    DestroyTables(topo, s, live, id, s');
  }

  /** DestroyGroup undoes its own group only, whatever happened since it was created, and keeps the conservation law. */
  lemma {:induction false} DestroyKeeps(topo: Topology, s: State, live: map<nat, Group>, id: nat)
    requires Conserved(topo, s, live) && id in live
    ensures CanReplay(s, UndoLog(id, live[id]))
    ensures Conserved(topo, Replay(s, UndoLog(id, live[id])), live - {id})
  {
    CanUndo(topo, s, live, id);
    hide Conserved, UndoLog, Destroyed;
    ReplayLog(s, id, live[id]);
    DestroyedKeeps(topo, s, live, id, live[id]);
  }

  lemma {:induction false} DestroyedFields(s: State, id: nat, g: Group)
    requires Free(s.memseg, g.addr, g.addr + ALLOC_SIZE).Freed? && g.port < |s.recirPortCnt|
    ensures var s' := Destroyed(s, id, g);
            && s'.freeGroup == s.freeGroup + [id] && s'.freeNode == s.freeNode + g.nodes
            && Free(s.memseg, g.addr, g.addr + ALLOC_SIZE) == Freed(s'.memseg)
            && s'.recirPortCnt == s.recirPortCnt[g.port := s.recirPortCnt[g.port] - 1]
            && s'.recirculate == Without(s.recirculate, id) && s'.metadata == Without(s.metadata, id)
            && s'.mgid == Without(s.mgid, id)
            && s'.restore == DropMembers(s, id, g.nodes, |g.nodes|).restore
            && s'.node == DropMembers(s, id, g.nodes, |g.nodes|).node
  {
    hide Free;
  }
}
