/** How many groups the switch has room for: a creation is refused only when nothing is left. */
module Capacity {
  import Arith
  import opened Bitmap
  import opened FreeList
  import opened Groups
  import opened Sequences

  /** Blocks of the switch memory. */
  const BLOCKS: nat := SWITCH_MEM_SIZE / ALLOC_SIZE

  /** The numbers of the blocks that the groups `ids` have. */
  function BlocksOf(live: map<nat, Group>, ids: set<nat>): set<nat>
    requires ids <= live.Keys
  {
    set id | id in ids :: live[id].addr / ALLOC_SIZE
  }

  lemma {:induction false} OneBlock(live: map<nat, Group>, a: nat, x: int)
    requires a in live && live[a].addr % ALLOC_SIZE == 0
    ensures x in Block(live[a]) <==> x / ALLOC_SIZE == live[a].addr / ALLOC_SIZE
  {
  }

  lemma {:induction false} OneEach(s: State, live: map<nat, Group>, ids: set<nat>)
    requires MemoryOk(s, live) && ids <= live.Keys
    ensures |BlocksOf(live, ids)| == |ids|
  {
    hide Ordered, Aligned, Bytes;
    if ids != {} {
      var a :| a in ids;
      OneEach(s, live, ids - {a});
      var k := live[a].addr / ALLOC_SIZE;
      assert BlocksOf(live, ids) == BlocksOf(live, ids - {a}) + {k};
      if k in BlocksOf(live, ids - {a}) {
        var b :| b in ids - {a} && live[b].addr / ALLOC_SIZE == k;
        OneBlock(live, a, live[a].addr);
        OneBlock(live, b, live[a].addr);
        assert false;
      }
    }
  }

  lemma {:induction false} BlocksBelow(s: State, live: map<nat, Group>)
    requires MemoryOk(s, live)
    ensures BlocksOf(live, live.Keys) <= Ranks(BLOCKS)
    ensures |BlocksOf(live, live.Keys)| == |live| <= BLOCKS
  {
    hide Ordered, Aligned, Bytes, Partitioned;
    OneEach(s, live, live.Keys);
    RanksSize(BLOCKS);
    Within(BlocksOf(live, live.Keys), Ranks(BLOCKS));
  }

  lemma {:induction false} RanksSize(n: nat)
    ensures |Ranks(n)| == n
  {
    if n > 0 {
      RanksSize(n - 1);
      assert Ranks(n) == Ranks(n - 1) + {n - 1};
    } else {
      assert Ranks(0) == {};
    }
  }

  /** A part of a set is no larger, and smaller if it is not all of it. */
  lemma {:induction false} Within(a: set<nat>, b: set<nat>)
    requires a <= b
    ensures |a| <= |b| && (|a| == |b| ==> a == b)
  {
    assert b == a + (b - a);
    assert |b| == |a| + |b - a|;
  }

  lemma {:induction false} Missing(a: set<nat>, b: set<nat>) returns (x: nat)
    requires a <= b && |a| < |b|
    ensures x in b && x !in a
  {
    if b <= a {
      Within(b, a);
      assert false;
    }
    x :| x in b && x !in a;
  }

  /** A byte of a block is free iff no live group has the block. */
  lemma {:induction false} FreeIff(s: State, live: map<nat, Group>, x: nat)
    requires MemoryOk(s, live) && x < SWITCH_MEM_SIZE
    ensures x in Bytes(s.memseg) <==> x / ALLOC_SIZE !in BlocksOf(live, live.Keys)
  {
    hide Ordered, Aligned, Bytes;
    if x / ALLOC_SIZE in BlocksOf(live, live.Keys) {
      var id :| id in live && live[id].addr / ALLOC_SIZE == x / ALLOC_SIZE;
      OneBlock(live, id, x);
      assert x in Block(live[id]) && Block(live[id]) !! Bytes(s.memseg);
    } else if x !in Bytes(s.memseg) {
      assert InBlock(live, x);
      var id :| id in live && x in Block(live[id]);
      OneBlock(live, id, x);
      assert false;
    }
  }

  /** There is a fit iff fewer groups are live than the memory has blocks. */
  lemma {:induction false} FitIff(s: State, live: map<nat, Group>)
    requires MemoryOk(s, live)
    ensures FirstFit(s.memseg, ALLOC_SIZE).Fit? <==> |live| < BLOCKS
  {
    hide Ordered, Aligned, Bytes, Partitioned, FirstFit;
    FixedSizeFit(s.memseg, SWITCH_MEM_SIZE, ALLOC_SIZE);
    BlocksBelow(s, live);
    RanksSize(BLOCKS);
    var taken := BlocksOf(live, live.Keys);
    if |live| < BLOCKS {
      var k := Missing(taken, Ranks(BLOCKS));
      var x: nat := k * ALLOC_SIZE;
      FreeIff(s, live, x);
    } else if FirstFit(s.memseg, ALLOC_SIZE).Fit? {
      Within(taken, Ranks(BLOCKS));
      var x := FirstFit(s.memseg, ALLOC_SIZE).addr;
      FitInside(s.memseg);
      FreeIff(s, live, x);
      assert false;
    }
  }

  lemma {:induction false} FitInside(segs: seq<Seg>)
    requires Ordered(segs, SWITCH_MEM_SIZE) && FirstFit(segs, ALLOC_SIZE).Fit?
    ensures FirstFit(segs, ALLOC_SIZE).addr + ALLOC_SIZE <= SWITCH_MEM_SIZE
  {
    hide FirstFit, Bytes;
    FirstFitLowest(segs, SWITCH_MEM_SIZE, ALLOC_SIZE);
  }

  /** There is a free id iff fewer groups are live than there are ids. */
  lemma {:induction false} IdIff(s: State, live: map<nat, Group>)
    requires GroupsOk(s, live)
    ensures s.freeGroup != [] <==> |live| < MAX_GROUP_NUM - 1
  {
    var all := IdSet();
    KeysSize(live);
    Within(live.Keys, all);
    if s.freeGroup != [] {
      assert s.freeGroup[0] in s.freeGroup;
      assert s.freeGroup[0] in all && s.freeGroup[0] !in live.Keys;
    } else if |live.Keys| < |all| {
      var id := Missing(live.Keys, all);
      assert false;
    }
  }

  lemma {:induction false} KeysSize(live: map<nat, Group>)
    ensures |live.Keys| == |live|
  {
  }

  lemma {:induction false} IdSet() returns (all: set<nat>)
    ensures |all| == MAX_GROUP_NUM - 1 && forall id: nat :: id in all <==> 0 < id < MAX_GROUP_NUM
  {
    RanksSize(MAX_GROUP_NUM);
    all := Ranks(MAX_GROUP_NUM) - {0};
  }

  /**
   * Creation is accepted exactly while fewer than 16 groups are live and the members do not outnumber the free nodes:
   * neither ids nor fragments of memory ever run out before that.
   */
  lemma {:induction false} AcceptedIff(topo: Topology, s: State, live: map<nat, Group>, members: seq<nat>)
    requires Conserved(topo, s, live)
    ensures !NoResource(s, members) <==> |live| < 16 && |members| <= |s.freeNode|
  {
    hide GroupsOk, NodesOk, MemoryOk, PortsOk, TablesOk, FirstFit;
    FitIff(s, live);
    IdIff(s, live);
    BlocksBelow(s, live);
  }

  function Elements(s: seq<nat>): set<nat> {
    set x | x in s
  }

  lemma {:induction false} DistinctSize(s: seq<nat>)
    requires Distinct(s)
    ensures |Elements(s)| == |s|
  {
    if s == [] {
      assert Elements(s) == {};
    } else {
      var front, last := s[..|s| - 1], s[|s| - 1];
      DistinctSize(front);
      assert s == front + [last] && last !in front;
      assert Elements(s) == Elements(front) + {last};
    }
  }

  /** The nodes of the live groups. */
  ghost function UsedNodes(live: map<nat, Group>): set<nat> {
    set n | n in Ranks(1024) && Owned(live, n)
  }

  /** The free nodes are all that no live group has. */
  lemma {:induction false} FreeNodes(topo: Topology, s: State, live: map<nat, Group>)
    requires Conserved(topo, s, live)
    ensures |s.freeNode| + |UsedNodes(live)| == 1023
  {
    hide GroupsOk, MemoryOk, PortsOk, TablesOk;
    RanksSize(1024);
    DistinctSize(s.freeNode);
    SplitNodes(s, live);
    hide NodesOk, UsedNodes, Elements, Distinct, Owned;
    var free, used := Elements(s.freeNode), UsedNodes(live);
    assert |free + used| == |free| + |used|;
    assert |Ranks(1024) - {0}| == 1023;
  }

  lemma {:induction false} SplitNodes(s: State, live: map<nat, Group>)
    requires NodesOk(s, live)
    ensures Elements(s.freeNode) !! UsedNodes(live)
    ensures Elements(s.freeNode) + UsedNodes(live) == Ranks(1024) - {0}
  {
    NodeZero(s, live);
    hide Owned;
  }

  lemma {:induction false} NodeZero(s: State, live: map<nat, Group>)
    requires NodesOk(s, live)
    ensures !Owned(live, 0)
  {
  }

  /** Every id from 1 to 255 is free or live. */
  lemma {:induction false} FreeIds(topo: Topology, s: State, live: map<nat, Group>)
    requires Conserved(topo, s, live)
    ensures |s.freeGroup| + |live| == 255
    ensures forall id: nat :: (id in s.freeGroup || id in live) <==> 1 <= id <= 255
  {
    hide NodesOk, MemoryOk, PortsOk, TablesOk;
    RanksSize(256);
    DistinctSize(s.freeGroup);
    SplitIds(s, live);
    KeysSize(live);
    hide GroupsOk, Elements, Distinct;
    var free, used := Elements(s.freeGroup), live.Keys;
    assert |free + used| == |free| + |used|;
    assert |Ranks(256) - {0}| == 255;
  }

  lemma {:induction false} SplitIds(s: State, live: map<nat, Group>)
    requires GroupsOk(s, live)
    ensures Elements(s.freeGroup) !! live.Keys && Elements(s.freeGroup) + live.Keys == Ranks(256) - {0}
    ensures forall id: nat :: (id in s.freeGroup || id in live) <==> 1 <= id <= 255
  {
    forall id: nat
      ensures (id in s.freeGroup || id in live) <==> 1 <= id <= 255
    {
      assert 1 <= id <= 255 <==> 0 < id < MAX_GROUP_NUM;
    }
  }
}
