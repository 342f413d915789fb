/** Lanes beside each other: traffic of live groups keeps to its lane, and what a packet of another group does to one. */
module Isolation {
  import Arith
  import opened Bitmap
  import opened DataPlane
  import opened Collectives
  import opened Groups
  import opened Controller
  import opened Switch
  import opened Protocol
  import opened ProtocolTheorems
  import opened WrapRuns
  import opened Lanes
  import P = Progress

  // ----- a first pass on one lane, and every other lane

  function Start(live: map<nat, Group>, lane: Lane): nat
    requires lane.id in live && lane.workers > 0
  {
    LaneStart(live[lane.id], lane.workers, lane.i)
  }

  /** Lane `b` of a live group, other than `a`, shows the slots of `net` for `c`. */
  ghost predicate OtherLane(ingress: Ingress, live: map<nat, Group>, a: Lane, b: Lane, c: Config, net: Net)
    reads ingress, ingress.regBitmap, ingress.aggregators
  {
    && b != a && b.id in live && RunsOn(c, b, live[b.id]) && (b.id == a.id ==> b.workers == a.workers)
    && ShowsSlots(ingress, c, Start(live, b), net)
  }

  /** No slot of lane `a` is in another lane of a live group. */
  ghost predicate Alone(live: map<nat, Group>, a: Lane) {
    && a.id in live && a.i < a.workers
    && forall b: Lane, x: int |
         b != a && b.id in live && b.i < b.workers && (b.id == a.id ==> b.workers == a.workers)
         && InLane(live[b.id], b.workers, b.i, x) :: !InLane(live[a.id], a.workers, a.i, x)
  }

  /** So it is with every lane that the controller's groups have. */
  lemma {:induction false} LanesAlone(topo: Topology, server: Server, a: Lane)
    requires Sound(topo, server) && a.id in server.live && a.i < a.workers
    ensures Alone(server.live, a)
  {
    hide Sound, InLane;
    forall b: Lane, x: int |
      b != a && b.id in server.live && b.i < b.workers && (b.id == a.id ==> b.workers == a.workers)
      && InLane(server.live[b.id], b.workers, b.i, x)
      ensures !InLane(server.live[a.id], a.workers, a.i, x)
    {
      if InLane(server.live[a.id], a.workers, a.i, x) {
        LanesDisjoint(topo, server, a, b, x);
        assert false;
      }
    }
  }

  lemma {:induction false} InItsLane(c: Config, lane: Lane, g: Group, addr: nat)
    requires RunsOn(c, lane, g)
    ensures InLane(g, lane.workers, lane.i, addr)
            <==> LaneStart(g, lane.workers, lane.i) <= addr < LaneStart(g, lane.workers, lane.i) + c.len
  {
    hide LaneStart, LaneLen;
  }

  /** All register slots. */
  ghost function AllSlots(ingress: Ingress): (slots: seq<Slot>)
    requires ingress.Valid()
    reads ingress, ingress.regBitmap, ingress.aggregators
    ensures |slots| == ingress.regBitmap.Length && forall x | 0 <= x < |slots| :: slots[x] == ingress.SlotAt(x)
  {
    seq(ingress.regBitmap.Length,
        x requires 0 <= x < ingress.regBitmap.Length reads ingress, ingress.regBitmap, ingress.aggregators => ingress.SlotAt(x))
  }

  /** A lane shows what its stretch of the registers holds. */
  lemma {:induction false} ShowsStretch(ingress: Ingress, c: Config, start: nat, net: Net)
    requires ingress.Valid()
    ensures ShowsSlots(ingress, c, start, net)
            <==> Shape(c, net) && start + c.len <= |AllSlots(ingress)| && net.slots == AllSlots(ingress)[start..start + c.len]
  {
    hide Ingress.SlotAt;
    if start + c.len <= |AllSlots(ingress)| {
      assert LaneSlots(ingress, start, c.len) == AllSlots(ingress)[start..start + c.len];
    }
  }

  /** The same of a copy of the registers. */
  ghost predicate ShownIn(slots: seq<Slot>, live: map<nat, Group>, a: Lane, b: Lane, c: Config, net: Net) {
    && b != a && b.id in live && RunsOn(c, b, live[b.id]) && (b.id == a.id ==> b.workers == a.workers)
    && Shape(c, net) && Start(live, b) + c.len <= |slots|
    && net.slots == slots[Start(live, b)..Start(live, b) + c.len]
  }

  lemma {:induction false} OtherIff(ingress: Ingress, live: map<nat, Group>, a: Lane)
    requires ingress.Valid()
    ensures forall b, c, net :: OtherLane(ingress, live, a, b, c, net) <==> ShownIn(AllSlots(ingress), live, a, b, c, net)
  {
    hide ShowsSlots, AllSlots, LaneStart;
    forall b, c, net
      ensures OtherLane(ingress, live, a, b, c, net) <==> ShownIn(AllSlots(ingress), live, a, b, c, net)
    {
      if b.id in live && RunsOn(c, b, live[b.id]) {
        ShowsStretch(ingress, c, Start(live, b), net);
      }
    }
  }

  /** Other lanes stay if only a slot of lane `a` changed. */
  lemma {:induction false} OthersStay(live: map<nat, Group>, a: Lane, c: Config, addr: nat, before: seq<Slot>, after: seq<Slot>)
    requires Alone(live, a) && RunsOn(c, a, live[a.id])
    requires Start(live, a) <= addr < Start(live, a) + c.len
    requires |before| == |after| && forall x | 0 <= x < |before| && x != addr :: after[x] == before[x]
    ensures forall b, d, net | ShownIn(before, live, a, b, d, net) :: ShownIn(after, live, a, b, d, net)
  {
    hide LaneStart, LaneLen, InLane;
    forall b, d, net | ShownIn(before, live, a, b, d, net)
      ensures ShownIn(after, live, a, b, d, net)
    {
      InItsLane(c, a, live[a.id], addr);
      InItsLane(d, b, live[b.id], addr);
      assert !InLane(live[b.id], b.workers, b.i, addr);
      var s := Start(live, b);
      assert after[s..s + d.len] == before[s..s + d.len];
    }
  }

  /**
   * The pipeline takes the protocol's first-pass step on one lane of a live group, and no other lane of any live group
   * notices.
   */
  method FirstPassAmongLanes(ingress: Ingress, egress: Egress, ghost live: map<nat, Group>, ghost a: Lane, ghost port: nat,
                             ghost c: Config, ghost net: Net, ghost log: Log, ghost h: nat, raw: Headers)
    returns (out: Headers, forwarding: Forwarding)
    requires Alone(live, a) && RunsOn(c, a, live[a.id]) && Knows(ingress, c, port)
    requires Reached(c, net, log) && Enabled(c, net, FirstPass(h))
    requires ShowsSlots(ingress, c, Start(live, a), net)
    requires Sent(c, Start(live, a), h, net.links[h][0], raw)
    modifies ingress.regBitmap, ingress.aggregators
    ensures ShowsSlots(ingress, c, Start(live, a), OnFirstPass(c, net, h))
    ensures Queued(c, Start(live, a), net, h, port, forwarding, out)
    ensures forall b, d, other | old(OtherLane(ingress, live, a, b, d, other)) ::
              OtherLane(ingress, live, a, b, d, other)
  {
    assert ingress.Valid();
    hide Alone, Start, Reached, ShowsSlots, AllSlots, Queued, Knows, Sent, OnFirstPass, OtherLane, ShownIn, RunsOn, Ingress.SlotAt;
    ghost var before := AllSlots(ingress);
    OtherIff(ingress, live, a);
    out, forwarding := FirstPassOnLane(ingress, egress, port, c, Start(live, a), net, log, h, raw);
    OthersStay(live, a, c, raw.aggAddr, before, AllSlots(ingress));
    OtherIff(ingress, live, a);
  }

  // ----- packets of other groups

  /** A packet on its first pass that a member of another group sent, say of one destroyed since. */
  predicate Stray(c: Config, hdr: Headers) {
    && hdr.isNetccl && hdr.passCnt == 1 && hdr.payload.Some?
    && hdr.groupId != c.group && hdr.rank < MAX_RANKS
  }

  /** The lane after the packet went through the slot `i`. */
  function Struck(net: Net, i: nat, hdr: Headers): Net
    requires i < |net.slots| && hdr.payload.Some?
  {
    net.(slots := net.slots[i := LoneSlot(hdr)])
  }

  lemma {:induction false} OtherVersion(a: nat, b: nat, p: nat, q: nat)
    requires a != b
    ensures VersionOf(a, p) != VersionOf(b, q)
  {
  }

  /** A slot of a lane has no members for the version of a stray packet. */
  lemma {:induction false} NothingFound(c: Config, net: Net, log: Log, i: nat, hdr: Headers)
    requires Reached(c, net, log) && i < c.len && Stray(c, hdr)
    ensures |net.slots| == c.len && Found(net.slots[i], Version(hdr)) == {}
  {
    hide Inv, Folded;
    ReachedInv(c, net, log);
    SlotVersion(c, net, log, i, hdr);
  }

  lemma {:induction false} SlotVersion(c: Config, net: Net, log: Log, i: nat, hdr: Headers)
    requires Inv(c, net, log) && i < c.len && hdr.groupId != c.group
    ensures Found(net.slots[i], Version(hdr)) == {}
  {
    hide LinkOk, WaitingOk, ResultOk, HostOk, Folded, VersionOf;
    assert SlotOk(c, net.slots[i], log, i);
    if log.at[i] >= 0 {
      OtherVersion(c.group, hdr.groupId, log.at[i], hdr.psn);
    }
  }

  /** The bits of a slot without members of a version, and what a packet of that version leaves. */
  lemma {:induction false} EmptyBefore(held: nat, bits: bv32, version: nat, rank: nat)
    requires (held == version ==> Members(bits) == {}) && rank < MAX_RANKS
    ensures var before: bv32 := if held == version then bits else 0;
            before == 0 && Members(Join(before, Ingress.RankBitmap(rank))) == {rank}
  {
    hide Shl;
    MembersEmpty(bits);
    MembersEmpty(0);
    Ingress.JoinMembers(0, rank);
  }

  /** What a packet that finds no members leaves. */
  function LoneSlot(hdr: Headers): Slot
    requires hdr.payload.Some?
  {
    Slot(Version(hdr), {hdr.rank}, Overwrite(hdr.payload.value))
  }

  /** A first pass that finds no members of its version replaces whatever its slot held. */
  method Replaces(ingress: Ingress, hdr: Headers) returns (out: Headers, forwarding: Forwarding)
    requires ingress.Valid() && hdr.isNetccl && hdr.passCnt == 1 && hdr.payload.Some? && hdr.rank < MAX_RANKS
    requires hdr.aggAddr < ingress.regBitmap.Length
    modifies ingress.regBitmap, ingress.aggregators
    ensures AllSlots(ingress) == old(AllSlots(ingress))[hdr.aggAddr := ingress.SlotAt(hdr.aggAddr)]
    ensures old(Found(ingress.SlotAt(hdr.aggAddr), Version(hdr))) == {} ==> ingress.SlotAt(hdr.aggAddr) == LoneSlot(hdr)
  {
    hide Version, Members, Join, Ingress.RankBitmap, Overwrite;
    ghost var pair := ingress.regBitmap[hdr.aggAddr];
    out, forwarding := ingress.Apply(hdr);
    if old(Found(ingress.SlotAt(hdr.aggAddr), Version(hdr))) == {} {
      EmptyBefore(pair.version, pair.bitmap, Version(hdr), hdr.rank);
    }
    forall x | 0 <= x < ingress.regBitmap.Length && x != hdr.aggAddr
      ensures ingress.SlotAt(x) == old(ingress.SlotAt(x))
    {
      assert ingress.RowAt(x) == old(ingress.RowAt(x));
    }
  }

  /** A stretch after one slot has changed. */
  lemma {:induction false} Stretch(before: seq<Slot>, after: seq<Slot>, start: nat, len: nat, addr: nat)
    requires addr < |before| == |after| && after == before[addr := after[addr]] && start + len <= |before|
    ensures var was, now := before[start..start + len], after[start..start + len];
            now == if start <= addr < start + len then was[addr - start := after[addr]] else was
  {
  }

  /**
   * The data plane does not ask whom a slot belongs to: a stray packet leaves the lane as it was if and only if its
   * address is outside, and otherwise its slot holds that packet alone.
   */
  method StrayOnLane(ingress: Ingress, ghost c: Config, ghost start: nat, ghost net: Net, ghost log: Log, hdr: Headers)
    returns (out: Headers, forwarding: Forwarding)
    requires Reached(c, net, log) && ShowsSlots(ingress, c, start, net)
    requires Stray(c, hdr) && hdr.aggAddr < ingress.regBitmap.Length
    modifies ingress.regBitmap, ingress.aggregators
    ensures ShowsSlots(ingress, c, start, net) <==> !(start <= hdr.aggAddr < start + c.len)
    ensures start <= hdr.aggAddr < start + c.len ==> ShowsSlots(ingress, c, start, Struck(net, hdr.aggAddr - start, hdr))
  {
    assert ingress.Valid() && Shape(c, net);
    hide Reached, LaneSlots, AllSlots, ShowsSlots, Version, Overwrite;
    ghost var before, i := AllSlots(ingress), hdr.aggAddr - start;
    ShowsStretch(ingress, c, start, net);
    if 0 <= i < c.len {
      NothingFound(c, net, log, i, hdr);
    }
    out, forwarding := Replaces(ingress, hdr);
    ShowsStretch(ingress, c, start, net);
    Stretch(before, AllSlots(ingress), start, c.len, hdr.aggAddr);
    if 0 <= i < c.len {
      assert before[hdr.aggAddr] == net.slots[i] != LoneSlot(hdr);
      ShowsStretch(ingress, c, start, Struck(net, i, hdr));
    }
  }

  /**
   * A packet that waits for its second pass when its slot is struck reaches each of its receivers with its own even
   * words and the stray packet's odd words.
   */
  lemma {:induction false} StrayTears(c: Config, net: Net, log: Log, hdr: Headers) returns (order: seq<nat>)
    requires Reached(c, net, log) && net.queue != [] && Stray(c, hdr)
    ensures ArrivalOrder(c, order)
    ensures var w := net.queue[0]; var struck := Struck(net, Index(c, w.psn), hdr);
            forall r | r in Receivers(c, w) ::
              Message(r, w.psn, Strip(c.coll(w.psn), r, Torn(Folded(DataOf(c, w.psn), Tag(c, w.psn), order),
                                                             Overwrite(hdr.payload.value)))) in OnSecondPass(c, struck).sent
  {
    hide Inv, Reached, Index, Folded, Torn, Strip, Receivers, Overwrite, ReadEven, Version, Tag;
    ReachedInv(c, net, log);
    order := OwnRow(c, P.State(net, log));
    var w := net.queue[0];
    SecondPassTears(c, Struck(net, Index(c, w.psn), hdr), Folded(DataOf(c, w.psn), Tag(c, w.psn), order));
  }

  /**
   * A struck slot has forgotten all that came for its psn: the next packet starts it afresh, and is answered only if its
   * sender is the whole group.
   */
  lemma {:induction false} StrayForgets(c: Config, net: Net, hdr: Headers, psn: nat, h: nat)
    requires Protocol.Valid(c) && Shape(c, net) && Stray(c, hdr) && h < c.size
    ensures var slot := Struck(net, Index(c, psn), hdr).slots[Index(c, psn)];
            && Absorb(slot, Tag(c, psn), h, Data(c, psn, h)) == Slot(Tag(c, psn), {h}, Overwrite(Data(c, psn, h)))
            && (Decide(c.size, slot, Tag(c, psn), h, Data(c, psn, h)).Drop? <==> c.size > 1)
  {
    hide Index, Overwrite, Data, VersionOf;
    OtherVersion(c.group, hdr.groupId, psn, hdr.psn);
    if c.size > 1 {
      assert 0 in Ranks(c.size) && 1 in Ranks(c.size);
    } else {
      assert Ranks(c.size) == {h};
    }
  }
}
