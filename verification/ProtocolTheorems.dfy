/** What the invariant means for every run of the protocol. */
module ProtocolTheorems {
  import Arith
  import opened Bitmap
  import opened DataPlane
  import opened Collectives
  import opened Protocol
  import opened ProtocolSafety
  import opened Sequences

  ghost function FinalLog(c: Config, net: Net, log: Log, actions: seq<Action>): Log
    requires Valid(c) && Shape(c, net) && LogShape(c, log) && Run(c, net, actions)
    decreases actions
  {
    if actions == [] then log
    else FinalLog(c, Step(c, net, actions[0]), LogStep(c, net, log, actions[0]), actions[1..])
  }

  /** No host has sent a packet to a slot that was used less than two windows before. */
  ghost predicate AllApart(c: Config, net: Net)
    requires Valid(c)
  {
    Shape(c, net) && forall h, p: nat | 0 <= h < c.size && p < net.hosts[h].next :: Apart(c, p)
  }

  lemma {:induction false} FinalShape(c: Config, net: Net, actions: seq<Action>)
    requires Valid(c) && Shape(c, net) && Run(c, net, actions)
    ensures Shape(c, Final(c, net, actions))
    decreases actions
  {
    hide Step, Enabled;
    if actions != [] {
      FinalShape(c, Step(c, net, actions[0]), actions[1..]);
    }
  }

  lemma {:induction false} NextGrows(c: Config, net: Net, actions: seq<Action>, h: nat)
    requires Valid(c) && Shape(c, net) && Run(c, net, actions) && h < c.size
    ensures Shape(c, Final(c, net, actions)) && net.hosts[h].next <= Final(c, net, actions).hosts[h].next
    decreases actions
  {
    hide Step, Enabled;
    if actions != [] {
      StepNext(c, net, actions[0], h);
      NextGrows(c, Step(c, net, actions[0]), actions[1..], h);
    }
  }

  lemma {:induction false} StepNext(c: Config, net: Net, a: Action, h: nat)
    requires Valid(c) && Shape(c, net) && Enabled(c, net, a) && h < c.size
    ensures Shape(c, Step(c, net, a)) && net.hosts[h].next <= Step(c, net, a).hosts[h].next
    ensures a == SendNext(h) ==> net.hosts[h].next < Step(c, net, a).hosts[h].next
  {
    hide Index, Decide, Absorb, ReadOdd;
  }

  lemma {:induction false} RunInv(c: Config, net: Net, log: Log, actions: seq<Action>)
    requires Inv(c, net, log) && Run(c, net, actions)
    requires AllApart(c, Final(c, net, actions))
    ensures Inv(c, Final(c, net, actions), FinalLog(c, net, log, actions))
    decreases actions
  {
    hide Step, LogStep, Apart;
    if actions != [] {
      if actions[0].SendNext? {
        var h := actions[0].host;
        StepNext(c, net, actions[0], h);
        NextGrows(c, Step(c, net, actions[0]), actions[1..], h);
      }
      StepInv(c, net, log, actions[0]);
      RunInv(c, Step(c, net, actions[0]), LogStep(c, net, log, actions[0]), actions[1..]);
    }
  }

  /** A state, with its history, at the end of some run from a fresh start that kept slots apart. */
  ghost predicate Reached(c: Config, net: Net, log: Log) {
    Valid(c) && Shape(c, net) && LogShape(c, log) && AllApart(c, net) && exists start, actions ::
      Initial(c, start) && Run(c, start, actions)
      && Final(c, start, actions) == net && FinalLog(c, start, StartLog(c), actions) == log
  }

  lemma {:induction false} ReachedInv(c: Config, net: Net, log: Log)
    requires Reached(c, net, log)
    ensures Inv(c, net, log)
  {
    var start, actions :| Initial(c, start) && Run(c, start, actions)
      && Final(c, start, actions) == net && FinalLog(c, start, StartLog(c), actions) == log;
    StartInv(c, start);
    RunInv(c, start, StartLog(c), actions);
  }

  // ----- window safety

  /**
   * When a packet arrives, its slot is at the same psn, at the one before it in this slot, or unused. Only in the
   * second case does the slot move on, and then every host already holds the result it forgets and no packet of it
   * waits for its second pass.
   */
  lemma {:induction false} WindowSafety(c: Config, net: Net, log: Log, h: nat)
    requires Reached(c, net, log) && Enabled(c, net, FirstPass(h))
    ensures var psn := net.links[h][0]; var i := Index(c, psn); var at := log.at[i];
            && at <= psn && NextInSlot(c, at, psn)
            && (if at < 0 then net.slots[i].members == {} else net.slots[i].version == Tag(c, at) && Index(c, at) == i)
            && (0 <= at < psn ==>
                 && at + 2 * c.win <= psn
                 && Complete(c, log, at)
                 && (forall other | 0 <= other < c.size :: at in net.hosts[other].got)
                 && (forall k | 0 <= k < |net.queue| :: net.queue[k].psn != at))
  {
    hide Index, NextInSlot;
    ReachedInv(c, net, log);
    NeverSkips(c, net, log, h);
    var i := Index(c, net.links[h][0]);
    assert SlotOk(c, net.slots[i], log, i);
    var at := log.at[i];
    if 0 <= at < net.links[h][0] {
      SafeAdvance(c, net, log, h, at);
    }
  }

  /** Whatever waits for its second pass finds its slot as it left it: at its psn, with every rank in. */
  lemma {:induction false} SlotWaits(c: Config, net: Net, log: Log, k: nat)
    requires Reached(c, net, log) && k < |net.queue|
    ensures var w := net.queue[k]; var slot := net.slots[Index(c, w.psn)];
            slot.version == Tag(c, w.psn) && slot.members == Ranks(c.size) && w.payload == ReadEven(slot.row, w.payload)
  {
    hide ReadEven, Folded;
    ReachedInv(c, net, log);
    var w := net.queue[k];
    assert WaitingOk(c, log, w);
    assert SlotOk(c, net.slots[Index(c, w.psn)], log, Index(c, w.psn));
  }

  // ----- results

  /** An arrival order of a whole group. */
  ghost predicate ArrivalOrder(c: Config, order: seq<nat>) {
    Distinct(order) && ToSet(order) == Ranks(c.size)
  }

  /** The result of `psn` for `rank`, both halves, if the ranks arrived in `order`. */
  ghost function ResultOf(c: Config, psn: nat, rank: nat, order: seq<nat>): Option<Payload> {
    Strip(c.coll(psn), rank, RowWords(Folded(DataOf(c, psn), Tag(c, psn), order)))
  }

  /** One arrival order per psn explains every result under way and every result any host holds. */
  ghost predicate Explains(c: Config, net: Net, orders: map<nat, seq<nat>>)
    requires Shape(c, net)
  {
    && (forall m | m in net.sent ::
          && m.psn in orders && ArrivalOrder(c, orders[m.psn])
          && m.result == ResultOf(c, m.psn, m.rank, orders[m.psn]))
    && (forall h, psn | 0 <= h < c.size && psn in net.hosts[h].got ::
          && psn in orders && ArrivalOrder(c, orders[psn])
          && net.hosts[h].got[psn] == ResultOf(c, psn, h, orders[psn]))
  }

  /**
   * Split-read correctness and agreement, over all runs: for each psn there is one arrival order of the group such
   * that every result ever put out and every result any host ever took, read in two halves at two times, is the
   * saturating fold of all ranks' payloads in that order.
   */
  lemma {:induction false} Agreement(c: Config, start: Net, actions: seq<Action>)
    requires Valid(c) && Initial(c, start) && Run(c, start, actions)
    requires AllApart(c, Final(c, start, actions))
    ensures exists orders :: Explains(c, Final(c, start, actions), orders)
  {
    hide Folded, RowWords, Strip;
    var log := StartLog(c);
    StartInv(c, start);
    RunInv(c, start, log, actions);
    var net, log' := Final(c, start, actions), FinalLog(c, start, log, actions);
    forall m | m in net.sent
      ensures m.psn in log'.order && ArrivalOrder(c, log'.order[m.psn])
              && m.result == ResultOf(c, m.psn, m.rank, log'.order[m.psn])
    {
      assert ResultOk(c, log', m.rank, m.psn, m.result);
    }
    forall h, psn | 0 <= h < c.size && psn in net.hosts[h].got
      ensures psn in log'.order && ArrivalOrder(c, log'.order[psn])
              && net.hosts[h].got[psn] == ResultOf(c, psn, h, log'.order[psn])
    {
      assert ResultOk(c, log', h, psn, net.hosts[h].got[psn]);
    }
    assert Explains(c, net, log'.order);
  }

  // ----- recovery and multicasts

  /** While a host lacks a complete result, the slot still holds all of it. */
  lemma {:induction false} StillHeld(c: Config, net: Net, log: Log, h: nat, psn: nat)
    requires Inv(c, net, log) && h < c.size && Complete(c, log, psn) && psn !in net.hosts[h].got
    ensures var slot := net.slots[Index(c, psn)];
            && log.at[Index(c, psn)] == psn
            && Holds(slot, DataOf(c, psn), Tag(c, psn), log.order[psn])
            && slot.members == Ranks(c.size)
  {
    var i := Index(c, psn);
    assert psn <= log.at[i];
    assert SlotOk(c, net.slots[i], log, i);
    if log.at[i] != psn {
      assert Apart(c, log.at[i]);
      LaneBehindIsHeld(c, net, log, i, h, psn);
    }
  }

  /**
   * Recoverability: a retransmission for a complete psn that its sender still lacks changes no slot and queues a
   * unicast back to the sender whose two halves are the result that was put out for everybody.
   */
  lemma {:induction false} Recovers(c: Config, net: Net, log: Log, h: nat)
    requires Inv(c, net, log) && Enabled(c, net, FirstPass(h))
    requires Complete(c, log, net.links[h][0]) && net.links[h][0] !in net.hosts[h].got
    ensures var psn := net.links[h][0]; var net' := OnFirstPass(c, net, h);
            && net'.slots == net.slots
            && |net'.queue| == |net.queue| + 1 && net'.queue[..|net.queue|] == net.queue
            && var w := net'.queue[|net.queue|];
               w.rank == h && w.psn == psn && !w.multicast
               && Strip(c.coll(psn), h, ReadOdd(net.slots[Index(c, psn)].row, w.payload)) == Expected(c, log, h, psn)
  {
    hide Folded, ReadEven, ReadOdd, RowWords, Strip, LinkOk, Apart, Index;
    var psn := net.links[h][0];
    var slot := net.slots[Index(c, psn)];
    StillHeld(c, net, log, h, psn);
    Head(c, net, log, h);
    DataAt(c, psn, Tag(c, psn), h);
    assert h in Ranks(c.size);
    assert h in ToSet(log.order[psn]);
    AbsorbSame(slot, DataOf(c, psn), Tag(c, psn), log.order[psn], h);
    assert Ranks(c.size) + {h} == Ranks(c.size);
    TwoHalves(slot.row, Data(c, psn, h));
  }

  /** The psn for which an action asks for a multicast, if it does. */
  function Asks(c: Config, net: Net, a: Action): seq<nat>
    requires Valid(c) && Shape(c, net) && Enabled(c, net, a)
  {
    if a.FirstPass? then
      var psn := net.links[a.host][0];
      var verdict := Decide(c.size, net.slots[Index(c, psn)], Tag(c, psn), a.host, Data(c, psn, a.host));
      if verdict.Recirculate? && verdict.multicast then [psn] else []
    else []
  }

  /** The psns for which a run asks for a multicast, in order. */
  function Multicasts(c: Config, net: Net, actions: seq<Action>): seq<nat>
    requires Valid(c) && Shape(c, net) && Run(c, net, actions)
    decreases actions
  {
    if actions == [] then [] else Asks(c, net, actions[0]) + Multicasts(c, Step(c, net, actions[0]), actions[1..])
  }

  lemma {:induction false} StepMarks(c: Config, net: Net, log: Log, a: Action)
    requires Valid(c) && Shape(c, net) && LogShape(c, log) && Enabled(c, net, a)
    ensures LogStep(c, net, log, a).marked == log.marked + Asks(c, net, a)
    ensures LogShape(c, LogStep(c, net, log, a))
  {
    hide Decide, Data, Tag;
  }

  lemma {:induction false} MulticastsMarked(c: Config, net: Net, log: Log, actions: seq<Action>)
    requires Valid(c) && Shape(c, net) && LogShape(c, log) && Run(c, net, actions)
    ensures FinalLog(c, net, log, actions).marked == log.marked + Multicasts(c, net, actions)
    decreases actions
  {
    hide Step, LogStep, Enabled, Asks, LogShape;
    if actions != [] {
      StepMarks(c, net, log, actions[0]);
      MulticastsMarked(c, Step(c, net, actions[0]), LogStep(c, net, log, actions[0]), actions[1..]);
    }
  }

  /**
   * In every run a multicast is asked for each psn at most once, and for exactly those that the whole group has
   * contributed to; so every psn of which a result went out is among them.
   */
  lemma {:induction false} OneMulticastEach(c: Config, start: Net, actions: seq<Action>)
    requires Valid(c) && Initial(c, start) && Run(c, start, actions)
    requires AllApart(c, Final(c, start, actions))
    ensures Distinct(Multicasts(c, start, actions))
    ensures var log := FinalLog(c, start, StartLog(c), actions);
            forall psn: nat :: psn in Multicasts(c, start, actions) <==> Complete(c, log, psn)
    ensures forall m | m in Final(c, start, actions).sent :: m.psn in Multicasts(c, start, actions)
  {
    hide Strip;
    var log := StartLog(c);
    StartInv(c, start);
    RunInv(c, start, log, actions);
    MulticastsMarked(c, start, log, actions);
    var net, log' := Final(c, start, actions), FinalLog(c, start, log, actions);
    assert log'.marked == Multicasts(c, start, actions);
    forall m | m in net.sent
      ensures m.psn in log'.marked
    {
      assert ResultOk(c, log', m.rank, m.psn, m.result);
    }
  }
}
