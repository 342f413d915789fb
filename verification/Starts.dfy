/** Members that do not start from the same psn: the one that is furthest behind waits for ever. */
module Starts {
  import Arith
  import opened Bitmap
  import opened DataPlane
  import opened Collectives
  import opened Protocol

  /** Host `h` starts from `from[h]`; nothing is sent yet and the slots are reset. */
  ghost predicate StartsFrom(c: Config, net: Net, from: seq<nat>) {
    && Shape(c, net) && |from| == c.size
    && (forall h | 0 <= h < c.size :: net.hosts[h] == Host(from[h], from[h], map[]) && net.links[h] == [])
    && (forall i | 0 <= i < c.len :: net.slots[i].members == {})
    && net.queue == [] && net.sent == {}
  }

  /** `low` starts before all others and `high` after all others, close enough for their tags to differ. */
  ghost predicate Between(c: Config, from: seq<nat>, low: nat, high: nat) {
    && Valid(c) && |from| == c.size && low < c.size && high < c.size && from[low] < from[high]
    && (forall h | 0 <= h < c.size :: from[low] <= from[h] <= from[high])
    && Top(c, from, low, high) <= from[low] + TAG_WRAP
  }

  /** No host gets beyond this. */
  function Top(c: Config, from: seq<nat>, low: nat, high: nat): nat
    requires low < |from| && high < |from|
  {
    Max(from[high], from[low] + c.win) + c.win
  }

  /** Where host `h`'s packets end. */
  function EndOf(c: Config, from: seq<nat>, low: nat, high: nat, h: nat): nat
    requires low < |from| && high < |from|
  {
    if h == low then from[low] + c.win else Top(c, from, low, high)
  }

  /** The psns that both of them ever send. */
  predicate Common(c: Config, from: seq<nat>, low: nat, high: nat, p: nat)
    requires low < |from| && high < |from|
  {
    from[high] <= p < from[low] + c.win
  }

  ghost predicate MixedHost(c: Config, from: seq<nat>, low: nat, high: nat, h: nat, host: Host)
    requires low < |from| && high < |from| && h < |from|
  {
    && from[h] <= host.ack <= host.next <= host.ack + c.win
    && (host.ack == from[h] || (h != low && host.ack <= from[low] + c.win))
    && forall p | p in host.got :: Common(c, from, low, high, p)
  }

  ghost predicate MixedSlot(c: Config, from: seq<nat>, low: nat, high: nat, slot: Slot)
    requires low < |from| && high < |from|
  {
    forall r | r in slot.members ::
      r < |from| && exists p: nat :: from[r] <= p < EndOf(c, from, low, high, r) && slot.version == Tag(c, p)
  }

  /** What holds throughout every run from different starts. */
  ghost predicate Mixed(c: Config, from: seq<nat>, low: nat, high: nat, net: Net) {
    && Between(c, from, low, high) && Shape(c, net)
    && (forall h | 0 <= h < c.size :: MixedHost(c, from, low, high, h, net.hosts[h]))
    && (forall h, k | 0 <= h < c.size && 0 <= k < |net.links[h]| :: from[h] <= net.links[h][k] < net.hosts[h].next)
    && (forall i | 0 <= i < c.len :: MixedSlot(c, from, low, high, net.slots[i]))
    && (forall k | 0 <= k < |net.queue| :: Common(c, from, low, high, net.queue[k].psn))
    && (forall m | m in net.sent :: Common(c, from, low, high, m.psn))
  }

  lemma {:induction false} NextEnds(c: Config, from: seq<nat>, low: nat, high: nat, h: nat, host: Host)
    requires Between(c, from, low, high) && h < c.size && MixedHost(c, from, low, high, h, host)
    ensures host.next <= EndOf(c, from, low, high, h) <= Top(c, from, low, high)
  {
  }

  /** Tags within reach are unique. */
  lemma {:induction false} SameTag(c: Config, p: nat, q: nat, lo: nat)
    requires lo <= p < lo + TAG_WRAP && lo <= q < lo + TAG_WRAP && Tag(c, p) == Tag(c, q)
    ensures p == q
  {
    assert p % TAG_WRAP == q % TAG_WRAP;
    if p <= q {
      Arith.SameRemainder(p, q, TAG_WRAP);
    } else {
      Arith.SameRemainder(q, p, TAG_WRAP);
    }
  }

  /** A packet that leaves its slot with all ranks is one that the first and the last to start both send. */
  lemma {:induction false} FullIsCommon(c: Config, from: seq<nat>, low: nat, high: nat, slot: Slot, p: nat)
    requires Between(c, from, low, high) && MixedSlot(c, from, low, high, slot)
    requires slot.members == Ranks(c.size) && slot.version == Tag(c, p)
    requires from[low] <= p < Top(c, from, low, high)
    ensures Common(c, from, low, high, p)
  {
    hide Tag;
    assert low in Ranks(c.size) && high in Ranks(c.size);
    var x: nat :| from[low] <= x < EndOf(c, from, low, high, low) && slot.version == Tag(c, x);
    var y: nat :| from[high] <= y < EndOf(c, from, low, high, high) && slot.version == Tag(c, y);
    SameTag(c, p, x, from[low]);
    SameTag(c, p, y, from[low]);
  }

  lemma {:induction false} AbsorbMixed(c: Config, from: seq<nat>, low: nat, high: nat, slot: Slot, h: nat, p: nat, payload: Payload)
    requires Between(c, from, low, high) && MixedSlot(c, from, low, high, slot) && h < c.size
    requires from[h] <= p < EndOf(c, from, low, high, h)
    ensures MixedSlot(c, from, low, high, Absorb(slot, Tag(c, p), h, payload))
  {
    hide Tag, Aggregate, Overwrite;
  }

  lemma {:induction false} FirstPassMixed(c: Config, from: seq<nat>, low: nat, high: nat, net: Net, h: nat)
    requires Mixed(c, from, low, high, net) && Enabled(c, net, FirstPass(h))
    ensures Mixed(c, from, low, high, OnFirstPass(c, net, h))
  {
    hide Index, Tag, Data, Absorb, MixedSlot, MixedHost, EndOf, Top, ReadEven, Common;
    var p := net.links[h][0];
    var slot := net.slots[Index(c, p)];
    NextEnds(c, from, low, high, h, net.hosts[h]);
    assert from[h] <= p < EndOf(c, from, low, high, h);
    AbsorbMixed(c, from, low, high, slot, h, p, Data(c, p, h));
    if !Decide(c.size, slot, Tag(c, p), h, Data(c, p, h)).Drop? {
      DecidesFull(c, slot, Tag(c, p), h, Data(c, p, h));
      FullIsCommon(c, from, low, high, Absorb(slot, Tag(c, p), h, Data(c, p, h)), p);
    }
  }

  lemma {:induction false} DecidesFull(c: Config, slot: Slot, tag: nat, h: nat, payload: Payload)
    requires !Decide(c.size, slot, tag, h, payload).Drop?
    ensures Absorb(slot, tag, h, payload).members == Ranks(c.size) && Absorb(slot, tag, h, payload).version == tag
  {
    hide Aggregate, Overwrite;
  }

  lemma {:induction false} HostMixed(c: Config, from: seq<nat>, low: nat, high: nat, net: Net, a: Action)
    requires Mixed(c, from, low, high, net) && Enabled(c, net, a) && (a.SendNext? || a.Slide? || a.Accept?)
    ensures var h := if a.Accept? then a.message.rank else a.host;
            && MixedHost(c, from, low, high, h, Step(c, net, a).hosts[h])
            && net.hosts[h].next <= Step(c, net, a).hosts[h].next
            && (a.SendNext? ==> from[h] <= net.hosts[h].next < Step(c, net, a).hosts[h].next)
  {
    hide MixedSlot, EndOf, Top;
  }

  lemma {:induction false} HostStepMixed(c: Config, from: seq<nat>, low: nat, high: nat, net: Net, a: Action)
    requires Mixed(c, from, low, high, net) && Enabled(c, net, a) && (a.SendNext? || a.Slide? || a.Accept?)
    ensures Mixed(c, from, low, high, Step(c, net, a))
  {
    hide MixedSlot, MixedHost, Top, EndOf, Take, Between;
    HostMixed(c, from, low, high, net, a);
  }

  lemma {:induction false} LinkStepMixed(c: Config, from: seq<nat>, low: nat, high: nat, net: Net, a: Action)
    requires Mixed(c, from, low, high, net) && Enabled(c, net, a) && (a.Resend? || a.LoseOnLink?)
    ensures Mixed(c, from, low, high, Step(c, net, a))
  {
    hide MixedSlot, Top, EndOf;
    assert MixedHost(c, from, low, high, a.host, net.hosts[a.host]);
    hide MixedHost;
  }

  lemma {:induction false} QueueStepMixed(c: Config, from: seq<nat>, low: nat, high: nat, net: Net, a: Action)
    requires Mixed(c, from, low, high, net) && Enabled(c, net, a) && (a.LoseInQueue? || a.SecondPass?)
    ensures Mixed(c, from, low, high, Step(c, net, a))
  {
    hide MixedSlot, MixedHost, Top, EndOf, Index, ReadOdd, Strip;
  }

  lemma {:induction false} StepMixed(c: Config, from: seq<nat>, low: nat, high: nat, net: Net, a: Action)
    requires Mixed(c, from, low, high, net) && Enabled(c, net, a)
    ensures Mixed(c, from, low, high, Step(c, net, a))
  {
    hide Mixed, OnFirstPass, OnSecondPass;
    match a
    case SendNext(_) => HostStepMixed(c, from, low, high, net, a);
    case Slide(_) => HostStepMixed(c, from, low, high, net, a);
    case Accept(_) => HostStepMixed(c, from, low, high, net, a);
    case Resend(_, _) => LinkStepMixed(c, from, low, high, net, a);
    case LoseOnLink(_, _) => LinkStepMixed(c, from, low, high, net, a);
    case LoseInQueue(_) => QueueStepMixed(c, from, low, high, net, a);
    case SecondPass => QueueStepMixed(c, from, low, high, net, a);
    case FirstPass(h) => FirstPassMixed(c, from, low, high, net, h);
  }

  lemma {:induction false} RunMixed(c: Config, from: seq<nat>, low: nat, high: nat, net: Net, actions: seq<Action>)
    requires Mixed(c, from, low, high, net) && Valid(c) && Shape(c, net) && Run(c, net, actions)
    ensures Mixed(c, from, low, high, Final(c, net, actions))
    decreases actions
  {
    hide Mixed, Step, Enabled;
    if actions != [] {
      StepMixed(c, from, low, high, net, actions[0]);
      RunMixed(c, from, low, high, Step(c, net, actions[0]), actions[1..]);
    }
  }

  /**
   * If the members of a group start from different psns, then whatever happens, the one furthest behind never gets its
   * first result, and nobody gets any but those of psns that its first window shares with the member furthest ahead: if
   * they are a window apart, nobody gets anything.
   */
  lemma {:induction false} NeverTogether(c: Config, from: seq<nat>, low: nat, high: nat, start: Net, actions: seq<Action>)
    requires Between(c, from, low, high) && StartsFrom(c, start, from) && Run(c, start, actions)
    ensures var net := Final(c, start, actions);
            && Shape(c, net)
            && net.hosts[low].ack == from[low] && from[low] !in net.hosts[low].got
            && (forall h, p | 0 <= h < c.size && p in net.hosts[h].got :: from[high] <= p < from[low] + c.win)
            && (forall m | m in net.sent :: from[high] <= m.psn < from[low] + c.win)
  {
    hide Top, EndOf;
    RunMixed(c, from, low, high, start, actions);
    var net := Final(c, start, actions);
    assert MixedHost(c, from, low, high, low, net.hosts[low]);
  }
}
