/** Every step keeps the protocol's invariant. */
module ProtocolSafety {
  import Arith
  import opened Bitmap
  import opened DataPlane
  import opened Collectives
  import opened Protocol
  import opened Sequences

  /** The 24-bit tag tells apart psns that are close. */
  lemma {:induction false} TagsDiffer(c: Config, psn: nat, other: nat)
    requires psn < other < psn + 0x100_0000
    ensures Tag(c, psn) != Tag(c, other)
  {
    if psn % TAG_WRAP == other % TAG_WRAP {
      Arith.SameRemainder(psn, other, TAG_WRAP);
    }
  }

  /** A slot that was used before was used within the last two lanes. */
  lemma {:induction false} LastUse(c: Config, psn: nat, earlier: nat) returns (last: nat)
    requires c.len > 0 && c.len < PSN_WRAP && earlier < psn && Index(c, earlier) == Index(c, psn)
    ensures last < psn <= last + 2 * c.len && Index(c, last) == Index(c, psn)
  {
    var k, y := psn / PSN_WRAP, psn % PSN_WRAP;
    Arith.DivMod(psn, PSN_WRAP);
    if y >= c.len {
      last := psn - c.len;
      Arith.Remainder(last, k, y - c.len, PSN_WRAP);
      Arith.OneBack(y, c.len);
    } else if k == 0 {
      Arith.Remainder(earlier, 0, earlier, PSN_WRAP);
      Arith.Remainder(earlier, 0, earlier, c.len);
      Arith.Remainder(psn, 0, psn, c.len);
      assert false;
    } else {
      var z := LastOfLane(c.len, y);
      last := (k - 1) * PSN_WRAP + z;
      Arith.Remainder(last, k - 1, z, PSN_WRAP);
      Arith.Remainder(y, 0, y, c.len);
    }
  }

  /** The last number below 2^32 with a given remainder. */
  lemma {:induction false} LastOfLane(len: nat, y: nat) returns (z: nat)
    requires y < len < PSN_WRAP
    ensures PSN_WRAP - len <= z < PSN_WRAP && z % len == y
  {
    var top := PSN_WRAP - 1;
    Arith.DivMod(top, len);
    var q, m := top / len, top % len;
    if y <= m {
      z := q * len + y;
      Arith.Remainder(z, q, y, len);
    } else {
      z := (q - 1) * len + y;
      Arith.MulMinus(q, 1, len);
      if q == 0 {
        assert false;
      } else {
        Arith.Remainder(z, q - 1, y, len);
      }
    }
  }

  // ----- where a packet can arrive

  /** A host that sent `psn` holds every result at least a window older. */
  lemma {:induction false} SentImpliesHeld(c: Config, net: Net, log: Log, h: nat, psn: nat, old_: nat)
    requires Inv(c, net, log) && h < c.size
    requires psn < net.hosts[h].next && c.base <= old_ && old_ + c.win <= psn
    ensures old_ in net.hosts[h].got && Complete(c, log, old_) && old_ < log.out
  {
    assert HostOk(c.base, c.win, net.hosts[h]);
    assert ResultOk(c, log, h, old_, net.hosts[h].got[old_]);
  }

  /** Once a psn is complete, every host holds all results at least a window older. */
  lemma {:induction false} CompleteImpliesHeld(c: Config, net: Net, log: Log, psn: nat, h: nat, old_: nat)
    requires Inv(c, net, log) && Complete(c, log, psn) && h < c.size && c.base <= old_ && old_ + c.win <= psn
    ensures old_ in net.hosts[h].got
  {
    assert psn < log.top[h];
    assert LinkOk(c, net.links[h], net.hosts[h].next, log.top[h]);
    SentImpliesHeld(c, net, log, h, psn, old_);
  }

  /** No host lacks a result that lies two windows behind what some slot is at. */
  lemma {:induction false} LaneBehindIsHeld(c: Config, net: Net, log: Log, i: nat, h: nat, old_: nat)
    requires Inv(c, net, log) && i < c.len && h < c.size && c.base <= old_ && old_ + 2 * c.win <= log.at[i]
    ensures old_ in net.hosts[h].got && Complete(c, log, log.at[i] - c.win)
  {
    var at: nat := log.at[i];
    assert SlotOk(c, net.slots[i], log, i);
    var r := log.order[at][0];
    assert Contributors(c, log, at) && r in log.order[at];
    assert r < c.size && at < log.top[r];
    assert LinkOk(c, net.links[r], net.hosts[r].next, log.top[r]);
    SentImpliesHeld(c, net, log, r, at, at - c.win);
    CompleteImpliesHeld(c, net, log, at - c.win, h, old_);
  }

  /** A slot never goes back: what arrives is at least as new as what the slot is at. */
  lemma {:induction false} NeverBack(c: Config, net: Net, log: Log, h: nat)
    requires Inv(c, net, log) && h < c.size && net.links[h] != []
    ensures var psn := net.links[h][0]; log.at[Index(c, psn)] <= psn
  {
    hide Index;
    var psn := net.links[h][0];
    var i := Index(c, psn);
    if log.at[i] > psn {
      assert SlotOk(c, net.slots[i], log, i);
      assert LinkOk(c, net.links[h], net.hosts[h].next, log.top[h]);
      assert Apart(c, log.at[i]);
      LaneBehindIsHeld(c, net, log, i, h, psn);
      assert false;
    }
  }

  /** `psn` is the next psn of its slot after `at`, or the first if `at` is negative. */
  ghost predicate NextInSlot(c: Config, at: int, psn: nat)
    requires c.len > 0
  {
    forall q: nat | c.base <= q && at < q < psn :: Index(c, q) != Index(c, psn)
  }

  /** A slot never skips: what arrives is what the slot is at, or the next psn of the slot. */
  lemma {:induction false} NeverSkips(c: Config, net: Net, log: Log, h: nat)
    requires Inv(c, net, log) && h < c.size && net.links[h] != []
    ensures var psn := net.links[h][0]; var at := log.at[Index(c, psn)];
            && at <= psn && NextInSlot(c, at, psn)
            && (0 <= at < psn ==> c.base <= at && Index(c, at) == Index(c, psn) && at + 2 * c.win <= psn < at + TAG_WRAP)
  {
    hide Index;
    var psn := net.links[h][0];
    var i := Index(c, psn);
    NeverBack(c, net, log, h);
    assert LinkOk(c, net.links[h], net.hosts[h].next, log.top[h]);
    assert Apart(c, psn);
    forall q: nat | c.base <= q && log.at[i] < q < psn
      ensures Index(c, q) != i
    {
      if Index(c, q) == i {
        SentImpliesHeld(c, net, log, h, psn, q);
        assert false;
      }
    }
    if 0 <= log.at[i] < psn {
      assert SlotOk(c, net.slots[i], log, i);
      var last := LastUse(c, psn, log.at[i]);
      assert last <= log.at[i];
    }
  }

  /** Moving on is safe: every host holds the old result and nothing of it waits for its second pass. */
  lemma {:induction false} SafeAdvance(c: Config, net: Net, log: Log, h: nat, at: nat)
    requires Inv(c, net, log) && h < c.size && net.links[h] != []
    requires c.base <= at && at + 2 * c.win <= net.links[h][0]
    ensures forall other | 0 <= other < c.size :: at in net.hosts[other].got
    ensures forall k | 0 <= k < |net.queue| :: net.queue[k].psn != at
    ensures Complete(c, log, at)
  {
    var psn := net.links[h][0];
    assert LinkOk(c, net.links[h], net.hosts[h].next, log.top[h]);
    SentImpliesHeld(c, net, log, h, psn, at + c.win);
    forall other | 0 <= other < c.size
      ensures at in net.hosts[other].got
    {
      CompleteImpliesHeld(c, net, log, at + c.win, other, at);
    }
    SentImpliesHeld(c, net, log, h, psn, at);
    forall k | 0 <= k < |net.queue|
      ensures net.queue[k].psn != at
    {
      assert WaitingOk(c, log, net.queue[k]);
    }
  }

  /** The packet at the head of a link. */
  lemma {:induction false} Head(c: Config, net: Net, log: Log, h: nat)
    requires Inv(c, net, log) && h < c.size && net.links[h] != []
    ensures var psn := net.links[h][0];
            && psn < net.hosts[h].next && log.top[h] <= psn + c.win
            && c.base <= psn && Apart(c, psn)
  {
    assert LinkOk(c, net.links[h], net.hosts[h].next, log.top[h]);
  }

  // ----- a first pass

  /** Complete psns stay complete with the same arrival order. */
  ghost predicate Grows(c: Config, log: Log, log': Log) {
    && log.out <= log'.out
    && forall psn | Complete(c, log, psn) :: psn in log'.order && log'.order[psn] == log.order[psn]
  }

  lemma {:induction false} ResultStays(c: Config, log: Log, log': Log, rank: nat, psn: nat, result: Option<Payload>)
    requires Grows(c, log, log') && ResultOk(c, log, rank, psn, result)
    ensures ResultOk(c, log', rank, psn, result)
  {
  }

  lemma {:induction false} ResultsStay(c: Config, net: Net, log: Log, log': Log)
    requires Shape(c, net) && Grows(c, log, log') && SentOk(c, net, log) && GotOk(c, net, log)
    ensures SentOk(c, net, log') && GotOk(c, net, log')
  {
    hide ResultOk, Grows;
    forall m | m in net.sent
      ensures ResultOk(c, log', m.rank, m.psn, m.result)
    {
      ResultStays(c, log, log', m.rank, m.psn, m.result);
    }
    forall h, psn | 0 <= h < c.size && psn in net.hosts[h].got
      ensures ResultOk(c, log', h, psn, net.hosts[h].got[psn])
    {
      ResultStays(c, log, log', h, psn, net.hosts[h].got[psn]);
    }
  }

  lemma {:induction false} DataAt(c: Config, psn: nat, tag: nat, rank: nat)
    ensures DataOf(c, psn)(tag, rank) == Data(c, psn, rank)
  {
  }

  /** The arrival order a packet meets is the one its slot holds, or empty if the slot is at another psn. */
  lemma {:induction false} Meets(c: Config, net: Net, log: Log, h: nat)
    requires Inv(c, net, log) && h < c.size && net.links[h] != []
    ensures var psn := net.links[h][0]; var i := Index(c, psn); var before := Earlier(log, i, psn);
            && Found(net.slots[i], Tag(c, psn)) == ToSet(before)
            && (if log.at[i] == psn then psn in log.order && before == log.order[psn] && before != []
                                         && Holds(net.slots[i], DataOf(c, psn), Tag(c, psn), before)
                else psn !in log.order && before == [])
            && forall r | r in before :: r < c.size && psn < log.top[r]
  {
    hide LinkOk, Apart, Index;
    var psn := net.links[h][0];
    var i := Index(c, psn);
    Head(c, net, log, h);
    assert SlotOk(c, net.slots[i], log, i);
    NeverSkips(c, net, log, h);
    if log.at[i] != psn {
      if psn in log.order {
        assert false;
      }
      if log.at[i] >= 0 {
        TagsDiffer(c, log.at[i], psn);
      }
      assert ToSet([]) == {};
    }
  }

  /** The slot and the verdict after a first pass, in terms of arrival orders. */
  lemma {:induction false} FirstPassEffect(c: Config, net: Net, log: Log, h: nat)
    requires Inv(c, net, log) && h < c.size && net.links[h] != []
    ensures var psn := net.links[h][0]; var i := Index(c, psn);
            var before := Earlier(log, i, psn); var after := Extended(before, h);
            var slot' := Absorb(net.slots[i], Tag(c, psn), h, Data(c, psn, h));
            var verdict := Decide(c.size, net.slots[i], Tag(c, psn), h, Data(c, psn, h));
            && Holds(slot', DataOf(c, psn), Tag(c, psn), after)
            && verdict == (if ToSet(after) == Ranks(c.size)
                           then Recirculate(h !in before, ReadEven(slot'.row, Data(c, psn, h))) else Drop)
  {
    hide LinkOk, Apart, Index, Row, Folded, Absorb, ReadEven;
    var psn := net.links[h][0];
    var i := Index(c, psn);
    var slot, tag := net.slots[i], Tag(c, psn);
    var before := Earlier(log, i, psn);
    Meets(c, net, log, h);
    DataAt(c, psn, tag, h);
    if log.at[i] == psn {
      AbsorbSame(slot, DataOf(c, psn), tag, before, h);
    } else {
      assert Found(slot, tag) == {} && before + [h] == [h];
      AbsorbFresh(slot, DataOf(c, psn), tag, h);
    }
    assert ToSet(Extended(before, h)) == ToSet(before) + {h};
  }

  /** What a first pass does to completeness. */
  lemma {:induction false} FirstPassCompletes(c: Config, net: Net, log: Log, h: nat)
    requires Inv(c, net, log) && h < c.size && net.links[h] != []
    ensures var psn := net.links[h][0]; var log' := LogFirstPass(c, net, log, h);
            var before := Earlier(log, Index(c, psn), psn);
            && Grows(c, log, log')
            && log'.order[psn] == Extended(before, h)
            && (Complete(c, log, psn) ==> log.at[Index(c, psn)] == psn && h in before)
            && (forall p: nat | p != psn :: Complete(c, log', p) <==> Complete(c, log, p))
            && (forall r | 0 <= r < c.size :: log.top[r] <= log'.top[r])
  {
    hide LinkOk, Apart, Index, Decide;
    var psn := net.links[h][0];
    Meets(c, net, log, h);
    if Complete(c, log, psn) {
      assert h in Ranks(c.size);
      assert h in ToSet(log.order[psn]);
    }
  }

  lemma {:induction false} FirstPassLinks(c: Config, net: Net, log: Log, h: nat)
    requires Inv(c, net, log) && h < c.size && net.links[h] != []
    ensures LinksOk(c, OnFirstPass(c, net, h), LogFirstPass(c, net, log, h))
  {
    hide Apart, Index, Decide, Absorb;
    assert LinkOk(c, net.links[h], net.hosts[h].next, log.top[h]);
  }

  lemma {:induction false} FirstPassSlots(c: Config, net: Net, log: Log, h: nat)
    requires Inv(c, net, log) && h < c.size && net.links[h] != []
    ensures SlotsOk(c, OnFirstPass(c, net, h), LogFirstPass(c, net, log, h))
  {
    hide LinkOk, Apart, Index, Decide, Absorb, Holds;
    var psn := net.links[h][0];
    var i := Index(c, psn);
    var net', log' := OnFirstPass(c, net, h), LogFirstPass(c, net, log, h);
    Head(c, net, log, h);
    Meets(c, net, log, h);
    FirstPassEffect(c, net, log, h);
    forall j | 0 <= j < c.len
      ensures SlotOk(c, net'.slots[j], log', j)
    {
      assert SlotOk(c, net.slots[j], log, j);
    }
  }

  lemma {:induction false} FirstPassOrder(c: Config, net: Net, log: Log, h: nat)
    requires Inv(c, net, log) && h < c.size && net.links[h] != []
    ensures OrderOk(c, LogFirstPass(c, net, log, h))
  {
    hide LinkOk, Apart, Index, Decide;
    Head(c, net, log, h);
    NeverBack(c, net, log, h);
  }

  lemma {:induction false} FirstPassTop(c: Config, net: Net, log: Log, h: nat)
    requires Inv(c, net, log) && h < c.size && net.links[h] != []
    ensures TopOk(c, LogFirstPass(c, net, log, h))
  {
    hide LinkOk, Apart, Index, Decide;
    var psn := net.links[h][0];
    var log' := LogFirstPass(c, net, log, h);
    Meets(c, net, log, h);
    FirstPassCompletes(c, net, log, h);
    forall p, r | Complete(c, log', p) && 0 <= r < c.size
      ensures p < log'.top[r]
    {
      if p == psn {
        assert r in Ranks(c.size);
        assert r in log'.order[psn];
      }
    }
  }

  /** A first pass marks its packet for multicast iff it completes the psn. */
  lemma {:induction false} MarksCompletion(c: Config, net: Net, log: Log, h: nat)
    requires Inv(c, net, log) && h < c.size && net.links[h] != []
    ensures var psn := net.links[h][0]; var log' := LogFirstPass(c, net, log, h);
            log'.marked == if Complete(c, log', psn) && !Complete(c, log, psn) then log.marked + [psn] else log.marked
  {
    hide LinkOk, Apart, Index, Decide, Absorb, Row, Folded, Holds;
    var psn := net.links[h][0];
    Head(c, net, log, h);
    FirstPassEffect(c, net, log, h);
    FirstPassCompletes(c, net, log, h);
    Meets(c, net, log, h);
  }

  lemma {:induction false} FirstPassMarked(c: Config, net: Net, log: Log, h: nat)
    requires Inv(c, net, log) && h < c.size && net.links[h] != []
    ensures MarkedOk(c, LogFirstPass(c, net, log, h))
  {
    hide LogFirstPass, Complete, Grows;
    MarksCompletion(c, net, log, h);
    FirstPassCompletes(c, net, log, h);
    assert Grows(c, log, LogFirstPass(c, net, log, h));
    StaysComplete(c, net, log, h);
  }

  lemma {:induction false} StaysComplete(c: Config, net: Net, log: Log, h: nat)
    requires Inv(c, net, log) && h < c.size && net.links[h] != []
    ensures forall psn: nat | Complete(c, log, psn) :: Complete(c, LogFirstPass(c, net, log, h), psn)
  {
    hide LogFirstPass;
    FirstPassCompletes(c, net, log, h);
  }

  lemma {:induction false} ReadEvenTwice(row: AggRow, payload: Payload)
    ensures ReadEven(row, ReadEven(row, payload)) == ReadEven(row, payload)
  {
  }

  /** Everything already waiting still waits for the psn its slot is at. */
  lemma {:induction false} StillWaiting(c: Config, net: Net, log: Log, h: nat, k: nat)
    requires Inv(c, net, log) && h < c.size && net.links[h] != [] && k < |net.queue|
    ensures WaitingOk(c, LogFirstPass(c, net, log, h), net.queue[k])
  {
    hide LinkOk, Apart, Index, Decide, ReadEven, Folded, SlotOk, HostOk, ResultOk, Distinct;
    var psn := net.links[h][0];
    var i := Index(c, psn);
    assert WaitingOk(c, log, net.queue[k]);
    Head(c, net, log, h);
    FirstPassCompletes(c, net, log, h);
    NeverSkips(c, net, log, h);
    if log.at[i] >= 0 && log.at[i] != psn {
      SafeAdvance(c, net, log, h, log.at[i]);
    }
  }

  /** A packet that goes on waits with the even words of the complete row. */
  lemma {:induction false} StartsWaiting(c: Config, net: Net, log: Log, h: nat)
    requires Inv(c, net, log) && h < c.size && net.links[h] != []
    ensures var psn := net.links[h][0];
            var verdict := Decide(c.size, net.slots[Index(c, psn)], Tag(c, psn), h, Data(c, psn, h));
            verdict.Recirculate? ==>
              WaitingOk(c, LogFirstPass(c, net, log, h), Waiting(h, psn, verdict.multicast, verdict.payload))
  {
    hide LinkOk, Apart, Index, Decide, Absorb, ReadEven, Folded;
    var psn := net.links[h][0];
    Head(c, net, log, h);
    FirstPassEffect(c, net, log, h);
    FirstPassCompletes(c, net, log, h);
    var slot' := OnFirstPass(c, net, h).slots[Index(c, psn)];
    ReadEvenTwice(slot'.row, Data(c, psn, h));
  }

  lemma {:induction false} QueueBehindArrival(c: Config, net: Net, log: Log, h: nat)
    requires Inv(c, net, log) && h < c.size && net.links[h] != []
    ensures forall j | 0 <= j < |net.queue| :: net.queue[j].psn < net.links[h][0] + c.win
  {
    Head(c, net, log, h);
    forall j | 0 <= j < |net.queue|
      ensures net.queue[j].psn < net.links[h][0] + c.win
    {
      assert WaitingOk(c, log, net.queue[j]);
    }
  }

  lemma {:induction false} AppendWaiting(c: Config, net: Net, net': Net, log': Log, w: Waiting)
    requires Valid(c) && Shape(c, net) && Shape(c, net') && LogShape(c, log')
    requires QueueOk(c, net, log') && WaitingOk(c, log', w)
    requires forall j | 0 <= j < |net.queue| :: net.queue[j].psn < w.psn + c.win
    requires net'.queue == net.queue + [w]
    ensures QueueOk(c, net', log')
  {
    hide WaitingOk;
  }

  lemma {:induction false} FirstPassQueue(c: Config, net: Net, log: Log, h: nat)
    requires Inv(c, net, log) && h < c.size && net.links[h] != []
    ensures QueueOk(c, OnFirstPass(c, net, h), LogFirstPass(c, net, log, h))
  {
    hide LinkOk, Apart, Index, Decide, Absorb, LogFirstPass, WaitingOk;
    var psn := net.links[h][0];
    var net', log' := OnFirstPass(c, net, h), LogFirstPass(c, net, log, h);
    Head(c, net, log, h);
    QueueBehindArrival(c, net, log, h);
    StartsWaiting(c, net, log, h);
    FirstPassLogShape(c, net, log, h);
    forall k | 0 <= k < |net.queue|
      ensures WaitingOk(c, log', net.queue[k])
    {
      StillWaiting(c, net, log, h, k);
    }
    var verdict := Decide(c.size, net.slots[Index(c, psn)], Tag(c, psn), h, Data(c, psn, h));
    if verdict.Recirculate? {
      AppendWaiting(c, net, net', log', Waiting(h, psn, verdict.multicast, verdict.payload));
    }
  }

  lemma {:induction false} FirstPassLogShape(c: Config, net: Net, log: Log, h: nat)
    requires Inv(c, net, log) && h < c.size && net.links[h] != []
    ensures LogShape(c, LogFirstPass(c, net, log, h))
  {
  }

  lemma {:induction false} FirstPassInv(c: Config, net: Net, log: Log, h: nat)
    requires Inv(c, net, log) && Enabled(c, net, FirstPass(h))
    ensures Inv(c, OnFirstPass(c, net, h), LogFirstPass(c, net, log, h))
  {
    hide LinkOk, SlotOk, WaitingOk, ResultOk, Complete, HostOk, Decide, Absorb, Grows;
    FirstPassLinks(c, net, log, h);
    FirstPassSlots(c, net, log, h);
    FirstPassOrder(c, net, log, h);
    FirstPassTop(c, net, log, h);
    FirstPassQueue(c, net, log, h);
    FirstPassMarked(c, net, log, h);
    FirstPassCompletes(c, net, log, h);
    ResultsStay(c, net, log, LogFirstPass(c, net, log, h));
  }

  // ----- the other steps

  lemma {:induction false} SendInv(c: Config, net: Net, log: Log, h: nat)
    requires Inv(c, net, log) && Enabled(c, net, SendNext(h)) && Apart(c, net.hosts[h].next)
    ensures Inv(c, Step(c, net, SendNext(h)), log)
  {
    hide Apart, Index, SlotOk, WaitingOk, ResultOk, Complete;
    assert HostOk(c.base, c.win, net.hosts[h]);
    assert LinkOk(c, net.links[h], net.hosts[h].next, log.top[h]);
  }

  lemma {:induction false} ResendInv(c: Config, net: Net, log: Log, h: nat, psn: nat)
    requires Inv(c, net, log) && Enabled(c, net, Resend(h, psn))
    ensures Inv(c, Step(c, net, Resend(h, psn)), log)
  {
    hide Apart, Index, SlotOk, WaitingOk, ResultOk, Complete;
    assert HostOk(c.base, c.win, net.hosts[h]);
    assert LinkOk(c, net.links[h], net.hosts[h].next, log.top[h]);
  }

  lemma {:induction false} LoseOnLinkInv(c: Config, net: Net, log: Log, h: nat, i: nat)
    requires Inv(c, net, log) && Enabled(c, net, LoseOnLink(h, i))
    ensures Inv(c, Step(c, net, LoseOnLink(h, i)), log)
  {
    hide Apart, Index, SlotOk, WaitingOk, ResultOk, Complete, HostOk;
    assert LinkOk(c, net.links[h], net.hosts[h].next, log.top[h]);
  }

  lemma {:induction false} LoseInQueueInv(c: Config, net: Net, log: Log, i: nat)
    requires Inv(c, net, log) && Enabled(c, net, LoseInQueue(i))
    ensures Inv(c, Step(c, net, LoseInQueue(i)), log)
  {
    hide Apart, Index, SlotOk, WaitingOk, ResultOk, Complete, HostOk, LinkOk;
  }

  lemma {:induction false} SlideInv(c: Config, net: Net, log: Log, h: nat)
    requires Inv(c, net, log) && Enabled(c, net, Slide(h))
    ensures Inv(c, Step(c, net, Slide(h)), log)
  {
    hide Apart, Index, SlotOk, WaitingOk, ResultOk, Complete, LinkOk;
    assert HostOk(c.base, c.win, net.hosts[h]);
  }

  lemma {:induction false} AcceptInv(c: Config, net: Net, log: Log, m: Message)
    requires Inv(c, net, log) && Enabled(c, net, Accept(m))
    ensures Inv(c, Step(c, net, Accept(m)), log)
  {
    hide Apart, Index, SlotOk, WaitingOk, ResultOk, Complete, LinkOk;
    assert HostOk(c.base, c.win, net.hosts[m.rank]);
    assert ResultOk(c, log, m.rank, m.psn, m.result);
  }

  // ----- a second pass

  lemma {:induction false} TwoReads(row: AggRow, payload: Payload)
    requires payload == ReadEven(row, payload)
    ensures ReadOdd(row, payload) == RowWords(row)
  {
    TwoHalves(row, payload);
  }

  /** The packet at the head of the recirculation queue. */
  lemma {:induction false} Front(c: Config, net: Net, log: Log)
    requires Inv(c, net, log) && net.queue != []
    ensures var w := net.queue[0]; var i := Index(c, w.psn);
            && w.rank < c.size
            && Complete(c, log, w.psn) && log.at[i] == w.psn
            && net.slots[i].row == Row(c, log, w.psn)
            && w.payload == ReadEven(Row(c, log, w.psn), w.payload)
  {
    hide LinkOk, HostOk, ResultOk, Folded, ReadEven;
    var w := net.queue[0];
    assert WaitingOk(c, log, w);
    assert SlotOk(c, net.slots[Index(c, w.psn)], log, Index(c, w.psn));
  }

  /** The split read: both halves come from the same complete row. */
  lemma {:induction false} SecondPassReads(c: Config, net: Net, log: Log)
    requires Inv(c, net, log) && net.queue != []
    ensures var w := net.queue[0];
            && Complete(c, log, w.psn)
            && ReadOdd(net.slots[Index(c, w.psn)].row, w.payload) == RowWords(Row(c, log, w.psn))
  {
    hide Inv, Index, ReadEven, ReadOdd, RowWords, Row;
    Front(c, net, log);
    TwoReads(Row(c, log, net.queue[0].psn), net.queue[0].payload);
  }

  lemma {:induction false} SecondPassSent(c: Config, net: Net, log: Log)
    requires Inv(c, net, log) && net.queue != []
    ensures SentOk(c, OnSecondPass(c, net), LogStep(c, net, log, SecondPass))
  {
    hide Apart, Index, LinkOk, ReadOdd, RowWords, Folded;
    var w := net.queue[0];
    var net', log' := OnSecondPass(c, net), LogStep(c, net, log, SecondPass);
    assert WaitingOk(c, log, w);
    SecondPassReads(c, net, log);
    forall m | m in net'.sent
      ensures m.rank < c.size && ResultOk(c, log', m.rank, m.psn, m.result)
    {
      if m in net.sent {
        assert ResultOk(c, log, m.rank, m.psn, m.result);
      } else {
        assert m.rank in Receivers(c, w) && m.psn == w.psn;
      }
    }
  }

  /** Only the bound on what was put out looks at `out`. */
  lemma {:induction false} PutOutMore(c: Config, log: Log, out: nat)
    requires Valid(c) && LogShape(c, log)
    ensures var log' := log.(out := out);
            && (forall slot, i: nat | i < c.len :: SlotOk(c, slot, log', i) <==> SlotOk(c, slot, log, i))
            && (forall w :: WaitingOk(c, log, w) && out <= w.psn + c.win ==> WaitingOk(c, log', w))
            && (forall psn: nat :: Complete(c, log', psn) <==> Complete(c, log, psn))
  {
    hide Holds, Apart, ReadEven;
  }

  lemma {:induction false} SecondPassQueue(c: Config, net: Net, log: Log)
    requires Inv(c, net, log) && net.queue != []
    ensures QueueOk(c, OnSecondPass(c, net), LogStep(c, net, log, SecondPass))
  {
    var out := Max(log.out, net.queue[0].psn + 1);
    forall k | 0 <= k < |net.queue|
      ensures log.out <= net.queue[k].psn + c.win
    {
      assert WaitingOk(c, log, net.queue[k]);
    }
    hide Inv, WaitingOk, SlotOk, Index, ReadOdd, Strip;
    PutOutMore(c, log, out);
    forall k | 1 <= k < |net.queue|
      ensures WaitingOk(c, log.(out := out), net.queue[k])
    {
      assert WaitingOk(c, log, net.queue[k]);
    }
  }

  lemma {:induction false} SecondPassInv(c: Config, net: Net, log: Log)
    requires Inv(c, net, log) && net.queue != []
    ensures Inv(c, OnSecondPass(c, net), LogStep(c, net, log, SecondPass))
  {
    hide LinkOk, HostOk, WaitingOk, SlotOk, ResultOk, Complete, Index, Row, ReadOdd, Strip, ReadEven;
    var net', log' := OnSecondPass(c, net), LogStep(c, net, log, SecondPass);
    Front(c, net, log);
    SecondPassSent(c, net, log);
    SecondPassQueue(c, net, log);
    PutOutMore(c, log, log'.out);
    SameOrderGrows(c, log, log');
    ResultsStay(c, net, log, log');
  }

  lemma {:induction false} SameOrderGrows(c: Config, log: Log, log': Log)
    requires log'.order == log.order && log.out <= log'.out
    ensures Grows(c, log, log')
  {
  }

  lemma {:induction false} StepInv(c: Config, net: Net, log: Log, a: Action)
    requires Inv(c, net, log) && Enabled(c, net, a) && (a.SendNext? ==> Apart(c, net.hosts[a.host].next))
    ensures Inv(c, Step(c, net, a), LogStep(c, net, log, a))
  {
    hide Inv, OnFirstPass, OnSecondPass;
    match a
    case SendNext(h) => SendInv(c, net, log, h);
    case Resend(h, psn) => ResendInv(c, net, log, h, psn);
    case LoseOnLink(h, i) => LoseOnLinkInv(c, net, log, h, i);
    case FirstPass(h) => FirstPassInv(c, net, log, h);
    case LoseInQueue(i) => LoseInQueueInv(c, net, log, i);
    case SecondPass => SecondPassInv(c, net, log);
    case Accept(m) => AcceptInv(c, net, log, m);
    case Slide(h) => SlideInv(c, net, log, h);
  }

  lemma {:induction false} StartInv(c: Config, net: Net)
    requires Valid(c) && Initial(c, net)
    ensures Inv(c, net, StartLog(c))
  {
  }
}
