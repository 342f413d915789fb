/** The host's buffered access to one NIC queue: a send buffer compacted in place and a batched receive cursor. */
module ProcessBuffer {
  import opened Collectives

  const U16: nat := 0x1_0000

  /**
   * The NIC queue. `room(k)` bounds what the `k`-th transmit burst accepts and `ready(k)` what the `k`-th receive
   * burst delivers; both are arbitrary.
   */
  class Nic<Packet> {
    ghost const patience: nat -> nat
    const room: nat -> nat
    const ready: nat -> seq<Packet>
    var txCalls: nat
    var rxCalls: nat
    /** All packets accepted, and all delivered, in order. */
    ghost var accepted: seq<Packet>
    ghost var delivered: seq<Packet>

    /** The queue does not refuse for ever: `patience` runs down while it does. */
    ghost predicate Fair()
    {
      forall k: nat :: room(k) > 0 || patience(k + 1) < patience(k)
    }

    constructor (room: nat -> nat, ready: nat -> seq<Packet>, ghost patience: nat -> nat)
      ensures this.room == room && this.ready == ready && this.patience == patience
      ensures accepted == [] && delivered == []
    {
      this.room, this.ready, this.patience := room, ready, patience;
      txCalls, rxCalls, accepted, delivered := 0, 0, [], [];
    }

    /** `rte_eth_tx_burst`: accepts some of the first packets. */
    method TxBurst(packets: seq<Packet>) returns (n: nat)
      modifies this`txCalls, this`accepted
      ensures n == (if room(old(txCalls)) < |packets| then room(old(txCalls)) else |packets|)
      ensures accepted == old(accepted) + packets[..n] && txCalls == old(txCalls) + 1
    {
      n := if room(txCalls) < |packets| then room(txCalls) else |packets|;
      txCalls := txCalls + 1;
      accepted := accepted + packets[..n];
    }

    /** `rte_eth_rx_burst`: delivers at most `max` packets. */
    method RxBurst(max: nat) returns (packets: seq<Packet>)
      modifies this`rxCalls, this`delivered
      ensures packets == if |ready(old(rxCalls))| <= max then ready(old(rxCalls)) else ready(old(rxCalls))[..max]
      ensures delivered == old(delivered) + packets && rxCalls == old(rxCalls) + 1
    {
      packets := ready(rxCalls);
      if |packets| > max {
        packets := packets[..max];
      }
      rxCalls := rxCalls + 1;
      delivered := delivered + packets;
    }
  }

  lemma {:induction false} NextPart<T>(before: seq<T>, all: seq<T>, i: nat, more: nat)
    requires i + more <= |all|
    ensures before + all[..i] + all[i..][..more] == before + all[..i + more]
  {
    assert all[..i] + all[i..][..more] == all[..i + more];
  }

  // ----- the flush timer

  /** `check_flush_timer`: the 16-bit timer is compared with an int. */
  function NextTimer(timer: nat, txSize: nat): nat {
    if timer < 2 * txSize then (timer + 1) % U16 else 0
  }

  /** That call flushes. */
  predicate Fires(timer: nat, txSize: nat) {
    timer >= 2 * txSize
  }

  /** A call of `receive`, or of `send` with or without a flush in it. */
  datatype Call = Recv | Sent(flushed: bool)

  function TimerAfter(timer: nat, txSize: nat, call: Call): nat {
    match call
    case Recv => NextTimer(timer, txSize)
    case Sent(flushed) => if flushed then 0 else timer
  }

  /** Some call flushes. */
  predicate Attempted(timer: nat, txSize: nat, calls: seq<Call>)
    decreases |calls|
  {
    calls != []
    && (calls[0] == Sent(true) || (calls[0] == Recv && Fires(timer, txSize))
        || Attempted(TimerAfter(timer, txSize, calls[0]), txSize, calls[1..]))
  }

  function Receives(calls: seq<Call>): nat {
    if calls == [] then 0 else (if calls[0] == Recv then 1 else 0) + Receives(calls[1..])
  }

  lemma {:induction false} CountsUp(timer: nat, txSize: nat, calls: seq<Call>)
    requires 2 * txSize < U16 && Receives(calls) > 0 && timer + Receives(calls) > 2 * txSize
    ensures Attempted(timer, txSize, calls)
    decreases |calls|
  {
    if calls[0] != Sent(true) && !(calls[0] == Recv && Fires(timer, txSize)) {
      CountsUp(TimerAfter(timer, txSize, calls[0]), txSize, calls[1..]);
    }
  }

  /** A 16-bit timer never reaches a limit that needs 17 bits: without a full buffer nothing is ever flushed. */
  lemma {:induction false} NeverFires(timer: nat, txSize: nat, calls: seq<Call>)
    requires 2 * txSize >= U16 && timer < U16 && Sent(true) !in calls
    ensures !Attempted(timer, txSize, calls)
    decreases |calls|
  {
    if calls != [] {
      NeverFires(TimerAfter(timer, txSize, calls[0]), txSize, calls[1..]);
    }
  }

  function Repeat(n: nat): seq<Call> {
    if n == 0 then [] else [Recv] + Repeat(n - 1)
  }

  lemma {:induction false} RepeatReceives(n: nat)
    ensures Receives(Repeat(n)) == n && Sent(true) !in Repeat(n)
  {
    if n > 0 {
      RepeatReceives(n - 1);
      assert Repeat(n)[1..] == Repeat(n - 1);
    }
  }

  /**
   * Whatever is sent in between, a flush is attempted within any `2 * txSize + 1` receive calls, if and only if the
   * buffer has fewer than 32768 entries.
   */
  lemma {:induction false} FlushWithin(txSize: nat)
    ensures txSize < 0x8000
       <==> forall timer: nat, calls: seq<Call> | timer < U16 && Receives(calls) == 2 * txSize + 1 ::
              Attempted(timer, txSize, calls)
  {
    if txSize < 0x8000 {
      forall timer: nat, calls: seq<Call> | timer < U16 && Receives(calls) == 2 * txSize + 1
        ensures Attempted(timer, txSize, calls)
      {
        CountsUp(timer, txSize, calls);
      }
    } else {
      var calls := Repeat(2 * txSize + 1);
      RepeatReceives(2 * txSize + 1);
      NeverFires(0, txSize, calls);
      assert Receives(calls) == 2 * txSize + 1 && !Attempted(0, txSize, calls);
    }
  }

  // ----- the buffer

  class QueueProcessBuffer<Packet(0)> {
    const nic: Nic<Packet>
    const rxSize: nat
    const txSize: nat
    const rxBufs: array<Packet>
    const txBufs: array<Packet>
    var rxNb: nat
    var txNb: nat
    var rxIter: nat
    var flushTimer: nat
    /** All packets given to `Send`, and all returned by `Receive`, in order. */
    ghost var sent: seq<Packet>
    ghost var returned: seq<Packet>

    ghost predicate Valid()
      reads this, nic, rxBufs, txBufs
    {
      && rxBufs.Length == rxSize < U16 && txBufs.Length == txSize < U16 && txSize > 0
      && (rxBufs as object) != nic && (txBufs as object) != nic && rxBufs != txBufs
      && rxIter <= rxNb <= rxSize && txNb <= txSize && flushTimer < U16
      && nic.Fair()
      && sent == nic.accepted + txBufs[..txNb]
      && nic.delivered == returned + rxBufs[rxIter..rxNb]
    }

    constructor (nic: Nic<Packet>, rxSize: nat, txSize: nat, default_: Packet)
      requires nic.Fair() && nic.accepted == [] && nic.delivered == []
      requires rxSize < U16 && rxSize % 8 == 0 && 0 < txSize < U16
      ensures Valid() && fresh(rxBufs) && fresh(txBufs) && this.nic == nic && this.txSize == txSize
      ensures sent == [] && returned == [] && flushTimer == 0
    {
      this.nic, this.rxSize, this.txSize := nic, rxSize, txSize;
      rxNb, txNb, rxIter, flushTimer := 0, 0, 0, 0;
      rxBufs := new Packet[rxSize](_ => default_);
      txBufs := new Packet[txSize](_ => default_);
      sent, returned := [], [];
    }

    /** `flush`: bursts until the NIC has everything. */
    method Flush()
      requires Valid()
      modifies this`txNb, this`flushTimer, nic`txCalls, nic`accepted
      ensures Valid() && txNb == 0 && nic.accepted == sent && flushTimer == 0
      ensures nic.txCalls > old(nic.txCalls)
    {
      ghost var before, pending := nic.accepted, txBufs[..txNb];
      var complete := nic.TxBurst(txBufs[..txNb]);
      while complete < txNb
        invariant complete <= txNb
        invariant nic.accepted == before + pending[..complete]
        invariant nic.txCalls > old(nic.txCalls)
        modifies nic`txCalls, nic`accepted
        decreases txNb - complete, nic.patience(nic.txCalls)
      {
        assert txBufs[complete..txNb] == pending[complete..];
        var more := nic.TxBurst(txBufs[complete..txNb]);
        NextPart(before, pending, complete, more);
        complete := complete + more;
      }
      assert pending[..complete] == pending;
      txNb := 0;
      flushTimer := 0;
    }

    /** `flush_once`: one burst; what the NIC did not take moves to the front. */
    method FlushOnce()
      requires Valid()
      modifies this`txNb, this`flushTimer, nic`txCalls, nic`accepted, txBufs
      ensures Valid() && flushTimer == 0 && nic.txCalls == old(nic.txCalls) + 1
      ensures txNb == if nic.room(old(nic.txCalls)) < old(txNb) then old(txNb) - nic.room(old(nic.txCalls)) else 0
    {
      ghost var before := txBufs[..txNb];
      var complete := nic.TxBurst(txBufs[..txNb]);
      txNb := txNb - complete;
      if txNb != 0 && complete != 0 {
        for i := 0 to txNb
          invariant forall k | 0 <= k < i :: txBufs[k] == before[k + complete]
          invariant forall k | i <= k < |before| :: txBufs[k] == before[k]
          modifies txBufs
        {
          txBufs[i] := txBufs[i + complete];
        }
      }
      assert txBufs[..txNb] == before[complete..];
      flushTimer := 0;
    }

    /** `check_flush_timer`. */
    method CheckFlushTimer()
      requires Valid()
      modifies this`txNb, this`flushTimer, nic`txCalls, nic`accepted, txBufs
      ensures Valid() && flushTimer == NextTimer(old(flushTimer), txSize)
      ensures (nic.txCalls > old(nic.txCalls)) == Fires(old(flushTimer), txSize)
    {
      if flushTimer < txSize * 2 {
        flushTimer := (flushTimer + 1) % U16;
        return;
      }
      FlushOnce();
    }

    /**
     * `receive`: the packets come back in the order the NIC delivered them. The NIC is asked, once, iff the buffer is
     * exhausted, and there is no packet iff it then has none.
     */
    method Receive() returns (packet: Option<Packet>)
      requires Valid()
      modifies this, nic, txBufs, rxBufs
      ensures Valid() && sent == old(sent) && flushTimer == NextTimer(old(flushTimer), txSize)
      ensures (nic.txCalls > old(nic.txCalls)) == Fires(old(flushTimer), txSize)
      ensures returned == old(returned) + match packet case None => [] case Some(p) => [p]
      ensures packet.None? ==> returned == nic.delivered
      ensures nic.rxCalls == old(nic.rxCalls) + if old(rxIter == rxNb) then 1 else 0
      ensures nic.delivered == old(nic.delivered) + if old(rxIter == rxNb) then Burst(old(nic.rxCalls)) else []
      ensures packet == if !old(rxIter == rxNb) then Some(old(rxBufs[rxIter]))
                        else if Burst(old(nic.rxCalls)) == [] then None
                        else Some(Burst(old(nic.rxCalls))[0])
    {
      CheckFlushTimer();
      if rxIter == rxNb {
        Refill();
        if rxNb == 0 {
          return None;
        }
      }
      packet := Some(rxBufs[rxIter]);
      assert rxBufs[rxIter..rxNb] == [rxBufs[rxIter]] + rxBufs[rxIter + 1..rxNb];
      returned := returned + [rxBufs[rxIter]];
      rxIter := rxIter + 1;
    }

    /** What the NIC has for the `k`-th receive burst of at most a buffer. */
    function Burst(k: nat): seq<Packet> {
      if |nic.ready(k)| <= rxSize then nic.ready(k) else nic.ready(k)[..rxSize]
    }

    /** One receive burst into the empty buffer. */
    method Refill()
      requires Valid() && rxIter == rxNb
      modifies this`rxNb, this`rxIter, nic`rxCalls, nic`delivered, rxBufs
      ensures Valid() && rxIter == 0 && nic.rxCalls == old(nic.rxCalls) + 1
      ensures rxNb == |Burst(old(nic.rxCalls))| && rxBufs[..rxNb] == Burst(old(nic.rxCalls))
      ensures nic.delivered == old(nic.delivered) + Burst(old(nic.rxCalls))
    {
      rxIter := 0;
      var packets := nic.RxBurst(rxSize);
      rxNb := |packets|;
      forall i | 0 <= i < |packets| {
        rxBufs[i] := packets[i];
      }
      assert rxBufs[..rxNb] == packets;
    }

    /** `send`: the packet joins the end of what is sent, however little the NIC takes at a time. */
    method Send(packet: Packet)
      requires Valid()
      modifies this`txNb, this`flushTimer, this`sent, nic`txCalls, nic`accepted, txBufs
      ensures Valid() && sent == old(sent) + [packet]
      ensures (nic.txCalls > old(nic.txCalls)) == (old(txNb) + 1 >= txSize)
      ensures flushTimer == TimerAfter(old(flushTimer), txSize, Call.Sent(old(txNb) + 1 >= txSize))
    {
      while txNb == txSize
        invariant Valid() && sent == old(sent) && nic.txCalls >= old(nic.txCalls)
        invariant txNb <= old(txNb) && if nic.txCalls > old(nic.txCalls) then old(txNb) == txSize && flushTimer == 0
                  else txNb == old(txNb) && flushTimer == old(flushTimer)
        decreases txNb, nic.patience(nic.txCalls)
      {
        FlushOnce();
      }
      txBufs[txNb] := packet;
      txNb := txNb + 1;
      sent := sent + [packet];
      assert txBufs[..txNb] == txBufs[..txNb - 1] + [packet];
      if txNb == txSize {
        FlushOnce();
      }
    }
  }
}
