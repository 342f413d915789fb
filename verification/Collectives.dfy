/** Reduce and broadcast run as allreduce: what hosts put on the wire and what egress strips. */
module Collectives {
  import opened SatArith
  import opened DataPlane
  import opened Sequences

  datatype Kind = AllReduce | Reduce | Broadcast

  /** A packet's `coll_type` and `root`. */
  datatype Collective = Collective(kind: Kind, root: nat)

  datatype Option<T> = None | Some(value: T)

  /** Whether the host's packets carry a payload. */
  predicate NeedTx(coll: Collective, rank: nat) {
    match coll.kind
    case AllReduce => true
    case Reduce => rank != coll.root
    case Broadcast => rank == coll.root
  }

  /** Whether the host expects a payload in the result. */
  predicate NeedRx(coll: Collective, rank: nat) {
    match coll.kind
    case AllReduce => true
    case Reduce => rank == coll.root
    case Broadcast => rank != coll.root
  }

  /** The payload the ingress parser hands on: zeros for a header-only packet. */
  function Parsed(coll: Collective, rank: nat, buffer: Payload): Payload {
    if NeedTx(coll, rank) then buffer else Zeros()
  }

  /** The payload egress leaves in a result addressed to `rank`. */
  function Strip(coll: Collective, rank: nat, words: Payload): Option<Payload> {
    if coll.kind == Reduce then (if rank == coll.root then Some(words) else None)
    else if coll.kind == Broadcast then (if rank == coll.root then None else Some(words))
    else Some(words)
  }

  /** The ranks other than `root`, in the same order. */
  function Without(ranks: seq<nat>, root: nat): seq<nat> {
    if ranks == [] then []
    else
      var rest := Without(ranks[..|ranks| - 1], root);
      var last := ranks[|ranks| - 1];
      if last == root then rest else rest + [last]
  }

  /** Payloads on the wire for one psn whose hosts' buffers are `buffers`. */
  function WireSource(coll: Collective, buffers: nat -> Payload): Source {
    (tag: nat, rank: nat) => Parsed(coll, rank, buffers(rank))
  }

  function BufferSource(buffers: nat -> Payload): Source {
    (tag: nat, rank: nat) => buffers(rank)
  }

  /** The fold over an arrival order, without one more rank at its end. */
  lemma {:induction false} FoldStep(data: Source, tag: nat, ranks: seq<nat>, w: nat)
    requires ranks != [] && w < WORDS
    ensures SatSum(Column(data, tag, ranks, w))
         == SatAdd(SatSum(Column(data, tag, ranks[..|ranks| - 1], w)), data(tag, ranks[|ranks| - 1])[w])
  {
    FoldMore(data, tag, ranks[..|ranks| - 1], ranks[|ranks| - 1], w);
    assert ranks[..|ranks| - 1] + [ranks[|ranks| - 1]] == ranks;
  }

  lemma {:induction false} BroadcastSent(coll: Collective, buffers: nat -> Payload, tag: nat, rank: nat, w: nat)
    requires coll.kind == Broadcast && w < WORDS
    ensures WireSource(coll, buffers)(tag, rank)[w] == if rank == coll.root then buffers(rank)[w] else 0
  {
    assert WireSource(coll, buffers)(tag, rank) == Parsed(coll, rank, buffers(rank));
    assert NeedTx(coll, rank) == (rank == coll.root);
    assert Zeros()[w] == 0;
  }

  /** Broadcast: in any arrival order, every aggregated word is the root's own, with no condition on its size. */
  lemma {:induction false} BroadcastWord(coll: Collective, buffers: nat -> Payload, tag: nat, ranks: seq<nat>, w: nat)
    requires coll.kind == Broadcast && Distinct(ranks) && w < WORDS
    ensures SatSum(Column(WireSource(coll, buffers), tag, ranks, w))
         == if coll.root in ranks then buffers(coll.root)[w] else 0
  {
    hide Column, WireSource;
    if ranks != [] {
      var front, last := ranks[..|ranks| - 1], ranks[|ranks| - 1];
      BroadcastWord(coll, buffers, tag, front, w);
      FoldStep(WireSource(coll, buffers), tag, ranks, w);
      BroadcastSent(coll, buffers, tag, last, w);
      assert ranks == front + [last];
      assert last !in front;
    } else {
      EmptyColumn(WireSource(coll, buffers), tag, w);
    }
  }

  lemma {:induction false} EmptyColumn(data: Source, tag: nat, w: nat)
    requires w < WORDS
    ensures SatSum(Column(data, tag, [], w)) == 0
  {
  }

  /** Reduce: the fold skips exactly the root, whose packets carry no payload. */
  lemma {:induction false} ReduceWord(coll: Collective, buffers: nat -> Payload, tag: nat, ranks: seq<nat>, w: nat)
    requires coll.kind == Reduce && w < WORDS
    ensures SatSum(Column(WireSource(coll, buffers), tag, ranks, w))
         == SatSum(Column(BufferSource(buffers), tag, Without(ranks, coll.root), w))
  {
    if ranks != [] {
      var front, last := ranks[..|ranks| - 1], ranks[|ranks| - 1];
      ReduceWord(coll, buffers, tag, front, w);
      FoldStep(WireSource(coll, buffers), tag, ranks, w);
      if last != coll.root {
        FoldMore(BufferSource(buffers), tag, Without(front, coll.root), last, w);
      }
    }
  }

  /** Egress keeps a payload exactly for the hosts that will copy one out of the result. */
  lemma {:induction false} StripMatchesNeedRx(coll: Collective, rank: nat, words: Payload)
    ensures Strip(coll, rank, words) == if NeedRx(coll, rank) then Some(words) else None
  {
  }
}
