/**
 * One register slot of the switch, on sets of ranks: what a packet's first pass does to it, what the second pass
 * reads, and what the slot holds after any sequence of first passes whatsoever.
 */
module DataPlane {
  import opened Bitmap
  import opened SatArith
  import opened Sequences

  const PAIRS: nat := 32
  const WORDS: nat := 64
  const TAG_WRAP: nat := 0x100_0000

  /** `set_version`: the group id, then the low 24 bits of the psn. */
  function VersionOf(group: nat, psn: nat): nat {
    group * TAG_WRAP + psn % TAG_WRAP
  }

  /** The 64 words `data00` to `data3f` of a packet. */
  type Payload = p: seq<Word> | |p| == WORDS witness seq(WORDS, i => 0)

  /** One entry of one `aggregator_array`: `agg0` aggregates an even word, `agg1` the odd word after it. */
  datatype AggPair = AggPair(agg0: Word, agg1: Word)

  /** The entries of the 32 aggregator arrays at one address. */
  type AggRow = row: seq<AggPair> | |row| == PAIRS witness seq(PAIRS, k => AggPair(0, 0))

  /** The register state at one address: `(version, bitmap)` and the aggregators. */
  datatype Slot = Slot(version: nat, members: set<nat>, row: AggRow)

  /** What ingress decides about a packet on its first pass. */
  datatype Verdict = Drop | Recirculate(multicast: bool, payload: Payload)

  function Zeros(): Payload {
    seq(WORDS, i => 0)
  }

  function Overwrite(payload: Payload): AggRow {
    seq(PAIRS, k requires 0 <= k < PAIRS => AggPair(payload[2 * k], payload[2 * k + 1]))
  }

  function Aggregate(row: AggRow, payload: Payload): AggRow {
    seq(PAIRS, k requires 0 <= k < PAIRS =>
      AggPair(SatAdd(row[k].agg0, payload[2 * k]), SatAdd(row[k].agg1, payload[2 * k + 1])))
  }

  /** The payload after pass 1: even words replaced by `agg0`. */
  function ReadEven(row: AggRow, payload: Payload): Payload {
    seq(WORDS, i requires 0 <= i < WORDS => if i % 2 == 0 then row[i / 2].agg0 else payload[i])
  }

  /** The payload after pass 2: odd words replaced by `agg1`. */
  function ReadOdd(row: AggRow, payload: Payload): Payload {
    seq(WORDS, i requires 0 <= i < WORDS => if i % 2 == 1 then row[i / 2].agg1 else payload[i])
  }

  /** All the words of a row, as a host sees them. */
  function RowWords(row: AggRow): Payload {
    seq(WORDS, i requires 0 <= i < WORDS => if i % 2 == 0 then row[i / 2].agg0 else row[i / 2].agg1)
  }

  /** The members a packet of version `tag` finds: a version change forgets the old ones. */
  function Found(slot: Slot, tag: nat): set<nat> {
    if slot.version == tag then slot.members else {}
  }

  /** Registers after the first pass of a packet of `rank`. */
  function Absorb(slot: Slot, tag: nat, rank: nat, payload: Payload): Slot {
    var found := Found(slot, tag);
    Slot(tag, found + {rank},
         if found == {} then Overwrite(payload)
         else if rank !in found then Aggregate(slot.row, payload)
         else slot.row)
  }

  /** Fate of that packet: it goes on only if all of the group's `size` ranks are in. */
  function Decide(size: nat, slot: Slot, tag: nat, rank: nat, payload: Payload): Verdict {
    var found := Found(slot, tag);
    if found + {rank} == Ranks(size)
    then Recirculate(rank !in found, ReadEven(Absorb(slot, tag, rank, payload).row, payload))
    else Drop
  }

  // ----- arbitrary arrivals at one slot

  /** A packet of version `tag` sent by `rank`; its payload is a function of the two. */
  datatype Arrival = Arrival(tag: nat, rank: nat)

  type Source = (nat, nat) -> Payload

  function After(initial: Slot, data: Source, arrivals: seq<Arrival>): Slot {
    if arrivals == [] then initial
    else
      var a := arrivals[|arrivals| - 1];
      Absorb(After(initial, data, arrivals[..|arrivals| - 1]), a.tag, a.rank, data(a.tag, a.rank))
  }

  /** The ranks heard since the version last changed, each once, in order of first arrival. */
  function Heard(arrivals: seq<Arrival>): seq<nat> {
    if arrivals == [] then []
    else
      var n := |arrivals| - 1;
      var a := arrivals[n];
      if n == 0 || arrivals[n - 1].tag != a.tag then [a.rank]
      else if a.rank in Heard(arrivals[..n]) then Heard(arrivals[..n])
      else Heard(arrivals[..n]) + [a.rank]
  }

  function ToSet(ranks: seq<nat>): set<nat> {
    set r | r in ranks
  }

  /** Word `w` of the payloads of `ranks`, in that order. */
  function Column(data: Source, tag: nat, ranks: seq<nat>, w: nat): seq<Word>
    requires w < WORDS
  {
    seq(|ranks|, i requires 0 <= i < |ranks| => data(tag, ranks[i])[w])
  }

  /** Aggregators that hold exactly the saturated sums of the payloads of `ranks`. */
  function Folded(data: Source, tag: nat, ranks: seq<nat>): AggRow {
    seq(PAIRS, k requires 0 <= k < PAIRS =>
      AggPair(SatSum(Column(data, tag, ranks, 2 * k)), SatSum(Column(data, tag, ranks, 2 * k + 1))))
  }

  /** The slot holds version `tag` with the contributions of `ranks`, each once. */
  predicate Holds(slot: Slot, data: Source, tag: nat, ranks: seq<nat>) {
    && slot.version == tag
    && ranks != []
    && Distinct(ranks)
    && slot.members == ToSet(ranks)
    && slot.row == Folded(data, tag, ranks)
  }

  lemma {:induction false} FoldOne(data: Source, tag: nat, rank: nat, w: nat)
    requires w < WORDS
    ensures SatSum(Column(data, tag, [rank], w)) == data(tag, rank)[w]
  {
    var column := Column(data, tag, [rank], w);
    assert column == [data(tag, rank)[w]] && column[..0] == [];
    assert SatSum(column) == SatAdd(SatSum(column[..0]), column[0]);
  }

  lemma {:induction false} FoldMore(data: Source, tag: nat, ranks: seq<nat>, rank: nat, w: nat)
    requires w < WORDS
    ensures SatSum(Column(data, tag, ranks + [rank], w)) == SatAdd(SatSum(Column(data, tag, ranks, w)), data(tag, rank)[w])
  {
    var column := Column(data, tag, ranks + [rank], w);
    assert column[..|ranks|] == Column(data, tag, ranks, w);
    assert SatSum(column) == SatAdd(SatSum(column[..|ranks|]), column[|ranks|]);
  }

  lemma {:induction false} FoldedOne(data: Source, tag: nat, rank: nat)
    ensures Folded(data, tag, [rank]) == Overwrite(data(tag, rank))
  {
    forall k | 0 <= k < PAIRS
      ensures Folded(data, tag, [rank])[k] == Overwrite(data(tag, rank))[k]
    {
      FoldOne(data, tag, rank, 2 * k);
      FoldOne(data, tag, rank, 2 * k + 1);
    }
  }

  lemma {:induction false} PairMore(data: Source, tag: nat, ranks: seq<nat>, rank: nat, k: nat)
    requires k < PAIRS
    ensures Folded(data, tag, ranks + [rank])[k] == Aggregate(Folded(data, tag, ranks), data(tag, rank))[k]
  {
    hide SatSum, SatAdd;
    FoldMore(data, tag, ranks, rank, 2 * k);
    FoldMore(data, tag, ranks, rank, 2 * k + 1);
  }

  lemma {:induction false} FoldedMore(data: Source, tag: nat, ranks: seq<nat>, rank: nat)
    ensures Folded(data, tag, ranks + [rank]) == Aggregate(Folded(data, tag, ranks), data(tag, rank))
  {
    hide Folded, Aggregate;
    forall k | 0 <= k < PAIRS
      ensures Folded(data, tag, ranks + [rank])[k] == Aggregate(Folded(data, tag, ranks), data(tag, rank))[k]
    {
      PairMore(data, tag, ranks, rank, k);
    }
  }

  /** A packet of another version, or the first one after a reset, throws the stale aggregate away. */
  lemma {:induction false} AbsorbFresh(slot: Slot, data: Source, tag: nat, rank: nat)
    requires Found(slot, tag) == {}
    ensures Holds(Absorb(slot, tag, rank, data(tag, rank)), data, tag, [rank])
  {
    FoldedOne(data, tag, rank);
    assert ToSet([rank]) == {} + {rank};
  }

  /** A packet of the current version counts if and only if its rank is new. */
  lemma {:induction false} AbsorbSame(slot: Slot, data: Source, tag: nat, ranks: seq<nat>, rank: nat)
    requires Holds(slot, data, tag, ranks)
    ensures Holds(Absorb(slot, tag, rank, data(tag, rank)), data, tag, if rank in ranks then ranks else ranks + [rank])
    ensures rank in ranks ==> Absorb(slot, tag, rank, data(tag, rank)) == slot
  {
    hide Folded, Aggregate, Overwrite;
    assert ranks[0] in ToSet(ranks);
    if rank in ranks {
      assert slot.members + {rank} == slot.members;
    } else {
      FoldedMore(data, tag, ranks, rank);
      assert ToSet(ranks + [rank]) == slot.members + {rank};
    }
  }

  /**
   * The slot-sum invariant: after any interleaving of packets, with any losses, duplicates and version changes,
   * the aggregators hold the saturated sum over the ranks heard since the last version change, each rank once.
   */
  lemma {:induction false} SlotSum(initial: Slot, data: Source, arrivals: seq<Arrival>)
    requires initial.members == {}
    requires arrivals != []
    ensures Holds(After(initial, data, arrivals), data, arrivals[|arrivals| - 1].tag, Heard(arrivals))
  {
    var n := |arrivals| - 1;
    var a, before := arrivals[n], arrivals[..n];
    if n == 0 {
      assert After(initial, data, before) == initial;
      AbsorbFresh(initial, data, a.tag, a.rank);
    } else {
      SlotSum(initial, data, before);
      var slot := After(initial, data, before);
      assert before[n - 1] == arrivals[n - 1];
      if arrivals[n - 1].tag == a.tag {
        AbsorbSame(slot, data, a.tag, Heard(before), a.rank);
      } else {
        AbsorbFresh(slot, data, a.tag, a.rank);
      }
    }
  }

  /** In particular, words whose one-sided totals fit are summed exactly, whatever the order. */
  lemma {:induction false} SlotSumExact(slot: Slot, data: Source, tag: nat, ranks: seq<nat>, k: nat)
    requires Holds(slot, data, tag, ranks) && k < PAIRS
    ensures Fits(Column(data, tag, ranks, 2 * k)) ==> slot.row[k].agg0 == Sum(Column(data, tag, ranks, 2 * k))
    ensures Fits(Column(data, tag, ranks, 2 * k + 1)) ==> slot.row[k].agg1 == Sum(Column(data, tag, ranks, 2 * k + 1))
  {
    if Fits(Column(data, tag, ranks, 2 * k)) {
      FitsIsExact(Column(data, tag, ranks, 2 * k));
    }
    if Fits(Column(data, tag, ranks, 2 * k + 1)) {
      FitsIsExact(Column(data, tag, ranks, 2 * k + 1));
    }
  }

  /** Arrivals of one version at a slot that already holds it completely. */
  predicate AllOf(arrivals: seq<Arrival>, tag: nat, size: nat) {
    forall i | 0 <= i < |arrivals| :: arrivals[i].tag == tag && arrivals[i].rank < size
  }

  /**
   * Frozen once full: while no other version comes, further packets change nothing, and each is sent on as a
   * unicast whose even words are the same.
   */
  lemma {:induction false} FrozenOnceFull(slot: Slot, size: nat, data: Source, arrivals: seq<Arrival>, late: Arrival)
    requires slot.members == Ranks(size) && size > 0
    requires AllOf(arrivals, slot.version, size) && AllOf([late], slot.version, size)
    ensures var now := After(slot, data, arrivals);
            && now == slot
            && Decide(size, now, late.tag, late.rank, data(late.tag, late.rank))
               == Recirculate(false, ReadEven(slot.row, data(late.tag, late.rank)))
  {
    assert 0 in Ranks(size);
    if arrivals != [] {
      var n := |arrivals| - 1;
      FrozenOnceFull(slot, size, data, arrivals[..n], late);
      assert slot.members + {arrivals[n].rank} == slot.members;
    }
    assert [late][0] == late;
    assert slot.members + {late.rank} == slot.members;
  }

  /**
   * A first pass asks for a multicast exactly when it is the one that completes its version: the slot did not
   * hold all ranks of `tag` before and does after.
   */
  lemma {:induction false} MulticastIffCompleting(size: nat, slot: Slot, tag: nat, rank: nat, payload: Payload)
    requires rank < size && Found(slot, tag) <= Ranks(size)
    ensures var verdict := Decide(size, slot, tag, rank, payload);
            && (verdict.Recirculate? <==> Absorb(slot, tag, rank, payload).members == Ranks(size))
            && (verdict.Recirculate? && verdict.multicast
                <==> Found(slot, tag) != Ranks(size) && Absorb(slot, tag, rank, payload).members == Ranks(size))
  {
    var found := Found(slot, tag);
    if rank in found {
      assert found + {rank} == found;
    }
  }

  /** Both halves of a payload, read from the same row, make up the whole row. */
  lemma {:induction false} TwoHalves(row: AggRow, payload: Payload)
    ensures ReadOdd(row, ReadEven(row, payload)) == RowWords(row)
  {
  }
}
