/**
 * The switch pipeline as the P4 program writes it: headers and metadata assigned step by step, registers updated in
 * place. Every control is proved against the slot functions of `DataPlane`.
 */
module Switch {
  import opened Bitmap
  import opened SatArith
  import opened DataPlane
  import opened Collectives

  const INVALID_PASS: nat := 0xff
  const HEADER_LENGTH: nat := 20 + 10
  const FULL_LENGTH: nat := 20 + 10 + 256

  /** The headers of a packet; `isNetccl` is the validity of the netccl header. */
  datatype Headers = Headers(
    passCnt: nat, enableMulticast: bool, isNetccl: bool,
    coll: Collective, groupId: nat, rank: nat, aggAddr: nat, psn: nat,
    payload: Option<Payload>, length: nat, smac: nat, dmac: nat, sip: nat, dip: nat)

  /** What the traffic manager does with a packet after ingress. */
  datatype Forwarding = Dropped | Unicast(port: nat) | Multicast(group: nat)

  datatype BitmapPair = BitmapPair(version: nat, bitmap: bv32)

  // ----- parser

  /** `IngressParser` on an external port: a full packet, a header-only packet, or one that is not ours. */
  function ParseExternal(hdr: Headers): (parsed: Headers)
    ensures parsed.isNetccl ==> parsed.passCnt == 1 && !parsed.enableMulticast && parsed.payload.Some?
    ensures hdr.isNetccl && hdr.length == 30 ==> parsed.isNetccl && parsed.payload == Some(Zeros())
    ensures hdr.isNetccl && hdr.length == 30 + 4 * 64 && hdr.payload.Some? ==> parsed.isNetccl && parsed.payload == hdr.payload
    ensures !hdr.isNetccl || (hdr.length != 30 + 4 * 64 && hdr.length != 30) ==>
              !parsed.isNetccl && parsed.passCnt == 0xff && parsed.payload == hdr.payload
  {
    if hdr.isNetccl && hdr.length == FULL_LENGTH && hdr.payload.Some? then hdr.(passCnt := 1, enableMulticast := false)
    else if hdr.isNetccl && hdr.length == HEADER_LENGTH then
      hdr.(passCnt := 1, enableMulticast := false, payload := Some(Zeros()))
    else hdr.(passCnt := INVALID_PASS, enableMulticast := false, isNetccl := false)
  }

  function Join(a: bv32, b: bv32): bv32 {
    a | b
  }

  function Flip(a: bv32, b: bv32): bv32 {
    a ^ b
  }

  function Version(hdr: Headers): nat {
    VersionOf(hdr.groupId, hdr.psn)
  }

  class Ingress {
    const regBitmap: array<BitmapPair>
    const aggregators: array2<AggPair>
    var metadataTable: map<nat, bv32>
    var recirculateTable: map<nat, nat>
    var forwardTable: map<nat, Forwarding>

    /** 32 aggregator arrays as long as the bitmap array. */
    ghost predicate Valid()
      reads this
    {
      aggregators.Length0 == PAIRS && aggregators.Length1 == regBitmap.Length
    }

    constructor (registerLen: nat)
      ensures Valid() && regBitmap.Length == registerLen && fresh(regBitmap) && fresh(aggregators)
      ensures forall i | 0 <= i < registerLen :: regBitmap[i] == BitmapPair(0, 0)
      ensures metadataTable == map[] && recirculateTable == map[] && forwardTable == map[]
    {
      regBitmap := new BitmapPair[registerLen](_ => BitmapPair(0, 0));
      aggregators := new AggPair[PAIRS, registerLen]((_, _) => AggPair(0, 0));
      metadataTable, recirculateTable, forwardTable := map[], map[], map[];
    }

    ghost function RowAt(addr: nat): (row: AggRow)
      requires Valid() && addr < regBitmap.Length
      reads this, aggregators
      ensures forall k | 0 <= k < PAIRS :: row[k] == aggregators[k, addr]
    {
      seq(PAIRS, k requires 0 <= k < PAIRS reads this, aggregators => aggregators[k, addr])
    }

    /** The registers at one address, on sets of ranks. */
    ghost function SlotAt(addr: nat): Slot
      requires Valid() && addr < regBitmap.Length
      reads this, regBitmap, aggregators
    {
      Slot(regBitmap[addr].version, Members(regBitmap[addr].bitmap), RowAt(addr))
    }

    /** `reg_bitmap_update`: one atomic read-modify-write of `(version, bitmap)`. */
    method UpdateBitmap(addr: nat, version: nat, bitmap: bv32) returns (before: bv32)
      requires addr < regBitmap.Length
      modifies regBitmap
      ensures before == if old(regBitmap[addr]).version == version then old(regBitmap[addr]).bitmap else 0
      ensures regBitmap[addr] == BitmapPair(version, Join(before, bitmap))
      ensures forall i | 0 <= i < regBitmap.Length && i != addr :: regBitmap[i] == old(regBitmap[i])
    {
      var reg := regBitmap[addr];
      if reg.version == version {
        before := reg.bitmap;
        regBitmap[addr] := BitmapPair(version, reg.bitmap | bitmap);
      } else {
        before := 0;
        regBitmap[addr] := BitmapPair(version, bitmap);
        assert 0 | bitmap == bitmap;
      }
    }

    /** One `AggregatorAccess`: the priority table picks read1, overwrite, aggregate or read0. */
    method Access(k: nat, addr: nat, passCnt: nat, first: bool, isNew: bool, word0: Word, word1: Word)
      returns (out0: Word, out1: Word)
      requires Valid() && k < PAIRS && addr < regBitmap.Length
      modifies aggregators
      ensures forall j, i | 0 <= j < PAIRS && 0 <= i < regBitmap.Length && (j != k || i != addr) ::
                aggregators[j, i] == old(aggregators[j, i])
      ensures aggregators[k, addr] ==
              if passCnt == 2 then old(aggregators[k, addr])
              else if first then AggPair(word0, word1)
              else if isNew then AggPair(SatAdd(old(aggregators[k, addr]).agg0, word0),
                                         SatAdd(old(aggregators[k, addr]).agg1, word1))
              else old(aggregators[k, addr])
      ensures out0 == (if passCnt == 2 then word0 else aggregators[k, addr].agg0)
      ensures out1 == (if passCnt == 2 then aggregators[k, addr].agg1 else word1)
    {
      out0, out1 := word0, word1;
      var pair := aggregators[k, addr];
      if passCnt == 2 {
        out1 := pair.agg1;
      } else if first {
        aggregators[k, addr] := AggPair(word0, word1);
      } else if isNew {
        pair := AggPair(SatAdd(pair.agg0, word0), SatAdd(pair.agg1, word1));
        aggregators[k, addr] := pair;
        out0 := pair.agg0;
      } else {
        out0 := pair.agg0;
      }
    }

    /** The row after any pass. */
    static function NextRow(passCnt: nat, first: bool, isNew: bool, row: AggRow, payload: Payload): AggRow {
      if passCnt == 2 then row else if first then Overwrite(payload) else if isNew then Aggregate(row, payload) else row
    }

    /** The words a pass leaves in the packet. */
    static function NextWords(passCnt: nat, row: AggRow, payload: Payload): Payload {
      if passCnt == 2 then ReadOdd(row, payload) else ReadEven(row, payload)
    }

    static lemma {:induction false} NextPair(passCnt: nat, first: bool, isNew: bool, row: AggRow, payload: Payload, k: nat)
      requires k < PAIRS
      ensures NextRow(passCnt, first, isNew, row, payload)[k] ==
              if passCnt == 2 then row[k]
              else if first then AggPair(payload[2 * k], payload[2 * k + 1])
              else if isNew then AggPair(SatAdd(row[k].agg0, payload[2 * k]), SatAdd(row[k].agg1, payload[2 * k + 1]))
              else row[k]
      ensures NextWords(passCnt, row, payload)[2 * k] == (if passCnt == 2 then payload[2 * k] else row[k].agg0)
      ensures NextWords(passCnt, row, payload)[2 * k + 1] == (if passCnt == 2 then row[k].agg1 else payload[2 * k + 1])
    {
      hide SatAdd, ReadEven, ReadOdd, Overwrite, Aggregate;
      WordPair(row, payload, k);
      if passCnt != 2 {
        RowPair(row, payload, k);
      }
    }

    static lemma {:induction false} WordPair(row: AggRow, payload: Payload, k: nat)
      requires k < PAIRS
      ensures ReadEven(row, payload)[2 * k] == row[k].agg0 && ReadEven(row, payload)[2 * k + 1] == payload[2 * k + 1]
      ensures ReadOdd(row, payload)[2 * k] == payload[2 * k] && ReadOdd(row, payload)[2 * k + 1] == row[k].agg1
    {
    }

    static lemma {:induction false} RowPair(row: AggRow, payload: Payload, k: nat)
      requires k < PAIRS
      ensures Overwrite(payload)[k] == AggPair(payload[2 * k], payload[2 * k + 1])
      ensures Aggregate(row, payload)[k]
           == AggPair(SatAdd(row[k].agg0, payload[2 * k]), SatAdd(row[k].agg1, payload[2 * k + 1]))
    {
      hide SatAdd;
    }

    /** `AllAggregatorAccess`: aggregator `k` works on words `2k` and `2k + 1`. */
    method AccessAll(addr: nat, passCnt: nat, first: bool, isNew: bool, payload: Payload) returns (words: Payload)
      requires Valid() && addr < regBitmap.Length
      modifies aggregators
      ensures RowAt(addr) == NextRow(passCnt, first, isNew, old(RowAt(addr)), payload)
      ensures words == NextWords(passCnt, RowAt(addr), payload)
      ensures forall j, i | 0 <= j < PAIRS && 0 <= i < regBitmap.Length && i != addr ::
                aggregators[j, i] == old(aggregators[j, i])
    {
      hide NextRow, NextWords;
      ghost var row := RowAt(addr);
      ghost var next := NextRow(passCnt, first, isNew, row, payload);
      ghost var target := NextWords(passCnt, next, payload);
      words := payload;
      for k := 0 to PAIRS
        invariant forall j | 0 <= j < k :: aggregators[j, addr] == next[j]
        invariant forall j | k <= j < PAIRS :: aggregators[j, addr] == row[j]
        invariant forall j, i | 0 <= j < PAIRS && 0 <= i < regBitmap.Length && i != addr ::
                    aggregators[j, i] == old(aggregators[j, i])
        invariant forall i | 0 <= i < 2 * k :: words[i] == target[i]
        invariant forall i | 2 * k <= i < WORDS :: words[i] == payload[i]
      {
        NextPair(passCnt, first, isNew, row, payload, k);
        NextPair(passCnt, first, isNew, next, payload, k);
        var out0, out1 := Access(k, addr, passCnt, first, isNew, words[2 * k], words[2 * k + 1]);
        words := words[2 * k := out0][2 * k + 1 := out1];
      }
      assert RowAt(addr) == next;
    }

    /** `Forward.apply`: decides where the packet goes and, on a completing first pass, marks it for multicast. */
    method Forward(hdr: Headers, before: bv32, flip: bv32, mask: bv32, isNew: bool)
      returns (forwarding: Forwarding, enableMulticast: bool)
      ensures var full := before == flip || before == mask;
              && (hdr.passCnt == 1 && !full ==> forwarding == Dropped)
              && (hdr.passCnt == 1 && full ==>
                    forwarding == if hdr.groupId in recirculateTable then Unicast(recirculateTable[hdr.groupId]) else Dropped)
              && (hdr.passCnt == 2 && hdr.enableMulticast ==> forwarding == Multicast(hdr.groupId))
              && (hdr.passCnt != 1 && !(hdr.passCnt == 2 && hdr.enableMulticast) ==>
                    forwarding == if hdr.dmac in forwardTable then forwardTable[hdr.dmac] else Dropped)
              && enableMulticast == if hdr.passCnt == 1 && full then isNew else hdr.enableMulticast
    {
      var full := false;
      if before == flip {
        full := true;
      } else if before == mask {
        full := true;
      }
      forwarding, enableMulticast := Dropped, hdr.enableMulticast;
      if hdr.passCnt == 2 && hdr.enableMulticast {
        forwarding := Multicast(hdr.groupId);
      } else if hdr.passCnt == 1 {
        if full && hdr.groupId in recirculateTable {
          forwarding := Unicast(recirculateTable[hdr.groupId]);
        }
      } else if hdr.dmac in forwardTable {
        forwarding := forwardTable[hdr.dmac];
      }
      if hdr.passCnt == 1 && full {
        enableMulticast := isNew;
      }
    }

    /** A first pass of a member of a group that the tables know, at a slot that holds members of the group only. */
    ghost predicate FirstPassOf(hdr: Headers, size: nat)
      requires Valid()
      reads this, regBitmap, aggregators
    {
      && hdr.isNetccl && hdr.passCnt == 1 && hdr.payload.Some?
      && hdr.aggAddr < regBitmap.Length
      && hdr.rank < size <= MAX_RANKS
      && hdr.groupId in metadataTable && metadataTable[hdr.groupId] == GroupMask(size)
      && hdr.groupId in recirculateTable
      && Found(SlotAt(hdr.aggAddr), Version(hdr)) <= Ranks(size)
    }

    /** The register stages of a first pass: bitmap, packet state, aggregators. */
    method FirstPassRegisters(addr: nat, version: nat, rank: nat, payload: Payload)
      returns (before: bv32, isNew: bool, words: Payload)
      requires Valid() && addr < regBitmap.Length
      modifies regBitmap, aggregators
      ensures before == if old(regBitmap[addr]).version == version then old(regBitmap[addr]).bitmap else 0
      ensures isNew == (rank < MAX_RANKS && !Has(before, rank))
      ensures regBitmap[addr] == BitmapPair(version, Join(before, RankBitmap(rank)))
      ensures RowAt(addr) == NextRow(1, before == 0, isNew, old(RowAt(addr)), payload)
      ensures words == NextWords(1, RowAt(addr), payload)
      ensures UnchangedBut(addr)
    {
      hide NextRow, NextWords, Has, RankBitmap, Join;
      ghost var row := RowAt(addr);
      before := UpdateBitmap(addr, version, RankBitmap(rank));
      assert RowAt(addr) == row;
      isNew := rank < MAX_RANKS && !Has(before, rank);
      words := AccessAll(addr, 1, before == 0, isNew, payload);
    }

    /** All registers at other addresses are as they were. */
    twostate predicate UnchangedBut(addr: nat)
      requires Valid()
      reads this, regBitmap, aggregators
    {
      && (forall i | 0 <= i < regBitmap.Length && i != addr :: regBitmap[i] == old(regBitmap[i]))
      && (forall j, i | 0 <= j < PAIRS && 0 <= i < regBitmap.Length && i != addr ::
            aggregators[j, i] == old(aggregators[j, i]))
    }

    /** `bitmap_table`; a miss leaves the metadata at 0. */
    static function RankBitmap(rank: nat): bv32 {
      if rank < MAX_RANKS then Shl(rank) else 0
    }

    /** On a slot that holds members of the group only, the register stages are `Absorb` and the tests are `Decide`. */
    static lemma {:induction false} RefinesAbsorb(slot: Slot, pair: BitmapPair, version: nat, rank: nat, size: nat,
                                                  payload: Payload, before: bv32, slot': Slot)
      requires slot.version == pair.version && slot.members == Members(pair.bitmap)
      requires before == if pair.version == version then pair.bitmap else 0
      requires rank < size <= MAX_RANKS && Found(slot, version) <= Ranks(size)
      requires slot' == Slot(version, Members(Join(before, Shl(rank))), NextRow(1, before == 0, !Has(before, rank), slot.row, payload))
      ensures slot' == Absorb(slot, version, rank, payload)
      ensures Has(before, rank) == (rank in Found(slot, version))
      ensures (before == Flip(Shl(rank), GroupMask(size)) || before == GroupMask(size))
          <==> Found(slot, version) + {rank} == Ranks(size)
    {
      hide Shl, GroupMask, Has, Join, Flip, Overwrite, Aggregate;
      EmptyFound();
      FullOrFlip(before, size, rank);
      JoinMembers(before, rank);
      MembersEmpty(before);
    }

    static lemma {:induction false} EmptyFound()
      ensures Members(0) == {}
    {
      MembersEmpty(0);
    }

    static lemma {:induction false} FullOrFlip(before: bv32, size: nat, rank: nat)
      requires rank < size <= MAX_RANKS && Members(before) <= Ranks(size)
      ensures (before == Flip(Shl(rank), GroupMask(size)) || before == GroupMask(size))
          <==> Members(before) + {rank} == Ranks(size)
      ensures Has(before, rank) <==> rank in Members(before)
    {
      hide Shl, GroupMask, Has;
      FullTest(before, size, rank);
    }

    static lemma {:induction false} JoinMembers(before: bv32, rank: nat)
      requires rank < MAX_RANKS
      ensures Members(Join(before, Shl(rank))) == Members(before) + {rank}
    {
      hide Shl, Has;
      MembersOr(before, rank);
    }

    /** `Ingress.apply`. */
    method Apply(hdr: Headers) returns (hdr': Headers, forwarding: Forwarding)
      requires Valid()
      requires hdr.isNetccl ==> hdr.aggAddr < regBitmap.Length && hdr.payload.Some?
      requires hdr.isNetccl ==> hdr.passCnt == 1 || hdr.passCnt == 2
      requires !hdr.isNetccl ==> hdr.passCnt == INVALID_PASS
      modifies regBitmap, aggregators
      // Only the first pass of one of our packets writes registers, and only at its own address.
      ensures if hdr.passCnt == 1 then UnchangedBut(hdr.aggAddr)
              else regBitmap[..] == old(regBitmap[..]) && UnchangedBut(regBitmap.Length)
      // First pass.
      ensures forall size | old(FirstPassOf(hdr, size)) ::
                && SlotAt(hdr.aggAddr) == Absorb(old(SlotAt(hdr.aggAddr)), Version(hdr), hdr.rank, hdr.payload.value)
                && Carries(Decide(size, old(SlotAt(hdr.aggAddr)), Version(hdr), hdr.rank, hdr.payload.value),
                           recirculateTable, hdr, hdr', forwarding)
      // Any first pass, of whatever rank and at whatever slot: the registers and the even words.
      ensures hdr.passCnt == 1 ==>
                var version, bit := Version(hdr), RankBitmap(hdr.rank);
                var before := if old(regBitmap[hdr.aggAddr]).version == version then old(regBitmap[hdr.aggAddr]).bitmap else 0;
                var isNew := hdr.rank < MAX_RANKS && !Has(before, hdr.rank);
                var mask := if hdr.groupId in metadataTable then metadataTable[hdr.groupId] else 0;
                var full := before == Flip(bit, mask) || before == mask;
                && regBitmap[hdr.aggAddr] == BitmapPair(version, Join(before, bit))
                && RowAt(hdr.aggAddr) == NextRow(1, before == 0, isNew, old(RowAt(hdr.aggAddr)), hdr.payload.value)
                && hdr' == hdr.(payload := Some(NextWords(1, RowAt(hdr.aggAddr), hdr.payload.value)), dmac := hdr.smac,
                                length := FULL_LENGTH, enableMulticast := if full then isNew else hdr.enableMulticast)
                && forwarding == if full && hdr.groupId in recirculateTable then Unicast(recirculateTable[hdr.groupId])
                                 else Dropped
      // Second pass.
      ensures hdr.passCnt == 2 ==>
                && hdr' == hdr.(payload := Some(ReadOdd(RowAt(hdr.aggAddr), hdr.payload.value)),
                                dmac := hdr.smac, length := FULL_LENGTH)
                && forwarding == if hdr.enableMulticast then Multicast(hdr.groupId)
                                 else if hdr.smac in forwardTable then forwardTable[hdr.smac] else Dropped
      // Other traffic.
      ensures !hdr.isNetccl ==>
                hdr' == hdr && forwarding == if hdr.dmac in forwardTable then forwardTable[hdr.dmac] else Dropped
    {
      hide Shl, Has, Absorb, Found, GroupMask, ReadOdd, ReadEven, Join, Flip;
      hdr' := hdr;
      var mask: bv32 := if hdr.groupId in metadataTable then metadataTable[hdr.groupId] else 0;
      var flip := Flip(RankBitmap(hdr.rank), mask);
      var before: bv32, isNew := 0, true;
      if hdr.isNetccl {
        hdr' := hdr'.(dmac := hdr.smac, length := FULL_LENGTH);
        var words: Payload;
        if hdr.passCnt == 1 {
          ghost var slot, pair := SlotAt(hdr.aggAddr), regBitmap[hdr.aggAddr];
          before, isNew, words := FirstPassRegisters(hdr.aggAddr, Version(hdr), hdr.rank, hdr.payload.value);
          forall size | old(FirstPassOf(hdr, size))
            ensures SlotAt(hdr.aggAddr) == Absorb(slot, Version(hdr), hdr.rank, hdr.payload.value)
            ensures (before == flip || before == mask) <==> Found(slot, Version(hdr)) + {hdr.rank} == Ranks(size)
            ensures isNew == (hdr.rank !in Found(slot, Version(hdr)))
          {
            RefinesAbsorb(slot, pair, Version(hdr), hdr.rank, size, hdr.payload.value, before, SlotAt(hdr.aggAddr));
          }
        } else {
          ghost var row := RowAt(hdr.aggAddr);
          words := AccessAll(hdr.aggAddr, 2, true, isNew, hdr.payload.value);
          assert forall k | 0 <= k < PAIRS :: aggregators[k, hdr.aggAddr] == row[k];
        }
        hdr' := hdr'.(payload := Some(words));
      }
      var enable;
      forwarding, enable := Forward(hdr', before, flip, mask, isNew);
      hdr' := hdr'.(enableMulticast := enable);
    }
  }

  /** How a verdict shows in the packet and its destination. */
  predicate Carries(verdict: Verdict, recirculateTable: map<nat, nat>, hdr: Headers, hdr': Headers, forwarding: Forwarding) {
    match verdict
    case Drop => forwarding == Dropped
    case Recirculate(multicast, payload) =>
      && hdr.groupId in recirculateTable
      && forwarding == Unicast(recirculateTable[hdr.groupId])
      && hdr' == hdr.(enableMulticast := multicast, payload := Some(payload), dmac := hdr.smac, length := FULL_LENGTH)
  }

  // ----- egress

  class Egress {
    /** `restore_table`: switch and member address for each (group, rank). */
    var restoreTable: map<(nat, nat), (nat, nat)>
    var smacTable: map<nat, nat>
    var dmacTable: map<nat, nat>

    constructor ()
      ensures restoreTable == map[] && smacTable == map[] && dmacTable == map[]
    {
      restoreTable, smacTable, dmacTable := map[], map[], map[];
    }

    /** `Egress.apply` for a copy that the traffic manager made with replication id `rid`. */
    method Apply(hdr: Headers, rid: nat) returns (hdr': Headers, internalValid: bool)
      requires hdr.isNetccl ==> hdr.payload.Some?
      // A result goes out with the receiver's rank and address, and with a payload only if the receiver wants one.
      ensures hdr.isNetccl && hdr.passCnt == 2 ==>
                && !internalValid
                && hdr'.rank == (if hdr.enableMulticast then rid % 256 else hdr.rank)
                && hdr'.payload == Strip(hdr.coll, hdr'.rank, hdr.payload.value)
                && hdr'.length == (if hdr'.payload.Some? then hdr.length else HEADER_LENGTH)
                && (hdr'.sip, hdr'.dip) == (if (hdr.groupId, hdr'.rank) in restoreTable
                                            then restoreTable[(hdr.groupId, hdr'.rank)] else (hdr.sip, hdr.dip))
      ensures hdr.isNetccl && hdr.passCnt == 2 ==>
                && (hdr'.psn, hdr'.groupId, hdr'.aggAddr, hdr'.coll) == (hdr.psn, hdr.groupId, hdr.aggAddr, hdr.coll)
                && (hdr'.passCnt, hdr'.enableMulticast, hdr'.isNetccl) == (hdr.passCnt, hdr.enableMulticast, hdr.isNetccl)
                && hdr'.dmac == (if hdr'.dip in dmacTable then dmacTable[hdr'.dip] else hdr.dmac)
                && hdr'.smac == (if hdr'.sip in smacTable then smacTable[hdr'.sip] else hdr.smac)
      // A packet on its way to the second pass only counts the pass.
      ensures hdr.isNetccl && hdr.passCnt != 2 ==> hdr' == hdr.(passCnt := hdr.passCnt + 1) && internalValid
      ensures !hdr.isNetccl ==> hdr' == hdr && !internalValid
    {
      hdr' := hdr;
      internalValid := true;
      if hdr.isNetccl && hdr.passCnt == 2 {
        if hdr.enableMulticast {
          hdr' := hdr'.(rank := rid % 256);
        }
        if (hdr'.groupId, hdr'.rank) in restoreTable {
          var addresses := restoreTable[(hdr'.groupId, hdr'.rank)];
          hdr' := hdr'.(sip := addresses.0, dip := addresses.1);
        }
        if hdr'.sip in smacTable {
          hdr' := hdr'.(smac := smacTable[hdr'.sip]);
        }
        if hdr'.dip in dmacTable {
          hdr' := hdr'.(dmac := dmacTable[hdr'.dip]);
        }
        if hdr'.coll.kind == Reduce {
          if hdr'.rank != hdr'.coll.root {
            hdr' := hdr'.(payload := None, length := HEADER_LENGTH);
          }
        } else if hdr'.coll.kind == Broadcast {
          if hdr'.rank == hdr'.coll.root {
            hdr' := hdr'.(payload := None, length := HEADER_LENGTH);
          }
        }
      }
      if !hdr.isNetccl {
        internalValid := false;
      } else if hdr.passCnt == 2 {
        internalValid := false;
      } else {
        hdr' := hdr'.(passCnt := hdr'.passCnt + 1);
      }
    }
  }
}
