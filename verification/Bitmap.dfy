/** The 32-bit rank bitmaps of the ingress pipeline and the sets of ranks they stand for. */
module Bitmap {

  const MAX_RANKS: nat := 32

  /** `1 << k` in 32 bits. */
  function Shl(k: nat): bv32 {
    if k == 0 then 1 else Shl(k - 1) << 1
  }

  /** `(1 << group_size) - 1`, the mask the controller installs. */
  function GroupMask(size: nat): bv32 {
    Shl(size) - 1
  }

  /** The ternary entry `0 &&& mask` of `check_new_packet` matches `bits` exactly when this fails. */
  predicate Overlap(bits: bv32, mask: bv32) {
    bits & mask != 0
  }

  predicate Has(bits: bv32, rank: nat) {
    Overlap(bits, Shl(rank))
  }

  predicate Below(rank: nat, size: nat) {
    rank < size
  }

  /** The ranks of a group. */
  function Ranks(size: nat): (s: set<nat>)
    ensures forall rank: int :: rank in s <==> 0 <= rank < size
  {
    set rank: nat | rank < size && Below(rank, size)
  }

  /** The ranks whose bit is set. */
  function Members(bits: bv32): (s: set<nat>) {
    set rank | rank in Ranks(MAX_RANKS) && Has(bits, rank)
  }

  // ----- bit-level facts

  lemma {:induction false} OverlapOr(a: bv32, b: bv32, mask: bv32)
    ensures Overlap(a | b, mask) == (Overlap(a, mask) || Overlap(b, mask))
  {
    assert (a | b) & mask == (a & mask) | (b & mask);
  }

  lemma {:induction false} OverlapXor(a: bv32, b: bv32, mask: bv32)
    requires mask & (mask - 1) == 0
    ensures Overlap(a ^ b, mask) == (Overlap(a, mask) != Overlap(b, mask))
  {
  }

  lemma {:induction false} DoubleBit(bit: bv32)
    requires bit & (bit - 1) == 0
    ensures (bit << 1) & ((bit << 1) - 1) == 0
    ensures (bit << 1) - 1 == bit | (bit - 1)
  {
  }

  lemma {:induction false} OneBit(k: nat)
    ensures Shl(k) & (Shl(k) - 1) == 0
  {
    if k > 0 {
      OneBit(k - 1);
      DoubleBit(Shl(k - 1));
    }
  }

  lemma {:induction false} TopBits()
    ensures Shl(31) == 0x8000_0000 && Shl(32) == 0
  {
    assert Shl(8) == 0x100;
    assert Shl(16) == 0x1_0000;
    assert Shl(24) == 0x100_0000;
  }

  lemma {:induction false} Nonzero(k: nat)
    requires k < MAX_RANKS
    ensures Shl(k) != 0
    decreases MAX_RANKS - k
  {
    if k == MAX_RANKS - 1 {
      TopBits();
    } else {
      Nonzero(k + 1);
      assert Shl(k + 1) == Shl(k) << 1;
    }
  }

  lemma {:induction false} DisjointBits(j: nat, k: nat)
    requires j < k
    ensures !Overlap(Shl(j), Shl(k))
  {
    if j > 0 {
      DisjointBits(j - 1, k - 1);
      var x, y := Shl(j - 1), Shl(k - 1);
      assert (x << 1) & (y << 1) == (x & y) << 1;
    }
  }

  lemma {:induction false} SymmetricOverlap(a: bv32, b: bv32)
    ensures Overlap(a, b) == Overlap(b, a)
  {
  }

  lemma {:induction false} HasShl(rank: nat, other: nat)
    requires rank < MAX_RANKS && other < MAX_RANKS
    ensures Has(Shl(rank), other) == (rank == other)
  {
    Nonzero(rank);
    if rank < other {
      DisjointBits(rank, other);
    } else if other < rank {
      DisjointBits(other, rank);
      SymmetricOverlap(Shl(rank), Shl(other));
    }
  }

  lemma {:induction false} HasGroupMask(size: nat, rank: nat)
    requires size <= MAX_RANKS && rank < MAX_RANKS
    ensures Has(GroupMask(size), rank) == (rank < size)
  {
    if size > 0 {
      HasGroupMask(size - 1, rank);
      OneBit(size - 1);
      DoubleBit(Shl(size - 1));
      OverlapOr(Shl(size - 1), GroupMask(size - 1), Shl(rank));
      HasShl(size - 1, rank);
    }
  }

  /** Without bits below `k` there is nothing under the mask of the first `k`. */
  lemma {:induction false} NoBits(bits: bv32, k: nat)
    requires forall rank: nat | rank < k :: !Has(bits, rank)
    ensures bits & GroupMask(k) == 0
  {
    if k > 0 {
      NoBits(bits, k - 1);
      assert !Has(bits, k - 1);
      OneBit(k - 1);
      DoubleBit(Shl(k - 1));
      var bit, mask := Shl(k - 1), GroupMask(k - 1);
      assert bits & (bit | mask) == (bits & bit) | (bits & mask);
    }
  }

  lemma {:induction false} NoneLeft(bits: bv32, top: bv32)
    requires top == 0 && bits & (top - 1) == 0
    ensures bits == 0
  {
  }

  lemma {:induction false} NoDifference(a: bv32, b: bv32)
    requires a ^ b == 0
    ensures a == b
  {
  }

  lemma {:induction false} SameBits(a: bv32, b: bv32)
    requires forall rank: nat | rank < MAX_RANKS :: Has(a, rank) == Has(b, rank)
    ensures a == b
  {
    hide Shl, Overlap;
    var diff := a ^ b;
    forall rank: nat | rank < MAX_RANKS
      ensures !Has(diff, rank)
    {
      OneBit(rank);
      OverlapXor(a, b, Shl(rank));
      assert Has(a, rank) == Has(b, rank);
    }
    NoBits(diff, MAX_RANKS);
    TopBits();
    NoneLeft(diff, Shl(32));
    NoDifference(a, b);
  }

  // ----- the refinement: bit operations are set operations

  lemma {:induction false} HasOr(bits: bv32, rank: nat, other: nat)
    requires rank < MAX_RANKS && other < MAX_RANKS
    ensures Has(bits | Shl(rank), other) == (Has(bits, other) || other == rank)
  {
    OverlapOr(bits, Shl(rank), Shl(other));
    HasShl(rank, other);
  }

  lemma {:induction false} HasFlip(size: nat, rank: nat, other: nat)
    requires rank < size <= MAX_RANKS && other < MAX_RANKS
    ensures Has(Shl(rank) ^ GroupMask(size), other) == (other < size && other != rank)
  {
    hide Shl, GroupMask, Overlap;
    OneBit(other);
    OverlapXor(Shl(rank), GroupMask(size), Shl(other));
    HasShl(rank, other);
    HasGroupMask(size, other);
  }

  lemma {:induction false} MembersOr(bits: bv32, rank: nat)
    requires rank < MAX_RANKS
    ensures Members(bits | Shl(rank)) == Members(bits) + {rank}
  {
    hide Has, Shl;
    var both, alone := Members(bits | Shl(rank)), Members(bits);
    forall r: nat
      ensures r in both <==> r in alone + {rank}
    {
      if r < MAX_RANKS {
        HasOr(bits, rank, r);
      }
    }
  }

  lemma {:induction false} MembersGroupMask(size: nat)
    requires size <= MAX_RANKS
    ensures Members(GroupMask(size)) == Ranks(size)
  {
    hide Has, GroupMask;
    var bits := Members(GroupMask(size));
    forall r: nat
      ensures r in bits <==> r in Ranks(size)
    {
      if r < MAX_RANKS {
        HasGroupMask(size, r);
      }
    }
  }

  lemma {:induction false} MembersInjective(a: bv32, b: bv32)
    ensures (a == b) == (Members(a) == Members(b))
  {
    if Members(a) == Members(b) {
      forall rank: nat | rank < MAX_RANKS
        ensures Has(a, rank) == Has(b, rank)
      {
        assert Has(a, rank) == (rank in Members(a));
        assert Has(b, rank) == (rank in Members(b));
      }
      SameBits(a, b);
    }
  }

  lemma {:induction false} MembersEmpty(bits: bv32)
    ensures (bits == 0) == (Members(bits) == {})
  {
    forall rank | rank in Ranks(MAX_RANKS) ensures !Has(0, rank) {
    }
    assert Members(0) == {};
    MembersInjective(bits, 0);
    assert (bits == 0) == (Members(bits) == Members(0));
  }

  /** `bitmap_flip`, the group without the packet's rank. */
  lemma {:induction false} MembersFlip(size: nat, rank: nat)
    requires rank < size <= MAX_RANKS
    ensures Members(Shl(rank) ^ GroupMask(size)) == Ranks(size) - {rank}
  {
    hide Has, Shl, GroupMask;
    var bits := Members(Shl(rank) ^ GroupMask(size));
    forall r: nat
      ensures r in bits <==> r in Ranks(size) - {rank}
    {
      if r < MAX_RANKS {
        HasFlip(size, rank, r);
      }
    }
  }

  lemma {:induction false} OneMissing(group: set<nat>, part: set<nat>, rank: nat)
    requires part <= group && rank in group
    ensures part == group - {rank} || part == group <==> part + {rank} == group
  {
    if part + {rank} == group {
      if rank in part {
        assert part == group;
      } else {
        assert part == group - {rank};
      }
    }
  }

  /**
   * The two comparisons that decide `md.full`, and the table that decides `md.new_packet`: full iff the
   * old members and the sender make up the group, new iff the sender was not counted yet.
   */
  lemma {:induction false} FullTest(before: bv32, size: nat, rank: nat)
    requires rank < size <= MAX_RANKS
    requires Members(before) <= Ranks(size)
    ensures before == Shl(rank) ^ GroupMask(size) || before == GroupMask(size)
        <==> Members(before) + {rank} == Ranks(size)
    ensures Has(before, rank) <==> rank in Members(before)
  {
    hide Shl, GroupMask, Has;
    MembersGroupMask(size);
    MembersFlip(size, rank);
    MembersInjective(before, Shl(rank) ^ GroupMask(size));
    MembersInjective(before, GroupMask(size));
    OneMissing(Ranks(size), Members(before), rank);
  }
}
