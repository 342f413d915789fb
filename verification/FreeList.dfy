/** The controller's list of free switch-memory segments, edited as the list operations of the source edit it. */
module FreeList {
  import Arith

  datatype Seg = Seg(lo: nat, hi: nat)

  datatype Freed = InvalidFree | Freed(segs: seq<Seg>)

  /** Non-empty segments, in order, apart, and below `limit`. */
  predicate Ordered(segs: seq<Seg>, limit: nat) {
    && (forall i | 0 <= i < |segs| :: segs[i].lo < segs[i].hi <= limit)
    && (forall i, j | 0 <= i < j < |segs| :: segs[i].hi <= segs[j].lo)
  }

  predicate Covers(seg: Seg, a: int) {
    seg.lo <= a < seg.hi
  }

  predicate IsFree(segs: seq<Seg>, a: int) {
    exists i :: 0 <= i < |segs| && Covers(segs[i], a)
  }

  /** The free bytes. */
  ghost function Bytes(segs: seq<Seg>): iset<int> {
    iset a | IsFree(segs, a)
  }

  predicate Within(a: int, lo: int, hi: int) {
    lo <= a < hi
  }

  ghost function Range(lo: int, hi: int): iset<int> {
    iset a | Within(a, lo, hi)
  }

  function RemoveAt(segs: seq<Seg>, i: nat): seq<Seg>
    requires i < |segs|
  {
    segs[..i] + segs[i + 1..]
  }

  function InsertAt(segs: seq<Seg>, i: nat, seg: Seg): seq<Seg>
    requires i <= |segs|
  {
    segs[..i] + [seg] + segs[i..]
  }

  /** `alloc_seg`. */
  function Alloc(segs: seq<Seg>, index: nat, lo: nat, hi: nat): seq<Seg>
    requires index < |segs|
  {
    var seg := segs[index];
    var rest := RemoveAt(segs, index);
    var withRight := if seg.hi != hi then InsertAt(rest, index, Seg(hi, seg.hi)) else rest;
    if seg.lo != lo then InsertAt(withRight, index, Seg(seg.lo, lo)) else withRight
  }

  /** The first segment that ends after `lo`. */
  function RightOf(segs: seq<Seg>, lo: nat): (i: nat)
    ensures i <= |segs|
    ensures forall j | 0 <= j < i :: segs[j].hi <= lo
    ensures i < |segs| ==> lo < segs[i].hi
  {
    if segs == [] || lo < segs[0].hi then 0 else 1 + RightOf(segs[1..], lo)
  }

  /** `free_seg`, with the right index taken before the left neighbour is deleted. */
  function Free(segs: seq<Seg>, lo: nat, hi: nat): Freed {
    var right := RightOf(segs, lo);
    if right < |segs| && segs[right].lo < hi then InvalidFree
    else
      var joinLeft := right > 0 && segs[right - 1].hi == lo;
      var lo' := if joinLeft then segs[right - 1].lo else lo;
      var index := if joinLeft then right - 1 else right;
      var segs' := if joinLeft then RemoveAt(segs, right - 1) else segs;
      var joinRight := right < |segs'| && segs'[right].lo == hi;
      var hi' := if joinRight then segs'[right].hi else hi;
      Freed(InsertAt(if joinRight then RemoveAt(segs', right) else segs', index, Seg(lo', hi')))
  }

  lemma {:induction false} RightOfUnique(segs: seq<Seg>, lo: nat, i: nat)
    requires i <= |segs|
    requires forall j | 0 <= j < i :: segs[j].hi <= lo
    requires i < |segs| ==> lo < segs[i].hi
    ensures RightOf(segs, lo) == i
  {
    var r := RightOf(segs, lo);
    if r < i {
      assert false;
    } else if i < r {
      assert false;
    }
  }

  // ----- sets of bytes

  lemma {:induction false} BytesInsert(segs: seq<Seg>, i: nat, seg: Seg)
    requires i <= |segs|
    ensures Bytes(InsertAt(segs, i, seg)) == Bytes(segs) + Range(seg.lo, seg.hi)
  {
    var new_ := InsertAt(segs, i, seg);
    forall a: int
      ensures a in Bytes(new_) <==> a in Bytes(segs) + Range(seg.lo, seg.hi)
    {
      if a in Bytes(segs) {
        var j :| 0 <= j < |segs| && Covers(segs[j], a);
        assert Covers(new_[if j < i then j else j + 1], a);
      }
      if a in Range(seg.lo, seg.hi) {
        assert Covers(new_[i], a);
      }
    }
  }

  lemma {:induction false} BytesRemove(segs: seq<Seg>, i: nat)
    requires i < |segs|
    ensures Bytes(segs) == Bytes(RemoveAt(segs, i)) + Range(segs[i].lo, segs[i].hi)
  {
    BytesInsert(RemoveAt(segs, i), i, segs[i]);
    assert InsertAt(RemoveAt(segs, i), i, segs[i]) == segs;
  }

  /** A segment of an ordered list shares no byte with the others. */
  lemma {:induction false} RemovedApart(segs: seq<Seg>, limit: nat, i: nat)
    requires Ordered(segs, limit) && i < |segs|
    ensures Ordered(RemoveAt(segs, i), limit)
    ensures Bytes(RemoveAt(segs, i)) == Bytes(segs) - Range(segs[i].lo, segs[i].hi)
  {
    BytesRemove(segs, i);
    var rest := RemoveAt(segs, i);
    forall a: int | a in Bytes(rest)
      ensures a !in Range(segs[i].lo, segs[i].hi)
    {
      var j :| 0 <= j < |rest| && Covers(rest[j], a);
    }
  }

  /** A segment that fits between its neighbours keeps the list ordered. */
  lemma {:induction false} InsertOrdered(segs: seq<Seg>, limit: nat, i: nat, seg: Seg)
    requires Ordered(segs, limit) && i <= |segs| && seg.lo < seg.hi <= limit
    requires i > 0 ==> segs[i - 1].hi <= seg.lo
    requires i < |segs| ==> seg.hi <= segs[i].lo
    ensures Ordered(InsertAt(segs, i, seg), limit)
  {
    forall k | 0 <= k < i
      ensures segs[k].hi <= seg.lo
    {
      if k < i - 1 {
        assert segs[k].hi <= segs[i - 1].lo;
      }
    }
    forall k | i <= k < |segs|
      ensures seg.hi <= segs[k].lo
    {
      if i < k {
        assert segs[i].hi <= segs[k].lo;
      }
    }
    Spliced(segs, limit, i, seg);
  }

  lemma {:induction false} Spliced(segs: seq<Seg>, limit: nat, i: nat, seg: Seg)
    requires Ordered(segs, limit) && i <= |segs| && seg.lo < seg.hi <= limit
    requires forall k | 0 <= k < i :: segs[k].hi <= seg.lo
    requires forall k | i <= k < |segs| :: seg.hi <= segs[k].lo
    ensures Ordered(InsertAt(segs, i, seg), limit)
  {
    var new_ := InsertAt(segs, i, seg);
    forall j, k | 0 <= j < k < |new_|
      ensures new_[j].hi <= new_[k].lo
    {
      var j' := if j < i then j else j - 1;
      var k' := if k < i then k else k - 1;
      if j == i {
        assert new_[k] == segs[k'];
      } else if k == i {
        assert new_[j] == segs[j'];
      } else {
        assert new_[j] == segs[j'] && new_[k] == segs[k'];
      }
    }
  }

  /** The list without a segment, except for its part from `hi` on. */
  function KeepRight(segs: seq<Seg>, index: nat, hi: nat): seq<Seg>
    requires index < |segs|
  {
    var rest := RemoveAt(segs, index);
    if segs[index].hi != hi then InsertAt(rest, index, Seg(hi, segs[index].hi)) else rest
  }

  lemma {:induction false} KeptRight(segs: seq<Seg>, limit: nat, index: nat, hi: nat)
    requires Ordered(segs, limit) && index < |segs| && segs[index].lo < hi <= segs[index].hi
    ensures var kept := KeepRight(segs, index, hi);
            && Ordered(kept, limit) && Bytes(kept) == Bytes(segs) - Range(segs[index].lo, hi)
            && index <= |kept|
            && (index > 0 ==> kept[index - 1] == segs[index - 1])
            && (index < |kept| ==> hi <= kept[index].lo)
  {
    hide Bytes;
    var seg := segs[index];
    var rest := RemoveAt(segs, index);
    RemovedApart(segs, limit, index);
    BytesRemove(segs, index);
    if seg.hi != hi {
      BytesInsert(rest, index, Seg(hi, seg.hi));
      InsertOrdered(rest, limit, index, Seg(hi, seg.hi));
      assert Range(seg.lo, seg.hi) == Range(seg.lo, hi) + Range(hi, seg.hi);
    }
  }

  /** `alloc_seg` takes exactly the block out of the free bytes. */
  lemma {:induction false} AllocTakes(segs: seq<Seg>, limit: nat, index: nat, lo: nat, hi: nat)
    requires Ordered(segs, limit) && index < |segs|
    requires segs[index].lo <= lo < hi <= segs[index].hi
    ensures var segs' := Alloc(segs, index, lo, hi);
            Ordered(segs', limit) && Bytes(segs') == Bytes(segs) - Range(lo, hi)
    ensures Range(lo, hi) <= Bytes(segs)
  {
    var seg, kept := segs[index], KeepRight(segs, index, hi);
    assert Alloc(segs, index, lo, hi) == if seg.lo != lo then InsertAt(kept, index, Seg(seg.lo, lo)) else kept;
    hide Bytes, Alloc, KeepRight, InsertAt;
    KeptRight(segs, limit, index, hi);
    BytesRemove(segs, index);
    assert Range(seg.lo, seg.hi) == Range(seg.lo, lo) + Range(lo, hi) + Range(hi, seg.hi);
    if seg.lo != lo {
      BytesInsert(kept, index, Seg(seg.lo, lo));
      InsertOrdered(kept, limit, index, Seg(seg.lo, lo));
      assert Range(seg.lo, hi) == Range(seg.lo, lo) + Range(lo, hi);
    }
  }

  /** "Invalid free" is reported iff the block overlaps free memory. */
  lemma {:induction false} InvalidIffOverlap(segs: seq<Seg>, limit: nat, lo: nat, hi: nat)
    requires Ordered(segs, limit) && lo < hi
    ensures Free(segs, lo, hi).InvalidFree? <==> Range(lo, hi) * Bytes(segs) != iset{}
  {
    var right := RightOf(segs, lo);
    if right < |segs| && segs[right].lo < hi {
      var a := if lo < segs[right].lo then segs[right].lo else lo;
      assert Covers(segs[right], a);
      assert a in Range(lo, hi) * Bytes(segs);
    } else {
      forall a | a in Range(lo, hi)
        ensures a !in Bytes(segs)
      {
        forall j | 0 <= j < |segs|
          ensures !Covers(segs[j], a)
        {
          assert right < j ==> segs[right].hi <= segs[j].lo;
        }
      }
    }
  }

  /** Where the source's branches lead: it joins the left neighbour, or else the right one, or none. */
  lemma {:induction false} FreeBranches(segs: seq<Seg>, limit: nat, lo: nat, hi: nat)
    requires Ordered(segs, limit) && lo < hi && Free(segs, lo, hi).Freed?
    ensures var right := RightOf(segs, lo); var segs' := Free(segs, lo, hi).segs;
            if right > 0 && segs[right - 1].hi == lo then
              segs' == InsertAt(RemoveAt(segs, right - 1), right - 1, Seg(segs[right - 1].lo, hi))
            else if right < |segs| && segs[right].lo == hi then
              segs' == InsertAt(RemoveAt(segs, right), right, Seg(lo, segs[right].hi))
            else segs' == InsertAt(segs, right, Seg(lo, hi))
  {
    var right := RightOf(segs, lo);
    if right > 0 && segs[right - 1].hi == lo {
      var rest := RemoveAt(segs, right - 1);
      if right < |rest| {
        assert rest[right] == segs[right + 1];
        assert segs[right].hi <= segs[right + 1].lo;
      }
    }
  }

  lemma {:induction false} Replaced(segs: seq<Seg>, limit: nat, i: nat, seg: Seg)
    requires Ordered(segs, limit) && i < |segs| && seg.lo < seg.hi <= limit
    requires seg.lo <= segs[i].lo && segs[i].hi <= seg.hi
    requires i > 0 ==> segs[i - 1].hi <= seg.lo
    requires i + 1 < |segs| ==> seg.hi <= segs[i + 1].lo
    ensures var segs' := InsertAt(RemoveAt(segs, i), i, seg);
            Ordered(segs', limit) && Bytes(segs') == Bytes(segs) + Range(seg.lo, seg.hi)
  {
    RemovedApart(segs, limit, i);
    BytesRemove(segs, i);
    BytesInsert(RemoveAt(segs, i), i, seg);
    InsertOrdered(RemoveAt(segs, i), limit, i, seg);
  }

  /** `free_seg` adds exactly the block to the free bytes, even where a merge is missed. */
  lemma {:induction false} FreeGives(segs: seq<Seg>, limit: nat, lo: nat, hi: nat)
    requires Ordered(segs, limit) && lo < hi <= limit
    requires Free(segs, lo, hi).Freed?
    ensures var segs' := Free(segs, lo, hi).segs;
            Ordered(segs', limit) && Bytes(segs') == Bytes(segs) + Range(lo, hi)
  {
    FreeBranches(segs, limit, lo, hi);
    FreePlace(segs, lo, hi);
    var right := RightOf(segs, lo);
    hide Free, InsertAt, RemoveAt, Bytes, Range, RightOf;
    if right > 0 && segs[right - 1].hi == lo {
      Replaced(segs, limit, right - 1, Seg(segs[right - 1].lo, hi));
      Absorbed(segs, right - 1, lo, hi);
    } else if right < |segs| && segs[right].lo == hi {
      Replaced(segs, limit, right, Seg(lo, segs[right].hi));
      Absorbed(segs, right, lo, hi);
    } else {
      BytesInsert(segs, right, Seg(lo, hi));
      InsertOrdered(segs, limit, right, Seg(lo, hi));
    }
  }

  lemma {:induction false} FreePlace(segs: seq<Seg>, lo: nat, hi: nat)
    requires Free(segs, lo, hi).Freed?
    ensures var right := RightOf(segs, lo);
            && (right > 0 ==> segs[right - 1].hi <= lo)
            && (right < |segs| ==> hi <= segs[right].lo)
  {
  }

  /** Extending a segment of the list by a block next to it adds the block. */
  lemma {:induction false} Absorbed(segs: seq<Seg>, i: nat, lo: nat, hi: nat)
    requires i < |segs| && segs[i].lo < segs[i].hi && lo < hi
    ensures segs[i].hi == lo ==> Bytes(segs) + Range(segs[i].lo, hi) == Bytes(segs) + Range(lo, hi)
    ensures segs[i].lo == hi ==> Bytes(segs) + Range(lo, segs[i].hi) == Bytes(segs) + Range(lo, hi)
  {
    BytesRemove(segs, i);
    assert segs[i].hi == lo ==> Range(segs[i].lo, hi) == Range(segs[i].lo, segs[i].hi) + Range(lo, hi);
    assert segs[i].lo == hi ==> Range(lo, segs[i].hi) == Range(lo, hi) + Range(segs[i].lo, segs[i].hi);
  }

  // ----- missed merges

  /** No two neighbours touch. */
  predicate Coalesced(segs: seq<Seg>) {
    forall i | 0 < i < |segs| :: segs[i - 1].hi < segs[i].lo
  }

  predicate TouchesLeft(segs: seq<Seg>, lo: nat) {
    exists i :: 0 <= i < |segs| && segs[i].hi == lo
  }

  predicate TouchesRight(segs: seq<Seg>, hi: nat) {
    exists i :: 0 <= i < |segs| && segs[i].lo == hi
  }

  lemma {:induction false} TouchingLeft(segs: seq<Seg>, limit: nat, lo: nat, right: nat)
    requires Ordered(segs, limit) && right <= |segs|
    requires right > 0 ==> segs[right - 1].hi <= lo
    requires right < |segs| ==> lo < segs[right].hi
    ensures TouchesLeft(segs, lo) <==> right > 0 && segs[right - 1].hi == lo
  {
    forall i | 0 <= i < |segs| && i != right - 1
      ensures segs[i].hi != lo
    {
      if i < right {
        assert segs[i].hi <= segs[right - 1].lo;
      } else if right < i {
        assert segs[right].hi <= segs[i].lo;
      }
    }
  }

  lemma {:induction false} TouchingRight(segs: seq<Seg>, limit: nat, lo: nat, hi: nat, right: nat)
    requires Ordered(segs, limit) && right <= |segs| && lo < hi
    requires right > 0 ==> segs[right - 1].hi <= lo
    requires right < |segs| ==> hi <= segs[right].lo
    ensures TouchesRight(segs, hi) <==> right < |segs| && segs[right].lo == hi
  {
    forall i | 0 <= i < |segs| && i != right
      ensures segs[i].lo != hi
    {
      if right < i {
        assert segs[right].hi <= segs[i].lo;
      } else if i < right - 1 {
        assert segs[i].hi <= segs[right - 1].lo;
      }
    }
  }

  lemma {:induction false} CoalescedInsert(segs: seq<Seg>, i: nat, seg: Seg)
    requires i <= |segs|
    requires forall k | 0 < k < |segs| && k != i :: segs[k - 1].hi < segs[k].lo
    requires i > 0 ==> segs[i - 1].hi < seg.lo
    ensures Coalesced(InsertAt(segs, i, seg)) <==> (i < |segs| ==> seg.hi < segs[i].lo)
  {
    var new_ := InsertAt(segs, i, seg);
    assert new_[i] == seg;
    if i < |segs| {
      assert new_[i + 1] == segs[i];
    }
    forall k | 0 < k < |new_| && k != i + 1
      ensures new_[k - 1].hi < new_[k].lo
    {
      assert k < i ==> new_[k - 1] == segs[k - 1] && new_[k] == segs[k];
      assert k > i + 1 ==> new_[k - 1] == segs[k - 2] && new_[k] == segs[k - 1];
    }
  }

  lemma {:induction false} RemovedGaps(segs: seq<Seg>, i: nat)
    requires Coalesced(segs) && i < |segs|
    ensures var rest := RemoveAt(segs, i); forall k | 0 < k < |rest| && k != i :: rest[k - 1].hi < rest[k].lo
  {
    var rest := RemoveAt(segs, i);
    forall k | 0 < k < |rest| && k != i
      ensures rest[k - 1].hi < rest[k].lo
    {
      assert k < i ==> rest[k - 1] == segs[k - 1] && rest[k] == segs[k];
      assert k > i ==> rest[k - 1] == segs[k] && rest[k] == segs[k + 1];
    }
  }

  /**
   * `free_seg` leaves a coalesced list coalesced iff the freed block does not touch free memory on both sides; when
   * it does, the merge with the right neighbour is missed.
   */
  lemma {:induction false} CoalescesIff(segs: seq<Seg>, limit: nat, lo: nat, hi: nat)
    requires Ordered(segs, limit) && Coalesced(segs) && lo < hi && Free(segs, lo, hi).Freed?
    ensures Coalesced(Free(segs, lo, hi).segs) <==> !(TouchesLeft(segs, lo) && TouchesRight(segs, hi))
  {
    FreeBranches(segs, limit, lo, hi);
    FreePlace(segs, lo, hi);
    var right := RightOf(segs, lo);
    TouchingLeft(segs, limit, lo, right);
    TouchingRight(segs, limit, lo, hi, right);
    hide TouchesLeft, TouchesRight, Free, InsertAt, RemoveAt, Ordered, RightOf;
    if right > 0 && segs[right - 1].hi == lo {
      CoalescedReplace(segs, right - 1, Seg(segs[right - 1].lo, hi));
    } else if right < |segs| && segs[right].lo == hi {
      CoalescedReplace(segs, right, Seg(lo, segs[right].hi));
    } else {
      CoalescedInsert(segs, right, Seg(lo, hi));
    }
  }

  lemma {:induction false} CoalescedReplace(segs: seq<Seg>, i: nat, seg: Seg)
    requires Coalesced(segs) && i < |segs|
    requires i > 0 ==> segs[i - 1].hi < seg.lo
    ensures Coalesced(InsertAt(RemoveAt(segs, i), i, seg)) <==> (i + 1 < |segs| ==> seg.hi < segs[i + 1].lo)
  {
    hide Coalesced, InsertAt;
    RemovedGaps(segs, i);
    Neighbours(segs, i);
    CoalescedInsert(RemoveAt(segs, i), i, seg);
  }

  lemma {:induction false} Neighbours(segs: seq<Seg>, i: nat)
    requires Coalesced(segs) && i < |segs|
    ensures i > 0 ==> RemoveAt(segs, i)[i - 1] == segs[i - 1] && segs[i - 1].hi < segs[i].lo
    ensures i + 1 < |segs| ==> RemoveAt(segs, i)[i] == segs[i + 1] && segs[i].hi < segs[i + 1].lo
  {
  }

  /** A missed merge at any block size: the second block is freed between two free segments. */
  lemma {:induction false} MissedMerge(size: nat, limit: nat)
    requires 0 < size && 2 * size < limit
    ensures var segs, segs' := [Seg(0, size), Seg(2 * size, limit)], [Seg(0, 2 * size), Seg(2 * size, limit)];
            Free(segs, size, 2 * size) == Freed(segs') && Coalesced(segs) && !Coalesced(segs')
  {
    var segs, segs' := [Seg(0, size), Seg(2 * size, limit)], [Seg(0, 2 * size), Seg(2 * size, limit)];
    RightOfUnique(segs, size, 1);
    assert RemoveAt(segs, 0) == [Seg(2 * size, limit)];
    assert InsertAt([Seg(2 * size, limit)], 0, Seg(0, 2 * size)) == segs';
    assert segs'[0].hi == segs'[1].lo;
  }

  // ----- first fit

  /** `upperalign`. */
  function UpperAlign(x: nat, y: nat): (r: nat)
    requires y > 0
    ensures r % y == 0 && x <= r < x + y
  {
    Arith.DivMod(x + y - 1, y);
    Arith.Remainder((x + y - 1) / y * y, (x + y - 1) / y, 0, y);
    (x + y - 1) / y * y
  }

  /** It is the least multiple of `y` that is at least `x`. */
  lemma {:induction false} LeastAligned(x: nat, y: nat, b: nat)
    requires y > 0 && b % y == 0 && x <= b
    ensures UpperAlign(x, y) <= b
  {
    var r := UpperAlign(x, y);
    if b < r {
      Arith.SameRemainder(b, r, y);
    }
  }

  datatype Fit = NoFit | Fit(index: nat, addr: nat)

  /** `fit_seg` for a size that passed its test. */
  function FirstFit(segs: seq<Seg>, size: nat): (fit: Fit)
    requires size > 0
    ensures fit.Fit? ==> fit.index < |segs|
  {
    if segs == [] then NoFit
    else if UpperAlign(segs[0].lo, size) + size <= segs[0].hi then Fit(0, UpperAlign(segs[0].lo, size))
    else
      match FirstFit(segs[1..], size)
      case NoFit => NoFit
      case Fit(index, addr) => Fit(index + 1, addr)
  }

  /** An aligned block inside one free segment. */
  predicate BlockIn(seg: Seg, addr: nat, size: nat)
    requires size > 0
  {
    addr % size == 0 && seg.lo <= addr && addr + size <= seg.hi
  }

  /** First fit finds the lowest aligned block that lies in one segment, and fails iff there is none. */
  lemma {:induction false} FirstFitLowest(segs: seq<Seg>, limit: nat, size: nat)
    requires Ordered(segs, limit) && size > 0
    ensures match FirstFit(segs, size)
            case NoFit => forall i, b: nat | 0 <= i < |segs| :: !BlockIn(segs[i], b, size)
            case Fit(index, addr) =>
              BlockIn(segs[index], addr, size)
              && forall i, b: nat | 0 <= i < |segs| && BlockIn(segs[i], b, size) :: addr <= b
  {
    if segs != [] {
      FirstFitLowest(segs[1..], limit, size);
      forall b: nat | BlockIn(segs[0], b, size)
        ensures UpperAlign(segs[0].lo, size) <= b
      {
        LeastAligned(segs[0].lo, size, b);
      }
      forall i, b: nat | 0 < i < |segs| && BlockIn(segs[i], b, size)
        ensures BlockIn(segs[1..][i - 1], b, size) && segs[0].hi <= b
      {
      }
    }
  }

  // ----- allocations of one size

  /** Every segment starts and ends at a multiple of `size`. */
  predicate Aligned(segs: seq<Seg>, size: nat)
    requires size > 0
  {
    forall i | 0 <= i < |segs| :: segs[i].lo % size == 0 && segs[i].hi % size == 0
  }

  lemma {:induction false} AllocAligned(segs: seq<Seg>, index: nat, lo: nat, hi: nat, size: nat)
    requires size > 0 && Aligned(segs, size) && index < |segs| && lo % size == 0 && hi % size == 0
    ensures Aligned(Alloc(segs, index, lo, hi), size)
  {
  }

  lemma {:induction false} FreeAligned(segs: seq<Seg>, limit: nat, lo: nat, hi: nat, size: nat)
    requires size > 0 && Aligned(segs, size) && lo % size == 0 && hi % size == 0
    requires Ordered(segs, limit) && lo < hi && Free(segs, lo, hi).Freed?
    ensures Aligned(Free(segs, lo, hi).segs, size)
  {
    FreeBranches(segs, limit, lo, hi);
    var right := RightOf(segs, lo);
    hide Free, RightOf;
    if right > 0 && segs[right - 1].hi == lo {
      AlignedInsert(RemoveAt(segs, right - 1), right - 1, Seg(segs[right - 1].lo, hi), size);
    } else if right < |segs| && segs[right].lo == hi {
      AlignedInsert(RemoveAt(segs, right), right, Seg(lo, segs[right].hi), size);
    } else {
      AlignedInsert(segs, right, Seg(lo, hi), size);
    }
  }

  lemma {:induction false} AlignedInsert(segs: seq<Seg>, i: nat, seg: Seg, size: nat)
    requires size > 0 && Aligned(segs, size) && i <= |segs| && seg.lo % size == 0 && seg.hi % size == 0
    ensures Aligned(InsertAt(segs, i, seg), size)
  {
  }

  /**
   * No fragmentation at one size: the block found is the lowest free byte, and none is found iff no byte is free,
   * whatever merges were missed.
   */
  lemma {:induction false} FixedSizeFit(segs: seq<Seg>, limit: nat, size: nat)
    requires Ordered(segs, limit) && size > 0 && Aligned(segs, size)
    ensures match FirstFit(segs, size)
            case NoFit => Bytes(segs) == iset{}
            case Fit(index, addr) =>
              addr in Bytes(segs) && Range(addr, addr + size) <= Bytes(segs) && forall a | a in Bytes(segs) :: addr <= a
  {
    if segs == [] {
    } else {
      var lo, hi := segs[0].lo, segs[0].hi;
      LeastAligned(lo, size, lo);
      if hi < lo + size {
        Arith.SameRemainder(lo, hi, size);
      }
      assert FirstFit(segs, size) == Fit(0, lo);
      forall a | a in Range(lo, lo + size) ensures a in Bytes(segs) {
        assert Covers(segs[0], a);
      }
      assert lo in Range(lo, lo + size);
      forall a | a in Bytes(segs) ensures lo <= a {
        var i :| 0 <= i < |segs| && Covers(segs[i], a);
        assert i > 0 ==> segs[0].hi <= segs[i].lo;
      }
    }
  }
}
