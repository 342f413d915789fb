/** The load balancer: splitting each operation over the workers, and joining the workers' completions. */
module LoadBalancer {
  import Arith
  import opened QueuePairs

  const INT32: nat := 4

  type uint16 = x: nat | x < 0x1_0000

  datatype OpCode = OpAllReduce | OpReduce | OpBroadcast

  /** `op_t`; `id` stands for its address, `aggAddr` and `aggLen` are its group's slots. */
  datatype Op = Op(id: nat, code: OpCode, size: nat, aggAddr: uint16, aggLen: uint16)

  /** `sub_op_t`: bytes `offset .. offset + size` of the operation's buffer, on its own slots. */
  datatype SubOp = SubOp(op: Op, offset: nat, size: nat, aggAddr: uint16, aggLen: uint16)

  /** `try_post_op` asserts it: what is summed is a whole number of integers. */
  predicate Summable(op: Op) {
    op.code == OpBroadcast || op.size % INT32 == 0
  }

  // ----- the split

  /** Integers before worker `i`'s share of `ints`, if the first `ints % n` workers take one more. */
  function IntsBefore(ints: nat, n: nat, i: nat): nat
    requires n > 0
  {
    i * (ints / n) + Arith.Min(i, ints % n)
  }

  /** Worker `i`'s share of `ints`. */
  function IntsOf(ints: nat, n: nat, i: nat): nat
    requires n > 0
  {
    ints / n + if i < ints % n then 1 else 0
  }

  /** First byte of worker `i`'s share; the bytes after the last integer go to the last worker. */
  function Boundary(size: nat, n: nat, i: nat): nat
    requires n > 0 && i <= n
  {
    if i == n then size else INT32 * IntsBefore(size / INT32, n, i)
  }

  lemma {:induction false} NextInts(ints: nat, n: nat, i: nat)
    requires i < n
    ensures IntsBefore(ints, n, i + 1) == IntsBefore(ints, n, i) + ints / n + if i < ints % n then 1 else 0
  {
    assert (i + 1) * (ints / n) == i * (ints / n) + ints / n;
  }

  lemma {:induction false} AllInts(ints: nat, n: nat)
    requires n > 0
    ensures IntsBefore(ints, n, n) == ints
  {
    Arith.DivMod(ints, n);
  }

  lemma {:induction false} BoundariesGrow(size: nat, n: nat, i: nat)
    requires i < n
    ensures Boundary(size, n, i) <= Boundary(size, n, i + 1)
    ensures i + 1 < n ==> Boundary(size, n, i + 1) - Boundary(size, n, i)
                          == INT32 * (size / INT32 / n + if i < size / INT32 % n then 1 else 0)
    ensures i + 1 == n ==> Boundary(size, n, i + 1) - Boundary(size, n, i)
                           == INT32 * (size / INT32 / n) + size % INT32
  {
    var ints := size / INT32;
    NextInts(ints, n, i);
    AllInts(ints, n);
    Arith.DivMod(size, INT32);
    Arith.DivMod(ints, n);
  }

  /** Worker `i`'s part of `op`; the slot numbers are 16 bits wide. */
  function SubOpOf(op: Op, n: nat, i: nat): SubOp
    requires i < n
  {
    BoundariesGrow(op.size, n, i);
    SubOp(op, Boundary(op.size, n, i), Boundary(op.size, n, i + 1) - Boundary(op.size, n, i),
          (op.aggAddr + op.aggLen / n * i) % 0x1_0000, AggShare(op, n))
  }

  function AggShare(op: Op, n: nat): uint16
    requires n > 0
  {
    Arith.DivMod(op.aggLen, n);
    Shrinks(op.aggLen, n);
    op.aggLen / n
  }

  lemma {:induction false} Shrinks(x: nat, n: nat)
    requires n > 0
    ensures x / n <= x
  {
    Arith.DivMod(x, n);
    if x / n > 0 {
      Arith.MulAtLeast(n, x / n);
    }
  }

  /** What the loop computes for worker `i` is its part. */
  lemma {:induction false} IsPart(op: Op, n: nat, i: nat, offset: nat, size: nat)
    requires i < n && offset == SubOpOf(op, n, i).offset
    requires size == IntsOf(op.size / INT32, n, i) * INT32
                     + if i == n - 1 then op.size % INT32 else 0
    ensures SubOp(op, offset, size, (op.aggAddr + AggShare(op, n) * i) % 0x1_0000, AggShare(op, n)) == SubOpOf(op, n, i)
    ensures offset + size == if i + 1 < n then SubOpOf(op, n, i + 1).offset else op.size
  {
    hide IntsBefore;
    var ints := op.size / INT32;
    Arith.DivMod(ints, n);
    BoundariesGrow(op.size, n, i);
  }

  /** The parts follow each other from the first byte to the last, and all but the end lie on integers. */
  lemma {:induction false} Tiles(op: Op, n: nat)
    requires n > 0
    ensures SubOpOf(op, n, 0).offset == 0
    ensures forall i | 0 <= i < n - 1 :: SubOpOf(op, n, i).offset + SubOpOf(op, n, i).size == SubOpOf(op, n, i + 1).offset
    ensures SubOpOf(op, n, n - 1).offset + SubOpOf(op, n, n - 1).size == op.size
    ensures forall i | 0 <= i < n :: SubOpOf(op, n, i).offset % INT32 == 0
  {
    hide IntsBefore;
    IntsAtZero(op.size / INT32, n);
  }

  lemma {:induction false} IntsAtZero(ints: nat, n: nat)
    requires n > 0
    ensures IntsBefore(ints, n, 0) == 0
  {
  }

  predicate Owns(op: Op, n: nat, i: nat, x: int)
    requires i < n
  {
    SubOpOf(op, n, i).offset <= x < SubOpOf(op, n, i).offset + SubOpOf(op, n, i).size
  }

  lemma {:induction false} Later(op: Op, n: nat, i: nat, j: nat)
    requires i < j < n
    ensures SubOpOf(op, n, i).offset + SubOpOf(op, n, i).size <= SubOpOf(op, n, j).offset
  {
    hide SubOpOf;
    Tiles(op, n);
    if i + 1 < j {
      Later(op, n, i, j - 1);
    }
  }

  /** The first worker at or after `i` whose part reaches beyond byte `x`. */
  lemma {:induction false} FindOwner(op: Op, n: nat, i: nat, x: nat) returns (k: nat)
    requires i < n && SubOpOf(op, n, i).offset <= x < op.size
    ensures k < n && Owns(op, n, k, x)
    decreases n - i
  {
    hide SubOpOf;
    Tiles(op, n);
    if x < SubOpOf(op, n, i).offset + SubOpOf(op, n, i).size {
      k := i;
    } else {
      assert i < n - 1;
      k := FindOwner(op, n, i + 1, x);
    }
  }

  /** Every byte of the buffer is exactly one worker's. */
  lemma {:induction false} OneOwner(op: Op, n: nat, x: int)
    requires n > 0
    ensures 0 <= x < op.size <==> exists i: nat :: i < n && Owns(op, n, i, x)
    ensures forall i: nat, j: nat | i < n && j < n && Owns(op, n, i, x) && Owns(op, n, j, x) :: i == j
  {
    hide SubOpOf;
    Tiles(op, n);
    if 0 <= x < op.size {
      var i := FindOwner(op, n, 0, x);
    }
    forall i: nat | i < n && Owns(op, n, i, x)
      ensures 0 <= x < op.size
    {
      if i < n - 1 {
        Later(op, n, i, n - 1);
      }
    }
    forall i: nat, j: nat | i < n && j < n && Owns(op, n, i, x) && Owns(op, n, j, x)
      ensures i == j
    {
      if i < j {
        Later(op, n, i, j);
      } else if j < i {
        Later(op, n, j, i);
      }
    }
  }

  /** No worker gets more than one integer more than another; only the last gets a fraction of one. */
  lemma {:induction false} Balanced(op: Op, n: nat, i: nat, j: nat)
    requires i < n && j < n
    ensures SubOpOf(op, n, i).size / INT32 <= SubOpOf(op, n, j).size / INT32 + 1
    ensures SubOpOf(op, n, i).size % INT32 == if i == n - 1 then op.size % INT32 else 0
  {
    hide SubOpOf;
    var q, r := op.size / INT32 / n, op.size / INT32 % n;
    PartSize(op, n, i, q, r);
    PartSize(op, n, j, q, r);
  }

  lemma {:induction false} PartSize(op: Op, n: nat, i: nat, q: nat, r: nat)
    requires i < n && q == op.size / INT32 / n && r == op.size / INT32 % n
    ensures SubOpOf(op, n, i).size / INT32 == q + if i + 1 < n && i < r then 1 else 0
    ensures SubOpOf(op, n, i).size % INT32 == if i == n - 1 then op.size % INT32 else 0
  {
    hide Boundary;
    BoundariesGrow(op.size, n, i);
    var ints := q + if i + 1 < n && i < r then 1 else 0;
    Arith.Remainder(SubOpOf(op, n, i).size, ints, if i == n - 1 then op.size % INT32 else 0, INT32);
  }

  /** The slots of the parts: with a lane within 16 bits, consecutive shares of equal length. */
  lemma {:induction false} Shares(op: Op, n: nat, i: nat)
    requires i < n && op.aggAddr + op.aggLen <= 0x1_0000
    ensures SubOpOf(op, n, i).aggAddr == op.aggAddr + op.aggLen / n * i
    ensures SubOpOf(op, n, i).aggAddr + SubOpOf(op, n, i).aggLen <= op.aggAddr + op.aggLen
  {
    hide Boundary;
    var len := op.aggLen / n;
    Arith.DivMod(op.aggLen, n);
    Arith.MulMinus(n, i, len);
    Arith.MulAtLeast(n - i, len);
  }

  // ----- the two loops

  function Parts(op: Op, n: nat): (parts: seq<SubOp>)
    requires n > 0
    ensures |parts| == n
  {
    seq(n, i requires 0 <= i < n => SubOpOf(op, n, i))
  }

  ghost predicate Separate(shm: QueuePair<Op>, workers: seq<QueuePair<SubOp>>)
    reads shm, workers
  {
    && shm.Valid()
    && (forall i | 0 <= i < |workers| :: workers[i].Valid() && (workers[i] as object) != shm)
    && (forall i, j | 0 <= i < j < |workers| :: workers[i] != workers[j])
  }

  /**
   * `try_post_op`: takes a request, if there is one, and pushes its parts to the workers with a running offset. The
   * result of each push is ignored.
   */
  method TryPostOp(shm: QueuePair<Op>, workers: seq<QueuePair<SubOp>>) returns (posted: bool)
    requires workers != [] && Separate(shm, workers)
    requires shm.wq != [] ==> Summable(shm.wq[0])
    modifies shm`wq, workers
    ensures Separate(shm, workers)
    ensures posted == (old(shm.wq) != [])
    ensures posted ==>
              && shm.wq == old(shm.wq)[1..]
              && forall i | 0 <= i < |workers| ::
                   workers[i].Now() == Pushed(old(workers[i].Now()), Parts(old(shm.wq[0]), |workers|)[i])
    ensures !posted ==> shm.wq == old(shm.wq) && forall i | 0 <= i < |workers| :: workers[i].Now() == old(workers[i].Now())
  {
    hide Pushed, SubOpOf, IntsOf, AggShare;
    var front := shm.FrontReq();
    if front.None? {
      return false;
    }
    var op := front.value;
    shm.PopReq();
    var n := |workers|;
    var offset := 0;
    var ints, additional := op.size / INT32, op.size % INT32;
    assert Summable(op);
    Tiles(op, n);
    for i := 0 to n
      invariant Separate(shm, workers) && shm.wq == old(shm.wq)[1..]
      invariant offset == if i < n then SubOpOf(op, n, i).offset else op.size
      invariant forall j | 0 <= j < i :: workers[j].Now() == Pushed(old(workers[j].Now()), SubOpOf(op, n, j))
      invariant forall j | i <= j < n :: workers[j].Now() == old(workers[j].Now())
    {
      var subInts := IntsOf(ints, n, i);
      var subSize := subInts * INT32;
      if i == n - 1 {
        subSize := subSize + additional;
      }
      IsPart(op, n, i, offset, subSize);
      var share := AggShare(op, n);
      var part := SubOp(op, offset, subSize, (op.aggAddr + share * i) % 0x1_0000, share);
      assert part == SubOpOf(op, n, i);
      var ok := workers[i].PushReq(part);
      offset := offset + subSize;
    }
    posted := true;
  }

  /**
   * `try_complete_op`: if every worker has a response, takes one from each and answers the operation of the last one
   * taken.
   */
  method TryCompleteOp(shm: QueuePair<Op>, workers: seq<QueuePair<SubOp>>) returns (completed: bool)
    requires workers != [] && Separate(shm, workers)
    requires (forall i | 0 <= i < |workers| :: workers[i].cq != []) ==> |shm.wq| + |shm.cq| < shm.numInQueue
    modifies shm`cq, workers
    ensures Separate(shm, workers)
    ensures completed == forall i | 0 <= i < |workers| :: old(workers[i].cq) != []
    ensures completed ==>
              && shm.cq == old(shm.cq) + [old(workers[|workers| - 1].cq[0]).op]
              && forall i | 0 <= i < |workers| :: workers[i].Now() == Collected(old(workers[i].Now()))
    ensures !completed ==> shm.cq == old(shm.cq) && forall i | 0 <= i < |workers| :: workers[i].Now() == old(workers[i].Now())
  {
    hide Collected;
    for i := 0 to |workers|
      invariant forall j | 0 <= j < i :: workers[j].cq != []
      modifies {}
    {
      var sub := workers[i].FrontResp();
      if sub.None? {
        return false;
      }
    }
    var op := PopHeads(shm, workers);
    shm.PushResp(op);
    completed := true;
  }

  /** The second loop of `try_complete_op`: the operation of the last head wins. */
  method PopHeads(ghost shm: QueuePair<Op>, workers: seq<QueuePair<SubOp>>) returns (op: Op)
    requires workers != [] && Separate(shm, workers) && forall i | 0 <= i < |workers| :: workers[i].cq != []
    modifies workers
    ensures Separate(shm, workers) && shm.Now() == old(shm.Now())
    ensures forall i | 0 <= i < |workers| :: workers[i].Now() == Collected(old(workers[i].Now()))
    ensures op == old(workers[|workers| - 1].cq[0]).op
  {
    hide Collected;
    op := workers[0].cq[0].op;
    for i := 0 to |workers|
      invariant Separate(shm, workers) && shm.Now() == old(shm.Now())
      invariant forall j | 0 <= j < i :: workers[j].Now() == Collected(old(workers[j].Now()))
      invariant forall j | i <= j < |workers| :: workers[j].Now() == old(workers[j].Now())
      invariant i > 0 ==> op == old(workers[i - 1].cq[0]).op
    {
      var sub := workers[i].FrontResp();
      workers[i].PopResp();
      op := sub.value.op;
    }
  }
}
