/** `queue_pair_t`: a bounded request queue and a bounded response queue between two threads. */
module QueuePairs {
  import opened Collectives

  const QUEUE_SIZE: nat := 1024

  /** The two queues and the requester's count of its outstanding requests. */
  datatype Queues<T> = Queues(wq: seq<T>, cq: seq<T>, count: nat)

  /** `push_req`: refused, without a trace, at `QUEUE_SIZE` outstanding requests. */
  function Pushed<T>(q: Queues<T>, e: T): Queues<T> {
    if q.count == QUEUE_SIZE then q else Queues(q.wq + [e], q.cq, q.count + 1)
  }

  /** `pop_resp`. */
  function Collected<T>(q: Queues<T>): Queues<T>
    requires q.cq != [] && q.count > 0
  {
    Queues(q.wq, q.cq[1..], q.count - 1)
  }

  class QueuePair<T(0, ==)> {
    var wq: seq<T>
    var cq: seq<T>
    var numInQueue: nat

    /** What is in either queue is outstanding, and no more is than one queue can hold. */
    ghost predicate Valid()
      reads this
    {
      |wq| + |cq| <= numInQueue <= QUEUE_SIZE
    }

    function Now(): Queues<T>
      reads this
    {
      Queues(wq, cq, numInQueue)
    }

    constructor ()
      ensures Valid() && Now() == Queues([], [], 0)
    {
      wq, cq, numInQueue := [], [], 0;
    }

    /** `spsc_queue::push` on the request queue. */
    method PushWork(e: T) returns (ok: bool)
      modifies this`wq
      ensures ok == (|old(wq)| < QUEUE_SIZE)
      ensures wq == if ok then old(wq) + [e] else old(wq)
    {
      ok := |wq| < QUEUE_SIZE;
      if ok {
        wq := wq + [e];
      }
    }

    /** `spsc_queue::push` on the response queue. */
    method PushDone(e: T) returns (ok: bool)
      modifies this`cq
      ensures ok == (|old(cq)| < QUEUE_SIZE)
      ensures cq == if ok then old(cq) + [e] else old(cq)
    {
      ok := |cq| < QUEUE_SIZE;
      if ok {
        cq := cq + [e];
      }
    }

    /** `push_req`; its own assertion, that the queue takes what the count allows, holds. */
    method PushReq(e: T) returns (ok: bool)
      requires Valid()
      modifies this
      ensures Valid() && Now() == Pushed(old(Now()), e) && ok == (old(numInQueue) < QUEUE_SIZE)
    {
      if numInQueue == QUEUE_SIZE {
        return false;
      }
      numInQueue := numInQueue + 1;
      var ret := PushWork(e);
      assert ret;
      ok := true;
    }

    method FrontReq() returns (e: Option<T>)
      ensures e == if wq == [] then None else Some(wq[0])
    {
      e := if |wq| > 0 then Some(wq[0]) else None;
    }

    method PopReq()
      requires Valid() && wq != []
      modifies this`wq
      ensures Valid() && wq == old(wq)[1..]
    {
      wq := wq[1..];
    }

    /** `push_resp`, for a request that was popped and not answered; its assertion holds. */
    method PushResp(e: T)
      requires Valid() && |wq| + |cq| < numInQueue
      modifies this`cq
      ensures Valid() && cq == old(cq) + [e]
    {
      var ret := PushDone(e);
      assert ret;
    }

    method FrontResp() returns (e: Option<T>)
      ensures e == if cq == [] then None else Some(cq[0])
    {
      e := if |cq| > 0 then Some(cq[0]) else None;
    }

    method PopResp()
      requires Valid() && cq != []
      modifies this
      ensures Valid() && Now() == Collected(old(Now()))
    {
      cq := cq[1..];
      numInQueue := numInQueue - 1;
    }
  }
}
