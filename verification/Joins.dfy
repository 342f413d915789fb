/**
 * The load balancer thread, the worker threads and the client running side by side: one action is one queue
 * operation, so the balancer's loops interleave with everything else.
 */
module Joins {
  import opened Collectives
  import opened QueuePairs
  import opened LoadBalancer

  /** Where the balancer thread is: in the first or second loop of `try_complete_op`, or in `try_post_op`. */
  datatype Place = Check(k: nat) | Pop(k: nat, last: Option<Op>) | Take | Post(op: Op, k: nat)

  /** A worker's queue pair, what it has popped and not answered, and, as history, all it ever answered. */
  datatype Worker = Worker(queues: Queues<SubOp>, busy: seq<SubOp>, answered: seq<SubOp>)

  /**
   * The shared-memory queue pair, the workers and the balancer; as history, everything the client requested and
   * collected, and everything the balancer took and answered.
   */
  datatype Daemon = Daemon(shm: Queues<Op>, workers: seq<Worker>, place: Place,
                           requested: seq<Op>, collected: seq<Op>, taken: seq<Op>, done: seq<Op>)

  datatype Action = Request(op: Op) | Collect | Work(i: nat) | Answer(i: nat) | Balance

  predicate Enabled(d: Daemon, a: Action) {
    match a
    case Request(op) => Summable(op)
    case Collect => d.shm.cq != [] && d.shm.count > 0
    case Work(i) => i < |d.workers| && d.workers[i].queues.wq != []
    case Answer(i) => i < |d.workers| && d.workers[i].busy != []
    case Balance =>
      match d.place
      case Pop(k, last) =>
        if k < |d.workers| then d.workers[k].queues.cq != [] && d.workers[k].queues.count > 0 else last.Some?
      case _ => true
  }

  /** A full response queue drops what is pushed, as `spsc_queue` does. */
  function Answered<T>(q: Queues<T>, e: T): Queues<T> {
    if |q.cq| < QUEUE_SIZE then q.(cq := q.cq + [e]) else q
  }

  function AfterBalance(d: Daemon): Daemon
    requires Enabled(d, Balance)
  {
    var n := |d.workers|;
    match d.place
    case Check(k) =>
      if k >= n then d.(place := Pop(0, None))
      else if d.workers[k].queues.cq == [] then d.(place := Take)
      else d.(place := Check(k + 1))
    case Pop(k, last) =>
      if k >= n then d.(shm := Answered(d.shm, last.value), done := d.done + [last.value], place := Take)
      else
        var w := d.workers[k];
        d.(workers := d.workers[k := w.(queues := Collected(w.queues))], place := Pop(k + 1, Some(w.queues.cq[0].op)))
    case Take =>
      if d.shm.wq == [] then d.(place := Check(0))
      else
        d.(shm := d.shm.(wq := d.shm.wq[1..]), taken := d.taken + [d.shm.wq[0]], place := Post(d.shm.wq[0], 0))
    case Post(op, k) =>
      if k >= n then d.(place := Check(0))
      else
        var w := d.workers[k];
        d.(workers := d.workers[k := w.(queues := Pushed(w.queues, Parts(op, n)[k]))], place := Post(op, k + 1))
  }

  function Step(d: Daemon, a: Action): Daemon
    requires Enabled(d, a)
  {
    match a
    case Request(op) =>
      d.(shm := Pushed(d.shm, op), requested := if d.shm.count == QUEUE_SIZE then d.requested else d.requested + [op])
    case Collect => d.(shm := Collected(d.shm), collected := d.collected + [d.shm.cq[0]])
    case Work(i) =>
      var w := d.workers[i];
      d.(workers := d.workers[i := w.(queues := w.queues.(wq := w.queues.wq[1..]), busy := w.busy + [w.queues.wq[0]])])
    case Answer(i) =>
      var w := d.workers[i];
      d.(workers := d.workers[i := Worker(Answered(w.queues, w.busy[0]), w.busy[1..], w.answered + [w.busy[0]])])
    case Balance => AfterBalance(d)
  }

  predicate Initial(d: Daemon) {
    && d.workers != []
    && d.shm == Queues([], [], 0) && d.place == Check(0)
    && (forall i | 0 <= i < |d.workers| :: d.workers[i] == Worker(Queues([], [], 0), [], []))
    && d.requested == [] && d.collected == [] && d.taken == [] && d.done == []
  }

  // ----- the invariant

  /** Operations whose part worker `i` got, and whose response from worker `i` was taken. */
  function Given(d: Daemon, i: nat): int {
    |d.taken| - if d.place.Post? && i >= d.place.k then 1 else 0
  }

  function Returned(d: Daemon, i: nat): nat {
    |d.done| + if d.place.Pop? && i < d.place.k then 1 else 0
  }

  /** Parts for worker `i` of operations `lo .. hi`. */
  function Line(taken: seq<Op>, n: nat, i: nat, lo: nat, hi: nat): seq<SubOp>
    requires i < n && lo <= hi <= |taken|
  {
    seq(hi - lo, j requires 0 <= j < hi - lo => Parts(taken[lo + j], n)[i])
  }

  /** A worker holds exactly the parts it got and has not returned, in order: answered, in hand, and waiting. */
  ghost predicate WorkerOk(d: Daemon, i: nat)
    requires i < |d.workers|
  {
    var w := d.workers[i];
    var n, lo, hi := |d.workers|, Returned(d, i), Given(d, i);
    && 0 <= lo <= hi <= |d.taken|
    && w.queues.cq + w.busy + w.queues.wq == Line(d.taken, n, i, lo, hi)
    && w.queues.count == hi - lo
    && w.answered == Line(d.taken, n, i, 0, lo) + w.queues.cq
  }

  ghost predicate WorkersOk(d: Daemon) {
    forall i | 0 <= i < |d.workers| :: WorkerOk(d, i)
  }

  /** Requests are taken and answered in order, and the client's count covers all that is not collected. */
  ghost predicate ShmOk(d: Daemon) {
    && d.requested == d.taken + d.shm.wq
    && d.done == d.collected + d.shm.cq
    && d.done <= d.taken
    && d.shm.count == |d.requested| - |d.collected| <= QUEUE_SIZE
    && (forall op | op in d.requested :: Summable(op))
  }

  ghost predicate PlaceOk(d: Daemon) {
    match d.place
    case Check(k) => k <= |d.workers| && forall i | 0 <= i < k :: d.workers[i].queues.cq != []
    case Pop(k, last) =>
      && k <= |d.workers| && |d.done| < |d.taken|
      && (forall i | k <= i < |d.workers| :: d.workers[i].queues.cq != [])
      && (k > 0 ==> last == Some(d.taken[|d.done|]))
    case Take => true
    case Post(op, k) => k <= |d.workers| && d.taken != [] && op == d.taken[|d.taken| - 1]
  }

  ghost predicate Inv(d: Daemon) {
    d.workers != [] && ShmOk(d) && WorkersOk(d) && PlaceOk(d)
  }

  lemma {:induction false} StartInv(d: Daemon)
    requires Initial(d)
    ensures Inv(d)
  {
    forall i | 0 <= i < |d.workers|
      ensures WorkerOk(d, i)
    {
      assert Line(d.taken, |d.workers|, i, 0, 0) == [];
    }
  }

  // ----- queues never overflow

  lemma {:induction false} Outstanding(d: Daemon, i: nat)
    requires ShmOk(d) && i < |d.workers| && WorkerOk(d, i)
    ensures var w := d.workers[i];
            |w.queues.cq| + |w.busy| + |w.queues.wq| == w.queues.count <= |d.taken| - |d.done| <= d.shm.count - |d.shm.cq| - |d.shm.wq|
  {
    hide Line, Parts;
    var w := d.workers[i];
    assert |w.queues.cq + w.busy + w.queues.wq| == Given(d, i) - Returned(d, i) by {
      LineLength(d, i);
    }
  }

  lemma {:induction false} LineLength(d: Daemon, i: nat)
    requires i < |d.workers| && WorkerOk(d, i)
    ensures |Line(d.taken, |d.workers|, i, Returned(d, i), Given(d, i))| == Given(d, i) - Returned(d, i)
  {
  }

  /**
   * No push is ever refused and no assertion of the queue pairs ever fails: not the ignored result of pushing a part
   * to a worker, not a worker's or the balancer's response, and not the pop of a response.
   */
  lemma {:induction false} NothingRefused(d: Daemon)
    requires Inv(d)
    ensures Enabled(d, Balance)
    ensures d.place.Post? && d.place.k < |d.workers| ==> d.workers[d.place.k].queues.count < QUEUE_SIZE
    ensures d.place.Pop? && d.place.k == |d.workers| ==> |d.shm.cq| < QUEUE_SIZE
    ensures d.place.Take? && d.shm.wq != [] ==> Summable(d.shm.wq[0])
    ensures forall i | 0 <= i < |d.workers| && d.workers[i].busy != [] :: |d.workers[i].queues.cq| < QUEUE_SIZE
  {
    hide Line, Parts;
    forall i | 0 <= i < |d.workers|
      ensures var w := d.workers[i];
              |w.queues.cq| + |w.busy| + |w.queues.wq| == w.queues.count <= |d.taken| - |d.done| <= d.shm.count - |d.shm.cq|
    {
      Outstanding(d, i);
    }
    if d.place.Post? && d.place.k < |d.workers| {
      assert WorkerOk(d, d.place.k);
    }
    if d.place.Take? && d.shm.wq != [] {
      assert d.shm.wq[0] in d.requested;
    }
  }

  // ----- the heads agree

  lemma {:induction false} FirstOfLine(d: Daemon, i: nat)
    requires i < |d.workers| && WorkerOk(d, i) && d.workers[i].queues.cq != []
    ensures Returned(d, i) < Given(d, i)
    ensures d.workers[i].queues.cq[0] == Parts(d.taken[Returned(d, i)], |d.workers|)[i]
    ensures d.workers[i].queues.cq[0].op == d.taken[Returned(d, i)]
  {
    hide Boundary;
    var w := d.workers[i];
    var line := Line(d.taken, |d.workers|, i, Returned(d, i), Given(d, i));
    assert line[0] == w.queues.cq[0];
  }

  /** While the balancer pops, the heads it has still to pop are the parts of one operation: the oldest unanswered one. */
  lemma {:induction false} HeadsAgree(d: Daemon, i: nat)
    requires Inv(d) && d.place.Pop? && d.place.k <= i < |d.workers|
    ensures |d.done| < |d.taken| && d.workers[i].queues.cq != []
    ensures d.workers[i].queues.cq[0] == Parts(d.taken[|d.done|], |d.workers|)[i]
    ensures d.place.k > 0 ==> d.place.last == Some(d.workers[i].queues.cq[0].op)
  {
    hide Parts, Line;
    assert WorkerOk(d, i);
    FirstOfLine(d, i);
  }

  // ----- preservation

  lemma {:induction false} SameWorker(d: Daemon, d': Daemon, i: nat)
    requires |d'.workers| == |d.workers| && i < |d.workers| && WorkerOk(d, i)
    requires d'.workers[i] == d.workers[i] && d.taken <= d'.taken
    requires Returned(d', i) == Returned(d, i) && Given(d', i) == Given(d, i)
    ensures WorkerOk(d', i)
  {
    hide Parts;
    var n, lo, hi := |d.workers|, Returned(d, i), Given(d, i);
    assert Line(d'.taken, n, i, lo, hi) == Line(d.taken, n, i, lo, hi);
    assert Line(d'.taken, n, i, 0, lo) == Line(d.taken, n, i, 0, lo);
  }

  lemma {:induction false} ClientInv(d: Daemon, a: Action)
    requires Inv(d) && Enabled(d, a) && (a.Request? || a.Collect?)
    ensures Inv(Step(d, a))
  {
    hide WorkerOk, Line, Parts;
    var d' := Step(d, a);
    forall i | 0 <= i < |d.workers|
      ensures WorkerOk(d', i)
    {
      SameWorker(d, d', i);
    }
  }

  lemma {:induction false} WorkInv(d: Daemon, i: nat)
    requires Inv(d) && Enabled(d, Work(i))
    ensures Inv(Step(d, Work(i)))
  {
    hide Line, Parts;
    var d' := Step(d, Work(i));
    forall j | 0 <= j < |d.workers|
      ensures WorkerOk(d', j)
    {
      assert WorkerOk(d, j);
      if j == i {
        var w, w' := d.workers[i], d'.workers[i];
        assert w'.queues.cq + w'.busy + w'.queues.wq == w.queues.cq + w.busy + w.queues.wq;
      } else {
        SameWorker(d, d', j);
      }
    }
  }

  lemma {:induction false} AnswerInv(d: Daemon, i: nat)
    requires Inv(d) && Enabled(d, Answer(i))
    ensures Inv(Step(d, Answer(i)))
  {
    hide Line, Parts;
    NothingRefused(d);
    var d' := Step(d, Answer(i));
    forall j | 0 <= j < |d.workers|
      ensures WorkerOk(d', j)
    {
      assert WorkerOk(d, j);
      if j == i {
        var w, w' := d.workers[i], d'.workers[i];
        assert w'.queues.cq + w'.busy + w'.queues.wq == w.queues.cq + w.busy + w.queues.wq;
      } else {
        SameWorker(d, d', j);
      }
    }
  }

  lemma {:induction false} LineTail(taken: seq<Op>, n: nat, i: nat, lo: nat, hi: nat)
    requires i < n && lo < hi <= |taken|
    ensures Line(taken, n, i, lo, hi) == [Parts(taken[lo], n)[i]] + Line(taken, n, i, lo + 1, hi)
    ensures Line(taken, n, i, lo, hi) == Line(taken, n, i, lo, hi - 1) + [Parts(taken[hi - 1], n)[i]]
  {
    hide Parts;
  }

  lemma {:induction false} PoppedWorker(d: Daemon, d': Daemon, i: nat)
    requires |d'.workers| == |d.workers| && i < |d.workers| && WorkerOk(d, i) && d.workers[i].queues.cq != []
    requires d'.taken == d.taken && Returned(d', i) == Returned(d, i) + 1 && Given(d', i) == Given(d, i)
    requires d.workers[i].queues.count > 0
    requires d'.workers[i] == d.workers[i].(queues := Collected(d.workers[i].queues))
    ensures WorkerOk(d', i)
  {
    hide Line, Parts;
    var w, w' := d.workers[i], d'.workers[i];
    var n, lo, hi := |d.workers|, Returned(d, i), Given(d, i);
    FirstOfLine(d, i);
    LineTail(d.taken, n, i, lo, hi);
    LineTail(d.taken, n, i, 0, lo + 1);
    assert w.queues.cq == [w.queues.cq[0]] + w'.queues.cq;
    var rest := w'.queues.cq + w'.busy + w'.queues.wq;
    assert w.queues.cq + w.busy + w.queues.wq == [w.queues.cq[0]] + rest;
    assert rest == ([w.queues.cq[0]] + rest)[1..];
    assert Line(d.taken, n, i, lo + 1, hi) == Line(d.taken, n, i, lo, hi)[1..];
    assert Line(d.taken, n, i, 0, lo) + w.queues.cq == Line(d.taken, n, i, 0, lo) + [w.queues.cq[0]] + w'.queues.cq;
  }

  lemma {:induction false} PushedWorker(d: Daemon, d': Daemon, i: nat)
    requires |d'.workers| == |d.workers| && i < |d.workers| && WorkerOk(d, i) && d.workers[i].queues.count < QUEUE_SIZE
    requires d'.taken == d.taken && Returned(d', i) == Returned(d, i) && Given(d', i) == Given(d, i) + 1 <= |d.taken|
    requires d'.workers[i]
          == d.workers[i].(queues := Pushed(d.workers[i].queues, Parts(d.taken[Given(d, i)], |d.workers|)[i]))
    ensures WorkerOk(d', i)
  {
    hide Line, Parts;
    var w, w' := d.workers[i], d'.workers[i];
    var n, lo, hi := |d.workers|, Returned(d, i), Given(d, i);
    LineTail(d.taken, n, i, lo, hi + 1);
    assert w'.queues.cq + w'.busy + w'.queues.wq
        == w.queues.cq + w.busy + w.queues.wq + [Parts(d.taken[hi], n)[i]];
  }

  lemma {:induction false} CheckInv(d: Daemon)
    requires Inv(d) && d.place.Check?
    ensures Enabled(d, Balance) && Inv(Step(d, Balance))
  {
    hide WorkerOk, Line, Parts;
    var d' := Step(d, Balance);
    forall i | 0 <= i < |d.workers|
      ensures WorkerOk(d', i)
    {
      SameWorker(d, d', i);
    }
    if d.place.k == |d.workers| {
      FirstOfLine(d, 0);
      InRange(d, 0);
    }
  }

  lemma {:induction false} InRange(d: Daemon, i: nat)
    requires i < |d.workers| && WorkerOk(d, i)
    ensures |d.done| <= Returned(d, i) <= Given(d, i) <= |d.taken|
  {
    hide Line, Parts;
  }

  lemma {:induction false} PopInv(d: Daemon)
    requires Inv(d) && d.place.Pop?
    ensures Enabled(d, Balance) && Inv(Step(d, Balance))
  {
    hide WorkerOk, Line, Parts;
    NothingRefused(d);
    var d' := Step(d, Balance);
    if d.place.k < |d.workers| {
      HeadsAgree(d, d.place.k);
      assert WorkerOk(d, d.place.k);
      FirstOfLine(d, d.place.k);
    }
    forall i | 0 <= i < |d.workers|
      ensures WorkerOk(d', i)
    {
      if i == d.place.k {
        PoppedWorker(d, d', i);
      } else {
        SameWorker(d, d', i);
      }
    }
  }

  lemma {:induction false} PostInv(d: Daemon)
    requires Inv(d) && (d.place.Take? || d.place.Post?)
    ensures Enabled(d, Balance) && Inv(Step(d, Balance))
  {
    hide WorkerOk, Line, Parts;
    NothingRefused(d);
    var d' := Step(d, Balance);
    forall i | 0 <= i < |d.workers|
      ensures WorkerOk(d', i)
    {
      if d.place.Post? && i == d.place.k {
        PushedWorker(d, d', i);
      } else {
        SameWorker(d, d', i);
      }
    }
  }

  lemma {:induction false} StepInv(d: Daemon, a: Action)
    requires Inv(d) && Enabled(d, a)
    ensures Inv(Step(d, a))
  {
    hide Inv, Step, Enabled;
    match a
    case Request(_) => ClientInv(d, a);
    case Collect => ClientInv(d, a);
    case Work(i) => WorkInv(d, i);
    case Answer(i) => AnswerInv(d, i);
    case Balance =>
      match d.place
      case Check(_) => CheckInv(d);
      case Pop(_, _) => PopInv(d);
      case _ => PostInv(d);
  }

  // ----- every run

  predicate Run(d: Daemon, actions: seq<Action>)
    decreases |actions|
  {
    actions == [] || (Enabled(d, actions[0]) && Run(Step(d, actions[0]), actions[1..]))
  }

  function Final(d: Daemon, actions: seq<Action>): Daemon
    requires Run(d, actions)
    decreases |actions|
  {
    if actions == [] then d else Final(Step(d, actions[0]), actions[1..])
  }

  lemma {:induction false} StepWorkers(d: Daemon, a: Action)
    requires Enabled(d, a)
    ensures |Step(d, a).workers| == |d.workers|
  {
    hide Parts, Pushed, Collected, Answered;
  }

  lemma {:induction false} RunInv(d: Daemon, actions: seq<Action>)
    requires Inv(d) && Run(d, actions)
    ensures Inv(Final(d, actions)) && |Final(d, actions).workers| == |d.workers|
    decreases |actions|
  {
    hide Inv, Enabled;
    if actions != [] {
      StepInv(d, actions[0]);
      StepWorkers(d, actions[0]);
      RunInv(Step(d, actions[0]), actions[1..]);
    }
  }

  lemma {:induction false} PartsFinished(d: Daemon, i: nat, j: nat)
    requires Inv(d) && i < |d.workers| && j < |d.done|
    ensures j < |d.workers[i].answered| && d.workers[i].answered[j] == Parts(d.requested[j], |d.workers|)[i]
  {
    hide Parts, Line;
    assert WorkerOk(d, i);
    LineAt(d.taken, |d.workers|, i, 0, Returned(d, i), j);
    assert d.requested[j] == d.taken[j];
  }

  lemma {:induction false} PrefixOrder(d: Daemon)
    requires ShmOk(d)
    ensures d.collected <= d.done <= d.requested
  {
  }

  /**
   * The operations answered are the requested ones, each once and in order of request, and each of the `n` workers
   * has finished its part of every one of them.
   */
  ghost predicate InOrder(d: Daemon, n: nat) {
    && |d.workers| == n > 0
    && d.collected <= d.done <= d.requested
    && forall i, j | 0 <= i < n && 0 <= j < |d.done| ::
         j < |d.workers[i].answered| && d.workers[i].answered[j] == Parts(d.requested[j], n)[i]
  }

  lemma {:induction false} InvInOrder(d: Daemon)
    requires Inv(d)
    ensures InOrder(d, |d.workers|)
  {
    hide Parts, Line, WorkersOk, PlaceOk;
    PrefixOrder(d);
    forall i, j | 0 <= i < |d.workers| && 0 <= j < |d.done|
      ensures j < |d.workers[i].answered| && d.workers[i].answered[j] == Parts(d.requested[j], |d.workers|)[i]
    {
      PartsFinished(d, i, j);
    }
  }

  /** At every moment of every interleaving, completions are in order and complete. */
  lemma {:induction false} CompletedInOrder(start: Daemon, actions: seq<Action>)
    requires Initial(start) && Run(start, actions)
    ensures InOrder(Final(start, actions), |start.workers|)
  {
    hide InOrder, Inv;
    StartInv(start);
    RunInv(start, actions);
    InvInOrder(Final(start, actions));
  }

  lemma {:induction false} LineAt(taken: seq<Op>, n: nat, i: nat, lo: nat, hi: nat, j: nat)
    requires i < n && lo <= hi <= |taken| && j < hi - lo
    ensures |Line(taken, n, i, lo, hi)| == hi - lo && Line(taken, n, i, lo, hi)[j] == Parts(taken[lo + j], n)[i]
  {
  }
}
