/** The balancer makes progress: what its loops come to, and that every request can always still be answered. */
module JoinProgress {
  import opened Collectives
  import opened QueuePairs
  import opened LoadBalancer
  import opened Joins

  /** The daemon after `n` steps of the balancer, with nothing else in between. */
  ghost function Balanced(d: Daemon, n: nat): (e: Daemon)
    requires Inv(d)
    ensures Inv(e) && |e.workers| == |d.workers|
    decreases n
  {
    if n == 0 then d
    else
      NothingRefused(d);
      StepInv(d, Balance);
      StepWorkers(d, Balance);
      Balanced(Step(d, Balance), n - 1)
  }

  lemma {:induction false} BalancedTwice(d: Daemon, m: nat, n: nat)
    requires Inv(d)
    ensures Balanced(Balanced(d, m), n) == Balanced(d, m + n)
    decreases m
  {
    hide Inv, Step;
    if m > 0 {
      NothingRefused(d);
      StepInv(d, Balance);
      BalancedTwice(Step(d, Balance), m - 1, n);
    }
  }

  // ----- the two loops of try_complete_op

  /** The first loop, where every worker has a response. */
  lemma {:induction false} CheckAll(d: Daemon, k: nat)
    requires Inv(d) && d.place == Check(k)
    requires forall i | 0 <= i < |d.workers| :: d.workers[i].queues.cq != []
    ensures k <= |d.workers|
    ensures Balanced(d, |d.workers| - k + 1) == d.(place := Pop(0, None))
    decreases |d.workers| - k
  {
    hide WorkersOk, ShmOk, Parts;
    NothingRefused(d);
    StepInv(d, Balance);
    if k < |d.workers| {
      CheckAll(Step(d, Balance), k + 1);
    } else {
      assert Balanced(Step(d, Balance), 0) == Step(d, Balance);
    }
  }

  /** The first loop, where worker `i` is the first without a response. */
  lemma {:induction false} CheckSome(d: Daemon, k: nat, i: nat)
    requires Inv(d) && d.place == Check(k) && k <= i < |d.workers| && d.workers[i].queues.cq == []
    requires forall j | k <= j < i :: d.workers[j].queues.cq != []
    ensures Balanced(d, i - k + 1) == d.(place := Take)
    decreases i - k
  {
    hide WorkersOk, ShmOk, Parts;
    NothingRefused(d);
    StepInv(d, Balance);
    if k < i {
      CheckSome(Step(d, Balance), k + 1, i);
    } else {
      assert Balanced(Step(d, Balance), 0) == Step(d, Balance);
    }
  }

  /** `op` is answered, and the workers from `k` on lose the response they have first. */
  ghost predicate Answers(d: Daemon, e: Daemon, k: nat, op: Op) {
    && |e.workers| == |d.workers| && e.place == Take
    && e.done == d.done + [op] && e.shm == d.shm.(cq := d.shm.cq + [op])
    && e.requested == d.requested && e.taken == d.taken && e.collected == d.collected
    && forall i | 0 <= i < |d.workers| ::
         if i < k then e.workers[i] == d.workers[i]
         else && d.workers[i].queues.cq != [] && d.workers[i].queues.count > 0
              && e.workers[i] == d.workers[i].(queues := Queues(d.workers[i].queues.wq, d.workers[i].queues.cq[1..],
                                                               d.workers[i].queues.count - 1))
  }

  lemma {:induction false} PopAnswers(d: Daemon, k: nat, e: Daemon, op: Op)
    requires Inv(d) && d.place.Pop? && d.place.k == k < |d.workers| && Enabled(d, Balance)
    requires Answers(Step(d, Balance), e, k + 1, op)
    ensures Answers(d, e, k, op)
  {
    hide Inv, Parts;
  }

  /** The second loop and the response to the client. */
  lemma {:induction false} PopAll(d: Daemon, k: nat)
    requires Inv(d) && d.place.Pop? && d.place.k == k
    ensures k <= |d.workers| && |d.done| < |d.taken|
    ensures Answers(d, Balanced(d, |d.workers| - k + 1), k, d.taken[|d.done|])
    decreases |d.workers| - k
  {
    hide WorkersOk, Parts;
    NothingRefused(d);
    StepInv(d, Balance);
    var d' := Step(d, Balance);
    if k < |d.workers| {
      PopAll(d', k + 1);
      hide Step;
      PopAnswers(d, k, Balanced(d', |d.workers| - k), d.taken[|d.done|]);
    } else {
      assert Balanced(d', 0) == d';
    }
  }

  /**
   * `try_complete_op` when every worker has a response: the oldest unanswered operation, which is that of the last
   * head, is answered, and every worker has one response fewer.
   */
  lemma {:induction false} CompleteRound(d: Daemon)
    requires Inv(d) && d.place == Check(0) && forall i | 0 <= i < |d.workers| :: d.workers[i].queues.cq != []
    ensures var e := Balanced(d, 2 * |d.workers| + 2); var n := |d.workers|;
            && |d.done| < |d.taken| && Answers(d, e, 0, d.taken[|d.done|])
            && d.taken[|d.done|] == d.workers[n - 1].queues.cq[0].op
  {
    var n := |d.workers|;
    CheckAll(d, 0);
    var u := Balanced(d, n + 1);
    hide Balanced, WorkersOk, Parts;
    PopAll(u, 0);
    BalancedTwice(d, n + 1, n + 1);
    HeadsAgree(u, n - 1);
    assert WorkerOk(u, n - 1);
    FirstOfLine(u, n - 1);
  }

  // ----- try_post_op

  /** The workers from `k` on have their parts of `op`. */
  ghost predicate Posts(d: Daemon, e: Daemon, k: nat, op: Op) {
    && |e.workers| == |d.workers| > 0 && e.place == Check(0)
    && e.shm == d.shm && e.done == d.done && e.requested == d.requested && e.taken == d.taken && e.collected == d.collected
    && forall i | 0 <= i < |d.workers| ::
         if i < k then e.workers[i] == d.workers[i]
         else e.workers[i] == d.workers[i].(queues := Queues(d.workers[i].queues.wq + [Parts(op, |d.workers|)[i]],
                                                            d.workers[i].queues.cq, d.workers[i].queues.count + 1))
  }

  lemma {:induction false} PushPosts(d: Daemon, k: nat, e: Daemon, op: Op)
    requires Inv(d) && d.place == Post(op, k) && k < |d.workers| && d.workers[k].queues.count < QUEUE_SIZE
    requires Posts(Step(d, Balance), e, k + 1, op)
    ensures Posts(d, e, k, op)
  {
    hide Inv, Parts;
  }

  lemma {:induction false} PushAll(d: Daemon, k: nat, op: Op)
    requires Inv(d) && d.place == Post(op, k)
    ensures k <= |d.workers| && Posts(d, Balanced(d, |d.workers| - k + 1), k, op)
    decreases |d.workers| - k
  {
    hide WorkersOk, ShmOk, Parts;
    NothingRefused(d);
    StepInv(d, Balance);
    var d' := Step(d, Balance);
    if k < |d.workers| {
      PushAll(d', k + 1, op);
      hide Step;
      PushPosts(d, k, Balanced(d', |d.workers| - k), op);
    } else {
      assert Balanced(d', 0) == d';
    }
  }

  /** `try_post_op`: without a request nothing happens; otherwise the first is taken and every worker gets its part. */
  lemma {:induction false} PostRound(d: Daemon)
    requires Inv(d) && d.place == Take
    ensures d.shm.wq == [] ==> Balanced(d, 1) == d.(place := Check(0))
    ensures d.shm.wq != [] ==>
              var op := d.shm.wq[0];
              Posts(d.(shm := d.shm.(wq := d.shm.wq[1..]), taken := d.taken + [op]), Balanced(d, |d.workers| + 2), 0, op)
  {
    hide WorkersOk, ShmOk, Parts;
    NothingRefused(d);
    StepInv(d, Balance);
    var d' := Step(d, Balance);
    assert Balanced(d', 0) == d';
    if d.shm.wq != [] {
      PushAll(d', 0, d.shm.wq[0]);
    }
  }

  /** `try_complete_op` when some worker has no response: nothing happens. */
  lemma {:induction false} NoRound(d: Daemon) returns (n: nat)
    requires Inv(d) && d.place == Check(0) && exists i :: 0 <= i < |d.workers| && d.workers[i].queues.cq == []
    ensures Balanced(d, n) == d.(place := Take)
  {
    hide Balanced, Inv;
    var i := FirstEmpty(d.workers, 0);
    CheckSome(d, 0, i);
    n := i + 1;
  }

  lemma {:induction false} FirstEmpty(workers: seq<Worker>, k: nat) returns (i: nat)
    requires exists j :: k <= j < |workers| && workers[j].queues.cq == []
    ensures k <= i < |workers| && workers[i].queues.cq == [] && forall j | k <= j < i :: workers[j].queues.cq != []
    decreases |workers| - k
  {
    if workers[k].queues.cq == [] {
      i := k;
    } else {
      i := FirstEmpty(workers, k + 1);
    }
  }

  // ----- the program's two functions are the machine's rounds

  /** The queue pairs are those of the machine. */
  ghost predicate Shows(shm: QueuePair<Op>, workers: seq<QueuePair<SubOp>>, d: Daemon)
    reads shm, workers
  {
    && shm.Now() == d.shm && |workers| == |d.workers|
    && forall i | 0 <= i < |workers| :: workers[i].Now() == d.workers[i].queues
  }

  lemma {:induction false} RoomForAnswer(d: Daemon)
    requires Inv(d) && |d.done| < |d.taken|
    ensures |d.shm.wq| + |d.shm.cq| < d.shm.count
  {
    hide WorkersOk, PlaceOk;
  }

  lemma {:induction false} NextIsSummable(d: Daemon)
    requires Inv(d) && d.shm.wq != []
    ensures Summable(d.shm.wq[0]) && forall i | 0 <= i < |d.workers| :: d.workers[i].queues.count < QUEUE_SIZE
  {
    hide PlaceOk, Line, Parts;
    assert d.shm.wq[0] in d.requested;
    forall i | 0 <= i < |d.workers|
      ensures d.workers[i].queues.count < QUEUE_SIZE
    {
      Outstanding(d, i);
    }
  }

  /** `try_complete_op` does what the balancer's steps from its first to its second function do. */
  method CompleteIsRound(shm: QueuePair<Op>, workers: seq<QueuePair<SubOp>>, ghost d: Daemon)
    returns (completed: bool, ghost n: nat)
    requires workers != [] && Separate(shm, workers) && Shows(shm, workers, d) && Inv(d) && d.place == Check(0)
    modifies shm`cq, workers
    ensures Separate(shm, workers) && Shows(shm, workers, Balanced(d, n)) && Balanced(d, n).place == Take
    ensures |Balanced(d, n).done| == |d.done| + if completed then 1 else 0
  {
    hide Inv, Balanced;
    if forall i | 0 <= i < |d.workers| :: d.workers[i].queues.cq != [] {
      CompleteRound(d);
      RoomForAnswer(d);
      n := 2 * |d.workers| + 2;
    } else {
      n := NoRound(d);
    }
    completed := TryCompleteOp(shm, workers);
  }

  /** `try_post_op` does what its steps do. */
  method PostIsRound(shm: QueuePair<Op>, workers: seq<QueuePair<SubOp>>, ghost d: Daemon)
    returns (posted: bool, ghost n: nat)
    requires workers != [] && Separate(shm, workers) && Shows(shm, workers, d) && Inv(d) && d.place == Take
    modifies shm`wq, workers
    ensures Separate(shm, workers) && Shows(shm, workers, Balanced(d, n)) && Balanced(d, n).place == Check(0)
    ensures |Balanced(d, n).taken| == |d.taken| + if posted then 1 else 0
  {
    hide Inv, Balanced, Parts;
    PostRound(d);
    if d.shm.wq != [] {
      NextIsSummable(d);
      n := |d.workers| + 2;
    } else {
      n := 1;
    }
    posted := TryPostOp(shm, workers);
  }

  // ----- the balancer always comes home

  /** Requests stay, and nothing taken or answered is forgotten. */
  predicate Onward(d: Daemon, e: Daemon) {
    |e.workers| == |d.workers| && e.requested == d.requested && |d.taken| <= |e.taken| && |d.done| <= |e.done|
  }

  lemma {:induction false} StepOnward(d: Daemon, a: Action)
    requires Enabled(d, a) && (a.Work? || a.Answer? || a.Balance?)
    ensures Onward(d, Step(d, a))
  {
    hide Parts, Pushed, Collected, Answered;
  }

  /** How far the balancer is from the start of its loop. */
  function Ahead(d: Daemon): nat {
    var n := |d.workers|;
    match d.place
    case Check(k) => if k == 0 then 0 else if k <= n then 3 * n + 5 - k else 0
    case Pop(k, last) => if k <= n then 2 * n + 3 - k else 0
    case Take => n + 2
    case Post(op, k) => if k <= n then n + 1 - k else 0
  }

  lemma {:induction false} StepAhead(d: Daemon)
    requires Inv(d) && d.place != Check(0) && Enabled(d, Balance)
    ensures Ahead(Step(d, Balance)) < Ahead(d)
  {
    hide WorkersOk, ShmOk, Parts;
  }

  lemma {:induction false} Home(d: Daemon) returns (n: nat)
    requires Inv(d)
    ensures Balanced(d, n).place == Check(0) && Onward(d, Balanced(d, n))
    decreases Ahead(d)
  {
    hide Inv, Step, Enabled, Ahead;
    if d.place == Check(0) {
      n := 0;
    } else {
      NothingRefused(d);
      StepInv(d, Balance);
      StepAhead(d);
      StepOnward(d, Balance);
      var m := Home(Step(d, Balance));
      n := m + 1;
    }
  }

  // ----- continuations without new requests

  /** Workers and balancer alone lead from `d` to `e`. */
  ghost predicate Goes(d: Daemon, actions: seq<Action>, e: Daemon) {
    && Inv(d) && Inv(e) && Onward(d, e)
    && (forall a | a in actions :: a.Work? || a.Answer? || a.Balance?)
    && Run(d, actions) && Final(d, actions) == e
  }

  lemma {:induction false} GoesNowhere(d: Daemon)
    requires Inv(d)
    ensures Goes(d, [], d)
  {
    hide Inv;
  }

  lemma {:induction false} GoesFirst(d: Daemon, a: Action, actions: seq<Action>, e: Daemon)
    requires Inv(d) && Enabled(d, a) && (a.Work? || a.Answer? || a.Balance?) && Goes(Step(d, a), actions, e)
    ensures Goes(d, [a] + actions, e)
  {
    StepOnward(d, a);
    hide Inv, Step, Enabled;
    assert ([a] + actions)[0] == a && ([a] + actions)[1..] == actions;
  }

  lemma {:induction false} GoesOn(d: Daemon, one: seq<Action>, e: Daemon, two: seq<Action>, f: Daemon)
    requires Goes(d, one, e) && Goes(e, two, f)
    ensures Goes(d, one + two, f)
    decreases |one|
  {
    hide Inv, Step, Enabled;
    if one == [] {
      assert one + two == two;
    } else {
      var a, rest := one[0], one[1..];
      StepInv(d, a);
      StepOnward(d, a);
      RunInv(Step(d, a), rest);
      RunOnward(Step(d, a), rest);
      GoesOn(Step(d, a), rest, e, two, f);
      GoesFirst(d, a, rest + two, f);
      assert [a] + (rest + two) == one + two;
    }
  }

  lemma {:induction false} RunOnward(d: Daemon, actions: seq<Action>)
    requires Run(d, actions) && forall a | a in actions :: a.Work? || a.Answer? || a.Balance?
    ensures Onward(d, Final(d, actions))
    decreases |actions|
  {
    hide Step, Enabled;
    if actions != [] {
      StepOnward(d, actions[0]);
      RunOnward(Step(d, actions[0]), actions[1..]);
    }
  }

  lemma {:induction false} BalancedGoes(d: Daemon, n: nat) returns (actions: seq<Action>)
    requires Inv(d)
    ensures Goes(d, actions, Balanced(d, n))
    decreases n
  {
    hide Inv, Step, Goes;
    if n == 0 {
      GoesNowhere(d);
      actions := [];
    } else {
      NothingRefused(d);
      StepInv(d, Balance);
      var rest := BalancedGoes(Step(d, Balance), n - 1);
      GoesFirst(d, Balance, rest, Balanced(d, n));
      actions := [Balance] + rest;
    }
  }

  // ----- the workers finish

  predicate Idle(w: Worker) {
    w.queues.wq == [] && w.busy == []
  }

  /** Only worker `i` did something. */
  predicate OnlyWorker(d: Daemon, e: Daemon, i: nat) {
    i < |d.workers| && |e.workers| == |d.workers| && e == d.(workers := d.workers[i := e.workers[i]])
  }

  lemma {:induction false} WorkerStep(d: Daemon, i: nat) returns (a: Action)
    requires i < |d.workers| && !Idle(d.workers[i])
    ensures (a == Work(i) || a == Answer(i)) && Enabled(d, a) && OnlyWorker(d, Step(d, a), i)
    ensures var w, w' := d.workers[i], Step(d, a).workers[i];
            2 * |w'.queues.wq| + |w'.busy| < 2 * |w.queues.wq| + |w.busy|
  {
    a := if d.workers[i].queues.wq != [] then Work(i) else Answer(i);
    hide Answered;
  }

  /** Worker `i` takes and answers all it was given. */
  lemma {:induction false} DrainWorker(d: Daemon, i: nat) returns (actions: seq<Action>, e: Daemon)
    requires Inv(d) && i < |d.workers|
    ensures Goes(d, actions, e) && OnlyWorker(d, e, i) && Idle(e.workers[i])
    decreases 2 * |d.workers[i].queues.wq| + |d.workers[i].busy|
  {
    hide Inv, Step, Enabled, Goes;
    if Idle(d.workers[i]) {
      GoesNowhere(d);
      assert d.workers[i := d.workers[i]] == d.workers;
      actions, e := [], d;
    } else {
      var a := WorkerStep(d, i);
      StepInv(d, a);
      var rest;
      rest, e := DrainWorker(Step(d, a), i);
      GoesFirst(d, a, rest, e);
      actions := [a] + rest;
      assert d.workers[i := Step(d, a).workers[i]][i := e.workers[i]] == d.workers[i := e.workers[i]];
    }
  }

  /** So do the first `k` workers. */
  lemma {:induction false} DrainWorkers(d: Daemon, k: nat) returns (actions: seq<Action>, e: Daemon)
    requires Inv(d) && k <= |d.workers|
    ensures Goes(d, actions, e) && |e.workers| == |d.workers| && forall i | 0 <= i < k :: Idle(e.workers[i])
    ensures e == d.(workers := e.workers)
    decreases k
  {
    hide Inv, Goes;
    if k == 0 {
      GoesNowhere(d);
      actions, e := [], d;
    } else {
      var one, u := DrainWorkers(d, k - 1);
      MiddleInv(d, one, u);
      var two;
      two, e := DrainWorker(u, k - 1);
      GoesOn(d, one, u, two, e);
      actions := one + two;
    }
  }

  lemma {:induction false} MiddleInv(d: Daemon, actions: seq<Action>, e: Daemon)
    requires Goes(d, actions, e)
    ensures Inv(e) && Onward(d, e)
  {
  }

  // ----- every request is answered

  /** At the start of its loop with idle workers, the balancer finds as many responses as there are unanswered operations. */
  lemma {:induction false} IdleResponses(d: Daemon, i: nat)
    requires Inv(d) && d.place == Check(0) && i < |d.workers| && Idle(d.workers[i])
    ensures |d.workers[i].queues.cq| == |d.taken| - |d.done|
  {
    hide Line, Parts;
    assert WorkerOk(d, i);
    LineLength(d, i);
    var w := d.workers[i];
    assert w.queues.cq + w.busy + w.queues.wq == w.queues.cq;
  }

  lemma {:induction false} Counts(d: Daemon)
    requires Inv(d)
    ensures |d.workers| > 0 && |d.done| <= |d.taken| && |d.requested| == |d.taken| + |d.shm.wq| && d.done <= d.requested
    ensures |d.done| == |d.requested| ==> d.done == d.requested
  {
    hide WorkersOk, PlaceOk;
  }

  /** With idle workers and an unanswered request, the balancer alone takes or answers one more. */
  lemma {:induction false} BalancerFinds(d: Daemon) returns (n: nat)
    requires Inv(d) && d.place == Check(0) && d.done != d.requested
    requires forall i | 0 <= i < |d.workers| :: Idle(d.workers[i])
    ensures var e := Balanced(d, n); Onward(d, e) && |e.taken| + |e.done| > |d.taken| + |d.done|
  {
    hide Inv, Balanced, Idle;
    Counts(d);
    forall i | 0 <= i < |d.workers|
      ensures |d.workers[i].queues.cq| == |d.taken| - |d.done|
    {
      IdleResponses(d, i);
    }
    if |d.done| < |d.taken| {
      CompleteRound(d);
      n := 2 * |d.workers| + 2;
    } else {
      assert d.workers[0].queues.cq == [];
      var m := NoRound(d);
      PostRound(d.(place := Take));
      BalancedTwice(d, m, |d.workers| + 2);
      n := m + (|d.workers| + 2);
    }
  }

  /** One more operation is taken or answered. */
  lemma {:induction false} OneMore(d: Daemon) returns (actions: seq<Action>, e: Daemon)
    requires Inv(d) && d.done != d.requested
    ensures Goes(d, actions, e) && |e.taken| + |e.done| > |d.taken| + |d.done|
  {
    hide Inv, Goes, Balanced, Idle;
    var h := Home(d);
    var u := Balanced(d, h);
    var one := BalancedGoes(d, h);
    MiddleInv(d, one, u);
    if u.done == u.requested {
      Counts(d);
      actions, e := one, u;
    } else {
      var two, v := DrainWorkers(u, |u.workers|);
      MiddleInv(u, two, v);
      var n := BalancerFinds(v);
      var three := BalancedGoes(v, n);
      e := Balanced(v, n);
      GoesOn(u, two, v, three, e);
      GoesOn(d, one, u, two + three, e);
      actions := one + (two + three);
    }
  }

  lemma {:induction false} AllAnswered(d: Daemon) returns (actions: seq<Action>, e: Daemon)
    requires Inv(d)
    ensures Goes(d, actions, e) && e.done == d.requested
    decreases 2 * |d.requested| - |d.taken| - |d.done|
  {
    hide Inv, Goes;
    Counts(d);
    if d.done == d.requested {
      GoesNowhere(d);
      actions, e := [], d;
    } else {
      var one, u := OneMore(d);
      MiddleInv(d, one, u);
      Counts(u);
      var two;
      two, e := AllAnswered(u);
      GoesOn(d, one, u, two, e);
      actions := one + two;
    }
  }

  /** A request is accepted, at the end of the queue, iff fewer than 1024 are outstanding, and otherwise leaves no trace. */
  lemma {:induction false} AcceptedIff(d: Daemon, op: Op)
    requires Inv(d) && (op.code == OpBroadcast || op.size % 4 == 0)
    ensures Enabled(d, Request(op))
    ensures var e := Step(d, Request(op));
            if |d.requested| - |d.collected| < 1024 then
              && e.requested == d.requested + [op] && e.shm.wq == d.shm.wq + [op]
              && e == d.(requested := e.requested, shm := d.shm.(wq := e.shm.wq, count := d.shm.count + 1))
            else e == d
  {
    hide WorkersOk, PlaceOk;
  }

  function Collects(n: nat): (actions: seq<Action>)
    ensures |actions| == n && forall i | 0 <= i < n :: actions[i] == Collect
  {
    seq(n, i => Collect)
  }

  /** The client can collect all that is answered, and finds it in order. */
  lemma {:induction false} CollectAll(d: Daemon)
    requires Inv(d)
    ensures var actions := Collects(|d.shm.cq|);
            Run(d, actions) && Final(d, actions).collected == d.collected + d.shm.cq == d.done
    decreases |d.shm.cq|
  {
    hide WorkersOk, PlaceOk;
    if d.shm.cq != [] {
      var e := Step(d, Collect);
      assert e.collected + e.shm.cq == d.collected + d.shm.cq;
      StepInv(d, Collect);
      CollectAll(e);
      assert Collects(|d.shm.cq|)[1..] == Collects(|e.shm.cq|);
    } else {
      assert Collects(0) == [];
      assert d.collected + [] == d.collected;
    }
  }

  /**
   * From wherever client, workers and balancer have got, workers and balancer can still answer every request without
   * any help by the client, which can then collect all answers.
   */
  lemma {:induction false} EveryRequestAnswered(start: Daemon, actions: seq<Action>)
    requires Initial(start) && Run(start, actions)
    ensures var d := Final(start, actions);
            exists more: seq<Action>, n: nat ::
              && (forall a | a in more :: a.Work? || a.Answer? || a.Balance?)
              && Run(d, more) && Final(d, more).done == d.requested
              && Run(Final(d, more), Collects(n)) && Final(Final(d, more), Collects(n)).collected == d.requested
  {
    hide Inv, Step, Enabled;
    StartInv(start);
    RunInv(start, actions);
    var d := Final(start, actions);
    var more, e := AllAnswered(d);
    MiddleInv(d, more, e);
    CollectAll(e);
    assert Final(Final(d, more), Collects(|e.shm.cq|)).collected == d.requested;
  }

  /** However long the balancer runs, it takes and answers nothing and gives the workers nothing to do. */
  ghost predicate Quiet(d: Daemon)
    requires Inv(d)
  {
    forall n: nat ::
      && Balanced(d, n).taken == d.taken && Balanced(d, n).done == d.done
      && forall i | 0 <= i < |d.workers| :: Idle(Balanced(d, n).workers[i])
  }

  /** When all is quiet, all is answered. */
  lemma {:induction false} QuietMeansDone(d: Daemon)
    requires Inv(d) && Quiet(d)
    ensures d.done == d.requested
  {
    hide Inv, Balanced, Idle;
    var h := Home(d);
    var u := Balanced(d, h);
    if u.done != u.requested {
      var n := BalancerFinds(u);
      BalancedTwice(d, h, n);
      assert false;
    }
  }
}
