/**
 * What a slot that two packets of neighbouring windows share does to a run: without a single loss, a result is put
 * out whose even words are of one psn and whose odd words are of another.
 */
module WrapRuns {
  import opened Bitmap
  import opened SatArith
  import opened DataPlane
  import opened Collectives
  import opened Protocol
  import opened ProtocolSafety
  import opened ProtocolTheorems
  import opened Progress
  import opened Wrap
  import opened Sequences

  // ----- everybody contributes, nobody takes a result

  /** Every host holds exactly the results before `p`. */
  ghost predicate HoldExactly(c: Config, s: State, p: nat) {
    AllHold(c, s, p) && forall h, q: nat | 0 <= h < c.size && p <= q :: q !in s.net.hosts[h].got
  }

  /** No host took a result or went beyond `m`, and what was sent or complete stays so. */
  ghost predicate Untaken(c: Config, s: State, t: State, m: nat) {
    && NotBeyond(c, s, t, m) && s.net.sent <= t.net.sent
    && (forall x | 0 <= x < c.size :: t.net.hosts[x].got == s.net.hosts[x].got)
    && (forall q: nat | Complete(c, s.log, q) :: Complete(c, t.log, q))
  }

  /** A result of `p` for `g` is on its way. */
  ghost predicate Underway(s: State, g: nat, p: nat) {
    exists result :: Message(g, p, result) in s.net.sent
  }

  lemma {:induction false} SameUntaken(c: Config, s: State, t: State, p: nat)
    requires SameResults(c, s, t, p)
    ensures Untaken(c, s, t, p)
  {
    hide Complete;
  }

  lemma {:induction false} UntakenTwice(c: Config, s: State, t: State, u: State, m: nat, n: nat)
    requires Untaken(c, s, t, m) && Untaken(c, t, u, n)
    ensures Untaken(c, s, u, Max(m, n))
  {
    hide Complete;
  }

  lemma {:induction false} UntakenUnderway(c: Config, s: State, t: State, m: nat, g: nat, p: nat)
    requires Untaken(c, s, t, m) && Underway(s, g, p)
    ensures Underway(t, g, p)
  {
    hide Complete;
    var result :| Message(g, p, result) in s.net.sent;
    assert Message(g, p, result) in t.net.sent;
  }

  lemma {:induction false} StillOffers(c: Config, s: State, t: State, n: nat, h: nat, p: nat, m: nat)
    requires HoldExactly(c, s, p) && Untaken(c, s, t, n) && h < c.size
    requires p <= m < p + c.win && m <= t.net.hosts[h].next
    ensures MayOffer(c, t, h, p, m)
  {
    hide Complete;
    assert HoldsUpTo(c, t, h, p);
  }

  /** All hosts contribute to `m`, and a result of `m` is put out for `g`. */
  lemma {:induction false} ContributeOne(c: Config, s0: State, run: seq<Action>, s: State, t: State, p: nat, m: nat, g: nat)
    returns (run': seq<Action>, u: State)
    requires Leads(c, s0, run, t) && HoldExactly(c, s, p) && g < c.size && c.len > 0 && Apart(c, m)
    requires p <= m < p + c.win && Untaken(c, s, t, m) && forall h | 0 <= h < c.size :: m <= t.net.hosts[h].next
    ensures Leads(c, s0, run', u) && Untaken(c, t, u, m) && Complete(c, u.log, m) && Underway(u, g, m)
    ensures forall h | 0 <= h < c.size :: u.net.hosts[h].next > m
  {
    hide Leads, Good, Apart, Complete, MayOffer, SameResults, Untaken, HoldExactly;
    forall h | 0 <= h < c.size
      ensures MayOffer(c, t, h, p, m)
    {
      StillOffers(c, s, t, m, h, p, m);
    }
    Lacks(c, s, t, m, m, p);
    var r, v := AllContribute(c, s0, run, t, seq(c.size, h => p), m, c.size);
    SameUntaken(c, t, v, m);
    SameKeeps(c, t, v, m);
    End(c, s0, r, v);
    AllHeard(c, v, m, 0);
    UntakenTwice(c, s, t, v, m, m);
    StillOffers(c, s, v, m, g, p, m);
    var message;
    run', u, message := Obtain(c, s0, r, v, g, p, m);
    SameUntaken(c, v, u, m);
    SameKeeps(c, v, u, m);
    UntakenTwice(c, t, v, u, m, m);
    assert Message(g, m, message.result) in u.net.sent;
  }

  lemma {:induction false} Lacks(c: Config, s: State, t: State, n: nat, m: nat, p: nat)
    requires HoldExactly(c, s, p) && Untaken(c, s, t, n) && p <= m
    ensures |t.net.hosts| == c.size
    ensures forall h | 0 <= h < c.size :: m !in t.net.hosts[h].got
  {
    hide Complete;
  }

  /** The same for all psns from `p` to `m`. */
  lemma {:induction false} ContributeTo(c: Config, s0: State, run: seq<Action>, s: State, p: nat, m: nat, g: nat)
    returns (run': seq<Action>, t: State)
    requires Leads(c, s0, run, s) && HoldExactly(c, s, p) && g < c.size && c.len > 0
    requires p <= m < p + c.win && forall x: nat | x <= m :: Apart(c, x)
    ensures Leads(c, s0, run', t) && Untaken(c, s, t, m) && Complete(c, t.log, p)
    ensures forall h | 0 <= h < c.size :: t.net.hosts[h].next > m
    ensures forall j: nat | p <= j <= m :: Underway(t, g, j)
    decreases m - p
  {
    hide Leads, Good, Apart, Complete, Untaken, HoldExactly, Underway;
    if m == p {
      UntakenSelf(c, s0, run, s, m);
      NextAtLeast(c, s0, run, s, p);
      run', t := ContributeOne(c, s0, run, s, s, p, m, g);
    } else {
      var r, u := ContributeTo(c, s0, run, s, p, m - 1, g);
      UntakenSelf(c, s0, r, u, m);
      UntakenTwice(c, s, u, u, m - 1, m);
      run', t := ContributeOne(c, s0, r, s, u, p, m, g);
      UntakenTwice(c, s, u, t, m, m);
      forall j: nat | p <= j < m
        ensures Underway(t, g, j)
      {
        UntakenUnderway(c, u, t, m, g, j);
      }
      KeepsComplete(c, u, t, m, p);
    }
  }

  lemma {:induction false} KeepsComplete(c: Config, s: State, t: State, m: nat, p: nat)
    requires Untaken(c, s, t, m) && Complete(c, s.log, p)
    ensures Complete(c, t.log, p)
  {
    hide Complete;
  }

  lemma {:induction false} UntakenSelf(c: Config, s0: State, run: seq<Action>, s: State, m: nat)
    requires Leads(c, s0, run, s)
    ensures Untaken(c, s, s, m)
  {
    hide Leads;
    End(c, s0, run, s);
  }

  lemma {:induction false} NextAtLeast(c: Config, s0: State, run: seq<Action>, s: State, p: nat)
    requires Leads(c, s0, run, s) && HoldExactly(c, s, p)
    ensures forall h | 0 <= h < c.size :: p <= s.net.hosts[h].next
  {
    hide Leads, Good;
    End(c, s0, run, s);
    forall h | 0 <= h < c.size
      ensures p <= s.net.hosts[h].next
    {
      assert HoldsUpTo(c, s, h, p);
      FirstLacking(c, s, h, p);
    }
  }

  // ----- one packet waits while a host moves on

  /** The only packet that waits for its second pass is an answer to `h` for `p`. */
  ghost predicate OnlyWaits(s: State, h: nat, p: nat) {
    |s.net.queue| == 1 && s.net.queue[0].rank == h && s.net.queue[0].psn == p && !s.net.queue[0].multicast
  }

  /** `h` asks again for the complete psn `p`, and its answer waits. */
  lemma {:induction false} AskAgain(c: Config, s0: State, run: seq<Action>, s: State, h: nat, p: nat)
    returns (run': seq<Action>, t: State)
    requires Leads(c, s0, run, s) && |s.net.hosts| == c.size && MayOffer(c, s, h, p, p)
    requires c.len > 0 && Apart(c, p) && Complete(c, s.log, p)
    ensures Leads(c, s0, run', t) && SameResults(c, s, t, p) && OnlyWaits(t, h, p)
    ensures t.net.hosts[h].ack == p < t.net.hosts[h].next
    ensures forall x | 0 <= x < c.size && x != h :: t.net.hosts[x] == s.net.hosts[x]
  {
    hide Leads, Good, Apart, Complete, Next, SameResults;
    var r, u := Prepare(c, s0, run, s, h, p, p);
    SameKeeps(c, s, u, p);
    End(c, s0, r, u);
    FirstPassCalm(c, u, h, p, h);
    AfterFetch(c, u, h, p);
    t := Then(c, s0, r, u, FirstPass(h));
    SameThenCalm(c, s, u, t, p);
    run' := r + [FirstPass(h)];
  }

  /** Nothing changes but host `g` and its link. */
  ghost predicate OnlyHost(c: Config, s: State, t: State, g: nat) {
    && |s.net.hosts| == |t.net.hosts| == c.size && |s.net.links| == |t.net.links| == c.size && g < c.size
    && t.net == s.net.(hosts := s.net.hosts[g := t.net.hosts[g]], links := s.net.links[g := t.net.links[g]])
  }

  lemma {:induction false} OnlyTwice(c: Config, s: State, t: State, u: State, g: nat)
    requires OnlyHost(c, s, t, g) && OnlyHost(c, t, u, g)
    ensures OnlyHost(c, s, u, g)
  {
    assert s.net.hosts[g := t.net.hosts[g]][g := u.net.hosts[g]] == s.net.hosts[g := u.net.hosts[g]];
    assert s.net.links[g := t.net.links[g]][g := u.net.links[g]] == s.net.links[g := u.net.links[g]];
  }

  lemma {:induction false} OnlySelf(c: Config, s0: State, run: seq<Action>, s: State, g: nat)
    requires Leads(c, s0, run, s) && g < c.size
    ensures OnlyHost(c, s, s, g)
  {
    hide Leads;
    End(c, s0, run, s);
    assert s.net.hosts[g := s.net.hosts[g]] == s.net.hosts;
    assert s.net.links[g := s.net.links[g]] == s.net.links;
  }

  lemma {:induction false} TakeOne(c: Config, s: State, m: Message)
    requires Valid(c) && Shape(c, s.net) && LogShape(c, s.log) && Enabled(c, s.net, Accept(m))
    requires s.net.hosts[m.rank].ack <= m.psn < s.net.hosts[m.rank].next
    ensures var t := Next(c, s, Accept(m)); var was, is_ := s.net.hosts[m.rank], t.net.hosts[m.rank];
            && OnlyHost(c, s, t, m.rank) && is_.ack == was.ack && is_.next == was.next
            && is_.got.Keys == was.got.Keys + {m.psn}
  {
    var t := Next(c, s, Accept(m));
    assert s.net.links[m.rank := s.net.links[m.rank]] == s.net.links;
    assert t.net.hosts[m.rank] == Take(s.net.hosts[m.rank], m);
  }

  /** `g` takes its results from `p` on up to `a`. */
  lemma {:induction false} TakeTo(c: Config, s0: State, run: seq<Action>, s: State, g: nat, p: nat, a: nat)
    returns (run': seq<Action>, t: State)
    requires Leads(c, s0, run, s) && g < c.size == |s.net.hosts| && s.net.hosts[g].ack <= p <= a <= s.net.hosts[g].next
    requires forall j: nat | p <= j < a :: Underway(s, g, j)
    ensures Leads(c, s0, run', t) && OnlyHost(c, s, t, g)
    ensures t.net.hosts[g].ack == s.net.hosts[g].ack && t.net.hosts[g].next == s.net.hosts[g].next
    ensures forall x: nat :: x in t.net.hosts[g].got <==> x in s.net.hosts[g].got || p <= x < a
    decreases a - p
  {
    hide Leads, Good, Next;
    if a == p {
      OnlySelf(c, s0, run, s, g);
      run', t := run, s;
    } else {
      var r, u := TakeTo(c, s0, run, s, g, p, a - 1);
      assert Underway(s, g, a - 1);
      var result :| Message(g, a - 1, result) in s.net.sent;
      var m := Message(g, a - 1, result);
      End(c, s0, r, u);
      TakeOne(c, u, m);
      t := Then(c, s0, r, u, Accept(m));
      run' := r + [Accept(m)];
      OnlyTwice(c, s, u, t, g);
    }
  }

  lemma {:induction false} SendOne(c: Config, s: State, g: nat)
    requires Valid(c) && Shape(c, s.net) && LogShape(c, s.log) && Enabled(c, s.net, SendNext(g))
    ensures var t := Next(c, s, SendNext(g)); var host := s.net.hosts[g];
            && OnlyHost(c, s, t, g) && t.net.hosts[g] == host.(next := host.next + 1)
            && t.net.links[g] == s.net.links[g] + [host.next]
  {
  }

  /** `g` sends its next packets up to `q`. */
  lemma {:induction false} SendTo(c: Config, s0: State, run: seq<Action>, s: State, g: nat, q: nat)
    returns (run': seq<Action>, t: State)
    requires Leads(c, s0, run, s) && g < c.size == |s.net.hosts|
    requires s.net.hosts[g].next <= q <= s.net.hosts[g].ack + c.win && c.len > 0 && forall x: nat | x < q :: Apart(c, x)
    ensures Leads(c, s0, run', t) && OnlyHost(c, s, t, g) && t.net.hosts[g] == s.net.hosts[g].(next := q)
    decreases q - s.net.hosts[g].next
  {
    hide Leads, Good, Next, Apart;
    OnlySelf(c, s0, run, s, g);
    if s.net.hosts[g].next == q {
      run', t := run, s;
    } else {
      End(c, s0, run, s);
      SendOne(c, s, g);
      var u := Then(c, s0, run, s, SendNext(g));
      run', t := SendTo(c, s0, run + [SendNext(g)], u, g, q);
      OnlyTwice(c, s, u, t, g);
    }
  }

  /** The window of `h` contains `p`, and it has no result of it. */
  ghost predicate Awaits(s: State, h: nat, p: nat) {
    h < |s.net.hosts| && s.net.hosts[h].ack <= p < s.net.hosts[h].next && p !in s.net.hosts[h].got
  }

  /** An answer to `h` for `p` is the next to be read, and `g` is about to send `q` on its empty link. */
  ghost predicate Poised(c: Config, s: State, h: nat, p: nat, g: nat, q: nat) {
    && g < c.size && h < c.size && |s.net.hosts| == |s.net.links| == c.size
    && s.net.queue != [] && s.net.queue[0].rank == h && s.net.queue[0].psn == p && !s.net.queue[0].multicast
    && s.net.links[g] == [] && s.net.hosts[g].next == q < s.net.hosts[g].ack + c.win
    && ((h != g || q < p + c.win) ==> Awaits(s, h, p))
  }

  /** How far `g` must have come before it may send `q`. */
  function Base(c: Config, p: nat, q: nat): (a: nat)
    requires c.win > 0 && p < q < p + 2 * c.win
    ensures p <= a <= p + c.win && q < a + c.win && (q < p + c.win ==> a == p)
  {
    if q < p + c.win then p else q - c.win + 1
  }

  lemma {:induction false} MayMove(c: Config, s: State, t: State, g: nat, p: nat, a: nat, m: nat)
    requires HoldExactly(c, s, p) && Untaken(c, s, t, m) && Good(c, t) && g < c.size
    requires p <= a <= m + 1 && t.net.hosts[g].next > m
    ensures c.base <= p && t.net.hosts[g].ack <= p <= a <= t.net.hosts[g].next
    ensures s.net.hosts[g].next <= p ==> t.net.hosts[g].next <= m + 1
    ensures forall x: nat :: x in t.net.hosts[g].got ==> x < p
    ensures forall x: nat :: c.base <= x < p ==> x in t.net.hosts[g].got
  {
    hide Good, Complete;
    HostFacts(c, t, g);
    assert p !in s.net.hosts[g].got && p !in t.net.hosts[g].got;
  }

  /** `g` takes its results up to `a`, slides its window there and sends all before `q`, while the answer waits. */
  lemma {:induction false} MoveOn(c: Config, s0: State, run: seq<Action>, s: State, h: nat, p: nat, g: nat, a: nat, q: nat)
    returns (run': seq<Action>, t: State)
    requires Leads(c, s0, run, s) && g < c.size == |s.net.hosts| && h < c.size && OnlyWaits(s, h, p) && Awaits(s, h, p)
    requires s.net.hosts[g].ack <= p <= a <= s.net.hosts[g].next <= q < a + c.win && c.base <= p
    requires forall x: nat :: x in s.net.hosts[g].got ==> x < p
    requires forall x: nat :: c.base <= x < p ==> x in s.net.hosts[g].got
    requires forall j: nat | p <= j < a :: Underway(s, g, j)
    requires (h != g || q < p + c.win) ==> h != g || a == p
    requires c.len > 0 && forall x: nat | x < q :: Apart(c, x)
    ensures Leads(c, s0, run', t) && Poised(c, t, h, p, g, q)
  {
    hide Leads, Good, Apart, Underway, Next;
    var r, u := TakeTo(c, s0, run, s, g, p, a);
    assert HoldsUpTo(c, u, g, a);
    var v;
    r, v := SlideTo(c, s0, r, u, g, a);
    var w;
    r, w := SendTo(c, s0, r, v, g, q);
    run', t := WorkOff(c, s0, r, w, g);
    assert w.net.queue == s.net.queue && w.net.queue[0] == s.net.queue[0];
    assert t.net.queue[0] == s.net.queue[0];
  }

  /** A loss-free way to there from wherever everybody holds exactly the results before `p`. */
  lemma {:induction false} Poise(c: Config, s0: State, run: seq<Action>, s: State, h: nat, p: nat, g: nat, q: nat)
    returns (run': seq<Action>, t: State)
    requires Leads(c, s0, run, s) && HoldExactly(c, s, p) && g < c.size && h < c.size && Valid(c)
    requires forall x | 0 <= x < c.size :: s.net.hosts[x].next <= p
    requires p < q < p + 2 * c.win && forall x: nat | x < q :: Apart(c, x)
    ensures Leads(c, s0, run', t) && Poised(c, t, h, p, g, q)
  {
    hide Leads, Good, Apart, Complete, Underway, Untaken, HoldExactly, SameResults, MayOffer, Poised;
    var a := Base(c, p, q);
    var m := if a == p then p else a - 1;
    var r, u := ContributeTo(c, s0, run, s, p, m, g);
    End(c, s0, r, u);
    MayMove(c, s, u, h, p, p, m);
    StillOffers(c, s, u, m, h, p, p);
    var v;
    r, v := AskAgain(c, s0, r, u, h, p);
    SameUntaken(c, u, v, p);
    forall j: nat | p <= j < a
      ensures Underway(v, g, j)
    {
      UntakenUnderway(c, u, v, p, g, j);
    }
    UntakenTwice(c, s, u, v, m, p);
    End(c, s0, r, v);
    SameKeeps(c, u, v, p);
    Lacks(c, s, v, m, p, p);
    MayMove(c, s, v, g, p, a, m);
    run', t := MoveOn(c, s0, r, v, h, p, g, a, q);
  }

  // ----- the slot is overwritten under the waiting packet

  /**
   * The answer waits, with its even words read after arrivals in `order`, but its slot has been taken over by the
   * packet of `q` from `g` alone.
   */
  ghost predicate TakenOver(c: Config, net: Net, h: nat, p: nat, order: seq<nat>, g: nat, q: nat)
    requires Valid(c) && Shape(c, net)
  {
    && g < c.size && AnswerWaits(c, net, h, p, order)
    && net.slots[Index(c, p)] == Slot(Tag(c, q), {g}, Overwrite(Data(c, q, g)))
  }

  /** The next packet to be read is an answer to `h` for `p`, with its even words read after arrivals in `order`. */
  ghost predicate AnswerWaits(c: Config, net: Net, h: nat, p: nat, order: seq<nat>) {
    && h < c.size && net.queue != [] && net.queue[0].rank == h && net.queue[0].psn == p && !net.queue[0].multicast
    && ArrivalOrder(c, order)
    && net.queue[0].payload == ReadEven(Folded(DataOf(c, p), Tag(c, p), order), net.queue[0].payload)
  }

  lemma {:induction false} Sends(c: Config, net: Net, g: nat)
    requires Valid(c) && Shape(c, net) && g < c.size && net.links[g] == [] && net.hosts[g].next < net.hosts[g].ack + c.win
    ensures Enabled(c, net, SendNext(g))
    ensures var u := Step(c, net, SendNext(g));
            && Shape(c, u) && Enabled(c, u, FirstPass(g)) && u.links[g] == [net.hosts[g].next]
            && u.slots == net.slots && u.queue == net.queue
            && (forall x | 0 <= x < c.size :: u.hosts[x].ack == net.hosts[x].ack && u.hosts[x].got == net.hosts[x].got
                                              && u.hosts[x].next >= net.hosts[x].next)
  {
  }

  lemma {:induction false} Overtakes(c: Config, net: Net, h: nat, p: nat, order: seq<nat>, g: nat, q: nat)
    requires Valid(c) && Shape(c, net) && Enabled(c, net, FirstPass(g)) && net.links[g] == [q]
    requires AnswerWaits(c, net, h, p, order)
    requires Index(c, p) == Index(c, q) && net.slots[Index(c, p)].version != Tag(c, q)
    ensures var u := Step(c, net, FirstPass(g)); Shape(c, u) && TakenOver(c, u, h, p, order, g, q) && u.hosts == net.hosts
  {
    hide Index, Decide, Data, Overwrite, Aggregate, Tag, Folded, ReadEven, ArrivalOrder;
    assert Step(c, net, FirstPass(g)).queue[0] == net.queue[0];
  }

  /** As long as the invariant holds, a waiting packet has read a whole group's row and its slot is at its version. */
  lemma {:induction false} OwnRow(c: Config, s: State) returns (order: seq<nat>)
    requires Good(c, s) && |s.net.queue| > 0
    ensures Valid(c) && Shape(c, s.net) && ArrivalOrder(c, order)
    ensures var w := s.net.queue[0];
            && s.net.slots[Index(c, w.psn)].version == Tag(c, w.psn)
            && w.payload == ReadEven(Folded(DataOf(c, w.psn), Tag(c, w.psn), order), w.payload)
  {
    hide LinkOk, HostOk, ResultOk, Folded, ReadEven;
    var w := s.net.queue[0];
    assert WaitingOk(c, s.log, w);
    assert SlotOk(c, s.net.slots[Index(c, w.psn)], s.log, Index(c, w.psn));
    order := s.log.order[w.psn];
  }

  /** The last two steps. */
  lemma {:induction false} PoisedStep(c: Config, s: State, h: nat, p: nat, g: nat, q: nat) returns (order: seq<nat>)
    requires Good(c, s) && Poised(c, s, h, p, g, q) && Valid(c) && Shape(c, s.net)
    requires p < q < p + 2 * c.win && Index(c, p) == Index(c, q)
    ensures Enabled(c, s.net, SendNext(g))
    ensures Shape(c, Step(c, s.net, SendNext(g))) && Enabled(c, Step(c, s.net, SendNext(g)), FirstPass(g))
    ensures var v := Step(c, Step(c, s.net, SendNext(g)), FirstPass(g));
            && Shape(c, v) && TakenOver(c, v, h, p, order, g, q)
            && ((h != g || q < p + c.win) ==> Awaits(State(v, s.log), h, p))
  {
    hide Good, Index, Tag, TakenOver, Step, Enabled, ReadEven, Folded, ArrivalOrder;
    Sends(c, s.net, g);
    order := OwnRow(c, s);
    TagsDiffer(c, p, q);
    var u := Step(c, s.net, SendNext(g));
    Overtakes(c, u, h, p, order, g, q);
  }

  lemma {:induction false} StartGood(c: Config, start: Net)
    requires Valid(c) && Initial(c, start)
    ensures Good(c, State(start, StartLog(c)))
    ensures |start.hosts| == c.size && forall h | 0 <= h < c.size :: start.hosts[h].next <= c.base
  {
    hide Inv;
    StartInv(c, start);
  }

  lemma {:induction false} Exactly(c: Config, s: State, p: nat)
    requires Good(c, s) && AllHold(c, s, p) && forall h | 0 <= h < c.size :: s.net.hosts[h].next <= p
    ensures HoldExactly(c, s, p)
  {
    hide Good;
    forall h, q: nat | 0 <= h < c.size && p <= q
      ensures q !in s.net.hosts[h].got
    {
      HostFacts(c, s, h);
    }
  }

  lemma {:induction false} LeadsRun(c: Config, s: State, actions: seq<Action>, t: State)
    requires Leads(c, s, actions, t)
    ensures Valid(c) && Shape(c, s.net) && Lossless(actions) && Run(c, s.net, actions) && Final(c, s.net, actions) == t.net
  {
    hide Inv;
    Shapes(c, s);
  }

  lemma {:induction false} LosslessThen(actions: seq<Action>, a: Action)
    requires Lossless(actions) && !a.LoseOnLink? && !a.LoseInQueue?
    ensures Lossless(actions + [a])
  {
  }

  /**
   * If `q` has the slot of `p` less than two windows later, and nothing clashed before, a run without any loss leads
   * from every start to where an answer for `p` waits and its slot has been taken over by a packet of `q`.
   */
  lemma {:induction false} Clashes(c: Config, start: Net, h: nat, p: nat, g: nat, q: nat)
    returns (actions: seq<Action>, order: seq<nat>)
    requires Valid(c) && Initial(c, start) && h < c.size && g < c.size
    requires c.base <= p < q < p + 2 * c.win && Index(c, p) == Index(c, q) && forall x: nat | x < q :: Apart(c, x)
    ensures Lossless(actions) && Run(c, start, actions)
    ensures var net := Final(c, start, actions);
            && Shape(c, net) && TakenOver(c, net, h, p, order, g, q)
            && ((h != g || q < p + c.win) ==> Awaits(State(net, StartLog(c)), h, p))
  {
    hide Apart, Index, Leads, Good, Step, Enabled, TakenOver, Poised, Tag;
    var s0 := State(start, StartLog(c));
    StartGood(c, start);
    var run, s := Everyone(c, s0, p);
    End(c, s0, run, s);
    Exactly(c, s, p);
    var t;
    run, t := Poise(c, s0, run, s, h, p, g, q);
    End(c, s0, run, t);
    order := PoisedStep(c, t, h, p, g, q);
    LeadsRun(c, s0, run, t);
    RunThen(c, start, run, SendNext(g));
    LosslessThen(run, SendNext(g));
    var u := Step(c, t.net, SendNext(g));
    RunThen(c, start, run + [SendNext(g)], FirstPass(g));
    LosslessThen(run + [SendNext(g)], FirstPass(g));
    actions := run + [SendNext(g)] + [FirstPass(g)];
  }

  // ----- torn results

  /** The even words of one row and the odd words of another. */
  function Torn(even: AggRow, odd: AggRow): Payload {
    seq(WORDS, i requires 0 <= i < WORDS => if i % 2 == 0 then even[i / 2].agg0 else odd[i / 2].agg1)
  }

  /** What the answer to `h` for `p` becomes. */
  function TornResult(c: Config, h: nat, p: nat, order: seq<nat>, g: nat, q: nat): Option<Payload> {
    Strip(c.coll(p), h, Torn(Folded(DataOf(c, p), Tag(c, p), order), Overwrite(Data(c, q, g))))
  }

  /** Whoever receives a packet that finds another row on its second pass gets the even words of its own and that row's odd words. */
  lemma {:induction false} SecondPassTears(c: Config, net: Net, own: AggRow)
    requires Valid(c) && Shape(c, net) && net.queue != [] && net.queue[0].payload == ReadEven(own, net.queue[0].payload)
    ensures var w := net.queue[0]; var row := net.slots[Index(c, w.psn)].row;
            forall r | r in Receivers(c, w) ::
              Message(r, w.psn, Strip(c.coll(w.psn), r, Torn(own, row))) in OnSecondPass(c, net).sent
  {
    hide Index, Strip;
    var w := net.queue[0];
    var row := net.slots[Index(c, w.psn)].row;
    assert ReadOdd(row, w.payload) == Torn(own, row);
  }

  lemma {:induction false} TearsApart(c: Config, net: Net, h: nat, p: nat, order: seq<nat>, g: nat, q: nat)
    requires Valid(c) && Shape(c, net) && TakenOver(c, net, h, p, order, g, q)
    ensures Enabled(c, net, SecondPass)
    ensures var u := Step(c, net, SecondPass);
            && Shape(c, u) && u.hosts == net.hosts
            && Message(h, p, TornResult(c, h, p, order, g, q)) in u.sent
  {
    hide Index, Folded, Data, Overwrite, Strip, Tag, DataOf, Torn, ReadEven, ReadOdd;
    SecondPassTears(c, net, Folded(DataOf(c, p), Tag(c, p), order));
    assert h in Receivers(c, net.queue[0]);
  }

  lemma {:induction false} Takes(c: Config, net: Net, m: Message)
    requires Valid(c) && Shape(c, net) && Enabled(c, net, Accept(m))
    ensures var u := Step(c, net, Accept(m));
            && Shape(c, u) && u.sent == net.sent && u.queue == net.queue && u.slots == net.slots
            && (net.hosts[m.rank].ack <= m.psn < net.hosts[m.rank].next && m.psn !in net.hosts[m.rank].got ==>
                  m.psn in u.hosts[m.rank].got && u.hosts[m.rank].got[m.psn] == m.result)
  {
  }

  /**
   * The damage: a run that loses nothing puts out a result of `p` whose odd words are what `g` sent for `q`, and `h`,
   * if it is another host or the two psns are in one window, takes it.
   */
  lemma {:induction false} TornRun(c: Config, start: Net, h: nat, p: nat, g: nat, q: nat)
    returns (actions: seq<Action>, order: seq<nat>)
    requires Valid(c) && Initial(c, start) && h < c.size && g < c.size
    requires c.base <= p < q < p + 2 * c.win && Index(c, p) == Index(c, q) && forall x: nat | x < q :: Apart(c, x)
    ensures forall a | a in actions :: !a.LoseOnLink? && !a.LoseInQueue?
    ensures Run(c, start, actions) && ArrivalOrder(c, order)
    ensures var net := Final(c, start, actions); var result := TornResult(c, h, p, order, g, q);
            && Shape(c, net) && Message(h, p, result) in net.sent
            && (h != g || q < p + c.win ==> p in net.hosts[h].got && net.hosts[h].got[p] == result)
  {
    hide Apart, Index, Step, Tag, TornResult;
    actions, order := Clashes(c, start, h, p, g, q);
    var net := Final(c, start, actions);
    TearsApart(c, net, h, p, order, g, q);
    RunThen(c, start, actions, SecondPass);
    LosslessThen(actions, SecondPass);
    actions := actions + [SecondPass];
    var u := Step(c, net, SecondPass);
    var m := Message(h, p, TornResult(c, h, p, order, g, q));
    Takes(c, u, m);
    RunThen(c, start, actions, Accept(m));
    LosslessThen(actions, Accept(m));
    actions := actions + [Accept(m)];
  }

  // ----- the exact conditions

  /** Every packet that waits for its second pass finds its slot at its version. */
  ghost predicate SlotsKept(c: Config, net: Net)
    requires Valid(c) && Shape(c, net)
  {
    forall k | 0 <= k < |net.queue| :: net.slots[Index(c, net.queue[k].psn)].version == Tag(c, net.queue[k].psn)
  }

  /** It does after every run. */
  ghost predicate KeptAlways(c: Config)
    requires Valid(c)
  {
    forall start, actions | Initial(c, start) && Run(c, start, actions) ::
      Shape(c, Final(c, start, actions)) && SlotsKept(c, Final(c, start, actions))
  }

  /** After every run, one arrival order per psn explains all results. */
  ghost predicate AgreeAlways(c: Config)
    requires Valid(c)
  {
    forall start, actions | Initial(c, start) && Run(c, start, actions) ::
      Shape(c, Final(c, start, actions)) && exists orders :: Explains(c, Final(c, start, actions), orders)
  }

  lemma {:induction false} FreshStart(c: Config) returns (start: Net)
    requires Valid(c)
    ensures Initial(c, start)
  {
    var row: AggRow := seq(PAIRS, k => AggPair(0, 0));
    start := Net(seq(c.size, h => Host(c.base, c.base, map[])), seq(c.size, h => []), seq(c.len, i => Slot(0, {}, row)), [], {});
  }

  lemma {:induction false} EverAllApart(c: Config, start: Net, actions: seq<Action>)
    requires Valid(c) && Shape(c, start) && Run(c, start, actions) && EverApart(c)
    ensures Shape(c, Final(c, start, actions)) && AllApart(c, Final(c, start, actions))
  {
    hide Apart;
    FinalShape(c, start, actions);
  }

  /** If the condition fails, there is a first clash. */
  lemma {:induction false} SomeClash(c: Config) returns (p: nat, q: nat)
    requires Valid(c) && !FitsWrap(c, 2 * c.win)
    ensures c.base <= p < q < p + 2 * c.win && Index(c, p) == Index(c, q) && forall x: nat | x < q :: Apart(c, x)
  {
    hide Apart, Index, FitsWrap;
    ApartIff(c);
    var bound: nat :| !Apart(c, bound);
    p, q := FirstClash(c, bound);
  }

  /** No run ever takes a slot from a waiting packet if and only if the wrap leaves nothing, or at least two windows. */
  lemma {:induction false} KeptIff(c: Config)
    requires Valid(c)
    ensures KeptAlways(c) <==> FitsWrap(c, 2 * c.win)
  {
    hide Apart, Index, FitsWrap, Inv, Tag;
    if FitsWrap(c, 2 * c.win) {
      ApartIff(c);
      forall start, actions | Initial(c, start) && Run(c, start, actions)
        ensures Shape(c, Final(c, start, actions)) && SlotsKept(c, Final(c, start, actions))
      {
        EverAllApart(c, start, actions);
        RunKept(c, start, actions);
      }
    } else {
      var p, q := SomeClash(c);
      var start := FreshStart(c);
      var actions, order := Clashes(c, start, 0, p, 0, q);
      TagsDiffer(c, p, q);
      assert !SlotsKept(c, Final(c, start, actions));
    }
  }

  lemma {:induction false} RunKept(c: Config, start: Net, actions: seq<Action>)
    requires Valid(c) && Initial(c, start) && Run(c, start, actions)
    requires AllApart(c, Final(c, start, actions))
    ensures SlotsKept(c, Final(c, start, actions))
  {
    hide Inv, Apart, Index;
    StartInv(c, start);
    RunInv(c, start, StartLog(c), actions);
    var net, log := Final(c, start, actions), FinalLog(c, start, StartLog(c), actions);
    forall k | 0 <= k < |net.queue|
      ensures net.slots[Index(c, net.queue[k].psn)].version == Tag(c, net.queue[k].psn)
    {
      WaiterKept(c, net, log, k);
    }
  }

  lemma {:induction false} WaiterKept(c: Config, net: Net, log: Log, k: nat)
    requires Inv(c, net, log) && k < |net.queue|
    ensures Valid(c) && Shape(c, net)
    ensures net.slots[Index(c, net.queue[k].psn)].version == Tag(c, net.queue[k].psn)
  {
    hide LinkOk, HostOk, ResultOk, Folded, ReadEven;
    assert WaitingOk(c, log, net.queue[k]);
    assert SlotOk(c, net.slots[Index(c, net.queue[k].psn)], log, Index(c, net.queue[k].psn));
  }

  /** The same lane with other data. */
  function WithData(c: Config, coll: nat -> Collective, buffer: (nat, nat) -> Payload): Config {
    c.(coll := coll, buffer := buffer)
  }

  /**
   * The results of every run agree, whatever the hosts' data, if and only if the wrap leaves nothing, or at least two
   * windows.
   */
  lemma {:induction false} AgreementIff(c: Config)
    requires Valid(c)
    ensures (forall coll, buffer :: Valid(WithData(c, coll, buffer)) && AgreeAlways(WithData(c, coll, buffer)))
            <==> FitsWrap(c, 2 * c.win)
  {
    hide Apart, Index, AgreeAlways, WithData, FitsWrap;
    if FitsWrap(c, 2 * c.win) {
      forall coll, buffer
        ensures Valid(WithData(c, coll, buffer)) && AgreeAlways(WithData(c, coll, buffer))
      {
        SameLane(c, coll, buffer);
        Agrees(WithData(c, coll, buffer));
      }
    } else {
      var p, q := SomeClash(c);
      var coll, buffer := Sums(), OnesAt(q);
      SameLane(c, coll, buffer);
      Disagrees(WithData(c, coll, buffer), p, q);
    }
  }

  lemma {:induction false} SameLane(c: Config, coll: nat -> Collective, buffer: (nat, nat) -> Payload)
    requires Valid(c)
    ensures var d := WithData(c, coll, buffer);
            && Valid(d) && d.base == c.base && d.win == c.win && d.coll == coll && d.buffer == buffer
            && (FitsWrap(d, 2 * d.win) <==> FitsWrap(c, 2 * c.win))
            && (forall x: nat :: Index(d, x) == Index(c, x))
            && (forall x: nat :: Apart(d, x) <==> Apart(c, x))
  {
  }

  lemma {:induction false} Agrees(c: Config)
    requires Valid(c) && FitsWrap(c, 2 * c.win)
    ensures AgreeAlways(c)
  {
    hide Apart, Index, FitsWrap, Explains;
    ApartIff(c);
    forall start, actions | Initial(c, start) && Run(c, start, actions)
      ensures Shape(c, Final(c, start, actions)) && exists orders :: Explains(c, Final(c, start, actions), orders)
    {
      EverAllApart(c, start, actions);
      Agreement(c, start, actions);
    }
  }

  function Sums(): nat -> Collective {
    psn => Collective(AllReduce, 0)
  }

  /** Only the packets of `q` carry anything but zeros. */
  function OnesAt(q: nat): (nat, nat) -> Payload {
    (psn: nat, rank: nat) => seq(WORDS, i => if psn == q then 1 else 0)
  }

  lemma {:induction false} ZeroColumn(data: Source, tag: nat, ranks: seq<nat>, w: nat)
    requires w < WORDS && forall rank: nat :: data(tag, rank)[w] == 0
    ensures SatSum(Column(data, tag, ranks, w)) == 0
    decreases |ranks|
  {
    if ranks != [] {
      ZeroColumn(data, tag, ranks[..|ranks| - 1], w);
      FoldStep(data, tag, ranks, w);
    }
  }

  lemma {:induction false} Disagrees(c: Config, p: nat, q: nat)
    requires Valid(c) && c.coll == Sums() && c.buffer == OnesAt(q)
    requires c.base <= p < q < p + 2 * c.win && Index(c, p) == Index(c, q) && forall x: nat | x < q :: Apart(c, x)
    ensures !AgreeAlways(c)
  {
    hide Apart, Index, Run, Final;
    var start := FreshStart(c);
    var actions, order := TornRun(c, start, 0, p, 0, q);
    var net := Final(c, start, actions);
    var torn := TornResult(c, 0, p, order, 0, q);
    assert torn.Some? && torn.value[1] == 1 by {
      assert Overwrite(Data(c, q, 0))[0].agg1 == 1;
    }
    forall orders
      ensures !Explains(c, net, orders)
    {
      if Explains(c, net, orders) {
        assert torn == ResultOf(c, p, 0, orders[Message(0, p, torn).psn]);
        SumIsZero(c, p, q, orders[p]);
        assert false;
      }
    }
  }

  lemma {:induction false} SumIsZero(c: Config, p: nat, q: nat, order: seq<nat>)
    requires c.coll == Sums() && c.buffer == OnesAt(q) && p != q
    ensures ResultOf(c, p, 0, order).Some? && ResultOf(c, p, 0, order).value[1] == 0
  {
    hide SatSum;
    forall rank: nat
      ensures DataOf(c, p)(Tag(c, p), rank)[1] == 0
    {
      DataAt(c, p, Tag(c, p), rank);
      assert Data(c, p, rank) == Zeros();
    }
    ZeroColumn(DataOf(c, p), Tag(c, p), order, 1);
  }
}
