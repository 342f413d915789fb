/** No loss is final: from wherever a run has led, the hosts still get every result if nothing more is lost. */
module Progress {
  import Arith
  import opened Bitmap
  import opened DataPlane
  import opened Collectives
  import opened Protocol
  import opened ProtocolSafety
  import opened ProtocolTheorems

  /** A state of the lane with its history. */
  datatype State = State(net: Net, log: Log)

  ghost predicate Good(c: Config, s: State) {
    Inv(c, s.net, s.log)
  }

  /** No packet is lost, on a link or on its way to the second pass. */
  predicate Lossless(actions: seq<Action>) {
    forall a | a in actions :: !a.LoseOnLink? && !a.LoseInQueue?
  }

  /** The actions lose nothing, can be taken from `s`, and end in `t`. */
  ghost predicate Leads(c: Config, s: State, actions: seq<Action>, t: State) {
    && Good(c, s) && Good(c, t) && Lossless(actions) && Run(c, s.net, actions)
    && Final(c, s.net, actions) == t.net && FinalLog(c, s.net, s.log, actions) == t.log
  }

  lemma {:induction false} Stay(c: Config, s: State)
    requires Good(c, s)
    ensures Leads(c, s, [], s)
  {
    hide Inv;
    assert Valid(c) && Shape(c, s.net) && LogShape(c, s.log) by {
      Shapes(c, s);
    }
  }

  lemma {:induction false} Shapes(c: Config, s: State)
    requires Good(c, s)
    ensures Valid(c) && Shape(c, s.net) && LogShape(c, s.log)
  {
  }

  function Next(c: Config, s: State, a: Action): State
    requires Valid(c) && Shape(c, s.net) && LogShape(c, s.log) && Enabled(c, s.net, a)
  {
    State(Step(c, s.net, a), LogStep(c, s.net, s.log, a))
  }

  lemma {:induction false} Before(c: Config, s: State, a: Action, rest: seq<Action>, u: State)
    requires Good(c, s) && Valid(c) && Shape(c, s.net) && LogShape(c, s.log) && Enabled(c, s.net, a)
    requires Leads(c, Next(c, s, a), rest, u) && Lossless([a])
    ensures Leads(c, s, [a] + rest, u)
  {
    hide Step, LogStep, Enabled, Good;
    var actions := [a] + rest;
    assert actions[0] == a && actions[1..] == rest;
    assert a in [a] && forall x | x in actions :: x in [a] || x in rest;
    Shapes(c, Next(c, s, a));
  }

  /** One more action after a run. */
  lemma {:induction false} Then(c: Config, s: State, actions: seq<Action>, t: State, a: Action) returns (u: State)
    requires Leads(c, s, actions, t) && !a.LoseOnLink? && !a.LoseInQueue?
    requires Valid(c) && Shape(c, t.net) && LogShape(c, t.log) && Enabled(c, t.net, a)
    requires a.SendNext? ==> Apart(c, t.net.hosts[a.host].next)
    ensures u == Next(c, t, a) && Leads(c, s, actions + [a], u)
    decreases |actions|
  {
    hide Step, LogStep, Enabled;
    u := Next(c, t, a);
    StepInv(c, t.net, t.log, a);
    hide Good;
    Shapes(c, s);
    if actions == [] {
      assert s == t;
      Stay(c, u);
      Before(c, s, a, [], u);
      assert [a] + [] == actions + [a];
    } else {
      assert actions == [actions[0]] + actions[1..];
      MiddleGood(c, s, actions, t);
      var m := Next(c, s, actions[0]);
      Shapes(c, m);
      var v := Then(c, m, actions[1..], t, a);
      Before(c, s, actions[0], actions[1..] + [a], u);
      assert [actions[0]] + (actions[1..] + [a]) == actions + [a];
    }
  }

  /** The state after the first action: if that sends, the end shows that it may. */
  lemma {:induction false} MiddleGood(c: Config, s: State, actions: seq<Action>, t: State)
    requires Leads(c, s, actions, t) && actions != []
    ensures Valid(c) && Shape(c, s.net) && LogShape(c, s.log) && Enabled(c, s.net, actions[0])
    ensures Good(c, Next(c, s, actions[0])) && Leads(c, Next(c, s, actions[0]), actions[1..], t)
  {
    hide Inv, Step, LogStep, Apart;
    Shapes(c, s);
    Shapes(c, t);
    var a := actions[0];
    if a.SendNext? {
      StepNext(c, s.net, a, a.host);
      NextGrows(c, Step(c, s.net, a), actions[1..], a.host);
      GoodApart(c, t, a.host, s.net.hosts[a.host].next);
    }
    StepInv(c, s.net, s.log, a);
  }

  lemma {:induction false} GoodApart(c: Config, s: State, h: nat, p: nat)
    requires Good(c, s) && h < c.size && Shape(c, s.net) && p < s.net.hosts[h].next
    ensures c.len > 0 && Apart(c, p)
  {
    hide Apart, SlotOk, WaitingOk, ResultOk;
    assert LinkOk(c, s.net.links[h], s.net.hosts[h].next, s.log.top[h]);
  }

  lemma {:induction false} End(c: Config, s0: State, run: seq<Action>, s: State)
    requires Leads(c, s0, run, s)
    ensures Good(c, s) && Valid(c) && Shape(c, s.net) && LogShape(c, s.log)
  {
  }

  lemma {:induction false} HostFacts(c: Config, s: State, h: nat)
    requires Good(c, s) && h < c.size
    ensures Shape(c, s.net)
    ensures var host := s.net.hosts[h];
            && c.base <= host.ack <= host.next <= host.ack + c.win
            && (forall p: nat | c.base <= p < host.ack :: p in host.got)
            && (forall p | p in host.got :: p < host.next)
  {
    hide LinkOk, SlotOk, WaitingOk, ResultOk;
    assert HostOk(c.base, c.win, s.net.hosts[h]);
  }

  // ----- getting one packet of one host to the switch

  /** `h` is among the ranks heard for `p`. */
  predicate HeardFrom(s: State, p: nat, h: nat) {
    p in s.log.order && h in s.log.order[p]
  }

  /** While some host lacks the result of a psn that was heard, its slot is at that psn. */
  lemma {:induction false} AtPsn(c: Config, s: State, p: nat, h: nat)
    requires Good(c, s) && h < c.size && p in s.log.order && p !in s.net.hosts[h].got
    ensures c.len > 0 && |s.log.at| == c.len && s.log.at[Index(c, p)] == p
  {
    hide LinkOk, WaitingOk, ResultOk, HostOk, Folded;
    var i := Index(c, p);
    assert p <= s.log.at[i];
    assert SlotOk(c, s.net.slots[i], s.log, i);
    if s.log.at[i] > p {
      assert Apart(c, s.log.at[i]);
      LaneBehindIsHeld(c, s.net, s.log, i, h, p);
    }
  }

  /** Hosts are as they were, and neither ranks heard for `p` nor completeness are forgotten. */
  ghost predicate Calm(c: Config, s: State, t: State, p: nat) {
    && t.net.hosts == s.net.hosts && |t.net.links| == c.size && s.net.sent <= t.net.sent
    && (forall x: nat | HeardFrom(s, p, x) :: HeardFrom(t, p, x))
    && (forall q: nat | Complete(c, s.log, q) :: Complete(c, t.log, q))
  }

  lemma {:induction false} CalmTwice(c: Config, s: State, t: State, u: State, p: nat)
    requires Calm(c, s, t, p) && Calm(c, t, u, p)
    ensures Calm(c, s, u, p)
  {
    hide Complete;
  }

  /** While some host lacks `p`, no first pass of any packet forgets a rank heard for it. */
  lemma {:induction false} FirstPassCalm(c: Config, s: State, h: nat, p: nat, g: nat)
    requires Good(c, s) && Valid(c) && Shape(c, s.net) && LogShape(c, s.log) && Enabled(c, s.net, FirstPass(h))
    requires g < c.size && p !in s.net.hosts[g].got
    ensures Calm(c, s, Next(c, s, FirstPass(h)), p)
    ensures s.net.links[h][0] == p ==> HeardFrom(Next(c, s, FirstPass(h)), p, h)
    ensures Next(c, s, FirstPass(h)).net.links == s.net.links[h := s.net.links[h][1..]]
  {
    hide Inv;
    FirstPassCompletes(c, s.net, s.log, h);
    StaysComplete(c, s.net, s.log, h);
    if p in s.log.order {
      AtPsn(c, s, p, g);
    }
  }

  lemma {:induction false} SecondPassCalm(c: Config, s: State, p: nat)
    requires Valid(c) && Shape(c, s.net) && LogShape(c, s.log) && Enabled(c, s.net, SecondPass)
    ensures var t := Next(c, s, SecondPass);
            Calm(c, s, t, p) && t.net.queue == s.net.queue[1..] && t.net.links == s.net.links
  {
    SameComplete(c, s, Next(c, s, SecondPass));
  }

  /** All that the link of `h` carries goes through its first pass, while `g` lacks `p`. */
  lemma {:induction false} DrainLink(c: Config, s0: State, run: seq<Action>, s: State, h: nat, p: nat, g: nat)
    returns (run': seq<Action>, t: State)
    requires Leads(c, s0, run, s) && h < c.size && |s.net.hosts| == c.size && g < c.size && p !in s.net.hosts[g].got
    ensures |s.net.links| == c.size
    ensures Leads(c, s0, run', t) && Calm(c, s, t, p) && t.net.links == s.net.links[h := []]
    decreases if h < |s.net.links| then |s.net.links[h]| else 0
  {
    hide Leads, Good, Calm, Next;
    End(c, s0, run, s);
    if s.net.links[h] == [] {
      run', t := run, s;
      CalmSelf(c, s, p);
    } else {
      FirstPassCalm(c, s, h, p, g);
      var u := Then(c, s0, run, s, FirstPass(h));
      CalmHosts(c, s, u, p);
      run', t := DrainLink(c, s0, run + [FirstPass(h)], u, h, p, g);
      CalmHosts(c, u, t, p);
      CalmTwice(c, s, u, t, p);
    }
  }

  lemma {:induction false} CalmSelf(c: Config, s: State, p: nat)
    requires |s.net.links| == c.size
    ensures Calm(c, s, s, p)
  {
  }

  lemma {:induction false} CalmHosts(c: Config, s: State, t: State, p: nat)
    requires Calm(c, s, t, p)
    ensures t.net.hosts == s.net.hosts && |t.net.links| == c.size
  {
    hide Complete;
  }

  /** All that waits goes through its second pass. */
  lemma {:induction false} DrainQueue(c: Config, s0: State, run: seq<Action>, s: State, p: nat)
    returns (run': seq<Action>, t: State)
    requires Leads(c, s0, run, s)
    ensures Leads(c, s0, run', t) && Calm(c, s, t, p) && t.net.queue == [] && t.net.links == s.net.links
    decreases |s.net.queue|
  {
    hide Leads, Good, Calm, Next;
    End(c, s0, run, s);
    if s.net.queue == [] {
      run', t := run, s;
      CalmSelf(c, s, p);
    } else {
      SecondPassCalm(c, s, p);
      var u := Then(c, s0, run, s, SecondPass);
      run', t := DrainQueue(c, s0, run + [SecondPass], u, p);
      CalmTwice(c, s, u, t, p);
    }
  }

  /** Every host holds all results before `p`. */
  ghost predicate AllHold(c: Config, s: State, p: nat) {
    c.base <= p && |s.net.hosts| == c.size && forall h, q: nat | 0 <= h < c.size && c.base <= q < p :: q in s.net.hosts[h].got
  }

  /** So does `h` with those before `b`, and it lacks that of `b`. */
  ghost predicate HoldsUpTo(c: Config, s: State, h: nat, b: nat) {
    && c.base <= b && h < |s.net.hosts| && b !in s.net.hosts[h].got
    && forall q: nat | c.base <= q < b :: q in s.net.hosts[h].got
  }

  function Acked(s: State, h: nat, p: nat): State
    requires h < |s.net.hosts|
  {
    s.(net := s.net.(hosts := s.net.hosts[h := s.net.hosts[h].(ack := p)]))
  }

  lemma {:induction false} OneSlide(c: Config, s: State, h: nat)
    requires Valid(c) && Shape(c, s.net) && LogShape(c, s.log) && Enabled(c, s.net, Slide(h))
    ensures Next(c, s, Slide(h)) == Acked(s, h, s.net.hosts[h].ack + 1)
  {
  }

  lemma {:induction false} AckedTwice(s: State, h: nat, p: nat, q: nat)
    requires h < |s.net.hosts|
    ensures Acked(Acked(s, h, p), h, q) == Acked(s, h, q)
    ensures Acked(s, h, s.net.hosts[h].ack) == s
  {
    var hosts := s.net.hosts;
    assert hosts[h := hosts[h].(ack := p)][h := hosts[h].(ack := q)] == hosts[h := hosts[h].(ack := q)];
    assert hosts[h := hosts[h].(ack := hosts[h].ack)] == hosts;
  }

  lemma {:induction false} AckedHolds(c: Config, s: State, h: nat, a: nat, p: nat)
    requires HoldsUpTo(c, s, h, p)
    ensures HoldsUpTo(c, Acked(s, h, a), h, p)
    ensures Acked(s, h, a).net.hosts[h] == s.net.hosts[h].(ack := a)
  {
  }

  lemma {:induction false} CanSlide(c: Config, s: State, h: nat, p: nat)
    requires Good(c, s) && h < c.size && HoldsUpTo(c, s, h, p)
    ensures s.net.hosts[h].ack <= p && Valid(c) && Shape(c, s.net)
    ensures s.net.hosts[h].ack < p ==> Enabled(c, s.net, Slide(h))
  {
    hide Good;
    Shapes(c, s);
    HostFacts(c, s, h);
    if s.net.hosts[h].ack < p {
      assert s.net.hosts[h].ack in s.net.hosts[h].got;
    }
  }

  /** The window of `h` slides up to the first result it lacks. */
  lemma {:induction false} SlideTo(c: Config, s0: State, run: seq<Action>, s: State, h: nat, p: nat)
    returns (run': seq<Action>, t: State)
    requires Leads(c, s0, run, s) && h < c.size && HoldsUpTo(c, s, h, p)
    ensures s.net.hosts[h].ack <= p
    ensures Leads(c, s0, run', t) && t == Acked(s, h, p)
    decreases p - s.net.hosts[h].ack
  {
    hide Leads, Good, Acked, Next, Enabled, HoldsUpTo;
    End(c, s0, run, s);
    CanSlide(c, s, h, p);
    var ack := s.net.hosts[h].ack;
    AckedTwice(s, h, ack + 1, p);
    if ack == p {
      run', t := run, s;
    } else {
      OneSlide(c, s, h);
      AckedHolds(c, s, h, ack + 1, p);
      var u := Then(c, s0, run, s, Slide(h));
      run', t := SlideTo(c, s0, run + [Slide(h)], u, h, p);
    }
  }

  /** No host went beyond `p` with new packets. */
  ghost predicate NotBeyond(c: Config, s: State, t: State, p: nat) {
    && |s.net.hosts| == |t.net.hosts| == c.size
    && forall x | 0 <= x < c.size :: s.net.hosts[x].next <= t.net.hosts[x].next <= Max(s.net.hosts[x].next, p + 1)
  }

  /** All hosts have the results they had in `s`, and what was heard for `p` or sent is not forgotten. */
  ghost predicate SameResults(c: Config, s: State, t: State, p: nat) {
    && NotBeyond(c, s, t, p) && |t.net.links| == c.size && s.net.sent <= t.net.sent
    && (forall x | 0 <= x < c.size :: t.net.hosts[x].got == s.net.hosts[x].got)
    && (forall x: nat | HeardFrom(s, p, x) :: HeardFrom(t, p, x))
    && (forall q: nat | Complete(c, s.log, q) :: Complete(c, t.log, q))
  }

  /** `h`, with its window from `b` on, has the link to itself with `p` on it. */
  ghost predicate Offers(t: State, h: nat, b: nat, p: nat) {
    && h < |t.net.hosts| && h < |t.net.links| && t.net.links[h] == [p]
    && t.net.hosts[h].ack == b <= p < t.net.hosts[h].next
  }

  /** Other hosts and links are as they were. */
  ghost predicate OthersAlone(c: Config, s: State, t: State, h: nat) {
    && |s.net.hosts| == |t.net.hosts| == |s.net.links| == |t.net.links| == c.size
    && forall x | 0 <= x < c.size && x != h :: t.net.hosts[x] == s.net.hosts[x] && t.net.links[x] == s.net.links[x]
  }

  lemma {:induction false} OfferNext(c: Config, s: State, h: nat, b: nat, p: nat, a: Action)
    requires Valid(c) && Shape(c, s.net) && LogShape(c, s.log) && h < c.size
    requires s.net.hosts[h].ack == b <= p && s.net.links[h] == [] && Enabled(c, s.net, a)
    requires a == Resend(h, p) || (a == SendNext(h) && s.net.hosts[h].next == p)
    ensures var t := Next(c, s, a);
            SameResults(c, s, t, p) && Offers(t, h, b, p) && t.net.queue == s.net.queue && OthersAlone(c, s, t, h)
  {
    hide Apart;
  }

  /** `h` puts `p` on its empty link. */
  lemma {:induction false} Offer(c: Config, s0: State, run: seq<Action>, s: State, h: nat, b: nat, p: nat)
    returns (run': seq<Action>, t: State)
    requires Leads(c, s0, run, s) && h < c.size && |s.net.hosts| == |s.net.links| == c.size
    requires s.net.hosts[h].ack == b <= p < b + c.win && p !in s.net.hosts[h].got && s.net.links[h] == []
    requires p <= s.net.hosts[h].next && c.len > 0 && Apart(c, p)
    ensures Leads(c, s0, run', t)
    ensures SameResults(c, s, t, p) && Offers(t, h, b, p) && t.net.queue == s.net.queue && OthersAlone(c, s, t, h)
  {
    hide Leads, Good, Apart, Next, SameResults, Offers, OthersAlone;
    End(c, s0, run, s);
    HostFacts(c, s, h);
    var a := if s.net.hosts[h].next == p then SendNext(h) else Resend(h, p);
    OfferNext(c, s, h, b, p, a);
    t := Then(c, s0, run, s, a);
    run' := run + [a];
  }

  /** `h`, which holds all before `b`, offers `p` of its window. */
  ghost predicate MayOffer(c: Config, s: State, h: nat, b: nat, p: nat) {
    && h < c.size && HoldsUpTo(c, s, h, b)
    && b <= p < b + c.win && p !in s.net.hosts[h].got && p <= s.net.hosts[h].next
  }

  /** A host that holds all before `p` may offer `p`. */
  lemma {:induction false} FirstLacking(c: Config, s: State, h: nat, p: nat)
    requires Good(c, s) && h < c.size && HoldsUpTo(c, s, h, p)
    ensures MayOffer(c, s, h, p, p)
  {
    hide Good;
    Shapes(c, s);
    HostFacts(c, s, h);
    if p > c.base {
      assert p - 1 in s.net.hosts[h].got;
    }
  }

  lemma {:induction false} Prepare(c: Config, s0: State, run: seq<Action>, s: State, h: nat, b: nat, p: nat)
    returns (run': seq<Action>, t: State)
    requires Leads(c, s0, run, s) && |s.net.hosts| == c.size && MayOffer(c, s, h, b, p)
    requires c.len > 0 && Apart(c, p)
    ensures Leads(c, s0, run', t) && SameResults(c, s, t, p) && Offers(t, h, b, p) && t.net.queue == []
    ensures OthersAlone(c, s, t, h)
  {
    hide Leads, Good, Apart, Offers, Calm, SameResults, OthersAlone;
    End(c, s0, run, s);
    var r1, s1 := DrainLink(c, s0, run, s, h, p, h);
    CalmHosts(c, s, s1, p);
    var r2, s2 := DrainQueue(c, s0, r1, s1, p);
    CalmHosts(c, s1, s2, p);
    CalmTwice(c, s, s1, s2, p);
    var r3, s3 := SlideTo(c, s0, r2, s2, h, b);
    Prepared(c, s, s2, h, b, p);
    run', t := Offer(c, s0, r3, s3, h, b, p);
    SameTwice(c, s, s3, t, p);
    OthersTwice(c, s, s3, t, h);
  }

  lemma {:induction false} Prepared(c: Config, s: State, s2: State, h: nat, b: nat, p: nat)
    requires Calm(c, s, s2, p) && |s.net.hosts| == |s.net.links| == c.size && h < c.size
    requires s2.net.links == s.net.links[h := []]
    ensures var s3 := Acked(s2, h, b);
            && SameResults(c, s, s3, p) && s3.net.hosts[h] == s.net.hosts[h].(ack := b)
            && s3.net.links == s2.net.links && s3.net.queue == s2.net.queue && OthersAlone(c, s, s3, h)
  {
    hide Complete;
  }

  lemma {:induction false} OthersTwice(c: Config, s: State, t: State, u: State, h: nat)
    requires OthersAlone(c, s, t, h) && OthersAlone(c, t, u, h)
    ensures OthersAlone(c, s, u, h)
  {
  }

  lemma {:induction false} SameTwice(c: Config, s: State, t: State, u: State, p: nat)
    requires SameResults(c, s, t, p) && SameResults(c, t, u, p)
    ensures SameResults(c, s, u, p)
  {
    hide Complete;
  }

  // ----- everybody contributes

  /** Results and completeness are never lost, and nothing beyond `p` is started. */
  ghost predicate Keeps(c: Config, s: State, t: State, p: nat) {
    && NotBeyond(c, s, t, p)
    && (forall h, q | 0 <= h < c.size && q in s.net.hosts[h].got :: q in t.net.hosts[h].got)
    && (forall q: nat | Complete(c, s.log, q) :: Complete(c, t.log, q))
  }

  /** `h` gets its packet of `p` through a first pass. */
  lemma {:induction false} Contribute(c: Config, s0: State, run: seq<Action>, s: State, h: nat, b: nat, p: nat)
    returns (run': seq<Action>, t: State)
    requires Leads(c, s0, run, s) && |s.net.hosts| == c.size && MayOffer(c, s, h, b, p)
    requires c.len > 0 && Apart(c, p)
    ensures Leads(c, s0, run', t) && HeardFrom(t, p, h) && SameResults(c, s, t, p)
    ensures t.net.hosts[h].next > p && forall x | 0 <= x < c.size && x != h :: t.net.hosts[x] == s.net.hosts[x]
  {
    hide Leads, Good, Apart, Complete, Next;
    var r, u := Prepare(c, s0, run, s, h, b, p);
    End(c, s0, r, u);
    t := Then(c, s0, r, u, FirstPass(h));
    run' := r + [FirstPass(h)];
    FirstPassCalm(c, u, h, p, h);
  }

  /** The first `k` hosts contribute to `p`, each from its own window. */
  lemma {:induction false} AllContribute(c: Config, s0: State, run: seq<Action>, s: State, b: seq<nat>, p: nat, k: nat)
    returns (run': seq<Action>, t: State)
    requires Leads(c, s0, run, s) && k <= c.size == |b| == |s.net.hosts| && c.len > 0 && Apart(c, p)
    requires forall h | 0 <= h < c.size :: MayOffer(c, s, h, b[h], p)
    ensures Leads(c, s0, run', t) && SameResults(c, s, t, p)
    ensures forall h | 0 <= h < k :: HeardFrom(t, p, h) && t.net.hosts[h].next > p
    ensures forall h | k <= h < c.size :: t.net.hosts[h] == s.net.hosts[h]
    decreases k
  {
    hide Leads, Good, Apart, Complete, HeardFrom;
    if k == 0 {
      SameSelf(c, s0, run, s, p);
      run', t := run, s;
    } else {
      var r, u := AllContribute(c, s0, run, s, b, p, k - 1);
      assert MayOffer(c, s, k - 1, b[k - 1], p);
      run', t := Contribute(c, s0, r, u, k - 1, b[k - 1], p);
      SameTwice(c, s, u, t, p);
    }
  }

  lemma {:induction false} SameSelf(c: Config, s0: State, run: seq<Action>, s: State, p: nat)
    requires Leads(c, s0, run, s)
    ensures SameResults(c, s, s, p)
  {
    hide Leads;
    End(c, s0, run, s);
  }

  /** Once every rank is heard, the psn is complete. */
  lemma {:induction false} AllHeard(c: Config, s: State, p: nat, h: nat)
    requires Good(c, s) && h < c.size && p !in s.net.hosts[h].got
    requires forall x: nat | x < c.size :: HeardFrom(s, p, x)
    ensures Complete(c, s.log, p)
  {
    hide LinkOk, WaitingOk, ResultOk, HostOk, Folded;
    assert HeardFrom(s, p, h);
    AtPsn(c, s, p, h);
    var i := Index(c, p);
    assert SlotOk(c, s.net.slots[i], s.log, i);
    forall r: nat
      ensures r in ToSet(s.log.order[p]) <==> r in Ranks(c.size)
    {
      if r < c.size {
        assert HeardFrom(s, p, r);
      }
    }
  }

  // ----- everybody fetches

  lemma {:induction false} AfterFetch(c: Config, u: State, h: nat, p: nat)
    requires Good(c, u) && h < c.size && Valid(c) && Shape(c, u.net) && LogShape(c, u.log)
    requires u.net.links[h] == [p] && u.net.queue == [] && p !in u.net.hosts[h].got && Complete(c, u.log, p)
    ensures var t := Next(c, u, FirstPass(h));
            && t.net.hosts == u.net.hosts
            && |t.net.queue| == 1 && t.net.queue[0].rank == h && t.net.queue[0].psn == p && !t.net.queue[0].multicast
  {
    hide Inv, ReadOdd, Strip;
    Recovers(c, u.net, u.log, h);
  }

  /** A unicast result comes out of the second pass. */
  lemma {:induction false} AfterSecondPass(c: Config, u: State)
    requires Valid(c) && Shape(c, u.net) && LogShape(c, u.log) && u.net.queue != [] && !u.net.queue[0].multicast
    ensures var t := Next(c, u, SecondPass); var w := u.net.queue[0];
            t.net.hosts == u.net.hosts && t.log.order == u.log.order
            && exists result :: Message(w.rank, w.psn, result) in t.net.sent
  {
    hide ReadOdd, Strip;
    var w := u.net.queue[0];
    var result := Strip(c.coll(w.psn), w.rank, ReadOdd(u.net.slots[Index(c, w.psn)].row, w.payload));
    assert w.rank in Receivers(c, w);
    assert Message(w.rank, w.psn, result) in Next(c, u, SecondPass).net.sent;
  }

  lemma {:induction false} AfterAccept(c: Config, u: State, m: Message)
    requires Valid(c) && Shape(c, u.net) && LogShape(c, u.log) && Enabled(c, u.net, Accept(m))
    requires u.net.hosts[m.rank].ack <= m.psn < u.net.hosts[m.rank].next
    ensures var t := Next(c, u, Accept(m));
            && t.log == u.log && Keeps(c, u, t, m.psn)
            && t.net.hosts[m.rank].got.Keys == u.net.hosts[m.rank].got.Keys + {m.psn}
            && forall x | 0 <= x < c.size && x != m.rank :: t.net.hosts[x] == u.net.hosts[x]
  {
    hide Complete;
  }

  lemma {:induction false} SameThenCalm(c: Config, s: State, t: State, u: State, p: nat)
    requires SameResults(c, s, t, p) && Calm(c, t, u, p)
    ensures SameResults(c, s, u, p)
  {
    hide Complete;
  }

  /** A result of `p` for `h`, with its window from `b` on, is put out. */
  lemma {:induction false} Obtain(c: Config, s0: State, run: seq<Action>, s: State, h: nat, b: nat, p: nat)
    returns (run': seq<Action>, t: State, m: Message)
    requires Leads(c, s0, run, s) && |s.net.hosts| == c.size && MayOffer(c, s, h, b, p)
    requires c.len > 0 && Apart(c, p) && Complete(c, s.log, p)
    ensures Leads(c, s0, run', t) && SameResults(c, s, t, p)
    ensures m in t.net.sent && m.rank == h && m.psn == p
    ensures t.net.hosts[h].ack == b <= p < t.net.hosts[h].next
    ensures forall x | 0 <= x < c.size && x != h :: t.net.hosts[x] == s.net.hosts[x]
  {
    hide Leads, Good, Apart, Complete, Next, SameResults;
    var r, u := Prepare(c, s0, run, s, h, b, p);
    SameKeeps(c, s, u, p);
    End(c, s0, r, u);
    FirstPassCalm(c, u, h, p, h);
    AfterFetch(c, u, h, p);
    var v := Then(c, s0, r, u, FirstPass(h));
    SameThenCalm(c, s, u, v, p);
    r := r + [FirstPass(h)];
    End(c, s0, r, v);
    AfterSecondPass(c, v);
    SecondPassCalm(c, v, p);
    t := Then(c, s0, r, v, SecondPass);
    SameThenCalm(c, s, v, t, p);
    run' := r + [SecondPass];
    var result :| Message(h, p, result) in t.net.sent;
    m := Message(h, p, result);
  }

  lemma {:induction false} SameKeeps(c: Config, s: State, t: State, p: nat)
    requires SameResults(c, s, t, p)
    ensures Keeps(c, s, t, p)
    ensures forall x | 0 <= x < c.size :: t.net.hosts[x].got == s.net.hosts[x].got
  {
    hide Complete;
  }

  /** `h` gets the result of the complete psn `p`. */
  lemma {:induction false} Fetch(c: Config, s0: State, run: seq<Action>, s: State, h: nat, p: nat)
    returns (run': seq<Action>, t: State)
    requires Leads(c, s0, run, s) && |s.net.hosts| == c.size && MayOffer(c, s, h, p, p)
    requires c.len > 0 && Apart(c, p) && Complete(c, s.log, p)
    ensures Leads(c, s0, run', t) && Keeps(c, s, t, p)
    ensures t.net.hosts[h].got.Keys == s.net.hosts[h].got.Keys + {p}
    ensures forall x | 0 <= x < c.size && x != h :: t.net.hosts[x] == s.net.hosts[x]
  {
    hide Leads, Good, Apart, Complete, Next, SameResults;
    var r, u, m := Obtain(c, s0, run, s, h, p, p);
    SameKeeps(c, s, u, p);
    End(c, s0, r, u);
    AfterAccept(c, u, m);
    t := Then(c, s0, r, u, Accept(m));
    run' := r + [Accept(m)];
  }

  lemma {:induction false} SameComplete(c: Config, s: State, t: State)
    requires s.log.order == t.log.order
    ensures forall q: nat :: Complete(c, s.log, q) <==> Complete(c, t.log, q)
  {
  }

  /** The first `k` hosts get the result of the complete psn `p`. */
  lemma {:induction false} AllFetch(c: Config, s0: State, run: seq<Action>, s: State, p: nat, k: nat)
    returns (run': seq<Action>, t: State)
    requires Leads(c, s0, run, s) && k <= c.size && AllHold(c, s, p)
    requires c.len > 0 && Apart(c, p) && Complete(c, s.log, p)
    ensures Leads(c, s0, run', t) && Keeps(c, s, t, p)
    ensures forall h | 0 <= h < k :: p in t.net.hosts[h].got
    decreases k
  {
    hide Leads, Good, Apart, Complete;
    if k == 0 {
      run', t := run, s;
    } else {
      run', t := AllFetch(c, s0, run, s, p, k - 1);
      if p !in t.net.hosts[k - 1].got {
        End(c, s0, run', t);
        assert HoldsUpTo(c, t, k - 1, p);
        FirstLacking(c, t, k - 1, p);
        run', t := Fetch(c, s0, run', t, k - 1, p);
      }
    }
  }

  /** One more result for everybody. */
  lemma {:induction false} Advance(c: Config, s0: State, run: seq<Action>, s: State, p: nat)
    returns (run': seq<Action>, t: State)
    requires Leads(c, s0, run, s) && AllHold(c, s, p) && c.len > 0 && Apart(c, p)
    ensures Leads(c, s0, run', t) && Keeps(c, s, t, p) && AllHold(c, t, p + 1)
  {
    hide Leads, Good, Apart, Complete;
    End(c, s0, run, s);
    run', t := run, s;
    if h :| 0 <= h < c.size && p in s.net.hosts[h].got {
      HeldComplete(c, s, h, p);
    } else {
      forall h | 0 <= h < c.size
        ensures MayOffer(c, s, h, p, p)
      {
        assert HoldsUpTo(c, s, h, p);
        FirstLacking(c, s, h, p);
      }
      run', t := AllContribute(c, s0, run, s, seq(c.size, h => p), p, c.size);
      End(c, s0, run', t);
      assert 0 < c.size;
      AllHeard(c, t, p, 0);
    }
    run', t := AllFetch(c, s0, run', t, p, c.size);
  }

  lemma {:induction false} HeldComplete(c: Config, s: State, h: nat, p: nat)
    requires Good(c, s) && h < c.size && |s.net.hosts| == c.size && p in s.net.hosts[h].got
    ensures Complete(c, s.log, p)
  {
    hide LinkOk, WaitingOk, HostOk, SlotOk;
    assert ResultOk(c, s.log, h, p, s.net.hosts[h].got[p]);
  }

  lemma {:induction false} Everyone(c: Config, s0: State, p: nat) returns (run: seq<Action>, t: State)
    requires Good(c, s0) && Valid(c) && c.base <= p && forall q: nat | q < p :: Apart(c, q)
    ensures Leads(c, s0, run, t) && AllHold(c, t, p)
    ensures (forall h | 0 <= h < |s0.net.hosts| :: s0.net.hosts[h].next <= c.base) ==>
              forall h | 0 <= h < c.size :: t.net.hosts[h].next <= p
    decreases p
  {
    hide Leads, Apart;
    if p == c.base {
      Stay(c, s0);
      Shapes(c, s0);
      run, t := [], s0;
    } else {
      run, t := Everyone(c, s0, p - 1);
      run, t := Advance(c, s0, run, t, p - 1);
    }
  }

  /** Every host holds all results before `p`, and nothing is on the way to the switch or waits for its second pass. */
  ghost predicate Settled(c: Config, net: Net, p: nat) {
    && |net.hosts| == |net.links| == c.size
    && (forall h, q: nat | 0 <= h < c.size && c.base <= q < p :: q in net.hosts[h].got)
    && (forall h | 0 <= h < c.size :: net.links[h] == [])
    && net.queue == []
  }

  /** The links of the first `k` hosts, one after the other, and then the queue, are worked off. */
  lemma {:induction false} SettleLinks(c: Config, s0: State, run: seq<Action>, s: State, k: nat)
    returns (run': seq<Action>, t: State)
    requires Leads(c, s0, run, s) && k <= c.size
    ensures Leads(c, s0, run', t) && t.net.hosts == s.net.hosts && |t.net.links| == c.size
    ensures forall h | 0 <= h < k :: t.net.links[h] == []
    decreases k
  {
    hide Leads, Good;
    End(c, s0, run, s);
    if k == 0 {
      run', t := run, s;
    } else {
      run', t := SettleLinks(c, s0, run, s, k - 1);
      End(c, s0, run', t);
      run', t := WorkOff(c, s0, run', t, k - 1);
    }
  }

  /** All that the link of `h` carries goes through its first pass. */
  lemma {:induction false} WorkOff(c: Config, s0: State, run: seq<Action>, s: State, h: nat)
    returns (run': seq<Action>, t: State)
    requires Leads(c, s0, run, s) && h < c.size
    ensures |s.net.links| == c.size
    ensures Leads(c, s0, run', t) && t.net.hosts == s.net.hosts && t.net.links == s.net.links[h := []]
    ensures s.net.queue <= t.net.queue
    decreases if h < |s.net.links| then |s.net.links[h]| else 0
  {
    hide Leads, Good;
    End(c, s0, run, s);
    if s.net.links[h] == [] {
      run', t := run, s;
    } else {
      var u := Then(c, s0, run, s, FirstPass(h));
      FirstPassHosts(c, s, h);
      run', t := WorkOff(c, s0, run + [FirstPass(h)], u, h);
    }
  }

  lemma {:induction false} FirstPassHosts(c: Config, s: State, h: nat)
    requires Valid(c) && Shape(c, s.net) && LogShape(c, s.log) && Enabled(c, s.net, FirstPass(h))
    ensures var t := Next(c, s, FirstPass(h));
            && t.net.hosts == s.net.hosts && t.net.links == s.net.links[h := s.net.links[h][1..]]
            && s.net.queue <= t.net.queue
  {
    hide Decide, Absorb, Data;
  }

  lemma {:induction false} Settle(c: Config, s0: State, run: seq<Action>, s: State, p: nat)
    returns (run': seq<Action>, t: State)
    requires Leads(c, s0, run, s) && AllHold(c, s, p)
    ensures Leads(c, s0, run', t) && Settled(c, t.net, p)
  {
    hide Leads, Calm;
    var r, u := SettleLinks(c, s0, run, s, c.size);
    run', t := DrainQueue(c, s0, r, u, p);
    CalmHosts(c, u, t, p);
  }

  /**
   * No run is ever stuck: whatever was lost, delayed or duplicated so far, there is a continuation that loses nothing
   * more, after which every host holds each of the results before `p` and nothing is pending at the switch.
   */
  lemma {:induction false} NeverStuck(c: Config, start: Net, actions: seq<Action>, p: nat)
    requires Valid(c) && Initial(c, start) && Run(c, start, actions)
    requires AllApart(c, Final(c, start, actions)) && forall q: nat | q < p :: Apart(c, q)
    ensures var net := Final(c, start, actions);
            exists more: seq<Action> ::
              && (forall a | a in more :: !a.LoseOnLink? && !a.LoseInQueue?)
              && Run(c, net, more) && Shape(c, Final(c, net, more))
              && var end := Final(c, net, more);
                 && (forall h, q: nat | 0 <= h < c.size && c.base <= q < p :: q in end.hosts[h].got)
                 && (forall h | 0 <= h < c.size :: end.links[h] == []) && end.queue == []
  {
    hide Inv, Apart, Settled;
    StartInv(c, start);
    RunInv(c, start, StartLog(c), actions);
    var s := State(Final(c, start, actions), FinalLog(c, start, StartLog(c), actions));
    Shapes(c, s);
    var q := if p < c.base then c.base else p;
    BelowBase(c);
    var more, t := Everyone(c, s, q);
    more, t := Settle(c, s, more, t, q);
    Shapes(c, t);
    Sooner(c, t.net, p, q);
    assert Lossless(more) && Run(c, s.net, more) && Final(c, s.net, more) == t.net;
  }

  lemma {:induction false} BelowBase(c: Config)
    requires c.len > 0
    ensures forall q: nat | q <= c.base :: Apart(c, q)
  {
  }

  lemma {:induction false} Sooner(c: Config, net: Net, p: nat, q: nat)
    requires Settled(c, net, q) && p <= q
    ensures (forall h, r: nat | 0 <= h < c.size && c.base <= r < p :: r in net.hosts[h].got)
    ensures (forall h | 0 <= h < c.size :: net.links[h] == []) && net.queue == []
  {
  }
}
