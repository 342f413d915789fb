/** What a host may do in the protocol, as events, and runs of them. */
module HostSteps {
  import opened DataPlane
  import opened Collectives
  import opened Protocol

  datatype Event = Sent(psn: nat) | Resent(psn: nat) | Took(psn: nat, result: Option<Payload>) | Slid

  /** One step of a host with window `win`, if it is allowed. */
  function Play1(win: nat, host: Host, e: Event): Option<Host> {
    match e
    case Sent(p) =>
      if p == host.next && host.next < host.ack + win then Some(host.(next := host.next + 1)) else None
    case Resent(p) => if host.ack <= p < host.next && p !in host.got then Some(host) else None
    case Took(p, r) =>
      Some(if host.ack <= p < host.next && p !in host.got then host.(got := host.got[p := r]) else host)
    case Slid => if host.ack < host.next && host.ack in host.got then Some(host.(ack := host.ack + 1)) else None
  }

  function Play(win: nat, host: Host, events: seq<Event>): Option<Host>
    decreases |events|
  {
    if events == [] then Some(host)
    else
      match Play(win, host, events[..|events| - 1])
      case None => None
      case Some(before) => Play1(win, before, events[|events| - 1])
  }

  lemma {:induction false} PlayMore(win: nat, host: Host, events: seq<Event>, e: Event)
    ensures Play(win, host, events + [e])
         == match Play(win, host, events) case None => None case Some(before) => Play1(win, before, e)
  {
    assert (events + [e])[..|events|] == events;
  }

  /** The psns that the events put on the host's link. */
  function Sends(events: seq<Event>): seq<nat>
    decreases |events|
  {
    if events == [] then []
    else
      var e := events[|events| - 1];
      Sends(events[..|events| - 1])
      + match e case Sent(p) => [p] case Resent(p) => [p] case _ => []
  }

  /** The protocol's action for an event of host `h`. */
  function ActionOf(h: nat, e: Event): Action {
    match e
    case Sent(p) => SendNext(h)
    case Resent(p) => Resend(h, p)
    case Took(p, r) => Accept(Message(h, p, r))
    case Slid => Slide(h)
  }

  /** The network lets the event happen: a result taken has been sent. */
  ghost predicate Possible(c: Config, net: Net, h: nat, e: Event)
    requires c.len > 0
  {
    match e
    case Took(p, r) => Message(h, p, r) in net.sent
    case _ => true
  }

  /** `net` after host `h` moved to `host` and put `sends` on its link. */
  function Moved(net: Net, h: nat, host: Host, sends: seq<nat>): Net
    requires h < |net.hosts| && h < |net.links|
  {
    net.(hosts := net.hosts[h := host], links := net.links[h := net.links[h] + sends])
  }

  lemma {:induction false} StepOf(c: Config, net: Net, h: nat, host: Host, sends: seq<nat>, e: Event)
    requires Protocol.Valid(c) && Shape(c, net) && h < c.size && Possible(c, net, h, e)
    requires Play1(c.win, host, e).Some?
    ensures var at := Moved(net, h, host, sends);
            && Shape(c, at) && Enabled(c, at, ActionOf(h, e))
            && Step(c, at, ActionOf(h, e)) == Moved(net, h, Play1(c.win, host, e).value, sends + Sends([e]))
  {
    hide Index, OnFirstPass, OnSecondPass;
    OneSend(e);
    var at := Moved(net, h, host, sends);
    MovedTwice(net, h, host, sends, Play1(c.win, host, e).value, Sends([e]));
    assert at.hosts[h] == host && at.links[h] == net.links[h] + sends;
    match e
    case Sent(p) =>
    case Resent(p) =>
    case Took(p, r) => assert at.links[h] + [] == at.links[h] && at.links[h := at.links[h]] == at.links;
    case Slid => assert at.links[h] + [] == at.links[h] && at.links[h := at.links[h]] == at.links;
  }

  lemma {:induction false} MovedTwice(net: Net, h: nat, host: Host, sends: seq<nat>, after: Host, more: seq<nat>)
    requires h < |net.hosts| && h < |net.links|
    ensures Moved(Moved(net, h, host, sends), h, after, more) == Moved(net, h, after, sends + more)
  {
    assert net.hosts[h := host][h := after] == net.hosts[h := after];
    assert net.links[h] + sends + more == net.links[h] + (sends + more);
    var link, all := net.links[h] + sends, net.links[h] + (sends + more);
    assert net.links[h := link][h := all] == net.links[h := all];
  }

  lemma {:induction false} OneSend(e: Event)
    ensures Sends([e]) == match e case Sent(p) => [p] case Resent(p) => [p] case _ => []
  {
    assert [e][..0] == [] && [e][0] == e;
    assert Sends([]) == [];
  }

  /** What a window plays is a run of the protocol that changes nothing but its own host and link. */
  lemma {:induction false} PlayIsRun(c: Config, net: Net, h: nat, events: seq<Event>) returns (actions: seq<Action>)
    requires Protocol.Valid(c) && Shape(c, net) && h < c.size
    requires forall e | e in events :: Possible(c, net, h, e)
    requires Play(c.win, net.hosts[h], events).Some?
    ensures Run(c, net, actions)
    ensures Final(c, net, actions) == Moved(net, h, Play(c.win, net.hosts[h], events).value, Sends(events))
    decreases |events|
  {
    hide Play1, Enabled, Step, Possible, ActionOf;
    if events == [] {
      actions := [];
      assert net.links[h] + [] == net.links[h];
      assert net.hosts[h := net.hosts[h]] == net.hosts && net.links[h := net.links[h]] == net.links;
    } else {
      var front, e := events[..|events| - 1], events[|events| - 1];
      assert forall x | x in front :: x in events;
      var before := PlayIsRun(c, net, h, front);
      var host := Play(c.win, net.hosts[h], front).value;
      StepOf(c, net, h, host, Sends(front), e);
      RunThen(c, net, before, ActionOf(h, e));
      actions := before + [ActionOf(h, e)];
      OneSend(e);
      assert Sends(events) == Sends(front) + Sends([e]);
    }
  }

  lemma {:induction false} SendsMore(events: seq<Event>, e: Event)
    ensures Sends(events + [e]) == Sends(events) + match e case Sent(p) => [p] case Resent(p) => [p] case _ => []
  {
    assert (events + [e])[..|events|] == events;
  }

  lemma {:induction false} SendsConcat(a: seq<Event>, b: seq<Event>)
    ensures Sends(a + b) == Sends(a) + Sends(b)
    decreases |b|
  {
    if b == [] {
      assert a + b == a;
    } else {
      var front, e := b[..|b| - 1], b[|b| - 1];
      SendsConcat(a, front);
      assert a + b == a + front + [e] && b == front + [e];
      SendsMore(a + front, e);
      SendsMore(front, e);
    }
  }

  // ----- one of the hosts of all groups

  /** Since `h0`, exactly the events happened, all of the host of group `g`. */
  ghost predicate PlayRun(win: nat, h0: map<nat, Host>, h: map<nat, Host>, g: nat, events: seq<Event>) {
    && g in h0 && g in h && h == h0[g := h[g]]
    && Play(win, h0[g], events) == Some(h[g])
  }

  lemma {:induction false} PlayNothing(win: nat, h: map<nat, Host>, g: nat)
    requires g in h
    ensures PlayRun(win, h, h, g, [])
  {
    assert h == h[g := h[g]];
  }

  lemma {:induction false} PlayNext(win: nat, h0: map<nat, Host>, h: map<nat, Host>, g: nat, events: seq<Event>, e: Event)
    requires PlayRun(win, h0, h, g, events) && Play1(win, h[g], e).Some?
    ensures PlayRun(win, h0, h[g := Play1(win, h[g], e).value], g, events + [e])
  {
    hide Play1;
    PlayMore(win, h0[g], events, e);
  }

  /** Since `h0`, exactly the events happened: fresh sends, in order, of the host of group `g`. */
  ghost predicate SentRun(win: nat, h0: map<nat, Host>, h: map<nat, Host>, g: nat, events: seq<Event>) {
    && g in h0 && g in h && h == h0[g := h[g]]
    && Play(win, h0[g], events) == Some(h[g])
    && h[g].next == h0[g].next + |events|
    && forall k | 0 <= k < |events| :: events[k] == Sent(h0[g].next + k)
  }

  lemma {:induction false} SentNothing(win: nat, h: map<nat, Host>, g: nat)
    requires g in h
    ensures SentRun(win, h, h, g, [])
  {
    assert h == h[g := h[g]];
  }

  /** One more send, of another group only if it is the first. */
  lemma {:induction false} SentMore(win: nat, h0: map<nat, Host>, h: map<nat, Host>, from: nat, to: nat, events: seq<Event>)
    requires SentRun(win, h0, h, from, events) && to in h && (from == to || events == [])
    requires var host := h[to]; Play1(win, host, Sent(host.next)) == Some(host.(next := host.next + 1))
    ensures SentRun(win, h0, h[to := h[to].(next := h[to].next + 1)], to, events + [Sent(h[to].next)])
  {
    hide Play, Play1;
    if from != to {
      NothingYet(win, h0, h, from);
      SentNothing(win, h, to);
    }
    PlayMore(win, h0[to], events, Sent(h[to].next));
    assert h[to := h[to].(next := h[to].next + 1)] == h0[to := h[to].(next := h[to].next + 1)];
  }

  lemma {:induction false} NothingYet(win: nat, h0: map<nat, Host>, h: map<nat, Host>, g: nat)
    requires SentRun(win, h0, h, g, [])
    ensures h == h0
  {
    assert h[g] == h0[g];
  }

  // ----- retransmissions

  /** The results from `lo` up to `p` are missing, and the one before `lo` is not. */
  ghost predicate GapFrom(host: Host, lo: nat, p: nat) {
    && host.ack <= lo <= p
    && (forall q | lo <= q < p :: q !in host.got)
    && (lo == host.ack || lo - 1 in host.got)
  }

  lemma {:induction false} SameGap(host: Host, lo: nat, p: nat, result: Option<Payload>)
    requires GapFrom(host.(got := host.got[p := result]), lo, p)
    ensures GapFrom(host, lo, p)
  {
    var after := host.(got := host.got[p := result]);
    forall q | lo <= q < p
      ensures q !in host.got
    {
      assert q !in after.got;
    }
  }

  lemma {:induction false} NoGap(host: Host, p: nat, events: seq<Event>)
    requires host.ack <= p && (p == host.ack || p - 1 in host.got)
    ensures GapFrom(host, p, p) && events + Resends(p, p) == events
  {
  }

  /** Packets `lo` up to `hi`, each sent again. */
  function Resends(lo: int, hi: int): seq<Event>
    requires 0 <= lo <= hi
    decreases hi - lo
  {
    if lo == hi then [] else Resends(lo, hi - 1) + [Resent(hi - 1)]
  }

  lemma {:induction false} ResendStep(win: nat, h0: map<nat, Host>, h: map<nat, Host>, g: nat, events: seq<Event>, q: nat)
    requires PlayRun(win, h0, h, g, events) && h[g].ack <= q < h[g].next && q !in h[g].got
    ensures PlayRun(win, h0, h, g, events + [Resent(q)])
  {
    PlayNext(win, h0, h, g, events, Resent(q));
    assert h[g := h[g]] == h;
  }

  lemma {:induction false} PlayResends(win: nat, h0: map<nat, Host>, h: map<nat, Host>, g: nat, events: seq<Event>,
                                       lo: nat, hi: nat)
    requires PlayRun(win, h0, h, g, events) && g in h && GapFrom(h[g], lo, hi) && hi <= h[g].next
    ensures PlayRun(win, h0, h, g, events + Resends(lo, hi))
    decreases hi - lo
  {
    hide PlayRun;
    if lo == hi {
      assert events + [] == events;
    } else {
      assert GapFrom(h[g], lo, hi - 1);
      PlayResends(win, h0, h, g, events, lo, hi - 1);
      ResendStep(win, h0, h, g, events + Resends(lo, hi - 1), hi - 1);
      assert events + Resends(lo, hi) == events + Resends(lo, hi - 1) + [Resent(hi - 1)];
    }
  }
}
