/** How a worker makes packets out of the requests in its queue, and when that keeps to one group. */
module Generator {
  import opened Protocol

  const PAYLOAD_SIZE: nat := 256
  const GROUPS: nat := 256

  /** A sub-operation waiting in the worker's queue: its group, its bytes and its share of the slots. */
  datatype Request = Request(group: nat, size: nat, aggLen: nat)

  /** Packets of a request; an empty one still sends one. */
  function PktCount(r: Request): (n: nat)
    ensures n >= 1 && r.size <= n * PAYLOAD_SIZE && (n == 1 || (n - 1) * PAYLOAD_SIZE < r.size)
  {
    var n := (r.size + PAYLOAD_SIZE - 1) / PAYLOAD_SIZE;
    if n == 0 then 1 else n
  }

  /** What `gen_pkt` keeps between calls; `sent` is 0 when no request is being processed. */
  datatype Gen = Gen(queue: seq<Request>, sent: nat, startPsn: nat, group: nat, limit: nat, psns: map<nat, nat>)

  /** A new request of another group must wait for `windowEmpty`. */
  predicate CanGen(gen: Gen, windowEmpty: bool) {
    gen.queue != [] && (gen.sent > 0 || gen.group == gen.queue[0].group || windowEmpty)
  }

  function Started(gen: Gen): Gen
    requires gen.queue != [] && gen.queue[0].group in gen.psns
  {
    if gen.sent > 0 then gen
    else
      var r := gen.queue[0];
      gen.(group := r.group, limit := r.aggLen / 2, startPsn := gen.psns[r.group],
           psns := gen.psns[r.group := (gen.psns[r.group] + PktCount(r)) % PSN_WRAP])
  }

  function GenPsn(gen: Gen): nat
    requires gen.queue != [] && gen.queue[0].group in gen.psns
  {
    (Started(gen).startPsn + gen.sent) % PSN_WRAP
  }

  function Advanced(gen: Gen): Gen
    requires gen.queue != [] && gen.queue[0].group in gen.psns
  {
    var started := Started(gen);
    if gen.sent + 1 == PktCount(gen.queue[0]) then started.(queue := gen.queue[1..], sent := 0)
    else started.(sent := gen.sent + 1)
  }

  ghost predicate RequestsOk(gen: Gen, hosts: map<nat, Host>, win: nat) {
    && gen.group in hosts && gen.psns.Keys == hosts.Keys && gen.limit <= win
    && (forall r | r in gen.queue :: r.group in hosts && r.aggLen / 2 <= win)
  }

  ghost predicate OthersOk(gen: Gen, hosts: map<nat, Host>)
    requires gen.psns.Keys == hosts.Keys
  {
    forall g | g in hosts && g != gen.group :: gen.psns[g] == hosts[g].next % PSN_WRAP
  }

  /** The request at the head is being processed, and the psns of the rest of it are reserved. */
  ghost predicate Midway(gen: Gen, hosts: map<nat, Host>)
    requires gen.psns.Keys == hosts.Keys && gen.group in hosts
  {
    var next := hosts[gen.group].next;
    && gen.queue != [] && gen.queue[0].group == gen.group && gen.sent < PktCount(gen.queue[0])
    && (gen.startPsn + gen.sent) % PSN_WRAP == next % PSN_WRAP
    && gen.psns[gen.group] == (next + PktCount(gen.queue[0]) - gen.sent) % PSN_WRAP
  }

  /** The generator continues every group's packet numbers. */
  ghost predicate GenOk(gen: Gen, hosts: map<nat, Host>, win: nat) {
    && RequestsOk(gen, hosts, win) && OthersOk(gen, hosts)
    && if gen.sent == 0 then gen.psns[gen.group] == hosts[gen.group].next % PSN_WRAP else Midway(gen, hosts)
  }

  lemma {:induction false} Add32(a: nat, k: nat)
    ensures (a % PSN_WRAP + k) % PSN_WRAP == (a + k) % PSN_WRAP
    ensures a % PSN_WRAP % PSN_WRAP == a % PSN_WRAP
  {
  }

  lemma {:induction false} StartedOk(gen: Gen, hosts: map<nat, Host>, win: nat)
    requires GenOk(gen, hosts, win) && gen.queue != []
    ensures gen.queue[0].group in gen.psns
    ensures var started := Started(gen);
            && started.queue == gen.queue && started.sent == gen.sent && started.group == gen.queue[0].group
            && RequestsOk(started, hosts, win) && OthersOk(started, hosts) && Midway(started, hosts)
  {
    hide PktCount;
    assert gen.queue[0] in gen.queue;
    if gen.sent == 0 {
      OpenedOk(gen, hosts, win);
    }
  }

  lemma {:induction false} OpenedOk(gen: Gen, hosts: map<nat, Host>, win: nat)
    requires GenOk(gen, hosts, win) && gen.queue != [] && gen.sent == 0
    ensures gen.queue[0].group in gen.psns
    ensures var started := Started(gen);
            RequestsOk(started, hosts, win) && OthersOk(started, hosts) && Midway(started, hosts)
  {
    hide PktCount;
    var r := gen.queue[0];
    assert r in gen.queue;
    PktCountPositive(r);
    assert gen.psns[r.group] == hosts[r.group].next % PSN_WRAP;
    Add32(hosts[r.group].next, PktCount(r));
    var started := Started(gen);
    assert started.psns.Keys == gen.psns.Keys;
    assert started.psns[r.group] == (hosts[r.group].next + PktCount(r)) % PSN_WRAP;
  }

  lemma {:induction false} AdvancedOk(started: Gen, hosts: map<nat, Host>, win: nat)
    requires RequestsOk(started, hosts, win) && OthersOk(started, hosts) && Midway(started, hosts)
    ensures var next := hosts[started.group].next;
            var after := if started.sent + 1 == PktCount(started.queue[0]) then started.(queue := started.queue[1..], sent := 0)
                         else started.(sent := started.sent + 1);
            GenOk(after, hosts[started.group := hosts[started.group].(next := next + 1)], win)
  {
    hide PktCount, Midway;
    var host := hosts[started.group];
    var hosts' := hosts[started.group := host.(next := host.next + 1)];
    assert hosts'.Keys == hosts.Keys;
    MidwayNext(started, hosts, hosts');
    assert forall x | x in started.queue[1..] :: x in started.queue;
  }

  lemma {:induction false} MidwayNext(started: Gen, hosts: map<nat, Host>, hosts': map<nat, Host>)
    requires started.psns.Keys == hosts.Keys == hosts'.Keys && started.group in hosts && Midway(started, hosts)
    requires hosts'[started.group].next == hosts[started.group].next + 1
    ensures started.queue != []
    ensures if started.sent + 1 == PktCount(started.queue[0])
            then started.psns[started.group] == hosts'[started.group].next % PSN_WRAP
            else Midway(started.(sent := started.sent + 1), hosts')
  {
    hide PktCount;
    Add32(started.startPsn + started.sent, 1);
    Add32(hosts[started.group].next, 1);
  }

  /** The next packet has its group's next number, whether or not it starts a request or changes the group. */
  lemma {:induction false} GenNext(gen: Gen, hosts: map<nat, Host>, win: nat)
    requires GenOk(gen, hosts, win) && gen.queue != []
    ensures gen.queue[0].group in gen.psns
    ensures var group := Advanced(gen).group;
            && group == gen.queue[0].group && group in hosts
            && GenPsn(gen) == hosts[group].next % PSN_WRAP
            && GenOk(Advanced(gen), hosts[group := hosts[group].(next := hosts[group].next + 1)], win)
  {
    hide PktCount, Started, GenOk, OthersOk;
    StartedOk(gen, hosts, win);
    AdvancedOk(Started(gen), hosts, win);
  }

  lemma {:induction false} PktCountPositive(r: Request)
    ensures PktCount(r) >= 1
  {
  }

  // ----- one group at a time

  predicate Known(gen: Gen) {
    (forall r | r in gen.queue :: r.group in gen.psns)
    && (gen.sent > 0 ==> gen.queue != [] && gen.sent < PktCount(gen.queue[0]) && gen.queue[0].group == gen.group)
  }

  lemma {:induction false} AdvancedKnown(gen: Gen)
    requires Known(gen) && gen.queue != []
    ensures gen.queue[0].group in gen.psns && Known(Advanced(gen)) && Advanced(gen).group == gen.queue[0].group
  {
    assert gen.queue[0] in gen.queue;
    assert forall x | x in gen.queue[1..] :: x in gen.queue;
    PktCountPositive(gen.queue[0]);
    hide PktCount;
  }

  /** The groups of the packets that one `shift_send` makes when it may make `n`: its emptiness test never changes. */
  function Generated(gen: Gen, windowEmpty: bool, n: nat): seq<nat>
    requires Known(gen)
    decreases n
  {
    if n == 0 || !CanGen(gen, windowEmpty) then []
    else
      AdvancedKnown(gen);
      [Advanced(gen).group] + Generated(Advanced(gen), windowEmpty, n - 1)
  }

  /** Packets of the first `k` requests. */
  function PacketsBefore(queue: seq<Request>, k: nat): nat
    requires k <= |queue|
  {
    if k == 0 then 0 else PktCount(queue[0]) + PacketsBefore(queue[1..], k - 1)
  }

  /** The requests that have one of the next `n` packets are all of group `g`. */
  ghost predicate AheadIn(gen: Gen, n: nat, g: nat) {
    forall k | 0 <= k < |gen.queue| && n > 0 && PacketsBefore(gen.queue, k) < n + gen.sent :: gen.queue[k].group == g
  }

  lemma {:induction false} NonemptyStays(gen: Gen, n: nat)
    requires Known(gen)
    ensures forall x | x in Generated(gen, false, n) :: x == gen.group
    decreases n
  {
    if n > 0 && CanGen(gen, false) {
      AdvancedKnown(gen);
      NonemptyStays(Advanced(gen), n - 1);
    }
  }

  lemma {:induction false} AheadNext(gen: Gen, n: nat, g: nat)
    requires Known(gen) && gen.queue != [] && n > 0
    ensures gen.queue[0].group in gen.psns
    ensures AheadIn(gen, n, g) <==> gen.queue[0].group == g && AheadIn(Advanced(gen), n - 1, g)
  {
    AdvancedKnown(gen);
    PktCountPositive(gen.queue[0]);
    hide PktCount, Known;
    var queue, after := gen.queue, Advanced(gen);
    forall k | 0 <= k < |queue|
      ensures PacketsBefore(queue, k) == if k == 0 then 0 else PktCount(queue[0]) + PacketsBefore(queue[1..], k - 1)
      ensures k > 0 ==> queue[k] == queue[1..][k - 1]
    {
    }
    if gen.sent + 1 == PktCount(queue[0]) {
      assert after.queue == queue[1..] && after.sent == 0;
      if AheadIn(gen, n, g) {
        forall k | 0 <= k < |after.queue| && n - 1 > 0 && PacketsBefore(after.queue, k) < n - 1
          ensures after.queue[k].group == g
        {
          assert queue[k + 1].group == g;
        }
      }
    }
  }

  lemma {:induction false} GeneratedAhead(gen: Gen, n: nat, g: nat)
    requires Known(gen)
    ensures (forall x | x in Generated(gen, true, n) :: x == g) <==> AheadIn(gen, n, g)
    decreases n
  {
    hide AheadIn, Advanced, Known;
    if n == 0 || gen.queue == [] {
      NothingAhead(gen, n, g);
    } else {
      AdvancedKnown(gen);
      AheadNext(gen, n, g);
      GeneratedAhead(Advanced(gen), n - 1, g);
      var rest := Generated(Advanced(gen), true, n - 1);
      assert Generated(gen, true, n) == [gen.queue[0].group] + rest;
      assert gen.queue[0].group in Generated(gen, true, n);
      assert forall x | x in rest :: x in Generated(gen, true, n);
      assert forall x | x in Generated(gen, true, n) :: x == gen.queue[0].group || x in rest;
    }
  }

  lemma {:induction false} NothingAhead(gen: Gen, n: nat, g: nat)
    requires n == 0 || gen.queue == []
    ensures AheadIn(gen, n, g)
  {
  }

  /** All packets made are of one group, and of the window's own unless that is really empty. */
  ghost predicate OneGroup(gen: Gen, windowEmpty: bool, groups: seq<nat>) {
    && (forall x, y | x in groups && y in groups :: x == y)
    && (!windowEmpty ==> forall x | x in groups :: x == gen.group)
  }

  /**
   * A call of `shift_send` keeps the window to one group exactly when the window was not empty or the requests that
   * come next are of one group.
   */
  lemma {:induction false} StaysInGroupIff(gen: Gen, windowEmpty: bool, n: nat)
    requires Known(gen)
    ensures OneGroup(gen, windowEmpty, Generated(gen, windowEmpty, n))
       <==> !windowEmpty || gen.queue == [] || AheadIn(gen, n, gen.queue[0].group)
  {
    hide AheadIn, Known;
    if !windowEmpty {
      NonemptyStays(gen, n);
    } else if gen.queue != [] {
      var g := gen.queue[0].group;
      GeneratedAhead(gen, n, g);
      FirstGenerated(gen, n);
    }
  }

  lemma {:induction false} FirstGenerated(gen: Gen, n: nat)
    requires Known(gen) && gen.queue != []
    ensures n > 0 ==> gen.queue[0].group in Generated(gen, true, n)
    ensures n == 0 ==> Generated(gen, true, n) == []
  {
    if n > 0 {
      AdvancedKnown(gen);
    }
  }

  /** Two one-packet requests of different groups at an empty window: one call makes packets of both. */
  lemma {:induction false} MixedGroups()
    ensures var gen := Gen([Request(1, 256, 1024), Request(2, 256, 1024)], 0, 0, 0, 16, map[0 := 0, 1 := 0, 2 := 0]);
            Known(gen) && !OneGroup(gen, true, Generated(gen, true, 2))
  {
    var gen := Gen([Request(1, 256, 1024), Request(2, 256, 1024)], 0, 0, 0, 16, map[0 := 0, 1 := 0, 2 := 0]);
    StaysInGroupIff(gen, true, 2);
    assert PacketsBefore(gen.queue, 1) == PktCount(gen.queue[0]) + PacketsBefore(gen.queue[1..], 0) == 1;
    assert gen.queue[1].group == 2;
  }

  lemma {:induction false} AheadAfter(gen: Gen, n: nat)
    requires Known(gen) && gen.queue != [] && AheadIn(gen, n, gen.queue[0].group) && n > 0
    ensures gen.queue[0].group in gen.psns
    ensures var after := Advanced(gen);
            after.queue != [] && n > 1 ==>
              after.queue[0].group == gen.queue[0].group && AheadIn(after, n - 1, after.queue[0].group)
  {
    hide PktCount, Advanced, Known;
    AheadNext(gen, n, gen.queue[0].group);
    var after := Advanced(gen);
    if after.queue != [] && n > 1 {
      assert PacketsBefore(after.queue, 0) == 0;
      assert after.queue[0].group == gen.queue[0].group;
    }
  }
}
