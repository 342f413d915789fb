/**
 * A worker's window: a ring of packet states with 32-bit packet numbers. Everything it does to a group's packets is a
 * sequence of the steps that the protocol allows a host, and what it puts on the wire are the packets of those steps.
 */
module Window {
  import Arith
  import opened Bitmap
  import opened DataPlane
  import opened Collectives
  import opened Protocol
  import opened HostSteps
  import opened Generator

  // ----- positions and packet numbers

  /** The position `d` after `base` in a ring of `m`. */
  function Pos(m: nat, base: nat, d: nat): (pos: nat)
    requires base < m && d < m
    ensures pos < m
  {
    if base + d < m then base + d else base + d - m
  }

  function NextPosition(m: nat, pos: nat): (next: nat)
    requires pos < m
    ensures next < m
  {
    if pos == m - 1 then 0 else pos + 1
  }

  function PrevPosition(m: nat, pos: nat): (prev: nat)
    requires pos < m
    ensures prev < m && NextPosition(m, prev) == pos
  {
    if pos == 0 then m - 1 else pos - 1
  }

  /** `window_len`. */
  function RingLen(m: nat, toAck: nat, toSend: nat): nat
    requires toAck < m && toSend < m
  {
    if toSend >= toAck then toSend - toAck else m + toSend - toAck
  }

  /** A 32-bit difference. */
  function Sub32(a: int, b: int): nat {
    (a - b) % PSN_WRAP
  }

  /** `get_position` for a packet of the current group, with the distance from the left end in place of the position. */
  function Distance(psn: nat, leftPsn: nat, rightPsn: nat): Option<nat> {
    if Sub32(psn, leftPsn) <= Sub32(rightPsn, leftPsn) then Some(Sub32(psn, leftPsn)) else None
  }

  /**
   * A 32-bit psn finds its place if and only if the packet is in the window, provided the packet is less than 2^32
   * away from both ends.
   */
  lemma {:induction false} DistanceFinds(ack: nat, next: nat, p: nat)
    requires ack < next < ack + PSN_WRAP && next <= p + PSN_WRAP && p < ack + PSN_WRAP
    ensures Distance(p % PSN_WRAP, ack % PSN_WRAP, (next - 1) % PSN_WRAP)
         == if ack <= p < next then Some(p - ack) else None
  {
    hide Sub32;
    Sub32Of(p, ack);
    Sub32Of(next - 1, ack);
  }

  lemma {:induction false} Sub32Of(a: nat, b: nat)
    requires a < b + PSN_WRAP && b < a + PSN_WRAP
    ensures Sub32(a % PSN_WRAP, b % PSN_WRAP) == if a >= b then a - b else a - b + PSN_WRAP
  {
  }

  // ----- the ring

  /** A packet of the window; `result` is what was copied out of its acknowledgement. */
  datatype PktState = PktState(psn: nat, request: Request, isLast: bool, result: Option<Option<Payload>>)

  /** The part of a cell that follows from the host: its number, its group and its result. */
  datatype View = View(psn: nat, group: nat, result: Option<Option<Payload>>)

  function ViewOf(cell: PktState): View {
    View(cell.psn, cell.request.group, cell.result)
  }

  function Cell(host: Host, p: nat, group: nat): View {
    View(p % PSN_WRAP, group, if p in host.got then Some(host.got[p]) else None)
  }

  /** The cell for the next packet. */
  function Made(gen: Gen): PktState
    requires gen.queue != [] && gen.queue[0].group in gen.psns
  {
    PktState(GenPsn(gen), gen.queue[0], gen.sent + 1 == PktCount(gen.queue[0]), None)
  }

  /** What went on the wire: packets of these numbers, of this group, in this order. */
  predicate Packets(sent: seq<PktState>, psns: seq<nat>, group: nat) {
    |sent| == |psns| && forall k | 0 <= k < |sent| :: sent[k].psn == psns[k] % PSN_WRAP && sent[k].request.group == group
  }

  /** The cells from `toAck` on hold the packets from `ack` to `next`. */
  ghost predicate Shows(cells: seq<PktState>, toAck: nat, host: Host, group: nat) {
    && toAck < |cells| && 0 <= host.next - host.ack < |cells|
    && forall d | 0 <= d < host.next - host.ack :: ViewOf(cells[Pos(|cells|, toAck, d)]) == Cell(host, host.ack + d, group)
  }

  lemma {:induction false} PosApart(m: nat, base: nat, d: nat, e: nat)
    requires base < m && d < m && e < m
    ensures Pos(m, base, d) == Pos(m, base, e) <==> d == e
    ensures e == d + 1 ==> NextPosition(m, Pos(m, base, d)) == Pos(m, base, e)
    ensures e == d + 1 ==> Pos(m, NextPosition(m, base), d) == Pos(m, base, e)
    ensures e == d + 1 ==> PrevPosition(m, Pos(m, base, e)) == Pos(m, base, d)
    ensures Pos(m, base, 0) == base
    ensures RingLen(m, base, Pos(m, base, d)) == d
  {
  }

  lemma {:induction false} ShowsSent(cells: seq<PktState>, toAck: nat, host: Host, group: nat, win: nat, made: PktState)
    requires Shows(cells, toAck, host, group) && HostOk(0, win, host)
    requires host.next - host.ack + 1 < |cells| && host.next < host.ack + win
    requires ViewOf(made) == View(host.next % PSN_WRAP, group, None)
    ensures var pos := Pos(|cells|, toAck, host.next - host.ack); var host' := host.(next := host.next + 1);
            && Shows(cells[pos := made], toAck, host', group)
            && HostOk(0, win, host') && Play1(win, host, Sent(host.next)) == Some(host')
  {
    var n := host.next - host.ack;
    forall d | 0 <= d < n
      ensures Pos(|cells|, toAck, d) != Pos(|cells|, toAck, n)
    {
      PosApart(|cells|, toAck, d, n);
    }
  }

  lemma {:induction false} ShowsTook(cells: seq<PktState>, toAck: nat, host: Host, group: nat, win: nat, p: nat,
                                     result: Option<Payload>)
    requires Shows(cells, toAck, host, group) && HostOk(0, win, host) && host.ack <= p < host.next && p !in host.got
    ensures var pos := Pos(|cells|, toAck, p - host.ack); var host' := host.(got := host.got[p := result]);
            && cells[pos].result == None
            && Shows(cells[pos := cells[pos].(result := Some(result))], toAck, host', group)
            && HostOk(0, win, host') && Play1(win, host, Took(p, result)) == Some(host')
  {
    forall d | 0 <= d < host.next - host.ack && d != p - host.ack
      ensures Pos(|cells|, toAck, d) != Pos(|cells|, toAck, p - host.ack)
    {
      PosApart(|cells|, toAck, d, p - host.ack);
    }
  }

  lemma {:induction false} ShowsSlid(cells: seq<PktState>, toAck: nat, host: Host, group: nat, win: nat)
    requires Shows(cells, toAck, host, group) && HostOk(0, win, host) && host.ack < host.next
    requires cells[toAck].result.Some?
    ensures var host' := host.(ack := host.ack + 1);
            && Shows(cells, NextPosition(|cells|, toAck), host', group)
            && HostOk(0, win, host') && Play1(win, host, Slid) == Some(host')
  {
    assert ViewOf(cells[Pos(|cells|, toAck, 0)]) == Cell(host, host.ack, group);
    forall d | 0 <= d < host.next - host.ack - 1
      ensures Pos(|cells|, NextPosition(|cells|, toAck), d) == Pos(|cells|, toAck, d + 1)
    {
      PosApart(|cells|, toAck, d, d + 1);
    }
  }

  // ----- the window

  /** The generator, the hosts of all groups and the ring agree; only the current group has packets in the ring. */
  ghost predicate Agree(cells: seq<PktState>, toAck: nat, gen: Gen, hosts: map<nat, Host>, win: nat) {
    && GenOk(gen, hosts, win)
    && (forall g | g in hosts :: HostOk(0, win, hosts[g]) && (g != gen.group ==> hosts[g].ack == hosts[g].next))
    && Shows(cells, toAck, hosts[gen.group], gen.group)
  }

  lemma {:induction false} AgreeKnown(cells: seq<PktState>, toAck: nat, gen: Gen, hosts: map<nat, Host>, win: nat)
    requires Agree(cells, toAck, gen, hosts, win)
    ensures Known(gen) && gen.group in hosts && HostOk(0, win, hosts[gen.group]) && gen.limit <= win
    ensures hosts[gen.group].ack <= hosts[gen.group].next
    ensures gen.sent > 0 ==> gen.queue != [] && gen.queue[0].group == gen.group
    ensures toAck < |cells| && hosts[gen.group].next - hosts[gen.group].ack < |cells|
  {
    hide PktCount;
  }

  /** One packet of the window's group, or of any group if the window is empty. */
  lemma {:induction false} SendStep(cells: seq<PktState>, toAck: nat, gen: Gen, hosts: map<nat, Host>, win: nat)
    requires Agree(cells, toAck, gen, hosts, win) && gen.queue != []
    requires gen.queue[0].group == gen.group || hosts[gen.group].ack == hosts[gen.group].next
    requires hosts[gen.group].next - hosts[gen.group].ack + 1 < |cells|
    requires hosts[gen.group].next < hosts[gen.group].ack + win
    ensures gen.queue[0].group in gen.psns
    ensures var g := gen.queue[0].group;
            && Advanced(gen).group == g && g in hosts
            && var host := hosts[g]; var after := host.(next := host.next + 1);
               && host.next - host.ack == hosts[gen.group].next - hosts[gen.group].ack
               && Play1(win, host, Sent(host.next)) == Some(after)
               && ViewOf(Made(gen)) == View(host.next % PSN_WRAP, g, None)
               && Agree(cells[Pos(|cells|, toAck, host.next - host.ack) := Made(gen)],
                        toAck, Advanced(gen), hosts[g := after], win)
  {
    hide Advanced, GenPsn, GenOk, HostOk, PktCount;
    AgreeKnown(cells, toAck, gen, hosts, win);
    GenNext(gen, hosts, win);
    var g := gen.queue[0].group;
    assert Shows(cells, toAck, hosts[g], g);
    assert HostOk(0, win, hosts[g]);
    SentRoom(hosts[gen.group], hosts[g], win);
    ShowsSent(cells, toAck, hosts[g], g, win, Made(gen));
  }

  lemma {:induction false} OtherEmpty(cells: seq<PktState>, toAck: nat, gen: Gen, hosts: map<nat, Host>, win: nat, g: nat)
    requires Agree(cells, toAck, gen, hosts, win) && g in hosts
    ensures g != gen.group ==> hosts[g].ack == hosts[g].next
  {
    hide GenOk, Shows, HostOk;
  }

  lemma {:induction false} SentRoom(a: Host, b: Host, win: nat)
    requires a == b || (a.ack == a.next && b.ack == b.next)
    requires a.next < a.ack + win
    ensures b.next - b.ack == a.next - a.ack && b.next < b.ack + win
  {
  }

  // ----- answers

  /** A request all of whose packets were made; the psn after its last one is `end`. */
  datatype Ended = Ended(request: Request, end: nat)

  /** The requests that were all made into packets, those answered, and those that ever came. */
  datatype Book = Book(ended: seq<Ended>, answered: seq<Request>, arrived: seq<Request>)

  function Requests(ended: seq<Ended>): (requests: seq<Request>)
    ensures |requests| == |ended|
  {
    seq(|ended|, i requires 0 <= i < |ended| => ended[i].request)
  }

  /** The requests whose last packet is among the first `n` of the window. */
  function Lasts(cells: seq<PktState>, toAck: nat, ack: nat, n: nat): seq<Ended>
    requires toAck < |cells| && n <= |cells|
  {
    if n == 0 then []
    else
      var cell := cells[Pos(|cells|, toAck, n - 1)];
      Lasts(cells, toAck, ack, n - 1) + if cell.isLast then [Ended(cell.request, ack + n)] else []
  }

  /**
   * Requests are made into packets in the order they came, and answered in that order; one is answered once the window
   * has slid past its last packet, and not before.
   */
  ghost predicate Booked(cells: seq<PktState>, toAck: nat, gen: Gen, hosts: map<nat, Host>, book: Book) {
    && gen.group in hosts && toAck < |cells| && 0 <= hosts[gen.group].next - hosts[gen.group].ack <= |cells|
    && gen.sent <= hosts[gen.group].next
    && |book.answered| <= |book.ended|
    && book.ended[|book.answered|..]
       == Lasts(cells, toAck, hosts[gen.group].ack, hosts[gen.group].next - hosts[gen.group].ack)
    && (forall j | 0 <= j < |book.ended| :: PktCount(book.ended[j].request) <= book.ended[j].end)
    && (forall j | 0 <= j < |book.answered| ::
          var e := book.ended[j];
          book.answered[j] == e.request && e.request.group in hosts && e.end <= hosts[e.request.group].ack)
    && book.arrived == Requests(book.ended) + gen.queue
  }

  lemma {:induction false} LastsSame(a: seq<PktState>, b: seq<PktState>, toAck: nat, ack: nat, n: nat)
    requires toAck < |a| == |b| && n <= |a|
    requires forall d | 0 <= d < n ::
               var pos := Pos(|a|, toAck, d); a[pos].isLast == b[pos].isLast && a[pos].request == b[pos].request
    ensures Lasts(a, toAck, ack, n) == Lasts(b, toAck, ack, n)
  {
    if n > 0 {
      LastsSame(a, b, toAck, ack, n - 1);
      assert a[Pos(|a|, toAck, n - 1)].isLast == b[Pos(|a|, toAck, n - 1)].isLast;
    }
  }

  lemma {:induction false} LastsNone(cells: seq<PktState>, toAck: nat, ack: nat)
    requires toAck < |cells|
    ensures Lasts(cells, toAck, ack, 0) == []
  {
  }

  lemma {:induction false} LastsSent(cells: seq<PktState>, toAck: nat, ack: nat, n: nat, made: PktState)
    requires toAck < |cells| && n < |cells|
    ensures Lasts(cells[Pos(|cells|, toAck, n) := made], toAck, ack, n + 1)
         == Lasts(cells, toAck, ack, n) + if made.isLast then [Ended(made.request, ack + n + 1)] else []
  {
    var cells' := cells[Pos(|cells|, toAck, n) := made];
    forall d | 0 <= d < n
      ensures cells'[Pos(|cells|, toAck, d)] == cells[Pos(|cells|, toAck, d)]
    {
      PosApart(|cells|, toAck, d, n);
    }
    LastsSame(cells', cells, toAck, ack, n);
  }

  lemma {:induction false} LastsSlid(cells: seq<PktState>, toAck: nat, ack: nat, n: nat)
    requires toAck < |cells| && 0 < n <= |cells|
    ensures Lasts(cells, toAck, ack, n)
         == (if cells[toAck].isLast then [Ended(cells[toAck].request, ack + 1)] else [])
            + Lasts(cells, NextPosition(|cells|, toAck), ack + 1, n - 1)
    decreases n
  {
    if n == 1 {
      RingEmpty(|cells|, toAck, 0);
    } else {
      LastsSlid(cells, toAck, ack, n - 1);
      PosApart(|cells|, toAck, n - 2, n - 1);
      assert Pos(|cells|, NextPosition(|cells|, toAck), n - 2) == Pos(|cells|, toAck, n - 1);
    }
  }

  /** Making one packet. */
  lemma {:induction false} BookSend(cells: seq<PktState>, toAck: nat, gen: Gen, hosts: map<nat, Host>, book: Book)
    requires Booked(cells, toAck, gen, hosts, book) && Known(gen) && gen.queue != []
    requires gen.queue[0].group in gen.psns && gen.queue[0].group in hosts
    requires gen.queue[0].group == gen.group
          || (hosts[gen.group].ack == hosts[gen.group].next
              && hosts[gen.queue[0].group].ack == hosts[gen.queue[0].group].next)
    requires hosts[gen.group].next - hosts[gen.group].ack < |cells|
    ensures var host := hosts[gen.queue[0].group];
            && 0 <= host.next - host.ack < |cells|
            && Booked(cells[Pos(|cells|, toAck, host.next - host.ack) := Made(gen)], toAck, Advanced(gen),
                      hosts[gen.queue[0].group := host.(next := host.next + 1)],
                      if Made(gen).isLast then book.(ended := book.ended + [Ended(gen.queue[0], host.next + 1)]) else book)
  {
    hide PktCount, GenPsn, Lasts, Requests, Made, Advanced;
    var host := hosts[gen.queue[0].group];
    AdvancedKnown(gen);
    MadeFlag(gen);
    LastsNone(cells, toAck, hosts[gen.group].ack);
    LastsNone(cells, toAck, host.ack);
    assert book.ended[|book.answered|..] == Lasts(cells, toAck, host.ack, host.next - host.ack);
    assert book.ended[|book.answered|..] + [] == book.ended[|book.answered|..];
    LastsSent(cells, toAck, host.ack, host.next - host.ack, Made(gen));
    if Made(gen).isLast {
      AddOne(book.ended, |book.answered|, Ended(gen.queue[0], host.next + 1), gen.queue);
    }
  }

  lemma {:induction false} MadeFlag(gen: Gen)
    requires gen.queue != [] && gen.queue[0].group in gen.psns
    ensures Made(gen).request == gen.queue[0] && (Made(gen).isLast <==> gen.sent + 1 == PktCount(gen.queue[0]))
    ensures var after := Advanced(gen);
            if Made(gen).isLast then after.queue == gen.queue[1..] && after.sent == 0
            else after.queue == gen.queue && after.sent == gen.sent + 1
  {
    hide PktCount, GenPsn;
  }

  lemma {:induction false} AddOne(ended: seq<Ended>, k: nat, e: Ended, queue: seq<Request>)
    requires k <= |ended| && queue != [] && queue[0] == e.request
    ensures (ended + [e])[k..] == ended[k..] + [e]
    ensures Requests(ended + [e]) + queue[1..] == Requests(ended) + queue
  {
    assert queue == [queue[0]] + queue[1..];
    assert Requests(ended + [e]) == Requests(ended) + [e.request];
  }

  /** Taking one result. */
  lemma {:induction false} BookTake(cells: seq<PktState>, toAck: nat, gen: Gen, hosts: map<nat, Host>, book: Book,
                                    pos: nat, result: Option<Option<Payload>>, after: Host)
    requires Booked(cells, toAck, gen, hosts, book) && pos < |cells|
    requires after.ack == hosts[gen.group].ack && after.next == hosts[gen.group].next
    ensures Booked(cells[pos := cells[pos].(result := result)], toAck, gen, hosts[gen.group := after], book)
  {
    hide PktCount;
    var host := hosts[gen.group];
    LastsSame(cells, cells[pos := cells[pos].(result := result)], toAck, host.ack, host.next - host.ack);
  }

  /** Sliding past one packet, which answers its request if it is the last of it. */
  lemma {:induction false} BookSlide(cells: seq<PktState>, toAck: nat, gen: Gen, hosts: map<nat, Host>, book: Book)
    requires Booked(cells, toAck, gen, hosts, book) && hosts[gen.group].ack < hosts[gen.group].next
    requires cells[toAck].request.group == gen.group
    ensures var host := hosts[gen.group];
            Booked(cells, NextPosition(|cells|, toAck), gen, hosts[gen.group := host.(ack := host.ack + 1)],
                   if cells[toAck].isLast then book.(answered := book.answered + [cells[toAck].request]) else book)
  {
    hide PktCount, Lasts, Requests;
    var host := hosts[gen.group];
    LastsSlid(cells, toAck, host.ack, host.next - host.ack);
    var rest := Lasts(cells, NextPosition(|cells|, toAck), host.ack + 1, host.next - host.ack - 1);
    if cells[toAck].isLast {
      DropOne(book.ended, |book.answered|, Ended(cells[toAck].request, host.ack + 1), rest);
    } else {
      assert book.ended[|book.answered|..] == rest;
    }
  }

  lemma {:induction false} DropOne(ended: seq<Ended>, k: nat, head: Ended, rest: seq<Ended>)
    requires k <= |ended| && ended[k..] == [head] + rest
    ensures k < |ended| && ended[k] == head && ended[k + 1..] == rest
  {
    assert ended[k] == ended[k..][0] && ended[k + 1..] == ended[k..][1..];
  }

  /**
   * With `n` new packets the window has length `winLen`: within the four limits of ring, switch memory, congestion control
   * and burst, and short of them all only if the generator can make no more.
   */
  predicate FilledUp(maxWin: nat, limit: nat, cwnd: nat, burst: nat, winLen: int, n: nat, more: bool) {
    && (n > 0 ==> winLen < maxWin && winLen <= limit && winLen <= cwnd && n <= burst)
    && (more ==> winLen + 1 >= maxWin || winLen >= limit || winLen >= cwnd || n >= burst)
  }

  lemma {:induction false} GoalFills(maxWin: nat, limit: nat, cwnd: nat, burst: nat, len: nat, winLen: nat, n: nat, more: bool)
    requires maxWin > 0 && winLen == len + n
    requires var goal := Arith.Min(maxWin - 1, Arith.Min(limit, Arith.Min(cwnd, len + burst)));
             (n > 0 ==> winLen <= goal) && (winLen >= goal || !more)
    ensures FilledUp(maxWin, limit, cwnd, burst, winLen, n, more)
  {
  }

  class SendWindow {
    const maxWin: nat
    const win: nat
    const state: array<PktState>
    var toAck: nat
    var toSend: nat
    var leftPsn: nat
    var rightPsn: nat
    var gen: Gen
    /** Requests answered, as `push_resp` puts them in the response queue. */
    var answered: seq<Request>
    /** The host that the window plays in each group. */
    ghost var hosts: map<nat, Host>
    ghost var ended: seq<Ended>
    ghost var arrived: seq<Request>

    ghost function Ledger(): Book
      reads this
    {
      Book(ended, answered, arrived)
    }

    ghost predicate Valid()
      reads this, state
    {
      && state.Length == maxWin && 2 <= maxWin <= 0x1_0000 && toAck < maxWin && toSend < maxWin
      && Agree(state[..], toAck, gen, hosts, win) && Booked(state[..], toAck, gen, hosts, Ledger())
      && var host := hosts[gen.group];
         && toSend == Pos(maxWin, toAck, host.next - host.ack)
         && (host.ack < host.next ==> leftPsn == host.ack % PSN_WRAP && rightPsn == (host.next - 1) % PSN_WRAP)
    }

    constructor (maxWin: nat, win: nat, limit: nat)
      requires 2 <= maxWin <= 0x1_0000 && limit <= win
      ensures Valid() && fresh(state) && this.maxWin == maxWin && this.win == win && gen.queue == []
      ensures answered == [] && arrived == []
      ensures hosts == map g | g in Ranks(GROUPS) :: Host(0, 0, map[])
    {
      this.maxWin, this.win := maxWin, win;
      state := new PktState[maxWin](_ => PktState(0, Request(0, 0, 0), false, None));
      toAck, toSend, leftPsn, rightPsn := 0, 0, 0, 0;
      gen := Gen([], 0, 0, 0, limit, map g | g in Ranks(GROUPS) :: 0);
      hosts := map g | g in Ranks(GROUPS) :: Host(0, 0, map[]);
      answered, ended, arrived := [], [], [];
    }

    /** The load balancer queues one more request. */
    method PushRequest(r: Request)
      requires Valid() && r.group in hosts && r.aggLen / 2 <= win
      modifies this`gen, this`arrived
      ensures Valid() && gen == old(gen).(queue := old(gen).queue + [r]) && arrived == old(arrived) + [r]
    {
      hide PktCount, HostOk, Lasts;
      assert Requests(ended) + (gen.queue + [r]) == arrived + [r];
      arrived := arrived + [r];
      gen := gen.(queue := gen.queue + [r]);
    }

    /** `gen_pkt` into a cell of the ring. */
    method GenPkt(position: nat) returns (ok: bool)
      requires Known(gen) && position < state.Length
      modifies this`gen, state
      ensures ok == CanGen(old(gen), toAck == toSend)
      ensures !ok ==> gen == old(gen) && state[..] == old(state[..])
      ensures ok ==>
                && old(gen).queue[0].group in old(gen).psns && gen == Advanced(old(gen))
                && state[..] == old(state[..])[position := Made(old(gen))]
    {
      hide PktCount;
      if gen.sent == 0 {
        if |gen.queue| == 0 {
          return false;
        }
        var r := gen.queue[0];
        if gen.group != r.group && toAck != toSend {
          return false;
        }
        assert r in gen.queue;
        var psn := gen.psns[r.group];
        gen := gen.(group := r.group, limit := r.aggLen / 2, startPsn := psn,
                    psns := gen.psns[r.group := (psn + PktCount(r)) % PSN_WRAP]);
      }
      var r := gen.queue[0];
      assert r in gen.queue;
      var isLast := gen.sent + 1 == PktCount(r);
      state[position] := PktState((gen.startPsn + gen.sent) % PSN_WRAP, r, isLast, None);
      gen := gen.(sent := gen.sent + 1);
      if isLast {
        gen := gen.(queue := gen.queue[1..], sent := 0);
      }
      ok := true;
    }

    /** How full `shift_send` may make the window. */
    function Expected(cwnd: nat, burst: nat): nat
      requires 0 < maxWin && toAck < maxWin && toSend < maxWin
      reads this
    {
      Arith.Min(maxWin - 1, Arith.Min(gen.limit, Arith.Min(cwnd, RingLen(maxWin, toAck, toSend) + burst)))
    }

    function Budget(cwnd: nat, burst: nat): nat
      requires 0 < maxWin && toAck < maxWin && toSend < maxWin
      reads this
    {
      var len := RingLen(maxWin, toAck, toSend);
      if len < Expected(cwnd, burst) then Expected(cwnd, burst) - len else 0
    }

    /** One turn of the loop in `shift_send`: a packet into the cell `to`, if there is one to make. */
    method SendOne(to: nat, winLen: nat) returns (ok: bool, sent: seq<PktState>)
      requires state.Length == maxWin && Agree(state[..], toAck, gen, hosts, win) && gen.group in hosts
      requires Booked(state[..], toAck, gen, hosts, Ledger())
      requires winLen == hosts[gen.group].next - hosts[gen.group].ack && winLen + 1 < maxWin && winLen < win
      requires toAck < maxWin && to == Pos(maxWin, toAck, winLen)
      requires winLen > 0 ==> leftPsn == hosts[gen.group].ack % PSN_WRAP
      requires gen.queue != [] && 0 < winLen && toAck == toSend ==> gen.queue[0].group == gen.group
      modifies this`leftPsn, this`gen, this`hosts, this`ended, state
      ensures ok == CanGen(old(gen), toAck == toSend)
      ensures !ok ==> gen == old(gen) && hosts == old(hosts) && state[..] == old(state[..]) && leftPsn == old(leftPsn)
      ensures Booked(state[..], toAck, gen, hosts, Ledger())
      ensures ok ==>
                && Agree(state[..], toAck, gen, hosts, win) && Known(old(gen))
                && old(gen).queue[0].group in old(gen).psns && gen == Advanced(old(gen))
                && gen.group == old(gen).queue[0].group && gen.group in old(hosts)
                && (gen.group == old(gen).group || winLen == 0)
                && var host := old(hosts)[gen.group];
                   && hosts == old(hosts)[gen.group := host.(next := host.next + 1)]
                   && Play1(win, host, Sent(host.next)) == Some(hosts[gen.group])
                   && winLen + 1 == hosts[gen.group].next - hosts[gen.group].ack
                   && leftPsn == hosts[gen.group].ack % PSN_WRAP
                   && sent == [state[to]] && ViewOf(sent[0]) == View(host.next % PSN_WRAP, gen.group, None)
    {
      hide Agree, PktCount, Advanced, GenPsn, Play1, Known, Booked;
      ghost var before, cells := gen, state[..];
      AgreeKnown(cells, toAck, gen, hosts, win);
      ok := GenPkt(to);
      sent := [];
      if ok {
        SendStep(cells, toAck, before, hosts, win);
        OtherEmpty(cells, toAck, before, hosts, win, gen.group);
        BookSend(cells, toAck, before, hosts, Ledger());
        ghost var host := hosts[gen.group];
        hosts := hosts[gen.group := host.(next := host.next + 1)];
        if state[to].isLast {
          ended := ended + [Ended(state[to].request, host.next + 1)];
        }
        if winLen == 0 {
          LastCell(state[..], toAck, gen, hosts, win);
          leftPsn := state[toAck].psn;
        }
        sent := [state[to]];
      }
    }

    /**
     * `shift_send`: new packets up to the limits of ring, switch memory, congestion control and burst. With one group
     * ahead of an empty window, it plays a run of fresh sends of one host.
     */
    method ShiftSend(cwnd: nat, burst: nat) returns (sent: seq<PktState>, ghost events: seq<Event>)
      requires Valid()
      requires toAck == toSend && gen.queue != [] ==> AheadIn(gen, Budget(cwnd, burst), gen.queue[0].group)
      modifies this`toSend, this`leftPsn, this`rightPsn, this`gen, this`hosts, this`ended, state
      ensures Valid()
      ensures SentRun(win, old(hosts), hosts, gen.group, events) && Packets(sent, Sends(events), gen.group)
      ensures FilledUp(maxWin, old(gen.limit), cwnd, burst, hosts[gen.group].next - hosts[gen.group].ack, |sent|,
                       gen.queue != [] && (gen.sent > 0 || gen.group == gen.queue[0].group || old(toAck == toSend)))
    {
      hide Agree, AheadIn, PktCount, Known, HostOk, SentRun, Booked, FilledUp, Packets;
      AgreeKnown(state[..], toAck, gen, hosts, win);
      PosApart(maxWin, toAck, hosts[gen.group].next - hosts[gen.group].ack, 0);
      var winLen, to;
      winLen, to, sent, events := SendAll(cwnd, burst);
      toSend := to;
      PosApart(maxWin, toAck, 0, winLen);
      rightPsn := if toAck == toSend then 0 else state[PrevPosition(maxWin, toSend)].psn;
      if winLen > 0 {
        LastCell(state[..], toAck, gen, hosts, win);
      }
    }

    /** The loop in `shift_send` with the limits that it starts from. */
    method SendAll(cwnd: nat, burst: nat) returns (winLen: nat, to: nat, sent: seq<PktState>, ghost events: seq<Event>)
      requires state.Length == maxWin && Agree(state[..], toAck, gen, hosts, win) && gen.group in hosts
      requires Booked(state[..], toAck, gen, hosts, Ledger())
      requires 2 <= maxWin && toAck < maxWin && toSend < maxWin && gen.limit <= win
      requires var len := hosts[gen.group].next - hosts[gen.group].ack;
               && 0 <= len < maxWin && len == RingLen(maxWin, toAck, toSend) && toSend == Pos(maxWin, toAck, len)
               && (len > 0 ==> leftPsn == hosts[gen.group].ack % PSN_WRAP)
      requires toAck == toSend && gen.queue != [] ==> AheadIn(gen, Budget(cwnd, burst), gen.queue[0].group)
      modifies this`leftPsn, this`gen, this`hosts, this`ended, state
      ensures Agree(state[..], toAck, gen, hosts, win) && gen.group in hosts
      ensures Booked(state[..], toAck, gen, hosts, Ledger())
      ensures winLen == hosts[gen.group].next - hosts[gen.group].ack < maxWin && to == Pos(maxWin, toAck, winLen)
      ensures winLen > 0 ==> leftPsn == hosts[gen.group].ack % PSN_WRAP
      ensures SentRun(win, old(hosts), hosts, gen.group, events) && Packets(sent, Sends(events), gen.group)
      ensures FilledUp(maxWin, old(gen.limit), cwnd, burst, winLen, |sent|, CanGen(gen, old(toAck == toSend)))
    {
      hide Agree, AheadIn, PktCount, Known, HostOk, SentRun, Booked, FilledUp, CanGen, Packets, Pos;
      var len, goal := RingLen(maxWin, toAck, toSend), Expected(cwnd, burst);
      ghost var limit := gen.limit;
      winLen, to, sent, events := SendUpTo(len, goal);
      GoalFills(maxWin, limit, cwnd, burst, len, winLen, |sent|, CanGen(gen, toAck == toSend));
    }

    /** The loop itself, which does not write the send position back. */
    method SendUpTo(len: nat, goal: nat) 
      returns (winLen: nat, to: nat, sent: seq<PktState>, ghost events: seq<Event>)
      requires state.Length == maxWin && Agree(state[..], toAck, gen, hosts, win) && gen.group in hosts
      requires Booked(state[..], toAck, gen, hosts, Ledger())
      requires toAck < maxWin && goal <= win && goal < maxWin
      requires len == hosts[gen.group].next - hosts[gen.group].ack < maxWin && toSend == Pos(maxWin, toAck, len)
      requires len > 0 ==> leftPsn == hosts[gen.group].ack % PSN_WRAP
      requires toAck == toSend && gen.queue != [] && len < goal ==> AheadIn(gen, goal - len, gen.queue[0].group)
      modifies this`leftPsn, this`gen, this`hosts, this`ended, state
      ensures Agree(state[..], toAck, gen, hosts, win) && gen.group in hosts
      ensures Booked(state[..], toAck, gen, hosts, Ledger())
      ensures winLen == hosts[gen.group].next - hosts[gen.group].ack < maxWin && to == Pos(maxWin, toAck, winLen)
      ensures winLen > 0 ==> leftPsn == hosts[gen.group].ack % PSN_WRAP
      ensures SentRun(win, old(hosts), hosts, gen.group, events) && Packets(sent, Sends(events), gen.group)
      ensures winLen == len + |sent| && (sent != [] ==> winLen <= goal)
      ensures winLen >= goal || !CanGen(gen, toAck == toSend)
    {
      hide Agree, AheadIn, PktCount, Advanced, GenPsn, Play, Play1, Known, SentRun, Cell, Made, Sends, Packets, Booked;
      sent, events := [], [];
      PacketsNone(gen.group);
      SentNothing(win, hosts, gen.group);
      winLen, to := len, toSend;
      PosApart(maxWin, toAck, 0, len);
      while winLen < goal
        invariant Agree(state[..], toAck, gen, hosts, win) && gen.group in hosts
        invariant Booked(state[..], toAck, gen, hosts, Ledger())
        invariant winLen == hosts[gen.group].next - hosts[gen.group].ack < maxWin && to == Pos(maxWin, toAck, winLen)
        invariant winLen == len + |events| == len + |sent| && (sent != [] ==> winLen <= goal)
        invariant winLen > 0 ==> leftPsn == hosts[gen.group].ack % PSN_WRAP
        invariant SentRun(win, old(hosts), hosts, gen.group, events) && Packets(sent, Sends(events), gen.group)
        invariant events == [] ==> sent == []
        invariant toAck == toSend && gen.queue != [] && winLen < goal ==> AheadIn(gen, goal - winLen, gen.queue[0].group)
        invariant toAck == toSend && gen.queue != [] && 0 < winLen < goal ==> gen.queue[0].group == gen.group
      {
        ghost var before, h := gen, hosts;
        var ok, cell := SendOne(to, winLen);
        if !ok {
          break;
        }
        SentMore(win, old(hosts), h, before.group, gen.group, events);
        PacketsNone(gen.group);
        PacketsMore(sent, events, gen.group, cell[0], Sent(h[gen.group].next), h[gen.group].next);
        sent := sent + cell;
        events := events + [Sent(h[gen.group].next)];
        PosApart(maxWin, toAck, winLen, winLen + 1);
        to := NextPosition(maxWin, to);
        if toAck == toSend {
          AheadAfter(before, goal - winLen);
        }
        winLen := winLen + 1;
      }
    }

    /** `shift_ack`: slides past everything acknowledged, and answers the requests that end there. */
    method ShiftAck() returns (ghost events: seq<Event>)
      requires Valid()
      modifies this`toAck, this`leftPsn, this`hosts, this`answered
      ensures Valid() && PlayRun(win, old(hosts), hosts, gen.group, events)
      ensures forall e | e in events :: e == Slid
      ensures old(answered) <= answered
      ensures var host := hosts[gen.group]; host.ack == host.next || host.ack !in host.got
    {
      hide Agree, Known, HostOk, PlayRun, Booked;
      AgreeKnown(state[..], toAck, gen, hosts, win);
      var ack;
      ack, events := SlideAll();
      toAck := ack;
      RingEmpty(maxWin, toAck, hosts[gen.group].next - hosts[gen.group].ack);
      if toAck != toSend {
        LastCell(state[..], toAck, gen, hosts, win);
      }
      leftPsn := if toAck == toSend then 0 else state[toAck].psn;
    }

    /** The loop in `shift_ack`, with the position after it. */
    method SlideAll() returns (ack: nat, ghost events: seq<Event>)
      requires Valid()
      modifies this`hosts, this`answered
      ensures ack < maxWin && Agree(state[..], ack, gen, hosts, win) && gen.group in hosts
      ensures Booked(state[..], ack, gen, hosts, Ledger()) && old(answered) <= answered
      ensures 0 <= hosts[gen.group].next - hosts[gen.group].ack < maxWin
      ensures toSend == Pos(maxWin, ack, hosts[gen.group].next - hosts[gen.group].ack)
      ensures hosts[gen.group].ack < hosts[gen.group].next ==> rightPsn == (hosts[gen.group].next - 1) % PSN_WRAP
      ensures PlayRun(win, old(hosts), hosts, gen.group, events) && forall e | e in events :: e == Slid
      ensures ack != toSend ==> state[ack].result.None?
    {
      hide Agree, Known, HostOk, PlayRun, Booked, PktCount, Play1, Cell;
      events := [];
      AgreeKnown(state[..], toAck, gen, hosts, win);
      PlayNothing(win, hosts, gen.group);
      ack := toAck;
      RingEmpty(maxWin, toAck, hosts[gen.group].next - hosts[gen.group].ack);
      while ack != toSend && state[ack].result.Some?
        invariant ack < maxWin && Agree(state[..], ack, gen, hosts, win) && gen.group in hosts
        invariant Booked(state[..], ack, gen, hosts, Ledger()) && old(answered) <= answered
        invariant 0 <= hosts[gen.group].next - hosts[gen.group].ack < maxWin
        invariant toSend == Pos(maxWin, ack, hosts[gen.group].next - hosts[gen.group].ack)
        invariant (ack == toSend) == (hosts[gen.group].ack == hosts[gen.group].next)
        invariant hosts[gen.group].ack < hosts[gen.group].next ==> rightPsn == (hosts[gen.group].next - 1) % PSN_WRAP
        invariant PlayRun(win, old(hosts), hosts, gen.group, events)
        invariant forall e | e in events :: e == Slid
        modifies this`hosts, this`answered
        decreases hosts[gen.group].next - hosts[gen.group].ack
      {
        ghost var host := hosts[gen.group];
        OneAck(state[..], ack, gen, hosts, win, Ledger());
        PlayNext(win, old(hosts), hosts, gen.group, events, Slid);
        events := events + [Slid];
        hosts := hosts[gen.group := host.(ack := host.ack + 1)];
        if state[ack].isLast {
          answered := answered + [state[ack].request];
        }
        RingEmpty(maxWin, NextPosition(maxWin, ack), host.next - host.ack - 1);
        ack := NextPosition(maxWin, ack);
      }
    }

    /** `get_position`; None where the source returns `INVALID_POSITION`. */
    method GetPosition(group: nat, psn: nat, ghost p: nat) returns (position: Option<nat>)
      requires Valid() && psn == p % PSN_WRAP
      requires group == gen.group ==> hosts[group].next <= p + PSN_WRAP && p < hosts[group].ack + PSN_WRAP
      ensures position == if group == gen.group && hosts[group].ack <= p < hosts[group].next
                          then Some(Pos(maxWin, toAck, p - hosts[group].ack)) else None
    {
      hide Agree, Sub32, Booked;
      AgreeKnown(state[..], toAck, gen, hosts, win);
      RingEmpty(maxWin, toAck, hosts[gen.group].next - hosts[gen.group].ack);
      if toAck == toSend || gen.group != group {
        return None;
      }
      DistanceFinds(hosts[group].ack, hosts[group].next, p);
      if Sub32(psn, leftPsn) <= Sub32(rightPsn, leftPsn) {
        var sum := Sub32(psn, leftPsn) + toAck;
        position := Some(if sum >= maxWin then sum - maxWin else sum);
      } else {
        position := None;
      }
    }

    /** `collect_retrans`: the unacknowledged packets just before an acknowledged one, in order. */
    method CollectRetrans(position: nat, ghost p: nat)
      returns (sent: seq<PktState>, ghost lo: nat, ghost events: seq<Event>)
      requires Valid() && hosts[gen.group].ack <= p < hosts[gen.group].next
      requires position == Pos(maxWin, toAck, p - hosts[gen.group].ack)
      ensures GapFrom(hosts[gen.group], lo, p) && events == Resends(lo, p)
      ensures Packets(sent, Sends(events), gen.group)
    {
      hide Agree, Known, HostOk, Booked;
      AgreeKnown(state[..], toAck, gen, hosts, win);
      ghost var host := hosts[gen.group];
      var prev := position;
      lo := p;
      while prev != toAck
        invariant host.ack <= lo <= p && prev == Pos(maxWin, toAck, lo - host.ack)
        invariant forall q | lo <= q < p :: q !in host.got
        decreases lo
      {
        RingEmpty(maxWin, toAck, lo - host.ack);
        var prevPrev := PrevPosition(maxWin, prev);
        PosApart(maxWin, toAck, lo - host.ack - 1, lo - host.ack);
        CellOf(state[..], toAck, gen, hosts, win, lo - 1);
        if state[prevPrev].result.Some? {
          break;
        }
        prev := prevPrev;
        lo := lo - 1;
      }
      RingEmpty(maxWin, toAck, lo - host.ack);
      sent, events := Transmit(prev, position, lo, p);
    }

    /** `transmit` of the cells from `begin` up to `end`. */
    method Transmit(begin: nat, end: nat, ghost lo: nat, ghost hi: nat)
      returns (sent: seq<PktState>, ghost events: seq<Event>)
      requires Valid() && hosts[gen.group].ack <= lo <= hi < hosts[gen.group].next
      requires begin == Pos(maxWin, toAck, lo - hosts[gen.group].ack) && end == Pos(maxWin, toAck, hi - hosts[gen.group].ack)
      ensures events == Resends(lo, hi) && Packets(sent, Sends(events), gen.group)
    {
      hide Agree, HostOk, Known, Packets, Sends, Booked;
      AgreeKnown(state[..], toAck, gen, hosts, win);
      ghost var host, q := hosts[gen.group], lo;
      sent, events := [], [];
      PacketsNone(gen.group);
      var i: nat := begin;
      while i != end
        invariant lo <= q <= hi && i == Pos(maxWin, toAck, q - host.ack)
        invariant events == Resends(lo, q) && Packets(sent, Sends(events), gen.group)
        decreases hi - q
      {
        CellOf(state[..], toAck, gen, hosts, win, q);
        PacketsMore(sent, events, gen.group, state[i], Resent(q), q);
        sent := sent + [state[i]];
        PosApart(maxWin, toAck, q - host.ack, hi - host.ack);
        PosApart(maxWin, toAck, q - host.ack, q + 1 - host.ack);
        events := events + [Resent(q)];
        i, q := NextPosition(maxWin, i), q + 1;
      }
      PosApart(maxWin, toAck, q - host.ack, hi - host.ack);
    }

    /**
     * `rx_process_one`, for a response whose true psn is `p`: its result is taken if and only if the packet is in the
     * window and lacks one, and then the gap before it is sent again.
     */
    method RxProcessOne(group: nat, psn: nat, result: Option<Payload>, ghost p: nat)
      returns (sent: seq<PktState>, ghost events: seq<Event>)
      requires Valid() && psn == p % PSN_WRAP
      requires group == gen.group ==> hosts[group].next <= p + PSN_WRAP && p < hosts[group].ack + PSN_WRAP
      modifies this`hosts, state
      ensures Valid() && PlayRun(win, old(hosts), hosts, gen.group, events) && Packets(sent, Sends(events), gen.group)
      ensures var host := old(hosts)[gen.group];
              if group == gen.group && host.ack <= p < host.next && p !in host.got then
                && hosts == old(hosts)[group := host.(got := host.got[p := result])]
                && exists lo: nat :: GapFrom(host, lo, p) && events == [Took(p, result)] + Resends(lo, p)
              else hosts == old(hosts) && events == []
    {
      hide Agree, Pos, Resends, HostOk, Known, PlayRun, GapFrom, Packets, Sends, Booked;
      sent, events := [], [];
      PacketsNone(gen.group);
      AgreeKnown(state[..], toAck, gen, hosts, win);
      PlayNothing(win, hosts, gen.group);
      ghost var h0, host := hosts, hosts[gen.group];
      var at := GetPosition(group, psn, p);
      if at.None? {
        return;
      }
      var position := at.value;
      TakeStep(state[..], toAck, gen, hosts, win, p, result);
      if state[position].result.Some? {
        return;
      }
      TakeAt(position, result, p);
      events := [Took(p, result)];
      SendsMore([], Took(p, result));
      assert [] + [Took(p, result)] == events;
      GapBefore(state[..], toAck, gen, hosts, win, p);
      if position == toAck || state[PrevPosition(maxWin, position)].result.Some? {
        NoGap(host, p, events);
        return;
      }
      ghost var lo, more;
      sent, lo, more := CollectRetrans(position, p);
      SendsConcat(events, more);
      assert Sends(events) + Sends(more) == Sends(more);
      PlayResends(win, h0, hosts, group, events, lo, p);
      events := events + more;
      SameGap(host, lo, p, result);
    }

    /** `mark_acked` and the copy of the result. */
    method TakeAt(position: nat, result: Option<Payload>, ghost p: nat)
      requires Valid() && hosts[gen.group].ack <= p < hosts[gen.group].next && p !in hosts[gen.group].got
      requires position == Pos(maxWin, toAck, p - hosts[gen.group].ack)
      modifies this`hosts, state
      ensures Valid() && PlayRun(win, old(hosts), hosts, gen.group, [Took(p, result)])
      ensures var host := old(hosts)[gen.group];
              hosts == old(hosts)[gen.group := host.(got := host.got[p := result])]
    {
      hide Agree, PlayRun, HostOk, Known, Booked;
      AgreeKnown(state[..], toAck, gen, hosts, win);
      ghost var host := hosts[gen.group];
      TakeStep(state[..], toAck, gen, hosts, win, p, result);
      PlayNothing(win, hosts, gen.group);
      PlayNext(win, hosts, hosts, gen.group, [], Took(p, result));
      assert [] + [Took(p, result)] == [Took(p, result)];
      BookTake(state[..], toAck, gen, hosts, Ledger(), position, Some(result), host.(got := host.got[p := result]));
      state[position] := state[position].(result := Some(result));
      hosts := hosts[gen.group := host.(got := host.got[p := result])];
    }

    /** `full_retrans`: sends again exactly what is in the window and lacks its result. */
    method FullRetrans() returns (sent: seq<PktState>, ghost events: seq<Event>)
      requires Valid()
      ensures PlayRun(win, hosts, hosts, gen.group, events) && Packets(sent, Sends(events), gen.group)
      ensures var host := hosts[gen.group];
              && (forall e | e in events :: e.Resent?)
              && forall q: nat :: Resent(q) in events <==> host.ack <= q < host.next && q !in host.got
    {
      hide Agree, Known, HostOk, PlayRun, Packets, Sends, Booked;
      AgreeKnown(state[..], toAck, gen, hosts, win);
      ghost var host := hosts[gen.group];
      ghost var q := host.ack;
      sent, events := [], [];
      PacketsNone(gen.group);
      PlayNothing(win, hosts, gen.group);
      var i: nat := toAck;
      PosApart(maxWin, toAck, 0, 0);
      while i != toSend
        invariant host.ack <= q <= host.next && i == Pos(maxWin, toAck, q - host.ack)
        invariant PlayRun(win, hosts, hosts, gen.group, events) && Packets(sent, Sends(events), gen.group)
        invariant forall e | e in events :: e.Resent?
        invariant forall r: nat :: Resent(r) in events <==> host.ack <= r < q && r !in host.got
        decreases host.next - q
      {
        PosApart(maxWin, toAck, q - host.ack, host.next - host.ack);
        PosApart(maxWin, toAck, q - host.ack, q + 1 - host.ack);
        CellOf(state[..], toAck, gen, hosts, win, q);
        if state[i].result.None? {
          ResendStep(win, hosts, hosts, gen.group, events, q);
          PacketsMore(sent, events, gen.group, state[i], Resent(q), q);
          sent := sent + [state[i]];
          events := events + [Resent(q)];
        }
        i, q := NextPosition(maxWin, i), q + 1;
      }
      PosApart(maxWin, toAck, q - host.ack, host.next - host.ack);
    }
  }

  /**
   * What the worker tells the load balancer: its answers are the requests in the order they came, each once, and all of
   * them when nothing is left in the window or the queue.
   */
  lemma {:induction false} AnsweredInOrder(w: SendWindow)
    requires w.Valid()
    ensures w.answered <= w.arrived
    ensures w.toAck == w.toSend && w.gen.queue == [] ==> w.answered == w.arrived
  {
    hide Agree, PktCount, HostOk;
    AgreeKnown(w.state[..], w.toAck, w.gen, w.hosts, w.win);
    var host, k := w.hosts[w.gen.group], |w.answered|;
    RingEmpty(w.maxWin, w.toAck, host.next - host.ack);
    assert w.answered == Requests(w.ended)[..k];
    if w.ended[k..] == [] {
      assert Requests(w.ended)[..k] == Requests(w.ended);
    }
  }

  /**
   * A request is answered exactly when the window has slid past its last packet, and then the result of each of its
   * packets is there.
   */
  lemma {:induction false} AnsweredWhenAcked(w: SendWindow)
    requires w.Valid()
    ensures forall j | 0 <= j < |w.ended| ::
              && w.ended[j].request.group in w.hosts
              && (j < |w.answered| <==> w.ended[j].end <= w.hosts[w.ended[j].request.group].ack)
    ensures forall j, q: nat | 0 <= j < |w.answered| && w.ended[j].end - PktCount(w.ended[j].request) <= q < w.ended[j].end ::
              q in w.hosts[w.ended[j].request.group].got
  {
    hide GenOk, PktCount, HostOk, Requests, Lasts;
    var host, k := w.hosts[w.gen.group], |w.answered|;
    LastsIn(w.state[..], w.toAck, host, w.gen.group, host.next - host.ack);
    forall j | 0 <= j < |w.ended|
      ensures w.ended[j].request.group in w.hosts
      ensures j < |w.answered| <==> w.ended[j].end <= w.hosts[w.ended[j].request.group].ack
    {
      if j >= k {
        assert w.ended[j] == w.ended[k..][j - k];
      }
    }
    HeldBefore(w);
  }

  lemma {:induction false} HeldBefore(w: SendWindow)
    requires w.Valid()
    ensures forall g, q: nat | g in w.hosts && q < w.hosts[g].ack :: q in w.hosts[g].got
  {
    hide GenOk, Shows, Booked;
  }

  /** They are all of the window's group, and their last packets in the window. */
  lemma {:induction false} LastsIn(cells: seq<PktState>, toAck: nat, host: Host, group: nat, n: nat)
    requires Shows(cells, toAck, host, group) && n <= host.next - host.ack
    ensures forall e | e in Lasts(cells, toAck, host.ack, n) :: e.request.group == group && host.ack < e.end <= host.ack + n
  {
    if n > 0 {
      LastsIn(cells, toAck, host, group, n - 1);
      assert ViewOf(cells[Pos(|cells|, toAck, n - 1)]) == Cell(host, host.ack + (n - 1), group);
    }
  }

  lemma {:induction false} CellOf(cells: seq<PktState>, toAck: nat, gen: Gen, hosts: map<nat, Host>, win: nat, q: nat)
    requires Agree(cells, toAck, gen, hosts, win) && gen.group in hosts
    requires hosts[gen.group].ack <= q < hosts[gen.group].next
    ensures var host := hosts[gen.group];
            && toAck < |cells| && q - host.ack < |cells|
            && ViewOf(cells[Pos(|cells|, toAck, q - host.ack)]) == Cell(host, q, gen.group)
  {
    hide GenOk, HostOk;
    var host := hosts[gen.group];
    assert ViewOf(cells[Pos(|cells|, toAck, q - host.ack)]) == Cell(host, host.ack + (q - host.ack), gen.group);
  }

  lemma {:induction false} PacketsNone(group: nat)
    ensures Packets([], Sends([]), group)
  {
  }

  lemma {:induction false} PacketsMore(sent: seq<PktState>, events: seq<Event>, group: nat, cell: PktState, e: Event, p: nat)
    requires Packets(sent, Sends(events), group) && (e == Sent(p) || e == Resent(p))
    requires cell.psn == p % PSN_WRAP && cell.request.group == group
    ensures Packets(sent + [cell], Sends(events + [e]), group)
  {
    hide Sends;
    SendsMore(events, e);
  }

  /** Marking the cell of `p` acknowledged. */
  lemma {:induction false} TakeStep(cells: seq<PktState>, toAck: nat, gen: Gen, hosts: map<nat, Host>, win: nat, p: nat,
                                    result: Option<Payload>)
    requires Agree(cells, toAck, gen, hosts, win) && gen.group in hosts
    requires hosts[gen.group].ack <= p < hosts[gen.group].next
    ensures var host := hosts[gen.group];
            && toAck < |cells| && p - host.ack < |cells|
            && var pos := Pos(|cells|, toAck, p - host.ack);
               && cells[pos].result.Some? == (p in host.got)
               && (p !in host.got ==>
                     var after := host.(got := host.got[p := result]);
                     && Agree(cells[pos := cells[pos].(result := Some(result))], toAck, gen, hosts[gen.group := after], win)
                     && Play1(win, host, Took(p, result)) == Some(after))
  {
    hide HostOk, Play1, GenOk;
    var host := hosts[gen.group];
    assert ViewOf(cells[Pos(|cells|, toAck, p - host.ack)]) == Cell(host, host.ack + (p - host.ack), gen.group);
    if p !in host.got {
      ShowsTook(cells, toAck, host, gen.group, win, p, result);
      SameNext(gen, hosts, host.(got := host.got[p := result]), win);
    }
  }

  /** What the cell before that of `p` says. */
  lemma {:induction false} GapBefore(cells: seq<PktState>, toAck: nat, gen: Gen, hosts: map<nat, Host>, win: nat, p: nat)
    requires Agree(cells, toAck, gen, hosts, win) && gen.group in hosts
    requires hosts[gen.group].ack <= p < hosts[gen.group].next
    ensures var host := hosts[gen.group];
            && toAck < |cells| && p - host.ack < |cells|
            && var pos := Pos(|cells|, toAck, p - host.ack);
               && (pos == toAck <==> p == host.ack)
               && (pos != toAck ==> (cells[PrevPosition(|cells|, pos)].result.Some? <==> p - 1 in host.got))
  {
    hide HostOk, GenOk;
    var host := hosts[gen.group];
    RingEmpty(|cells|, toAck, p - host.ack);
    if p > host.ack {
      PosApart(|cells|, toAck, p - host.ack - 1, p - host.ack);
      assert ViewOf(cells[Pos(|cells|, toAck, p - 1 - host.ack)]) == Cell(host, host.ack + (p - 1 - host.ack), gen.group);
    }
  }

  lemma {:induction false} RingEmpty(m: nat, base: nat, d: nat)
    requires base < m && d < m
    ensures base == Pos(m, base, d) <==> d == 0
  {
  }

  lemma {:induction false} SlideStep(cells: seq<PktState>, toAck: nat, gen: Gen, hosts: map<nat, Host>, win: nat)
    requires Agree(cells, toAck, gen, hosts, win) && gen.group in hosts
    requires hosts[gen.group].ack < hosts[gen.group].next && toAck < |cells| && cells[toAck].result.Some?
    ensures var host := hosts[gen.group]; var after := host.(ack := host.ack + 1);
            && Agree(cells, NextPosition(|cells|, toAck), gen, hosts[gen.group := after], win)
            && Play1(win, host, Slid) == Some(after)
            && host.next - host.ack < |cells|
            && Pos(|cells|, NextPosition(|cells|, toAck), host.next - host.ack - 1) == Pos(|cells|, toAck, host.next - host.ack)
  {
    hide HostOk, Play1, Cell;
    var host := hosts[gen.group];
    ShowsSlid(cells, toAck, host, gen.group, win);
    PosApart(|cells|, toAck, host.next - host.ack - 1, host.next - host.ack);
    SameNext(gen, hosts, host.(ack := host.ack + 1), win);
  }

  /** Both together. */
  lemma {:induction false} OneAck(cells: seq<PktState>, toAck: nat, gen: Gen, hosts: map<nat, Host>, win: nat, book: Book)
    requires Agree(cells, toAck, gen, hosts, win) && Booked(cells, toAck, gen, hosts, book) && gen.group in hosts
    requires hosts[gen.group].ack < hosts[gen.group].next && toAck < |cells| && cells[toAck].result.Some?
    ensures var host := hosts[gen.group]; var after := host.(ack := host.ack + 1);
            && Agree(cells, NextPosition(|cells|, toAck), gen, hosts[gen.group := after], win)
            && Booked(cells, NextPosition(|cells|, toAck), gen, hosts[gen.group := after],
                      if cells[toAck].isLast then book.(answered := book.answered + [cells[toAck].request]) else book)
            && Play1(win, host, Slid) == Some(after)
            && host.next - host.ack < |cells|
            && Pos(|cells|, NextPosition(|cells|, toAck), host.next - host.ack - 1) == Pos(|cells|, toAck, host.next - host.ack)
  {
    hide Agree, Booked;
    SlideStep(cells, toAck, gen, hosts, win);
    LastCell(cells, toAck, gen, hosts, win);
    BookSlide(cells, toAck, gen, hosts, book);
  }

  /** The generator does not depend on acknowledgements. */
  lemma {:induction false} SameNext(gen: Gen, hosts: map<nat, Host>, after: Host, win: nat)
    requires GenOk(gen, hosts, win) && gen.group in hosts && after.next == hosts[gen.group].next
    ensures GenOk(gen, hosts[gen.group := after], win)
  {
    hide PktCount;
    assert hosts[gen.group := after].Keys == hosts.Keys;
  }

  lemma {:induction false} LastCell(cells: seq<PktState>, toAck: nat, gen: Gen, hosts: map<nat, Host>, win: nat)
    requires Agree(cells, toAck, gen, hosts, win) && gen.group in hosts && hosts[gen.group].ack < hosts[gen.group].next
    ensures var host := hosts[gen.group];
            && toAck < |cells| && host.next - host.ack < |cells|
            && cells[PrevPosition(|cells|, Pos(|cells|, toAck, host.next - host.ack))].psn == (host.next - 1) % PSN_WRAP
            && ViewOf(cells[toAck]) == Cell(host, host.ack, gen.group)
  {
    hide GenOk;
    var host := hosts[gen.group];
    var d := host.next - host.ack;
    PosApart(|cells|, toAck, d - 1, d);
    PosApart(|cells|, toAck, 0, 0);
    assert ViewOf(cells[Pos(|cells|, toAck, d - 1)]) == Cell(host, host.ack + (d - 1), gen.group);
    assert ViewOf(cells[Pos(|cells|, toAck, 0)]) == Cell(host, host.ack, gen.group);
  }

}
