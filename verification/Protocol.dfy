/**
 * One lane of the in-network aggregation protocol: the hosts of a group, their lossy FIFO links to the switch, the
 * lane's register slots, the recirculation queue between the two passes, and the results on their way back.
 */
module Protocol {
  import opened Bitmap
  import opened DataPlane
  import opened Collectives
  import opened Sequences

  /**
   * `size` hosts share `len` slots with a window of `win` packets and number their packets from `base` on; `coll` and
   * `buffer` give the operation and each host's data for every psn.
   */
  datatype Config = Config(size: nat, len: nat, win: nat, group: nat, base: nat,
                           coll: nat -> Collective, buffer: (nat, nat) -> Payload)

  const PSN_WRAP: nat := 0x1_0000_0000

  /** At most 32 ranks, a 16-bit lane length, a nonzero group id, and a window of at most half the lane. */
  predicate Valid(c: Config) {
    1 <= c.size <= MAX_RANKS && 1 <= c.win && 2 * c.win <= c.len < 0x1_0000 && 1 <= c.group < 256
  }

  /** `to_ack`, `to_send` and the acknowledged part of a host's window, with unbounded psns. */
  datatype Host = Host(ack: nat, next: nat, got: map<nat, Option<Payload>>)

  /** A packet that passed ingress once and waits for its second pass. */
  datatype Waiting = Waiting(rank: nat, psn: nat, multicast: bool, payload: Payload)

  /** A result on its way to `rank`. */
  datatype Message = Message(rank: nat, psn: nat, result: Option<Payload>)

  datatype Net = Net(hosts: seq<Host>, links: seq<seq<nat>>, slots: seq<Slot>, queue: seq<Waiting>, sent: set<Message>)

  /** The version of the lane's packets. */
  function Tag(c: Config, psn: nat): nat {
    VersionOf(c.group, psn)
  }

  /** The slot a packet addresses; the header's psn has 32 bits. */
  function Index(c: Config, psn: nat): (i: nat)
    requires c.len > 0
    ensures i < c.len
  {
    psn % PSN_WRAP % c.len
  }

  /** No packet of the last two windows used the slot of `psn`. */
  ghost predicate Apart(c: Config, psn: nat)
    requires c.len > 0
  {
    forall q: nat | c.base <= q < psn && Index(c, q) == Index(c, psn) :: q + 2 * c.win <= psn
  }

  function Data(c: Config, psn: nat, rank: nat): Payload {
    Parsed(c.coll(psn), rank, c.buffer(psn, rank))
  }

  function Buffers(c: Config, psn: nat): nat -> Payload {
    rank => c.buffer(psn, rank)
  }

  function DataOf(c: Config, psn: nat): Source {
    WireSource(c.coll(psn), Buffers(c, psn))
  }

  datatype Action =
    | SendNext(host: nat)
    | Resend(host: nat, psn: nat)
    | LoseOnLink(host: nat, i: nat)
    | FirstPass(host: nat)
    | LoseInQueue(i: nat)
    | SecondPass
    | Accept(message: Message)
    | Slide(host: nat)

  predicate Shape(c: Config, net: Net) {
    |net.hosts| == c.size && |net.links| == c.size && |net.slots| == c.len
  }

  /** What the worker loop, the network and the switch may do next. */
  predicate Enabled(c: Config, net: Net, a: Action)
    requires Valid(c) && Shape(c, net)
  {
    match a
    case SendNext(h) =>
      h < c.size && net.hosts[h].next < net.hosts[h].ack + c.win
    case Resend(h, psn) =>
      h < c.size && net.hosts[h].ack <= psn < net.hosts[h].next && psn !in net.hosts[h].got
    case LoseOnLink(h, i) => h < c.size && i < |net.links[h]|
    case FirstPass(h) => h < c.size && net.links[h] != []
    case LoseInQueue(i) => i < |net.queue|
    case SecondPass => net.queue != []
    case Accept(m) => m in net.sent && m.rank < c.size
    case Slide(h) => h < c.size && net.hosts[h].ack < net.hosts[h].next && net.hosts[h].ack in net.hosts[h].got
  }

  function Remove<T>(s: seq<T>, i: nat): seq<T>
    requires i < |s|
  {
    s[..i] + s[i + 1..]
  }

  /** The receivers of a packet on its second pass. */
  function Receivers(c: Config, w: Waiting): set<nat> {
    if w.multicast then Ranks(c.size) else {w.rank}
  }

  /** A result is taken once, and only inside the window. */
  function Take(host: Host, m: Message): Host {
    if host.ack <= m.psn < host.next && m.psn !in host.got then host.(got := host.got[m.psn := m.result]) else host
  }

  function OnFirstPass(c: Config, net: Net, h: nat): Net
    requires Valid(c) && Shape(c, net) && Enabled(c, net, FirstPass(h))
  {
    var psn := net.links[h][0];
    var slot := net.slots[Index(c, psn)];
    var verdict := Decide(c.size, slot, Tag(c, psn), h, Data(c, psn, h));
    net.(links := net.links[h := net.links[h][1..]],
         slots := net.slots[Index(c, psn) := Absorb(slot, Tag(c, psn), h, Data(c, psn, h))],
         queue := if verdict.Drop? then net.queue
                  else net.queue + [Waiting(h, psn, verdict.multicast, verdict.payload)])
  }

  function OnSecondPass(c: Config, net: Net): Net
    requires Valid(c) && Shape(c, net) && Enabled(c, net, SecondPass)
  {
    var w := net.queue[0];
    var words := ReadOdd(net.slots[Index(c, w.psn)].row, w.payload);
    net.(queue := net.queue[1..],
         sent := net.sent + (set r | r in Receivers(c, w) :: Message(r, w.psn, Strip(c.coll(w.psn), r, words))))
  }

  function Step(c: Config, net: Net, a: Action): Net
    requires Valid(c) && Shape(c, net) && Enabled(c, net, a)
  {
    match a
    case SendNext(h) =>
      var host := net.hosts[h];
      net.(hosts := net.hosts[h := host.(next := host.next + 1)], links := net.links[h := net.links[h] + [host.next]])
    case Resend(h, psn) => net.(links := net.links[h := net.links[h] + [psn]])
    case LoseOnLink(h, i) => net.(links := net.links[h := Remove(net.links[h], i)])
    case FirstPass(h) => OnFirstPass(c, net, h)
    case LoseInQueue(i) => net.(queue := Remove(net.queue, i))
    case SecondPass => OnSecondPass(c, net)
    case Accept(m) => net.(hosts := net.hosts[m.rank := Take(net.hosts[m.rank], m)])
    case Slide(h) => net.(hosts := net.hosts[h := net.hosts[h].(ack := net.hosts[h].ack + 1)])
  }

  lemma {:induction false} StepShape(c: Config, net: Net, a: Action)
    requires Valid(c) && Shape(c, net) && Enabled(c, net, a)
    ensures Shape(c, Step(c, net, a))
  {
  }

  /** Nothing sent yet, and the slots reset as CreateGroup leaves them; stale aggregates may remain. */
  predicate Initial(c: Config, net: Net) {
    && Shape(c, net)
    && (forall h | 0 <= h < c.size :: net.hosts[h] == Host(c.base, c.base, map[]) && net.links[h] == [])
    && (forall i | 0 <= i < c.len :: net.slots[i].version == 0 && net.slots[i].members == {})
    && net.queue == []
    && net.sent == {}
  }

  predicate Run(c: Config, net: Net, actions: seq<Action>)
    requires Valid(c) && Shape(c, net)
    decreases actions
  {
    actions == [] || (Enabled(c, net, actions[0]) && Shape(c, Step(c, net, actions[0]))
                      && Run(c, Step(c, net, actions[0]), actions[1..]))
  }

  function Final(c: Config, net: Net, actions: seq<Action>): Net
    requires Valid(c) && Shape(c, net) && Run(c, net, actions)
    decreases actions
  {
    if actions == [] then net else Final(c, Step(c, net, actions[0]), actions[1..])
  }

  /** One more action after a run. */
  lemma {:induction false} RunThen(c: Config, net: Net, actions: seq<Action>, a: Action)
    requires Valid(c) && Shape(c, net) && Run(c, net, actions)
    requires Shape(c, Final(c, net, actions)) && Enabled(c, Final(c, net, actions), a)
    ensures Run(c, net, actions + [a]) && Final(c, net, actions + [a]) == Step(c, Final(c, net, actions), a)
    decreases actions
  {
    hide Step, Enabled;
    StepShape(c, Final(c, net, actions), a);
    if actions == [] {
      assert actions + [a] == [a] && [a][1..] == [];
    } else {
      assert (actions + [a])[0] == actions[0] && (actions + [a])[1..] == actions[1..] + [a];
      RunThen(c, Step(c, net, actions[0]), actions[1..], a);
    }
  }

  // ----- history variables

  /**
   * What a run has done so far: the psn each slot is at (-1 before the first), the arrival order of each psn, one
   * more than the largest psn processed from each host and put out by pass 2, and the psns marked for multicast.
   */
  datatype Log = Log(at: seq<int>, order: map<nat, seq<nat>>, top: seq<nat>, out: nat, marked: seq<nat>)

  predicate LogShape(c: Config, log: Log) {
    |log.at| == c.len && |log.top| == c.size
  }

  function Max(a: nat, b: nat): nat {
    if a < b then b else a
  }

  /** The arrival order of `psn` before and after a first pass from `h`. */
  function Earlier(log: Log, i: nat, psn: nat): seq<nat>
    requires i < |log.at|
  {
    if log.at[i] == psn && psn in log.order then log.order[psn] else []
  }

  function Extended(ranks: seq<nat>, h: nat): seq<nat> {
    if h in ranks then ranks else ranks + [h]
  }

  function LogFirstPass(c: Config, net: Net, log: Log, h: nat): Log
    requires Valid(c) && Shape(c, net) && LogShape(c, log) && Enabled(c, net, FirstPass(h))
  {
    var psn := net.links[h][0];
    var i := Index(c, psn);
    var verdict := Decide(c.size, net.slots[i], Tag(c, psn), h, Data(c, psn, h));
    Log(log.at[i := psn],
        log.order[psn := Extended(Earlier(log, i, psn), h)],
        log.top[h := Max(log.top[h], psn + 1)],
        log.out,
        if verdict.Recirculate? && verdict.multicast then log.marked + [psn] else log.marked)
  }

  function LogStep(c: Config, net: Net, log: Log, a: Action): Log
    requires Valid(c) && Shape(c, net) && LogShape(c, log) && Enabled(c, net, a)
  {
    match a
    case FirstPass(h) => LogFirstPass(c, net, log, h)
    case SecondPass => log.(out := Max(log.out, net.queue[0].psn + 1))
    case _ => log
  }

  function StartLog(c: Config): Log {
    Log(seq(c.len, i => -1), map[], seq(c.size, h => 0), 0, [])
  }

  // ----- the inductive invariant

  /** All ranks have contributed to `psn`. */
  ghost predicate Complete(c: Config, log: Log, psn: nat) {
    psn in log.order && ToSet(log.order[psn]) == Ranks(c.size)
  }

  /** The aggregate of a psn. */
  function Row(c: Config, log: Log, psn: nat): AggRow
    requires psn in log.order
  {
    Folded(DataOf(c, psn), Tag(c, psn), log.order[psn])
  }

  /** The result of a psn as `rank` should see it. */
  function Expected(c: Config, log: Log, rank: nat, psn: nat): Option<Payload>
    requires psn in log.order
  {
    Strip(c.coll(psn), rank, RowWords(Row(c, log, psn)))
  }

  ghost predicate HostOk(base: nat, win: nat, host: Host) {
    && base <= host.ack <= host.next <= host.ack + win
    && (forall p: nat | base <= p < host.ack :: p in host.got)
    && (forall p | p in host.got :: p < host.next)
  }

  ghost predicate HostsOk(c: Config, net: Net)
    requires Shape(c, net)
  {
    forall h | 0 <= h < c.size :: HostOk(c.base, c.win, net.hosts[h])
  }

  /** A packet never overtakes a later one by a window, and none is a window behind what was processed. */
  ghost predicate LinkOk(c: Config, link: seq<nat>, next: nat, top: nat)
    requires c.len > 0
  {
    && top <= next
    && (forall p: nat | p < next :: Apart(c, p))
    && (forall i | 0 <= i < |link| :: c.base <= link[i] < next && top <= link[i] + c.win)
    && (forall i, j | 0 <= i < j < |link| :: link[i] < link[j] + c.win)
  }

  ghost predicate LinksOk(c: Config, net: Net, log: Log)
    requires Valid(c) && Shape(c, net) && LogShape(c, log)
  {
    forall h | 0 <= h < c.size :: LinkOk(c, net.links[h], net.hosts[h].next, log.top[h])
  }

  ghost predicate Contributors(c: Config, log: Log, psn: nat)
    requires LogShape(c, log) && psn in log.order
  {
    forall r | r in log.order[psn] :: r < c.size && psn < log.top[r]
  }

  ghost predicate SlotOk(c: Config, slot: Slot, log: Log, i: nat)
    requires Valid(c) && LogShape(c, log) && i < c.len
  {
    if log.at[i] < 0 then slot.members == {}
    else
      var psn: nat := log.at[i];
      && Index(c, psn) == i && Apart(c, psn)
      && psn in log.order
      && Holds(slot, DataOf(c, psn), Tag(c, psn), log.order[psn])
      && Contributors(c, log, psn)
  }

  ghost predicate SlotsOk(c: Config, net: Net, log: Log)
    requires Valid(c) && Shape(c, net) && LogShape(c, log)
  {
    forall i | 0 <= i < c.len :: SlotOk(c, net.slots[i], log, i)
  }

  ghost predicate OrderOk(c: Config, log: Log)
    requires Valid(c) && LogShape(c, log)
  {
    forall psn | psn in log.order :: c.base <= psn <= log.at[Index(c, psn)] && Distinct(log.order[psn])
  }

  ghost predicate TopOk(c: Config, log: Log)
    requires LogShape(c, log)
  {
    && (forall psn, h | Complete(c, log, psn) && 0 <= h < c.size :: psn < log.top[h])
    && (forall h | 0 <= h < c.size :: log.out <= log.top[h])
  }

  ghost predicate WaitingOk(c: Config, log: Log, w: Waiting)
    requires Valid(c) && LogShape(c, log)
  {
    && w.rank < c.size
    && Complete(c, log, w.psn)
    && log.at[Index(c, w.psn)] == w.psn
    && w.payload == ReadEven(Row(c, log, w.psn), w.payload)
    && log.out <= w.psn + c.win
  }

  ghost predicate QueueOk(c: Config, net: Net, log: Log)
    requires Valid(c) && Shape(c, net) && LogShape(c, log)
  {
    && (forall k | 0 <= k < |net.queue| :: WaitingOk(c, log, net.queue[k]))
    && (forall j, k | 0 <= j < k < |net.queue| :: net.queue[j].psn < net.queue[k].psn + c.win)
  }

  ghost predicate ResultOk(c: Config, log: Log, rank: nat, psn: nat, result: Option<Payload>) {
    Complete(c, log, psn) && psn < log.out && result == Expected(c, log, rank, psn)
  }

  ghost predicate SentOk(c: Config, net: Net, log: Log) {
    forall m | m in net.sent :: m.rank < c.size && ResultOk(c, log, m.rank, m.psn, m.result)
  }

  ghost predicate GotOk(c: Config, net: Net, log: Log)
    requires Shape(c, net)
  {
    forall h, psn | 0 <= h < c.size && psn in net.hosts[h].got :: ResultOk(c, log, h, psn, net.hosts[h].got[psn])
  }

  ghost predicate MarkedOk(c: Config, log: Log) {
    && Distinct(log.marked)
    && (forall psn: nat :: psn in log.marked <==> Complete(c, log, psn))
  }

  ghost predicate Inv(c: Config, net: Net, log: Log) {
    && Valid(c) && Shape(c, net) && LogShape(c, log)
    && HostsOk(c, net) && LinksOk(c, net, log)
    && SlotsOk(c, net, log) && OrderOk(c, log) && TopOk(c, log)
    && QueueOk(c, net, log) && SentOk(c, net, log) && GotOk(c, net, log) && MarkedOk(c, log)
  }
}
