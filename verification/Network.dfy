/** What the network may do to a run: lose any packet alone, or all of them, and bring a result again and again. */
module Network {
  import opened DataPlane
  import opened Collectives
  import opened Protocol
  import opened ProtocolTheorems

  /** `t` is `s` without its element `i`. */
  predicate Lacks<T(==)>(s: seq<T>, i: nat, t: seq<T>) {
    i < |s| && |t| == |s| - 1 && forall j | 0 <= j < |t| :: t[j] == s[if j < i then j else j + 1]
  }

  /** Any packet on a link or in the queue may be lost, and then nothing else has changed. */
  lemma {:induction false} OneLost(c: Config, net: Net, h: nat, i: nat)
    requires Valid(c) && Shape(c, net)
    ensures h < c.size && i < |net.links[h]| ==>
              && Enabled(c, net, LoseOnLink(h, i))
              && var after := Step(c, net, LoseOnLink(h, i));
                 Lacks(net.links[h], i, after.links[h]) && after == net.(links := net.links[h := after.links[h]])
    ensures i < |net.queue| ==>
              && Enabled(c, net, LoseInQueue(i))
              && var after := Step(c, net, LoseInQueue(i));
                 Lacks(net.queue, i, after.queue) && after == net.(queue := after.queue)
  {
  }

  /** A result that was put out may be taken by its host at any time later, and again, and in any order. */
  lemma {:induction false} AnyTimeLater(c: Config, net: Net, actions: seq<Action>, m: Message)
    requires Valid(c) && Shape(c, net) && Run(c, net, actions) && m in net.sent && m.rank < c.size
    ensures Shape(c, Final(c, net, actions)) && Enabled(c, Final(c, net, actions), Accept(m))
    decreases actions
  {
    hide Step, Enabled;
    if actions == [] {
      MayArrive(c, net, m);
    } else {
      StaysSent(c, net, actions[0], m);
      AnyTimeLater(c, Step(c, net, actions[0]), actions[1..], m);
    }
  }

  lemma {:induction false} MayArrive(c: Config, net: Net, m: Message)
    requires Valid(c) && Shape(c, net) && m in net.sent && m.rank < c.size
    ensures Enabled(c, net, Accept(m))
  {
  }

  lemma {:induction false} StaysSent(c: Config, net: Net, a: Action, m: Message)
    requires Valid(c) && Shape(c, net) && Enabled(c, net, a) && m in net.sent
    ensures m in Step(c, net, a).sent
  {
    hide Index, Decide, Absorb, ReadOdd, Strip;
  }

  // ----- everything may be lost

  predicate OnlyLosses(actions: seq<Action>) {
    forall a | a in actions :: a.LoseOnLink? || a.LoseInQueue?
  }

  lemma {:induction false} Joined(c: Config, net: Net, one: seq<Action>, two: seq<Action>)
    requires Valid(c) && Shape(c, net) && Run(c, net, one) && Shape(c, Final(c, net, one)) && Run(c, Final(c, net, one), two)
    ensures Run(c, net, one + two) && Final(c, net, one + two) == Final(c, Final(c, net, one), two)
    decreases one
  {
    hide Step, Enabled;
    if one == [] {
      assert one + two == two;
    } else {
      assert (one + two)[0] == one[0] && (one + two)[1..] == one[1..] + two;
      Joined(c, Step(c, net, one[0]), one[1..], two);
    }
  }

  lemma {:induction false} LoseQueue(c: Config, net: Net) returns (actions: seq<Action>)
    requires Valid(c) && Shape(c, net)
    ensures OnlyLosses(actions) && Run(c, net, actions) && Final(c, net, actions) == net.(queue := [])
    decreases |net.queue|
  {
    if net.queue == [] {
      actions := [];
    } else {
      var a := LoseInQueue(0);
      OneLost(c, net, 0, 0);
      hide Step, Enabled;
      var rest := LoseQueue(c, Step(c, net, a));
      actions := [a] + rest;
      assert actions[0] == a && actions[1..] == rest;
    }
  }

  lemma {:induction false} LoseLink(c: Config, net: Net, h: nat) returns (actions: seq<Action>)
    requires Valid(c) && Shape(c, net) && h < c.size
    ensures OnlyLosses(actions) && Run(c, net, actions) && Final(c, net, actions) == net.(links := net.links[h := []])
    decreases |net.links[h]|
  {
    if net.links[h] == [] {
      assert net.links[h := []] == net.links;
      actions := [];
    } else {
      var a := LoseOnLink(h, 0);
      OneLost(c, net, h, 0);
      hide Step, Enabled;
      var after := Step(c, net, a);
      assert after.links[h := []] == net.links[h := []];
      var rest := LoseLink(c, after, h);
      actions := [a] + rest;
      assert actions[0] == a && actions[1..] == rest;
    }
  }

  lemma {:induction false} LoseLinks(c: Config, net: Net, k: nat) returns (actions: seq<Action>, after: Net)
    requires Valid(c) && Shape(c, net) && k <= c.size
    ensures OnlyLosses(actions) && Run(c, net, actions) && Final(c, net, actions) == after
    ensures Shape(c, after) && after == net.(links := after.links) && forall h | 0 <= h < k :: after.links[h] == []
    decreases k
  {
    hide Step, Enabled;
    if k == 0 {
      actions, after := [], net;
    } else {
      var one, u := LoseLinks(c, net, k - 1);
      var two := LoseLink(c, u, k - 1);
      Joined(c, net, one, two);
      actions, after := one + two, Final(c, u, two);
    }
  }

  /** The network may lose all that is under way to the switch or waits in it, and nothing but that changes. */
  lemma {:induction false} AllLost(c: Config, net: Net)
    requires Valid(c) && Shape(c, net)
    ensures exists actions ::
              && OnlyLosses(actions) && Run(c, net, actions)
              && Final(c, net, actions) == net.(links := seq(c.size, h => []), queue := [])
  {
    hide Step, Enabled;
    var one, u := LoseLinks(c, net, c.size);
    var two := LoseQueue(c, u);
    Joined(c, net, one, two);
    assert u.links == seq(c.size, h => []);
    assert OnlyLosses(one + two);
  }
}
