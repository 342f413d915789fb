/** The saturating 32-bit addition of the switch's register ALUs, and when a fold of it is a sum. */
module SatArith {

  const MIN_WORD: int := -0x8000_0000
  const MAX_WORD: int := 0x7fff_ffff

  /** `agg_t`, a signed 32-bit word. */
  type Word = x: int | MIN_WORD <= x <= MAX_WORD

  function Clamp(x: int): Word {
    if x < MIN_WORD then MIN_WORD else if x > MAX_WORD then MAX_WORD else x
  }

  /** The operator `|+|`. */
  function SatAdd(a: Word, b: Word): Word {
    Clamp(a + b)
  }

  /** What an aggregator holds after words arrive one by one; 0 stands for the overwritten stale value. */
  function SatSum(ws: seq<Word>): Word {
    if ws == [] then 0 else SatAdd(SatSum(ws[..|ws| - 1]), ws[|ws| - 1])
  }

  function Sum(ws: seq<Word>): int {
    if ws == [] then 0 else Sum(ws[..|ws| - 1]) + ws[|ws| - 1]
  }

  /** The words of `ws` that are at least 0, in order. */
  function Gains(ws: seq<Word>): seq<Word> {
    if ws == [] then []
    else
      var rest := Gains(ws[..|ws| - 1]);
      if ws[|ws| - 1] >= 0 then rest + [ws[|ws| - 1]] else rest
  }

  /** The words of `ws` that are below 0, in order. */
  function Losses(ws: seq<Word>): seq<Word> {
    if ws == [] then []
    else
      var rest := Losses(ws[..|ws| - 1]);
      if ws[|ws| - 1] < 0 then rest + [ws[|ws| - 1]] else rest
  }

  /** No arrival order can leave the 32-bit range: a test on the two one-sided totals. */
  predicate Fits(ws: seq<Word>) {
    Sum(Gains(ws)) <= MAX_WORD && MIN_WORD <= Sum(Losses(ws))
  }

  predicate SameWords(ws: seq<Word>, other: seq<Word>) {
    multiset(ws) == multiset(other)
  }

  lemma {:induction false} SplitSum(ws: seq<Word>)
    ensures Sum(ws) == Sum(Gains(ws)) + Sum(Losses(ws))
    ensures Sum(Losses(ws)) <= 0 <= Sum(Gains(ws))
  {
    if ws != [] {
      var front, last := ws[..|ws| - 1], ws[|ws| - 1];
      SplitSum(front);
      assert (Gains(front) + [last])[..|Gains(front)|] == Gains(front);
      assert (Losses(front) + [last])[..|Losses(front)|] == Losses(front);
    }
  }

  /** Dropping words can only bring the one-sided totals closer to 0. */
  lemma {:induction false} FitsPrefix(ws: seq<Word>)
    requires Fits(ws) && ws != []
    ensures Fits(ws[..|ws| - 1])
  {
    var front, last := ws[..|ws| - 1], ws[|ws| - 1];
    assert (Gains(front) + [last])[..|Gains(front)|] == Gains(front);
    assert (Losses(front) + [last])[..|Losses(front)|] == Losses(front);
  }

  lemma {:induction false} FitsIsExact(ws: seq<Word>)
    requires Fits(ws)
    ensures SatSum(ws) == Sum(ws)
  {
    if ws != [] {
      FitsPrefix(ws);
      FitsIsExact(ws[..|ws| - 1]);
      SplitSum(ws);
    }
  }

  lemma {:induction false} SumConcat(a: seq<Word>, b: seq<Word>)
    ensures Sum(a + b) == Sum(a) + Sum(b)
  {
    if b == [] {
      assert a + b == a;
    } else {
      var front := b[..|b| - 1];
      assert (a + b)[..|a + b| - 1] == a + front;
      SumConcat(a, front);
    }
  }

  /** Taking one word out of the middle takes its value out of the sum. */
  lemma {:induction false} SumRemove(ws: seq<Word>, i: nat)
    requires i < |ws|
    ensures Sum(ws) == Sum(ws[..i] + ws[i + 1..]) + ws[i]
  {
    var l, w, r := ws[..i], [ws[i]], ws[i + 1..];
    assert ws == (l + w) + r && Sum(w) == ws[i];
    SumConcat(l, r);
    SumConcat(l, w);
    SumConcat(l + w, r);
  }

  /** The sum does not depend on the order. */
  lemma {:induction false} SumPermuted(ws: seq<Word>, other: seq<Word>)
    requires SameWords(ws, other)
    ensures Sum(ws) == Sum(other)
    decreases |ws|
  {
    if ws == [] {
      assert |multiset(other)| == 0;
    } else {
      var last := ws[|ws| - 1];
      assert last in multiset(other);
      var i :| 0 <= i < |other| && other[i] == last;
      var rest := other[..i] + other[i + 1..];
      assert other == other[..i] + [last] + other[i + 1..];
      assert ws == ws[..|ws| - 1] + [last];
      assert multiset(rest) == multiset(other) - multiset{last};
      assert multiset(ws[..|ws| - 1]) == multiset(ws) - multiset{last};
      SumPermuted(ws[..|ws| - 1], rest);
      SumRemove(other, i);
    }
  }

  lemma {:induction false} GainsLossesCount(ws: seq<Word>)
    ensures forall x: Word :: multiset(Gains(ws))[x] == if x >= 0 then multiset(ws)[x] else 0
    ensures forall x: Word :: multiset(Losses(ws))[x] == if x < 0 then multiset(ws)[x] else 0
  {
    if ws != [] {
      GainsLossesCount(ws[..|ws| - 1]);
      assert ws == ws[..|ws| - 1] + [ws[|ws| - 1]];
    }
  }

  lemma {:induction false} PartsPermuted(ws: seq<Word>, other: seq<Word>)
    requires SameWords(ws, other)
    ensures SameWords(Gains(ws), Gains(other)) && SameWords(Losses(ws), Losses(other))
  {
    GainsLossesCount(ws);
    GainsLossesCount(other);
    assert multiset(Gains(ws)) == multiset(Gains(other));
    assert multiset(Losses(ws)) == multiset(Losses(other));
  }

  lemma {:induction false} FitsPermuted(ws: seq<Word>, other: seq<Word>)
    requires SameWords(ws, other) && Fits(ws)
    ensures Fits(other)
  {
    PartsPermuted(ws, other);
    SumPermuted(Gains(ws), Gains(other));
    SumPermuted(Losses(ws), Losses(other));
  }

  lemma {:induction false} AddGains(a: seq<Word>, gains: seq<Word>)
    requires forall i | 0 <= i < |gains| :: gains[i] >= 0
    ensures Sum(gains) >= 0
    ensures SatSum(a + gains) == Clamp(SatSum(a) + Sum(gains))
  {
    if gains == [] {
      assert a + gains == a;
    } else {
      var front := gains[..|gains| - 1];
      AddGains(a, front);
      assert (a + gains)[..|a + gains| - 1] == a + front;
    }
  }

  lemma {:induction false} AddLosses(a: seq<Word>, losses: seq<Word>)
    requires forall i | 0 <= i < |losses| :: losses[i] <= 0
    ensures Sum(losses) <= 0
    ensures SatSum(a + losses) == Clamp(SatSum(a) + Sum(losses))
  {
    if losses == [] {
      assert a + losses == a;
    } else {
      var front := losses[..|losses| - 1];
      AddLosses(a, front);
      assert (a + losses)[..|a + losses| - 1] == a + front;
    }
  }

  lemma {:induction false} OneSigned(ws: seq<Word>)
    ensures forall i | 0 <= i < |Gains(ws)| :: Gains(ws)[i] >= 0
    ensures forall i | 0 <= i < |Losses(ws)| :: Losses(ws)[i] < 0
  {
    if ws != [] {
      OneSigned(ws[..|ws| - 1]);
    }
  }

  lemma {:induction false} GainsAlone(gains: seq<Word>)
    requires forall i | 0 <= i < |gains| :: gains[i] >= 0
    ensures SatSum(gains) == Clamp(Sum(gains))
  {
    AddGains([], gains);
    assert [] + gains == gains;
  }

  lemma {:induction false} LossesAlone(losses: seq<Word>)
    requires forall i | 0 <= i < |losses| :: losses[i] <= 0
    ensures SatSum(losses) == Clamp(Sum(losses))
  {
    AddLosses([], losses);
    assert [] + losses == losses;
  }

  lemma {:induction false} GainsThenLosses(gains: seq<Word>, losses: seq<Word>)
    requires forall i | 0 <= i < |gains| :: gains[i] >= 0
    requires forall i | 0 <= i < |losses| :: losses[i] <= 0
    ensures SatSum(gains + losses) == Clamp(Clamp(Sum(gains)) + Sum(losses))
  {
    GainsAlone(gains);
    AddLosses(gains, losses);
  }

  lemma {:induction false} LossesThenGains(gains: seq<Word>, losses: seq<Word>)
    requires forall i | 0 <= i < |gains| :: gains[i] >= 0
    requires forall i | 0 <= i < |losses| :: losses[i] <= 0
    ensures SatSum(losses + gains) == Clamp(Clamp(Sum(losses)) + Sum(gains))
  {
    LossesAlone(losses);
    AddGains(losses, gains);
  }

  /** If the words do not fit, gains first or losses first loses part of the sum. */
  lemma {:induction false} SomeOrderSaturates(ws: seq<Word>, gains: seq<Word>, losses: seq<Word>)
    requires gains == Gains(ws) && losses == Losses(ws)
    requires !Fits(ws)
    ensures SatSum(gains + losses) != Sum(ws) || SatSum(losses + gains) != Sum(ws)
  {
    OneSigned(ws);
    GainsThenLosses(gains, losses);
    LossesThenGains(gains, losses);
    SplitSum(ws);
  }

  /** Aggregation gives the true sum in every arrival order iff the one-sided totals fit in a word. */
  lemma {:induction false} ExactInEveryOrder(ws: seq<Word>)
    ensures Fits(ws) <==> forall order: seq<Word> :: SameWords(ws, order) ==> SatSum(order) == Sum(ws)
  {
    if Fits(ws) {
      forall order: seq<Word> | SameWords(ws, order)
        ensures SatSum(order) == Sum(ws)
      {
        FitsPermuted(ws, order);
        FitsIsExact(order);
        SumPermuted(ws, order);
      }
    } else {
      var gains, losses := Gains(ws), Losses(ws);
      SomeOrderSaturates(ws, gains, losses);
      GainsLossesCount(ws);
      assert multiset(gains + losses) == multiset(ws);
      assert multiset(losses + gains) == multiset(ws);
      assert SameWords(ws, gains + losses) && SameWords(ws, losses + gains);
    }
  }

  // ----- when the order matters

  /** No two words of opposite sign. */
  predicate OneSided(ws: seq<Word>) {
    (forall x | x in ws :: x >= 0) || (forall x | x in ws :: x <= 0)
  }

  lemma {:induction false} OneSidedSum(ws: seq<Word>)
    requires OneSided(ws)
    ensures SatSum(ws) == Clamp(Sum(ws))
  {
    assert forall i | 0 <= i < |ws| :: ws[i] in ws;
    if forall x | x in ws :: x >= 0 {
      GainsAlone(ws);
    } else {
      LossesAlone(ws);
    }
  }

  lemma {:induction false} TotalsSigned(ws: seq<Word>)
    ensures Sum(Gains(ws)) > 0 <==> exists x :: x in ws && x > 0
    ensures Sum(Losses(ws)) < 0 <==> exists x :: x in ws && x < 0
  {
    SplitSum(ws);
    if ws != [] {
      var front, last := ws[..|ws| - 1], ws[|ws| - 1];
      TotalsSigned(front);
      SplitSum(front);
      assert (Gains(front) + [last])[..|Gains(front)|] == Gains(front);
      assert (Losses(front) + [last])[..|Losses(front)|] == Losses(front);
      assert last in ws && forall x :: x in ws <==> x in front || x == last;
    }
  }

  /** With words of both signs that do not fit, gains first and losses first end differently. */
  lemma {:induction false} SignsFirst(ws: seq<Word>)
    requires !Fits(ws) && !OneSided(ws)
    ensures SameWords(ws, Gains(ws) + Losses(ws)) && SameWords(ws, Losses(ws) + Gains(ws))
    ensures SatSum(Gains(ws) + Losses(ws)) != SatSum(Losses(ws) + Gains(ws))
  {
    hide SatSum, Sum, Gains, Losses;
    var gains, losses := Gains(ws), Losses(ws);
    OneSigned(ws);
    GainsThenLosses(gains, losses);
    LossesThenGains(gains, losses);
    TotalsSigned(ws);
    GainsLossesCount(ws);
    assert multiset(gains + losses) == multiset(ws);
    assert multiset(losses + gains) == multiset(ws);
  }

  /** Every arrival order gives the same word iff the one-sided totals fit or all words are on one side of 0. */
  lemma {:induction false} OrderIndependentIff(ws: seq<Word>)
    ensures Fits(ws) || OneSided(ws) <==> forall order: seq<Word> :: SameWords(ws, order) ==> SatSum(order) == SatSum(ws)
  {
    hide SatSum, Sum, Gains, Losses;
    if Fits(ws) {
      ExactInEveryOrder(ws);
      FitsIsExact(ws);
    } else if OneSided(ws) {
      OneSidedSum(ws);
      forall order: seq<Word> | SameWords(ws, order)
        ensures SatSum(order) == SatSum(ws)
      {
        assert forall x :: x in order <==> x in multiset(order);
        assert forall x :: x in ws <==> x in multiset(ws);
        OneSidedSum(order);
        SumPermuted(ws, order);
      }
    } else {
      SignsFirst(ws);
    }
  }

  /** Three words whose sum fits, in two orders with two results. */
  lemma {:induction false} TwoOrders()
    ensures SameWords([MAX_WORD, 1, -1], [MAX_WORD, -1, 1])
    ensures SatSum([MAX_WORD, 1, -1]) == MAX_WORD - 1 && SatSum([MAX_WORD, -1, 1]) == MAX_WORD
  {
    var a: seq<Word>, b: seq<Word> := [MAX_WORD, 1, -1], [MAX_WORD, -1, 1];
    assert a[..2] == [MAX_WORD, 1] && a[..2][..1] == [MAX_WORD] && a[..1][..0] == [];
    assert b[..2] == [MAX_WORD, -1] && b[..2][..1] == [MAX_WORD] && b[..1][..0] == [];
    assert SatSum([MAX_WORD]) == MAX_WORD;
    assert SatSum(a[..2]) == MAX_WORD && SatSum(b[..2]) == MAX_WORD - 1;
  }

  function Abs(x: int): nat {
    if x < 0 then -x else x
  }

  function AbsSum(ws: seq<Word>): nat {
    if ws == [] then 0 else AbsSum(ws[..|ws| - 1]) + Abs(ws[|ws| - 1])
  }

  /** The usual sufficient test: the absolute values sum to at most the largest word. */
  lemma {:induction false} SmallWordsFit(ws: seq<Word>)
    ensures Sum(Gains(ws)) - Sum(Losses(ws)) == AbsSum(ws)
    ensures AbsSum(ws) <= 0x7fff_ffff ==> Fits(ws)
  {
    SplitSum(ws);
    if ws != [] {
      var front, last := ws[..|ws| - 1], ws[|ws| - 1];
      SmallWordsFit(front);
      assert (Gains(front) + [last])[..|Gains(front)|] == Gains(front);
      assert (Losses(front) + [last])[..|Losses(front)|] == Losses(front);
    }
  }
}
