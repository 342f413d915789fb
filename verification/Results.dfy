/** What hosts find in their results, operation by operation, at the end of every run. */
module Results {
  import opened Bitmap
  import opened SatArith
  import opened DataPlane
  import opened Collectives
  import opened Protocol
  import opened ProtocolTheorems
  import opened Sequences

  /** The ranks of a group in increasing order. */
  function AllRanks(size: nat): seq<nat> {
    seq(size, i requires 0 <= i < size => i)
  }

  // ----- permutations of ranks and of their words

  lemma {:induction false} DistinctCounts(ranks: seq<nat>)
    requires Distinct(ranks)
    ensures forall r: nat :: multiset(ranks)[r] == if r in ranks then 1 else 0
  {
    if ranks != [] {
      var front, last := ranks[..|ranks| - 1], ranks[|ranks| - 1];
      DistinctCounts(front);
      assert ranks == front + [last];
      assert last !in front;
    }
  }

  /** Two distinct orders of the same ranks are permutations of each other. */
  lemma {:induction false} SameRanks(a: seq<nat>, b: seq<nat>)
    requires Distinct(a) && Distinct(b) && ToSet(a) == ToSet(b)
    ensures multiset(a) == multiset(b)
  {
    DistinctCounts(a);
    DistinctCounts(b);
    forall r: nat
      ensures r in a <==> r in b
    {
      assert r in ToSet(a) <==> r in ToSet(b);
    }
  }

  /** A permutation stays distinct and keeps its set. */
  lemma {:induction false} PermutedOrder(a: seq<nat>, b: seq<nat>)
    requires Distinct(a) && multiset(a) == multiset(b)
    ensures Distinct(b) && ToSet(a) == ToSet(b)
  {
    DistinctCounts(a);
    assert forall r: nat :: r in a <==> r in multiset(a);
    assert forall r: nat :: r in b <==> r in multiset(b);
    CountsDistinct(b);
  }

  lemma {:induction false} CountsDistinct(ranks: seq<nat>)
    requires forall r: nat :: multiset(ranks)[r] <= 1
    ensures Distinct(ranks)
  {
    if ranks != [] {
      var front: seq<nat>, last: nat := ranks[..|ranks| - 1], ranks[|ranks| - 1];
      assert ranks == front + [last];
      assert multiset(ranks) == multiset(front) + multiset{last};
      forall r: nat
        ensures multiset(front)[r] <= 1
      {
        assert multiset(ranks)[r] <= 1;
      }
      CountsDistinct(front);
      assert multiset(ranks)[last] == multiset(front)[last] + 1;
      assert last !in front;
    }
  }

  lemma {:induction false} ColumnConcat(data: Source, tag: nat, a: seq<nat>, b: seq<nat>, w: nat)
    requires w < WORDS
    ensures Column(data, tag, a + b, w) == Column(data, tag, a, w) + Column(data, tag, b, w)
  {
  }

  /** The word of one rank among the others. */
  lemma {:induction false} ColumnAround(data: Source, tag: nat, ranks: seq<nat>, i: nat, w: nat)
    requires i < |ranks| && w < WORDS
    ensures multiset(Column(data, tag, ranks, w))
         == multiset(Column(data, tag, Remove(ranks, i), w)) + multiset{data(tag, ranks[i])[w]}
    ensures multiset(ranks) == multiset(Remove(ranks, i)) + multiset{ranks[i]}
  {
    var left, right := ranks[..i], ranks[i + 1..];
    assert ranks == (left + [ranks[i]]) + right;
    assert Column(data, tag, [ranks[i]], w) == [data(tag, ranks[i])[w]];
    hide Column;
    ColumnConcat(data, tag, left + [ranks[i]], right, w);
    ColumnConcat(data, tag, left, [ranks[i]], w);
    ColumnConcat(data, tag, left, right, w);
  }

  lemma {:induction false} ColumnPermuted(data: Source, tag: nat, a: seq<nat>, b: seq<nat>, w: nat)
    requires multiset(a) == multiset(b) && w < WORDS
    ensures SameWords(Column(data, tag, a, w), Column(data, tag, b, w))
    decreases |a|
  {
    hide Column;
    if a == [] {
      assert |multiset(b)| == 0;
    } else {
      var last := |a| - 1;
      assert a[last] in multiset(b);
      var i :| 0 <= i < |b| && b[i] == a[last];
      ColumnAround(data, tag, a, last, w);
      ColumnAround(data, tag, b, i, w);
      assert multiset(Remove(a, last)) == multiset(a) - multiset{a[last]};
      assert multiset(Remove(b, i)) == multiset(b) - multiset{b[i]};
      ColumnPermuted(data, tag, Remove(a, last), Remove(b, i), w);
    }
  }

  /** Any order of the words is the order of some arrivals. */
  lemma {:induction false} SomeArrivals(data: Source, tag: nat, ranks: seq<nat>, w: nat, words: seq<Word>)
    returns (order: seq<nat>)
    requires w < WORDS && SameWords(Column(data, tag, ranks, w), words)
    ensures multiset(order) == multiset(ranks) && Column(data, tag, order, w) == words
    decreases |words|
  {
    var column := Column(data, tag, ranks, w);
    assert |multiset(column)| == |multiset(words)|;
    if words == [] {
      order := [];
    } else {
      var front, last := words[..|words| - 1], words[|words| - 1];
      assert words == front + [last];
      var i := FindWord(data, tag, ranks, w, words);
      ColumnAround(data, tag, ranks, i, w);
      assert multiset(Column(data, tag, Remove(ranks, i), w)) == multiset(column) - multiset{last};
      assert multiset(front) == multiset(words) - multiset{last};
      var before := SomeArrivals(data, tag, Remove(ranks, i), w, front);
      order := before + [ranks[i]];
      ColumnConcat(data, tag, before, [ranks[i]], w);
    }
  }

  lemma {:induction false} FindWord(data: Source, tag: nat, ranks: seq<nat>, w: nat, words: seq<Word>)
    returns (i: nat)
    requires w < WORDS && SameWords(Column(data, tag, ranks, w), words) && words != []
    ensures i < |ranks| && data(tag, ranks[i])[w] == words[|words| - 1]
  {
    var column := Column(data, tag, ranks, w);
    assert words[|words| - 1] in multiset(words);
    assert words[|words| - 1] in multiset(column);
    i :| i < |column| && column[i] == words[|words| - 1];
  }

  // ----- the words of a result

  lemma {:induction false} ResultWord(data: Source, tag: nat, order: seq<nat>, w: nat)
    requires w < WORDS
    ensures RowWords(Folded(data, tag, order))[w] == SatSum(Column(data, tag, order, w))
  {
    hide SatSum, Column;
    assert w % 2 == 0 ==> 2 * (w / 2) == w;
    assert w % 2 == 1 ==> 2 * (w / 2) + 1 == w;
  }

  lemma {:induction false} AllRanksOrder(c: Config)
    ensures ArrivalOrder(c, AllRanks(c.size))
  {
    var all := AllRanks(c.size);
    forall r: nat
      ensures r in ToSet(all) <==> r in Ranks(c.size)
    {
      if r < c.size {
        assert all[r] == r;
      }
    }
  }

  /** The contributions to word `w` of `psn`, by rank. */
  function Contributions(c: Config, psn: nat, w: nat): seq<Word>
    requires w < WORDS
  {
    Column(DataOf(c, psn), Tag(c, psn), AllRanks(c.size), w)
  }

  /** Word `w` of every host's buffer for `psn`, by rank. */
  function Words(c: Config, psn: nat, w: nat): (words: seq<Word>)
    requires w < WORDS
    ensures |words| == c.size
  {
    seq(c.size, r requires 0 <= r < c.size => c.buffer(psn, r)[w])
  }

  /**
   * What is added up: in an allreduce every host's own word, in a reduce all but the root's, which counts as 0, and in
   * a broadcast the root's alone.
   */
  lemma {:induction false} ContributionsAre(c: Config, psn: nat, w: nat)
    requires w < WORDS
    ensures |Contributions(c, psn, w)| == c.size
    ensures var coll := c.coll(psn);
            forall r | 0 <= r < c.size ::
              Contributions(c, psn, w)[r] == match coll.kind
                                             case AllReduce => c.buffer(psn, r)[w]
                                             case Reduce => if r == coll.root then 0 else c.buffer(psn, r)[w]
                                             case Broadcast => if r == coll.root then c.buffer(psn, r)[w] else 0
    ensures c.coll(psn).kind == AllReduce ==> Contributions(c, psn, w) == Words(c, psn, w)
    ensures c.coll(psn).kind == Reduce && c.coll(psn).root < c.size ==>
              Contributions(c, psn, w) == Words(c, psn, w)[c.coll(psn).root := 0]
  {
    forall r | 0 <= r < c.size
      ensures Contributions(c, psn, w)[r] == Data(c, psn, r)[w] && AllRanks(c.size)[r] == r
    {
      assert DataOf(c, psn)(Tag(c, psn), r) == Data(c, psn, r);
    }
  }

  /** The aggregate of word `w` when the ranks arrive in `order`. */
  ghost function Aggregated(c: Config, psn: nat, w: nat, order: seq<nat>): Word
    requires w < WORDS
  {
    RowWords(Folded(DataOf(c, psn), Tag(c, psn), order))[w]
  }

  lemma {:induction false} OrderColumn(c: Config, psn: nat, w: nat, order: seq<nat>)
    requires w < WORDS && ArrivalOrder(c, order)
    ensures SameWords(Contributions(c, psn, w), Column(DataOf(c, psn), Tag(c, psn), order, w))
  {
    hide Column;
    AllRanksOrder(c);
    SameRanks(AllRanks(c.size), order);
    ColumnPermuted(DataOf(c, psn), Tag(c, psn), AllRanks(c.size), order, w);
  }

  /**
   * A word of the result is the sum, in whatever order hosts reach the switch, iff the one-sided totals fit; in an
   * allreduce it is the sum of all hosts' own words.
   */
  lemma {:induction false} ExactIffFits(c: Config, psn: nat, w: nat)
    requires w < WORDS
    ensures c.coll(psn).kind == AllReduce ==> Contributions(c, psn, w) == Words(c, psn, w)
    ensures Fits(Contributions(c, psn, w))
       <==> forall order: seq<nat> | ArrivalOrder(c, order) ::
              Aggregated(c, psn, w, order) == Sum(Contributions(c, psn, w))
  {
    hide Folded, RowWords, Fits, Column;
    ContributionsAre(c, psn, w);
    var words := Contributions(c, psn, w);
    ExactInEveryOrder(words);
    if Fits(words) {
      forall order: seq<nat> | ArrivalOrder(c, order)
        ensures Aggregated(c, psn, w, order) == Sum(words)
      {
        OrderColumn(c, psn, w, order);
        ResultWord(DataOf(c, psn), Tag(c, psn), order, w);
      }
    } else {
      var bad: seq<Word> :| SameWords(words, bad) && SatSum(bad) != Sum(words);
      var order := SomeArrivals(DataOf(c, psn), Tag(c, psn), AllRanks(c.size), w, bad);
      AllRanksOrder(c);
      PermutedOrder(AllRanks(c.size), order);
      ResultWord(DataOf(c, psn), Tag(c, psn), order, w);
      assert ArrivalOrder(c, order) && Aggregated(c, psn, w, order) != Sum(words);
    }
  }

  /** Two groups of arrivals in different orders never give different words. */
  ghost predicate OrderNeverMatters(c: Config, psn: nat, w: nat)
    requires w < WORDS
  {
    forall a: seq<nat>, b: seq<nat> | ArrivalOrder(c, a) && ArrivalOrder(c, b) ::
      Aggregated(c, psn, w, a) == Aggregated(c, psn, w, b)
  }

  /**
   * The order in which hosts reach the switch never matters for a word iff its one-sided totals fit, or no two hosts
   * contribute words of opposite sign.
   */
  lemma {:induction false} OrderMattersIff(c: Config, psn: nat, w: nat)
    requires w < WORDS
    ensures OrderNeverMatters(c, psn, w) <==> Fits(Contributions(c, psn, w)) || OneSided(Contributions(c, psn, w))
  {
    hide Folded, RowWords, Fits, OneSided, Column, Aggregated;
    var words := Contributions(c, psn, w);
    OrderIndependentIff(words);
    AllRanksOrder(c);
    if Fits(words) || OneSided(words) {
      forall order: seq<nat> | ArrivalOrder(c, order)
        ensures Aggregated(c, psn, w, order) == SatSum(words)
      {
        OrderColumn(c, psn, w, order);
        AggregatedWord(c, psn, w, order);
      }
    } else {
      var other: seq<Word> :| SameWords(words, other) && SatSum(other) != SatSum(words);
      var order := SomeArrivals(DataOf(c, psn), Tag(c, psn), AllRanks(c.size), w, other);
      PermutedOrder(AllRanks(c.size), order);
      AggregatedWord(c, psn, w, order);
      AggregatedWord(c, psn, w, AllRanks(c.size));
      assert ArrivalOrder(c, order) && ArrivalOrder(c, AllRanks(c.size));
    }
  }

  lemma {:induction false} AggregatedWord(c: Config, psn: nat, w: nat, order: seq<nat>)
    requires w < WORDS
    ensures Aggregated(c, psn, w, order) == SatSum(Column(DataOf(c, psn), Tag(c, psn), order, w))
  {
    ResultWord(DataOf(c, psn), Tag(c, psn), order, w);
  }

  /** A broadcast gives every host but the root the root's own payload, and the root a header. */
  lemma {:induction false} BroadcastResult(c: Config, psn: nat, rank: nat, order: seq<nat>)
    requires c.coll(psn).kind == Broadcast && c.coll(psn).root < c.size && ArrivalOrder(c, order)
    ensures var root := c.coll(psn).root;
            ResultOf(c, psn, rank, order) == if rank == root then None else Some(c.buffer(psn, root))
  {
    hide Folded, RowWords, Column;
    var root := c.coll(psn).root;
    assert root in Ranks(c.size);
    assert root in ToSet(order);
    var words := RowWords(Folded(DataOf(c, psn), Tag(c, psn), order));
    forall w | 0 <= w < WORDS
      ensures words[w] == c.buffer(psn, root)[w]
    {
      ResultWord(DataOf(c, psn), Tag(c, psn), order, w);
      BroadcastWord(c.coll(psn), Buffers(c, psn), Tag(c, psn), order, w);
    }
    assert words == c.buffer(psn, root);
  }

  /** A reduce gives the root the fold over all other hosts, in arrival order, and every other host a header. */
  lemma {:induction false} ReduceResult(c: Config, psn: nat, rank: nat, order: seq<nat>)
    requires c.coll(psn).kind == Reduce && ArrivalOrder(c, order)
    ensures var root := c.coll(psn).root; var result := ResultOf(c, psn, rank, order);
            && (result.Some? <==> rank == root)
            && (rank == root ==>
                  forall w | 0 <= w < WORDS ::
                    result.value[w] == SatSum(Column(BufferSource(Buffers(c, psn)), Tag(c, psn), Without(order, root), w)))
  {
    hide Folded, RowWords, Column, SatSum;
    forall w | 0 <= w < WORDS
      ensures RowWords(Folded(DataOf(c, psn), Tag(c, psn), order))[w]
           == SatSum(Column(BufferSource(Buffers(c, psn)), Tag(c, psn), Without(order, c.coll(psn).root), w))
    {
      ResultWord(DataOf(c, psn), Tag(c, psn), order, w);
      ReduceWord(c.coll(psn), Buffers(c, psn), Tag(c, psn), order, w);
    }
  }

  lemma {:induction false} SumStep(data: Source, tag: nat, ranks: seq<nat>, w: nat)
    requires ranks != [] && w < WORDS
    ensures Sum(Column(data, tag, ranks, w))
         == Sum(Column(data, tag, ranks[..|ranks| - 1], w)) + data(tag, ranks[|ranks| - 1])[w]
  {
    assert Column(data, tag, ranks, w)[..|ranks| - 1] == Column(data, tag, ranks[..|ranks| - 1], w);
  }

  /** Leaving out one rank of a distinct list takes its word out of the sum. */
  lemma {:induction false} SumWithout(data: Source, tag: nat, ranks: seq<nat>, root: nat, w: nat)
    requires Distinct(ranks) && w < WORDS
    ensures Sum(Column(data, tag, ranks, w))
         == Sum(Column(data, tag, Without(ranks, root), w)) + if root in ranks then data(tag, root)[w] else 0
  {
    hide Sum, Column;
    if ranks != [] {
      var front, last := ranks[..|ranks| - 1], ranks[|ranks| - 1];
      assert ranks == front + [last] && last !in front;
      SumWithout(data, tag, front, root, w);
      SumStep(data, tag, ranks, w);
      if last != root {
        assert Without(ranks, root) == Without(front, root) + [last];
        assert (Without(front, root) + [last])[..|Without(front, root)|] == Without(front, root);
        SumStep(data, tag, Without(ranks, root), w);
      }
    }
  }

  /** The contributions to a reduce are the other hosts' words, and a 0 for the root. */
  lemma {:induction false} SumSent(coll: Collective, buffers: nat -> Payload, tag: nat, ranks: seq<nat>, w: nat)
    requires coll.kind == Reduce && w < WORDS
    ensures Sum(Column(WireSource(coll, buffers), tag, ranks, w))
         == Sum(Column(BufferSource(buffers), tag, Without(ranks, coll.root), w))
  {
    hide Sum, Column;
    if ranks == [] {
      assert Column(WireSource(coll, buffers), tag, ranks, w) == Column(BufferSource(buffers), tag, ranks, w) == [] by {
        EmptyColumns(WireSource(coll, buffers), BufferSource(buffers), tag, w);
      }
    } else {
      var front, last := ranks[..|ranks| - 1], ranks[|ranks| - 1];
      SumSent(coll, buffers, tag, front, w);
      SumStep(WireSource(coll, buffers), tag, ranks, w);
      if last != coll.root {
        assert (Without(front, coll.root) + [last])[..|Without(front, coll.root)|] == Without(front, coll.root);
        SumStep(BufferSource(buffers), tag, Without(ranks, coll.root), w);
      }
    }
  }

  lemma {:induction false} EmptyColumns(a: Source, b: Source, tag: nat, w: nat)
    requires w < WORDS
    ensures Column(a, tag, [], w) == Column(b, tag, [], w) == []
  {
  }

  /** What a reduce adds up: the words of all hosts but the root. */
  lemma {:induction false} ReduceTotal(c: Config, psn: nat, w: nat)
    requires c.coll(psn).kind == Reduce && w < WORDS
    ensures Sum(Contributions(c, psn, w))
         == Sum(Column(BufferSource(Buffers(c, psn)), Tag(c, psn), Without(AllRanks(c.size), c.coll(psn).root), w))
  {
    hide Sum, Column;
    SumSent(c.coll(psn), Buffers(c, psn), Tag(c, psn), AllRanks(c.size), w);
  }

  /** The sum of all hosts' words, the root's among them. */
  function FullSum(c: Config, psn: nat, w: nat): int
    requires w < WORDS
  {
    Sum(Words(c, psn, w))
  }

  lemma {:induction false} WordsColumn(c: Config, psn: nat, w: nat)
    requires w < WORDS
    ensures Column(BufferSource(Buffers(c, psn)), Tag(c, psn), AllRanks(c.size), w) == Words(c, psn, w)
  {
  }

  /** What an allreduce adds up is the full sum, and what a reduce adds up is the full sum less the root's word. */
  lemma {:induction false} Totals(c: Config, psn: nat, w: nat)
    requires w < WORDS
    ensures c.coll(psn).kind == AllReduce ==> Sum(Contributions(c, psn, w)) == FullSum(c, psn, w)
    ensures c.coll(psn).kind == Reduce && c.coll(psn).root < c.size ==>
              Sum(Contributions(c, psn, w)) == FullSum(c, psn, w) - c.buffer(psn, c.coll(psn).root)[w]
  {
    hide Sum, Column, Contributions;
    ContributionsAre(c, psn, w);
    if c.coll(psn).kind == Reduce && c.coll(psn).root < c.size {
      var root := c.coll(psn).root;
      ReduceTotal(c, psn, w);
      AllRanksOrder(c);
      WordsColumn(c, psn, w);
      SumWithout(BufferSource(Buffers(c, psn)), Tag(c, psn), AllRanks(c.size), root, w);
      assert AllRanks(c.size)[root] == root;
      assert BufferSource(Buffers(c, psn))(Tag(c, psn), root) == c.buffer(psn, root);
    }
  }

  /** A reduce delivers the full sum of a word that fits iff the root's own word is 0. */
  lemma {:induction false} FullReduceIff(c: Config, psn: nat, w: nat, order: seq<nat>)
    requires c.coll(psn).kind == Reduce && c.coll(psn).root < c.size && w < WORDS && ArrivalOrder(c, order)
    requires Fits(Contributions(c, psn, w))
    ensures var root := c.coll(psn).root; var result := ResultOf(c, psn, root, order);
            result.Some? && (result.value[w] == FullSum(c, psn, w) <==> c.buffer(psn, root)[w] == 0)
  {
    hide Folded, RowWords, Fits, Contributions, Sum, Column;
    ExactIffFits(c, psn, w);
    assert Aggregated(c, psn, w, order) == Sum(Contributions(c, psn, w));
    Totals(c, psn, w);
  }

  /** One host that is the root of its own reduce, with ones in its buffer. */
  function LoneRoot(): Config {
    Config(1, 2, 1, 1, 0, psn => Collective(Reduce, 0), (psn: nat, rank: nat) => seq(WORDS, i => 1))
  }

  /** It gets zeros. */
  lemma {:induction false} RootsWordLost(psn: nat)
    ensures var c := LoneRoot();
            && Valid(c) && ArrivalOrder(c, [0])
            && FullSum(c, psn, 0) == 1
            && ResultOf(c, psn, 0, [0]).Some? && ResultOf(c, psn, 0, [0]).value[0] == 0
  {
    hide Folded, RowWords, Sum, Column, SatSum;
    var c := LoneRoot();
    AllRanksOrder(c);
    assert AllRanks(1) == [0] && [0][..0] == [];
    var buffers := BufferSource(Buffers(c, psn));
    EmptyColumns(buffers, buffers, Tag(c, psn), 0);
    assert Sum([]) == 0 && SatSum([]) == 0 by {
      Empty();
    }
    SumStep(buffers, Tag(c, psn), [0], 0);
    WordsColumn(c, psn, 0);
    assert Without([0], 0) == Without([], 0) == [];
    ReduceResult(c, psn, 0, [0]);
  }

  lemma {:induction false} Empty()
    ensures Sum([]) == 0 && SatSum([]) == 0
  {
  }

  /**
   * What host `rank` may rely on about a result it holds. An allreduce: in every word that fits, the sum of all hosts'
   * words. A reduce: only the root has a payload, in every word that fits the sum of the others' words. A broadcast:
   * only the others have one, the root's buffer.
   */
  ghost predicate Correct(c: Config, rank: nat, psn: nat, result: Option<Payload>)
    requires rank < c.size
  {
    var root := c.coll(psn).root;
    match c.coll(psn).kind
    case AllReduce =>
      && result.Some?
      && forall w | 0 <= w < WORDS && Fits(Words(c, psn, w)) :: result.value[w] == FullSum(c, psn, w)
    case Reduce =>
      && (result.Some? <==> rank == root)
      && (result.Some? ==>
            forall w | 0 <= w < WORDS && Fits(Words(c, psn, w)[root := 0]) ::
              result.value[w] == FullSum(c, psn, w) - c.buffer(psn, root)[w])
    case Broadcast =>
      && (result.Some? <==> rank != root)
      && (result.Some? && root < c.size ==> result.value == c.buffer(psn, root))
  }

  /** A word of a result, by what the operation adds up. */
  lemma {:induction false} WordIsCorrect(c: Config, psn: nat, w: nat, order: seq<nat>)
    requires ArrivalOrder(c, order) && w < WORDS
    ensures c.coll(psn).kind == AllReduce && Fits(Words(c, psn, w)) ==> Aggregated(c, psn, w, order) == FullSum(c, psn, w)
    ensures var root := c.coll(psn).root;
            c.coll(psn).kind == Reduce && root < c.size && Fits(Words(c, psn, w)[root := 0]) ==>
              Aggregated(c, psn, w, order) == FullSum(c, psn, w) - c.buffer(psn, root)[w]
  {
    hide Aggregated, Fits, Contributions, ArrivalOrder, FullSum, Words;
    ExactIffFits(c, psn, w);
    ContributionsAre(c, psn, w);
    Totals(c, psn, w);
  }

  lemma {:induction false} OrderedIsCorrect(c: Config, rank: nat, psn: nat, order: seq<nat>)
    requires ArrivalOrder(c, order) && rank < c.size
    ensures Correct(c, rank, psn, ResultOf(c, psn, rank, order))
  {
    hide Folded, RowWords, Fits, ArrivalOrder, FullSum, Words;
    if c.coll(psn).kind == Broadcast && c.coll(psn).root < c.size {
      BroadcastResult(c, psn, rank, order);
    }
    forall w | 0 <= w < WORDS
      ensures c.coll(psn).kind == AllReduce && Fits(Words(c, psn, w)) ==>
                Aggregated(c, psn, w, order) == FullSum(c, psn, w)
      ensures var root := c.coll(psn).root;
              c.coll(psn).kind == Reduce && root < c.size && Fits(Words(c, psn, w)[root := 0]) ==>
                Aggregated(c, psn, w, order) == FullSum(c, psn, w) - c.buffer(psn, root)[w]
    {
      WordIsCorrect(c, psn, w, order);
    }
  }

  /** At the end of every run, every result any host holds is correct for its operation. */
  lemma {:induction false} EveryResultCorrect(c: Config, start: Net, actions: seq<Action>)
    requires Valid(c) && Initial(c, start) && Run(c, start, actions)
    requires AllApart(c, Final(c, start, actions))
    ensures var net := Final(c, start, actions);
            && Shape(c, net)
            && forall h, psn | 0 <= h < c.size && psn in net.hosts[h].got :: Correct(c, h, psn, net.hosts[h].got[psn])
  {
    hide Correct, ResultOf, ArrivalOrder, Run, Final;
    Agreement(c, start, actions);
    var net := Final(c, start, actions);
    var orders :| Explains(c, net, orders);
    forall h, psn | 0 <= h < c.size && psn in net.hosts[h].got
      ensures Correct(c, h, psn, net.hosts[h].got[psn])
    {
      OrderedIsCorrect(c, h, psn, orders[psn]);
    }
  }
}
