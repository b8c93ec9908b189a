/** NDCG as the textbook formula over relevances, for both evaluations
    (scripts/evaluate_title_retrieval.py, src/bakeoff.rs). */
module NdcgValues {
  import opened Sorting
  import opened Ndcg
  import opened JudgedGains
  import Title = TitleMetrics
  import Bake = Bakeoff

  /** The first `n` relevances, each as two to its power less one, over the logarithm of its position plus one. */
  ghost function GainSum(log2: nat -> real, pow2: real -> real, xs: seq<real>, n: nat): real
    requires Logarithm(log2)
  {
    if n == 0 then 0.0 else
      GainSum(log2, pow2, xs, n - 1) + if n <= |xs| then (pow2(xs[n - 1]) - 1.0) / log2(n + 1) else 0.0
  }

  lemma {:induction false} GainSumIsDcg(log2: nat -> real, pow2: real -> real, xs: seq<real>, gains: seq<real>, n: nat)
    requires Logarithm(log2) && |gains| == |xs| && forall i | 0 <= i < |xs| :: gains[i] == Gain(pow2, xs[i])
    ensures Dcg(log2, gains, n) == GainSum(log2, pow2, xs, n)
  {
    if n > 0 {
      GainSumIsDcg(log2, pow2, xs, gains, n - 1);
      Zero(log2(n + 1));
    }
  }

  lemma Zero(y: real)
    requires y > 0.0
    ensures 0.0 / y == 0.0
  {
  }

  /** The judged relevances of these documents, zero where nothing is judged. */
  ghost function Judged<D>(judged: Judgments<D>, ds: seq<D>): (r: seq<real>)
    ensures |r| == |ds|
  {
    seq(|ds|, i requires 0 <= i < |ds| => if ds[i] in judged then judged[ds[i]] else 0.0)
  }

  /** `best` lists the relevance of every judged document once, largest first. */
  ghost predicate BestOrder<D(!new)>(judged: Judgments<D>, keys: seq<D>, best: seq<real>) {
    && Distinct(keys) && (forall d :: d in keys <==> d in judged)
    && multiset(best) == multiset(Judged(judged, keys)) && forall i, j | 0 <= i < j < |best| :: best[i] >= best[j]
  }

  lemma SortedIsBest(values: seq<real>, best: seq<real>)
    requires Sorted(Descending, best) && multiset(best) == multiset(values)
    ensures Sort(Descending, values) == best
  {
    DescendingOrder();
    SortSorted(Descending, values);
    SortMultiset(Descending, values);
    SortedUnique(Descending, Sort(Descending, values), best);
  }

  lemma IdealIsGainSum(log2: nat -> real, pow2: real -> real, values: seq<real>, best: seq<real>, n: nat)
    requires Logarithm(log2) && Sorted(Descending, best) && multiset(best) == multiset(values)
    ensures Dcg(log2, IdealGains(pow2, values), n) == GainSum(log2, pow2, best, n)
  {
    SortedIsBest(values, best);
    GainSumIsDcg(log2, pow2, best, IdealGains(pow2, values), n);
  }

  lemma BestIsIdeal<D(!new)>(log2: nat -> real, pow2: real -> real, judged: Judgments<D>, keys: seq<D>, other: seq<D>,
                             best: seq<real>, n: nat)
    requires Logarithm(log2) && BestOrder(judged, keys, best) && Enumerates(other, judged)
    ensures Dcg(log2, IdealGains(pow2, Map(d => Relevance(judged, d), other)), n) == GainSum(log2, pow2, best, n)
  {
    var relevance := d => Relevance(judged, d);
    DistinctSameMembers(keys, other);
    MapPermutation(relevance, keys, other);
    assert Map(relevance, keys) == Judged(judged, keys);
    IdealIsGainSum(log2, pow2, Map(relevance, other), best, n);
  }

  lemma RankingIsGainSum<D>(log2: nat -> real, pow2: real -> real, judged: Judgments<D>, ranking: seq<D>, n: nat)
    requires Logarithm(log2)
    ensures Dcg(log2, Gains(pow2, judged, ranking), n) == GainSum(log2, pow2, Judged(judged, ranking), n)
  {
    GainSumIsDcg(log2, pow2, Judged(judged, ranking), Gains(pow2, judged, ranking), n);
  }

  // ---------- The title evaluation ----------

  /** `ndcg10` is the formula for the first ten distinct documents over the formula for the best order. */
  lemma TitleFormula(log2: nat -> real, pow2: real -> real, ranking: seq<Title.Doc>, judged: Judgments<Title.Doc>,
                     keys: seq<Title.Doc>, best: seq<real>, ten: nat)
    requires Logarithm(log2) && judged != map[] && BestOrder(judged, keys, best) && ten == 10
    ensures var top := Judged(judged, Title.Take(Title.FirstOccurrences(ranking), ten));
      Title.Measure(log2, pow2, ranking, judged).ndcg10 ==
        if GainSum(log2, pow2, best, ten) == 0.0 then 0.0
        else GainSum(log2, pow2, top, ten) / GainSum(log2, pow2, best, ten)
  {
    BestIsIdeal(log2, pow2, judged, keys, Title.Keys(judged), best, ten);
    RankingIsGainSum(log2, pow2, judged, Title.Take(Title.FirstOccurrences(ranking), ten), ten);
  }

  // ---------- The bake-off ----------

  lemma {:induction false} SaneGainSum(log2: nat -> real, pow2: real -> real, relevances: seq<Bake.Float>,
                                       xs: seq<real>, k: nat, n: nat)
    requires Logarithm(log2) && |xs| == |relevances| && n <= k
    requires forall i | 0 <= i < |xs| && i < k :: relevances[i] == Bake.Finite(xs[i])
    ensures Dcg(log2, Bake.FloatGains(pow2, relevances), n) == GainSum(log2, pow2, xs, n)
  {
    if n > 0 {
      SaneGainSum(log2, pow2, relevances, xs, k, n - 1);
      Zero(log2(n + 1));
    }
  }

  /** DCG at `k`: bad relevances among the first `k` are refused, and without any there is no value; otherwise
      the value is the formula, and zero is told apart. */
  lemma DcgFormula(log2: nat -> real, pow2: real -> real, relevances: seq<Bake.Float>, xs: seq<real>, k: nat)
    requires Logarithm(log2) && |xs| == |relevances|
    requires forall i | 0 <= i < |xs| && i < k && relevances[i].Finite? :: relevances[i].value == xs[i]
    ensures var r := Bake.DcgOutcome(log2, pow2, relevances, k);
      if exists i | 0 <= i < |relevances| && i < k :: relevances[i].NonFinite? || relevances[i].value < 0.0
      then r == Bake.InvalidInput
      else if relevances == [] || k == 0 then r == Bake.NoData
      else
        var sum := GainSum(log2, pow2, xs, k);
        r == if sum == 0.0 then Bake.TrueZero else Bake.Value(sum)
  {
    if !Bake.SomeInsane(relevances, k) {
      assert forall i | 0 <= i < |relevances| && i < k :: Bake.Sane(relevances[i]);
      SaneGainSum(log2, pow2, relevances, xs, k, k);
    } else {
      var i :| 0 <= i < |relevances| && i < k && !Bake.Sane(relevances[i]);
      assert relevances[i].NonFinite? || relevances[i].value < 0.0;
    }
  }

  /** A relevance that is refused. */
  predicate Bad(x: Bake.Float) { x.NonFinite? || x.value < 0.0 }

  /** `xs` are the numbers in `fs`, as far as they are numbers. */
  ghost predicate Numbers(fs: seq<Bake.Float>, xs: seq<real>) {
    |xs| == |fs| && forall i | 0 <= i < |fs| && fs[i].Finite? :: fs[i].value == xs[i]
  }

  lemma SaneTruth(truth: seq<Bake.Float>, ts: seq<real>)
    requires Numbers(truth, ts) && forall x | x in truth :: Bake.Sane(x)
    ensures Bake.Unwrap(truth) == ts
  {
    forall i | 0 <= i < |truth| ensures truth[i].Finite? { assert truth[i] in truth; }
  }

  /** NDCG at `k`: without results, judgments or a cutoff there is none; a bad relevance among the first `k` or
      anywhere in the judgments is refused; otherwise it is the formula for the results over the formula for the
      judgments in descending order, if that is not zero. */
  lemma NdcgFormula(log2: nat -> real, pow2: real -> real, relevances: seq<Bake.Float>, xs: seq<real>, k: nat,
                    truth: seq<Bake.Float>, ts: seq<real>, best: seq<real>)
    requires Logarithm(log2) && Numbers(relevances, xs) && Numbers(truth, ts)
    requires Sorted(Descending, best) && multiset(best) == multiset(ts)
    ensures var r := Bake.NdcgOutcome(log2, pow2, relevances, k, truth);
      if k == 0 || relevances == [] || truth == [] then r == Bake.NoData
      else if (exists i :: 0 <= i < |relevances| && i < k && Bad(relevances[i])) || exists x :: x in truth && Bad(x)
      then r == Bake.InvalidInput
      else
        var found, ideal := GainSum(log2, pow2, xs, k), GainSum(log2, pow2, best, k);
        if ideal == 0.0 then r == Bake.NoData
        else r == if found / ideal == 0.0 then Bake.TrueZero else Bake.Value(found / ideal)
  {
    assert (exists i :: 0 <= i < |relevances| && i < k && Bad(relevances[i])) <==> Bake.SomeInsane(relevances, k) by {
      if i :| 0 <= i < |relevances| && i < k && !Bake.Sane(relevances[i]) { assert Bad(relevances[i]); }
      if i :| 0 <= i < |relevances| && i < k && Bad(relevances[i]) { assert !Bake.Sane(relevances[i]); }
    }
    assert (exists x :: x in truth && Bad(x)) <==> (exists x | x in truth :: !Bake.Sane(x)) by {
      assert forall x: Bake.Float :: Bad(x) <==> !Bake.Sane(x);
    }
    if !Bake.SomeInsane(relevances, k) && forall x | x in truth :: Bake.Sane(x) {
      assert forall i | 0 <= i < |relevances| && i < k :: Bake.Sane(relevances[i]);
      SaneGainSum(log2, pow2, relevances, xs, k, k);
      SaneTruth(truth, ts);
      IdealIsGainSum(log2, pow2, ts, best, k);
    }
  }

  /** A query's NDCG at `k` is the formula for the first `k` documents over the formula for the best order. */
  lemma QueryFormula(log2: nat -> real, pow2: real -> real, documents: seq<string>, q: seq<Bake.Judgment>,
                     order: seq<nat>, keys: seq<string>, k: nat,
                     first: seq<string>, other: seq<string>, best: seq<real>)
    requires Logarithm(log2) && Exponential(pow2) && k > 0 && documents != []
    requires Bake.SoundQuery(documents, q) && Bake.Arrangement(order, |documents|)
    requires Enumerates(keys, Bake.LastJudgments(q)) && SomePositive(Bake.LastJudgments(q))
    requires |first| == (if |documents| < k then |documents| else k)
    requires forall i | 0 <= i < |first| :: first[i] == documents[order[i]]
    requires BestOrder(Bake.LastJudgments(q), other, best)
    ensures var ideal := GainSum(log2, pow2, best, k);
      && ideal != 0.0
      && Bake.Number(Bake.QueryOutcome(log2, pow2, documents, q, order, keys, k))
           == GainSum(log2, pow2, Judged(Bake.LastJudgments(q), first), k) / ideal
  {
    var judged := Bake.LastJudgments(q);
    assert Bake.Ranked(documents, order, k) == first;
    Bake.QueryHasNdcg(log2, pow2, documents, q, order, keys, k);
    Bake.SoundMap(documents, q);
    Bake.IdealPositive(log2, pow2, judged, keys, k);
    Bake.UnwrapWrap(Map(d => Relevance(judged, d), keys));
    BestIsIdeal(log2, pow2, judged, other, keys, best, k);
    RankingIsGainSum(log2, pow2, judged, first, k);
  }

  /** What counts of several judgments of one document is the last. */
  lemma {:induction false} LastJudgmentCounts(q: seq<Bake.Judgment>, i: nat)
    requires i < |q| && q[i].relevance.Finite? && forall j | i < j < |q| :: q[j].doc != q[i].doc
    ensures q[i].doc in Bake.LastJudgments(q) && Bake.LastJudgments(q)[q[i].doc] == q[i].relevance.value
  {
    if i < |q| - 1 {
      LastJudgmentCounts(q[..|q| - 1], i);
    }
  }

  /** The aggregate adds up all the numbers it averages. */
  lemma {:induction false} TotalIsSum(xs: seq<real>)
    ensures Bake.Total(xs) == Sum(xs, |xs|)
  {
    if xs != [] {
      var n := |xs| - 1;
      TotalIsSum(xs[..n]);
      SumTake(xs, n);
      assert Sum(xs[..n], n) == Sum(xs, n);
    }
  }

  // ---------- Two documents, in the wrong order ----------

  lemma {:induction false} PastEnd(log2: nat -> real, pow2: real -> real, xs: seq<real>, n: nat)
    requires Logarithm(log2) && |xs| <= n
    ensures GainSum(log2, pow2, xs, n) == GainSum(log2, pow2, xs, |xs|)
  {
    if |xs| < n { PastEnd(log2, pow2, xs, n - 1); }
  }

  lemma Pair(log2: nat -> real, pow2: real -> real, x: real, y: real, n: nat)
    requires Logarithm(log2) && n >= 2
    ensures GainSum(log2, pow2, [x, y], n) == (pow2(x) - 1.0) / log2(2) + (pow2(y) - 1.0) / log2(3)
  {
    PastEnd(log2, pow2, [x, y], n);
    assert GainSum(log2, pow2, [x, y], 0) == 0.0;
    assert GainSum(log2, pow2, [x, y], 1) == (pow2(x) - 1.0) / log2(2);
  }

  lemma PairOrder<D(!new)>(a: D, b: D, x: real, y: real)
    requires a != b && x >= y
    ensures BestOrder(map[a := x, b := y], [a, b], [x, y])
    ensures Judged(map[a := x, b := y], [b, a]) == [y, x]
  {
    var judged: Judgments<D> := map[a := x, b := y];
    assert Judged(judged, [a, b]) == [x, y];
    assert Judged(judged, [b, a]) == [y, x];
  }

  /** `found` is the formula for relevances `y`, `x` in this order, and `best` the one for `x`, `y`. */
  ghost predicate Swapped(log2: nat -> real, pow2: real -> real, x: real, y: real, found: real, best: real)
    requires Logarithm(log2)
  {
    && found == (pow2(y) - 1.0) / log2(2) + (pow2(x) - 1.0) / log2(3)
    && best == (pow2(x) - 1.0) / log2(2) + (pow2(y) - 1.0) / log2(3)
  }

  /** With two judged documents ranked the wrong way round, for any two relevances. */
  lemma SwappedTitles(log2: nat -> real, pow2: real -> real, a: Title.Doc, b: Title.Doc, x: real, y: real,
                      found: real, best: real, ten: nat)
    requires Logarithm(log2) && Exponential(pow2) && a != b && x >= y >= 0.0 && x > 0.0 && ten == 10
    requires Swapped(log2, pow2, x, y, found, best)
    ensures var judged: Judgments<Title.Doc> := map[a := x, b := y];
      judged != map[] && best > 0.0 && Title.Measure(log2, pow2, [b, a], judged).ndcg10 == found / best
  {
    var judged: Judgments<Title.Doc> := map[a := x, b := y];
    PairOrder(a, b, x, y);
    assert a in judged;
    FirstOfTwo(a, b, ten);
    SwappedSums(log2, pow2, x, y, found, best, ten);
    TitleRatio(log2, pow2, [b, a], judged, [a, b], [x, y], [y, x], ten, found, best);
  }

  lemma TitleRatio(log2: nat -> real, pow2: real -> real, ranking: seq<Title.Doc>, judged: Judgments<Title.Doc>,
                   keys: seq<Title.Doc>, best: seq<real>, top: seq<real>, ten: nat, x: real, y: real)
    requires Logarithm(log2) && judged != map[] && BestOrder(judged, keys, best) && ten == 10
    requires top == Judged(judged, Title.Take(Title.FirstOccurrences(ranking), ten))
    requires GainSum(log2, pow2, top, ten) == x && GainSum(log2, pow2, best, ten) == y && y != 0.0
    ensures Title.Measure(log2, pow2, ranking, judged).ndcg10 == x / y
  {
    TitleFormula(log2, pow2, ranking, judged, keys, best, ten);
  }

  lemma FirstOfTwo(a: Title.Doc, b: Title.Doc, n: nat)
    requires a != b && n >= 2
    ensures Title.Take(Title.FirstOccurrences([b, a]), n) == [b, a]
  {
    assert [b, a][..1] == [b] && [b][..0] == [];
    assert Title.FirstOccurrences([b]) == [b];
  }

  lemma SwappedSums(log2: nat -> real, pow2: real -> real, x: real, y: real, found: real, best: real, n: nat)
    requires Logarithm(log2) && Exponential(pow2) && x > 0.0 && y >= 0.0 && n >= 2
    requires Swapped(log2, pow2, x, y, found, best)
    ensures GainSum(log2, pow2, [y, x], n) == found && GainSum(log2, pow2, [x, y], n) == best > 0.0
  {
    Pair(log2, pow2, x, y, n);
    Pair(log2, pow2, y, x, n);
    Positive'(pow2(x) - 1.0, log2(2));
    NonNegativeQuotient(pow2(y) - 1.0, log2(3));
  }

  lemma Positive'(x: real, y: real)
    requires x > 0.0 && y > 0.0
    ensures x / y > 0.0
  {
  }

  /** The same two documents in the bake-off. */
  lemma SwappedDocuments(log2: nat -> real, pow2: real -> real, a: string, b: string, x: real, y: real,
                         found: real, best: real)
    requires Logarithm(log2) && Exponential(pow2) && a != b && x >= y >= 0.0 && x > 0.0
    requires Swapped(log2, pow2, x, y, found, best)
    ensures var q := [Bake.Judgment(a, Bake.Finite(x)), Bake.Judgment(b, Bake.Finite(y))];
      best > 0.0 && Bake.Number(Bake.QueryOutcome(log2, pow2, [a, b], q, [1, 0], [a, b], 2)) == found / best
  {
    var q := [Bake.Judgment(a, Bake.Finite(x)), Bake.Judgment(b, Bake.Finite(y))];
    TwoJudgments(q, a, b, x, y);
    PairOrder(a, b, x, y);
    QueryFormula(log2, pow2, [a, b], q, [1, 0], [a, b], 2, [b, a], [a, b], [x, y]);
    SwappedSums(log2, pow2, x, y, found, best, 2);
  }

  lemma TwoJudgments(q: seq<Bake.Judgment>, a: string, b: string, x: real, y: real)
    requires a != b && q == [Bake.Judgment(a, Bake.Finite(x)), Bake.Judgment(b, Bake.Finite(y))] && x > 0.0 && y >= 0.0
    ensures Bake.LastJudgments(q) == map[a := x, b := y] && SomePositive(Bake.LastJudgments(q))
    ensures Bake.SoundQuery([a, b], q) && Enumerates([a, b], Bake.LastJudgments(q)) && Bake.Arrangement([1, 0], 2)
  {
    assert q[..1] == [q[0]] && [q[0]][..0] == [];
    assert Bake.LastJudgments([q[0]]) == map[a := x];
    var judged: Judgments<string> := map[a := x, b := y];
    assert a in judged && judged[a] > 0.0;
    assert q[0] in q && q[0].relevance.value > 0.0;
  }
}
