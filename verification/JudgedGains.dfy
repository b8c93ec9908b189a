/** Gains read off a map of judgments: a ranking of distinct documents selects from the ideal ones. */
module JudgedGains {
  import opened Sorting
  import opened Ndcg

  /** Relevance by document; unjudged documents have none. */
  type Judgments<!D> = map<D, real>

  function Relevance<D>(judged: Judgments<D>, d: D): real {
    if d in judged then judged[d] else 0.0
  }

  function Map<A>(f: A -> real, s: seq<A>): (r: seq<real>)
    ensures |r| == |s| && forall i | 0 <= i < |s| :: r[i] == f(s[i])
  {
    seq(|s|, i requires 0 <= i < |s| => f(s[i]))
  }

  function Gain(pow2: real -> real, relevance: real): real {
    pow2(relevance) - 1.0
  }

  function GainOf<D>(pow2: real -> real, judged: Judgments<D>): D -> real {
    d => Gain(pow2, Relevance(judged, d))
  }

  /** The gains of a ranking, position by position. */
  function Gains<D>(pow2: real -> real, judged: Judgments<D>, ranking: seq<D>): seq<real> {
    Map(GainOf(pow2, judged), ranking)
  }

  /** Relevances in descending order, turned into gains. */
  function IdealGains(pow2: real -> real, relevances: seq<real>): seq<real> {
    Map(r => Gain(pow2, r), Sort(Descending, relevances))
  }

  ghost predicate NonNegativeJudgments<D>(judged: Judgments<D>) {
    forall d | d in judged :: judged[d] >= 0.0
  }

  /** `keys` lists every judged document once. */
  ghost predicate Enumerates<D(!new)>(keys: seq<D>, judged: Judgments<D>) {
    Distinct(keys) && forall d :: d in keys <==> d in judged
  }

  lemma GainSign(pow2: real -> real, r: real)
    requires Exponential(pow2) && r >= 0.0
    ensures Gain(pow2, r) >= 0.0 && (Gain(pow2, r) == 0.0 <==> r == 0.0)
  {
  }

  lemma MapCons<A>(f: A -> real, a: A, s: seq<A>)
    ensures multiset(Map(f, [a] + s)) == multiset(Map(f, s)) + multiset{f(a)}
  {
    assert Map(f, [a] + s) == [f(a)] + Map(f, s);
  }

  lemma MapWithout<A>(f: A -> real, s: seq<A>, j: nat)
    requires j < |s|
    ensures multiset(Map(f, Without(s, j))) + multiset{f(s[j])} == multiset(Map(f, s))
  {
    WithoutMultiset(Map(f, s), j);
    assert Without(Map(f, s), j) == Map(f, Without(s, j));
    assert Map(f, s)[j] in multiset(Map(f, s));
  }

  lemma TailUnderWithout<A>(a: seq<A>, b: seq<A>) returns (j: nat)
    requires a != [] && multiset(a) <= multiset(b)
    ensures j < |b| && b[j] == a[0] && multiset(a[1..]) <= multiset(Without(b, j)) && a == [a[0]] + a[1..]
  {
    assert a == [a[0]] + a[1..];
    assert a[0] in multiset(a);
    assert a[0] in multiset(b);
    j :| 0 <= j < |b| && b[j] == a[0];
    WithoutMultiset(b, j);
  }

  lemma {:induction false} MapMonotone<A>(f: A -> real, a: seq<A>, b: seq<A>)
    requires multiset(a) <= multiset(b)
    ensures multiset(Map(f, a)) <= multiset(Map(f, b))
  {
    if a != [] {
      var j := TailUnderWithout(a, b);
      MapMonotone(f, a[1..], Without(b, j));
      MapCons(f, a[0], a[1..]);
      MapWithout(f, b, j);
    }
  }

  lemma MapPermutation<A>(f: A -> real, a: seq<A>, b: seq<A>)
    requires multiset(a) == multiset(b)
    ensures multiset(Map(f, a)) == multiset(Map(f, b))
  {
    MapMonotone(f, a, b);
    MapMonotone(f, b, a);
  }

  /** The members of a ranking that are judged. */
  function JudgedOnly<D>(judged: Judgments<D>, ranking: seq<D>): seq<D> {
    if ranking == [] then [] else
      (if ranking[0] in judged then [ranking[0]] else []) + JudgedOnly(judged, ranking[1..])
  }

  lemma {:induction false} JudgedOnlyCount<D>(judged: Judgments<D>, ranking: seq<D>, d: D)
    ensures multiset(JudgedOnly(judged, ranking))[d] == if d in judged then multiset(ranking)[d] else 0
  {
    if ranking != [] {
      JudgedOnlyCount(judged, ranking[1..], d);
      assert ranking == [ranking[0]] + ranking[1..];
    }
  }

  /** Members on which `f` vanishes do not contribute positive values. */
  lemma {:induction false} PositiveFromJudged<D(!new)>(f: D -> real, judged: Judgments<D>, ranking: seq<D>, x: real)
    requires x > 0.0 && forall d | d !in judged :: f(d) == 0.0
    ensures multiset(Map(f, ranking))[x] == multiset(Map(f, JudgedOnly(judged, ranking)))[x]
  {
    if ranking != [] {
      PositiveFromJudged(f, judged, ranking[1..], x);
      MapCons(f, ranking[0], ranking[1..]);
      assert ranking == [ranking[0]] + ranking[1..];
      var rest := JudgedOnly(judged, ranking[1..]);
      if ranking[0] in judged {
        MapCons(f, ranking[0], rest);
      } else {
        assert JudgedOnly(judged, ranking) == rest;
      }
    }
  }

  lemma IdealGainsPermute<D(!new)>(pow2: real -> real, judged: Judgments<D>, keys: seq<D>)
    requires forall d | d in keys :: d in judged
    ensures multiset(IdealGains(pow2, Map(d => Relevance(judged, d), keys))) == multiset(Gains(pow2, judged, keys))
  {
    var values := Map(d => Relevance(judged, d), keys);
    var gain := r => Gain(pow2, r);
    SortMultiset(Descending, values);
    MapPermutation(gain, Sort(Descending, values), values);
    assert Map(gain, values) == Gains(pow2, judged, keys);
  }

  lemma IdealGainsDescend(pow2: real -> real, relevances: seq<real>)
    requires Exponential(pow2) && NonNegative(relevances)
    ensures Sorted(Descending, IdealGains(pow2, relevances)) && NonNegative(IdealGains(pow2, relevances))
  {
    DescendingOrder();
    SortSorted(Descending, relevances);
    SortMembers(Descending, relevances);
    var sorted := Sort(Descending, relevances);
    forall i | 0 <= i < |sorted| ensures Gain(pow2, sorted[i]) >= 0.0 {
      assert sorted[i] in relevances;
      GainSign(pow2, sorted[i]);
    }
    forall i, j | 0 <= i < j < |sorted| ensures Gain(pow2, sorted[i]) >= Gain(pow2, sorted[j]) {
      assert Descending(sorted[i], sorted[j]);
    }
  }

  lemma JudgedUnderKeys<D(!new)>(judged: Judgments<D>, keys: seq<D>, ranking: seq<D>)
    requires Enumerates(keys, judged) && Distinct(ranking)
    ensures multiset(JudgedOnly(judged, ranking)) <= multiset(keys)
  {
    DistinctMultiset(ranking);
    DistinctMultiset(keys);
    forall d ensures multiset(JudgedOnly(judged, ranking))[d] <= multiset(keys)[d] {
      JudgedOnlyCount(judged, ranking, d);
      assert d in ranking <==> d in multiset(ranking);
      assert d in keys <==> d in multiset(keys);
    }
  }

  lemma GainsNonNegative<D>(pow2: real -> real, judged: Judgments<D>, ranking: seq<D>)
    requires Exponential(pow2) && NonNegativeJudgments(judged)
    ensures NonNegative(Gains(pow2, judged, ranking))
  {
    forall i | 0 <= i < |ranking| ensures Gains(pow2, judged, ranking)[i] >= 0.0 {
      GainSign(pow2, Relevance(judged, ranking[i]));
    }
  }

  /** A ranking without repetitions selects its positive gains from the judged ones. */
  lemma DistinctRankingSelects<D(!new)>(pow2: real -> real, judged: Judgments<D>, keys: seq<D>, ranking: seq<D>)
    requires Exponential(pow2) && NonNegativeJudgments(judged) && Enumerates(keys, judged) && Distinct(ranking)
    ensures Selects(Gains(pow2, judged, ranking), IdealGains(pow2, Map(d => Relevance(judged, d), keys)))
  {
    var g, ideal := Gains(pow2, judged, ranking), IdealGains(pow2, Map(d => Relevance(judged, d), keys));
    IdealGainsDescend(pow2, Map(d => Relevance(judged, d), keys));
    GainsNonNegative(pow2, judged, ranking);
    JudgedUnderKeys(judged, keys, ranking);
    MapMonotone(GainOf(pow2, judged), JudgedOnly(judged, ranking), keys);
    IdealGainsPermute(pow2, judged, keys);
    forall x | x > 0.0 ensures multiset(g)[x] <= multiset(ideal)[x] {
      PositiveFromJudged(GainOf(pow2, judged), judged, ranking, x);
    }
  }

  /** DCG of a ranking without repetitions never exceeds the ideal. */
  lemma RankingBelowIdeal<D(!new)>(log2: nat -> real, pow2: real -> real, judged: Judgments<D>,
                                     keys: seq<D>, ranking: seq<D>, k: nat)
    requires Logarithm(log2) && Exponential(pow2)
    requires NonNegativeJudgments(judged) && Enumerates(keys, judged) && Distinct(ranking)
    ensures 0.0 <= Dcg(log2, Gains(pow2, judged, ranking), k)
                <= Dcg(log2, IdealGains(pow2, Map(d => Relevance(judged, d), keys)), k)
  {
    var values := Map(d => Relevance(judged, d), keys);
    IdealGainsDescend(pow2, values);
    DistinctRankingSelects(pow2, judged, keys, ranking);
    DcgBelowIdeal(log2, Gains(pow2, judged, ranking), IdealGains(pow2, values), k);
  }

  /** The first `k` relevances of a ranking are the largest judged ones, in order; past the end of either
      list they are zero. */
  ghost predicate BestFirst<D>(judged: Judgments<D>, keys: seq<D>, ranking: seq<D>, k: nat) {
    var values := Map(d => Relevance(judged, d), keys);
    forall i: nat | i < k :: At(Map(d => Relevance(judged, d), ranking), i) == At(Sort(Descending, values), i)
  }

  lemma GainInjective(pow2: real -> real, x: real, y: real)
    requires Exponential(pow2)
    ensures Gain(pow2, x) == Gain(pow2, y) <==> x == y
  {
    if x < y || y < x { assert pow2(x) != pow2(y); }
  }

  lemma GainsAt<D>(pow2: real -> real, judged: Judgments<D>, ranking: seq<D>, i: nat)
    requires Exponential(pow2)
    ensures At(Gains(pow2, judged, ranking), i) == Gain(pow2, At(Map(d => Relevance(judged, d), ranking), i))
  {
  }

  lemma IdealGainsAt(pow2: real -> real, values: seq<real>, i: nat)
    requires Exponential(pow2)
    ensures At(IdealGains(pow2, values), i) == Gain(pow2, At(Sort(Descending, values), i))
  {
  }

  /** A ranking without repetitions reaches the ideal exactly when it ranks the best first. */
  lemma RankingMeetsIdeal<D(!new)>(log2: nat -> real, pow2: real -> real, judged: Judgments<D>,
                                   keys: seq<D>, ranking: seq<D>, k: nat)
    requires StrictLogarithm(log2) && Exponential(pow2)
    requires NonNegativeJudgments(judged) && Enumerates(keys, judged) && Distinct(ranking)
    ensures Dcg(log2, Gains(pow2, judged, ranking), k)
         == Dcg(log2, IdealGains(pow2, Map(d => Relevance(judged, d), keys)), k)
      <==> BestFirst(judged, keys, ranking, k)
  {
    var values := Map(d => Relevance(judged, d), keys);
    var g, ideal := Gains(pow2, judged, ranking), IdealGains(pow2, values);
    IdealGainsDescend(pow2, values);
    DistinctRankingSelects(pow2, judged, keys, ranking);
    DcgMeetsIdeal(log2, g, ideal, k);
    SameGains(pow2, judged, keys, ranking, k);
  }

  lemma SameGains<D>(pow2: real -> real, judged: Judgments<D>, keys: seq<D>, ranking: seq<D>, k: nat)
    requires Exponential(pow2)
    ensures (forall i: nat | i < k ::
        At(Gains(pow2, judged, ranking), i) == At(IdealGains(pow2, Map(d => Relevance(judged, d), keys)), i))
      <==> BestFirst(judged, keys, ranking, k)
  {
    var values := Map(d => Relevance(judged, d), keys);
    forall i: nat | i < k
      ensures At(Gains(pow2, judged, ranking), i) == At(IdealGains(pow2, values), i)
         <==> At(Map(d => Relevance(judged, d), ranking), i) == At(Sort(Descending, values), i)
    {
      GainsAt(pow2, judged, ranking, i);
      IdealGainsAt(pow2, values, i);
      GainInjective(pow2, At(Map(d => Relevance(judged, d), ranking), i), At(Sort(Descending, values), i));
    }
  }

  lemma UnitExactly(x: real, y: real)
    requires y != 0.0
    ensures x / y == 1.0 <==> x == y
  {
    assert x / y * y == x;
  }

  /** The ideal is positive exactly when some judged relevance is. */
  lemma IdealSign(log2: nat -> real, pow2: real -> real, values: seq<real>, k: nat)
    requires Logarithm(log2) && Exponential(pow2) && k > 0 && NonNegative(values)
    ensures Dcg(log2, IdealGains(pow2, values), k) >= 0.0
    ensures Dcg(log2, IdealGains(pow2, values), k) != 0.0 <==> exists i | 0 <= i < |values| :: values[i] > 0.0
  {
    IdealGainsDescend(pow2, values);
    DcgSign(log2, IdealGains(pow2, values), k);
    if exists n | 0 <= n < |values| :: values[n] > 0.0 {
      IdealTop(pow2, values);
    } else {
      forall i: nat | i < k ensures At(IdealGains(pow2, values), i) == 0.0 { IdealNothing(pow2, values, i); }
    }
  }

  ghost predicate SomePositive<D>(judged: Judgments<D>) {
    exists d | d in judged :: judged[d] > 0.0
  }

  lemma JudgedIdealSign<D(!new)>(log2: nat -> real, pow2: real -> real, judged: Judgments<D>, keys: seq<D>, k: nat)
    requires Logarithm(log2) && Exponential(pow2) && k > 0
    requires NonNegativeJudgments(judged) && Enumerates(keys, judged)
    ensures var ideal := Dcg(log2, IdealGains(pow2, Map(d => Relevance(judged, d), keys)), k);
      ideal >= 0.0 && (ideal != 0.0 <==> SomePositive(judged))
  {
    var values := Map(d => Relevance(judged, d), keys);
    assert forall i | 0 <= i < |keys| :: keys[i] in judged;
    IdealSign(log2, pow2, values, k);
    if SomePositive(judged) {
      var d :| d in judged && judged[d] > 0.0;
      assert d in keys;
      var n :| 0 <= n < |keys| && keys[n] == d;
      assert values[n] > 0.0;
    }
  }

  lemma IdealTop(pow2: real -> real, values: seq<real>)
    requires Exponential(pow2) && NonNegative(values) && exists n | 0 <= n < |values| :: values[n] > 0.0
    ensures At(IdealGains(pow2, values), 0) > 0.0
  {
    var sorted := Sort(Descending, values);
    var n :| 0 <= n < |values| && values[n] > 0.0;
    SortMembers(Descending, values);
    DescendingOrder();
    SortSorted(Descending, values);
    assert values[n] in sorted;
    var m :| 0 <= m < |sorted| && sorted[m] == values[n];
    assert m > 0 ==> Descending(sorted[0], sorted[m]);
    GainSign(pow2, sorted[0]);
  }

  lemma IdealNothing(pow2: real -> real, values: seq<real>, i: nat)
    requires Exponential(pow2) && forall n | 0 <= n < |values| :: values[n] == 0.0
    ensures At(IdealGains(pow2, values), i) == 0.0
  {
    var sorted := Sort(Descending, values);
    SortMembers(Descending, values);
    if i < |sorted| {
      assert sorted[i] in values;
      GainSign(pow2, 0.0);
    }
  }
}
