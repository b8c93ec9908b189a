/** Corpus validation and NDCG in the embedder bake-off, over the reals (src/bakeoff.rs). */
module Bakeoff {
  import opened Prelude
  import opened Sorting
  import opened Ndcg
  import opened JudgedGains

  datatype Outcome = Value(value: real) | TrueZero | NoData | InvalidInput

  /** A relevance as read from a corpus file. */
  datatype Float = NonFinite | Finite(value: real)

  datatype Judgment = Judgment(doc: string, relevance: Float)

  datatype Corpus = Corpus(documents: seq<string>, queries: seq<seq<Judgment>>)

  // ---------- Validation ----------

  datatype Problem = EmptyCorpus | EmptyQuerySet | EmptyJudgments(query: nat) | BadRelevance(query: nat, judgment: nat)
    | UnknownDocument(query: nat, judgment: nat) | NoPositiveRelevance(query: nat)

  predicate SoundJudgment(documents: seq<string>, j: Judgment) {
    j.relevance.Finite? && j.relevance.value >= 0.0 && j.doc in documents
  }

  predicate SoundQuery(documents: seq<string>, q: seq<Judgment>) {
    && q != []
    && (forall j | j in q :: SoundJudgment(documents, j))
    && exists j | j in q :: j.relevance.value > 0.0
  }

  predicate SoundCorpus(c: Corpus) {
    c.documents != [] && c.queries != [] && forall q | q in c.queries :: SoundQuery(c.documents, q)
  }

  /** A sound corpus, spelled out: documents and queries, every query with judgments, every judgment of a known
      document and with a finite relevance that is not negative, and some positive one in every query. */
  lemma SoundCorpusMeans(c: Corpus)
    ensures SoundCorpus(c) <==>
      && |c.documents| > 0 && |c.queries| > 0
      && (forall i | 0 <= i < |c.queries| :: |c.queries[i]| > 0)
      && (forall i, k | 0 <= i < |c.queries| && 0 <= k < |c.queries[i]| ::
            c.queries[i][k].relevance.Finite? && !(c.queries[i][k].relevance.value < 0.0)
            && c.queries[i][k].doc in c.documents)
      && (forall i | 0 <= i < |c.queries| :: SomeAbove(c.queries[i]))
  {
    if SoundCorpus(c) {
      forall i | 0 <= i < |c.queries| ensures SoundQuery(c.documents, c.queries[i]) && SomeAbove(c.queries[i]) {
        assert c.queries[i] in c.queries;
      }
      forall i, k | 0 <= i < |c.queries| && 0 <= k < |c.queries[i]|
        ensures SoundJudgment(c.documents, c.queries[i][k])
      {
        assert c.queries[i] in c.queries && c.queries[i][k] in c.queries[i];
      }
    }
  }

  predicate SomeAbove(q: seq<Judgment>) {
    exists k :: 0 <= k < |q| && q[k].relevance.Finite? && q[k].relevance.value > 0.0
  }

  /** The nested validation loops with their flag. A reported query is the first unsound one. */
  method Validate(c: Corpus) returns (r: Result<(), Problem>)
    ensures r.Success? <==> SoundCorpus(c)
    ensures r.Failure? ==> match r.error
      case EmptyCorpus => c.documents == []
      case EmptyQuerySet => c.documents != [] && c.queries == []
      case EmptyJudgments(i) => FirstUnsound(c, i) && c.queries[i] == []
      case BadRelevance(i, k) => FirstUnsound(c, i) && k < |c.queries[i]| &&
        (c.queries[i][k].relevance.NonFinite? || c.queries[i][k].relevance.value < 0.0)
      case UnknownDocument(i, k) => FirstUnsound(c, i) && k < |c.queries[i]| && c.queries[i][k].doc !in c.documents
      case NoPositiveRelevance(i) => FirstUnsound(c, i) && forall j | j in c.queries[i] :: j.relevance == Finite(0.0)
  {
    if c.documents == [] { return Failure(EmptyCorpus); }
    if c.queries == [] { return Failure(EmptyQuerySet); }
    var i := 0;
    while i < |c.queries|
      invariant 0 <= i <= |c.queries|
      invariant forall k | 0 <= k < i :: SoundQuery(c.documents, c.queries[k])
    {
      var q := c.queries[i];
      assert q in c.queries;
      if q == [] { return Failure(EmptyJudgments(i)); }
      var positive := false;
      var k := 0;
      while k < |q|
        invariant 0 <= k <= |q|
        invariant forall n | 0 <= n < k :: SoundJudgment(c.documents, q[n])
        invariant positive <==> exists n | 0 <= n < k :: q[n].relevance.value > 0.0
      {
        assert q[k] in q;
        if q[k].relevance.NonFinite? { return Failure(BadRelevance(i, k)); }
        if q[k].relevance.value < 0.0 { return Failure(BadRelevance(i, k)); }
        if q[k].doc !in c.documents { return Failure(UnknownDocument(i, k)); }
        positive := positive || q[k].relevance.value > 0.0;
        k := k + 1;
      }
      if !positive { return Failure(NoPositiveRelevance(i)); }
      i := i + 1;
    }
    r := Success(());
  }

  predicate FirstUnsound(c: Corpus, i: nat) {
    i < |c.queries| && !SoundQuery(c.documents, c.queries[i]) && forall k | 0 <= k < i ::
      SoundQuery(c.documents, c.queries[k])
  }

  // ---------- NDCG@k ----------

  /** The accumulation loop. */
  method DcgAtK(log2: nat -> real, pow2: real -> real, relevances: seq<Float>, k: nat) returns (r: Outcome)
    requires Logarithm(log2) && Exponential(pow2)
    ensures r == DcgOutcome(log2, pow2, relevances, k)
  {
    var count := 0;
    var sum := 0.0;
    while count < |relevances| && count < k
      invariant 0 <= count <= |relevances| && count <= k
      invariant forall i | 0 <= i < count :: Sane(relevances[i])
      invariant sum == Dcg(log2, FloatGains(pow2, relevances), count)
    {
      var relevance := relevances[count];
      if relevance.NonFinite? || relevance.value < 0.0 { return InvalidInput; }
      sum := sum + (pow2(relevance.value) - 1.0) / log2(count + 2);
      count := count + 1;
    }
    if count == 0 {
      r := NoData;
    } else {
      DcgPastEnd(log2, FloatGains(pow2, relevances), count, k);
      NothingInsane(relevances, k, count);
      r := if sum == 0.0 then TrueZero else Value(sum);
    }
  }

  predicate SomeInsane(relevances: seq<Float>, k: nat) {
    exists i | 0 <= i < |relevances| && i < k :: !Sane(relevances[i])
  }

  lemma NothingInsane(relevances: seq<Float>, k: nat, count: nat)
    requires count == |relevances| <= k || count == k <= |relevances|
    requires forall i | 0 <= i < count :: Sane(relevances[i])
    ensures !SomeInsane(relevances, k)
  {
  }

  predicate Sane(x: Float) {
    x.Finite? && x.value >= 0.0
  }

  function FloatGains(pow2: real -> real, relevances: seq<Float>): (r: seq<real>)
    ensures |r| == |relevances|
  {
    seq(|relevances|, i requires 0 <= i < |relevances| =>
      if relevances[i].Finite? then pow2(relevances[i].value) - 1.0 else 0.0)
  }

  /** Invalid input within the first `k` is reported as such; otherwise the sum over the first `k`. */
  ghost function DcgOutcome(log2: nat -> real, pow2: real -> real, relevances: seq<Float>, k: nat): Outcome
    requires Logarithm(log2)
  {
    if SomeInsane(relevances, k) then InvalidInput
    else if relevances == [] || k == 0 then NoData
    else
      var sum := Dcg(log2, FloatGains(pow2, relevances), k);
      if sum == 0.0 then TrueZero else Value(sum)
  }

  lemma {:induction false} DcgPastEnd(log2: nat -> real, g: seq<real>, m: nat, n: nat)
    requires Logarithm(log2) && m <= n && (|g| <= m || m == n)
    ensures Dcg(log2, g, m) == Dcg(log2, g, n)
  {
    if m < n {
      DcgPastEnd(log2, g, m, n - 1);
      assert 0.0 / log2(n + 1) == 0.0;
    }
  }

  function SafeRatio(numerator: real, denominator: real): Outcome {
    if denominator < 0.0 then InvalidInput
    else if denominator == 0.0 then NoData
    else if numerator / denominator == 0.0 then TrueZero
    else Value(numerator / denominator)
  }

  function Unwrap(xs: seq<Float>): (r: seq<real>)
    ensures |r| == |xs| && forall i | 0 <= i < |xs| :: r[i] == if xs[i].Finite? then xs[i].value else 0.0
  {
    seq(|xs|, i requires 0 <= i < |xs| => if xs[i].Finite? then xs[i].value else 0.0)
  }

  function Wrap(xs: seq<real>): (r: seq<Float>)
    ensures |r| == |xs| && forall i | 0 <= i < |xs| :: r[i] == Finite(xs[i])
  {
    seq(|xs|, i requires 0 <= i < |xs| => Finite(xs[i]))
  }

  method NdcgAtK(log2: nat -> real, pow2: real -> real, relevances: seq<Float>, k: nat, truth: seq<Float>)
    returns (r: Outcome)
    requires Logarithm(log2) && Exponential(pow2)
    ensures r == NdcgOutcome(log2, pow2, relevances, k, truth)
  {
    if k == 0 || relevances == [] || truth == [] { return NoData; }
    var outcome := DcgAtK(log2, pow2, relevances, k);
    var dcg := 0.0;
    match outcome {
      case Value(v) => dcg := v;
      case TrueZero =>
      case _ => return outcome;
    }
    if exists x | x in truth :: !Sane(x) { return InvalidInput; }
    var ideal := Sort(Descending, Unwrap(truth));
    var best := DcgAtK(log2, pow2, Wrap(ideal), k);
    IdealOutcome(log2, pow2, truth, k);
    match best {
      case Value(v) => if v > 0.0 { r := SafeRatio(dcg, v); } else { r := NoData; }
      case TrueZero => r := NoData;
      case _ => r := best;
    }
  }

  ghost function IdealDcg(log2: nat -> real, pow2: real -> real, truth: seq<Float>, k: nat): real
    requires Logarithm(log2)
  {
    Dcg(log2, IdealGains(pow2, Unwrap(truth)), k)
  }

  /** What NDCG@k means: invalid input is reported; without data or with an all-zero ideal there is
      no value; otherwise it is the ratio to the ideal. */
  ghost function NdcgOutcome(log2: nat -> real, pow2: real -> real, relevances: seq<Float>, k: nat,
                             truth: seq<Float>): Outcome
    requires Logarithm(log2)
  {
    if k == 0 || relevances == [] || truth == [] then NoData
    else if SomeInsane(relevances, k) then InvalidInput
    else if exists x | x in truth :: !Sane(x) then InvalidInput
    else if IdealDcg(log2, pow2, truth, k) == 0.0 then NoData
    else
      var ratio := Dcg(log2, FloatGains(pow2, relevances), k) / IdealDcg(log2, pow2, truth, k);
      if ratio == 0.0 then TrueZero else Value(ratio)
  }

  lemma IdealOutcome(log2: nat -> real, pow2: real -> real, truth: seq<Float>, k: nat)
    requires Logarithm(log2) && Exponential(pow2) && truth != [] && k > 0 && forall x | x in truth :: Sane(x)
    ensures var ideal := Wrap(Sort(Descending, Unwrap(truth)));
      && (forall i | 0 <= i < |ideal| :: Sane(ideal[i])) && ideal != []
      && FloatGains(pow2, ideal) == IdealGains(pow2, Unwrap(truth))
      && IdealDcg(log2, pow2, truth, k) >= 0.0
  {
    var values := Unwrap(truth);
    SortMembers(Descending, values);
    var sorted := Sort(Descending, values);
    forall i | 0 <= i < |sorted| ensures sorted[i] >= 0.0 {
      assert sorted[i] in values;
      var n :| 0 <= n < |values| && values[n] == sorted[i];
      assert truth[n] in truth;
    }
    assert NonNegative(values) by {
      forall n | 0 <= n < |values| ensures values[n] >= 0.0 { assert truth[n] in truth; }
    }
    IdealGainsDescend(pow2, values);
    DcgSign(log2, IdealGains(pow2, values), k);
  }

  // ---------- Evaluation ----------

  /** Judgments collected into a map: a later judgment of the same document replaces an earlier one. */
  function LastJudgments(q: seq<Judgment>): Judgments<string> {
    if q == [] then map[] else
      var last := q[|q| - 1];
      LastJudgments(q[..|q| - 1])[last.doc := if last.relevance.Finite? then last.relevance.value else 0.0]
  }

  lemma {:induction false} LastJudgmentsFrom(q: seq<Judgment>, d: string)
    ensures d in LastJudgments(q) <==> exists j :: j in q && j.doc == d
    ensures d in LastJudgments(q) && (forall j | j in q :: j.relevance.Finite?) ==>
      Judgment(d, Finite(LastJudgments(q)[d])) in q
  {
    if q != [] {
      LastJudgmentsFrom(q[..|q| - 1], d);
      assert q == q[..|q| - 1] + [q[|q| - 1]];
    }
  }

  /** No document is judged twice. */
  ghost predicate DistinctJudgments(q: seq<Judgment>) {
    forall i, j | 0 <= i < j < |q| :: q[i].doc != q[j].doc
  }

  lemma {:induction false} DistinctJudgmentsKept(q: seq<Judgment>, j: Judgment)
    requires DistinctJudgments(q) && j in q && j.relevance.Finite?
    ensures j.doc in LastJudgments(q) && LastJudgments(q)[j.doc] == j.relevance.value
  {
    var n := |q| - 1;
    assert q == q[..n] + [q[n]];
    if j in q[..n] {
      DistinctJudgmentsKept(q[..n], j);
    }
  }

  /** Some arrangement of all documents by similarity; the embedder decides which. */
  ghost predicate Arrangement(order: seq<nat>, size: nat) {
    |order| == size && Distinct(order) && forall i | 0 <= i < |order| :: order[i] < size
  }

  function Ranked(documents: seq<string>, order: seq<nat>, k: nat): (r: seq<string>)
    requires forall i | 0 <= i < |order| :: order[i] < |documents|
  {
    var n := if |order| < k then |order| else k;
    seq(n, i requires 0 <= i < n => documents[order[i]])
  }

  function Relevances(judged: Judgments<string>, ranked: seq<string>): (r: seq<Float>)
    ensures |r| == |ranked| && forall i | 0 <= i < |r| :: r[i] == Finite(Relevance(judged, ranked[i]))
  {
    seq(|ranked|, i requires 0 <= i < |ranked| => Finite(Relevance(judged, ranked[i])))
  }

  /** The judged relevances, in some order of the map. */
  ghost function AllTruth(judged: Judgments<string>, keys: seq<string>): seq<Float> {
    Wrap(Map(d => Relevance(judged, d), keys))
  }

  predicate Numeric(o: Outcome) { o.Value? || o.TrueZero? }

  function Number(o: Outcome): real {
    if o.Value? then o.value else 0.0
  }

  ghost function QueryOutcome(log2: nat -> real, pow2: real -> real, documents: seq<string>, q: seq<Judgment>,
                              order: seq<nat>, keys: seq<string>, k: nat): Outcome
    requires Logarithm(log2) && Arrangement(order, |documents|)
  {
    NdcgOutcome(log2, pow2, Relevances(LastJudgments(q), Ranked(documents, order, k)), k,
                AllTruth(LastJudgments(q), keys))
  }

  lemma UnwrapWrap(xs: seq<real>)
    ensures Unwrap(Wrap(xs)) == xs
  {
  }

  lemma SoundMap(documents: seq<string>, q: seq<Judgment>)
    requires SoundQuery(documents, q)
    ensures NonNegativeJudgments(LastJudgments(q)) && LastJudgments(q) != map[]
  {
    var judged := LastJudgments(q);
    forall d | d in judged ensures judged[d] >= 0.0 {
      LastJudgmentsFrom(q, d);
      assert SoundJudgment(documents, Judgment(d, Finite(judged[d])));
    }
    LastJudgmentsFrom(q, q[0].doc);
  }

  lemma IdealPositive(log2: nat -> real, pow2: real -> real, judged: Judgments<string>, keys: seq<string>, k: nat)
    requires Logarithm(log2) && Exponential(pow2) && k > 0
    requires NonNegativeJudgments(judged) && Enumerates(keys, judged)
    ensures IdealDcg(log2, pow2, AllTruth(judged, keys), k) != 0.0 <==> SomePositive(judged)
    ensures IdealDcg(log2, pow2, AllTruth(judged, keys), k) >= 0.0
  {
    UnwrapWrap(Map(d => Relevance(judged, d), keys));
    JudgedIdealSign(log2, pow2, judged, keys, k);
  }

  lemma RankedGains(pow2: real -> real, judged: Judgments<string>, ranked: seq<string>)
    ensures FloatGains(pow2, Relevances(judged, ranked)) == Gains(pow2, judged, ranked)
  {
  }

  /** A query of a sound corpus has an NDCG exactly when its judgments, as collected, contain a
      positive relevance. */
  lemma QueryHasNdcg(log2: nat -> real, pow2: real -> real, documents: seq<string>, q: seq<Judgment>,
                     order: seq<nat>, keys: seq<string>, k: nat)
    requires Logarithm(log2) && Exponential(pow2) && k > 0 && documents != []
    requires SoundQuery(documents, q) && Arrangement(order, |documents|) && Enumerates(keys, LastJudgments(q))
    ensures Numeric(QueryOutcome(log2, pow2, documents, q, order, keys, k)) <==> SomePositive(LastJudgments(q))
    ensures SomePositive(LastJudgments(q)) ==>
      Number(QueryOutcome(log2, pow2, documents, q, order, keys, k))
        == QueryRatio(log2, pow2, documents, q, order, keys, k)
  {
    var judged := LastJudgments(q);
    var ranked := Ranked(documents, order, k);
    SoundMap(documents, q);
    TruthIsSane(judged, keys);
    NdcgOfSane(log2, pow2, Relevances(judged, ranked), k, AllTruth(judged, keys));
    IdealPositive(log2, pow2, judged, keys, k);
    RankedGains(pow2, judged, ranked);
  }

  /** The ratio of a query's DCG to its ideal. */
  ghost function QueryRatio(log2: nat -> real, pow2: real -> real, documents: seq<string>, q: seq<Judgment>,
                            order: seq<nat>, keys: seq<string>, k: nat): real
    requires Logarithm(log2) && Arrangement(order, |documents|)
  {
    var ideal := IdealDcg(log2, pow2, AllTruth(LastJudgments(q), keys), k);
    if ideal == 0.0 then 0.0 else Dcg(log2, Gains(pow2, LastJudgments(q), Ranked(documents, order, k)), k) / ideal
  }

  /** On sane input there is a value exactly when the ideal is not zero, and it is the ratio. */
  lemma NdcgOfSane(log2: nat -> real, pow2: real -> real, relevances: seq<Float>, k: nat, truth: seq<Float>)
    requires Logarithm(log2) && k > 0 && relevances != [] && truth != []
    requires (forall i | 0 <= i < |relevances| :: Sane(relevances[i])) && forall x | x in truth :: Sane(x)
    ensures var outcome := NdcgOutcome(log2, pow2, relevances, k, truth);
      var ideal := IdealDcg(log2, pow2, truth, k);
      && (Numeric(outcome) <==> ideal != 0.0)
      && (ideal != 0.0 ==> Number(outcome) == Dcg(log2, FloatGains(pow2, relevances), k) / ideal)
  {
  }

  lemma TruthIsSane(judged: Judgments<string>, keys: seq<string>)
    requires NonNegativeJudgments(judged) && Enumerates(keys, judged) && judged != map[]
    ensures AllTruth(judged, keys) != [] && forall x | x in AllTruth(judged, keys) :: Sane(x)
  {
    var truth := AllTruth(judged, keys);
    var d :| d in judged;
    assert d in keys && |truth| > 0;
    forall x | x in truth ensures Sane(x) {
      var i :| 0 <= i < |truth| && truth[i] == x;
      assert keys[i] in judged;
    }
  }

  lemma RankedDistinct(documents: seq<string>, order: seq<nat>, k: nat)
    requires Distinct(documents) && Arrangement(order, |documents|)
    ensures Distinct(Ranked(documents, order, k))
  {
    forall i, j | 0 <= i < j < |Ranked(documents, order, k)|
      ensures Ranked(documents, order, k)[i] != Ranked(documents, order, k)[j]
    {
      assert order[i] != order[j];
      if order[i] < order[j] {
        assert documents[order[i]] != documents[order[j]];
      } else {
        assert documents[order[j]] != documents[order[i]];
      }
    }
  }

  /** With distinct document ids every NDCG that exists lies in [0, 1], whatever the embedder ranks first. */
  lemma QueryInUnitInterval(log2: nat -> real, pow2: real -> real, documents: seq<string>, q: seq<Judgment>,
                            order: seq<nat>, keys: seq<string>, k: nat)
    requires Logarithm(log2) && Exponential(pow2) && k > 0 && documents != [] && Distinct(documents)
    requires SoundQuery(documents, q) && Arrangement(order, |documents|) && Enumerates(keys, LastJudgments(q))
    requires SomePositive(LastJudgments(q))
    ensures Numeric(QueryOutcome(log2, pow2, documents, q, order, keys, k))
    ensures 0.0 <= Number(QueryOutcome(log2, pow2, documents, q, order, keys, k)) <= 1.0
  {
    var judged, ranked := LastJudgments(q), Ranked(documents, order, k);
    QueryHasNdcg(log2, pow2, documents, q, order, keys, k);
    SoundMap(documents, q);
    RankedDistinct(documents, order, k);
    RankingBelowIdeal(log2, pow2, judged, keys, ranked, k);
    UnwrapWrap(Map(d => Relevance(judged, d), keys));
    IdealPositive(log2, pow2, judged, keys, k);
    UnitRatio(Dcg(log2, Gains(pow2, judged, ranked), k), IdealDcg(log2, pow2, AllTruth(judged, keys), k));
  }

  /** It is 1 exactly when the first `k` documents have the largest judged relevances, in order. */
  lemma QueryOneExactly(log2: nat -> real, pow2: real -> real, documents: seq<string>, q: seq<Judgment>,
                        order: seq<nat>, keys: seq<string>, k: nat)
    requires StrictLogarithm(log2) && Exponential(pow2) && k > 0 && documents != [] && Distinct(documents)
    requires SoundQuery(documents, q) && Arrangement(order, |documents|) && Enumerates(keys, LastJudgments(q))
    requires SomePositive(LastJudgments(q))
    ensures Number(QueryOutcome(log2, pow2, documents, q, order, keys, k)) == 1.0
      <==> BestFirst(LastJudgments(q), keys, Ranked(documents, order, k), k)
  {
    var judged, ranked := LastJudgments(q), Ranked(documents, order, k);
    QueryHasNdcg(log2, pow2, documents, q, order, keys, k);
    SoundMap(documents, q);
    RankedDistinct(documents, order, k);
    RankingMeetsIdeal(log2, pow2, judged, keys, ranked, k);
    UnwrapWrap(Map(d => Relevance(judged, d), keys));
    IdealPositive(log2, pow2, judged, keys, k);
    UnitExactly(Dcg(log2, Gains(pow2, judged, ranked), k), IdealDcg(log2, pow2, AllTruth(judged, keys), k));
  }

  lemma UnitRatio(x: real, y: real)
    requires 0.0 <= x <= y && y > 0.0
    ensures 0.0 <= x / y <= 1.0
  {
  }

  /** Distinct judged ids make the flag of the validation loop mean what the evaluation needs. */
  lemma DistinctJudgmentsStayPositive(documents: seq<string>, q: seq<Judgment>)
    requires SoundQuery(documents, q) && DistinctJudgments(q)
    ensures SomePositive(LastJudgments(q))
  {
    var j :| j in q && j.relevance.value > 0.0;
    assert SoundJudgment(documents, j);
    DistinctJudgmentsKept(q, j);
  }

  /** A positive judgment of `d`, replaced by a zero one. */
  function ReplacedJudgment(d: string): seq<Judgment> {
    [Judgment(d, Finite(1.0)), Judgment(d, Finite(0.0))]
  }

  lemma ReplacedJudgmentCollects(d: string)
    ensures SoundQuery([d], ReplacedJudgment(d)) && LastJudgments(ReplacedJudgment(d)) == map[d := 0.0]
  {
    var q := ReplacedJudgment(d);
    assert q[0] in q && q[0].relevance.value > 0.0;
    assert LastJudgments(q[..1]) == map[d := 1.0] by { assert q[..1][..0] == []; }
  }

  /** Without distinct judged ids it does not: such a query passes validation and has no NDCG, for
      every number of counted results. */
  lemma ReplacedJudgmentHasNoNdcg(log2: nat -> real, pow2: real -> real, d: string, k: nat)
    requires Logarithm(log2) && Exponential(pow2) && k > 0
    ensures SoundQuery([d], ReplacedJudgment(d)) && !SomePositive(LastJudgments(ReplacedJudgment(d)))
    ensures Arrangement([0], 1) && Enumerates([d], LastJudgments(ReplacedJudgment(d)))
    ensures !Numeric(QueryOutcome(log2, pow2, [d], ReplacedJudgment(d), [0], [d], k))
  {
    ReplacedJudgmentCollects(d);
    QueryHasNdcg(log2, pow2, [d], ReplacedJudgment(d), [0], [d], k);
  }

  // ---------- Exactly which document lists are safe ----------

  /** An arrangement that puts two given documents first. */
  function Front(size: nat, a: nat, b: nat): (order: seq<nat>)
    requires a < b < size
    ensures Arrangement(order, size) && order[0] == a && order[1] == b
  {
    var s := seq(size, i requires 0 <= i < size => i);
    var s1 := s[0 := a][a := 0];
    s1[1 := b][b := s1[1]]
  }

  lemma {:induction false} DcgGrows(log2: nat -> real, g: seq<real>, m: nat, n: nat)
    requires Logarithm(log2) && NonNegative(g) && m <= n
    ensures Dcg(log2, g, m) <= Dcg(log2, g, n)
  {
    if m < n {
      DcgGrows(log2, g, m, n - 1);
      assert At(g, n - 1) >= 0.0;
      assert At(g, n - 1) / log2(n + 1) >= 0.0;
    }
  }

  /** One judgment, of the repeated document. */
  lemma SingleJudgment(documents: seq<string>, d: string)
    requires d in documents
    ensures var q := [Judgment(d, Finite(1.0))];
      && SoundQuery(documents, q) && LastJudgments(q) == map[d := 1.0]
      && Enumerates([d], LastJudgments(q)) && SomePositive(LastJudgments(q))
  {
    var q := [Judgment(d, Finite(1.0))];
    assert q[..0] == [] && q[0] in q;
    assert d in map[d := 1.0];
  }

  /** It comes first and second, so its gain is counted twice. */
  lemma RepeatedGains(log2: nat -> real, pow2: real -> real, documents: seq<string>, a: nat, b: nat, k: nat)
    requires Logarithm(log2) && Exponential(pow2) && k > 1
    requires a < b < |documents| && documents[a] == documents[b]
    ensures var gains := Gains(pow2, map[documents[a] := 1.0], Ranked(documents, Front(|documents|, a, b), k));
      Dcg(log2, gains, k) >= (pow2(1.0) - 1.0) / log2(2) + (pow2(1.0) - 1.0) / log2(3)
  {
    var judged: Judgments<string> := map[documents[a] := 1.0];
    var ranked := Ranked(documents, Front(|documents|, a, b), k);
    var gains := Gains(pow2, judged, ranked);
    GainsNonNegative(pow2, judged, ranked);
    assert At(gains, 0) == pow2(1.0) - 1.0 && At(gains, 1) == pow2(1.0) - 1.0;
    TwoGains(log2, gains, pow2(1.0) - 1.0);
    DcgGrows(log2, gains, 2, k);
  }

  lemma MoreThanOnce(x: real, g: real, l2: real, l3: real)
    requires g > 0.0 && l2 > 0.0 && l3 > 0.0 && x >= g / l2 + g / l3
    ensures x / (g / l2) > 1.0
  {
    assert g / l2 > 0.0 && g / l3 > 0.0;
    AboveOne(x, g / l2);
  }

  /** A document listed twice and judged once can score above 1. */
  lemma RepeatedDocumentExceedsOne(log2: nat -> real, pow2: real -> real, documents: seq<string>, a: nat, b: nat,
                                   k: nat)
    returns (q: seq<Judgment>, order: seq<nat>, keys: seq<string>)
    requires Logarithm(log2) && Exponential(pow2) && k > 1
    requires a < b < |documents| && documents[a] == documents[b]
    ensures SoundQuery(documents, q) && Arrangement(order, |documents|)
    ensures Enumerates(keys, LastJudgments(q)) && SomePositive(LastJudgments(q))
    ensures Number(QueryOutcome(log2, pow2, documents, q, order, keys, k)) > 1.0
  {
    var d := documents[a];
    q, order, keys := [Judgment(d, Finite(1.0))], Front(|documents|, a, b), [d];
    SingleJudgment(documents, d);
    QueryHasNdcg(log2, pow2, documents, q, order, keys, k);
    RepeatedRatio(log2, pow2, documents, a, b, k);
  }

  lemma RepeatedRatio(log2: nat -> real, pow2: real -> real, documents: seq<string>, a: nat, b: nat, k: nat)
    requires Logarithm(log2) && Exponential(pow2) && k > 1
    requires a < b < |documents| && documents[a] == documents[b]
    ensures var d := documents[a];
      QueryRatio(log2, pow2, documents, [Judgment(d, Finite(1.0))], Front(|documents|, a, b), [d], k) > 1.0
  {
    var d := documents[a];
    SingleJudgment(documents, d);
    GainSign(pow2, 1.0);
    SingleIdeal(log2, pow2, map[d := 1.0], d, k);
    RepeatedGains(log2, pow2, documents, a, b, k);
    var gains := Gains(pow2, map[d := 1.0], Ranked(documents, Front(|documents|, a, b), k));
    MoreThanOnce(Dcg(log2, gains, k), pow2(1.0) - 1.0, log2(2), log2(3));
  }

  lemma TwoGains(log2: nat -> real, gains: seq<real>, g: real)
    requires Logarithm(log2) && At(gains, 0) == g && At(gains, 1) == g
    ensures Dcg(log2, gains, 2) == g / log2(2) + g / log2(3)
  {
    assert Dcg(log2, gains, 0) == 0.0;
    assert Dcg(log2, gains, 1) == Dcg(log2, gains, 0) + At(gains, 0) / log2(2);
  }

  lemma AboveOne(x: real, y: real)
    requires x > y > 0.0
    ensures x / y > 1.0
  {
  }

  lemma SingleIdeal(log2: nat -> real, pow2: real -> real, judged: Judgments<string>, d: string, k: nat)
    requires Logarithm(log2) && Exponential(pow2) && judged == map[d := 1.0] && k > 0
    ensures IdealDcg(log2, pow2, AllTruth(judged, [d]), k) == (pow2(1.0) - 1.0) / log2(2)
  {
    var values := Map(x => Relevance(judged, x), [d]);
    UnwrapWrap(values);
    assert values == [1.0];
    SortIdempotent(Descending, values);
    var ideal := IdealGains(pow2, values);
    assert ideal == [pow2(1.0) - 1.0];
    DcgPastEnd(log2, ideal, 1, k);
    assert Dcg(log2, ideal, 1) == Dcg(log2, ideal, 0) + At(ideal, 0) / log2(2);
  }

  /** NDCG@k stays in [0, 1] for every sound query and every ranking exactly when the corpus lists no
      document id twice, or only the first result counts. */
  lemma DistinctIdsExactly(log2: nat -> real, pow2: real -> real, documents: seq<string>, k: nat)
    requires Logarithm(log2) && Exponential(pow2) && documents != [] && k > 0
    ensures Distinct(documents) || k == 1 <==>
      forall q, order, keys | SafeQuery(documents, q, order, keys) ::
        0.0 <= Number(QueryOutcome(log2, pow2, documents, q, order, keys, k)) <= 1.0
  {
    if Distinct(documents) || k == 1 {
      forall q, order, keys | SafeQuery(documents, q, order, keys)
        ensures 0.0 <= Number(QueryOutcome(log2, pow2, documents, q, order, keys, k)) <= 1.0
      {
        if k == 1 {
          FirstResultOnly(log2, pow2, documents, q, order, keys);
        } else {
          QueryInUnitInterval(log2, pow2, documents, q, order, keys, k);
        }
      }
    } else {
      var a, b :| 0 <= a < b < |documents| && documents[a] == documents[b];
      var q, order, keys := RepeatedDocumentExceedsOne(log2, pow2, documents, a, b, k);
      assert SafeQuery(documents, q, order, keys);
    }
  }

  ghost predicate SafeQuery(documents: seq<string>, q: seq<Judgment>, order: seq<nat>, keys: seq<string>) {
    && SoundQuery(documents, q) && Arrangement(order, |documents|)
    && Enumerates(keys, LastJudgments(q)) && SomePositive(LastJudgments(q))
  }

  lemma FirstResultOnly(log2: nat -> real, pow2: real -> real, documents: seq<string>, q: seq<Judgment>,
                        order: seq<nat>, keys: seq<string>)
    requires Logarithm(log2) && Exponential(pow2) && documents != [] && SafeQuery(documents, q, order, keys)
    ensures 0.0 <= Number(QueryOutcome(log2, pow2, documents, q, order, keys, 1)) <= 1.0
  {
    var judged, ranked := LastJudgments(q), Ranked(documents, order, 1);
    QueryHasNdcg(log2, pow2, documents, q, order, keys, 1);
    SoundMap(documents, q);
    RankingBelowIdeal(log2, pow2, judged, keys, ranked, 1);
    UnwrapWrap(Map(d => Relevance(judged, d), keys));
    IdealPositive(log2, pow2, judged, keys, 1);
    UnitRatio(Dcg(log2, Gains(pow2, judged, ranked), 1), IdealDcg(log2, pow2, AllTruth(judged, keys), 1));
  }

  // ---------- The evaluation loop ----------

  datatype EvaluationError = ZeroK | BadCorpus(problem: Problem) | NdcgUnavailable(query: nat)

  function Total(xs: seq<real>): real {
    if xs == [] then 0.0 else Total(xs[..|xs| - 1]) + xs[|xs| - 1]
  }

  lemma {:induction false} TotalInRange(xs: seq<real>)
    requires forall i | 0 <= i < |xs| :: 0.0 <= xs[i] <= 1.0
    ensures 0.0 <= Total(xs) <= |xs| as real
  {
    if xs != [] {
      TotalInRange(xs[..|xs| - 1]);
    }
  }

  /** Per query: the order the embedder ranks the documents in, and the order the map iterates in. */
  datatype Ranking = Ranking(order: seq<nat>, keys: seq<string>)

  ghost predicate Rankings(c: Corpus, rankings: seq<Ranking>) {
    |rankings| == |c.queries| && forall i | 0 <= i < |rankings| ::
      Arrangement(rankings[i].order, |c.documents|) && Enumerates(rankings[i].keys, LastJudgments(c.queries[i]))
  }

  /** The ranking part of an evaluation. A valid corpus fails exactly at a query whose collected
      judgments are all zero; otherwise, with distinct document ids, the aggregate lies in [0, 1]. */
  method Evaluate(log2: nat -> real, pow2: real -> real, c: Corpus, rankings: seq<Ranking>, k: nat)
    returns (r: Result<real, EvaluationError>, ndcgs: seq<real>)
    requires Logarithm(log2) && Exponential(pow2) && Rankings(c, rankings)
    ensures r.Success? <==> k > 0 && SoundCorpus(c) && forall q | q in c.queries :: SomePositive(LastJudgments(q))
    ensures r.Failure? && r.error.NdcgUnavailable? ==>
      r.error.query < |c.queries| && !SomePositive(LastJudgments(c.queries[r.error.query]))
    ensures r.Success? ==> |ndcgs| == |c.queries| && r.value == Total(ndcgs) / |ndcgs| as real
    ensures r.Success? ==> AllHaveNdcg(log2, pow2, c.documents, c.queries, rankings, k, ndcgs)
    ensures r.Success? && Distinct(c.documents) ==> 0.0 <= r.value <= 1.0
    ensures k > 0 && SoundCorpus(c) && (forall q | q in c.queries :: DistinctJudgments(q)) ==> r.Success?
  {
    ndcgs := [];
    if k == 0 { return Failure(ZeroK), ndcgs; }
    var valid := Validate(c);
    if valid.Failure? { return Failure(BadCorpus(valid.error)), ndcgs; }
    CorpusIsProper(c, rankings);
    var missing;
    missing, ndcgs := EvaluateQueries(log2, pow2, c.documents, c.queries, rankings, k);
    if missing.Some? {
      assert c.queries[missing.value] in c.queries;
      return Failure(NdcgUnavailable(missing.value)), ndcgs;
    }
    var average := Average(ndcgs);
    r := Success(average);
  }

  /** The loop over the queries: the NDCG of each, up to the first one that has none. */
  method EvaluateQueries(log2: nat -> real, pow2: real -> real, documents: seq<string>, queries: seq<seq<Judgment>>,
                         rankings: seq<Ranking>, k: nat)
    returns (missing: Option<nat>, ndcgs: seq<real>)
    requires Logarithm(log2) && Exponential(pow2) && k > 0 && documents != [] && |rankings| == |queries|
    requires forall i | 0 <= i < |queries| :: ProperQuery(documents, queries[i], rankings[i])
    ensures missing.Some? ==> missing.value < |queries|
    ensures missing.Some? ==>
      !SomePositive(LastJudgments(queries[missing.value])) && !DistinctJudgments(queries[missing.value])
    ensures missing.None? ==> forall q | q in queries :: SomePositive(LastJudgments(q))
    ensures missing.None? ==> |ndcgs| == |queries|
    ensures |ndcgs| <= |queries| && AllHaveNdcg(log2, pow2, documents, queries, rankings, k, ndcgs)
    ensures Distinct(documents) ==> forall i | 0 <= i < |ndcgs| :: 0.0 <= ndcgs[i] <= 1.0
  {
    ndcgs := [];
    var i := 0;
    while i < |queries|
      invariant 0 <= i <= |queries| && |ndcgs| == i
      invariant AllHaveNdcg(log2, pow2, documents, queries, rankings, k, ndcgs)
      invariant Distinct(documents) ==> forall j | 0 <= j < i :: 0.0 <= ndcgs[j] <= 1.0
    {
      var outcome := EvaluateQuery(log2, pow2, documents, queries[i], rankings[i], k);
      if !Numeric(outcome) { return Some(i), ndcgs; }
      OneMoreNdcg(log2, pow2, documents, queries, rankings, k, ndcgs, Number(outcome));
      ndcgs := ndcgs + [Number(outcome)];
      i := i + 1;
    }
    NumbersArePositive(log2, pow2, documents, queries, rankings, k, ndcgs);
    missing := None;
  }

  lemma NumbersArePositive(log2: nat -> real, pow2: real -> real, documents: seq<string>,
                           queries: seq<seq<Judgment>>, rankings: seq<Ranking>, k: nat, ndcgs: seq<real>)
    requires Logarithm(log2) && |ndcgs| == |queries| == |rankings|
    requires AllHaveNdcg(log2, pow2, documents, queries, rankings, k, ndcgs)
    ensures forall q | q in queries :: SomePositive(LastJudgments(q))
  {
    forall q | q in queries ensures SomePositive(LastJudgments(q)) {
      var i :| 0 <= i < |queries| && queries[i] == q;
      assert HasNdcg(log2, pow2, documents, queries[i], rankings[i], k, ndcgs[i]);
    }
  }

  lemma CorpusIsProper(c: Corpus, rankings: seq<Ranking>)
    requires SoundCorpus(c) && Rankings(c, rankings)
    ensures forall i | 0 <= i < |c.queries| :: ProperQuery(c.documents, c.queries[i], rankings[i])
  {
    forall i | 0 <= i < |c.queries| ensures ProperQuery(c.documents, c.queries[i], rankings[i]) {
      assert c.queries[i] in c.queries;
    }
  }

  /** The numbers are the NDCGs of the first queries. */
  ghost predicate AllHaveNdcg(log2: nat -> real, pow2: real -> real, documents: seq<string>,
                              queries: seq<seq<Judgment>>,
                              rankings: seq<Ranking>, k: nat, ndcgs: seq<real>)
    requires Logarithm(log2) && |ndcgs| <= |queries| == |rankings|
  {
    forall i | 0 <= i < |ndcgs| :: HasNdcg(log2, pow2, documents, queries[i], rankings[i], k, ndcgs[i])
  }

  lemma OneMoreNdcg(log2: nat -> real, pow2: real -> real, documents: seq<string>, queries: seq<seq<Judgment>>,
                    rankings: seq<Ranking>, k: nat, ndcgs: seq<real>, x: real)
    requires Logarithm(log2) && |ndcgs| < |queries| == |rankings|
    requires AllHaveNdcg(log2, pow2, documents, queries, rankings, k, ndcgs)
    requires HasNdcg(log2, pow2, documents, queries[|ndcgs|], rankings[|ndcgs|], k, x)
    ensures AllHaveNdcg(log2, pow2, documents, queries, rankings, k, ndcgs + [x])
  {
  }

  /** `x` is the NDCG of a query whose collected judgments contain a positive relevance. */
  ghost predicate HasNdcg(log2: nat -> real, pow2: real -> real, documents: seq<string>, q: seq<Judgment>,
                          ranking: Ranking, k: nat, x: real)
    requires Logarithm(log2)
  {
    && ProperQuery(documents, q, ranking) && SomePositive(LastJudgments(q))
    && x == Number(QueryOutcome(log2, pow2, documents, q, ranking.order, ranking.keys, k))
  }

  ghost predicate ProperQuery(documents: seq<string>, q: seq<Judgment>, ranking: Ranking) {
    SoundQuery(documents, q) && Arrangement(ranking.order, |documents|) && Enumerates(ranking.keys, LastJudgments(q))
  }

  method EvaluateQuery(log2: nat -> real, pow2: real -> real, documents: seq<string>, q: seq<Judgment>,
                       ranking: Ranking, k: nat)
    returns (outcome: Outcome)
    requires Logarithm(log2) && Exponential(pow2) && k > 0 && documents != []
    requires ProperQuery(documents, q, ranking)
    ensures outcome == QueryOutcome(log2, pow2, documents, q, ranking.order, ranking.keys, k)
    ensures Numeric(outcome) <==> SomePositive(LastJudgments(q))
    ensures Numeric(outcome) ==> HasNdcg(log2, pow2, documents, q, ranking, k, Number(outcome))
    ensures DistinctJudgments(q) ==> Numeric(outcome)
    ensures Distinct(documents) ==> 0.0 <= Number(outcome) <= 1.0
  {
    var judged := LastJudgments(q);
    var relevances := Relevances(judged, Ranked(documents, ranking.order, k));
    outcome := NdcgAtK(log2, pow2, relevances, k, Wrap(Map(d => Relevance(judged, d), ranking.keys)));
    QueryHasNdcg(log2, pow2, documents, q, ranking.order, ranking.keys, k);
    if DistinctJudgments(q) { DistinctJudgmentsStayPositive(documents, q); }
    if Distinct(documents) && SomePositive(judged) {
      QueryInUnitInterval(log2, pow2, documents, q, ranking.order, ranking.keys, k);
    }
  }

  method Average(xs: seq<real>) returns (average: real)
    requires xs != []
    ensures average == Total(xs) / |xs| as real
    ensures (forall i | 0 <= i < |xs| :: 0.0 <= xs[i] <= 1.0) ==> 0.0 <= average <= 1.0
  {
    if forall i | 0 <= i < |xs| :: 0.0 <= xs[i] <= 1.0 {
      TotalInRange(xs);
      UnitAverage(Total(xs), |xs| as real);
    }
    ZeroRatio(Total(xs), |xs| as real);
    average := Number(SafeRatio(Total(xs), |xs| as real));
  }

  lemma UnitAverage(x: real, n: real)
    requires 0.0 <= x <= n && n > 0.0
    ensures 0.0 <= x / n <= 1.0
  {
  }

  lemma ZeroRatio(x: real, n: real)
    requires n > 0.0
    ensures Number(SafeRatio(x, n)) == x / n
  {
  }
}
