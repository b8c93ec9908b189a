/** Retrieval metrics of the title experiment (scripts/evaluate_title_retrieval.py). */
module TitleMetrics {
  import opened Prelude
  import opened Sorting
  import opened Ndcg
  import opened JudgedGains

  type Doc = string

  const CUTOFF := 10

  function Take<T>(s: seq<T>, n: nat): (r: seq<T>)
    ensures |r| == if |s| < n then |s| else n
    ensures r <= s
  {
    if |s| < n then s else s[..n]
  }

  /** First occurrences, in order: `dict.fromkeys`. */
  function FirstOccurrences(s: seq<Doc>): (r: seq<Doc>)
    ensures Distinct(r) && forall d :: d in r <==> d in s
  {
    if s == [] then [] else
      var before, d := FirstOccurrences(s[..|s| - 1]), s[|s| - 1];
      assert s == s[..|s| - 1] + [d];
      if d in before then before else before + [d]
  }

  /** The loop over scored hits with a `seen` set. */
  method DistinctHits(hits: seq<(Doc, real)>) returns (out: seq<Doc>)
    ensures out == Take(FirstOccurrences(Docs(hits)), CUTOFF)
  {
    var seen: set<Doc> := {};
    var all: seq<Doc> := [];
    var i := 0;
    while i < |hits|
      invariant 0 <= i <= |hits|
      invariant all == FirstOccurrences(Docs(hits[..i])) && forall d :: d in seen <==> d in all
    {
      var doc := hits[i].0;
      assert Docs(hits[..i + 1])[..i] == Docs(hits[..i]) && Docs(hits[..i + 1])[i] == doc;
      if doc !in seen {
        seen := seen + {doc};
        all := all + [doc];
      }
      i := i + 1;
    }
    assert hits[..|hits|] == hits;
    out := Take(all, CUTOFF);
  }

  function Docs(hits: seq<(Doc, real)>): (r: seq<Doc>)
    ensures |r| == |hits| && forall i | 0 <= i < |hits| :: r[i] == hits[i].0
  {
    seq(|hits|, i requires 0 <= i < |hits| => hits[i].0)
  }

  /** Position, from 1, of the first judged document. */
  function FirstHit(judged: Judgments<Doc>, ranking: seq<Doc>): (r: Option<nat>)
    ensures r.Some? ==> r.value >= 1
  {
    if ranking == [] then None
    else if ranking[0] in judged then Some(1)
    else match FirstHit(judged, ranking[1..])
      case Some(n) => Some(n + 1)
      case None => None
  }

  /** The judged documents, once each. */
  ghost function Keys(judged: Judgments<Doc>): (r: seq<Doc>)
    ensures Enumerates(r, judged) && |r| == |judged|
  {
    StringOrder();
    var r := FromSet(StringLe, judged.Keys);
    ListSize(r, judged.Keys);
    r
  }

  datatype Metrics = Metrics(hit1: bool, hit5: bool, hit10: bool, mrr10: real, recall10: real, ndcg10: real)

  ghost function Ideal(log2: nat -> real, pow2: real -> real, judged: Judgments<Doc>): real
    requires Logarithm(log2)
  {
    Dcg(log2, IdealGains(pow2, Map(d => Relevance(judged, d), Keys(judged))), CUTOFF)
  }

  ghost function Measure(log2: nat -> real, pow2: real -> real, ranking: seq<Doc>, judged: Judgments<Doc>): Metrics
    requires Logarithm(log2) && judged != map[]
  {
    var top := Take(FirstOccurrences(ranking), CUTOFF);
    var rank := FirstHit(judged, top);
    var dcg, ideal := Dcg(log2, Gains(pow2, judged, top), CUTOFF), Ideal(log2, pow2, judged);
    Metrics(rank == Some(1), rank.Some? && rank.value <= 5, rank.Some?,
            if rank.Some? then 1.0 / rank.value as real else 0.0,
            |JudgedOnly(judged, top)| as real / |judged| as real,
            if ideal != 0.0 then dcg / ideal else 0.0)
  }

  lemma {:induction false} FirstHitExactly(judged: Judgments<Doc>, ranking: seq<Doc>)
    ensures match FirstHit(judged, ranking)
      case Some(n) => 1 <= n <= |ranking| && ranking[n - 1] in judged && forall i | 0 <= i < n - 1 ::
        ranking[i] !in judged
      case None => forall d | d in ranking :: d !in judged
  {
    if ranking != [] && ranking[0] !in judged {
      FirstHitExactly(judged, ranking[1..]);
      assert ranking == [ranking[0]] + ranking[1..];
    }
  }

  lemma Ratio(x: real, y: real)
    requires 0.0 <= x <= y && y > 0.0
    ensures 0.0 <= x / y <= 1.0 && (x / y == 0.0 <==> x == 0.0)
  {
    if x > 0.0 { assert x / y > 0.0; }
  }

  lemma TakeDistinct(s: seq<Doc>, n: nat)
    requires Distinct(s)
    ensures Distinct(Take(s, n))
  {
  }

  /** NDCG lies in [0, 1] for every ranking, repetitions included, and every judgment, all-zero ones
      included. */
  lemma NdcgInUnitInterval(log2: nat -> real, pow2: real -> real, ranking: seq<Doc>, judged: Judgments<Doc>)
    requires Logarithm(log2) && Exponential(pow2) && judged != map[] && NonNegativeJudgments(judged)
    ensures 0.0 <= Measure(log2, pow2, ranking, judged).ndcg10 <= 1.0
  {
    var top := Take(FirstOccurrences(ranking), CUTOFF);
    TakeDistinct(FirstOccurrences(ranking), CUTOFF);
    RankingBelowIdeal(log2, pow2, judged, Keys(judged), top, CUTOFF);
    if Ideal(log2, pow2, judged) != 0.0 {
      Ratio(Dcg(log2, Gains(pow2, judged, top), CUTOFF), Ideal(log2, pow2, judged));
    }
  }

  /** With positive judgments, as the data set provides them, NDCG is zero exactly when nothing judged
      is among the first ten distinct documents, which is what `hit10` reports. */
  lemma NdcgVanishesExactly(log2: nat -> real, pow2: real -> real, ranking: seq<Doc>, judged: Judgments<Doc>)
    requires Logarithm(log2) && Exponential(pow2) && judged != map[]
    requires forall d | d in judged :: judged[d] > 0.0
    ensures var m := Measure(log2, pow2, ranking, judged);
      m.ndcg10 == 0.0 <==> !m.hit10
  {
    var top := Take(FirstOccurrences(ranking), CUTOFF);
    TakeDistinct(FirstOccurrences(ranking), CUTOFF);
    RankingBelowIdeal(log2, pow2, judged, Keys(judged), top, CUTOFF);
    var d :| d in judged;
    JudgedIdealSign(log2, pow2, judged, Keys(judged), CUTOFF);
    Ratio(Dcg(log2, Gains(pow2, judged, top), CUTOFF), Ideal(log2, pow2, judged));
    NoGainNoHit(log2, pow2, top, judged, CUTOFF);
  }

  /** NDCG is 1 exactly when something relevant is judged and the first ten distinct documents have the
      largest judged relevances, in order. */
  lemma NdcgOneExactly(log2: nat -> real, pow2: real -> real, ranking: seq<Doc>, judged: Judgments<Doc>)
    requires StrictLogarithm(log2) && Exponential(pow2) && judged != map[] && NonNegativeJudgments(judged)
    ensures Measure(log2, pow2, ranking, judged).ndcg10 == 1.0 <==>
      SomePositive(judged) &&
      BestFirst(judged, Keys(judged), Take(FirstOccurrences(ranking), CUTOFF), CUTOFF)
  {
    var top := Take(FirstOccurrences(ranking), CUTOFF);
    TakeDistinct(FirstOccurrences(ranking), CUTOFF);
    RankingMeetsIdeal(log2, pow2, judged, Keys(judged), top, CUTOFF);
    JudgedIdealSign(log2, pow2, judged, Keys(judged), CUTOFF);
    if Ideal(log2, pow2, judged) != 0.0 {
      UnitExactly(Dcg(log2, Gains(pow2, judged, top), CUTOFF), Ideal(log2, pow2, judged));
    }
  }

  lemma NoGainNoHit(log2: nat -> real, pow2: real -> real, top: seq<Doc>, judged: Judgments<Doc>, k: nat)
    requires Logarithm(log2) && Exponential(pow2) && |top| <= k
    requires forall d | d in judged :: judged[d] > 0.0
    ensures Dcg(log2, Gains(pow2, judged, top), k) == 0.0 <==> FirstHit(judged, top).None?
  {
    var g := Gains(pow2, judged, top);
    GainsNonNegative(pow2, judged, top);
    DcgSign(log2, g, k);
    FirstHitExactly(judged, top);
    if FirstHit(judged, top).Some? {
      var n := FirstHit(judged, top).value;
      GainSign(pow2, judged[top[n - 1]]);
      assert At(g, n - 1) > 0.0;
    } else {
      forall i: nat | i < k ensures At(g, i) == 0.0 {
        if i < |top| { assert top[i] in top; GainSign(pow2, 0.0); }
      }
    }
  }

  /** The hit flags are nested, the reciprocal rank is positive exactly on a hit, and recall counts
      each judged document once. */
  lemma MetricsAgree(log2: nat -> real, pow2: real -> real, ranking: seq<Doc>, judged: Judgments<Doc>)
    requires Logarithm(log2) && judged != map[]
    ensures var m := Measure(log2, pow2, ranking, judged);
      && (m.hit1 ==> m.hit5) && (m.hit5 ==> m.hit10)
      && (m.hit1 <==> m.mrr10 == 1.0) && (m.hit10 <==> m.mrr10 >= 0.1) && 0.0 <= m.mrr10 <= 1.0
      && 0.0 <= m.recall10 <= 1.0 && (m.recall10 == 0.0 <==> !m.hit10)
  {
    var top := Take(FirstOccurrences(ranking), CUTOFF);
    TakeDistinct(FirstOccurrences(ranking), CUTOFF);
    FirstHitExactly(judged, top);
    JudgedUnderKeys(judged, Keys(judged), top);
    SubmultisetSize(multiset(JudgedOnly(judged, top)), multiset(Keys(judged)));
    Ratio(|JudgedOnly(judged, top)| as real, |judged| as real);
    JudgedOnlyEmpty(judged, top);
    if FirstHit(judged, top).Some? {
      var n := FirstHit(judged, top).value;
      ReciprocalRank(n);
    }
  }

  /** Document `x` comes at position `i` of `s`, and nothing judged comes before. */
  ghost predicate FirstAt(judged: Judgments<Doc>, s: seq<Doc>, i: nat) {
    i < |s| && s[i] in judged && forall j | 0 <= j < i :: s[j] !in judged
  }

  /** How many judged documents are among these. */
  ghost function JudgedCount(judged: Judgments<Doc>, s: seq<Doc>): nat {
    |set d | d in s && d in judged|
  }

  /** The flags and the reciprocal rank of a ranking whose first judged document is at position `i` among the
      first ten distinct ones. */
  lemma HitMeans(log2: nat -> real, pow2: real -> real, ranking: seq<Doc>, judged: Judgments<Doc>, i: nat)
    requires Logarithm(log2) && judged != map[] && FirstAt(judged, Take(FirstOccurrences(ranking), 10), i)
    ensures var m := Measure(log2, pow2, ranking, judged);
      (m.hit1 <==> i < 1) && (m.hit5 <==> i < 5) && m.hit10 && m.mrr10 == 1.0 / (i + 1) as real
  {
    var top := Take(FirstOccurrences(ranking), CUTOFF);
    FirstHitAt(judged, top, i);
  }

  lemma FirstHitAt(judged: Judgments<Doc>, s: seq<Doc>, i: nat)
    requires FirstAt(judged, s, i)
    ensures FirstHit(judged, s) == Some(i + 1)
  {
    FirstHitExactly(judged, s);
    assert s[i] in s;
  }

  /** Without a judged document there, all are zero; and recall is the part of the judged documents found. */
  lemma MissMeans(log2: nat -> real, pow2: real -> real, ranking: seq<Doc>, judged: Judgments<Doc>)
    requires Logarithm(log2) && judged != map[]
    ensures var m, top := Measure(log2, pow2, ranking, judged), Take(FirstOccurrences(ranking), 10);
      && ((forall d | d in top :: d !in judged) ==> !m.hit1 && !m.hit5 && !m.hit10 && m.mrr10 == 0.0)
      && m.recall10 == JudgedCount(judged, top) as real / |judged| as real
  {
    var top := Take(FirstOccurrences(ranking), CUTOFF);
    TakeDistinct(FirstOccurrences(ranking), CUTOFF);
    FirstHitExactly(judged, top);
    CountJudged(judged, top);
  }

  lemma {:induction false} CountJudged(judged: Judgments<Doc>, s: seq<Doc>)
    requires Distinct(s)
    ensures |JudgedOnly(judged, s)| == JudgedCount(judged, s)
  {
    if s != [] {
      DistinctCons(s);
      CountJudged(judged, s[1..]);
      var tail, all := set d | d in s[1..] && d in judged, set d | d in s && d in judged;
      assert s == [s[0]] + s[1..];
      assert all == if s[0] in judged then tail + {s[0]} else tail;
    }
  }

  /** Distinct documents come in the order of their first occurrence. */
  lemma {:induction false} FirstOccurrencesInOrder(s: seq<Doc>, i: nat, j: nat) returns (p: nat)
    requires i < j < |FirstOccurrences(s)|
    ensures p < |s| && s[p] == FirstOccurrences(s)[i] && FirstOccurrences(s)[j] !in s[..p + 1]
  {
    var n := |s| - 1;
    var before := FirstOccurrences(s[..n]);
    if j < |before| {
      p := FirstOccurrencesInOrder(s[..n], i, j);
      assert s[..n][..p + 1] == s[..p + 1];
    } else {
      assert before[i] in s[..n] && s[n] !in s[..n];
      p :| 0 <= p < n && s[..n][p] == before[i];
      assert forall x | x in s[..p + 1] :: x in s[..n];
    }
  }

  lemma ReciprocalRank(n: nat)
    requires 1 <= n <= 10
    ensures 0.1 <= 1.0 / n as real <= 1.0 && (1.0 / n as real == 1.0 <==> n == 1)
  {
  }

  lemma SubmultisetSize<T>(a: multiset<T>, b: multiset<T>)
    requires a <= b
    ensures |a| <= |b|
  {
    assert b == a + (b - a);
  }

  lemma {:induction false} JudgedOnlyEmpty(judged: Judgments<Doc>, ranking: seq<Doc>)
    ensures JudgedOnly(judged, ranking) == [] <==> FirstHit(judged, ranking).None?
  {
    if ranking != [] {
      JudgedOnlyEmpty(judged, ranking[1..]);
    }
  }

  // ---------- Gained and lost queries ----------

  datatype Record = Record(query: string, bodyHit: bool, channelHit: bool)

  predicate Gained(r: Record) { r.channelHit && !r.bodyHit }

  predicate Lost(r: Record) { r.bodyHit && !r.channelHit }

  predicate BodyHit(r: Record) { r.bodyHit }

  predicate ChannelHit(r: Record) { r.channelHit }

  function Select(keep: Record -> bool, records: seq<Record>): seq<string> {
    if records == [] then [] else
      Select(keep, records[..|records| - 1]) + if keep(records[|records| - 1]) then
        [records[|records| - 1].query] else []
  }

  /** Both directions of change are reported, in record order, and nothing else. */
  method GainsLosses(records: seq<Record>) returns (gained: seq<string>, lost: seq<string>)
    ensures gained == Select(Gained, records) && lost == Select(Lost, records)
  {
    gained, lost := [], [];
    var i := 0;
    while i < |records|
      invariant 0 <= i <= |records|
      invariant gained == Select(Gained, records[..i]) && lost == Select(Lost, records[..i])
    {
      var r := records[i];
      assert records[..i + 1][..i] == records[..i];
      if r.channelHit && !r.bodyHit { gained := gained + [r.query]; }
      if r.bodyHit && !r.channelHit { lost := lost + [r.query]; }
      i := i + 1;
    }
    assert records[..|records|] == records;
  }

  lemma SelectOne(keep: Record -> bool, r: Record)
    ensures Select(keep, [r]) == if keep(r) then [r.query] else []
  {
    assert [r][..0] == [];
  }

  lemma {:induction false} SelectAppend(keep: Record -> bool, a: seq<Record>, b: seq<Record>)
    ensures Select(keep, a + b) == Select(keep, a) + Select(keep, b)
  {
    if b == [] {
      assert a + b == a;
    } else {
      SelectAppend(keep, a, b[..|b| - 1]);
      assert (a + b)[..|a + b| - 1] == a + b[..|b| - 1];
    }
  }

  /** Each record contributes in its place: its query is listed as gained if the channel hits and the body
      does not, as lost the other way round, and nowhere else. */
  lemma RecordContributes(before: seq<Record>, r: Record, after: seq<Record>)
    ensures Select(Gained, before + [r] + after)
         == Select(Gained, before) + (if r.channelHit && !r.bodyHit then [r.query] else []) + Select(Gained, after)
    ensures Select(Lost, before + [r] + after)
         == Select(Lost, before) + (if r.bodyHit && !r.channelHit then [r.query] else []) + Select(Lost, after)
  {
    SelectAppend(Gained, before + [r], after);
    SelectAppend(Gained, before, [r]);
    SelectOne(Gained, r);
    SelectAppend(Lost, before + [r], after);
    SelectAppend(Lost, before, [r]);
    SelectOne(Lost, r);
  }

  /** The two lists account for the whole change in the number of first hits. */
  lemma {:induction false} NetChange(records: seq<Record>)
    ensures |Select(ChannelHit, records)| - |Select(BodyHit, records)| == |Select(Gained, records)| - |Select(Lost,
      records)|
  {
    if records != [] {
      NetChange(records[..|records| - 1]);
    }
  }
}
