/** Fusion of two ranked channels (scripts/evaluate_title_retrieval.py), over the reals. */
module Fusion {
  import opened Prelude
  import opened Sorting
  import opened TitleMetrics

  type Hit = (Doc, real)

  datatype Policy = ReporterMax | Max | Weighted | RrfOrdinal | Rrf

  /** Score descending, then id ascending. */
  predicate HitLe(a: Hit, b: Hit) {
    if a.1 != b.1 then a.1 > b.1 else StringLe(a.0, b.0)
  }

  lemma HitOrder()
    ensures TotalOrder(HitLe)
  {
    StringOrder();
  }

  function Least(a: nat, b: nat): nat { if a < b then a else b }

  // ---------- Best score per document ----------

  /** The dictionary the deduplication loop builds. */
  function Best(hits: seq<Hit>): map<Doc, real> {
    if hits == [] then map[] else
      var before, (d, s) := Best(hits[..|hits| - 1]), hits[|hits| - 1];
      before[d := if d in before && before[d] > s then before[d] else s]
  }

  /** `s` is the highest score of `d`. */
  ghost predicate IsBest(hits: seq<Hit>, d: Doc, s: real) {
    (d, s) in hits && forall h | h in hits && h.0 == d :: h.1 <= s
  }

  lemma {:induction false} BestIsMaximum(hits: seq<Hit>, d: Doc)
    ensures d in Best(hits) <==> d in Docs(hits)
    ensures d in Best(hits) ==> IsBest(hits, d, Best(hits)[d])
  {
    if hits != [] {
      var n := |hits| - 1;
      BestIsMaximum(hits[..n], d);
      assert hits == hits[..n] + [hits[n]];
      assert Docs(hits) == Docs(hits[..n]) + [hits[n].0];
    }
  }

  /** Hit lists with the same best score per document: order and worse duplicates do not matter. */
  ghost predicate SameBests(a: seq<Hit>, b: seq<Hit>) {
    forall d: Doc, s: real :: IsBest(a, d, s) <==> IsBest(b, d, s)
  }

  lemma SameBestsSameMap(a: seq<Hit>, b: seq<Hit>)
    requires SameBests(a, b)
    ensures Best(a) == Best(b)
  {
    forall d ensures d in Best(a) <==> d in Best(b) {
      BestIsMaximum(a, d);
      BestIsMaximum(b, d);
      if d in Best(a) {
        assert IsBest(b, d, Best(a)[d]);
        InDocs(b, d, Best(a)[d]);
      }
      if d in Best(b) {
        assert IsBest(a, d, Best(b)[d]);
        InDocs(a, d, Best(b)[d]);
      }
    }
    forall d | d in Best(a) ensures Best(a)[d] == Best(b)[d] {
      BestIsMaximum(a, d);
      BestIsMaximum(b, d);
      assert IsBest(b, d, Best(a)[d]);
    }
  }

  lemma InDocs(hits: seq<Hit>, d: Doc, s: real)
    requires (d, s) in hits
    ensures d in Docs(hits)
  {
    var i :| 0 <= i < |hits| && hits[i] == (d, s);
    assert Docs(hits)[i] == d;
  }

  lemma PermutationSameBests(a: seq<Hit>, b: seq<Hit>)
    requires multiset(a) == multiset(b)
    ensures SameBests(a, b)
  {
    assert forall h :: h in a <==> h in multiset(a);
    assert forall h :: h in b <==> h in multiset(b);
  }

  lemma WorseDuplicateSameBests(a: seq<Hit>, h: Hit)
    requires exists g | g in a :: g.0 == h.0 && g.1 >= h.1
    ensures SameBests(a + [h], a)
  {
    forall d: Doc, s: real ensures IsBest(a + [h], d, s) <==> IsBest(a, d, s) {
      assert forall g :: g in a + [h] <==> g in a || g == h;
    }
  }

  // ---------- Channels ----------

  /** One channel: best hit per document, ordered, cut to the candidate budget. */
  function Channel(hits: seq<Hit>, candidates: nat): (r: seq<Hit>)
    ensures |r| <= candidates && ProperChannel(r)
  {
    var r := Ordered(Best(hits).Items, candidates);
    HitOrder();
    var all := FromSet(HitLe, Best(hits).Items);
    assert forall i, j | 0 <= i < j < |r| :: HitLe(r[i], r[j]) && r[i] != r[j];
    assert forall i | 0 <= i < |r| :: r[i] in all && r[i] in Best(hits).Items;
    r
  }

  /** Ordered by score and id, every document once. */
  ghost predicate ProperChannel(c: seq<Hit>) {
    && (forall i, j | 0 <= i < j < |c| :: HitLe(c[i], c[j]))
    && (forall i, j | 0 <= i < j < |c| :: c[i].0 != c[j].0)
  }

  function ScoreIn(c: seq<Hit>, d: Doc): Option<real> {
    if c == [] then None else if c[0].0 == d then Some(c[0].1) else ScoreIn(c[1..], d)
  }

  lemma {:induction false} ScoreInAt(c: seq<Hit>, i: nat)
    requires ProperChannel(c) && i < |c|
    ensures ScoreIn(c, c[i].0) == Some(c[i].1)
  {
    if i > 0 {
      assert c[0].0 != c[i].0;
      ScoreInAt(c[1..], i - 1);
    }
  }

  lemma {:induction false} ScoreInFound(c: seq<Hit>, d: Doc)
    ensures ScoreIn(c, d).Some? <==> d in Docs(c)
    ensures ScoreIn(c, d).Some? ==> exists i :: 0 <= i < |c| && c[i] == (d, ScoreIn(c, d).value)
  {
    if c != [] {
      ScoreInFound(c[1..], d);
      assert Docs(c) == [c[0].0] + Docs(c[1..]);
      if c[0].0 == d {
        assert c[0] == (d, c[0].1);
      } else if ScoreIn(c, d).Some? {
        var i :| 0 <= i < |c[1..]| && c[1..][i] == (d, ScoreIn(c[1..], d).value);
        assert c[i + 1] == (d, ScoreIn(c, d).value);
      }
    }
  }

  // ---------- Ranks ----------

  /** How many retained documents score strictly higher. */
  function Higher(c: seq<Hit>, s: real): nat {
    if c == [] then 0 else Higher(c[..|c| - 1], s) + if c[|c| - 1].1 > s then 1 else 0
  }

  lemma {:induction false} HigherInOrder(c: seq<Hit>, s: real, n: nat)
    requires n <= |c| && (forall i | 0 <= i < n :: c[i].1 > s) && (forall i | n <= i < |c| :: c[i].1 <= s)
    ensures Higher(c, s) == n
  {
    if c != [] {
      HigherInOrder(c[..|c| - 1], s, if n == |c| then n - 1 else n);
    }
  }

  /** The rank of a position: its number for the ordinal policy, and otherwise one more than the
      number of strictly better documents. */
  function RankAt(c: seq<Hit>, i: nat, ordinal: bool): nat
    requires i < |c|
  {
    if ordinal then i + 1 else 1 + Higher(c, c[i].1)
  }

  /** The competition-rank loop computes the closed form. */
  method CompetitionRanks(c: seq<Hit>, ordinal: bool) returns (ranks: seq<nat>)
    requires ProperChannel(c)
    ensures |ranks| == |c| && forall i | 0 <= i < |c| :: ranks[i] == RankAt(c, i, ordinal)
  {
    ranks := [];
    var last: Option<real> := None;
    var rank := 0;
    var position := 0;
    while position < |c|
      invariant 0 <= position <= |c| && |ranks| == position
      invariant forall i | 0 <= i < position :: ranks[i] == RankAt(c, i, ordinal)
      invariant if position == 0 then last == None else last == Some(c[position - 1].1) && rank == ranks[position - 1]
      invariant position > 0 && !ordinal ==> 1 <= rank <= position && c[rank - 1].1 == c[position - 1].1
      invariant position > 0 && !ordinal ==> forall i | 0 <= i < rank - 1 :: c[i].1 > c[position - 1].1
    {
      var score := c[position].1;
      if ordinal || last != Some(score) {
        rank := position + 1;
        if position > 0 && !ordinal {
          forall i | 0 <= i < position ensures c[i].1 > score {
            assert HitLe(c[i], c[position]) && HitLe(c[position - 1], c[position]);
            assert i < position - 1 ==> HitLe(c[i], c[position - 1]);
          }
        }
      }
      if !ordinal {
        forall i | rank - 1 <= i < |c| ensures c[i].1 <= score {
          assert rank - 1 < i ==> HitLe(c[rank - 1], c[i]);
        }
        HigherInOrder(c, score, rank - 1);
      }
      ranks := ranks + [rank];
      last := Some(score);
      position := position + 1;
    }
  }

  /** Ordinal ranks are a bijection onto 1..n; competition ranks are equal exactly for equal scores. */
  lemma RanksDistinguish(c: seq<Hit>, i: nat, j: nat)
    requires ProperChannel(c) && i < j < |c|
    ensures RankAt(c, i, true) < RankAt(c, j, true) <= |c|
    ensures RankAt(c, i, false) <= RankAt(c, j, false)
    ensures RankAt(c, i, false) == RankAt(c, j, false) <==> c[i].1 == c[j].1
  {
    assert HitLe(c[i], c[j]);
    HigherMonotone(c, c[j].1, c[i].1);
    if c[i].1 > c[j].1 {
      HigherStrict(c, c[j].1, i);
    }
  }

  lemma {:induction false} HigherMonotone(c: seq<Hit>, low: real, high: real)
    requires low <= high
    ensures Higher(c, high) <= Higher(c, low)
  {
    if c != [] {
      HigherMonotone(c[..|c| - 1], low, high);
    }
  }

  lemma {:induction false} HigherStrict(c: seq<Hit>, low: real, i: nat)
    requires i < |c| && low < c[i].1
    ensures Higher(c, c[i].1) < Higher(c, low)
  {
    var n := |c| - 1;
    if i == n {
      HigherMonotone(c[..n], low, c[i].1);
    } else {
      HigherStrict(c[..n], low, i);
    }
  }

  lemma DocsTail(c: seq<Hit>)
    requires c != []
    ensures Docs(c) == [c[0].0] + Docs(c[1..])
  {
  }

  function PositionOf(c: seq<Hit>, d: Doc): (r: nat)
    requires d in Docs(c)
    ensures r < |c| && c[r].0 == d
  {
    DocsTail(c);
    if c[0].0 == d then 0 else 1 + PositionOf(c[1..], d)
  }

  // ---------- Fusion ----------

  /** Reciprocal rank contribution of one channel. */
  function Reciprocal(c: seq<Hit>, d: Doc, share: real, k: real, ordinal: bool): real
    requires k > 0.0
  {
    if d in Docs(c) then share / (k + RankAt(c, PositionOf(c, d), ordinal) as real) else 0.0
  }

  function OrZero(x: Option<real>): real {
    if x.Some? then x.value else 0.0
  }

  /** A product under a name of its own, which keeps nonlinear terms apart in proofs. */
  function Product(x: real, y: real): real { x * y }

  /** The weighted sum, missing fields counting as zero. */
  function Blend(u: real, w: real, b: Option<real>, t: Option<real>): real {
    Product(u, OrZero(b)) + Product(w, OrZero(t))
  }

  function Larger(x: real, y: real): real { if x >= y then x else y }

  /** `max` over the list of present fields. */
  function MaxPresent(u: real, w: real, b: Option<real>, t: Option<real>): real {
    if b.Some? && t.Some? then Larger(Product(u, b.value), Product(w, t.value))
    else if b.Some? then Product(u, b.value) else Product(w, OrZero(t))
  }

  function FusedValue(policy: Policy, weight: real, k: real, body: seq<Hit>, title: seq<Hit>, d: Doc): real
    requires k > 0.0
  {
    var b, t := ScoreIn(body, d), ScoreIn(title, d);
    match policy
    case Weighted => Blend(1.0 - weight, weight, b, t)
    case Max => MaxPresent(1.0 - weight, weight, b, t)
    case _ =>
      Reciprocal(body, d, 1.0 - weight, k, policy.RrfOrdinal?) + Reciprocal(title, d, weight, k, policy.RrfOrdinal?)
  }

  predicate ValidParameters(weight: real, candidates: int, k: real) {
    0.0 <= weight <= 1.0 && candidates >= 1 && k > 0.0
  }

  function ActiveBody(body: seq<Hit>, weight: real, candidates: nat): seq<Hit> {
    Channel(if weight < 1.0 then body else [], candidates)
  }

  function ActiveTitle(title: seq<Hit>, weight: real, candidates: nat): seq<Hit> {
    Channel(if weight > 0.0 then title else [], candidates)
  }

  /** Scored documents in (-value, id) order, cut to the limit. */
  function Ordered(pool: set<Hit>, limit: nat): (r: seq<Hit>)
    ensures |r| <= limit
  {
    HitOrder();
    Take(FromSet(HitLe, pool), limit)
  }

  function Fused(policy: Policy, weight: real, k: real, b: seq<Hit>, t: seq<Hit>, limit: nat): (r: seq<Hit>)
    requires k > 0.0
    ensures |r| <= limit
  {
    Ordered(Valued(policy, weight, k, b, t, Union(b, t)), limit)
  }

  /** The documents of either channel. */
  function Union(b: seq<Hit>, t: seq<Hit>): set<Doc> {
    (set d | d in Docs(b)) + (set d | d in Docs(t))
  }

  /** The documents with their fused values. */
  function Valued(policy: Policy, weight: real, k: real, b: seq<Hit>, t: seq<Hit>, docs: set<Doc>): set<Hit>
    requires k > 0.0
  {
    set d | d in docs :: (d, FusedValue(policy, weight, k, b, t, d))
  }

  function Limit(candidates: nat): nat { Least(2 * candidates, 2000) }

  /** The fusion of two hit lists: each channel if its weight is not zero, and twice the budget. */
  function FusedLists(policy: Policy, weight: real, k: real, candidates: nat, body: seq<Hit>, title: seq<Hit>): seq<Hit>
    requires k > 0.0
  {
    Fused(policy, weight, k, ActiveBody(body, weight, candidates), ActiveTitle(title, weight, candidates),
          Limit(candidates))
  }

  /** All hits of both lists together, repetitions included, cut to the candidate budget. */
  function ReporterMaxList(body: seq<Hit>, title: seq<Hit>, candidates: nat): seq<Hit> {
    Take(Sort(HitLe, body + title), candidates)
  }

  method Fuse(body: seq<Hit>, title: seq<Hit>, policy: Policy, weight: real, candidates: int, k: real)
    returns (r: Result<seq<Hit>, ()>)
    ensures r.Success? <==> ValidParameters(weight, candidates, k)
    ensures r.Success? && policy.ReporterMax? ==> r.value == ReporterMaxList(body, title, candidates)
    ensures r.Success? && !policy.ReporterMax? ==>
      r.value == FusedLists(policy, weight, k, candidates, body, title)
  {
    if !(0.0 <= weight <= 1.0) || candidates < 1 || k <= 0.0 { return Failure(()); }
    if policy.ReporterMax? { return Success(ReporterMaxList(body, title, candidates)); }
    var b := RetainChannel(if weight < 1.0 then body else [], candidates);
    var t := RetainChannel(if weight > 0.0 then title else [], candidates);
    var fused := FuseChannels(policy, weight, k, b, t, Limit(candidates));
    r := Success(fused);
  }

  lemma ValuedStep(policy: Policy, weight: real, k: real, b: seq<Hit>, t: seq<Hit>, docs: set<Doc>, doc: Doc)
    requires k > 0.0
    ensures Valued(policy, weight, k, b, t, docs + {doc})
         == Valued(policy, weight, k, b, t, docs) + {(doc, FusedValue(policy, weight, k, b, t, doc))}
  {
  }

  /** The output loop over the union of the two channels' documents. */
  method FuseChannels(policy: Policy, weight: real, k: real, b: seq<Hit>, t: seq<Hit>, limit: nat) returns (r: seq<Hit>)
    requires ProperChannel(b) && ProperChannel(t) && k > 0.0 && !policy.ReporterMax?
    ensures r == Fused(policy, weight, k, b, t, limit)
  {
    var bodyRanks := CompetitionRanks(b, policy.RrfOrdinal?);
    var titleRanks := CompetitionRanks(t, policy.RrfOrdinal?);
    var docs := Union(b, t);
    var rest := docs;
    var output: set<Hit> := {};
    while rest != {}
      invariant rest <= docs && output == Valued(policy, weight, k, b, t, docs - rest)
    {
      var doc :| doc in rest;
      var value := FuseDocument(policy, weight, k, b, t, bodyRanks, titleRanks, doc);
      assert docs - (rest - {doc}) == (docs - rest) + {doc};
      ValuedStep(policy, weight, k, b, t, docs - rest, doc);
      output := output + {(doc, value)};
      rest := rest - {doc};
    }
    assert docs - rest == docs;
    r := Ordered(output, limit);
  }

  method FuseDocument(policy: Policy, weight: real, k: real, b: seq<Hit>, t: seq<Hit>,
                      bodyRanks: seq<nat>, titleRanks: seq<nat>, doc: Doc)
    returns (value: real)
    requires k > 0.0 && !policy.ReporterMax? && |bodyRanks| == |b| && |titleRanks| == |t|
    requires forall i | 0 <= i < |b| :: bodyRanks[i] == RankAt(b, i, policy.RrfOrdinal?)
    requires forall i | 0 <= i < |t| :: titleRanks[i] == RankAt(t, i, policy.RrfOrdinal?)
    ensures value == FusedValue(policy, weight, k, b, t, doc)
  {
    if policy.Weighted? {
      value := Blend(1.0 - weight, weight, ScoreIn(b, doc), ScoreIn(t, doc));
    } else if policy.Max? {
      value := MaxPresent(1.0 - weight, weight, ScoreIn(b, doc), ScoreIn(t, doc));
    } else {
      value := if doc in Docs(b) then (1.0 - weight) / (k + bodyRanks[PositionOf(b, doc)] as real) else 0.0;
      value := value + if doc in Docs(t) then weight / (k + titleRanks[PositionOf(t, doc)] as real) else 0.0;
    }
  }

  method RetainChannel(hits: seq<Hit>, candidates: nat) returns (c: seq<Hit>)
    ensures c == Channel(hits, candidates)
  {
    var field: map<Doc, real> := map[];
    var i := 0;
    while i < |hits|
      invariant 0 <= i <= |hits| && field == Best(hits[..i])
    {
      var (doc, score) := hits[i];
      assert hits[..i + 1][..i] == hits[..i];
      field := field[doc := if doc in field && field[doc] > score then field[doc] else score];
      i := i + 1;
    }
    assert hits[..|hits|] == hits;
    c := Ordered(field.Items, candidates);
  }

  // ---------- What fusion guarantees ----------

  /** The result depends on the hits only through each channel's best score per document. */
  lemma OnlyBestScoresMatter(policy: Policy, weight: real, k: real, candidates: nat,
                             b1: seq<Hit>, t1: seq<Hit>, b2: seq<Hit>, t2: seq<Hit>)
    requires k > 0.0 && SameBests(b1, b2) && SameBests(t1, t2)
    ensures FusedLists(policy, weight, k, candidates, b1, t1) == FusedLists(policy, weight, k, candidates, b2, t2)
  {
    SameBestsSameMap(b1, b2);
    SameBestsSameMap(t1, t2);
    assert Channel(b1, candidates) == Channel(b2, candidates);
    assert Channel(t1, candidates) == Channel(t2, candidates);
  }

  /** The output lists distinct documents of the two channels in (-value, id) order, within twice
      the candidate budget and 2000. */
  lemma OutputIsOrdered(policy: Policy, weight: real, k: real, b: seq<Hit>, t: seq<Hit>, limit: nat)
    requires k > 0.0
    ensures var r := Fused(policy, weight, k, b, t, limit);
      && |r| <= limit
      && (forall i, j | 0 <= i < j < |r| :: HitLe(r[i], r[j]) && r[i].0 != r[j].0)
      && (forall h | h in r :: (h.0 in Docs(b) || h.0 in Docs(t)) && h.1 == FusedValue(policy, weight, k, b, t, h.0))
      && (forall d | (d in Docs(b) || d in Docs(t)) && (d, FusedValue(policy, weight, k, b, t, d)) !in r ::
            |r| == limit && forall h | h in r :: HitLe(h, (d, FusedValue(policy, weight, k, b, t, d))))
  {
    HitOrder();
    var pool := Valued(policy, weight, k, b, t, Union(b, t));
    var all := FromSet(HitLe, pool);
    var r := Take(all, limit);
    forall i, j | 0 <= i < j < |r| ensures HitLe(r[i], r[j]) && r[i].0 != r[j].0 {
      assert r[i] in pool && r[j] in pool && r[i] != r[j] && HitLe(all[i], all[j]);
    }
    forall h | h in r
      ensures (h.0 in Docs(b) || h.0 in Docs(t)) && h.1 == FusedValue(policy, weight, k, b, t, h.0)
    {
      assert h in all && h in pool;
    }
    forall d | (d in Docs(b) || d in Docs(t)) && (d, FusedValue(policy, weight, k, b, t, d)) !in r
      ensures |r| == limit && forall h | h in r :: HitLe(h, (d, FusedValue(policy, weight, k, b, t, d)))
    {
      var h := (d, FusedValue(policy, weight, k, b, t, d));
      assert h in pool && h in all;
      var n :| 0 <= n < |all| && all[n] == h;
      assert n < |r| ==> h in r;
    }
  }

  /** A pool listed in order is what sorting the pool returns. */
  lemma ListedPool(pool: set<Hit>, r: seq<Hit>, limit: nat)
    requires forall i, j | 0 <= i < j < |r| :: HitLe(r[i], r[j]) && r[i].0 != r[j].0
    requires forall h :: h in r <==> h in pool
    ensures Docs(Ordered(pool, limit)) == Take(Docs(r), limit)
  {
    HitOrder();
    assert forall i, j | 0 <= i < j < |r| :: r[i] != r[j];
    FromSetUnique(HitLe, pool, r);
    DocsOfTake(r, limit);
  }

  lemma DocsOfTake(r: seq<Hit>, limit: nat)
    ensures Docs(Take(r, limit)) == Take(Docs(r), limit)
  {
  }

  /** One channel's value at weight 0 or 1: its score, or the reciprocal of its rank. */
  function SingleValue(policy: Policy, k: real, c: seq<Hit>, d: Doc): real
    requires k > 0.0
  {
    if policy.Weighted? || policy.Max? then OrZero(ScoreIn(c, d))
    else Reciprocal(c, d, 1.0, k, policy.RrfOrdinal?)
  }

  lemma QuotientOrder(share: real, x: real, y: real)
    requires share >= 0.0 && 0.0 < x <= y
    ensures share / x >= share / y
    ensures share > 0.0 && x < y ==> share / x > share / y
  {
    var p, q := share / x, share / y;
    assert p * x == share && q * y == share;
    assert q >= 0.0;
    assert q * (y - x) >= 0.0;
    assert (p - q) * x == q * (y - x);
    if share > 0.0 && x < y {
      assert q > 0.0;
      assert q * (y - x) > 0.0;
    }
  }

  lemma SamePosition(c: seq<Hit>, i: nat, j: nat)
    requires ProperChannel(c) && i < |c| && j < |c| && c[i].0 == c[j].0
    ensures i == j
  {
  }

  lemma ReciprocalAt(c: seq<Hit>, i: nat, share: real, k: real, ordinal: bool)
    requires k > 0.0 && ProperChannel(c) && i < |c|
    ensures Reciprocal(c, c[i].0, share, k, ordinal) == share / (k + RankAt(c, i, ordinal) as real)
  {
    assert Docs(c)[i] == c[i].0;
    SamePosition(c, i, PositionOf(c, c[i].0));
  }

  /** A better position never contributes less, and ties contribute equally unless ranks are ordinal. */
  lemma ShareOrder(c: seq<Hit>, share: real, k: real, ordinal: bool, i: nat, j: nat)
    requires k > 0.0 && share >= 0.0 && ProperChannel(c) && i < j < |c|
    ensures Reciprocal(c, c[i].0, share, k, ordinal) >= Reciprocal(c, c[j].0, share, k, ordinal)
    ensures share > 0.0 && !ordinal && c[i].1 == c[j].1 ==>
      Reciprocal(c, c[i].0, share, k, ordinal) == Reciprocal(c, c[j].0, share, k, ordinal)
    ensures share > 0.0 && (ordinal || c[i].1 > c[j].1) ==>
      Reciprocal(c, c[i].0, share, k, ordinal) > Reciprocal(c, c[j].0, share, k, ordinal)
  {
    ReciprocalAt(c, i, share, k, ordinal);
    ReciprocalAt(c, j, share, k, ordinal);
    RanksDistinguish(c, i, j);
    QuotientOrder(share, k + RankAt(c, i, ordinal) as real, k + RankAt(c, j, ordinal) as real);
  }

  lemma SingleValuesFall(policy: Policy, k: real, c: seq<Hit>, i: nat, j: nat)
    requires k > 0.0 && ProperChannel(c) && i < j < |c|
    ensures HitLe((c[i].0, SingleValue(policy, k, c, c[i].0)), (c[j].0, SingleValue(policy, k, c, c[j].0)))
  {
    assert HitLe(c[i], c[j]);
    ScoreInAt(c, i);
    ScoreInAt(c, j);
    if !policy.Weighted? && !policy.Max? {
      ShareOrder(c, 1.0, k, policy.RrfOrdinal?, i, j);
    }
  }

  lemma SingleChannelValue(policy: Policy, k: real, c: seq<Hit>, d: Doc)
    requires k > 0.0 && !policy.ReporterMax? && d in Docs(c)
    ensures FusedValue(policy, 0.0, k, c, [], d) == SingleValue(policy, k, c, d)
    ensures FusedValue(policy, 1.0, k, [], c, d) == SingleValue(policy, k, c, d)
  {
    ScoreInFound(c, d);
  }

  /** At weight 0 every policy returns the body channel's document order, and at weight 1 the title
      channel's. */
  lemma ExtremeWeightsKeepOrder(policy: Policy, k: real, candidates: nat, body: seq<Hit>, title: seq<Hit>)
    requires k > 0.0 && !policy.ReporterMax?
    ensures Docs(FusedLists(policy, 0.0, k, candidates, body, title))
         == Take(Docs(Channel(body, candidates)), Limit(candidates))
    ensures Docs(FusedLists(policy, 1.0, k, candidates, body, title))
         == Take(Docs(Channel(title, candidates)), Limit(candidates))
  {
    EmptyChannel(candidates);
    LoneChannel(policy, k, Channel(body, candidates), Limit(candidates));
    LoneChannel(policy, k, Channel(title, candidates), Limit(candidates));
  }

  lemma EmptyChannel(candidates: nat)
    ensures Channel([], candidates) == []
  {
    HitOrder();
    assert Best([]).Items == {};
  }

  lemma LoneChannel(policy: Policy, k: real, c: seq<Hit>, limit: nat)
    requires k > 0.0 && !policy.ReporterMax? && ProperChannel(c)
    ensures Docs(Fused(policy, 0.0, k, c, [], limit)) == Take(Docs(c), limit)
    ensures Docs(Fused(policy, 1.0, k, [], c, limit)) == Take(Docs(c), limit)
  {
    var r := Revalued(policy, k, c);
    RevaluedInOrder(policy, k, c);
    LonePool(policy, k, c);
    ListedPool(Valued(policy, 0.0, k, c, [], Union(c, [])), r, limit);
    ListedPool(Valued(policy, 1.0, k, [], c, Union([], c)), r, limit);
    assert Docs(r) == Docs(c);
  }

  /** The channel with each score replaced by the value it fuses to alone. */
  ghost function Revalued(policy: Policy, k: real, c: seq<Hit>): (r: seq<Hit>)
    requires k > 0.0
    ensures |r| == |c| && forall i | 0 <= i < |c| :: r[i] == (c[i].0, SingleValue(policy, k, c, c[i].0))
  {
    seq(|c|, i requires 0 <= i < |c| => (c[i].0, SingleValue(policy, k, c, c[i].0)))
  }

  lemma RevaluedInOrder(policy: Policy, k: real, c: seq<Hit>)
    requires k > 0.0 && ProperChannel(c)
    ensures var r := Revalued(policy, k, c);
      forall i, j | 0 <= i < j < |r| :: HitLe(r[i], r[j]) && r[i].0 != r[j].0
  {
    var r := Revalued(policy, k, c);
    forall i, j | 0 <= i < j < |r| ensures HitLe(r[i], r[j]) && r[i].0 != r[j].0 {
      SingleValuesFall(policy, k, c, i, j);
    }
  }

  lemma LonePool(policy: Policy, k: real, c: seq<Hit>)
    requires k > 0.0 && !policy.ReporterMax?
    ensures forall h :: h in Revalued(policy, k, c) <==> h in Valued(policy, 0.0, k, c, [], Union(c, []))
    ensures forall h :: h in Revalued(policy, k, c) <==> h in Valued(policy, 1.0, k, [], c, Union([], c))
  {
    forall h: Hit
      ensures h in Revalued(policy, k, c) <==> h.0 in Docs(c) && h.1 == SingleValue(policy, k, c, h.0)
    {
      RevaluedMember(policy, k, c, h);
    }
    forall d | d in Docs(c)
      ensures FusedValue(policy, 0.0, k, c, [], d) == SingleValue(policy, k, c, d)
      ensures FusedValue(policy, 1.0, k, [], c, d) == SingleValue(policy, k, c, d)
    {
      SingleChannelValue(policy, k, c, d);
    }
  }

  lemma RevaluedMember(policy: Policy, k: real, c: seq<Hit>, h: Hit)
    requires k > 0.0
    ensures h in Revalued(policy, k, c) <==> h.0 in Docs(c) && h.1 == SingleValue(policy, k, c, h.0)
  {
    var r := Revalued(policy, k, c);
    if h in r {
      var i :| 0 <= i < |r| && r[i] == h;
      assert Docs(c)[i] == h.0;
    }
    if h.0 in Docs(c) {
      var i :| 0 <= i < |c| && Docs(c)[i] == h.0;
      assert r[i].0 == h.0;
    }
  }

  /** A document that is at least as good in both channels never gets a lower value. */
  lemma NeverPunishesTheBetter(policy: Policy, weight: real, k: real, b: seq<Hit>, t: seq<Hit>, i: nat, j: nat, m: nat,
                               n: nat)
    requires k > 0.0 && 0.0 <= weight <= 1.0 && !policy.ReporterMax? && ProperChannel(b) && ProperChannel(t)
    requires i < j < |b| && m < n < |t| && b[i].0 == t[m].0 && b[j].0 == t[n].0
    ensures FusedValue(policy, weight, k, b, t, b[i].0) >= FusedValue(policy, weight, k, b, t, b[j].0)
  {
    if policy.Weighted? || policy.Max? {
      ScoresFall(b, i, j);
      ScoresFall(t, m, n);
      WeightedFall(1.0 - weight, weight, b[i].1, b[j].1, t[m].1, t[n].1);
    } else {
      ShareOrder(b, 1.0 - weight, k, policy.RrfOrdinal?, i, j);
      ShareOrder(t, weight, k, policy.RrfOrdinal?, m, n);
    }
  }

  lemma ScoresFall(c: seq<Hit>, i: nat, j: nat)
    requires ProperChannel(c) && i < j < |c|
    ensures ScoreIn(c, c[i].0) == Some(c[i].1) && ScoreIn(c, c[j].0) == Some(c[j].1)
    ensures c[i].1 >= c[j].1
  {
    assert HitLe(c[i], c[j]);
    ScoreInAt(c, i);
    ScoreInAt(c, j);
  }

  lemma WeightedFall(u: real, w: real, p: real, q: real, x: real, y: real)
    requires u >= 0.0 && w >= 0.0 && p >= q && x >= y
    ensures Blend(u, w, Some(p), Some(x)) >= Blend(u, w, Some(q), Some(y))
    ensures MaxPresent(u, w, Some(p), Some(x)) >= MaxPresent(u, w, Some(q), Some(y))
  {
    var high, low := Product(u, p), Product(u, q);
    var more, less := Product(w, x), Product(w, y);
    ScaleUp(u, q, p);
    ScaleUp(w, y, x);
    assert Blend(u, w, Some(p), Some(x)) == high + more && Blend(u, w, Some(q), Some(y)) == low + less;
    assert MaxPresent(u, w, Some(p), Some(x)) == Larger(high, more) &&
      MaxPresent(u, w, Some(q), Some(y)) == Larger(low, less);
  }

  lemma ScaleUp(w: real, x: real, y: real)
    requires w >= 0.0 && x <= y
    ensures Product(w, x) <= Product(w, y)
  {
    assert w * (y - x) >= 0.0;
  }
}
