/** What a fused list holds, document by document, read off the two hit lists
    (scripts/evaluate_title_retrieval.py). */
module FusionValues {
  import opened Prelude
  import opened Sorting
  import opened TitleMetrics
  import opened Fusion

  // ---------- The order of hits ----------

  /** Higher value first; equal values by id, where a prefix comes first and otherwise the first different
      character decides. */
  ghost predicate Ahead(a: Hit, b: Hit) {
    a.1 > b.1 || (a.1 == b.1 && (a.0 <= b.0 || exists n: nat :: FirstDifference(a.0, b.0, n) && a.0[n] < b.0[n]))
  }

  lemma HitLeMeans(a: Hit, b: Hit)
    ensures HitLe(a, b) <==> Ahead(a, b)
  {
    LexMeans(CharLe, a.0, b.0);
  }

  /** One value per document. */
  ghost predicate Functional(pool: set<Hit>) {
    forall a, b | a in pool && b in pool && a.0 == b.0 :: a == b
  }

  /** The documents of the pool that come before `h`. */
  ghost function Before(pool: set<Hit>, h: Hit): set<Doc> {
    set e | e in pool && e.0 != h.0 && Ahead(e, h) :: e.0
  }

  /** A cut keeps exactly the hits with fewer hits before them than it has room for. */
  lemma KeptByCut(pool: set<Hit>, limit: nat, h: Hit)
    requires Functional(pool)
    ensures h in Ordered(pool, limit) <==> h in pool && |Before(pool, h)| < limit
  {
    HitOrder();
    var all := FromSet(HitLe, pool);
    if h in pool {
      var p :| 0 <= p < |all| && all[p] == h;
      PlaceInOrder(pool, all, p);
      if p < limit { assert Take(all, limit)[p] == h; }
      if h in Take(all, limit) {
        var q :| 0 <= q < |Take(all, limit)| && Take(all, limit)[q] == h;
        assert all[q] == all[p];
      }
    } else {
      assert forall e | e in Take(all, limit) :: e in all;
    }
  }

  lemma PlaceInOrder(pool: set<Hit>, all: seq<Hit>, p: nat)
    requires Functional(pool) && p < |all| && Sorted(HitLe, all) && Distinct(all) && forall e :: e in all <==> e in pool
    ensures |Before(pool, all[p])| == p
  {
    HitOrder();
    var first := Docs(all[..p]);
    forall d ensures d in first <==> d in Before(pool, all[p]) {
      if d in first {
        var i :| 0 <= i < p && first[i] == d;
        HitLeMeans(all[i], all[p]);
        assert all[i] in pool && all[p] in pool && all[i] != all[p];
      }
      if d in Before(pool, all[p]) {
        var e :| e in pool && e.0 != all[p].0 && Ahead(e, all[p]) && e.0 == d;
        var i :| 0 <= i < |all| && all[i] == e;
        HitLeMeans(e, all[p]);
        assert first[i] == d;
      }
    }
    forall i, j | 0 <= i < j < p ensures first[i] != first[j] {
      assert all[i] in pool && all[j] in pool && all[i] != all[j];
    }
    ListSize(first, Before(pool, all[p]));
  }

  // ---------- Channels ----------

  /** Documents with a best hit before `(d, x)`. */
  ghost function Rivals(hits: seq<Hit>, d: Doc, x: real): set<Doc> {
    set e | e in Docs(hits) && e != d && RivalScore(hits, e, d, x)
  }

  ghost predicate RivalScore(hits: seq<Hit>, e: Doc, d: Doc, x: real) {
    exists y :: IsBest(hits, e, y) && Ahead((e, y), (d, x))
  }

  lemma BestItems(hits: seq<Hit>, d: Doc, x: real)
    ensures (d, x) in Best(hits).Items <==> IsBest(hits, d, x)
  {
    BestIsMaximum(hits, d);
    if IsBest(hits, d, x) {
      var i :| 0 <= i < |hits| && hits[i] == (d, x);
      assert Docs(hits)[i] == d;
    }
  }

  lemma RivalsAreBefore(hits: seq<Hit>, d: Doc, x: real)
    ensures Rivals(hits, d, x) == Before(Best(hits).Items, (d, x))
  {
    forall e ensures e in Rivals(hits, d, x) <==> e in Before(Best(hits).Items, (d, x)) {
      BestIsMaximum(hits, e);
      if e in Rivals(hits, d, x) {
        var y :| IsBest(hits, e, y) && Ahead((e, y), (d, x));
        BestItems(hits, e, y);
      }
      if e in Before(Best(hits).Items, (d, x)) {
        var f :| f in Best(hits).Items && f.0 != d && Ahead(f, (d, x)) && f.0 == e;
        BestItems(hits, e, f.1);
      }
    }
  }

  /** A channel keeps a document with its best score, if fewer documents than its budget come before it. */
  lemma ChannelMeans(hits: seq<Hit>, candidates: nat, d: Doc, x: real)
    ensures (d, x) in Channel(hits, candidates) <==> IsBest(hits, d, x) && |Rivals(hits, d, x)| < candidates
  {
    BestItems(hits, d, x);
    RivalsAreBefore(hits, d, x);
    KeptByCut(Best(hits).Items, candidates, (d, x));
  }

  /** A channel takes part only if its weight is not zero. */
  lemma ActiveChannelsMean(body: seq<Hit>, title: seq<Hit>, weight: real, candidates: nat, d: Doc, x: real)
    ensures (d, x) in ActiveBody(body, weight, candidates) <==>
      weight < 1.0 && IsBest(body, d, x) && |Rivals(body, d, x)| < candidates
    ensures (d, x) in ActiveTitle(title, weight, candidates) <==>
      weight > 0.0 && IsBest(title, d, x) && |Rivals(title, d, x)| < candidates
  {
    ChannelMeans(if weight < 1.0 then body else [], candidates, d, x);
    ChannelMeans(if weight > 0.0 then title else [], candidates, d, x);
  }

  // ---------- What a document is worth ----------

  /** How many documents of a channel score above `x`. */
  ghost function Above(c: seq<Hit>, x: real): nat {
    |set n: nat | n < |c| && c[n].1 > x|
  }

  lemma {:induction false} AboveIsHigher(c: seq<Hit>, x: real)
    ensures Higher(c, x) == Above(c, x)
  {
    if c != [] {
      var m := |c| - 1;
      AboveIsHigher(c[..m], x);
      var before, all := set n: nat | n < m && c[..m][n].1 > x, set n: nat | n < |c| && c[n].1 > x;
      assert all == if c[m].1 > x then before + {m} else before;
    }
  }

  /** What one channel adds for its document at position `i`: a share of the score, or a share over `k` plus
      the rank, which is the position for the ordinal policy and otherwise one more than the number of
      documents with a higher score. */
  ghost function Part(policy: Policy, share: real, k: real, c: seq<Hit>, i: nat): real
    requires k > 0.0 && i < |c|
  {
    match policy
    case RrfOrdinal => share / (k + (i + 1) as real)
    case Rrf => share / (k + (1 + Above(c, c[i].1)) as real)
    case _ => share * c[i].1
  }

  /** What two channels add up to: the larger part for `max`, the sum otherwise. */
  ghost function Together(policy: Policy, p: real, q: real): real {
    if policy.Max? then if p >= q then p else q else p + q
  }

  /** `v` is what document `d` is worth; a channel without it adds nothing. */
  ghost predicate Worth(policy: Policy, weight: real, k: real, b: seq<Hit>, t: seq<Hit>, d: Doc, v: real)
    requires k > 0.0
  {
    && (d in Docs(b) || d in Docs(t))
    && (forall i, j | 0 <= i < |b| && 0 <= j < |t| && b[i].0 == d && t[j].0 == d ::
          v == Together(policy, Part(policy, 1.0 - weight, k, b, i), Part(policy, weight, k, t, j)))
    && (forall i | 0 <= i < |b| && b[i].0 == d && d !in Docs(t) :: v == Part(policy, 1.0 - weight, k, b, i))
    && (forall j | 0 <= j < |t| && t[j].0 == d && d !in Docs(b) :: v == Part(policy, weight, k, t, j))
  }

  lemma OnePosition(c: seq<Hit>, i: nat)
    requires ProperChannel(c) && i < |c|
    ensures c[i].0 in Docs(c) && PositionOf(c, c[i].0) == i && ScoreIn(c, c[i].0) == Some(c[i].1)
  {
    ScoreInAt(c, i);
    assert Docs(c)[i] == c[i].0;
    var p := PositionOf(c, c[i].0);
    assert c[p].0 == c[i].0;
  }

  lemma ReciprocalIsPart(c: seq<Hit>, i: nat, share: real, k: real, policy: Policy)
    requires ProperChannel(c) && i < |c| && k > 0.0 && (policy.Rrf? || policy.RrfOrdinal?)
    ensures Reciprocal(c, c[i].0, share, k, policy.RrfOrdinal?) == Part(policy, share, k, c, i)
  {
    OnePosition(c, i);
    AboveIsHigher(c, c[i].1);
  }

  lemma Absent(c: seq<Hit>, d: Doc)
    requires d !in Docs(c)
    ensures ScoreIn(c, d).None?
  {
    ScoreInFound(c, d);
  }

  lemma ValueOfBoth(policy: Policy, weight: real, k: real, b: seq<Hit>, t: seq<Hit>, i: nat, j: nat)
    requires k > 0.0 && !policy.ReporterMax? && ProperChannel(b) && ProperChannel(t)
    requires i < |b| && j < |t| && b[i].0 == t[j].0
    ensures FusedValue(policy, weight, k, b, t, b[i].0)
         == Together(policy, Part(policy, 1.0 - weight, k, b, i), Part(policy, weight, k, t, j))
  {
    OnePosition(b, i);
    OnePosition(t, j);
    if policy.Rrf? || policy.RrfOrdinal? {
      ReciprocalIsPart(b, i, 1.0 - weight, k, policy);
      ReciprocalIsPart(t, j, weight, k, policy);
    }
  }

  lemma ValueOfBody(policy: Policy, weight: real, k: real, b: seq<Hit>, t: seq<Hit>, i: nat)
    requires k > 0.0 && !policy.ReporterMax? && ProperChannel(b) && i < |b| && b[i].0 !in Docs(t)
    ensures FusedValue(policy, weight, k, b, t, b[i].0) == Part(policy, 1.0 - weight, k, b, i)
  {
    OnePosition(b, i);
    Absent(t, b[i].0);
    if policy.Rrf? || policy.RrfOrdinal? { ReciprocalIsPart(b, i, 1.0 - weight, k, policy); }
  }

  lemma ValueOfTitle(policy: Policy, weight: real, k: real, b: seq<Hit>, t: seq<Hit>, j: nat)
    requires k > 0.0 && !policy.ReporterMax? && ProperChannel(t) && j < |t| && t[j].0 !in Docs(b)
    ensures FusedValue(policy, weight, k, b, t, t[j].0) == Part(policy, weight, k, t, j)
  {
    OnePosition(t, j);
    Absent(b, t[j].0);
    if policy.Rrf? || policy.RrfOrdinal? { ReciprocalIsPart(t, j, weight, k, policy); }
  }

  lemma ValueIsWorth(policy: Policy, weight: real, k: real, b: seq<Hit>, t: seq<Hit>, d: Doc)
    requires k > 0.0 && !policy.ReporterMax? && ProperChannel(b) && ProperChannel(t) && (d in Docs(b) || d in Docs(t))
    ensures Worth(policy, weight, k, b, t, d, FusedValue(policy, weight, k, b, t, d))
  {
    forall i, j | 0 <= i < |b| && 0 <= j < |t| && b[i].0 == d && t[j].0 == d
      ensures FusedValue(policy, weight, k, b, t, d)
           == Together(policy, Part(policy, 1.0 - weight, k, b, i), Part(policy, weight, k, t, j))
    {
      ValueOfBoth(policy, weight, k, b, t, i, j);
    }
    forall i | 0 <= i < |b| && b[i].0 == d && d !in Docs(t)
      ensures FusedValue(policy, weight, k, b, t, d) == Part(policy, 1.0 - weight, k, b, i)
    {
      ValueOfBody(policy, weight, k, b, t, i);
    }
    forall j | 0 <= j < |t| && t[j].0 == d && d !in Docs(b)
      ensures FusedValue(policy, weight, k, b, t, d) == Part(policy, weight, k, t, j)
    {
      ValueOfTitle(policy, weight, k, b, t, j);
    }
  }

  lemma Somewhere(c: seq<Hit>, d: Doc) returns (i: nat)
    requires d in Docs(c)
    ensures i < |c| && c[i].0 == d
  {
    i :| 0 <= i < |c| && Docs(c)[i] == d;
  }

  lemma WorthIsUnique(policy: Policy, weight: real, k: real, b: seq<Hit>, t: seq<Hit>, d: Doc, v: real, w: real)
    requires k > 0.0 && Worth(policy, weight, k, b, t, d, v) && Worth(policy, weight, k, b, t, d, w)
    ensures v == w
  {
    if d in Docs(b) {
      var i := Somewhere(b, d);
      if d in Docs(t) { var j := Somewhere(t, d); }
    } else {
      var j := Somewhere(t, d);
    }
  }

  lemma WorthExactly(policy: Policy, weight: real, k: real, b: seq<Hit>, t: seq<Hit>, d: Doc, v: real)
    requires k > 0.0 && !policy.ReporterMax? && ProperChannel(b) && ProperChannel(t)
    ensures Worth(policy, weight, k, b, t, d, v) <==>
      (d in Docs(b) || d in Docs(t)) && v == FusedValue(policy, weight, k, b, t, d)
  {
    if d in Docs(b) || d in Docs(t) {
      var value := FusedValue(policy, weight, k, b, t, d);
      ValueIsWorth(policy, weight, k, b, t, d);
      if Worth(policy, weight, k, b, t, d, v) { WorthIsUnique(policy, weight, k, b, t, d, v, value); }
    }
  }

  // ---------- The fused list ----------

  /** Documents of either channel that are worth more than `(d, v)`, or as much with an earlier id. */
  ghost function Better(policy: Policy, weight: real, k: real, b: seq<Hit>, t: seq<Hit>, d: Doc, v: real): set<Doc>
    requires k > 0.0
  {
    set e | e in Union(b, t) && e != d && WorthMore(policy, weight, k, b, t, e, d, v)
  }

  ghost predicate WorthMore(policy: Policy, weight: real, k: real, b: seq<Hit>, t: seq<Hit>, e: Doc, d: Doc, v: real)
    requires k > 0.0
  {
    exists z :: Worth(policy, weight, k, b, t, e, z) && Ahead((e, z), (d, v))
  }

  lemma BetterIsBefore(policy: Policy, weight: real, k: real, b: seq<Hit>, t: seq<Hit>, d: Doc, v: real)
    requires k > 0.0 && !policy.ReporterMax? && ProperChannel(b) && ProperChannel(t)
    ensures Better(policy, weight, k, b, t, d, v)
         == Before(Valued(policy, weight, k, b, t, Union(b, t)), (d, v))
  {
    var pool := Valued(policy, weight, k, b, t, Union(b, t));
    forall e ensures e in Better(policy, weight, k, b, t, d, v) <==> e in Before(pool, (d, v)) {
      var z := FusedValue(policy, weight, k, b, t, e);
      WorthExactly(policy, weight, k, b, t, e, z);
      if e in Better(policy, weight, k, b, t, d, v) {
        var y :| Worth(policy, weight, k, b, t, e, y) && Ahead((e, y), (d, v));
        WorthExactly(policy, weight, k, b, t, e, y);
        assert (e, z) in pool;
      }
    }
  }

  /** A document and a value are in the fused list exactly when the value is what the document is worth in the
      two channels and fewer documents than the limit are worth more. */
  lemma FusedExactly(policy: Policy, weight: real, k: real, candidates: nat, body: seq<Hit>, title: seq<Hit>,
                     d: Doc, v: real)
    requires k > 0.0 && !policy.ReporterMax?
    ensures var b, t := ActiveBody(body, weight, candidates), ActiveTitle(title, weight, candidates);
      (d, v) in FusedLists(policy, weight, k, candidates, body, title) <==>
        && Worth(policy, weight, k, b, t, d, v)
        && |Better(policy, weight, k, b, t, d, v)| < (if candidates < 1000 then 2 * candidates else 2000)
  {
    var b, t := ActiveBody(body, weight, candidates), ActiveTitle(title, weight, candidates);
    var pool := Valued(policy, weight, k, b, t, Union(b, t));
    WorthExactly(policy, weight, k, b, t, d, v);
    BetterIsBefore(policy, weight, k, b, t, d, v);
    KeptByCut(pool, Limit(candidates), (d, v));
  }

  /** And it is in order. */
  lemma FusedInOrder(policy: Policy, weight: real, k: real, candidates: nat, body: seq<Hit>, title: seq<Hit>,
                     i: nat, j: nat)
    requires k > 0.0 && i < j < |FusedLists(policy, weight, k, candidates, body, title)|
    ensures var r := FusedLists(policy, weight, k, candidates, body, title);
      r[i].0 != r[j].0 && Ahead(r[i], r[j])
  {
    var b, t := ActiveBody(body, weight, candidates), ActiveTitle(title, weight, candidates);
    var r := Fused(policy, weight, k, b, t, Limit(candidates));
    OutputIsOrdered(policy, weight, k, b, t, Limit(candidates));
    HitLeMeans(r[i], r[j]);
  }

  /** The unweighted list: the best hits of both lists together, as many as there is room for, in order; what is
      left out comes after all of them. */
  lemma ReporterMaxMeans(body: seq<Hit>, title: seq<Hit>, candidates: nat) returns (rest: seq<Hit>)
    ensures var r := ReporterMaxList(body, title, candidates);
      && multiset(r) + multiset(rest) == multiset(body) + multiset(title)
      && (|r| == candidates || rest == [])
      && (forall i, j | 0 <= i < j < |r| :: Ahead(r[i], r[j]))
      && forall i, j | 0 <= i < |r| && 0 <= j < |rest| :: Ahead(r[i], rest[j])
  {
    HitOrder();
    var all := Sort(HitLe, body + title);
    SortSorted(HitLe, body + title);
    SortMultiset(HitLe, body + title);
    var r := Take(all, candidates);
    rest := all[|r|..];
    assert all == r + rest;
    forall i, j | 0 <= i < j < |all| ensures Ahead(all[i], all[j]) { HitLeMeans(all[i], all[j]); }
    forall i, j | 0 <= i < |r| && 0 <= j < |rest| ensures Ahead(r[i], rest[j]) {
      assert r[i] == all[i] && rest[j] == all[|r| + j];
    }
  }
}
