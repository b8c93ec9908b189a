/** Who is selected first, and what a score, a cost and a budget are worth (src/context_pack.rs). */
module PackPriority {
  import opened Prelude
  import opened Sorting
  import opened ContextPack

  // ---------- The order of the references ----------

  /** Id order: a prefix comes first, otherwise the first different character decides. */
  ghost predicate IdBefore(x: string, y: string) {
    x <= y || exists k: nat :: FirstDifference(x, y, k) && x[k] < y[k]
  }

  /** A higher score, or the same score and fresher, or the same in both and the earlier id. */
  ghost predicate Preferred(a: Scored, b: Scored) {
    || a.score > b.score
    || (a.score == b.score && a.freshness > b.freshness)
    || (a.score == b.score && a.freshness == b.freshness && IdBefore(a.candidate.id, b.candidate.id))
  }

  lemma RankLeMeans(a: Scored, b: Scored)
    ensures RankLe(a, b) <==> Preferred(a, b)
  {
    LexMeans(CharLe, a.candidate.id, b.candidate.id);
  }

  /** References are considered in order of preference. */
  lemma RankedInOrder(redact: string -> string, facts: Facts, i: nat, j: nat)
    requires i < j < |Ranked(redact, facts)|
    ensures Preferred(Ranked(redact, facts)[i], Ranked(redact, facts)[j])
  {
    RankOrder();
    var ss := Scores(redact, facts, With(facts, facts.candidates, Scorable));
    SortSorted(RankLe, ss);
    RankLeMeans(Ranked(redact, facts)[i], Ranked(redact, facts)[j]);
  }

  /** What the references in `ss` that are preferred to `u` cost. */
  ghost function CostBefore(ss: seq<Scored>, u: Scored): nat {
    if ss == [] then 0 else
      CostBefore(ss[..|ss| - 1], u) + if Preferred(ss[|ss| - 1], u) then ss[|ss| - 1].cost else 0
  }

  lemma CostBeforeAppend(ss: seq<Scored>, s: Scored, u: Scored)
    ensures CostBefore(ss + [s], u) == CostBefore(ss, u) + if Preferred(s, u) then s.cost else 0
  {
    assert (ss + [s])[..|ss|] == ss;
  }

  lemma {:induction false} AllBefore(ss: seq<Scored>, u: Scored)
    requires forall s | s in ss :: Preferred(s, u)
    ensures CostBefore(ss, u) == Cost(ss)
  {
    if ss != [] {
      AllBefore(ss[..|ss| - 1], u);
      assert ss[|ss| - 1] in ss;
    }
  }

  lemma {:induction false} TakenMembers(ss: seq<Scored>, budget: u64, s: Scored)
    requires s in Taken(ss, budget)
    ensures s in ss
  {
    var m := |ss| - 1;
    assert ss == ss[..m] + [ss[m]];
    if s in Taken(ss[..m], budget) { TakenMembers(ss[..m], budget, s); }
  }

  lemma {:induction false} LeftIsCrowdedOut(ss: seq<Scored>, budget: u64, u: Scored)
    requires Sorted(RankLe, ss) && u in Left(ss, budget)
    ensures CostBefore(Taken(ss, budget), u) + u.cost > budget
  {
    var m := |ss| - 1;
    var before := Taken(ss[..m], budget);
    if u in Left(ss[..m], budget) {
      LeftIsCrowdedOut(ss[..m], budget, u);
      CostBeforeAppend(before, ss[m], u);
    } else {
      forall s | s in before ensures Preferred(s, u) {
        TakenMembers(ss[..m], budget, s);
        RankLeMeans(s, u);
      }
      AllBefore(before, u);
    }
  }

  /** Whatever a plan omits does not fit beside the selected references that are preferred to it. */
  lemma OmittedIsCrowdedOut(redact: string -> string, facts: Facts, plan: Plan, u: Scored)
    requires PlanOf(redact, facts, plan) && u in plan.omitted
    ensures CostBefore(plan.selected, u) + u.cost > EvidenceBudget(facts)
  {
    RankOrder();
    SortSorted(RankLe, Scores(redact, facts, With(facts, facts.candidates, Scorable)));
    LeftIsCrowdedOut(Ranked(redact, facts), EvidenceBudget(facts), u);
  }

  // ---------- Who is considered at all ----------

  lemma {:induction false} WithMembers(facts: Facts, cs: seq<Candidate>, fate: Fate, c: Candidate)
    ensures c in With(facts, cs, fate) <==> c in cs && FateOf(facts, c) == fate
  {
    if cs != [] {
      WithMembers(facts, cs[..|cs| - 1], fate, c);
      assert cs == cs[..|cs| - 1] + [cs[|cs| - 1]];
    }
  }

  /** Only low and medium risk is ever considered, and the semantic model is needed for what only it found:
      where each candidate ends up. */
  lemma PlanMembers(redact: string -> string, facts: Facts, plan: Plan, c: Candidate)
    requires PlanOf(redact, facts, plan)
    ensures c in plan.excluded <==> c in facts.candidates && (c.risk.High? || c.risk.Unrecognised?)
    ensures c in plan.degraded <==>
      c in facts.candidates && (c.risk.Low? || c.risk.Medium?) && c.semanticOnly && !facts.semanticAvailable
    ensures Score(redact, facts, c) in plan.selected || Score(redact, facts, c) in plan.omitted <==>
      c in facts.candidates && (c.risk.Low? || c.risk.Medium?) && (c.semanticOnly ==> facts.semanticAvailable)
  {
    WithMembers(facts, facts.candidates, Excluded, c);
    WithMembers(facts, facts.candidates, Degraded, c);
    WithMembers(facts, facts.candidates, Scorable, c);
    NothingIsLost(redact, facts);
    var s, scorable := Score(redact, facts, c), With(facts, facts.candidates, Scorable);
    ScoredMember(redact, facts, scorable, c);
    assert s in plan.selected || s in plan.omitted <==> s in multiset(plan.selected) + multiset(plan.omitted);
    assert s in multiset(Scores(redact, facts, scorable)) <==> s in Scores(redact, facts, scorable);
  }

  lemma ScoredMember(redact: string -> string, facts: Facts, cs: seq<Candidate>, c: Candidate)
    ensures Score(redact, facts, c) in Scores(redact, facts, cs) <==> c in cs
  {
    var ss := Scores(redact, facts, cs);
    if c in cs {
      var i :| 0 <= i < |cs| && cs[i] == c;
      assert ss[i] == Score(redact, facts, c);
    }
    if Score(redact, facts, c) in ss {
      var i :| 0 <= i < |ss| && ss[i] == Score(redact, facts, c);
      assert ss[i].candidate == cs[i];
    }
  }

  // ---------- What the numbers are worth ----------

  /** A signal in per mille, rounded down: out of range signals count as the nearer end, NaN as none. */
  lemma PerMilleMeans(x: Float)
    ensures match x
      case NaN => PerMille(x) == 0
      case NegativeInfinity => PerMille(x) == 0
      case PositiveInfinity => PerMille(x) == 1000
      case Finite(v) =>
        && (v <= 0.0 ==> PerMille(x) == 0) && (v >= 1.0 ==> PerMille(x) == 1000)
        && (0.0 <= v <= 1.0 ==> PerMille(x) as real <= 1000.0 * v < (PerMille(x) + 1) as real)
  {
  }

  /** The score is half relevance, three tenths freshness and a fifth authority, rounded down; the cost is
      one token for every four characters of the redacted excerpt, rounded up, and eight for the metadata. */
  lemma ScoreMeans(redact: string -> string, facts: Facts, c: Candidate)
    ensures var s := Score(redact, facts, c);
      && 100 * s.score <= 50 * PerMille(c.relevance) + 30 * s.freshness + 20 * PerMille(c.authority)
      && 50 * PerMille(c.relevance) + 30 * s.freshness + 20 * PerMille(c.authority) < 100 * (s.score + 1)
      && (|redact(c.excerpt)| < U64 ==>
            |redact(c.excerpt)| <= 4 * (s.cost - 8) < |redact(c.excerpt)| + 4)
      && s.candidate == c
  {
  }

  /** `f` is 300 plus seven hundred times the part of the window that is left, rounded down. */
  ghost predicate Linear(f: nat, age: int, window: int) {
    (f - 300) * window <= 700 * (window - age) < (f - 299) * window
  }

  lemma LinearQuotient(age: int, window: int)
    requires 0 < age < window
    ensures Linear(300 + 700 * (window - age) / window, age, window)
  {
    RoundedDown(700 * (window - age), window);
  }

  lemma DecayMeans(age: i64, window: i64)
    requires 0 < window && 700 * window <= I64_MAX
    ensures var (f, stale) := Decay(age, window);
      if age <= 0 then f == 1000 && !stale else if age >= window then f == 100 && stale
      else !stale && Linear(f, age, window)
  {
    if 0 < age < window {
      DecayInside(age, window);
      LinearQuotient(age, window);
    }
  }

  /** Freshness decays linearly, from 1000 now to 300 at the edge of the window, rounded down; at and past the
      edge it is 100 and the reference is stale, and without both times it is 400. */
  lemma FreshnessMeans(redact: string -> string, facts: Facts, c: Candidate)
    requires facts.windowDays <= MAX_EXACT_DAYS
    ensures var s := Score(redact, facts, c);
      var window := (if facts.windowDays < 1 then 1 else facts.windowDays) * 86_400_000;
      if c.created.None? || facts.now.None? then s.freshness == 400 && !s.stale
      else
        var age := SaturatingI64(facts.now.value - c.created.value);
        if age <= 0 then s.freshness == 1000 && !s.stale
        else if age >= window then s.freshness == 100 && s.stale
        else !s.stale && Linear(s.freshness, age, window)
  {
    ExactWindow(facts.windowDays);
    WindowValue(facts.windowDays);
    if c.created.Some? && facts.now.Some? {
      DecayMeans(AgeMs(c.created.value, facts.now.value), WindowMs(facts.windowDays));
    }
  }

  lemma WindowValue(days: u64)
    requires days <= MAX_EXACT_DAYS
    ensures WindowMs(days) == (if days < 1 then 1 else days) * 86_400_000
  {
  }

  lemma RoundedDown(x: nat, y: nat)
    requires y > 0
    ensures x / y * y <= x < (x / y + 1) * y
  {
  }

  /** Sixty-four tokens are set aside for the envelope. */
  lemma EvidenceBudgetMeans(facts: Facts)
    ensures if facts.tokenBudget <= 64 then EvidenceBudget(facts) == 0
            else EvidenceBudget(facts) + 64 == facts.tokenBudget
  {
  }

  // ---------- When an older reference scores higher ----------

  /** The longest window whose milliseconds fit 64 bits. */
  const MAX_DAYS := 106_751_991_167

  /** At some time, an older reference is fresher than a newer one. */
  ghost predicate Inverts(days: u64) {
    exists older: i64, newer: i64, now: i64 ::
      older <= newer && Freshness(older, now, days) > Freshness(newer, now, days)
  }

  function Freshness(created: i64, now: i64, days: u64): nat {
    FreshnessScore(Some(created), Some(now), days).0
  }

  /** Above the exact windows the product wraps: an older reference can then score higher than a newer one,
      unless the window itself is so long that its milliseconds do not fit. */
  lemma FreshnessInvertsExactly(days: u64)
    ensures Inverts(days) <==> MAX_EXACT_DAYS < days <= MAX_DAYS
  {
    if days <= MAX_EXACT_DAYS {
      forall older: i64, newer: i64, now: i64 | older <= newer
        ensures Freshness(older, now, days) <= Freshness(newer, now, days)
      {
        FreshnessDecays(older, newer, now, days);
      }
    } else if days <= MAX_DAYS {
      var now := InvertedAges(days);
      assert Freshness(0, now, days) > Freshness(1, now, days);
    } else {
      forall older: i64, newer: i64, now: i64 | older <= newer
        ensures Freshness(older, now, days) <= Freshness(newer, now, days)
      {
        LongWindow(days);
        var a, b := AgeMs(older, now), AgeMs(newer, now);
        if days <= I64_MAX && 0 < a < I64_MAX { SaturatedDecay(a); }
        if days <= I64_MAX && 0 < b < I64_MAX { SaturatedDecay(b); }
      }
    }
  }

  lemma LongWindow(days: u64)
    requires days > MAX_DAYS
    ensures if days <= I64_MAX then WindowMs(days) == I64_MAX else WindowMs(days) < 0
  {
    if days > I64_MAX {
      assert WrapI64(days) == days - U64;
    } else {
      assert WrapI64(days) == days;
    }
  }

  lemma SaturatedDecay(age: i64)
    requires 0 < age < I64_MAX
    ensures Decay(age, I64_MAX) == (300, false)
  {
    var x := 700 * (I64_MAX - age);
    var r := WrapI64(x);
    EvenWrap(350 * (I64_MAX - age));
    if r >= 0 {
      assert r / I64_MAX == 0;
    } else {
      assert -r <= I64_MAX + 1;
      assert 0 <= -r / I64_MAX <= 1;
    }
  }

  /** Reduction keeps even numbers even, so they never become the largest signed number. */
  lemma EvenWrap(y: nat)
    ensures WrapI64(2 * y) != I64_MAX
  {
    var q := 2 * y / U64;
    assert 2 * y % U64 == 2 * (y - q * (U64 / 2));
  }

  /** The smallest remainder whose product wraps scores less than the next smaller one. */
  lemma InvertedAges(days: u64) returns (now: i64)
    requires MAX_EXACT_DAYS < days <= MAX_DAYS
    ensures Freshness(0, now, days) > Freshness(1, now, days)
  {
    var window := days * DAY_MS;
    assert WrapI64(days) == days && WindowMs(days) == window;
    var left := I64_MAX / 700;
    now := window - left;
    WrappedDecay(now - 1, window);
    ExactDecay(now, window);
  }

  lemma WrappedDecay(age: i64, window: i64)
    requires 0 < age < window && window - age == I64_MAX / 700 + 1
    ensures Decay(age, window) == (300, false)
  {
    var r := WrapI64(700 * (window - age));
    assert r == 700 * (window - age) - U64 < 0;
    NotNegative(-r, window);
  }

  lemma NotNegative(x: nat, y: nat)
    requires y > 0
    ensures x / y >= 0
  {
  }

  lemma ExactDecay(age: i64, window: i64)
    requires 0 < age < window && window - age == I64_MAX / 700 && window <= 700 * (window - age)
    ensures Decay(age, window).0 > 300
  {
    var x := 700 * (window - age);
    assert WrapI64(x) == x;
    DivideMonotone(window, x, window);
  }
}
