/** Bead-scoped context pack selection under a token budget (src/context_pack.rs). */
module ContextPack {
  import opened Prelude
  import opened Sorting

  const I64_MAX := 0x7FFF_FFFF_FFFF_FFFF
  const I64_MIN := -0x8000_0000_0000_0000

  type u64 = x: int | 0 <= x < U64
  type i64 = x: int | I64_MIN <= x <= I64_MAX

  function SaturatingI64(x: int): i64 {
    if x > I64_MAX then I64_MAX else if x < I64_MIN then I64_MIN else x
  }

  /** Two's complement reduction: release arithmetic and the `as i64` cast. */
  function WrapI64(x: int): i64 {
    var r := x % U64;
    if r > I64_MAX then r - U64 else r
  }

  function SaturatingU64(x: nat): u64 {
    if x >= U64 then U64 - 1 else x
  }

  /** Rust's `/`: towards zero. */
  function Quotient(x: int, y: int): int
    requires y > 0
  {
    if x >= 0 then x / y else -(-x / y)
  }

  function Clamp(x: int, low: int, high: int): int {
    if x < low then low else if x > high then high else x
  }

  // ---------- Freshness ----------

  const DAY_MS := 86_400_000
  const MAX_EXACT_DAYS := 152_502_844

  function WindowMs(days: u64): i64 {
    SaturatingI64(WrapI64(if days < 1 then 1 else days) * DAY_MS)
  }

  function AgeMs(created: i64, now: i64): i64 {
    SaturatingI64(now - created)
  }

  /** The one multiplication whose i64 result could be out of range. */
  predicate DecayOverflows(created: i64, now: i64, days: u64) {
    var window, age := WindowMs(days), AgeMs(created, now);
    0 < age < window && 700 * (window - age) > I64_MAX
  }

  /** (freshness, stale), with wrap-around where the release build wraps. */
  function FreshnessScore(created: Option<i64>, now: Option<i64>, days: u64): (nat, bool) {
    match (created, now)
    case (Some(c), Some(n)) => Decay(AgeMs(c, n), WindowMs(days))
    case _ => (400, false)
  }

  function Decay(age: i64, window: i64): (nat, bool) {
    if age <= 0 then (1000, false)
    else if age >= window then (100, true)
    else (Clamp(300 + Quotient(WrapI64(700 * (window - age)), window), 300, 1000), false)
  }

  /** Freshness arithmetic is exact for all timestamps precisely when the window is at most
      152,502,844 days (or so large that the cast makes it negative, which makes everything stale). */
  lemma FreshnessExactWindows(days: u64)
    ensures (forall created: i64, now: i64 :: !DecayOverflows(created, now, days))
       <==> days <= MAX_EXACT_DAYS || days > I64_MAX
  {
    var d := if days < 1 then 1 else days;
    if days <= MAX_EXACT_DAYS {
      assert WindowMs(days) == d * DAY_MS <= MAX_EXACT_DAYS * DAY_MS;
    } else if days > I64_MAX {
      assert WrapI64(d) == d - U64;
      assert WindowMs(days) < 0;
    } else {
      assert WrapI64(d) == d;
      assert WindowMs(days) >= (MAX_EXACT_DAYS + 1) * DAY_MS;
      assert AgeMs(0, 1) == 1;
      assert DecayOverflows(0, 1, days);
    }
  }

  lemma MultiplyMonotone(d: nat, x: nat, y: nat)
    requires x <= y
    ensures d * x <= d * y
  {
  }

  lemma DivideMonotone(x: nat, y: nat, d: nat)
    requires d > 0 && x <= y
    ensures x / d <= y / d
  {
    assert d * (x / d) <= x <= y < d * (y / d + 1);
    if y / d + 1 <= x / d {
      MultiplyMonotone(d, y / d + 1, x / d);
    }
  }

  lemma DivideBelow(x: nat, factor: nat, d: nat)
    requires d > 0 && x <= factor * d
    ensures x / d <= factor
  {
    DivideMonotone(x, factor * d, d);
    assert factor * d / d == factor;
  }

  /** Within an exact window: known ages score 100 when stale and 300 to 1000 otherwise, stale means
      exactly at or past the window, and an older item never scores higher. */
  lemma FreshnessDecays(older: i64, newer: i64, now: i64, days: u64)
    requires days <= MAX_EXACT_DAYS && older <= newer
    ensures var (f, stale) := FreshnessScore(Some(older), Some(now), days);
      && (stale <==> AgeMs(older, now) >= WindowMs(days))
      && (if stale then f == 100 else 300 <= f <= 1000)
      && f <= FreshnessScore(Some(newer), Some(now), days).0
  {
    ExactWindow(days);
    assert AgeMs(newer, now) <= AgeMs(older, now);
    DecayOrdered(AgeMs(older, now), AgeMs(newer, now), WindowMs(days));
  }

  lemma ExactWindow(days: u64)
    requires days <= MAX_EXACT_DAYS
    ensures 0 < WindowMs(days) && 700 * WindowMs(days) <= I64_MAX
  {
    assert WindowMs(days) == (if days < 1 then 1 else days) * DAY_MS <= MAX_EXACT_DAYS * DAY_MS;
  }

  lemma DecayOrdered(older: i64, newer: i64, window: i64)
    requires newer <= older && 0 < window && 700 * window <= I64_MAX
    ensures var (f, stale) := Decay(older, window);
      && (stale <==> older >= window)
      && (if stale then f == 100 else 300 <= f <= 1000)
      && f <= Decay(newer, window).0
  {
    if 0 < older < window { DecayInside(older, window); }
    if 0 < newer < window { DecayInside(newer, window); }
    if 0 < newer <= older < window { DivideMonotone(700 * (window - older), 700 * (window - newer), window); }
  }

  lemma DecayInside(age: nat, window: nat)
    requires 0 < age < window && 700 * (window - age) <= I64_MAX
    ensures WrapI64(700 * (window - age)) == 700 * (window - age)
    ensures Quotient(700 * (window - age), window) == 700 * (window - age) / window <= 700
  {
    DivideBelow(700 * (window - age), 700, window);
  }

  // ---------- Scoring ----------

  datatype Float = NaN | PositiveInfinity | NegativeInfinity | Finite(value: real)

  function ClampUnit(x: Float): (r: real)
    ensures 0.0 <= r <= 1.0
  {
    match x
    case NaN => 0.0
    case PositiveInfinity => 1.0
    case NegativeInfinity => 0.0
    case Finite(v) => if v < 0.0 then 0.0 else if v > 1.0 then 1.0 else v
  }

  function PerMille(x: Float): (r: nat)
    ensures r <= 1000
  {
    (ClampUnit(x) * 1000.0).Floor
  }

  function Combine(relevance: Float, freshness: nat, authority: Float): nat {
    (50 * PerMille(relevance) + 30 * freshness + 20 * PerMille(authority)) / 100
  }

  /** The order of two numeric signals; a NaN counts as the lowest. */
  predicate NotAbove(a: Float, b: Float) {
    ClampUnit(a) <= ClampUnit(b)
  }

  /** The combined score stays in 0..1000 and never falls when a signal improves. */
  lemma CombineMonotone(r1: Float, r2: Float, f1: nat, f2: nat, a1: Float, a2: Float)
    requires NotAbove(r1, r2) && f1 <= f2 <= 1000 && NotAbove(a1, a2)
    ensures Combine(r1, f1, a1) <= Combine(r2, f2, a2) <= 1000
  {
    assert PerMille(r1) <= PerMille(r2) && PerMille(a1) <= PerMille(a2);
    DivideMonotone(50 * PerMille(r1) + 30 * f1 + 20 * PerMille(a1),
                   50 * PerMille(r2) + 30 * f2 + 20 * PerMille(a2), 100);
    DivideBelow(50 * PerMille(r2) + 30 * f2 + 20 * PerMille(a2), 1000, 100);
  }

  // ---------- Candidates ----------

  /** The privacy label, trimmed and compared without case. */
  datatype Risk = Low | Medium | High | Unrecognised

  datatype Candidate = Candidate(id: string, excerpt: string, created: Option<i64>, relevance: Float, authority: Float,
                                 risk: Risk, semanticOnly: bool)

  datatype Facts = Facts(tokenBudget: u64, now: Option<i64>, windowDays: u64, semanticAvailable: bool,
                         candidates: seq<Candidate>)

  datatype Scored = Scored(candidate: Candidate, score: nat, freshness: nat, cost: u64, stale: bool)

  function EstimatedTokens(text: string): nat {
    (|text| + 3) / 4
  }

  /** `redact` is the shared redactor; its output is what is charged for. */
  function Score(redact: string -> string, facts: Facts, c: Candidate): Scored {
    var (freshness, stale) := FreshnessScore(c.created, facts.now, facts.windowDays);
    Scored(c, Combine(c.relevance, freshness, c.authority), freshness,
           SaturatingU64(EstimatedTokens(redact(c.excerpt)) + 8), stale)
  }

  datatype Fate = Excluded | Degraded | Scorable

  function FateOf(facts: Facts, c: Candidate): Fate {
    if !c.risk.Low? && !c.risk.Medium? then Excluded
    else if c.semanticOnly && !facts.semanticAvailable then Degraded
    else Scorable
  }

  /** The candidates with one fate, in input order. */
  function With(facts: Facts, cs: seq<Candidate>, fate: Fate): seq<Candidate> {
    if cs == [] then [] else
      With(facts, cs[..|cs| - 1], fate) + if FateOf(facts, cs[|cs| - 1]) == fate then [cs[|cs| - 1]] else []
  }

  function Scores(redact: string -> string, facts: Facts, cs: seq<Candidate>): (r: seq<Scored>)
    ensures |r| == |cs| && forall i | 0 <= i < |cs| :: r[i] == Score(redact, facts, cs[i])
  {
    seq(|cs|, i requires 0 <= i < |cs| => Score(redact, facts, cs[i]))
  }

  /** Score descending, then freshness descending, then id ascending. */
  predicate RankLe(a: Scored, b: Scored) {
    if a.score != b.score then a.score > b.score
    else if a.freshness != b.freshness then a.freshness > b.freshness
    else StringLe(a.candidate.id, b.candidate.id)
  }

  lemma RankOrder()
    ensures TotalPreorder(RankLe)
  {
    StringOrder();
  }

  // ---------- Selection ----------

  function EvidenceBudget(facts: Facts): u64 {
    facts.tokenBudget - (if 64 < facts.tokenBudget then 64 else facts.tokenBudget)
  }

  function Cost(ss: seq<Scored>): nat {
    if ss == [] then 0 else Cost(ss[..|ss| - 1]) + ss[|ss| - 1].cost
  }

  /** Greedy fill: a reference is taken when it fits into what the ones taken before it leave. */
  function Taken(ss: seq<Scored>, budget: u64): (r: seq<Scored>)
    ensures Cost(r) <= budget
  {
    if ss == [] then [] else
      var before := Taken(ss[..|ss| - 1], budget);
      var s := ss[|ss| - 1];
      if Cost(before) + s.cost <= budget then
        assert (before + [s])[..|before|] == before;
        before + [s]
      else before
  }

  function Left(ss: seq<Scored>, budget: u64): seq<Scored> {
    if ss == [] then [] else
      var s := ss[|ss| - 1];
      Left(ss[..|ss| - 1], budget) + if Cost(Taken(ss[..|ss| - 1], budget)) + s.cost <= budget then [] else [s]
  }

  datatype Plan = Plan(selected: seq<Scored>, omitted: seq<Scored>, excluded: seq<Candidate>, degraded: seq<Candidate>,
                       used: u64)

  function Ranked(redact: string -> string, facts: Facts): seq<Scored> {
    Sort(RankLe, Scores(redact, facts, With(facts, facts.candidates, Scorable)))
  }

  lemma WithStep(facts: Facts, cs: seq<Candidate>, i: nat, fate: Fate)
    requires i < |cs|
    ensures With(facts, cs[..i + 1], fate)
         == With(facts, cs[..i], fate) + if FateOf(facts, cs[i]) == fate then [cs[i]] else []
  {
    assert cs[..i + 1][..i] == cs[..i];
  }

  /** The first loop: privacy exclusion and degradation before any scoring. */
  method Classify(redact: string -> string, facts: Facts)
    returns (excluded: seq<Candidate>, degraded: seq<Candidate>, scorable: seq<Scored>)
    ensures excluded == With(facts, facts.candidates, Excluded)
    ensures degraded == With(facts, facts.candidates, Degraded)
    ensures scorable == Scores(redact, facts, With(facts, facts.candidates, Scorable))
  {
    excluded, degraded, scorable := [], [], [];
    var i := 0;
    while i < |facts.candidates|
      invariant 0 <= i <= |facts.candidates|
      invariant excluded == With(facts, facts.candidates[..i], Excluded)
      invariant degraded == With(facts, facts.candidates[..i], Degraded)
      invariant scorable == Scores(redact, facts, With(facts, facts.candidates[..i], Scorable))
    {
      var c := facts.candidates[i];
      WithStep(facts, facts.candidates, i, Excluded);
      WithStep(facts, facts.candidates, i, Degraded);
      WithStep(facts, facts.candidates, i, Scorable);
      i := i + 1;
      if !c.risk.Low? && !c.risk.Medium? {
        excluded := excluded + [c];
        continue;
      }
      if c.semanticOnly && !facts.semanticAvailable {
        degraded := degraded + [c];
        continue;
      }
      scorable := scorable + [Score(redact, facts, c)];
    }
    assert facts.candidates[..|facts.candidates|] == facts.candidates;
  }

  ghost predicate Filled(ss: seq<Scored>, budget: u64, selected: seq<Scored>, omitted: seq<Scored>, used: nat) {
    selected == Taken(ss, budget) && omitted == Left(ss, budget) && used == Cost(selected) <= budget
  }

  lemma FillStep(ss: seq<Scored>, i: nat, budget: u64, selected: seq<Scored>, omitted: seq<Scored>, used: nat)
    requires i < |ss| && Filled(ss[..i], budget, selected, omitted, used)
    ensures if used + ss[i].cost <= budget
      then Filled(ss[..i + 1], budget, selected + [ss[i]], omitted, used + ss[i].cost)
      else Filled(ss[..i + 1], budget, selected, omitted + [ss[i]], used)
  {
    assert ss[..i + 1][..i] == ss[..i];
    CostAppend(selected, ss[i]);
  }

  lemma CostAppend(ss: seq<Scored>, s: Scored)
    ensures Cost(ss + [s]) == Cost(ss) + s.cost
  {
    assert (ss + [s])[..|ss|] == ss;
  }

  /** The saturating comparison is the exact one, because an evidence budget is never the largest u64. */
  lemma SaturatingFits(used: nat, cost: nat, budget: u64)
    requires budget < U64 - 1
    ensures SaturatingU64(used + cost) <= budget <==> used + cost <= budget
  {
  }

  /** The selection loop. The saturating comparison rejects exactly what does not fit, because an
      evidence budget is never the largest u64; the unchecked addition therefore never overflows. */
  method Fill(scorable: seq<Scored>, budget: u64) returns (selected: seq<Scored>, omitted: seq<Scored>, used: u64)
    requires budget < U64 - 1
    ensures selected == Taken(scorable, budget) && omitted == Left(scorable, budget)
    ensures used == Cost(selected) <= budget
  {
    used := 0;
    selected, omitted := [], [];
    var i := 0;
    while i < |scorable|
      invariant 0 <= i <= |scorable| && Filled(scorable[..i], budget, selected, omitted, used)
    {
      var s := scorable[i];
      FillStep(scorable, i, budget, selected, omitted, used);
      SaturatingFits(used, s.cost, budget);
      if SaturatingU64(used + s.cost) <= budget {
        used := used + s.cost;
        selected := selected + [s];
      } else {
        omitted := omitted + [s];
      }
      i := i + 1;
    }
    assert scorable[..|scorable|] == scorable;
  }

  /** The plan for these facts. */
  ghost predicate PlanOf(redact: string -> string, facts: Facts, plan: Plan) {
    && plan.excluded == With(facts, facts.candidates, Excluded)
    && plan.degraded == With(facts, facts.candidates, Degraded)
    && plan.selected == Taken(Ranked(redact, facts), EvidenceBudget(facts))
    && plan.omitted == Left(Ranked(redact, facts), EvidenceBudget(facts))
    && plan.used == Cost(plan.selected) <= EvidenceBudget(facts)
  }

  method Render(redact: string -> string, facts: Facts) returns (plan: Plan)
    ensures PlanOf(redact, facts, plan)
  {
    var excluded, degraded, scorable := Classify(redact, facts);
    var budget := EvidenceBudget(facts);
    var selected, omitted, used := Fill(Sort(RankLe, scorable), budget);
    plan := Plan(selected, omitted, excluded, degraded, used);
  }

  // ---------- What a plan guarantees ----------

  lemma Snoc<T>(s: seq<T>, x: T)
    requires s != []
    ensures multiset(s)[x] == multiset(s[..|s| - 1])[x] + if s[|s| - 1] == x then 1 else 0
  {
    assert s == s[..|s| - 1] + [s[|s| - 1]];
  }

  lemma {:induction false} WithMultiset(facts: Facts, cs: seq<Candidate>, fate: Fate, c: Candidate)
    ensures multiset(With(facts, cs, fate))[c] == if FateOf(facts, c) == fate then multiset(cs)[c] else 0
  {
    if cs != [] {
      WithMultiset(facts, cs[..|cs| - 1], fate, c);
      Snoc(cs, c);
    }
  }

  lemma FatesPartition(facts: Facts, cs: seq<Candidate>)
    ensures multiset(With(facts, cs, Excluded)) + multiset(With(facts, cs, Degraded))
          + multiset(With(facts, cs, Scorable))
         == multiset(cs)
  {
    forall c
      ensures multiset(With(facts, cs, Excluded))[c] + multiset(With(facts, cs, Degraded))[c]
            + multiset(With(facts, cs, Scorable))[c]
           == multiset(cs)[c]
    {
      WithMultiset(facts, cs, Excluded, c);
      WithMultiset(facts, cs, Degraded, c);
      WithMultiset(facts, cs, Scorable, c);
    }
  }

  lemma {:induction false} FillCounts(ss: seq<Scored>, budget: u64, s: Scored)
    ensures multiset(Taken(ss, budget))[s] + multiset(Left(ss, budget))[s] == multiset(ss)[s]
  {
    if ss != [] {
      FillCounts(ss[..|ss| - 1], budget, s);
      Snoc(ss, s);
    }
  }

  lemma FillPartitions(ss: seq<Scored>, budget: u64)
    ensures multiset(Taken(ss, budget)) + multiset(Left(ss, budget)) == multiset(ss)
  {
    forall s ensures multiset(Taken(ss, budget))[s] + multiset(Left(ss, budget))[s] == multiset(ss)[s] {
      FillCounts(ss, budget, s);
    }
  }

  /** Nothing is lost: the scored references that are selected or omitted, and the candidates that
      are excluded or degraded, are all of the candidates, each once. */
  lemma NothingIsLost(redact: string -> string, facts: Facts)
    ensures var scorable := With(facts, facts.candidates, Scorable);
      && multiset(With(facts, facts.candidates, Excluded)) + multiset(With(facts, facts.candidates, Degraded))
         + multiset(scorable)
         == multiset(facts.candidates)
      && multiset(Taken(Ranked(redact, facts), EvidenceBudget(facts)))
         + multiset(Left(Ranked(redact, facts), EvidenceBudget(facts)))
         == multiset(Scores(redact, facts, scorable))
  {
    FatesPartition(facts, facts.candidates);
    FillPartitions(Ranked(redact, facts), EvidenceBudget(facts));
    SortMultiset(RankLe, Scores(redact, facts, With(facts, facts.candidates, Scorable)));
  }

  lemma {:induction false} TakenGrows(ss: seq<Scored>, n: nat, budget: u64)
    requires n <= |ss|
    ensures Taken(ss[..n], budget) <= Taken(ss, budget) && Cost(Taken(ss[..n], budget)) <= Cost(Taken(ss, budget))
    decreases |ss|
  {
    if n == |ss| {
      assert ss[..n] == ss;
    } else {
      var m := |ss| - 1;
      TakenGrows(ss[..m], n, budget);
      assert ss[..m][..n] == ss[..n];
      CostAppend(Taken(ss[..m], budget), ss[m]);
    }
  }

  /** No omitted reference fits into what is left at the end. */
  lemma {:induction false} NoOmittedFits(ss: seq<Scored>, budget: u64, s: Scored)
    requires s in Left(ss, budget)
    ensures Cost(Taken(ss, budget)) + s.cost > budget
  {
    var m := |ss| - 1;
    TakenGrows(ss, m, budget);
    if s in Left(ss[..m], budget) {
      NoOmittedFits(ss[..m], budget, s);
    }
  }

  lemma ScoresSnoc(redact: string -> string, facts: Facts, cs: seq<Candidate>)
    requires cs != []
    ensures var n, ss := |cs| - 1, Scores(redact, facts, cs);
      ss[..n] == Scores(redact, facts, cs[..n]) && ss[n] == Score(redact, facts, cs[n])
  {
  }

  lemma {:induction false} ScoresMultiset(redact: string -> string, facts: Facts, cs: seq<Candidate>, s: Scored)
    ensures multiset(Scores(redact, facts, cs))[s]
         == if s == Score(redact, facts, s.candidate) then multiset(cs)[s.candidate] else 0
  {
    if cs != [] {
      var n := |cs| - 1;
      ScoresMultiset(redact, facts, cs[..n], s);
      Snoc(cs, s.candidate);
      ScoresSnoc(redact, facts, cs);
      Snoc(Scores(redact, facts, cs), s);
      assert Score(redact, facts, cs[n]) == s <==> s == Score(redact, facts, s.candidate) && cs[n] == s.candidate;
    }
  }

  ghost predicate DistinctIds(cs: seq<Candidate>) {
    forall c, d | c in cs && d in cs && c.id == d.id :: c == d
  }

  lemma RankedForgetsOrder(redact: string -> string, f: Facts, g: Facts)
    requires g == f.(candidates := g.candidates) && multiset(f.candidates) == multiset(g.candidates)
    requires DistinctIds(f.candidates)
    ensures Ranked(redact, f) == Ranked(redact, g)
  {
    var a, b := With(f, f.candidates, Scorable), With(g, g.candidates, Scorable);
    forall c ensures multiset(a)[c] == multiset(b)[c] {
      WithMultiset(f, f.candidates, Scorable, c);
      WithMultiset(g, g.candidates, Scorable, c);
    }
    var x, y := Scores(redact, f, a), Scores(redact, g, b);
    forall s ensures multiset(x)[s] == multiset(y)[s] {
      ScoresMultiset(redact, f, a, s);
      ScoresMultiset(redact, g, b, s);
    }
    forall s, u | s in x && u in x && RankLe(s, u) && RankLe(u, s) ensures s == u {
      ScoredFrom(redact, f, s);
      ScoredFrom(redact, f, u);
      StringOrder();
      assert StringLe(s.candidate.id, u.candidate.id) && StringLe(u.candidate.id, s.candidate.id);
    }
    RankOrder();
    SortForgetsOrder(RankLe, x, y);
  }

  lemma ScoredFrom(redact: string -> string, f: Facts, s: Scored)
    requires s in Scores(redact, f, With(f, f.candidates, Scorable))
    ensures s.candidate in f.candidates && s == Score(redact, f, s.candidate)
  {
    var a := With(f, f.candidates, Scorable);
    WithMultiset(f, f.candidates, Scorable, s.candidate);
    assert s.candidate in a;
    assert s.candidate in multiset(a) && s.candidate in multiset(f.candidates);
  }

  /** With distinct ids, what is selected and what is omitted does not depend on the input order. */
  lemma SelectionForgetsOrder(redact: string -> string, f: Facts, g: Facts)
    requires g == f.(candidates := g.candidates) && multiset(f.candidates) == multiset(g.candidates)
    requires DistinctIds(f.candidates)
    ensures Taken(Ranked(redact, f), EvidenceBudget(f)) == Taken(Ranked(redact, g), EvidenceBudget(g))
    ensures Left(Ranked(redact, f), EvidenceBudget(f)) == Left(Ranked(redact, g), EvidenceBudget(g))
  {
    RankedForgetsOrder(redact, f, g);
  }
}
