/** The summary of a context pack (src/context_pack.rs). */
module PackSummary {
  import opened Prelude
  import opened Sorting
  import opened ContextPack

  datatype Status = Ready | Warning | Partial

  datatype Advice = SupplyFixture | NoCandidates | ReviewPrivacy | IncreaseBudget | ReviewOmitted | ReviewSelected

  datatype Summary = Summary(status: Status, utilization: nat, complete: bool, advice: Advice)

  /** Tokens used, in percent; the unsigned product wraps. */
  function Utilization(used: nat, budget: nat): nat {
    if budget == 0 then 0 else used * 100 % U64 / budget
  }

  function Summarize(problem: bool, candidates: nat, plan: Plan, budget: u64): Summary {
    var excluded, omitted, degraded := |plan.excluded|, |plan.omitted|, |plan.degraded|;
    Summary(
      if problem then Partial else if excluded > 0 || omitted > 0 || degraded > 0 then Warning else Ready,
      Utilization(plan.used, budget),
      |plan.selected| > 0,
      if problem then SupplyFixture
      else if candidates == 0 then NoCandidates
      else if excluded == candidates then ReviewPrivacy
      else if |plan.selected| == 0 then IncreaseBudget
      else if omitted > 0 then ReviewOmitted
      else ReviewSelected)
  }

  /** The four counts of a plan add up to the number of candidates. */
  lemma CountsAddUp(redact: string -> string, facts: Facts, plan: Plan)
    requires PlanOf(redact, facts, plan)
    ensures |plan.selected| + |plan.omitted| + |plan.excluded| + |plan.degraded| == |facts.candidates|
    ensures |plan.selected| + |plan.omitted| == |With(facts, facts.candidates, Scorable)|
  {
    NothingIsLost(redact, facts);
    SizeOfSum(plan.selected, plan.omitted, Scores(redact, facts, With(facts, facts.candidates, Scorable)));
    var e, d, s := With(facts, facts.candidates, Excluded), With(facts, facts.candidates, Degraded),
      With(facts, facts.candidates, Scorable);
    assert |multiset(e) + multiset(d) + multiset(s)| == |e| + |d| + |s|;
    assert |multiset(facts.candidates)| == |facts.candidates|;
  }

  lemma SizeOfSum<T>(a: seq<T>, b: seq<T>, c: seq<T>)
    requires multiset(a) + multiset(b) == multiset(c)
    ensures |a| + |b| == |c|
  {
    assert |multiset(a) + multiset(b)| == |a| + |b|;
    assert |multiset(c)| == |c|;
  }

  ghost predicate NoneBut(facts: Facts, fate: Fate) {
    forall c | c in facts.candidates :: FateOf(facts, c) == fate
  }

  lemma {:induction false} AllOfOneFate(facts: Facts, cs: seq<Candidate>, fate: Fate)
    ensures |With(facts, cs, fate)| <= |cs|
    ensures |With(facts, cs, fate)| == |cs| <==> forall c | c in cs :: FateOf(facts, c) == fate
  {
    if cs != [] {
      AllOfOneFate(facts, cs[..|cs| - 1], fate);
      assert cs == cs[..|cs| - 1] + [cs[|cs| - 1]];
    }
  }

  /** What the summary says about the candidates: the status is `ok` exactly when every
      candidate was selected; a privacy review is advised exactly when every candidate was excluded, and
      a larger budget exactly when nothing was selected although some candidate was not. */
  lemma SummaryMeans(redact: string -> string, facts: Facts, plan: Plan, problem: bool)
    requires PlanOf(redact, facts, plan)
    ensures var s := Summarize(problem, |facts.candidates|, plan, EvidenceBudget(facts));
      && (s.complete <==> plan.selected != []) && (s.status.Partial? <==> problem)
      && (s.advice.SupplyFixture? <==> problem)
      && (s.status.Ready? <==> !problem && |plan.selected| == |facts.candidates|)
      && (s.advice.ReviewSelected? <==> !problem && plan.omitted == [] && plan.selected != [])
      && (s.advice.ReviewOmitted? <==> !problem && plan.omitted != [] && plan.selected != [])
      && (s.advice.NoCandidates? <==> !problem && facts.candidates == [])
      && (s.advice.ReviewPrivacy? <==> !problem && facts.candidates != [] && NoneBut(facts, Excluded))
      && (s.advice.IncreaseBudget? <==> !problem && plan.selected == [] && !NoneBut(facts, Excluded))
  {
    CountsAddUp(redact, facts, plan);
    AllOfOneFate(facts, facts.candidates, Excluded);
  }

  // ---------- When a larger budget helps ----------

  /** Something is taken exactly when something fits on its own. */
  lemma {:induction false} TakenSomething(ss: seq<Scored>, budget: u64)
    ensures Taken(ss, budget) != [] <==> exists s | s in ss :: s.cost <= budget
  {
    if ss != [] {
      TakenSomething(ss[..|ss| - 1], budget);
      assert ss == ss[..|ss| - 1] + [ss[|ss| - 1]];
    }
  }

  lemma {:induction false} FatesForgetTheBudget(facts: Facts, more: u64, cs: seq<Candidate>)
    ensures With(facts.(tokenBudget := more), cs, Scorable) == With(facts, cs, Scorable)
  {
    if cs != [] {
      FatesForgetTheBudget(facts, more, cs[..|cs| - 1]);
    }
  }

  lemma RankingForgetsTheBudget(redact: string -> string, facts: Facts, more: u64)
    ensures Ranked(redact, facts.(tokenBudget := more)) == Ranked(redact, facts)
  {
    var other, scorable := facts.(tokenBudget := more), With(facts, facts.candidates, Scorable);
    FatesForgetTheBudget(facts, more, facts.candidates);
    assert Scores(redact, other, scorable) == Scores(redact, facts, scorable);
  }

  /** What these candidates would have selected under another token budget. */
  function SelectedUnder(redact: string -> string, facts: Facts, more: u64): seq<Scored> {
    var other := facts.(tokenBudget := more);
    Taken(Ranked(redact, other), EvidenceBudget(other))
  }

  /** The largest evidence budget there is. */
  const LARGEST_BUDGET: u64 := U64 - 65

  /** Whether some token budget selects anything at all: some scored reference must cost no more than
      the largest evidence budget. */
  lemma LargerBudgetHelps(redact: string -> string, facts: Facts)
    ensures (exists more: u64 :: SelectedUnder(redact, facts, more) != [])
       <==> (exists s | s in Ranked(redact, facts) :: s.cost <= LARGEST_BUDGET)
  {
    forall more: u64
      ensures SelectedUnder(redact, facts, more) != [] ==>
        exists s | s in Ranked(redact, facts) :: s.cost <= LARGEST_BUDGET
    {
      RankingForgetsTheBudget(redact, facts, more);
      TakenSomething(Ranked(redact, facts), EvidenceBudget(facts.(tokenBudget := more)));
    }
    RankingForgetsTheBudget(redact, facts, U64 - 1);
    TakenSomething(Ranked(redact, facts), LARGEST_BUDGET);
    assert EvidenceBudget(facts.(tokenBudget := U64 - 1)) == LARGEST_BUDGET;
    assert SelectedUnder(redact, facts, U64 - 1) == Taken(Ranked(redact, facts), LARGEST_BUDGET);
  }

  /** The advice to increase the budget can be followed to some effect exactly when some scored
      reference costs no more than the largest evidence budget; then the present budget is what
      stands in its way. */
  lemma IncreaseBudgetHelps(redact: string -> string, facts: Facts, plan: Plan)
    requires PlanOf(redact, facts, plan)
    requires Summarize(false, |facts.candidates|, plan, EvidenceBudget(facts)).advice == IncreaseBudget
    ensures (exists more: u64 :: SelectedUnder(redact, facts, more) != [])
       <==> (exists s | s in Ranked(redact, facts) :: s.cost <= LARGEST_BUDGET)
    ensures forall s | s in Ranked(redact, facts) :: s.cost > EvidenceBudget(facts)
  {
    LargerBudgetHelps(redact, facts);
    TakenSomething(Ranked(redact, facts), EvidenceBudget(facts));
  }

  lemma NothingScorable(redact: string -> string, facts: Facts, more: u64)
    requires With(facts, facts.candidates, Scorable) == []
    ensures Ranked(redact, facts) == [] && SelectedUnder(redact, facts, more) == []
  {
    RankingForgetsTheBudget(redact, facts, more);
  }

  /** A candidate that only the semantic model found, and no semantic model. */
  function Unsupported(id: string, excerpt: string, budget: u64): Facts {
    Facts(budget, None, 30, false, [Candidate(id, excerpt, None, Finite(1.0), Finite(1.0), Low, true)])
  }

  lemma UnsupportedFates(id: string, excerpt: string, budget: u64)
    ensures var facts := Unsupported(id, excerpt, budget);
      && With(facts, facts.candidates, Excluded) == [] && With(facts, facts.candidates, Scorable) == []
      && With(facts, facts.candidates, Degraded) == facts.candidates
  {
    var facts := Unsupported(id, excerpt, budget);
    assert facts.candidates[..0] == [] && FateOf(facts, facts.candidates[0]) == Degraded;
  }

  /** There a larger budget is advised, and no budget selects anything. */
  lemma BudgetAdvisedInVain(redact: string -> string, id: string, excerpt: string, budget: u64)
    ensures var facts := Unsupported(id, excerpt, budget);
      var plan := Plan([], [], [], facts.candidates, 0);
      && PlanOf(redact, facts, plan)
      && Summarize(false, 1, plan, EvidenceBudget(facts)).advice == IncreaseBudget
      && forall more: u64 :: SelectedUnder(redact, facts, more) == []
  {
    var facts := Unsupported(id, excerpt, budget);
    UnsupportedFates(id, excerpt, budget);
    forall more: u64 ensures SelectedUnder(redact, facts, more) == [] { NothingScorable(redact, facts, more); }
    NothingScorable(redact, facts, budget);
  }

  // ---------- The utilization ----------

  /** The utilization is the rounded-down percentage, at most 100, exactly when the product fits. */
  lemma UtilizationExactly(used: nat, budget: nat)
    requires used <= budget < U64 && budget > 0
    ensures Utilization(used, budget) == used * 100 / budget <==> used * 100 < U64
    ensures used * 100 / budget <= 100
  {
    var product := used * 100;
    assert product / budget <= 100 by { QuotientAtMost(product, budget, 100); }
    if product >= U64 {
      var wrapped := product % U64;
      assert wrapped + budget <= product;
      QuotientBelow(wrapped, product, budget);
    }
  }

  /** The size of the excerpts to be charged for, with 35 characters for each candidate's rounding
      and metadata. */
  function Load(redact: string -> string, cs: seq<Candidate>): nat {
    if cs == [] then 0 else Load(redact, cs[..|cs| - 1]) + |redact(cs[|cs| - 1].excerpt)| + 35
  }

  lemma {:induction false} WithLoad(redact: string -> string, facts: Facts, cs: seq<Candidate>, fate: Fate)
    ensures Load(redact, With(facts, cs, fate)) <= Load(redact, cs)
  {
    if cs != [] {
      var before, c := With(facts, cs[..|cs| - 1], fate), cs[|cs| - 1];
      WithLoad(redact, facts, cs[..|cs| - 1], fate);
      assert (before + [c])[..|before|] == before;
      assert before + [] == before;
    }
  }

  lemma {:induction false} ScoresCost(redact: string -> string, facts: Facts, cs: seq<Candidate>)
    ensures 4 * Cost(Scores(redact, facts, cs)) <= Load(redact, cs)
  {
    if cs != [] {
      var n := |cs| - 1;
      ScoresCost(redact, facts, cs[..n]);
      assert Scores(redact, facts, cs)[..n] == Scores(redact, facts, cs[..n]);
      CostOfText(redact(cs[n].excerpt));
    }
  }

  lemma CostOfText(text: string)
    ensures 4 * SaturatingU64(EstimatedTokens(text) + 8) <= |text| + 35
  {
  }

  lemma {:induction false} CostCons(s: Scored, ss: seq<Scored>)
    ensures Cost([s] + ss) == s.cost + Cost(ss)
  {
    if ss == [] {
      assert [s] + ss == [s] && [s][..0] == [];
    } else {
      CostCons(s, ss[..|ss| - 1]);
      assert ([s] + ss)[..|ss|] == [s] + ss[..|ss| - 1];
    }
  }

  lemma {:induction false} InsertCost(s: Scored, ss: seq<Scored>)
    ensures Cost(Insert(RankLe, s, ss)) == s.cost + Cost(ss)
  {
    CostCons(s, ss);
    if ss != [] && !RankLe(s, ss[0]) {
      InsertCost(s, ss[1..]);
      CostCons(ss[0], Insert(RankLe, s, ss[1..]));
      CostCons(ss[0], ss[1..]);
      assert [ss[0]] + ss[1..] == ss;
    }
  }

  lemma {:induction false} SortCost(ss: seq<Scored>)
    ensures Cost(Sort(RankLe, ss)) == Cost(ss)
  {
    if ss != [] {
      SortCost(ss[1..]);
      InsertCost(ss[0], Sort(RankLe, ss[1..]));
      CostCons(ss[0], ss[1..]);
      assert [ss[0]] + ss[1..] == ss;
    }
  }

  lemma {:induction false} TakenCost(ss: seq<Scored>, budget: u64)
    ensures Cost(Taken(ss, budget)) <= Cost(ss)
  {
    if ss != [] {
      var before := Taken(ss[..|ss| - 1], budget);
      TakenCost(ss[..|ss| - 1], budget);
      CostAppend(before, ss[|ss| - 1]);
    }
  }

  /** Four times the largest token count whose hundredfold fits 64 bits. */
  const MAX_EXACT_LOAD := 737_869_762_948_382_064

  /** A plan whose excerpts stay within that size reports its utilization as the rounded-down
      percentage, which is at most 100. */
  lemma UtilizationIsPercentage(redact: string -> string, facts: Facts, plan: Plan, problem: bool)
    requires PlanOf(redact, facts, plan) && Load(redact, facts.candidates) <= MAX_EXACT_LOAD
    ensures var budget := EvidenceBudget(facts);
      var s := Summarize(problem, |facts.candidates|, plan, budget);
      s.utilization <= 100 && (budget > 0 ==> s.utilization == plan.used * 100 / budget)
  {
    var scorable := With(facts, facts.candidates, Scorable);
    WithLoad(redact, facts, facts.candidates, Scorable);
    ScoresCost(redact, facts, scorable);
    SortCost(Scores(redact, facts, scorable));
    TakenCost(Ranked(redact, facts), EvidenceBudget(facts));
    assert 4 * plan.used <= MAX_EXACT_LOAD;
    if EvidenceBudget(facts) > 0 { UtilizationExactly(plan.used, EvidenceBudget(facts)); }
  }

  lemma QuotientAtMost(x: nat, y: nat, q: nat)
    requires y > 0 && x <= q * y
    ensures x / y <= q
  {
    assert x / y * y + x % y == x;
    Cancel(x / y, q + 1, y);
  }

  lemma QuotientBelow(x: nat, z: nat, y: nat)
    requires y > 0 && x + y <= z
    ensures x / y < z / y
  {
    assert x / y * y + x % y == x && z / y * y + z % y == z;
    Cancel(x / y, z / y, y);
  }

  lemma Cancel(a: nat, b: nat, y: nat)
    requires a * y < b * y
    ensures a < b
  {
  }
}
