/** Discounted cumulative gain over the reals, and the rearrangement inequality behind NDCG <= 1
    (scripts/evaluate_title_retrieval.py, src/bakeoff.rs). */
module Ndcg {
  import opened Sorting

  /** The logarithm, as far as discounting needs it: positive and non-decreasing from 2 on. */
  ghost predicate Logarithm(log2: nat -> real) {
    (forall n: nat | n >= 2 :: log2(n) > 0.0) && (forall m: nat, n: nat | 2 <= m <= n :: log2(m) <= log2(n))
  }

  /** The logarithm with its strict growth. */
  ghost predicate StrictLogarithm(log2: nat -> real) {
    Logarithm(log2) && forall m: nat, n: nat | 2 <= m < n :: log2(m) < log2(n)
  }

  /** The exponential: increasing, and 1 at 0. */
  ghost predicate Exponential(pow2: real -> real) {
    pow2(0.0) == 1.0 && forall x, y | x < y :: pow2(x) < pow2(y)
  }

  /** Positions past the end gain nothing. */
  function At(s: seq<real>, i: nat): real {
    if i < |s| then s[i] else 0.0
  }

  /** The first `n` gains, undiscounted. */
  function Sum(s: seq<real>, n: nat): real {
    if n == 0 then 0.0 else Sum(s, n - 1) + At(s, n - 1)
  }

  /** The first `n` gains, each divided by the logarithm of its position plus one. */
  ghost function Dcg(log2: nat -> real, s: seq<real>, n: nat): real
    requires Logarithm(log2)
  {
    if n == 0 then 0.0 else Dcg(log2, s, n - 1) + At(s, n - 1) / log2(n + 1)
  }

  ghost predicate NonNegative(s: seq<real>) {
    forall i | 0 <= i < |s| :: s[i] >= 0.0
  }

  predicate Descending(a: real, b: real) { a >= b }

  lemma DescendingOrder()
    ensures TotalOrder(Descending)
  {
  }

  // ---------- Prefix domination implies discounted domination ----------

  lemma Reciprocal(x: real, y: real)
    requires 0.0 < x <= y
    ensures 1.0 / x >= 1.0 / y > 0.0
  {
  }

  lemma NonNegativeQuotient(x: real, y: real)
    requires x >= 0.0 && y > 0.0
    ensures x / y >= 0.0
  {
  }

  lemma Scale(w: real, v: real, x: real)
    requires w >= v && x >= 0.0
    ensures w * x >= v * x
  {
  }

  /** The arithmetic of one position, all nonlinear: a further discount `y` no smaller than `x`, a lead
      in undiscounted sums that is not negative, and the next two gains. */
  lemma Discount(x: real, y: real, lead: real, a: real, b: real, difference: real)
    requires 0.0 < x <= y && lead >= 0.0 && difference >= lead / x
    ensures difference + a / y - b / y >= (lead + (a - b)) / y
  {
    Reciprocal(x, y);
    Scale(1.0 / x, 1.0 / y, lead);
    Distribute(1.0 / y, lead, a, b);
    assert lead / x == 1.0 / x * lead && (lead + (a - b)) / y == 1.0 / y * (lead + (a - b));
    assert a / y == 1.0 / y * a && b / y == 1.0 / y * b;
  }

  lemma Distribute(w: real, lead: real, a: real, b: real)
    ensures w * (lead + (a - b)) == w * lead + w * a - w * b
  {
  }

  lemma {:induction false} Summation(log2: nat -> real, g: seq<real>, d: seq<real>, n: nat)
    requires Logarithm(log2)
    requires forall m: nat | m <= n + 1 :: Lead(g, d, m) >= 0.0
    ensures Dcg(log2, d, n + 1) - Dcg(log2, g, n + 1) >= Lead(g, d, n + 1) / log2(n + 2)
  {
    if n == 0 {
      assert Dcg(log2, d, 0) == Dcg(log2, g, 0) == Lead(g, d, 0) == 0.0;
      Discount(log2(2), log2(2), 0.0, At(d, 0), At(g, 0), 0.0);
    } else {
      Summation(log2, g, d, n - 1);
      Discount(log2(n + 1), log2(n + 2), Lead(g, d, n), At(d, n), At(g, n), Dcg(log2, d, n) - Dcg(log2, g, n));
    }
  }

  /** How far the first `n` members of `d` sum ahead of those of `g`. */
  function Lead(g: seq<real>, d: seq<real>, n: nat): real {
    if n == 0 then 0.0 else Lead(g, d, n - 1) + (At(d, n - 1) - At(g, n - 1))
  }

  lemma {:induction false} LeadOfSums(g: seq<real>, d: seq<real>, n: nat)
    ensures Lead(g, d, n) == Sum(d, n) - Sum(g, n)
  {
    if n > 0 { LeadOfSums(g, d, n - 1); }
  }

  lemma DominatedPrefixes(log2: nat -> real, g: seq<real>, d: seq<real>, n: nat)
    requires Logarithm(log2)
    requires forall m: nat | m <= n :: Sum(g, m) <= Sum(d, m)
    ensures Dcg(log2, g, n) <= Dcg(log2, d, n)
  {
    if n > 0 {
      forall m: nat | m <= n ensures Lead(g, d, m) >= 0.0 { LeadOfSums(g, d, m); }
      Summation(log2, g, d, n - 1);
      NonNegativeQuotient(Lead(g, d, n), log2(n + 1));
    }
  }

  // ---------- A sorted sequence has the largest prefixes ----------

  lemma {:induction false} SumShift(s: seq<real>, n: nat)
    requires s != []
    ensures Sum(s, n + 1) == s[0] + Sum(s[1..], n)
  {
    if n > 0 {
      SumShift(s, n - 1);
      assert At(s, n) == At(s[1..], n - 1);
    } else {
      assert Sum(s, 0) == 0.0;
    }
  }

  lemma {:induction false} SumPointwise(s: seq<real>, t: seq<real>, n: nat)
    requires forall i: nat | i < n :: At(s, i) <= At(t, i)
    ensures Sum(s, n) <= Sum(t, n)
  {
    if n > 0 {
      SumPointwise(s, t, n - 1);
    }
  }

  lemma {:induction false} SumGrows(s: seq<real>, m: nat, n: nat)
    requires NonNegative(s) && m <= n
    ensures Sum(s, m) <= Sum(s, n)
  {
    if m < n {
      SumGrows(s, m, n - 1);
    }
  }

  function Without<T>(s: seq<T>, i: nat): (r: seq<T>)
    requires i < |s|
    ensures |r| == |s| - 1
  {
    s[..i] + s[i + 1..]
  }

  lemma WithoutTail<T>(s: seq<T>, i: nat)
    requires 0 < i < |s|
    ensures Without(s, i)[0] == s[0] && Without(s, i)[1..] == Without(s[1..], i - 1)
  {
  }

  lemma WithoutMultiset<T>(s: seq<T>, i: nat)
    requires i < |s|
    ensures multiset(Without(s, i)) == multiset(s) - multiset{s[i]}
  {
    assert s == s[..i] + [s[i]] + s[i + 1..];
  }

  lemma {:induction false} SumRemove(s: seq<real>, i: nat)
    requires i < |s|
    ensures Sum(s, |s|) == s[i] + Sum(Without(s, i), |s| - 1)
  {
    SumShift(s, |s| - 1);
    if i == 0 {
      assert Without(s, 0) == s[1..];
    } else {
      SumRemove(s[1..], i - 1);
      WithoutTail(s, i);
      SumShift(Without(s, i), |s| - 2);
    }
  }

  lemma UnderTail(a: seq<real>, d: seq<real>)
    requires d != [] && multiset(a) <= multiset(d) && d[0] !in a
    ensures multiset(a) <= multiset(d[1..])
  {
    assert d == [d[0]] + d[1..];
    assert d[0] !in multiset(a);
  }

  lemma UnderTailWithout(a: seq<real>, i: nat, d: seq<real>)
    requires d != [] && i < |a| && a[i] == d[0] && multiset(a) <= multiset(d)
    ensures multiset(Without(a, i)) <= multiset(d[1..])
  {
    WithoutMultiset(a, i);
    assert d == [d[0]] + d[1..];
  }

  lemma TailBelow(d: seq<real>, n: nat)
    requires d != [] && Sorted(Descending, d) && NonNegative(d)
    ensures Sum(d[1..], n) <= Sum(d, n)
  {
    forall i: nat | i < n ensures At(d[1..], i) <= At(d, i) {
      if i + 1 < |d| { assert Descending(d[i], d[i + 1]); }
    }
    SumPointwise(d[1..], d, n);
  }

  lemma TopIsThere(a: seq<real>, d: seq<real>)
    requires a != [] && multiset(a) <= multiset(d) && Sorted(Descending, d) && NonNegative(d)
    ensures d != [] && Sorted(Descending, d[1..]) && NonNegative(d[1..])
  {
    assert a[0] in multiset(a);
    assert a[0] in multiset(d);
  }

  /** Any selection of members of a descending sequence sums to at most its first members. */
  lemma {:induction false} SelectionBelowTop(a: seq<real>, d: seq<real>)
    requires Sorted(Descending, d) && NonNegative(d)
    requires multiset(a) <= multiset(d)
    ensures Sum(a, |a|) <= Sum(d, |a|)
    decreases |d|
  {
    if a != [] {
      TopIsThere(a, d);
      if d[0] in a {
        var i :| 0 <= i < |a| && a[i] == d[0];
        UnderTailWithout(a, i, d);
        SelectionBelowTop(Without(a, i), d[1..]);
        SumRemove(a, i);
        SumShift(d, |a| - 1);
      } else {
        UnderTail(a, d);
        SelectionBelowTop(a, d[1..]);
        TailBelow(d, |a|);
      }
    }
  }

  /** The positive members, in order. */
  function Positive(s: seq<real>): (r: seq<real>)
    ensures |r| <= |s|
  {
    if s == [] then [] else
      if s[0] > 0.0 then [s[0]] + Positive(s[1..]) else Positive(s[1..])
  }

  lemma {:induction false} PositiveSum(s: seq<real>)
    requires NonNegative(s)
    ensures Sum(s, |s|) == Sum(Positive(s), |Positive(s)|)
  {
    if s != [] {
      PositiveSum(s[1..]);
      SumShift(s, |s| - 1);
      if s[0] > 0.0 {
        SumShift(Positive(s), |Positive(s)| - 1);
        assert Positive(s)[1..] == Positive(s[1..]);
      }
    }
  }

  lemma {:induction false} PositiveCount(s: seq<real>, x: real)
    ensures multiset(Positive(s))[x] == if x > 0.0 then multiset(s)[x] else 0
  {
    if s != [] {
      PositiveCount(s[1..], x);
      assert s == [s[0]] + s[1..];
    }
  }

  lemma SumTake(s: seq<real>, m: nat)
    requires m <= |s|
    ensures Sum(s[..m], m) == Sum(s, m)
  {
    SumPointwise(s[..m], s, m);
    SumPointwise(s, s[..m], m);
  }

  lemma {:induction false} SumPastEnd(s: seq<real>, m: nat)
    requires |s| <= m
    ensures Sum(s, m) == Sum(s, |s|)
  {
    if |s| < m {
      SumPastEnd(s, m - 1);
    }
  }

  /** The gains of a ranking whose positive members are a selection of the ideal ones. */
  ghost predicate Selects(g: seq<real>, d: seq<real>) {
    NonNegative(g) && NonNegative(d) && forall x | x > 0.0 :: multiset(g)[x] <= multiset(d)[x]
  }

  lemma PrefixCount(g: seq<real>, n: nat, x: real)
    requires n <= |g|
    ensures multiset(g[..n])[x] <= multiset(g)[x]
  {
    assert g == g[..n] + g[n..];
  }

  lemma PositivePrefixSelects(g: seq<real>, d: seq<real>, n: nat)
    requires Selects(g, d) && n <= |g|
    ensures multiset(Positive(g[..n])) <= multiset(d)
  {
    forall x ensures multiset(Positive(g[..n]))[x] <= multiset(d)[x] {
      PositiveCount(g[..n], x);
      PrefixCount(g, n, x);
    }
  }

  lemma PrefixBelowTop(g: seq<real>, d: seq<real>, m: nat)
    requires Sorted(Descending, d) && Selects(g, d)
    ensures Sum(g, m) <= Sum(d, m)
  {
    var n := if m < |g| then m else |g|;
    if m > |g| { SumPastEnd(g, m); }
    SumTake(g, n);
    var head := g[..n];
    PositiveSum(head);
    PositivePrefixSelects(g, d, n);
    SelectionBelowTop(Positive(head), d);
    SumGrows(d, |Positive(head)|, m);
  }

  /** Rearrangement: no ranking that selects from the judged gains beats the gains in descending order. */
  lemma DcgBelowIdeal(log2: nat -> real, g: seq<real>, d: seq<real>, k: nat)
    requires Logarithm(log2) && Sorted(Descending, d) && Selects(g, d)
    ensures 0.0 <= Dcg(log2, g, k) <= Dcg(log2, d, k)
  {
    forall m: nat | m <= k ensures Sum(g, m) <= Sum(d, m) { PrefixBelowTop(g, d, m); }
    DominatedPrefixes(log2, g, d, k);
    DcgSign(log2, g, k);
  }

  /** A positive lead is worth strictly less at the next position. */
  lemma StrictQuotient(x: real, y: real, lead: real)
    requires 0.0 < x < y && lead >= 0.0 && lead / y >= lead / x
    ensures lead == 0.0
  {
    if lead > 0.0 {
      assert lead / x * x == lead && lead / y * y == lead;
      Scale(lead / y, lead / x, x);
      StrictScale(lead / y, x, y);
    }
  }

  lemma StrictScale(w: real, x: real, y: real)
    requires w > 0.0 && x < y
    ensures w * x < w * y
  {
  }

  lemma Share(lead: real, a: real, b: real, y: real)
    requires y > 0.0
    ensures (lead + (a - b)) / y == lead / y + a / y - b / y
  {
    Distribute(1.0 / y, lead, a, b);
    assert lead / y == 1.0 / y * lead && (lead + (a - b)) / y == 1.0 / y * (lead + (a - b));
    assert a / y == 1.0 / y * a && b / y == 1.0 / y * b;
  }

  /** If what `d` is ahead in discounted sums is no more than its undiscounted lead at the last discount,
      it has not been ahead before. */
  lemma {:induction false} NeverAhead(log2: nat -> real, g: seq<real>, d: seq<real>, n: nat, m: nat)
    requires StrictLogarithm(log2) && m <= n
    requires forall i: nat | i <= n + 1 :: Lead(g, d, i) >= 0.0
    requires Dcg(log2, d, n + 1) - Dcg(log2, g, n + 1) == Lead(g, d, n + 1) / log2(n + 2)
    ensures Lead(g, d, m) == 0.0
  {
    if n > 0 {
      Summation(log2, g, d, n - 1);
      Share(Lead(g, d, n), At(d, n), At(g, n), log2(n + 2));
      assert log2(n + 1) < log2(n + 2);
      StrictQuotient(log2(n + 1), log2(n + 2), Lead(g, d, n));
      if m < n { NeverAhead(log2, g, d, n - 1, m); }
    }
  }

  lemma {:induction false} DcgPointwise(log2: nat -> real, g: seq<real>, d: seq<real>, k: nat)
    requires Logarithm(log2) && forall i: nat | i < k :: At(g, i) == At(d, i)
    ensures Dcg(log2, g, k) == Dcg(log2, d, k)
  {
    if k > 0 { DcgPointwise(log2, g, d, k - 1); }
  }

  lemma NoQuotient(x: real, y: real)
    requires x >= 0.0 && y > 0.0 && x / y <= 0.0
    ensures x == 0.0
  {
    assert x / y * y == x;
  }

  lemma EqualSumsEqualLeads(log2: nat -> real, g: seq<real>, d: seq<real>, k: nat, m: nat)
    requires StrictLogarithm(log2) && m <= k
    requires forall i: nat | i <= k :: Lead(g, d, i) >= 0.0
    requires Dcg(log2, g, k) == Dcg(log2, d, k)
    ensures Lead(g, d, m) == 0.0
  {
    if k > 0 {
      Summation(log2, g, d, k - 1);
      NoQuotient(Lead(g, d, k), log2(k + 1));
      if m < k { NeverAhead(log2, g, d, k - 1, m); }
    }
  }

  /** Rearrangement, strictly: only the gains in descending order themselves reach the ideal. */
  lemma DcgMeetsIdeal(log2: nat -> real, g: seq<real>, d: seq<real>, k: nat)
    requires StrictLogarithm(log2) && Sorted(Descending, d) && Selects(g, d)
    ensures Dcg(log2, g, k) == Dcg(log2, d, k) <==> forall i: nat | i < k :: At(g, i) == At(d, i)
  {
    if Dcg(log2, g, k) == Dcg(log2, d, k) {
      forall m: nat | m <= k ensures Lead(g, d, m) >= 0.0 {
        PrefixBelowTop(g, d, m);
        LeadOfSums(g, d, m);
      }
      forall i: nat | i < k ensures At(g, i) == At(d, i) {
        EqualSumsEqualLeads(log2, g, d, k, i);
        EqualSumsEqualLeads(log2, g, d, k, i + 1);
      }
    } else if forall i: nat | i < k :: At(g, i) == At(d, i) {
      DcgPointwise(log2, g, d, k);
    }
  }

  /** A sum of non-negative gains is non-negative, and zero only if all of them are. */
  lemma {:induction false} DcgSign(log2: nat -> real, g: seq<real>, k: nat)
    requires Logarithm(log2) && NonNegative(g)
    ensures Dcg(log2, g, k) >= 0.0
    ensures Dcg(log2, g, k) == 0.0 <==> forall i: nat | i < k :: At(g, i) == 0.0
  {
    if k > 0 {
      DcgSign(log2, g, k - 1);
      assert At(g, k - 1) >= 0.0;
      assert At(g, k - 1) > 0.0 ==> At(g, k - 1) / log2(k + 1) > 0.0;
    }
  }
}
