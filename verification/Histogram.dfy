/** Latency histograms: fourteen buckets, and a percentile interpolated inside the bucket it falls in, compared
    with the true order statistic of the observations. */
module Histogram {
  import opened Arith

  const INT_MAX: nat := 0x7fff_ffff

  const LIMITS: seq<nat> := [1, 2, 5, 10, 20, 50, 100, 200, 500, 1000, 2000, 5000, 10000]
  const NUM_BUCKETS: nat := 14

  /** The theory holds for any increasing list of limits. */
  predicate Increasing(L: seq<nat>) {
    forall i, j :: 0 <= i < j < |L| ==> L[i] < L[j]
  }

  lemma LimitsIncrease()
    ensures Increasing(LIMITS) && |LIMITS| == NUM_BUCKETS - 1
  {
  }

  function Lower(L: seq<nat>, i: nat): nat
    requires i <= |L|
  {
    if i == 0 then 0 else L[i - 1]
  }

  /** Every cost has one bucket: the first whose limit it does not exceed, or the last. */
  function BucketOf(L: seq<nat>, c: nat): (i: nat)
    ensures i <= |L|
    ensures i > 0 ==> c > L[i - 1]
    ensures i < |L| ==> c <= L[i]
  {
    FirstFit(L, c, 0)
  }

  function FirstFit(L: seq<nat>, c: nat, i: nat): (j: nat)
    requires i <= |L| && (i > 0 ==> c > L[i - 1])
    ensures i <= j <= |L|
    ensures j > 0 ==> c > L[j - 1]
    ensures j < |L| ==> c <= L[j]
    decreases |L| - i
  {
    if i < |L| && c > L[i] then FirstFit(L, c, i + 1) else i
  }

  lemma BucketMonotone(L: seq<nat>, c: nat, d: nat)
    requires Increasing(L) && c <= d
    ensures BucketOf(L, c) <= BucketOf(L, d)
  {
    LimitsOrdered(L, BucketOf(L, d), BucketOf(L, c) - 1);
  }

  lemma LimitsOrdered(L: seq<nat>, i: int, j: int)
    requires Increasing(L)
    ensures 0 <= i <= j < |L| ==> L[i] <= L[j]
  {
  }

  // ---- what is counted --------------------------------------------------------------------------

  /** How many observations fall below bucket `i`. */
  function Below(L: seq<nat>, obs: seq<nat>, i: nat): nat {
    if obs == [] then 0 else (if BucketOf(L, obs[0]) < i then 1 else 0) + Below(L, obs[1..], i)
  }

  function InBucket(L: seq<nat>, obs: seq<nat>, i: nat): nat {
    if obs == [] then 0 else (if BucketOf(L, obs[0]) == i then 1 else 0) + InBucket(L, obs[1..], i)
  }

  /** The buckets after these observations. */
  ghost predicate Counts(L: seq<nat>, b: seq<nat>, obs: seq<nat>) {
    |b| == |L| + 1 && forall i :: 0 <= i <= |L| ==> b[i] == InBucket(L, obs, i)
  }

  function Sum(b: seq<nat>): nat {
    if b == [] then 0 else Sum(b[..|b| - 1]) + b[|b| - 1]
  }

  lemma SumNext(b: seq<nat>, i: nat)
    requires i < |b|
    ensures Sum(b[..i + 1]) == Sum(b[..i]) + b[i]
  {
    assert b[..i + 1][..i] == b[..i];
  }

  lemma {:induction false} BelowNext(L: seq<nat>, obs: seq<nat>, i: nat)
    ensures Below(L, obs, i + 1) == Below(L, obs, i) + InBucket(L, obs, i)
  {
    if obs != [] {
      BelowNext(L, obs[1..], i);
    }
  }

  lemma {:induction false} BelowNone(L: seq<nat>, obs: seq<nat>)
    ensures Below(L, obs, 0) == 0
  {
    if obs != [] {
      BelowNone(L, obs[1..]);
    }
  }

  lemma {:induction false} BelowAll(L: seq<nat>, obs: seq<nat>)
    ensures Below(L, obs, |L| + 1) == |obs|
  {
    if obs != [] {
      BelowAll(L, obs[1..]);
    }
  }

  /** The running total of the buckets counts the observations below. */
  lemma {:induction false} SumIsBelow(L: seq<nat>, b: seq<nat>, obs: seq<nat>, i: nat)
    requires Counts(L, b, obs) && i <= |L| + 1
    ensures Sum(b[..i]) == Below(L, obs, i)
  {
    if i == 0 {
      BelowNone(L, obs);
    } else {
      SumIsBelow(L, b, obs, i - 1);
      SumNext(b, i - 1);
      BelowNext(L, obs, i - 1);
    }
  }

  // ---- the order statistic ----------------------------------------------------------------------

  predicate Ascending(s: seq<nat>) {
    forall i, j :: 0 <= i < j < |s| ==> s[i] <= s[j]
  }

  function Insert(s: seq<nat>, x: nat): (r: seq<nat>)
    ensures |r| == |s| + 1
  {
    if s == [] || x <= s[0] then [x] + s else [s[0]] + Insert(s[1..], x)
  }

  lemma {:induction false} InsertPermutes(s: seq<nat>, x: nat)
    ensures multiset(Insert(s, x)) == multiset(s) + multiset{x}
  {
    if s != [] && x > s[0] {
      InsertPermutes(s[1..], x);
      assert s == [s[0]] + s[1..];
    }
  }

  lemma {:induction false} InsertAbove(s: seq<nat>, x: nat, low: nat)
    requires low <= x && forall j :: 0 <= j < |s| ==> low <= s[j]
    ensures forall j :: 0 <= j < |Insert(s, x)| ==> low <= Insert(s, x)[j]
  {
    if s != [] && x > s[0] {
      InsertAbove(s[1..], x, low);
    }
  }

  lemma {:induction false} InsertAscending(s: seq<nat>, x: nat)
    requires Ascending(s)
    ensures Ascending(Insert(s, x))
  {
    if s != [] && x > s[0] {
      InsertAscending(s[1..], x);
      InsertAbove(s[1..], x, s[0]);
    }
  }

  /** The observations in order; `Sorted(obs)[k]` is their `k`-th order statistic. */
  function Sorted(obs: seq<nat>): (r: seq<nat>)
    ensures |r| == |obs|
  {
    if obs == [] then [] else Insert(Sorted(obs[1..]), obs[0])
  }

  lemma {:induction false} SortedPermutes(obs: seq<nat>)
    ensures multiset(Sorted(obs)) == multiset(obs)
  {
    if obs != [] {
      SortedPermutes(obs[1..]);
      InsertPermutes(Sorted(obs[1..]), obs[0]);
      assert obs == [obs[0]] + obs[1..];
    }
  }

  lemma {:induction false} SortedAscending(obs: seq<nat>)
    ensures Ascending(Sorted(obs))
  {
    if obs != [] {
      SortedAscending(obs[1..]);
      InsertAscending(Sorted(obs[1..]), obs[0]);
    }
  }

  lemma {:induction false} BelowInsert(L: seq<nat>, s: seq<nat>, x: nat, i: nat)
    ensures Below(L, Insert(s, x), i) == Below(L, s, i) + if BucketOf(L, x) < i then 1 else 0
  {
    if s == [] || x <= s[0] {
      assert ([x] + s)[1..] == s;
    } else {
      BelowInsert(L, s[1..], x, i);
      assert ([s[0]] + Insert(s[1..], x))[1..] == Insert(s[1..], x);
    }
  }

  lemma {:induction false} BelowSorted(L: seq<nat>, obs: seq<nat>, i: nat)
    ensures Below(L, Sorted(obs), i) == Below(L, obs, i)
  {
    if obs != [] {
      BelowSorted(L, obs[1..], i);
      BelowInsert(L, Sorted(obs[1..]), obs[0], i);
    }
  }

  /** In ascending order the observations below bucket `i` come first. */
  lemma {:induction false} RankBelow(L: seq<nat>, s: seq<nat>, i: nat, k: nat)
    requires Increasing(L) && Ascending(s) && k < |s|
    ensures k < Below(L, s, i) <==> BucketOf(L, s[k]) < i
  {
    if k > 0 {
      assert s[k] == s[1..][k - 1];
      RankBelow(L, s[1..], i, k - 1);
      BucketMonotone(L, s[0], s[k]);
      if BucketOf(L, s[0]) >= i {
        NoneBelow(L, s, i);
      }
    } else if BucketOf(L, s[0]) >= i {
      NoneBelow(L, s, i);
    }
  }

  lemma {:induction false} NoneBelow(L: seq<nat>, s: seq<nat>, i: nat)
    requires Increasing(L) && Ascending(s) && s != [] && BucketOf(L, s[0]) >= i
    ensures Below(L, s, i) == 0
  {
    if |s| > 1 {
      BucketMonotone(L, s[0], s[1]);
      NoneBelow(L, s[1..], i);
    }
  }

  // ---- the estimate -----------------------------------------------------------------------------

  /** The first bucket at which the running total exceeds the target. */
  function Crossing(b: seq<nat>, target: int, i: nat): (j: nat)
    requires i <= |b|
    ensures i <= j <= |b|
    decreases |b| - i
  {
    if i == |b| || Sum(b[..i + 1]) > target then i else Crossing(b, target, i + 1)
  }

  function Upper(L: seq<nat>, i: nat, maxCost: nat): nat
    requires i <= |L|
  {
    if i == |L| then maxCost else Min(maxCost, L[i])
  }

  /** How often `d` goes into `n`. */
  function Times(n: nat, d: nat): nat
    requires d > 0
  {
    if n < d then 0 else 1 + Times(n - d, d)
  }

  /** Integer division towards zero. */
  function Quotient(n: int, d: nat): int
    requires d > 0
  {
    if n >= 0 then Times(n, d) as int else -(Times(-n, d) as int)
  }

  lemma {:induction false} TimesIsDivision(n: nat, d: nat)
    requires d > 0
    ensures Times(n, d) == n / d
  {
    if n >= d {
      TimesIsDivision(n - d, d);
      DivUnique(d, d, 1, 0);
      DivMonotone(d, n, d);
      DivUnique(n - d, d, n / d - 1, n % d);
    } else {
      DivUnique(n, d, 0, n);
    }
  }

  /** The part of a bucket's width that belongs to `n` of its `d` observations. */
  function Share(n: int, width: int, d: nat): int
    requires d > 0
  {
    Quotient(n * width, d)
  }

  function Estimate(L: seq<nat>, b: seq<nat>, maxCost: nat, target: int): int
    requires |b| == |L| + 1
  {
    var i := Crossing(b, target, 0);
    if i == |L| + 1 then maxCost
    else if b[i] == 0 then Lower(L, i)
    else Lower(L, i) + Share(target - Sum(b[..i]), Upper(L, i, maxCost) - Lower(L, i), b[i])
  }

  lemma {:induction false} CrossingFound(b: seq<nat>, target: nat, i: nat)
    requires i <= |b| && Sum(b[..i]) <= target < Sum(b)
    ensures var j := Crossing(b, target, i); j < |b| && Sum(b[..j]) <= target < Sum(b[..j + 1])
    decreases |b| - i
  {
    assert b[..|b|] == b;
    if i < |b| && Sum(b[..i + 1]) <= target {
      CrossingFound(b, target, i + 1);
    }
  }

  /** The largest observation. */
  function MaxOf(obs: seq<nat>): nat {
    if obs == [] then 0
    else
      var m := MaxOf(obs[..|obs| - 1]);
      if obs[|obs| - 1] > m then obs[|obs| - 1] else m
  }

  lemma {:induction false} MaxOfBounds(obs: seq<nat>, x: nat)
    requires x in obs
    ensures x <= MaxOf(obs) && MaxOf(obs) in obs
  {
    var before, last := obs[..|obs| - 1], obs[|obs| - 1];
    assert obs == before + [last];
    if x in before {
      MaxOfBounds(before, x);
    } else if before != [] {
      MaxOfBounds(before, before[0]);
    }
  }

  lemma CrossingCounts(L: seq<nat>, b: seq<nat>, obs: seq<nat>, target: nat)
    requires Counts(L, b, obs) && target < |obs|
    ensures var i := Crossing(b, target, 0);
            && i <= |L| && b[i] > 0
            && Sum(b[..i]) <= target < Sum(b[..i]) + b[i]
            && Below(L, obs, i) <= target < Below(L, obs, i + 1)
  {
    BelowAll(L, obs);
    SumIsBelow(L, b, obs, |L| + 1);
    assert b[..|L| + 1] == b;
    CrossingFound(b, target, 0);
    var i := Crossing(b, target, 0);
    SumNext(b, i);
    SumIsBelow(L, b, obs, i);
    SumIsBelow(L, b, obs, i + 1);
  }

  lemma RankInBucket(L: seq<nat>, obs: seq<nat>, target: nat, i: nat)
    requires Increasing(L) && target < |obs| && Below(L, obs, i) <= target < Below(L, obs, i + 1)
    ensures BucketOf(L, Sorted(obs)[target]) == i
  {
    var s := Sorted(obs);
    BelowSorted(L, obs, i);
    BelowSorted(L, obs, i + 1);
    SortedAscending(obs);
    RankBelow(L, s, i, target);
    RankBelow(L, s, i + 1, target);
  }

  /** The facts a target rank and its bucket satisfy: neither fallback is taken, and the order statistic is in
      the bucket the estimate is interpolated in. */
  lemma CrossingIsRank(L: seq<nat>, b: seq<nat>, obs: seq<nat>, target: nat)
    requires Increasing(L) && Counts(L, b, obs) && target < |obs|
    ensures var i := Crossing(b, target, 0);
            && i <= |L| && b[i] > 0
            && Sum(b[..i]) <= target < Sum(b[..i]) + b[i]
            && BucketOf(L, Sorted(obs)[target]) == i
  {
    CrossingCounts(L, b, obs, target);
    RankInBucket(L, obs, target, Crossing(b, target, 0));
  }

  lemma QuotientBelow(x: nat, d: nat, w: nat, dw: nat)
    requires d > 0 && dw == d * w && x <= dw
    ensures 0 <= Quotient(x, d) <= w
  {
    TimesIsDivision(x, d);
    DivBelow(x, d, w);
  }

  lemma QuotientGrows(x: nat, y: nat, d: nat)
    requires x <= y && d > 0
    ensures Quotient(x, d) <= Quotient(y, d)
  {
    TimesIsDivision(x, d);
    TimesIsDivision(y, d);
    DivMonotone(x, y, d);
  }

  /** Interpolation stays between its ends and follows the rank. */
  lemma Interpolates(n: nat, width: nat, d: nat)
    requires n < d
    ensures 0 <= Share(n, width, d) <= width
  {
    Fraction(n, width, d);
    var x: nat, dw: nat := n * width, d * width;
    QuotientBelow(x, d, width, dw);
  }

  lemma ShareMonotone(n: nat, m: nat, width: nat, d: nat)
    requires n <= m && d > 0
    ensures Share(n, width, d) <= Share(m, width, d)
  {
    MulMonotone(n, m, width);
    var x: nat, y: nat := n * width, m * width;
    QuotientGrows(x, y, d);
  }

  lemma OrderStatisticBounds(obs: seq<nat>, target: nat)
    requires target < |obs|
    ensures Sorted(obs)[target] <= MaxOf(obs)
  {
    var v := Sorted(obs)[target];
    SortedPermutes(obs);
    assert v in multiset(Sorted(obs));
    assert v in multiset(obs);
    MaxOfBounds(obs, v);
  }

  /** Where the estimate lies, given the bucket it is interpolated in. */
  lemma EstimateBetween(L: seq<nat>, b: seq<nat>, maxCost: nat, target: nat)
    requires |b| == |L| + 1
    requires var i := Crossing(b, target, 0);
             i <= |L| && b[i] > 0 && Sum(b[..i]) <= target < Sum(b[..i]) + b[i] && Lower(L, i) <= Upper(L, i, maxCost)
    ensures var i := Crossing(b, target, 0);
            Lower(L, i) <= Estimate(L, b, maxCost, target) <= Upper(L, i, maxCost)
  {
    var i := Crossing(b, target, 0);
    var n: nat, width: nat := target - Sum(b[..i]), Upper(L, i, maxCost) - Lower(L, i);
    Interpolates(n, width, b[i]);
    assert Estimate(L, b, maxCost, target) == Lower(L, i) + Share(n, width, b[i]);
  }

  /** Where the order statistic lies. */
  lemma StatisticBetween(L: seq<nat>, obs: seq<nat>, v: nat)
    requires v <= MaxOf(obs)
    ensures Lower(L, BucketOf(L, v)) <= v <= Upper(L, BucketOf(L, v), MaxOf(obs))
  {
  }

  /** Accuracy: for every non-empty list of observations and every rank, the estimate and the true order statistic
      lie between the same bounds, so that they differ by at most the width of the bucket, and the estimate
      never exceeds the largest observation. */
  lemma EstimateAccurate(L: seq<nat>, b: seq<nat>, obs: seq<nat>, target: nat)
    requires Increasing(L) && Counts(L, b, obs) && target < |obs|
    ensures var i, e, v := Crossing(b, target, 0), Estimate(L, b, MaxOf(obs), target), Sorted(obs)[target];
            && i <= |L| && i == BucketOf(L, v)
            && Lower(L, i) <= e <= Upper(L, i, MaxOf(obs)) && Lower(L, i) <= v <= Upper(L, i, MaxOf(obs))
            && -(Upper(L, i, MaxOf(obs)) - Lower(L, i)) <= e - v <= Upper(L, i, MaxOf(obs)) - Lower(L, i)
            && e <= MaxOf(obs)
  {
    CrossingIsRank(L, b, obs, target);
    OrderStatisticBounds(obs, target);
    StatisticBetween(L, obs, Sorted(obs)[target]);
    EstimateBetween(L, b, MaxOf(obs), target);
  }

  lemma {:induction false} CrossingMonotone(b: seq<nat>, t1: int, t2: int, i: nat)
    requires t1 <= t2 && i <= |b|
    ensures Crossing(b, t1, i) <= Crossing(b, t2, i)
    decreases |b| - i
  {
    if i < |b| && Sum(b[..i + 1]) <= t1 {
      CrossingMonotone(b, t1, t2, i + 1);
    }
  }

  /** Buckets do not overlap. */
  lemma UpperBelowLower(L: seq<nat>, i: nat, j: nat, maxCost: nat)
    requires Increasing(L) && i < j <= |L|
    ensures Upper(L, i, maxCost) <= Lower(L, j)
  {
    LimitsOrdered(L, i, j - 1);
  }

  lemma EstimateGrows(L: seq<nat>, b: seq<nat>, maxCost: nat, t1: nat, t2: nat)
    requires |b| == |L| + 1 && t1 <= t2 && Crossing(b, t1, 0) == Crossing(b, t2, 0)
    requires var i := Crossing(b, t1, 0);
             i <= |L| && b[i] > 0 && Sum(b[..i]) <= t1 && Lower(L, i) <= Upper(L, i, maxCost)
    ensures Estimate(L, b, maxCost, t1) <= Estimate(L, b, maxCost, t2)
  {
    var i := Crossing(b, t1, 0);
    var n: nat, m: nat, width: nat := t1 - Sum(b[..i]), t2 - Sum(b[..i]), Upper(L, i, maxCost) - Lower(L, i);
    ShareMonotone(n, m, width, b[i]);
    assert Estimate(L, b, maxCost, t1) == Lower(L, i) + Share(n, width, b[i]);
    assert Estimate(L, b, maxCost, t2) == Lower(L, i) + Share(m, width, b[i]);
  }

  lemma SameBucketMonotone(L: seq<nat>, b: seq<nat>, obs: seq<nat>, t1: nat, t2: nat)
    requires Increasing(L) && Counts(L, b, obs) && t1 <= t2 < |obs| && Crossing(b, t1, 0) == Crossing(b, t2, 0)
    ensures Estimate(L, b, MaxOf(obs), t1) <= Estimate(L, b, MaxOf(obs), t2)
  {
    CrossingIsRank(L, b, obs, t1);
    OrderStatisticBounds(obs, t1);
    StatisticBetween(L, obs, Sorted(obs)[t1]);
    EstimateGrows(L, b, MaxOf(obs), t1, t2);
  }

  /** A higher rank never gets a lower estimate. */
  lemma EstimateMonotone(L: seq<nat>, b: seq<nat>, obs: seq<nat>, t1: nat, t2: nat)
    requires Increasing(L) && Counts(L, b, obs) && t1 <= t2 < |obs|
    ensures Estimate(L, b, MaxOf(obs), t1) <= Estimate(L, b, MaxOf(obs), t2)
  {
    CrossingMonotone(b, t1, t2, 0);
    var i, j := Crossing(b, t1, 0), Crossing(b, t2, 0);
    if i == j {
      SameBucketMonotone(L, b, obs, t1, t2);
    } else {
      EstimateAccurate(L, b, obs, t1);
      EstimateAccurate(L, b, obs, t2);
      UpperBelowLower(L, i, j, MaxOf(obs));
    }
  }

  /** The product of `needed` and the width, formed on the way, fits a 32-bit integer as long as the number of
      observations times the largest one does. */
  lemma ProductInRange(L: seq<nat>, b: seq<nat>, obs: seq<nat>, target: nat) returns (needed: nat, width: nat)
    requires Increasing(L) && Counts(L, b, obs) && target < |obs| && |obs| * MaxOf(obs) <= INT_MAX
    ensures var i := Crossing(b, target, 0);
            i <= |L| && needed == target - Sum(b[..i]) && width == Upper(L, i, MaxOf(obs)) - Lower(L, i)
    ensures needed * width <= INT_MAX
  {
    InterpolationRange(L, b, obs, target);
    var i := Crossing(b, target, 0);
    needed, width := target - Sum(b[..i]), Upper(L, i, MaxOf(obs)) - Lower(L, i);
    ProductBound(needed, width, |obs|, MaxOf(obs));
  }

  lemma InterpolationRange(L: seq<nat>, b: seq<nat>, obs: seq<nat>, target: nat)
    requires Increasing(L) && Counts(L, b, obs) && target < |obs|
    ensures var i := Crossing(b, target, 0);
            && i <= |L| && 0 <= target - Sum(b[..i]) <= |obs|
            && Lower(L, i) <= Upper(L, i, MaxOf(obs))
  {
    CrossingIsRank(L, b, obs, target);
    OrderStatisticBounds(obs, target);
    StatisticBetween(L, obs, Sorted(obs)[target]);
  }

  lemma ProductBound(n: nat, w: nat, c: nat, m: nat)
    requires n <= c && w <= m
    ensures 0 <= n * w <= c * m
  {
    MulMonotone(n, c, w);
    MulMonotone(w, m, c);
    assert w * c == c * w && m * c == c * m;
  }

  // ---- the class --------------------------------------------------------------------------------

  lemma {:induction false} InBucketSnoc(L: seq<nat>, obs: seq<nat>, c: nat, i: nat)
    ensures InBucket(L, obs + [c], i) == InBucket(L, obs, i) + if BucketOf(L, c) == i then 1 else 0
  {
    if obs == [] {
      assert obs + [c] == [c] && [c][1..] == [];
    } else {
      assert (obs + [c])[1..] == obs[1..] + [c];
      InBucketSnoc(L, obs[1..], c, i);
    }
  }

  function MinOf(obs: seq<nat>): nat {
    if obs == [] then INT_MAX
    else
      var m := MinOf(obs[..|obs| - 1]);
      if obs[|obs| - 1] < m then obs[|obs| - 1] else m
  }

  lemma CountsSnoc(L: seq<nat>, b: seq<nat>, obs: seq<nat>, c: nat)
    requires Counts(L, b, obs)
    ensures Counts(L, b[BucketOf(L, c) := b[BucketOf(L, c)] + 1], obs + [c])
  {
    forall i | 0 <= i <= |L|
      ensures InBucket(L, obs + [c], i) == InBucket(L, obs, i) + if BucketOf(L, c) == i then 1 else 0
    {
      InBucketSnoc(L, obs, c, i);
    }
  }

  lemma StatsSnoc(obs: seq<nat>, c: nat)
    ensures Sum(obs + [c]) == Sum(obs) + c
    ensures MaxOf(obs + [c]) == if c > MaxOf(obs) then c else MaxOf(obs)
    ensures MinOf(obs + [c]) == if c < MinOf(obs) then c else MinOf(obs)
  {
    assert (obs + [c])[..|obs|] == obs;
  }

  /** The five statistics a histogram keeps. */
  datatype Stats = Stats(buckets: seq<nat>, count: nat, sum: nat, maxCost: nat, minCost: nat)

  ghost predicate Describes(L: seq<nat>, st: Stats, obs: seq<nat>) {
    && Counts(L, st.buckets, obs)
    && st.count == |obs| && st.sum == Sum(obs) && st.maxCost == MaxOf(obs) && st.minCost == MinOf(obs)
  }

  /** One observation more. */
  function Observed(L: seq<nat>, st: Stats, c: nat): Stats
    requires |st.buckets| == |L| + 1
  {
    Stats(st.buckets[BucketOf(L, c) := st.buckets[BucketOf(L, c)] + 1], st.count + 1, st.sum + c,
          if c > st.maxCost then c else st.maxCost, if c < st.minCost then c else st.minCost)
  }

  lemma ObservedDescribes(L: seq<nat>, st: Stats, obs: seq<nat>, c: nat)
    requires Describes(L, st, obs)
    ensures Describes(L, Observed(L, st, c), obs + [c])
  {
    CountsSnoc(L, st.buckets, obs, c);
    StatsSnoc(obs, c);
  }

  class Histogram {
    const limits: seq<nat>
    const buckets: array<nat>
    var count: nat
    var sum: nat
    var maxCost: nat
    var minCost: nat
    ghost var obs: seq<nat>     // what has been observed since the last snapshot

    ghost function Now(): Stats
      reads this, buckets
    {
      Stats(buckets[..], count, sum, maxCost, minCost)
    }

    ghost predicate Valid()
      reads this, buckets
    {
      Increasing(limits) && Describes(limits, Now(), obs)
    }

    constructor ()
      ensures Valid() && obs == [] && fresh(buckets) && limits == LIMITS
    {
      LimitsIncrease();
      limits := LIMITS;
      buckets := new nat[NUM_BUCKETS](_ => 0);
      count, sum, maxCost, minCost := 0, 0, 0, INT_MAX;
      obs := [];
    }

    method FindBucket(c: nat) returns (idx: nat)
      ensures idx == BucketOf(limits, c)
    {
      idx := 0;
      while idx < |limits| && c > limits[idx]
        invariant idx <= |limits| && (idx > 0 ==> c > limits[idx - 1])
        invariant FirstFit(limits, c, idx) == BucketOf(limits, c)
      {
        idx := idx + 1;
      }
    }

    method Record(c: nat)
      requires buckets.Length == |limits| + 1
      modifies this`count, this`sum, this`maxCost, this`minCost, buckets
      ensures Now() == Observed(limits, old(Now()), c)
    {
      var idx := FindBucket(c);
      buckets[idx] := buckets[idx] + 1;
      count := count + 1;
      sum := sum + c;
      if c > maxCost {
        maxCost := c;
      }
      if c < minCost {
        minCost := c;
      }
    }

    /** A negative cost is ignored. */
    method Observe(costMs: int)
      requires Valid()
      modifies this, buckets
      ensures Valid() && obs == old(obs) + if costMs < 0 then [] else [costMs]
    {
      if costMs < 0 {
        return;
      }
      ObservedDescribes(limits, Now(), obs, costMs);
      Record(costMs);
      obs := obs + [costMs];
    }

    /** Hands the counts out and starts afresh. */
    method Snapshot() returns (b: seq<nat>, total: nat, totalCost: nat, largest: nat, smallest: nat)
      requires Valid()
      modifies this, buckets
      ensures Valid() && obs == []
      ensures Counts(limits, b, old(obs)) && total == |old(obs)|
      ensures totalCost == Sum(old(obs)) && largest == MaxOf(old(obs)) && smallest == MinOf(old(obs))
    {
      b := buckets[..];
      forall i | 0 <= i < buckets.Length {
        buckets[i] := 0;
      }
      total, totalCost, largest, smallest := count, sum, maxCost, minCost;
      count, sum, maxCost, minCost := 0, 0, 0, INT_MAX;
      obs := [];
    }
  }

  /** Conversion to an integer: towards zero. */
  function Truncate(x: real): int {
    if x >= 0.0 then x.Floor else -((-x).Floor)
  }

  /** The rank that goes with a share of the observations: the share rounded down, and the last rank for all of them. */
  predicate IsRank(p: real, total: nat, k: nat) {
    if p < 1.0 then k as real <= total as real * p < k as real + 1.0 else k + 1 == total
  }

  lemma ScaleMonotone(x: real, p: real, q: real)
    requires x > 0.0
    ensures p < q <==> x * p < x * q
  {
    var d := q - p;
    assert x * q == x * p + x * d;
    if d > 0.0 {
      assert x * d > 0.0;
    } else {
      assert x * d <= 0.0;
    }
  }

  function Part(total: nat, p: real): (x: real)
    requires total > 0
    ensures p < 0.0 <==> x < 0.0
    ensures p < 1.0 <==> x < total as real
  {
    ScaleMonotone(total as real, p, 0.0);
    ScaleMonotone(total as real, p, 1.0);
    total as real * p
  }

  function Capped(x: real, total: nat): (t: int)
    requires total > 0
    ensures 0.0 <= x < total as real ==> 0 <= t && t as real <= x < t as real + 1.0
    ensures x >= total as real ==> t == total - 1
    ensures x < 0.0 ==> t <= 0 && t as real - 1.0 < x <= t as real
  {
    var t := Truncate(x);
    if t >= total then total - 1 else t
  }

  lemma CappedMonotone(x: real, y: real, total: nat)
    requires x <= y && total > 0
    ensures Capped(x, total) <= Capped(y, total)
  {
  }

  /** The rank a percentile asks for. */
  function Target(p: real, total: nat): (t: int)
    requires total > 0
    ensures p >= 0.0 ==> t >= 0 && IsRank(p, total, t)
    ensures p < 0.0 ==> t <= 0 && t as real - 1.0 < total as real * p <= t as real
  {
    Capped(Part(total, p), total)
  }

  lemma TargetMonotone(p: real, q: real, total: nat)
    requires total > 0 && p <= q
    ensures Target(p, total) <= Target(q, total)
  {
    ScaleMonotone(total as real, q, p);
    CappedMonotone(Part(total, p), Part(total, q), total);
  }

  /** The rank is below the number of observations, and there is only one. */
  lemma RankUnique(p: real, total: nat, j: nat, k: nat)
    requires total > 0 && IsRank(p, total, j) && IsRank(p, total, k)
    ensures j == k < total
  {
    var x := Part(total, p);
    assert p < 1.0 ==> j as real <= x < j as real + 1.0 && k as real <= x < k as real + 1.0;
  }

  /** What a percentile means, in terms of the observations alone: the order statistic of rank `k` is the `n`-th of the
      `d` in its bucket, and the result is that part of the bucket's width above its lower bound, rounded down. */
  ghost predicate Interpolated(L: seq<nat>, obs: seq<nat>, k: nat, r: int)
    requires k < |obs|
  {
    var i := BucketOf(L, Sorted(obs)[k]);
    var n, d, width := k - Below(L, obs, i), InBucket(L, obs, i), Upper(L, i, MaxOf(obs)) - Lower(L, i);
    && 0 <= n < d
    && Lower(L, i) <= r <= Upper(L, i, MaxOf(obs))
    && r == Lower(L, i) + Share(n, width, d)
  }

  /** A share is the product divided and rounded down. */
  lemma ShareExact(n: nat, width: nat, d: nat)
    requires n < d
    ensures Share(n, width, d) * d <= n * width < (Share(n, width, d) + 1) * d
  {
    Fraction(n, width, d);
    var x: nat := n * width;
    TimesIsDivision(x, d);
    var q := x / d;
    assert x == q * d + x % d;
    assert (q + 1) * d == q * d + d;
  }

  lemma EstimateInterpolates(L: seq<nat>, b: seq<nat>, obs: seq<nat>, k: nat)
    requires Increasing(L) && Counts(L, b, obs) && k < |obs|
    ensures Interpolated(L, obs, k, Estimate(L, b, MaxOf(obs), k))
  {
    EstimateAccurate(L, b, obs, k);
    CrossingIsRank(L, b, obs, k);
    var i := Crossing(b, k, 0);
    SumIsBelow(L, b, obs, i);
    var n: nat, width: nat := k - Sum(b[..i]), Upper(L, i, MaxOf(obs)) - Lower(L, i);
    var r := Estimate(L, b, MaxOf(obs), k);
    EstimateAt(L, b, MaxOf(obs), k, i, n, width, b[i], r);
    InterpolatedAt(L, obs, k, r, i, n, width, b[i]);
  }

  lemma EstimateAt(L: seq<nat>, b: seq<nat>, maxCost: nat, k: nat, i: nat, n: nat, width: nat, d: nat, r: int)
    requires |b| == |L| + 1 && i == Crossing(b, k, 0) && i <= |L| && b[i] == d > 0
    requires n == k - Sum(b[..i]) && width == Upper(L, i, maxCost) - Lower(L, i) && r == Estimate(L, b, maxCost, k)
    ensures r == Lower(L, i) + Share(n, width, d)
  {
  }

  lemma InterpolatedAt(L: seq<nat>, obs: seq<nat>, k: nat, r: int, i: nat, n: nat, width: nat, d: nat)
    requires k < |obs| && i == BucketOf(L, Sorted(obs)[k]) && n < d
    requires n == k - Below(L, obs, i) && d == InBucket(L, obs, i) && width == Upper(L, i, MaxOf(obs)) - Lower(L, i)
    requires r == Lower(L, i) + Share(n, width, d) && Lower(L, i) <= r <= Upper(L, i, MaxOf(obs))
    ensures Interpolated(L, obs, k, r)
  {
  }

  /** For every list of observations and every share of them. */
  lemma PercentileMeans(L: seq<nat>, b: seq<nat>, obs: seq<nat>, p: real, k: nat)
    requires Increasing(L) && Counts(L, b, obs) && obs != [] && p >= 0.0 && IsRank(p, |obs|, k)
    ensures k < |obs| && Interpolated(L, obs, k, Estimate(L, b, MaxOf(obs), Target(p, |obs|)))
  {
    RankUnique(p, |obs|, Target(p, |obs|), k);
    EstimateInterpolates(L, b, obs, k);
  }

  /** A larger share never gets a smaller percentile. */
  lemma PercentileMonotone(L: seq<nat>, b: seq<nat>, obs: seq<nat>, p: real, q: real)
    requires Increasing(L) && Counts(L, b, obs) && obs != [] && 0.0 <= p <= q
    ensures Estimate(L, b, MaxOf(obs), Target(p, |obs|)) <= Estimate(L, b, MaxOf(obs), Target(q, |obs|))
  {
    TargetMonotone(p, q, |obs|);
    RankUnique(q, |obs|, Target(q, |obs|), Target(q, |obs|));
    EstimateMonotone(L, b, obs, Target(p, |obs|), Target(q, |obs|));
  }

  /** `r` is what a percentile should be, of whatever observations these are the statistics. */
  ghost predicate IsPercentile(L: seq<nat>, p: real, total: nat, b: seq<nat>, maxCost: nat, r: int) {
    forall obs, k: nat ::
      Increasing(L) && Counts(L, b, obs) && obs != [] && total == |obs| && maxCost == MaxOf(obs) &&
      p >= 0.0 && IsRank(p, total, k) ==>
        k < |obs| && Interpolated(L, obs, k, r)
  }

  lemma PercentileOf(L: seq<nat>, p: real, total: nat, b: seq<nat>, maxCost: nat)
    requires |b| == |L| + 1 && total > 0
    ensures IsPercentile(L, p, total, b, maxCost, Estimate(L, b, maxCost, Target(p, total)))
  {
    forall obs, k: nat |
      Increasing(L) && Counts(L, b, obs) && obs != [] && total == |obs| && maxCost == MaxOf(obs) &&
      p >= 0.0 && IsRank(p, total, k)
      ensures k < |obs| && Interpolated(L, obs, k, Estimate(L, b, maxCost, Target(p, total)))
    {
      PercentileMeans(L, b, obs, p, k);
    }
  }

  /** With the counts of a snapshot of any observations, the interpolated value at the rank `total * p` rounds down
      to. */
  method Percentile(limits: seq<nat>, p: real, total: nat, buckets: array<nat>, maxCost: nat) returns (r: int)
    requires buckets.Length == |limits| + 1
    ensures total == 0 ==> r == 0
    ensures total > 0 ==> r == Estimate(limits, buckets[..], maxCost, Target(p, total))
    ensures IsPercentile(limits, p, total, buckets[..], maxCost, r)
  {
    if total == 0 {
      return 0;
    }
    PercentileOf(limits, p, total, buckets[..], maxCost);
    var target := Truncate(total as real * p);
    if target >= total {
      target := total - 1;
    }
    ghost var b := buckets[..];
    var acc, i := 0, 0;
    while i < buckets.Length
      invariant i <= buckets.Length && acc == Sum(b[..i])
      invariant Crossing(b, target, i) == Crossing(b, target, 0)
    {
      SumNext(b, i);
      acc := acc + buckets[i];
      if acc > target {
        var lower := Lower(limits, i);
        var upper := Upper(limits, i, maxCost);
        var inBucket := buckets[i];
        if inBucket == 0 {
          return lower;
        }
        var prevAcc := acc - inBucket;
        var needed := target - prevAcc;
        return lower + Share(needed, upper - lower, inBucket);
      }
      i := i + 1;
    }
    return maxCost;
  }
}
