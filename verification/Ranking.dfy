/** Resources and their ranks: the in-place partition by best rank, the smoothed distribution and
    the single-job choices (bulkmm_utils.cpp, match_utils.cpp). */
module Ranking {
  import opened Distribution

  datatype Match = Match(ce: string, rank: real)

  ghost predicate IsTop(m: Match, ms: seq<Match>) {
    forall x <- ms :: x.rank <= m.rank
  }

  /** std::max_element */
  method MaxElement(a: array<Match>) returns (best: nat)
    requires a.Length > 0
    ensures best < a.Length && IsTop(a[best], a[..])
  {
    best := 0;
    for i := 1 to a.Length
      invariant best < a.Length && forall j :: 0 <= j < i ==> a[j].rank <= a[best].rank
    {
      if a[best].rank < a[i].rank {
        best := i;
      }
    }
  }

  method SkipEqual(a: array<Match>, r: real, from: nat, last: nat) returns (first: nat)
    requires from <= last <= a.Length
    ensures from <= first <= last && (first < last ==> a[first].rank != r)
    ensures forall i :: from <= i < first ==> a[i].rank == r
  {
    first := from;
    while first < last && a[first].rank == r
      invariant from <= first <= last
      invariant forall i :: from <= i < first ==> a[i].rank == r
    {
      first := first + 1;
    }
  }

  method SkipOther(a: array<Match>, r: real, first: nat, from: nat) returns (last: nat)
    requires first <= from < a.Length
    ensures first <= last <= from && (first < last ==> a[last].rank == r)
    ensures forall i :: last < i <= from ==> a[i].rank != r
  {
    last := from;
    while first < last && a[last].rank != r
      invariant first <= last <= from
      invariant forall i :: last < i <= from ==> a[i].rank != r
    {
      last := last - 1;
    }
  }

  method Swap(a: array<Match>, i: nat, j: nat)
    requires i < a.Length && j < a.Length
    modifies a
    ensures a[..] == old(a[..])[i := old(a[j])][j := old(a[i])]
    ensures multiset(a[..]) == multiset(old(a[..]))
  {
    a[i], a[j] := a[j], a[i];
  }

  /** std::partition from both ends, in place, by whether the rank is `r`. */
  method Partition(a: array<Match>, r: real) returns (first: nat)
    modifies a
    ensures multiset(a[..]) == multiset(old(a[..]))
    ensures first <= a.Length
    ensures forall i :: 0 <= i < first ==> a[i].rank == r
    ensures forall i :: first <= i < a.Length ==> a[i].rank != r
  {
    first := 0;
    var last := a.Length;
    while true
      invariant first <= last <= a.Length
      invariant multiset(a[..]) == multiset(old(a[..]))
      invariant forall i :: 0 <= i < first ==> a[i].rank == r
      invariant forall i :: last <= i < a.Length ==> a[i].rank != r
      decreases last - first
    {
      first := SkipEqual(a, r, first, last);
      if first == last {
        return;
      }
      last := SkipOther(a, r, first, last - 1);
      if first == last {
        return;
      }
      Swap(a, first, last);
      first := first + 1;
    }
  }

  /** Brings exactly the matches of maximum rank to the front. */
  method MaxPartition(a: array<Match>) returns (end: nat)
    modifies a
    ensures multiset(a[..]) == multiset(old(a[..]))
    ensures end <= a.Length && (a.Length > 0 ==> end > 0)
    ensures forall i :: 0 <= i < a.Length ==> (i < end <==> IsTop(a[i], old(a[..])))
  {
    if a.Length == 0 {
      return 0;
    }
    var best := MaxElement(a);
    ghost var before := a[..];
    ghost var top := a[best];
    end := Partition(a, a[best].rank);
    forall i | 0 <= i < a.Length ensures a[i].rank == top.rank <==> IsTop(a[i], before) {
      assert a[..][i] in multiset(a[..]);
      assert a[..][i] in multiset(before);
    }
    assert top in multiset(before);
    assert top in multiset(a[..]);
    assert top in a[..];
  }

  function RankSum(ms: seq<Match>): real {
    if ms == [] then 0.0 else RankSum(ms[..|ms| - 1]) + ms[|ms| - 1].rank
  }

  // a quotient kept as a term of its own
  function Over(a: real, n: nat): real
    requires n > 0
  {
    a / n as real
  }

  function Mean(ms: seq<Match>): real
    requires ms != []
  {
    Over(RankSum(ms), |ms|)
  }

  function Shift(ms: seq<Match>, i: nat): real
    requires i < |ms|
  {
    ms[i].rank - Mean(ms)
  }

  lemma {:induction false} RankSumAppend(a: seq<Match>, b: seq<Match>)
    ensures RankSum([]) == 0.0 && RankSum(a + b) == RankSum(a) + RankSum(b)
    ensures |a| == 1 ==> RankSum(a) == a[0].rank
  {
    if |a| == 1 {
      assert a[..0] == [];
    }
    if b == [] {
      assert a + b == a;
    } else {
      assert (a + b)[..|a + b| - 1] == a + b[..|b| - 1];
      RankSumAppend(a, b[..|b| - 1]);
    }
  }

  /** The mean times the number of matches is the sum of their ranks. */
  lemma MeanIs(ms: seq<Match>)
    requires ms != []
    ensures Mean(ms) * |ms| as real == RankSum(ms)
  {
    assert RankSum(ms) / |ms| as real * |ms| as real == RankSum(ms);
  }

  /** Where the ranks are all equal they are equal to the mean. */
  lemma {:induction false} SumOfEqualRanks(ms: seq<Match>, r: real)
    requires forall m <- ms :: m.rank == r
    ensures RankSum(ms) == r * |ms| as real
  {
    if ms != [] {
      SumOfEqualRanks(ms[..|ms| - 1], r);
    }
  }

  /** The smoothed weight of every match; `squash` is atan shifted into the positive numbers. */
  function Weights(ms: seq<Match>, f: real, squash: real -> real): (w: seq<real>)
    requires forall x: real :: squash(x) > 0.0
    ensures Positive(w)
  {
    seq(|ms|, i requires 0 <= i < |ms| => squash(Times(f, Shift(ms, i))))
  }

  /** The better the rank the larger the weight, for any smoothing that increases and any positive
      factor; equal ranks have equal weights. */
  lemma HigherRankWeighsMore(ms: seq<Match>, f: real, squash: real -> real, i: nat, j: nat)
    requires (forall x: real :: squash(x) > 0.0) && forall x: real, y: real :: x < y ==> squash(x) < squash(y)
    requires f > 0.0 && i < |ms| && j < |ms|
    ensures Weights(ms, f, squash)[i] < Weights(ms, f, squash)[j] <==> ms[i].rank < ms[j].rank
  {
    var x, y := Shift(ms, i), Shift(ms, j);
    if x < y {
      Stretched(f, x, y);
    } else if y < x {
      Stretched(f, y, x);
    }
  }

  lemma Stretched(f: real, x: real, y: real)
    requires f > 0.0 && x < y
    ensures Times(f, x) < Times(f, y)
  {
    TimesIs(f, x);
    TimesIs(f, y);
    assert f * (y - x) > 0.0;
    assert f * y - f * x == f * (y - x);
  }

  method CollectRanks(ms: seq<Match>) returns (ranks: array<real>, sum: real)
    ensures fresh(ranks) && ranks.Length == |ms| && sum == RankSum(ms)
    ensures forall i :: 0 <= i < |ms| ==> ranks[i] == ms[i].rank
  {
    ranks := new real[|ms|];
    sum := 0.0;
    for i := 0 to |ms|
      invariant sum == RankSum(ms[..i])
      invariant forall j :: 0 <= j < i ==> ranks[j] == ms[j].rank
    {
      ranks[i] := ms[i].rank;
      sum := sum + ms[i].rank;
      assert ms[..i + 1][..i] == ms[..i];
    }
    assert ms[..|ms|] == ms;
  }

  method SquashRanks(d: array<real>, ms: seq<Match>, f: real, mean: real, squash: real -> real)
    requires (forall x: real :: squash(x) > 0.0) && ms != [] && d.Length == |ms| && mean == Mean(ms)
    requires forall j :: 0 <= j < |ms| ==> d[j] == ms[j].rank
    modifies d
    ensures d[..] == Weights(ms, f, squash)
  {
    ghost var w := Weights(ms, f, squash);
    for i := 0 to d.Length
      invariant forall j :: 0 <= j < i ==> d[j] == w[j]
      invariant forall j :: i <= j < d.Length ==> d[j] == ms[j].rank
    {
      d[i] := squash(Times(f, d[i] - mean));
    }
  }

  method MakeDistribution(ms: seq<Match>, f: real, squash: real -> real) returns (d: array<real>)
    requires forall x: real :: squash(x) > 0.0
    ensures fresh(d) && IsDistribution(d[..], Weights(ms, f, squash))
  {
    var sum;
    d, sum := CollectRanks(ms);
    if d.Length == 0 {
      return;
    }
    SquashRanks(d, ms, f, Over(sum, d.Length), squash);
    PartialSum(d);
  }

  function SquaredDeviations(ms: seq<Match>, mean: real, k: nat): real
    requires k <= |ms|
  {
    if k == 0 then 0.0
    else
      var t := ms[k - 1].rank - mean;
      SquaredDeviations(ms, mean, k - 1) + Times(t, t)
  }

  /** The divisor of the single-job smoothing: never zero, even when all ranks are equal. */
  function Deviation(ms: seq<Match>, pi: real, root: real -> real): (r: real)
    requires ms != [] && pi > 0.0 && forall x: real :: x > 0.0 ==> root(x) > 0.0
    ensures r > 0.0
  {
    var variance := Over(SquaredDeviations(ms, Mean(ms), |ms|), |ms|);
    if variance > 0.0 then root(variance) else pi
  }

  lemma {:induction false} DeviationsVanish(ms: seq<Match>, mean: real, k: nat)
    requires k <= |ms|
    ensures SquaredDeviations(ms, mean, k) >= 0.0
    ensures SquaredDeviations(ms, mean, k) == 0.0 <==> forall i :: 0 <= i < k ==> ms[i].rank == mean
  {
    if k > 0 {
      DeviationsVanish(ms, mean, k - 1);
      SquareIsPositive(ms[k - 1].rank - mean);
    }
  }

  lemma SquareIsPositive(t: real)
    ensures t == 0.0 ==> Times(t, t) == 0.0
    ensures t != 0.0 ==> Times(t, t) > 0.0
  {
    if t < 0.0 {
      ProductIsPositive(-t, -t);
      assert Times(t, t) == Times(-t, -t);
    } else if t > 0.0 {
      ProductIsPositive(t, t);
    }
  }

  lemma ProductIsPositive(a: real, b: real)
    requires a > 0.0 && b > 0.0
    ensures Times(a, b) > 0.0
  {
  }

  lemma MeanOfEqualRanks(ms: seq<Match>, r: real)
    requires ms != [] && forall m <- ms :: m.rank == r
    ensures Mean(ms) == r
  {
    SumOfEqualRanks(ms, r);
    Quotient(RankSum(ms), |ms|, r);
  }

  /** The ranks do not deviate from their mean exactly when they are all equal. */
  lemma EqualRanksDoNotDeviate(ms: seq<Match>)
    requires ms != []
    ensures SquaredDeviations(ms, Mean(ms), |ms|) >= 0.0
    ensures SquaredDeviations(ms, Mean(ms), |ms|) == 0.0 <==> forall m <- ms :: m.rank == ms[0].rank
  {
    DeviationsVanish(ms, Mean(ms), |ms|);
    if forall m <- ms :: m.rank == ms[0].rank {
      MeanOfEqualRanks(ms, ms[0].rank);
    }
    AllEqual(ms, Mean(ms), SquaredDeviations(ms, Mean(ms), |ms|));
  }

  lemma AllEqual(ms: seq<Match>, mean: real, squares: real)
    requires ms != [] && (squares == 0.0 <==> forall i :: 0 <= i < |ms| ==> ms[i].rank == mean)
    requires (forall m <- ms :: m.rank == ms[0].rank) ==> mean == ms[0].rank
    ensures squares == 0.0 <==> forall m <- ms :: m.rank == ms[0].rank
  {
  }

  /** The constant that replaces the deviation is used exactly when all ranks are equal. */
  lemma DeviationOfEqualRanks(ms: seq<Match>, pi: real, root: real -> real)
    requires ms != [] && pi > 0.0 && forall x: real :: x > 0.0 ==> root(x) > 0.0
    ensures
      var squares := SquaredDeviations(ms, Mean(ms), |ms|);
      Deviation(ms, pi, root) == if forall m <- ms :: m.rank == ms[0].rank then pi else root(Over(squares, |ms|))
  {
    EqualRanksDoNotDeviate(ms);
    SignOfOver(SquaredDeviations(ms, Mean(ms), |ms|), |ms|);
  }

  lemma SignOfOver(a: real, n: nat)
    requires n > 0 && a >= 0.0
    ensures Over(a, n) > 0.0 <==> a > 0.0
  {
  }

  lemma Quotient(a: real, n: nat, b: real)
    requires n > 0 && a == b * n as real
    ensures Over(a, n) == b
  {
  }

  method Variance(ranks: array<real>, mean: real, ghost ms: seq<Match>) returns (v: real)
    requires ranks.Length == |ms| && forall i :: 0 <= i < |ms| ==> ranks[i] == ms[i].rank
    ensures v == if ms == [] then 0.0 else Over(SquaredDeviations(ms, mean, |ms|), |ms|)
  {
    v := 0.0;
    for n := 0 to ranks.Length
      invariant v == SquaredDeviations(ms, mean, n)
    {
      var t := ranks[n] - mean;
      v := v + Times(t, t);
    }
    if ranks.Length > 0 {
      v := Over(v, ranks.Length);
    }
  }

  method Smoothed(shift: real, deviation: real, pi: real, squash: real -> real) returns (weight: real)
    requires deviation != 0.0
    ensures weight == squash(Times(Factor(pi, deviation), shift))
  {
    Reassociate(pi, shift, deviation);
    weight := squash(Times(pi, shift) / deviation);
  }

  // a quotient kept as a term of its own
  function Factor(pi: real, deviation: real): real
    requires deviation != 0.0
  {
    pi / deviation
  }

  /** Replaces the ranks by their smoothed weights and sums these up. */
  method SmoothRanks(ranks: array<real>, mean: real, deviation: real, pi: real, squash: real -> real,
                     ghost ms: seq<Match>)
      returns (total: real)
    requires ms != [] && ranks.Length == |ms| && forall i :: 0 <= i < |ms| ==> ranks[i] == ms[i].rank
    requires mean == Mean(ms) && deviation != 0.0 && forall x: real :: squash(x) > 0.0
    modifies ranks
    ensures ranks[..] == Weights(ms, pi / deviation, squash)
    ensures total == Prefix(ranks[..], ranks.Length)
  {
    total := SmoothEach(ranks, mean, deviation, pi, squash, Weights(ms, Factor(pi, deviation), squash));
  }

  /** The loop, towards given weights. */
  method SmoothEach(ranks: array<real>, mean: real, deviation: real, pi: real, squash: real -> real,
                    ghost w: seq<real>)
      returns (total: real)
    requires deviation != 0.0 && |w| == ranks.Length
    requires forall j :: 0 <= j < |w| ==> w[j] == squash(Times(Factor(pi, deviation), ranks[j] - mean))
    modifies ranks
    ensures ranks[..] == w && total == Prefix(ranks[..], ranks.Length)
  {
    total := 0.0;
    for r := 0 to ranks.Length
      invariant forall j :: 0 <= j < r ==> ranks[j] == w[j]
      invariant forall j :: r <= j < ranks.Length ==> ranks[j] == old(ranks[j])
      invariant total == Prefix(w, r)
    {
      ranks[r] := Smoothed(ranks[r] - mean, deviation, pi, squash);
      total := total + ranks[r];
    }
    assert ranks[..] == w;
  }

  method FindDeviation(ranks: array<real>, mean: real, pi: real, root: real -> real, ghost ms: seq<Match>)
      returns (deviation: real)
    requires ms != [] && ranks.Length == |ms| && forall i :: 0 <= i < |ms| ==> ranks[i] == ms[i].rank
    requires mean == Mean(ms) && pi > 0.0 && forall x: real :: x > 0.0 ==> root(x) > 0.0
    ensures deviation == Deviation(ms, pi, root)
  {
    var variance := Variance(ranks, mean, ms);
    deviation := if variance > 0.0 then root(variance) else pi;
  }

  /** A random share of the total always falls on one of the weights. */
  method DrawFrom(ranks: array<real>, total: real, u: real) returns (best: nat)
    requires ranks.Length > 0 && Positive(ranks[..]) && 0.0 <= u < 1.0 && total == Prefix(ranks[..], ranks.Length)
    ensures FoundByScan(ranks[..], Times(u, total), best)
  {
    PrefixIncreases(ranks[..], 0, ranks.Length);
    Scaled(u, total);
    best := ScanCumulative(ranks, Times(u, total));
  }

  /** The stochastic choice for a single job always finds a match: the one on whose share of the
      total weight the random number falls. */
  method SelectBestStochastic(ms: seq<Match>, u: real, pi: real, root: real -> real, squash: real -> real)
      returns (best: nat, ghost factor: real)
    requires ms != [] && 0.0 <= u < 1.0 && pi > 0.0
    requires forall x: real :: x > 0.0 ==> root(x) > 0.0
    requires forall x: real :: squash(x) > 0.0
    ensures factor == pi / Deviation(ms, pi, root)
    ensures best < |ms|
    ensures FoundByScan(Weights(ms, factor, squash), Times(u, Prefix(Weights(ms, factor, squash), |ms|)), best)
  {
    var ranks, sum := CollectRanks(ms);
    var mean := Over(sum, ranks.Length);
    var deviation := FindDeviation(ranks, mean, pi, root, ms);
    factor := pi / deviation;
    var total := SmoothRanks(ranks, mean, deviation, pi, squash, ms);
    best := DrawFrom(ranks, total, u);
  }

  lemma Reassociate(a: real, b: real, c: real)
    requires c != 0.0
    ensures Times(a, b) / c == Times(Factor(a, c), b)
  {
  }

  /** How many matches there are before the first one ranked lower than the head. */
  function LeadingBlock(ms: seq<Match>, k: nat): (n: nat)
    requires 0 < k <= |ms|
    requires forall i :: 0 <= i < k ==> ms[i].rank >= ms[0].rank
    ensures k <= n <= |ms|
    ensures forall i :: 0 <= i < n ==> ms[i].rank >= ms[0].rank
    ensures n < |ms| ==> ms[n].rank < ms[0].rank
    decreases |ms| - k
  {
    if k == |ms| || ms[k].rank < ms[0].rank then k else LeadingBlock(ms, k + 1)
  }

  /** One of these is drawn. */
  method SelectBestMaxRank(ms: seq<Match>, draw: nat) returns (best: nat)
    requires ms != []
    ensures best == draw % LeadingBlock(ms, 1)
  {
    var it := 1;
    while it < |ms| && !(ms[it].rank < ms[0].rank)
      invariant 0 < it <= |ms| && forall i :: 0 <= i < it ==> ms[i].rank >= ms[0].rank
      invariant LeadingBlock(ms, it) == LeadingBlock(ms, 1)
    {
      it := it + 1;
    }
    best := draw % it;
  }

  /** Every draw gives a match of maximum rank if and only if the head has it: the choice relies
      on a list that begins with its best match, and on nothing else about its order. */
  lemma MaxRankChosenExactly(ms: seq<Match>)
    requires ms != []
    ensures (forall draw: nat :: IsTop(ms[draw % LeadingBlock(ms, 1)], ms)) <==> IsTop(ms[0], ms)
  {
    var n := LeadingBlock(ms, 1);
    assert 0 % n == 0;
    if IsTop(ms[0], ms) {
      forall draw: nat ensures IsTop(ms[draw % n], ms) {
        assert draw % n < n;
      }
    }
  }
}
