/** Choosing a resource at random in proportion to weights: the prefix sums with a binary search
    of bulkmm_utils.cpp, and the cumulative scan of match_utils.cpp.  Numbers are exact reals. */
module Distribution {

  /** Sum of the first `k` weights. */
  function Prefix(w: seq<real>, k: nat): real
    requires k <= |w|
  {
    if k == 0 then 0.0 else Prefix(w, k - 1) + w[k - 1]
  }

  // a product kept as a term of its own
  function Times(a: real, b: real): real {
    a * b
  }

  lemma TimesIs(a: real, b: real)
    ensures Times(a, b) == a * b
  {
  }

  /** Sums of weights: none, one, and those of two lists one behind the other. */
  lemma {:induction false} PrefixIsSum(a: seq<real>, b: seq<real>, k: nat)
    requires k <= |b|
    ensures Prefix(a, 0) == 0.0
    ensures |a| == 1 ==> Prefix(a, 1) == a[0]
    ensures Prefix(a + b, |a| + k) == Prefix(a, |a|) + Prefix(b, k)
  {
    if k == 0 {
      SamePrefix(a + b, a, |a|);
    } else {
      PrefixIsSum(a, b, k - 1);
    }
    if |a| == 1 {
      assert Prefix(a, 0) == 0.0;
    }
  }

  lemma {:induction false} SamePrefix(a: seq<real>, b: seq<real>, k: nat)
    requires k <= |a| && k <= |b| && forall i :: 0 <= i < k ==> a[i] == b[i]
    ensures Prefix(a, k) == Prefix(b, k)
  {
    if k > 0 {
      SamePrefix(a, b, k - 1);
    }
  }

  predicate Positive(w: seq<real>) {
    forall i :: 0 <= i < |w| ==> w[i] > 0.0
  }

  lemma {:induction false} PrefixIncreases(w: seq<real>, i: nat, j: nat)
    requires Positive(w) && i < j <= |w|
    ensures Prefix(w, i) < Prefix(w, j)
  {
    if i < j - 1 {
      PrefixIncreases(w, i, j - 1);
    }
  }

  /** The array holds the prefix sums of these weights. */
  ghost predicate IsDistribution(d: seq<real>, w: seq<real>) {
    |d| == |w| && forall i :: 0 <= i < |d| ==> d[i] == Prefix(w, i + 1)
  }

  /** std::partial_sum with the same range as source and destination. */
  method PartialSum(a: array<real>)
    modifies a
    ensures IsDistribution(a[..], old(a[..]))
  {
    ghost var w := a[..];
    if a.Length == 0 {
      return;
    }
    for i := 1 to a.Length
      invariant forall j :: 0 <= j < i ==> a[j] == Prefix(w, j + 1)
      invariant forall j :: i <= j < a.Length ==> a[j] == w[j]
    {
      a[i] := a[i - 1] + a[i];
    }
  }

  /** What std::lower_bound finds in the prefix sums of the weights. */
  ghost predicate FoundByBound(w: seq<real>, p: real, i: nat) {
    i < |w| && (forall k :: 0 < k <= i ==> Prefix(w, k) < p) && p <= Prefix(w, i + 1)
  }

  /** What the cumulative scan stops at. */
  ghost predicate FoundByScan(w: seq<real>, p: real, i: nat) {
    i < |w| && (forall k :: 0 < k <= i ==> Prefix(w, k) <= p) && p < Prefix(w, i + 1)
  }

  /** std::lower_bound: halves the distance that is left. */
  method LowerBound(d: array<real>, p: real) returns (first: nat)
    requires forall i, j :: 0 <= i < j < d.Length ==> d[i] <= d[j]
    ensures first <= d.Length
    ensures forall i :: 0 <= i < first ==> d[i] < p
    ensures forall i :: first <= i < d.Length ==> p <= d[i]
    ensures first == d.Length > 0 ==> d[d.Length - 1] < p
  {
    first := 0;
    var len := d.Length;
    while len > 0
      invariant 0 <= len && first + len <= d.Length
      invariant forall i :: 0 <= i < first ==> d[i] < p
      invariant forall i :: first + len <= i < d.Length ==> p <= d[i]
    {
      var half := len / 2;
      var middle := first + half;
      if d[middle] < p {
        first := middle + 1;
        len := len - half - 1;
      } else {
        len := half;
      }
    }
  }

  /** The choice for one job: a random `u` below 1 scaled by the total weight. */
  method SelectDestination(d: array<real>, u: real, ghost w: seq<real>) returns (i: nat)
    requires 0.0 <= u < 1.0 && d.Length > 0
    requires Positive(w) && IsDistribution(d[..], w)
    ensures FoundByBound(w, Times(u, Prefix(w, |w|)), i)
  {
    var total := d[d.Length - 1];
    assert total == d[..][|w| - 1] == Prefix(w, |w|);
    PrefixIncreases(w, 0, |w|);
    Scaled(u, total);
    var p := Times(u, total);
    forall i, j | 0 <= i < j < d.Length ensures d[i] <= d[j] {
      PrefixIncreases(w, i + 1, j + 1);
      assert d[..][i] == Prefix(w, i + 1) && d[..][j] == Prefix(w, j + 1);
    }
    i := LowerBound(d, p);
    assert i < d.Length;
    assert d[..][i] == Prefix(w, i + 1);
    forall k | 0 < k <= i ensures Prefix(w, k) < p {
      assert d[..][k - 1] == Prefix(w, k);
    }
  }

  /** In numbers: the share u of the total falls on the weight that is chosen. */
  lemma ShareOfTotal(w: seq<real>, u: real, i: nat)
    requires Positive(w) && w != [] && 0.0 <= u < 1.0
    ensures FoundByBound(w, Times(u, Prefix(w, |w|)), i) <==>
            i < |w| && (i == 0 || Prefix(w, i) < u * Prefix(w, |w|)) && u * Prefix(w, |w|) <= Prefix(w, i + 1)
    ensures FoundByScan(w, Times(u, Prefix(w, |w|)), i) <==>
            i < |w| && Prefix(w, i) <= u * Prefix(w, |w|) < Prefix(w, i + 1)
  {
    TimesIs(u, Prefix(w, |w|));
    PrefixIncreases(w, 0, |w|);
    Scaled(u, Prefix(w, |w|));
    if i < |w| {
      BoundInterval(w, Times(u, Prefix(w, |w|)), i);
      ScanInterval(w, Times(u, Prefix(w, |w|)), i);
    }
  }

  lemma Scaled(u: real, total: real)
    requires 0.0 <= u < 1.0 && total > 0.0
    ensures 0.0 <= Times(u, total) < total
  {
    assert 0.0 <= u * total < total;
  }

  /** The do/while scan over running sums; the index is out of range only when `p` reaches the
      total. */
  method ScanCumulative(ranks: array<real>, p: real) returns (best: nat)
    requires ranks.Length > 0
    ensures best < ranks.Length ==> FoundByScan(ranks[..], p, best)
    ensures best == ranks.Length <==> forall k :: 0 < k <= ranks.Length ==> Prefix(ranks[..], k) <= p
    ensures best <= ranks.Length
  {
    var sum := 0.0;
    best := 0;
    while best < ranks.Length
      invariant best <= ranks.Length && sum == Prefix(ranks[..], best)
      invariant forall k :: 0 < k <= best ==> Prefix(ranks[..], k) <= p
    {
      sum := sum + ranks[best];
      if p < sum {
        assert Prefix(ranks[..], best + 1) == sum;
        return;
      }
      best := best + 1;
    }
  }

  /** Weight i is chosen by the search exactly on an interval whose length is the weight itself;
      the first interval is closed on the left at zero. */
  lemma BoundInterval(w: seq<real>, p: real, i: nat)
    requires Positive(w) && 0.0 <= p && i < |w|
    ensures FoundByBound(w, p, i) <==> (i == 0 || Prefix(w, i) < p) && p <= Prefix(w, i + 1)
    ensures Prefix(w, i + 1) - Prefix(w, i) == w[i]
  {
    forall k | 0 < k < i ensures Prefix(w, k) < Prefix(w, i) {
      PrefixIncreases(w, k, i);
    }
  }

  lemma ScanInterval(w: seq<real>, p: real, i: nat)
    requires Positive(w) && 0.0 <= p && i < |w|
    ensures FoundByScan(w, p, i) <==> Prefix(w, i) <= p < Prefix(w, i + 1)
  {
    forall k | 0 < k < i ensures Prefix(w, k) < Prefix(w, i) {
      PrefixIncreases(w, k, i);
    }
  }

  /** Both ways choose the same resource unless `p` is itself the sum of the first k weights for
      some k: then the search stays at the last of them and the scan moves on to the next. */
  lemma BoundAgreesWithScan(w: seq<real>, p: real, i: nat, j: nat)
    requires Positive(w) && 0.0 <= p < Prefix(w, |w|)
    requires FoundByBound(w, p, i) && FoundByScan(w, p, j)
    ensures i == j <==> forall k :: 0 < k < |w| ==> p != Prefix(w, k)
    ensures i != j ==> j == i + 1 && p == Prefix(w, j)
  {
    BoundInterval(w, p, i);
    ScanInterval(w, p, j);
    if i < j {
      if i + 1 < j {
        PrefixIncreases(w, i + 1, j);
      }
    }
    forall k | 0 < k < |w| && i == j ensures p != Prefix(w, k) {
      if k < i {
        PrefixIncreases(w, k, i);
      } else if k > i + 1 {
        PrefixIncreases(w, i + 1, k);
      }
    }
  }
}
