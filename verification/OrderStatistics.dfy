/** Nearest-rank percentiles and the aggregations of evaluation scores (evals/statistics.py,
    evals/runner.py), over exact reals. */
module OrderStatistics {
  import opened Schemas
  import opened Ordering

  function Ceil(x: real): int {
    -(-x).Floor
  }

  lemma CeilMonotone(x: real, y: real)
    requires x <= y
    ensures Ceil(x) <= Ceil(y)
  {
  }

  lemma ScaleMonotone(p: real, q: real, n: real)
    requires p <= q && n >= 0.0
    ensures p * n <= q * n
  {
  }

  /** The samples a percentile must reach: p of them, rounded up. */
  function Needed(n: nat, p: real): int {
    Ceil(p * n as real)
  }

  function RankIndex(n: nat, p: real): (k: nat)
    requires n > 0
    ensures k < n
  {
    Min(n - 1, Max(0, Needed(n, p) - 1))
  }

  function Percentile(values: seq<real>, p: real): Option<real> {
    if values == [] || !(0.0 <= p <= 1.0) then None else Some(Sort(values, RealLeq)[RankIndex(|values|, p)])
  }

  // ----- counting -----

  function CountLe(xs: seq<real>, t: real): nat {
    if xs == [] then 0 else (if xs[0] <= t then 1 else 0) + CountLe(xs[1..], t)
  }

  function CountLt(xs: seq<real>, t: real): nat {
    if xs == [] then 0 else (if xs[0] < t then 1 else 0) + CountLt(xs[1..], t)
  }

  lemma {:induction false} CountInsert(x: real, xs: seq<real>, t: real)
    ensures CountLe(Insert(x, xs, RealLeq), t) == CountLe(xs, t) + if x <= t then 1 else 0
    ensures CountLt(Insert(x, xs, RealLeq), t) == CountLt(xs, t) + if x < t then 1 else 0
  {
    var r := Insert(x, xs, RealLeq);
    if xs == [] || RealLeq(x, xs[0]) {
      assert r[1..] == xs;
    } else {
      assert r[1..] == Insert(x, xs[1..], RealLeq);
      CountInsert(x, xs[1..], t);
    }
  }

  lemma {:induction false} CountSort(xs: seq<real>, t: real)
    ensures CountLe(Sort(xs, RealLeq), t) == CountLe(xs, t)
    ensures CountLt(Sort(xs, RealLeq), t) == CountLt(xs, t)
  {
    if xs != [] {
      CountSort(xs[1..], t);
      CountInsert(xs[0], Sort(xs[1..], RealLeq), t);
    }
  }

  lemma {:induction false} CountsBounded(xs: seq<real>, t: real)
    ensures CountLt(xs, t) <= CountLe(xs, t) <= |xs|
  {
    if xs != [] {
      CountsBounded(xs[1..], t);
    }
  }

  lemma {:induction false} NoneLe(xs: seq<real>, t: real)
    requires forall i :: 0 <= i < |xs| ==> t < xs[i]
    ensures CountLe(xs, t) == 0
  {
    if xs != [] {
      NoneLe(xs[1..], t);
    }
  }

  lemma {:induction false} NoneLt(xs: seq<real>, t: real)
    requires forall i :: 0 <= i < |xs| ==> t <= xs[i]
    ensures CountLt(xs, t) == 0
  {
    if xs != [] {
      NoneLt(xs[1..], t);
    }
  }

  /** In a sorted sample the element of rank `k` is at most `t` exactly when more than `k` samples are. */
  lemma {:induction false} RankByCount(xs: seq<real>, k: nat, t: real)
    requires Sorted(xs, RealLeq) && k < |xs|
    ensures xs[k] <= t <==> CountLe(xs, t) > k
    ensures xs[k] < t <==> CountLt(xs, t) > k
  {
    if k > 0 {
      RankByCount(xs[1..], k - 1, t);
      assert RealLeq(xs[0], xs[k]);
    } else {
      forall i | 0 < i < |xs|
        ensures xs[0] <= xs[i]
      {
        assert RealLeq(xs[0], xs[i]);
      }
      if t < xs[0] {
        NoneLe(xs, t);
      }
      if t <= xs[0] {
        NoneLt(xs, t);
      }
    }
  }

  lemma {:induction false} RealOrder()
    ensures Preorder(RealLeq) && Antisymmetric(RealLeq)
  {
  }

  /** The element of rank `k` of a sample, through counting in the sample as given. */
  lemma {:induction false} SortedByCount(xs: seq<real>, k: nat, t: real)
    requires k < |xs|
    ensures Sort(xs, RealLeq)[k] <= t <==> CountLe(xs, t) > k
    ensures Sort(xs, RealLeq)[k] < t <==> CountLt(xs, t) > k
  {
    RealOrder();
    SortSorted(xs, RealLeq);
    CountSort(xs, t);
    RankByCount(Sort(xs, RealLeq), k, t);
  }

  // ----- what a percentile is -----

  lemma NeededInRange(n: nat, p: real)
    requires n > 0 && 0.0 <= p <= 1.0
    ensures 0 <= Needed(n, p) <= n
    ensures p > 0.0 ==> Needed(n, p) > 0
    ensures RankIndex(n, p) == if Needed(n, p) > 0 then Needed(n, p) - 1 else 0
  {
    assert 0.0 <= p * n as real <= n as real;
    assert p > 0.0 ==> p * n as real > 0.0;
  }

  /** The percentile is a sample with enough samples at or below it and too few strictly below it. */
  ghost predicate IsPercentile(values: seq<real>, p: real, r: real) {
    && r in values
    && CountLe(values, r) >= Needed(|values|, p)
    && (p > 0.0 ==> CountLt(values, r) < Needed(|values|, p))
    && (p == 0.0 ==> CountLt(values, r) == 0)
  }

  lemma {:induction false} PercentileIs(values: seq<real>, p: real)
    requires values != [] && 0.0 <= p <= 1.0
    ensures Percentile(values, p).Some? && IsPercentile(values, p, Percentile(values, p).value)
  {
    var k := RankIndex(|values|, p);
    var r := Sort(values, RealLeq)[k];
    NeededInRange(|values|, p);
    SortedByCount(values, k, r);
    PercentileMember(values, k);
  }

  /** A percentile is asked for a sample that is not empty, at a fraction between zero and one. */
  lemma {:induction false} PercentileDefined(values: seq<real>, p: real)
    ensures Percentile(values, p).Some? <==> |values| > 0 && p >= 0.0 && p <= 1.0
  {
  }

  lemma {:induction false} PercentileMember(values: seq<real>, k: nat)
    requires k < |values|
    ensures Sort(values, RealLeq)[k] in values
  {
    SortMembers(values, RealLeq);
    assert Sort(values, RealLeq)[k] in Sort(values, RealLeq);
  }

  /** That description fits one value only. */
  lemma {:induction false} PercentileUnique(values: seq<real>, p: real, r: real)
    requires values != [] && 0.0 <= p <= 1.0
    ensures IsPercentile(values, p, r) <==> Percentile(values, p) == Some(r)
  {
    PercentileIs(values, p);
    if IsPercentile(values, p, r) {
      NeededInRange(|values|, p);
      var k := RankIndex(|values|, p);
      SortedByCount(values, k, r);
      if p == 0.0 {
        assert Needed(|values|, 0.0) == 0;
        CountsPositive(values, r);
      }
    }
  }

  lemma {:induction false} CountsPositive(xs: seq<real>, t: real)
    requires t in xs
    ensures CountLe(xs, t) > 0
  {
    if xs[0] != t {
      CountsPositive(xs[1..], t);
    }
  }

  lemma {:induction false} PercentileOrderIndependent(xs: seq<real>, ys: seq<real>, p: real)
    requires multiset(xs) == multiset(ys)
    ensures Percentile(xs, p) == Percentile(ys, p)
  {
    assert |multiset(xs)| == |xs| && |multiset(ys)| == |ys|;
    RealOrder();
    SortOfPermutation(xs, ys, RealLeq);
  }

  lemma NeededMonotone(n: nat, p: real, q: real)
    requires p <= q
    ensures Needed(n, p) <= Needed(n, q)
  {
    ScaleMonotone(p, q, n as real);
    CeilMonotone(p * n as real, q * n as real);
  }

  lemma {:induction false} PercentileMonotoneInP(xs: seq<real>, p: real, q: real)
    requires xs != [] && 0.0 <= p <= q <= 1.0
    ensures Percentile(xs, p).value <= Percentile(xs, q).value
  {
    RealOrder();
    SortSorted(xs, RealLeq);
    NeededMonotone(|xs|, p, q);
    var j, k := RankIndex(|xs|, p), RankIndex(|xs|, q);
    if j < k {
      assert RealLeq(Sort(xs, RealLeq)[j], Sort(xs, RealLeq)[k]);
    }
  }

  predicate Pointwise(xs: seq<real>, ys: seq<real>) {
    |xs| == |ys| && forall i :: 0 <= i < |xs| ==> xs[i] <= ys[i]
  }

  lemma {:induction false} CountMonotone(xs: seq<real>, ys: seq<real>, t: real)
    requires Pointwise(xs, ys)
    ensures CountLe(ys, t) <= CountLe(xs, t)
  {
    if xs != [] {
      CountMonotone(xs[1..], ys[1..], t);
    }
  }

  lemma {:induction false} PercentileMonotone(xs: seq<real>, ys: seq<real>, p: real)
    requires Pointwise(xs, ys) && xs != [] && 0.0 <= p <= 1.0
    ensures Percentile(xs, p).value <= Percentile(ys, p).value
  {
    var k, r := RankIndex(|ys|, p), Percentile(ys, p).value;
    SortedByCount(ys, k, r);
    CountMonotone(xs, ys, r);
    SortedByCount(xs, k, r);
  }

  // ----- aggregation -----

  datatype Aggregation = Mean | Sum | Minimum | Maximum | P95 | Unsupported(name: string)

  /** The runner's own 95th percentile. */
  function RunnerP95(values: seq<real>): Option<real> {
    if values == [] then None else
    var rank := Max(1, Ceil(0.95 * |values| as real));
    assert rank <= |values| by { NeededInRange(|values|, 0.95); }
    Some(Sort(values, RealLeq)[rank - 1])
  }

  lemma {:induction false} RunnerP95IsPercentile(values: seq<real>)
    ensures RunnerP95(values) == Percentile(values, 0.95)
  {
    if values != [] {
      NeededInRange(|values|, 0.95);
    }
  }

  function Total(values: seq<real>): real {
    if values == [] then 0.0 else values[0] + Total(values[1..])
  }

  function Least(values: seq<real>): real
    requires values != []
  {
    if |values| == 1 then values[0] else
    var rest := Least(values[1..]);
    if rest < values[0] then rest else values[0]
  }

  function Greatest(values: seq<real>): real
    requires values != []
  {
    if |values| == 1 then values[0] else
    var rest := Greatest(values[1..]);
    if rest > values[0] then rest else values[0]
  }

  function Aggregate(values: seq<real>, how: Aggregation): Option<real> {
    if values == [] then None else
    match how
    case Mean => Some(Total(values) / |values| as real)
    case Sum => Some(Total(values))
    case Minimum => Some(Least(values))
    case Maximum => Some(Greatest(values))
    case P95 => RunnerP95(values)
    case Unsupported(_) => None
  }

  lemma {:induction false} TotalMonotone(xs: seq<real>, ys: seq<real>)
    requires Pointwise(xs, ys)
    ensures Total(xs) <= Total(ys)
  {
    if xs != [] {
      TotalMonotone(xs[1..], ys[1..]);
    }
  }

  lemma {:induction false} LeastIs(xs: seq<real>)
    requires xs != []
    ensures Least(xs) in xs && forall i :: 0 <= i < |xs| ==> Least(xs) <= xs[i]
  {
    if |xs| > 1 {
      LeastIs(xs[1..]);
      assert forall i :: 1 <= i < |xs| ==> xs[i] == xs[1..][i - 1];
    }
  }

  lemma {:induction false} GreatestIs(xs: seq<real>)
    requires xs != []
    ensures Greatest(xs) in xs && forall i :: 0 <= i < |xs| ==> xs[i] <= Greatest(xs)
  {
    if |xs| > 1 {
      GreatestIs(xs[1..]);
      assert forall i :: 1 <= i < |xs| ==> xs[i] == xs[1..][i - 1];
    }
  }

  /** Every aggregation is monotone in every score. */
  lemma {:induction false} AggregateMonotone(xs: seq<real>, ys: seq<real>, how: Aggregation)
    requires Pointwise(xs, ys) && xs != [] && !how.Unsupported?
    ensures Aggregate(xs, how).value <= Aggregate(ys, how).value
  {
    match how {
      case Mean =>
        TotalMonotone(xs, ys);
        DivideMonotone(Total(xs), Total(ys), |xs| as real);
      case Sum => TotalMonotone(xs, ys);
      case Minimum =>
        LeastIs(xs);
        LeastIs(ys);
        var i :| 0 <= i < |ys| && ys[i] == Least(ys);
        assert Least(xs) <= xs[i] <= ys[i];
      case Maximum =>
        GreatestIs(xs);
        GreatestIs(ys);
        var i :| 0 <= i < |xs| && xs[i] == Greatest(xs);
        assert xs[i] <= ys[i] <= Greatest(ys);
      case P95 =>
        RunnerP95IsPercentile(xs);
        RunnerP95IsPercentile(ys);
        PercentileMonotone(xs, ys, 0.95);
    }
  }

  lemma DivideMonotone(a: real, b: real, n: real)
    requires a <= b && n > 0.0
    ensures a / n <= b / n
  {
  }

  lemma {:induction false} TotalBound(xs: seq<real>, limit: real)
    requires forall i :: 0 <= i < |xs| ==> xs[i] <= limit
    ensures Total(xs) <= limit * |xs| as real
  {
    if xs != [] {
      TotalBound(xs[1..], limit);
    }
  }

  /** An upper bound on every score bounds every aggregation but the sum. */
  lemma {:induction false} AggregateBound(xs: seq<real>, how: Aggregation, limit: real)
    requires xs != [] && !how.Unsupported? && !how.Sum?
    requires forall i :: 0 <= i < |xs| ==> xs[i] <= limit
    ensures Aggregate(xs, how).value <= limit
  {
    match how {
      case Mean =>
        TotalBound(xs, limit);
        MeanBound(Total(xs), limit, |xs| as real);
      case Minimum => LeastIs(xs);
      case Maximum => GreatestIs(xs);
      case P95 =>
        RunnerP95IsPercentile(xs);
        PercentileIs(xs, 0.95);
    }
  }

  lemma MeanBound(a: real, limit: real, n: real)
    requires n > 0.0 && a <= limit * n
    ensures a / n <= limit
  {
  }

  lemma {:induction false} TotalNonNegative(xs: seq<real>)
    requires forall i :: 0 <= i < |xs| ==> xs[i] >= 0.0
    ensures Total(xs) >= 0.0
  {
    if xs != [] {
      TotalNonNegative(xs[1..]);
    }
  }

  lemma {:induction false} AggregateNonNegative(xs: seq<real>, how: Aggregation)
    requires xs != [] && !how.Unsupported?
    requires forall i :: 0 <= i < |xs| ==> xs[i] >= 0.0
    ensures Aggregate(xs, how).value >= 0.0
  {
    match how {
      case Mean =>
        TotalNonNegative(xs);
        DivideMonotone(0.0, Total(xs), |xs| as real);
      case Sum => TotalNonNegative(xs);
      case Minimum => LeastIs(xs);
      case Maximum => GreatestIs(xs);
      case P95 =>
        RunnerP95IsPercentile(xs);
        PercentileIs(xs, 0.95);
    }
  }
}
