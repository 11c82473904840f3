/** Wilson score intervals (evals/statistics.py, wilson_interval) over exact reals.  The square root is a
    parameter: the non-negative number whose square is the radicand. */
module Wilson {
  import opened Schemas

  datatype Interval = Interval(rate: real, low: real, high: real)

  function Radicand(p: real, n: real, z: real): real
    requires n > 0.0
  {
    p * (1.0 - p) / n + (z * z) / (4.0 * n * n)
  }

  function Center(p: real, n: real, z: real): real
    requires n > 0.0 && 1.0 + (z * z) / n > 0.0
  {
    (p + (z * z) / (2.0 * n)) / (1.0 + (z * z) / n)
  }

  function Margin(n: real, z: real, root: real): real
    requires n > 0.0 && 1.0 + (z * z) / n > 0.0
  {
    (z / (1.0 + (z * z) / n)) * root
  }

  predicate IsRoot(root: real, x: real) {
    root >= 0.0 && root * root == x
  }

  predicate Counts(successes: int, total: int) {
    total > 0 && 0 <= successes <= total
  }

  lemma {:induction false} SquareOverPositive(z: real, n: real)
    requires n > 0.0
    ensures z * z >= 0.0 && (z * z) / n >= 0.0
  {
    assert z * z >= 0.0;
  }

  function RealMax(a: real, b: real): real {
    if a >= b then a else b
  }

  function RealMin(a: real, b: real): real {
    if a <= b then a else b
  }

  /** The interval for `successes` out of `total`, with both ends clamped to [0, 1]. */
  function ScoreInterval(successes: int, total: int, z: real, root: real): Interval
    requires Counts(successes, total)
  {
    var n := total as real;
    var p := successes as real / n;
    SquareOverPositive(z, n);
    var center, margin := Center(p, n, z), Margin(n, z, root);
    Interval(p, RealMax(0.0, center - margin), RealMin(1.0, center + margin))
  }

  // ----- the quadratic behind the interval -----

  /** `x` is a rate from which the observed rate `p` lies within z standard errors (`w` is z*z/n). */
  predicate Plausible(x: real, p: real, w: real) {
    (x - p) * (x - p) <= w * (x * (1.0 - x))
  }

  lemma {:induction false} DivideBack(x: real, y: real)
    requires y != 0.0
    ensures (x / y) * y == x
  {
  }

  lemma {:induction false} SquareAtMost(a: real, b: real)
    requires b >= 0.0
    ensures a * a <= b * b <==> -b <= a <= b
  {
    if a > b {
      GreaterSquare(a, b);
    } else if a < -b {
      GreaterSquare(-a, b);
      NegatedSquare(a);
    } else {
      assert (b - a) * (b + a) == b * b - a * a;
      ProductNonNegative(b - a, b + a);
    }
  }

  lemma {:induction false} GreaterSquare(a: real, b: real)
    requires a > b >= 0.0
    ensures a * a > b * b
  {
    PositiveProduct(a - b, a + b);
    assert (a - b) * (a + b) == a * a - b * b;
  }

  lemma {:induction false} NegatedSquare(a: real)
    ensures (-a) * (-a) == a * a
  {
  }

  lemma {:induction false} ProductNonNegative(a: real, b: real)
    requires a >= 0.0 && b >= 0.0
    ensures a * b >= 0.0
  {
  }

  lemma {:induction false} PositiveProduct(a: real, b: real)
    requires a > 0.0 && b > 0.0
    ensures a * b > 0.0
  {
  }

  lemma {:induction false} ProductOf(a: real, b: real) returns (r: real)
    requires a > 0.0 && b > 0.0
    ensures r == a * b && r > 0.0
  {
    r := a * b;
  }

  lemma {:induction false} PositiveSquare(a: real) returns (s: real)
    requires a != 0.0
    ensures s == a * a && s > 0.0
  {
    if a > 0.0 {
      s := ProductOf(a, a);
    } else {
      s := ProductOf(-a, -a);
      NegatedSquare(a);
    }
  }

  lemma {:induction false} RootUnique(a: real, b: real, x: real)
    requires IsRoot(a, x) && IsRoot(b, x)
    ensures a == b
  {
    SquareAtMost(a, b);
    SquareAtMost(b, a);
  }

  /** The center scaled by 1 + w. */
  lemma {:induction false} CenterScaled(p: real, n: real, z: real)
    requires n > 0.0
    ensures (z * z) / n >= 0.0
    ensures (1.0 + (z * z) / n) * Center(p, n, z) == p + (z * z) / n / 2.0
  {
    SquareOverPositive(z, n);
    var w := (z * z) / n;
    DivideBack(p + (z * z) / (2.0 * n), 1.0 + w);
    HalfQuotient(z * z, n);
  }

  lemma {:induction false} HalfQuotient(x: real, n: real)
    requires n > 0.0
    ensures x / (2.0 * n) == x / n / 2.0
  {
    DivideBack(x, n);
    var q := x / n;
    assert x == (q / 2.0) * (2.0 * n);
  }

  /** The margin scaled by 1 + w, squared. */
  lemma {:induction false} MarginScaled(p: real, n: real, z: real, root: real)
    requires n > 0.0 && IsRoot(root, Radicand(p, n, z)) && z >= 0.0
    ensures (z * z) / n >= 0.0
    ensures var w := (z * z) / n;
            var m := (1.0 + w) * Margin(n, z, root);
            m >= 0.0 && m * m == w * (p * (1.0 - p)) + w * w / 4.0
  {
    SquareOverPositive(z, n);
    var w := (z * z) / n;
    var d := 1.0 + w;
    DivideBack(z, d);
    var m := d * Margin(n, z, root);
    ScaledProduct(d, z, root);
    assert m == z * root;
    ProductNonNegative(z, root);
    ProductSquare(z, root);
    RadicandScaled(p, n, z);
  }

  lemma {:induction false} ScaledProduct(d: real, z: real, root: real)
    requires d != 0.0
    ensures d * ((z / d) * root) == z * root
  {
    DivideBack(z, d);
    var q := z / d;
    assert d * (q * root) == (q * d) * root;
  }

  lemma {:induction false} ProductSquare(a: real, b: real)
    ensures (a * b) * (a * b) == (a * a) * (b * b)
  {
    assert (a * b) * (a * b) == a * (b * (a * b)) == a * (a * (b * b));
  }

  lemma {:induction false} RadicandScaled(p: real, n: real, z: real)
    requires n > 0.0
    ensures var w := (z * z) / n;
            (z * z) * Radicand(p, n, z) == w * (p * (1.0 - p)) + w * w / 4.0
  {
    var s, t := z * z, p * (1.0 - p);
    var w := s / n;
    DivideBack(s, n);
    DivideBack(t, n);
    var u := t / n;
    assert s == w * n && t == u * n;
    assert s * u == (w * n) * u == w * (n * u) == w * t;
    var m := 4.0 * n;
    PositiveProduct(m, n);
    var v := s / (m * n);
    DivideBack(s, m * n);
    assert v * (m * n) == (v * m) * n;
    CancelFactor(v * m, w, n);
    assert s * v == (w * n) * v == w * (n * v);
    assert n * v == w / 4.0;
    assert s * v == w * (w / 4.0);
    assert s * (u + v) == s * u + s * v;
  }

  lemma {:induction false} CancelFactor(a: real, b: real, n: real)
    requires n > 0.0 && a * n == b * n
    ensures a == b
  {
    assert (a - b) * n == 0.0;
  }

  /** By how much `x` misses being plausible. */
  function Excess(x: real, p: real, w: real): real {
    (x - p) * (x - p) - w * (x * (1.0 - x))
  }

  /** Completing the square, with e = d*c and g = (d*m)^2. */
  lemma {:induction false} SquareCompleted(x: real, p: real, w: real, e: real, g: real)
    requires w >= 0.0 && e == p + w / 2.0 && g == w * (p * (1.0 - p)) + w * w / 4.0
    ensures ((1.0 + w) * x - e) * ((1.0 + w) * x - e) - g == (1.0 + w) * Excess(x, p, w)
  {
    var d, f := 1.0 + w, Excess(x, p, w);
    assert f == d * (x * x) - 2.0 * (e * x) + p * p by {
      assert (x - p) * (x - p) == x * x - 2.0 * (p * x) + p * p;
      assert w * (x * (1.0 - x)) == w * x - w * (x * x);
      assert e * x == p * x + (w * x) / 2.0;
      assert d * (x * x) == x * x + w * (x * x);
    }
    assert e * e - g == d * (p * p) by {
      assert e * e == p * p + w * p + w * w / 4.0;
      assert w * (p * (1.0 - p)) == w * p - w * (p * p);
      assert d * (p * p) == p * p + w * (p * p);
    }
    var y := d * x;
    assert (y - e) * (y - e) == y * y - 2.0 * (y * e) + e * e;
    assert y * y == d * (d * (x * x));
    assert y * e == d * (e * x);
  }

  lemma {:induction false} CompleteSquare(x: real, p: real, w: real, e: real, g: real)
    requires w >= 0.0 && e == p + w / 2.0 && g == w * (p * (1.0 - p)) + w * w / 4.0
    ensures Plausible(x, p, w) <==> ((1.0 + w) * x - e) * ((1.0 + w) * x - e) <= g
    ensures Excess(x, p, w) == 0.0 <==> ((1.0 + w) * x - e) * ((1.0 + w) * x - e) == g
  {
    SquareCompleted(x, p, w, e, g);
    SignOfProduct(1.0 + w, Excess(x, p, w));
    ZeroProduct(1.0 + w, Excess(x, p, w));
  }

  lemma {:induction false} ZeroProduct(d: real, f: real)
    requires d > 0.0
    ensures d * f == 0.0 <==> f == 0.0
  {
  }

  lemma {:induction false} SquaresEqual(a: real, b: real)
    ensures a * a == b * b <==> a == b || a == -b
  {
    assert a * a - b * b == (a - b) * (a + b);
    if a != b && a != -b {
      assert (a - b) * (a + b) != 0.0;
    }
  }

  lemma {:induction false} SignOfProduct(d: real, f: real)
    requires d > 0.0
    ensures d * f <= 0.0 <==> f <= 0.0
  {
  }

  lemma {:induction false} ScaleOrder(d: real, a: real, b: real)
    requires d > 0.0
    ensures d * a <= d * b <==> a <= b
  {
    SignOfProduct(d, a - b);
    assert d * (a - b) == d * a - d * b;
  }

  function Weight(total: int, z: real): real
    requires total > 0
  {
    (z * z) / total as real
  }

  function Rate(successes: int, total: int): real
    requires total > 0
  {
    successes as real / total as real
  }

  lemma {:induction false} RateInRange(successes: int, total: int)
    requires Counts(successes, total)
    ensures 0.0 <= Rate(successes, total) <= 1.0
  {
    var p, n := Rate(successes, total), total as real;
    DivideBack(successes as real, n);
    assert p * n == successes as real;
  }

  predicate RootFor(successes: int, total: int, z: real, root: real)
    requires total > 0
  {
    IsRoot(root, Radicand(Rate(successes, total), total as real, z))
  }

  lemma {:induction false} ScaledEnds(c: real, m: real, p: real, w: real, x: real)
    requires w >= 0.0 && (1.0 + w) * c == p + w / 2.0
    requires (1.0 + w) * m >= 0.0
    requires ((1.0 + w) * m) * ((1.0 + w) * m) == w * (p * (1.0 - p)) + w * w / 4.0
    ensures m >= 0.0 && (c - m <= x <= c + m <==> Plausible(x, p, w))
  {
    var d := 1.0 + w;
    var e, f, y := d * c, d * m, d * x;
    CompleteSquare(x, p, w, e, f * f);
    SquareAtMost(y - e, f);
    assert d * (c - m) == e - f && d * (c + m) == e + f;
    ScaleOrder(d, 0.0, m);
    ScaleOrder(d, c - m, x);
    ScaleOrder(d, x, c + m);
  }

  lemma {:induction false} ScaledRoots(c: real, m: real, p: real, w: real, x: real)
    requires w >= 0.0 && (1.0 + w) * c == p + w / 2.0
    requires ((1.0 + w) * m) * ((1.0 + w) * m) == w * (p * (1.0 - p)) + w * w / 4.0
    ensures Excess(x, p, w) == 0.0 <==> x == c - m || x == c + m
  {
    var d := 1.0 + w;
    var e, f, y := d * c, d * m, d * x;
    CompleteSquare(x, p, w, e, f * f);
    SquaresEqual(y - e, f);
    assert d * (c - m) == e - f && d * (c + m) == e + f;
    SameScaled(d, x, c - m);
    SameScaled(d, x, c + m);
  }

  lemma {:induction false} SameScaled(d: real, a: real, b: real)
    requires d > 0.0
    ensures d * a == d * b <==> a == b
  {
    ZeroProduct(d, a - b);
    assert d * (a - b) == d * a - d * b;
  }

  /** Before clamping: the ends are the roots of the quadratic. */
  lemma {:induction false} RawEnds(successes: int, total: int, z: real, root: real, x: real)
    requires Counts(successes, total) && z >= 0.0 && RootFor(successes, total, z, root)
    ensures Weight(total, z) >= 0.0
    ensures var p, n := Rate(successes, total), total as real;
            var c, m := Center(p, n, z), Margin(n, z, root);
            && m >= 0.0 && (c - m <= x <= c + m <==> Plausible(x, p, Weight(total, z)))
            && (Excess(x, p, Weight(total, z)) == 0.0 <==> x == c - m || x == c + m)
  {
    var p, n, w := Rate(successes, total), total as real, Weight(total, z);
    CenterScaled(p, n, z);
    MarginScaled(p, n, z, root);
    ScaledEnds(Center(p, n, z), Margin(n, z, root), p, w, x);
    ScaledRoots(Center(p, n, z), Margin(n, z, root), p, w, x);
  }

  lemma {:induction false} PlausibleInRange(x: real, p: real, w: real)
    requires w >= 0.0 && 0.0 <= p <= 1.0 && Plausible(x, p, w)
    ensures 0.0 <= x <= 1.0
  {
    if x < 0.0 || x > 1.0 {
      OutsideIsNegative(x);
      SquareBeats(x - p, w, x * (1.0 - x));
    }
  }

  lemma {:induction false} OutsideIsNegative(x: real)
    requires x < 0.0 || x > 1.0
    ensures x * (1.0 - x) < 0.0
  {
    if x < 0.0 {
      PositiveProduct(-x, 1.0 - x);
      assert (-x) * (1.0 - x) == -(x * (1.0 - x));
    } else {
      PositiveProduct(x, x - 1.0);
      assert x * (x - 1.0) == -(x * (1.0 - x));
    }
  }

  lemma {:induction false} SquareBeats(y: real, w: real, t: real)
    requires y != 0.0 && w >= 0.0 && t < 0.0
    ensures y * y > w * t
  {
    var s := PositiveSquare(y);
    var r := NonPositiveProduct(w, t);
    assert s > r;
  }

  lemma {:induction false} NonPositiveProduct(a: real, b: real) returns (r: real)
    requires a >= 0.0 && b <= 0.0
    ensures r == a * b && r <= 0.0
  {
    r := a * b;
  }

  /** The interval holds exactly the plausible rates; its clamps change nothing, the ends are exactly
      the roots of the quadratic, and the observed rate is always inside. */
  lemma {:induction false} WilsonCharacterised(successes: int, total: int, z: real, root: real)
    requires Counts(successes, total) && z >= 0.0 && RootFor(successes, total, z, root)
    ensures var r := ScoreInterval(successes, total, z, root);
            && 0.0 <= r.low <= r.rate <= r.high <= 1.0
            && (forall x :: r.low <= x <= r.high <==> Plausible(x, r.rate, Weight(total, z)))
            && (forall x :: x == r.low || x == r.high <==> Excess(x, r.rate, Weight(total, z)) == 0.0)
    ensures var p, n := Rate(successes, total), total as real;
            Weight(total, z) >= 0.0
            && ScoreInterval(successes, total, z, root)
               == Interval(p, Center(p, n, z) - Margin(n, z, root), Center(p, n, z) + Margin(n, z, root))
  {
    var p, n, w := Rate(successes, total), total as real, Weight(total, z);
    RateInRange(successes, total);
    RawEnds(successes, total, z, root, p);
    var c, m := Center(p, n, z), Margin(n, z, root);
    RawEnds(successes, total, z, root, c - m);
    RawEnds(successes, total, z, root, c + m);
    PlausibleInRange(c - m, p, w);
    PlausibleInRange(c + m, p, w);
    assert Plausible(p, p, w) by {
      ProductNonNegative(p, 1.0 - p);
      ProductNonNegative(w, p * (1.0 - p));
    }
    forall x
      ensures c - m <= x <= c + m <==> Plausible(x, p, w)
      ensures x == c - m || x == c + m <==> Excess(x, p, w) == 0.0
    {
      RawEnds(successes, total, z, root, x);
    }
  }

  // ----- comparing intervals -----

  /** The lower end cannot fall when the rate rises. */
  lemma {:induction false} LowEndRises(low: real, high: real, p: real, low': real, high': real, p': real, w: real)
    requires w >= 0.0 && p <= p' && low <= p <= high && low' <= p' <= high'
    requires forall x :: low <= x <= high <==> Plausible(x, p, w)
    requires forall x :: low' <= x <= high' <==> Plausible(x, p', w)
    ensures low <= low'
  {
    if low' < low {
      var mid := (low' + low) / 2.0;
      assert low' <= mid < low;
      assert (mid - p) * (mid - p) == (p - mid) * (p - mid);
      assert (mid - p') * (mid - p') == (p' - mid) * (p' - mid);
      CloserIsSmaller(p - mid, p' - mid);
      assert Plausible(mid, p', w);
      assert Plausible(mid, p, w);
    }
  }

  lemma {:induction false} HighEndRises(low: real, high: real, p: real, low': real, high': real, p': real, w: real)
    requires w >= 0.0 && p <= p' && low <= p <= high && low' <= p' <= high'
    requires forall x :: low <= x <= high <==> Plausible(x, p, w)
    requires forall x :: low' <= x <= high' <==> Plausible(x, p', w)
    ensures high <= high'
  {
    if high' < high {
      var mid := (high' + high) / 2.0;
      assert high' < mid <= high;
      CloserIsSmaller(mid - p', mid - p);
      assert Plausible(mid, p, w);
      assert Plausible(mid, p', w);
    }
  }

  lemma {:induction false} CloserIsSmaller(a: real, b: real)
    requires 0.0 <= a <= b
    ensures a * a <= b * b
  {
    SquareAtMost(a, b);
  }

  /** At a fixed total both ends are non-decreasing in the number of successes. */
  lemma {:induction false} WilsonMonotone(successes: int, successes': int, total: int, z: real, root: real, root': real)
    requires Counts(successes, total) && Counts(successes', total) && successes <= successes' && z >= 0.0
    requires RootFor(successes, total, z, root) && RootFor(successes', total, z, root')
    ensures var a, b := ScoreInterval(successes, total, z, root), ScoreInterval(successes', total, z, root');
            a.low <= b.low && a.high <= b.high
  {
    var a, b := ScoreInterval(successes, total, z, root), ScoreInterval(successes', total, z, root');
    var w := Weight(total, z);
    WilsonCharacterised(successes, total, z, root);
    WilsonCharacterised(successes', total, z, root');
    RateMonotone(successes, successes', total);
    LowEndRises(a.low, a.high, a.rate, b.low, b.high, b.rate, w);
    HighEndRises(a.low, a.high, a.rate, b.low, b.high, b.rate, w);
  }

  lemma {:induction false} RateMonotone(successes: int, successes': int, total: int)
    requires total > 0 && successes <= successes'
    ensures Rate(successes, total) <= Rate(successes', total)
  {
    var n := total as real;
    DivideBack(successes as real, n);
    DivideBack(successes' as real, n);
    ScaleOrder(n, Rate(successes, total), Rate(successes', total));
    assert n * Rate(successes, total) == successes as real;
    assert n * Rate(successes', total) == successes' as real;
  }

  lemma {:induction false} RateMirror(successes: int, total: int)
    requires total > 0
    ensures Rate(total - successes, total) == 1.0 - Rate(successes, total)
  {
    var n := total as real;
    DivideBack(successes as real, n);
    DivideBack((total - successes) as real, n);
    CancelFactor(Rate(total - successes, total), 1.0 - Rate(successes, total), n);
  }

  /** Swapping successes and failures mirrors the interval. */
  lemma {:induction false} WilsonMirror(successes: int, total: int, z: real, root: real, root': real)
    requires Counts(successes, total) && z >= 0.0
    requires RootFor(successes, total, z, root) && RootFor(total - successes, total, z, root')
    ensures var a, b := ScoreInterval(successes, total, z, root), ScoreInterval(total - successes, total, z, root');
            b == Interval(1.0 - a.rate, 1.0 - a.high, 1.0 - a.low)
  {
    var p, n := Rate(successes, total), total as real;
    RateMirror(successes, total);
    RadicandMirror(p, n, z);
    RootUnique(root, root', Radicand(p, n, z));
    WilsonCharacterised(successes, total, z, root);
    WilsonCharacterised(total - successes, total, z, root');
    CenterMirror(p, n, z);
  }

  lemma {:induction false} RadicandMirror(p: real, n: real, z: real)
    requires n > 0.0
    ensures Radicand(1.0 - p, n, z) == Radicand(p, n, z)
  {
    assert (1.0 - p) * (1.0 - (1.0 - p)) == p * (1.0 - p);
  }

  lemma {:induction false} CenterMirror(p: real, n: real, z: real)
    requires n > 0.0
    ensures (z * z) / n >= 0.0
    ensures Center(1.0 - p, n, z) == 1.0 - Center(p, n, z)
  {
    CenterScaled(p, n, z);
    CenterScaled(1.0 - p, n, z);
    var d, c, c' := 1.0 + (z * z) / n, Center(p, n, z), Center(1.0 - p, n, z);
    assert d * (c + c') == d * c + d * c';
    CancelFactor(c + c', 1.0, d);
  }

  /** Two totals with the same rate: the larger sample gives the narrower interval. */
  lemma {:induction false} WilsonNarrows(successes: int, total: int, factor: int, z: real, root: real, root': real)
    requires Counts(successes, total) && factor >= 1 && z >= 0.0
    requires total * factor > 0 && Counts(successes * factor, total * factor)
    requires RootFor(successes, total, z, root) && RootFor(successes * factor, total * factor, z, root')
    ensures var a, b := ScoreInterval(successes, total, z, root),
                        ScoreInterval(successes * factor, total * factor, z, root');
            a.low <= b.low && b.high <= a.high
  {
    var a := ScoreInterval(successes, total, z, root);
    var b := ScoreInterval(successes * factor, total * factor, z, root');
    WilsonCharacterised(successes, total, z, root);
    WilsonCharacterised(successes * factor, total * factor, z, root');
    SameRate(successes, total, factor);
    WeightFalls(total, factor, z);
    StaysPlausible(b.low, a.rate, Weight(total * factor, z), Weight(total, z));
    StaysPlausible(b.high, a.rate, Weight(total * factor, z), Weight(total, z));
  }

  lemma {:induction false} SameRate(successes: int, total: int, factor: int)
    requires total > 0 && factor >= 1 && total * factor > 0
    ensures Rate(successes * factor, total * factor) == Rate(successes, total)
  {
    var n, k := total as real, factor as real;
    DivideBack(successes as real, n);
    DivideBack((successes * factor) as real, (total * factor) as real);
    assert (total * factor) as real == n * k && (successes * factor) as real == successes as real * k;
    var p := Rate(successes, total);
    assert p * (n * k) == (p * n) * k;
    CancelFactor(Rate(successes * factor, total * factor), p, n * k);
  }

  lemma {:induction false} WeightFalls(total: int, factor: int, z: real)
    requires total > 0 && factor >= 1 && total * factor > 0
    ensures 0.0 <= Weight(total * factor, z) <= Weight(total, z)
  {
    var n, k := total as real, factor as real;
    var v, w := Weight(total * factor, z), Weight(total, z);
    SquareOverPositive(z, n);
    SquareOverPositive(z, (total * factor) as real);
    assert (total * factor) as real == n * k;
    DivideBack(z * z, n);
    DivideBack(z * z, n * k);
    assert v * (n * k) == (v * k) * n;
    CancelFactor(v * k, w, n);
    assert v * k == v + v * (k - 1.0);
    ProductNonNegative(v, k - 1.0);
  }

  lemma {:induction false} StaysPlausible(x: real, p: real, v: real, w: real)
    requires 0.0 <= v <= w && 0.0 <= x <= 1.0 && Plausible(x, p, v)
    ensures Plausible(x, p, w)
  {
    ProductNonNegative(x, 1.0 - x);
    ProductNonNegative(w - v, x * (1.0 - x));
    assert w * (x * (1.0 - x)) == v * (x * (1.0 - x)) + (w - v) * (x * (1.0 - x));
  }

  // ----- the two callers' view -----

  /** The interval, or an error for counts that make no sense. */
  function WilsonInterval(successes: int, total: int, z: real, root: real): Option<Interval> {
    if total <= 0 || successes < 0 || successes > total then None else Some(ScoreInterval(successes, total, z, root))
  }

  /** The record never claims significance: that takes a test declared beforehand. */
  datatype Comparison = Comparison(
    baseline: Interval, candidate: Interval, delta: real, claimsSignificance: bool, note: string)

  const NOTE :=
    "NODE-70 records uncertainty; significance claims require a predeclared test and sufficient sample size."

  function CompareSuccessRates(baseline: Option<Interval>, candidate: Option<Interval>): Option<Comparison> {
    if baseline.None? || candidate.None? then None else
    Some(Comparison(baseline.value, candidate.value, candidate.value.rate - baseline.value.rate, false, NOTE))
  }

  /** A comparison exists exactly for two valid pairs of counts; its difference of rates is the middle of a
      range that the interval ends span, so intervals that do not overlap settle its sign. */
  lemma {:induction false} ComparisonMeans(s: int, n: int, s': int, n': int, z: real, root: real, root': real)
    requires z >= 0.0
    requires Counts(s, n) ==> RootFor(s, n, z, root)
    requires Counts(s', n') ==> RootFor(s', n', z, root')
    ensures var c := CompareSuccessRates(WilsonInterval(s, n, z, root), WilsonInterval(s', n', z, root'));
            && (c.Some? <==> Counts(s, n) && Counts(s', n'))
            && (c.Some? ==> c.value.candidate.low - c.value.baseline.high <= c.value.delta
                            <= c.value.candidate.high - c.value.baseline.low
                            && !c.value.claimsSignificance && c.value.note == NOTE)
  {
    if Counts(s, n) && Counts(s', n') {
      WilsonCharacterised(s, n, z, root);
      WilsonCharacterised(s', n', z, root');
    }
  }

  // ----- in the counts themselves -----

  /** The rate is the one that times the total gives the successes. */
  lemma {:induction false} RateMeans(successes: int, total: int, p: real)
    requires total > 0
    ensures p == Rate(successes, total) <==> p * total as real == successes as real
  {
    DivideBack(successes as real, total as real);
    if p * total as real == successes as real {
      CancelFactor(p, Rate(successes, total), total as real);
    }
  }

  /** Plausible, multiplied out: the distance of n * x from the successes, against z and the variance. */
  lemma {:induction false} PlausibleInCounts(successes: int, total: int, z: real, x: real)
    requires total > 0
    ensures var n, s := total as real, successes as real;
            Plausible(x, Rate(successes, total), Weight(total, z)) <==>
            (n * x - s) * (n * x - s) <= z * z * n * (x * (1.0 - x))
  {
    var n, s, p, w, q := total as real, successes as real, Rate(successes, total), Weight(total, z), x * (1.0 - x);
    RateMeans(successes, total, p);
    DivideBack(z * z, n);
    var _ := ProductOf(n, n);
    ScaleOrder(n * n, (x - p) * (x - p), w * q);
    SquareScaled(n, x - p);
    WeightScaled(n, w, q, z * z);
    assert n * (x - p) == n * x - s;
  }

  lemma {:induction false} SquareScaled(n: real, y: real)
    ensures n * n * (y * y) == (n * y) * (n * y)
  {
  }

  lemma {:induction false} WeightScaled(n: real, w: real, q: real, zz: real)
    requires w * n == zz
    ensures n * n * (w * q) == zz * n * q
  {
    assert n * n * (w * q) == (w * n) * (n * q);
  }

  /** The square root in the formula, multiplied out. */
  lemma {:induction false} RootInCounts(successes: int, total: int, z: real, root: real)
    requires total > 0
    ensures var n, s := total as real, successes as real;
            RootFor(successes, total, z, root) <==>
            root >= 0.0 && 4.0 * (n * n * n) * (root * root) == 4.0 * (s * (n - s)) + z * z * n
  {
    var n, s, p := total as real, successes as real, Rate(successes, total);
    RateMeans(successes, total, p);
    RadicandInCounts(p, n, z, s);
    var cube := 4.0 * (n * n * n);
    PositiveCube(n);
    if cube * (root * root) == cube * Radicand(p, n, z) {
      CancelCube(root * root, Radicand(p, n, z), cube);
    }
  }

  lemma {:induction false} PositiveCube(n: real)
    requires n > 0.0
    ensures 4.0 * (n * n * n) > 0.0
  {
    var square := ProductOf(n, n);
    var cube := ProductOf(square, n);
    assert n * n * n == cube;
  }

  lemma {:induction false} CancelCube(a: real, b: real, cube: real)
    requires cube > 0.0 && cube * a == cube * b
    ensures a == b
  {
    CancelFactor(a, b, cube);
  }

  lemma {:induction false} RadicandInCounts(p: real, n: real, z: real, s: real)
    requires n > 0.0 && p * n == s
    ensures 4.0 * (n * n * n) * Radicand(p, n, z) == 4.0 * (s * (n - s)) + z * z * n
  {
    var square := ProductOf(n, n);
    assert 4.0 * n * n == 4.0 * square;
    var u, v := p * (1.0 - p) / n, (z * z) / (4.0 * n * n);
    DivideBack(p * (1.0 - p), n);
    DivideBack(z * z, 4.0 * n * n);
    assert u * n == p * (1.0 - p) && v * (4.0 * n * n) == z * z;
    FirstTerm(u, p, n, s);
    SecondTerm(v, n, z * z);
    assert 4.0 * (n * n * n) * (u + v) == 4.0 * (n * n * n) * u + 4.0 * (n * n * n) * v;
  }

  lemma {:induction false} FirstTerm(u: real, p: real, n: real, s: real)
    requires u * n == p * (1.0 - p) && p * n == s
    ensures 4.0 * (n * n * n) * u == 4.0 * (s * (n - s))
  {
    assert n * n * n * u == n * n * (u * n);
    assert n * n * (p * (1.0 - p)) == (p * n) * (n - p * n);
  }

  lemma {:induction false} SecondTerm(v: real, n: real, zz: real)
    requires v * (4.0 * n * n) == zz
    ensures 4.0 * (n * n * n) * v == zz * n
  {
    assert 4.0 * (n * n * n) * v == v * (4.0 * n * n) * n;
  }

  /** The interval, in the counts: it holds exactly the rates `x` for which n * x is within z standard deviations of
      the successes. */
  lemma {:induction false} WilsonInCounts(successes: int, total: int, z: real, root: real, x: real)
    requires Counts(successes, total) && z >= 0.0 && root >= 0.0
    requires var n, s := total as real, successes as real;
             4.0 * (n * n * n) * (root * root) == 4.0 * (s * (n - s)) + z * z * n
    ensures var n, s, r := total as real, successes as real, ScoreInterval(successes, total, z, root);
            && r.rate * n == s
            && (r.low <= x <= r.high <==> (n * x - s) * (n * x - s) <= z * z * n * (x * (1.0 - x)))
  {
    RootInCounts(successes, total, z, root);
    WilsonCharacterised(successes, total, z, root);
    RateMeans(successes, total, Rate(successes, total));
    PlausibleInCounts(successes, total, z, x);
  }

  /** A comparison holds the two intervals in their places, the difference of the candidate's rate and the baseline's,
      and makes no claim. */
  lemma {:induction false} ComparisonRecords(s: int, n: int, s': int, n': int, z: real, root: real, root': real)
    requires Counts(s, n) && Counts(s', n')
    ensures var c := CompareSuccessRates(WilsonInterval(s, n, z, root), WilsonInterval(s', n', z, root'));
            && c.Some?
            && c.value.baseline == ScoreInterval(s, n, z, root) && c.value.candidate == ScoreInterval(s', n', z, root')
            && (c.value.delta > 0.0 <==> s' * n > s * n')
            && (c.value.delta + Rate(s, n)) * n' as real == s' as real
            && !c.value.claimsSignificance
            && c.value.note ==
              "NODE-70 records uncertainty; significance claims require a predeclared test and sufficient sample size."
  {
    RateMeans(s, n, Rate(s, n));
    RateMeans(s', n', Rate(s', n'));
    RatesCompare(s, n, s', n');
  }

  lemma {:induction false} RatesCompare(s: int, n: int, s': int, n': int)
    requires n > 0 && n' > 0
    ensures Rate(s', n') > Rate(s, n) <==> s' * n > s * n'
  {
    var p, q, m, m' := Rate(s, n), Rate(s', n'), n as real, n' as real;
    RateMeans(s, n, p);
    RateMeans(s', n', q);
    PositiveProduct(m, m');
    ScaleOrder(m * m', q, p);
    assert m * m' * p == (p * m) * m' && m * m' * q == (q * m') * m;
    assert (s' * n) as real == (q * m') * m && (s * n') as real == (p * m) * m';
  }
}
