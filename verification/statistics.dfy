/** The summary statistics of the analysis. The source works in floating
    point and takes square roots (`std_issues`, the correlation's
    denominator). The model is exact: a value's deviation from the mean is
    scaled by the number of values, `n * x - sum`, so that every sum of
    squared or multiplied deviations is an integer. The variance is such a
    sum over `n^3`, the outlier test is squared and multiplied out, and the
    correlation keeps its integer parts. */
module Statistics {
  import opened Seqs
  import opened StableSort
  import opened Types

  function Sum(xs: seq<int>): int {
    if xs == [] then 0 else Sum(xs[..|xs| - 1]) + xs[|xs| - 1]
  }

  /** `sum / length || 0`: the arithmetic mean, 0 for no values. */
  function Mean(xs: seq<int>): real {
    if |xs| == 0 then 0.0 else Sum(xs) as real / |xs| as real
  }

  /** For `n` values summing to `s`, `n` times the deviation of `x` from their mean. */
  function Dev(x: int, n: int, s: int): int {
    n * x - s
  }

  /** The sum of `Dev(x, n, sx) * Dev(y, n, sy)` over paired values. */
  function CoDev(xs: seq<int>, ys: seq<int>, n: int, sx: int, sy: int): int
    requires |xs| == |ys|
  {
    if xs == [] then 0
    else
      CoDev(xs[..|xs| - 1], ys[..|ys| - 1], n, sx, sy)
        + Dev(xs[|xs| - 1], n, sx) * Dev(ys[|ys| - 1], n, sy)
  }

  /** The sum of `Dev(x, n, s)` squared. */
  function SqDev(xs: seq<int>, n: int, s: int): int {
    CoDev(xs, xs, n, s, s)
  }

  /** `n^2` times the sum of the squared deviations of the values from their mean. */
  function SumSquares(xs: seq<int>): int {
    SqDev(xs, |xs|, Sum(xs))
  }

  /** Population variance, the mean squared deviation: `SumSquares / n^3`.
      The source's `std_issues` is its square root. */
  function Variance(xs: seq<int>): real {
    if |xs| == 0 then 0.0 else SumSquares(xs) as real / (|xs| * |xs| * |xs|) as real
  }

  /** The sum of the squared distances of the values from `m`, in reals. */
  function SquaredDistance(xs: seq<int>, m: real): real {
    if xs == [] then 0.0
    else SquaredDistance(xs[..|xs| - 1], m) + (xs[|xs| - 1] as real - m) * (xs[|xs| - 1] as real - m)
  }

  /** The textbook population variance: the squared distances from the
      mean, divided by their number; 0 for no values. */
  function PopulationVariance(xs: seq<int>): real {
    if |xs| == 0 then 0.0 else SquaredDistance(xs, Mean(xs)) / |xs| as real
  }

  /** All values are equal. */
  predicate Constant(xs: seq<int>) {
    forall i, j :: 0 <= i < |xs| && 0 <= j < |xs| ==> xs[i] == xs[j]
  }

  function Neg(x: int): int {
    -x
  }

  /** `sort((a, b) => a - b)`. */
  function SortAscending(xs: seq<int>): (r: seq<int>)
    ensures |r| == |xs|
  {
    SortDescPermutes(xs, Neg, _ => true);
    SortDesc(xs, Neg)
  }

  /** `sorted[Math.floor(n / 2)] || 0`: the upper median, 0 for no values. */
  function Median(xs: seq<int>): int {
    if |xs| == 0 then 0 else SortAscending(xs)[|xs| / 2]
  }

  function Abs(d: int): int {
    if d < 0 then -d else d
  }

  /** `Math.abs((x - mean) / (std || 1)) > 2` for a value whose scaled
      deviation is `d`, among `n` values whose `SumSquares` is `q`. When
      `q > 0` the divisor is the square root of `q / n^3`; squared and
      multiplied by `n^3` the test reads `n * d^2 > 4 * q`. When `q = 0`
      the divisor falls back to 1 and the test reads `|d| > 2 * n`. */
  predicate IsOutlier(d: int, n: int, q: int) {
    if q > 0 then n * (d * d) > 4 * q else Abs(d) > 2 * n
  }

  function OutlierCount(xs: seq<int>, n: int, s: int, q: int): nat {
    Count(xs, x => IsOutlier(Dev(x, n, s), n, q))
  }

  /** The number of values whose z-score exceeds 2 in absolute value. */
  function Outliers(xs: seq<int>): nat {
    OutlierCount(xs, |xs|, Sum(xs), SumSquares(xs))
  }

  /** The test the source applies, on the reals: `|x - mean| / std > 2`,
      squared where `std > 0`; where the variance is 0 the divisor is 1. */
  predicate ZScoreOutlier(xs: seq<int>, x: int) {
    var D, V := x as real - Mean(xs), PopulationVariance(xs);
    if V > 0.0 then D * D > 4.0 * V else D > 2.0 || D < -2.0
  }

  /** Pearson's coefficient of paired values, or `Zero` when the denominator
      `sqrt(sxx * syy)` is 0. */
  function PearsonOf(xs: seq<int>, ys: seq<int>): Correlation
    requires |xs| == |ys|
  {
    var sxx, syy := SumSquares(xs), SumSquares(ys);
    if sxx * syy == 0 then Zero else Pearson(CoDev(xs, ys, |xs|, Sum(xs), Sum(ys)), sxx, syy)
  }

  lemma SquareNonNegative(d: int)
    ensures d * d >= 0
  {
  }

  lemma SquarePositive(d: int)
    ensures d != 0 ==> d * d > 0
  {
  }

  lemma CoDevStep(xs: seq<int>, ys: seq<int>, n: int, sx: int, sy: int)
    requires |xs| == |ys| > 0
    ensures CoDev(xs, ys, n, sx, sy)
      == CoDev(xs[..|xs| - 1], ys[..|ys| - 1], n, sx, sy) + Dev(xs[|xs| - 1], n, sx) * Dev(ys[|ys| - 1], n, sy)
  {
  }

  /** The scaled deviation is `n` times the deviation from the mean. */
  lemma DevScalesDeviation(xs: seq<int>, x: int)
    requires |xs| > 0
    ensures Dev(x, |xs|, Sum(xs)) as real == |xs| as real * (x as real - Mean(xs))
  {
  }

  lemma {:induction false} SqDevNonNegative(xs: seq<int>, n: int, s: int)
    ensures SqDev(xs, n, s) >= 0
    decreases |xs|
  {
    if xs != [] {
      SqDevNonNegative(xs[..|xs| - 1], n, s);
      SquareNonNegative(Dev(xs[|xs| - 1], n, s));
    }
  }

  /** Values all at the mean leave no squared deviation. */
  lemma {:induction false} SqDevZero(xs: seq<int>, n: int, s: int)
    requires forall i :: 0 <= i < |xs| ==> Dev(xs[i], n, s) == 0
    ensures SqDev(xs, n, s) == 0
    decreases |xs|
  {
    if xs != [] {
      var xs' := xs[..|xs| - 1];
      assert forall i :: 0 <= i < |xs'| ==> xs'[i] == xs[i];
      SqDevZero(xs', n, s);
    }
  }

  /** Each value's own squared deviation is part of the sum. */
  lemma {:induction false} SqDevAtLeast(xs: seq<int>, n: int, s: int, i: nat)
    requires i < |xs|
    ensures SqDev(xs, n, s) >= Dev(xs[i], n, s) * Dev(xs[i], n, s)
    decreases |xs|
  {
    var xs' := xs[..|xs| - 1];
    SquareNonNegative(Dev(xs[|xs| - 1], n, s));
    if i == |xs| - 1 {
      SqDevNonNegative(xs', n, s);
    } else {
      assert xs'[i] == xs[i];
      SqDevAtLeast(xs', n, s, i);
    }
  }

  /** Squared deviations sum to zero exactly when every value sits at the mean. */
  lemma SqDevZeroIff(xs: seq<int>, n: int, s: int)
    ensures SqDev(xs, n, s) == 0 <==> forall i :: 0 <= i < |xs| ==> Dev(xs[i], n, s) == 0
  {
    if forall i :: 0 <= i < |xs| ==> Dev(xs[i], n, s) == 0 {
      SqDevZero(xs, n, s);
    } else {
      var i :| 0 <= i < |xs| && Dev(xs[i], n, s) != 0;
      SqDevAtLeast(xs, n, s, i);
      SquarePositive(Dev(xs[i], n, s));
    }
  }

  lemma {:induction false} SumConstant(xs: seq<int>, c: int)
    requires forall i :: 0 <= i < |xs| ==> xs[i] == c
    ensures Sum(xs) == |xs| * c
    decreases |xs|
  {
    if xs != [] {
      SumConstant(xs[..|xs| - 1], c);
    }
  }

  /** The mean of equal values is that value. */
  lemma MeanConstant(xs: seq<int>)
    requires |xs| > 0 && Constant(xs)
    ensures Mean(xs) == xs[0] as real
  {
    SumConstant(xs, xs[0]);
    assert Sum(xs) as real == |xs| as real * xs[0] as real;
  }

  lemma Cancel(n: int, a: int, b: int)
    requires n > 0 && n * a == n * b
    ensures a == b
  {
  }

  /** Every value sits at the mean exactly when all values are equal. */
  lemma AtMeanIffConstant(xs: seq<int>)
    ensures (forall i :: 0 <= i < |xs| ==> Dev(xs[i], |xs|, Sum(xs)) == 0) <==> Constant(xs)
  {
    var n, s := |xs|, Sum(xs);
    if Constant(xs) && n > 0 {
      SumConstant(xs, xs[0]);
      forall i | 0 <= i < n ensures Dev(xs[i], n, s) == 0 {
        assert xs[i] == xs[0];
      }
    }
    if forall i :: 0 <= i < n ==> Dev(xs[i], n, s) == 0 {
      forall i, j | 0 <= i < n && 0 <= j < n ensures xs[i] == xs[j] {
        assert Dev(xs[i], n, s) == 0 && Dev(xs[j], n, s) == 0;
        Cancel(n, xs[i], xs[j]);
      }
    }
  }

  /** The scaled sum of squares is never negative, and is zero exactly when all values are equal. */
  lemma SumSquaresZeroIff(xs: seq<int>)
    ensures SumSquares(xs) >= 0
    ensures SumSquares(xs) == 0 <==> Constant(xs)
  {
    SqDevNonNegative(xs, |xs|, Sum(xs));
    SqDevZeroIff(xs, |xs|, Sum(xs));
    AtMeanIffConstant(xs);
  }

  /** The variance is never negative, and is zero exactly when all values are equal. */
  lemma VarianceZeroIffConstant(xs: seq<int>)
    ensures Variance(xs) >= 0.0
    ensures Variance(xs) == 0.0 <==> Constant(xs)
  {
    SumSquaresZeroIff(xs);
  }

  /** Summed over the outliers alone, the scaled squared deviations, times
      `n`, exceed four times `q` per outlier. */
  lemma {:induction false} OutlierMass(xs: seq<int>, n: int, s: int, q: int)
    requires n >= 0 && q > 0
    ensures OutlierCount(xs, n, s, q) * (4 * q) <= n * SqDev(xs, n, s)
    decreases |xs|
  {
    if xs != [] {
      var xs', d := xs[..|xs| - 1], Dev(xs[|xs| - 1], n, s);
      OutlierMass(xs', n, s, q);
      CoDevStep(xs, xs, n, s, s);
      FilterAppend(xs', [xs[|xs| - 1]], x => IsOutlier(Dev(x, n, s), n, q));
      assert xs == xs' + [xs[|xs| - 1]];
      OutlierStep(OutlierCount(xs', n, s, q), SqDev(xs', n, s), n, d, q);
    }
  }

  lemma OutlierStep(c: nat, m: int, n: int, d: int, q: int)
    requires n >= 0 && q > 0 && c * (4 * q) <= n * m
    ensures (c + if IsOutlier(d, n, q) then 1 else 0) * (4 * q) <= n * (m + d * d)
  {
    SquareNonNegative(d);
    assert n * (m + d * d) == n * m + n * (d * d);
    assert n * (d * d) >= 0;
  }

  lemma DivideOut(c: int, q: int, n: int)
    requires q > 0 && c * (4 * q) <= n * q
    ensures 4 * c <= n
  {
  }

  /** Chebyshev's bound: at most a quarter of the values lie more than two
      standard deviations from the mean, and with equal values none do. */
  lemma OutliersAtMostQuarter(xs: seq<int>)
    ensures 4 * Outliers(xs) <= |xs|
    ensures Constant(xs) ==> Outliers(xs) == 0
  {
    var n, s, q := |xs|, Sum(xs), SumSquares(xs);
    SumSquaresZeroIff(xs);
    if q > 0 {
      OutlierMass(xs, n, s, q);
      DivideOut(Outliers(xs), q, n);
    } else {
      SqDevZeroIff(xs, n, s);
      FilterNone(xs, x => IsOutlier(Dev(x, n, s), n, q));
    }
  }

  lemma RealProduct(a: int, b: int)
    ensures (a * b) as real == a as real * b as real
  {
  }

  lemma RealScale(a: real, b: real, c: real)
    requires c > 0.0
    ensures a * c > b * c <==> a > b
  {
    assert a * c - b * c == (a - b) * c;
  }

  lemma RealCancel(a: real, b: real, c: real)
    requires c != 0.0 && a * c == b * c
    ensures a == b
  {
    assert (a - b) * c == 0.0;
  }

  /** Squared, the scaled deviation is `n^2` times the squared distance. */
  lemma DevSquared(x: int, n: int, s: int, m: real)
    requires s as real == n as real * m
    ensures (Dev(x, n, s) * Dev(x, n, s)) as real == (n as real * n as real) * ((x as real - m) * (x as real - m))
  {
    var d := Dev(x, n, s);
    RealProduct(n, x);
    assert d as real == n as real * (x as real - m);
    RealProduct(d, d);
  }

  lemma {:induction false} SqDevScales(xs: seq<int>, n: int, s: int, m: real)
    requires s as real == n as real * m
    ensures SqDev(xs, n, s) as real == (n as real * n as real) * SquaredDistance(xs, m)
    decreases |xs|
  {
    if xs != [] {
      SqDevScales(xs[..|xs| - 1], n, s, m);
      CoDevStep(xs, xs, n, s, s);
      DevSquared(xs[|xs| - 1], n, s, m);
    }
  }

  lemma MeanScales(xs: seq<int>)
    requires |xs| > 0
    ensures Sum(xs) as real == |xs| as real * Mean(xs)
  {
  }

  /** `q / n^3` is `S / n` when `q = n^2 * S`. */
  lemma DivideScaled(q: int, n: int, S: real)
    requires n > 0 && q as real == (n as real * n as real) * S
    ensures q as real / (n * n * n) as real == S / n as real
  {
    var N, V := n as real, q as real / (n * n * n) as real;
    RealProduct(n, n);
    RealProduct(n * n, n);
    assert V * (N * N * N) == (N * N) * S;
    assert (V * N) * (N * N) == S * (N * N);
    RealCancel(V * N, S, N * N);
    RealCancel(V, S / N, N);
  }

  /** `Variance` is the population variance: the divisor is `n`, not the
      sample variance's `n - 1`. */
  lemma VarianceIsPopulationVariance(xs: seq<int>)
    ensures Variance(xs) == PopulationVariance(xs)
  {
    if |xs| > 0 {
      var n, S := |xs|, SquaredDistance(xs, Mean(xs));
      MeanScales(xs);
      SqDevScales(xs, n, Sum(xs), Mean(xs));
      DivideScaled(SumSquares(xs), n, S);
      assert Variance(xs) == SumSquares(xs) as real / (n * n * n) as real;
      assert PopulationVariance(xs) == S / n as real;
    }
  }

  /** `a > b * n` for `a = n * A` reads `A > b`. */
  lemma ScaledAbove(a: int, b: int, n: int, A: real)
    requires n > 0 && a as real == n as real * A
    ensures a > b * n <==> A > b as real
  {
    RealProduct(b, n);
    RealScale(A, b as real, n as real);
  }

  /** With a positive variance `V = q / n^3` and a deviation `D = d / n`,
      the integer test `n * d^2 > 4 * q` is `D^2 > 4 * V`. */
  lemma ZScoreSquared(d: int, n: int, q: int, D: real, V: real)
    requires n > 0 && q > 0
    requires d as real == n as real * D
    requires V == q as real / (n * n * n) as real
    ensures IsOutlier(d, n, q) <==> D * D > 4.0 * V
  {
    var N3 := (n * n * n) as real;
    RealProduct(n * n, n);
    RealProduct(n, n);
    RealProduct(n, d * d);
    RealProduct(d, d);
    assert N3 > 0.0;
    assert V * N3 == q as real;
    assert (n * (d * d)) as real == N3 * (D * D);
    assert (4 * q) as real == N3 * (4.0 * V);
    RealScale(D * D, 4.0 * V, N3);
  }

  /** With no variance, the integer test `|d| > 2 * n` is `|D| > 2`. */
  lemma ZScoreFlat(d: int, n: int, D: real)
    requires n > 0
    requires d as real == n as real * D
    ensures IsOutlier(d, n, 0) <==> D > 2.0 || D < -2.0
  {
    ScaledAbove(d, 2, n, D);
    ScaledAbove(-d, 2, n, -D);
  }

  /** Both cases of the test at once, for `q >= 0`. */
  lemma ZScoreTest(d: int, n: int, q: int, D: real, V: real)
    requires n > 0 && q >= 0
    requires d as real == n as real * D
    requires V == q as real / (n * n * n) as real
    ensures IsOutlier(d, n, q) <==> if V > 0.0 then D * D > 4.0 * V else D > 2.0 || D < -2.0
  {
    RealProduct(n * n, n);
    RealProduct(n, n);
    if q > 0 {
      assert V > 0.0;
      ZScoreSquared(d, n, q, D, V);
    } else {
      assert V == 0.0;
      ZScoreFlat(d, n, D);
    }
  }

  /** The integer outlier test on a value's scaled deviation is the source's
      z-score test on the reals. */
  lemma OutlierIsZScore(xs: seq<int>, x: int)
    requires |xs| > 0
    ensures IsOutlier(Dev(x, |xs|, Sum(xs)), |xs|, SumSquares(xs)) <==> ZScoreOutlier(xs, x)
  {
    VarianceIsPopulationVariance(xs);
    SumSquaresZeroIff(xs);
    DevScalesDeviation(xs, x);
    ZScoreTest(Dev(x, |xs|, Sum(xs)), |xs|, SumSquares(xs), x as real - Mean(xs), Variance(xs));
  }

  /** `Outliers` counts exactly the values whose z-score exceeds 2 in
      absolute value. */
  lemma OutliersAreZScores(xs: seq<int>)
    ensures Outliers(xs) == Count(xs, x => ZScoreOutlier(xs, x))
  {
    var n, s, q := |xs|, Sum(xs), SumSquares(xs);
    forall i | 0 <= i < |xs|
      ensures IsOutlier(Dev(xs[i], n, s), n, q) == ZScoreOutlier(xs, xs[i])
    {
      OutlierIsZScore(xs, xs[i]);
    }
    FilterAgrees(xs, x => IsOutlier(Dev(x, n, s), n, q), x => ZScoreOutlier(xs, x));
  }

  /** Two values one apart from their mean have variance 1. */
  lemma VarianceExample()
    ensures Variance([0, 2]) == 1.0
  {
    var xs := [0, 2];
    assert xs[..1] == [0];
    assert Sum(xs) == 2;
    assert SqDev(xs, 2, 2) == SqDev([0], 2, 2) + 4;
    assert SumSquares(xs) == 8;
  }

  /** Among five zeros and a ten, the ten lies more than two standard
      deviations out. */
  lemma OutliersExample()
    ensures Outliers([0, 0, 0, 0, 0, 10]) == 1
  {
    var zeros := [0, 0, 0, 0, 0];
    ZerosThenTen(zeros);
    assert zeros + [10] == [0, 0, 0, 0, 0, 10];
    ZerosThenTenCount(zeros, 3000);
    assert IsOutlier(Dev(10, 6, 10), 6, 3000);
  }

  /** Among four zeros and a ten, the ten lies exactly two standard
      deviations out, which the strict test does not count. */
  lemma BoundaryExample()
    ensures Outliers([0, 0, 0, 0, 10]) == 0
  {
    var zeros := [0, 0, 0, 0];
    ZerosThenTen(zeros);
    assert zeros + [10] == [0, 0, 0, 0, 10];
    ZerosThenTenCount(zeros, 2000);
    assert !IsOutlier(Dev(10, 5, 10), 5, 2000);
  }

  /** With zeros that are no outliers, only the ten can count. */
  lemma ZerosThenTenCount(zeros: seq<int>, q: int)
    requires forall i :: 0 <= i < |zeros| ==> zeros[i] == 0
    requires q == SumSquares(zeros + [10]) && Sum(zeros + [10]) == 10
    requires !IsOutlier(Dev(0, |zeros| + 1, 10), |zeros| + 1, q)
    ensures Outliers(zeros + [10]) == if IsOutlier(Dev(10, |zeros| + 1, 10), |zeros| + 1, q) then 1 else 0
  {
    var p := x => IsOutlier(Dev(x, |zeros| + 1, 10), |zeros| + 1, q);
    FilterNone(zeros, p);
    FilterAppend(zeros, [10], p);
  }

  /** Zeros followed by a ten: the sum is ten and the scaled squared
      deviations are `k * 10^2` from the zeros plus `(10 * k)^2` from the ten. */
  lemma ZerosThenTen(zeros: seq<int>)
    requires forall i :: 0 <= i < |zeros| ==> zeros[i] == 0
    ensures Sum(zeros + [10]) == 10
    ensures SumSquares(zeros + [10]) == |zeros| * 100 + (10 * |zeros|) * (10 * |zeros|)
  {
    var xs, n := zeros + [10], |zeros| + 1;
    assert xs[..|xs| - 1] == zeros;
    SumZeros(zeros);
    assert Sum(xs) == Sum(zeros) + 10;
    SqDevZeros(zeros, n, 10);
    CoDevStep(xs, xs, n, 10, 10);
    assert Dev(10, n, 10) == 10 * |zeros|;
  }

  lemma {:induction false} SumZeros(zeros: seq<int>)
    requires forall i :: 0 <= i < |zeros| ==> zeros[i] == 0
    ensures Sum(zeros) == 0
    decreases |zeros|
  {
    if zeros != [] {
      SumZeros(zeros[..|zeros| - 1]);
    }
  }

  lemma {:induction false} SqDevZeros(zeros: seq<int>, n: int, s: int)
    requires forall i :: 0 <= i < |zeros| ==> zeros[i] == 0
    ensures SqDev(zeros, n, s) == |zeros| * (s * s)
    decreases |zeros|
  {
    if zeros != [] {
      SqDevZeros(zeros[..|zeros| - 1], n, s);
      CoDevStep(zeros, zeros, n, s, s);
    }
  }

  lemma SortAscendingFacts(xs: seq<int>, p: int -> bool)
    ensures forall i, j :: 0 <= i <= j < |xs| ==> SortAscending(xs)[i] <= SortAscending(xs)[j]
    ensures multiset(SortAscending(xs)) == multiset(xs)
    ensures Count(SortAscending(xs), p) == Count(xs, p)
  {
    SortDescSorted(xs, Neg);
    SortDescPermutes(xs, Neg, p);
    var t := SortAscending(xs);
    forall i, j | 0 <= i <= j < |xs| ensures t[i] <= t[j] {
      assert Neg(t[i]) >= Neg(t[j]);
    }
  }

  /** The upper median is one of the values. */
  lemma MedianIsValue(xs: seq<int>)
    requires |xs| > 0
    ensures exists i :: 0 <= i < |xs| && xs[i] == Median(xs)
  {
    SortAscendingFacts(xs, _ => true);
    var t := SortAscending(xs);
    assert t[|xs| / 2] in multiset(t);
    assert Median(xs) in multiset(xs);
    assert Median(xs) in xs;
  }

  /** At most half of the values (rounded down) lie below the upper median. */
  lemma MedianBelow(xs: seq<int>)
    requires |xs| > 0
    ensures Count(xs, x => x < Median(xs)) <= |xs| / 2
  {
    var n, med := |xs|, Median(xs);
    var below := (x: int) => x < med;
    SortAscendingFacts(xs, below);
    var t := SortAscending(xs);
    var lo, hi := t[..n / 2], t[n / 2..];
    assert t == lo + hi;
    FilterAppend(lo, hi, below);
    forall k | 0 <= k < |hi| ensures !below(hi[k]) {
      assert hi[k] == t[n / 2 + k];
    }
    FilterNone(hi, below);
  }

  /** At most `(n - 1) / 2` of the values lie above the upper median. */
  lemma MedianAbove(xs: seq<int>)
    requires |xs| > 0
    ensures Count(xs, x => x > Median(xs)) <= (|xs| - 1) / 2
  {
    var n, med := |xs|, Median(xs);
    var above := (x: int) => x > med;
    SortAscendingFacts(xs, above);
    var t := SortAscending(xs);
    var lo, hi := t[..n / 2 + 1], t[n / 2 + 1..];
    assert t == lo + hi;
    FilterAppend(lo, hi, above);
    forall k | 0 <= k < |lo| ensures !above(lo[k]) {
      assert lo[k] == t[k];
    }
    FilterNone(lo, above);
  }

  /** With two values the upper median is the larger one. */
  lemma MedianOfTwo(a: int, b: int)
    ensures Median([a, b]) == if a < b then b else a
  {
    assert [a, b][..1] == [a];
    assert [a][..0] == [];
    assert SortDesc([a], Neg) == [a];
    if a <= b {
      assert Insert([a], b, Neg) == [a, b];
    } else {
      assert Insert([a], b, Neg) == Insert([], b, Neg) + [a] == [b, a];
    }
  }

  /** The sum of `(a * Dev(y) - b * Dev(x))^2` over paired values: never
      negative, and expanding it gives Cauchy-Schwarz. */
  function Cross(xs: seq<int>, ys: seq<int>, n: int, sx: int, sy: int, a: int, b: int): int
    requires |xs| == |ys|
  {
    if xs == [] then 0
    else
      var p, q := Dev(xs[|xs| - 1], n, sx), Dev(ys[|ys| - 1], n, sy);
      Cross(xs[..|xs| - 1], ys[..|ys| - 1], n, sx, sy, a, b) + (a * q - b * p) * (a * q - b * p)
  }

  lemma CrossStep(xs: seq<int>, ys: seq<int>, n: int, sx: int, sy: int, a: int, b: int)
    requires |xs| == |ys| > 0
    ensures var p, q := Dev(xs[|xs| - 1], n, sx), Dev(ys[|ys| - 1], n, sy);
      Cross(xs, ys, n, sx, sy, a, b)
        == Cross(xs[..|xs| - 1], ys[..|ys| - 1], n, sx, sy, a, b) + (a * q - b * p) * (a * q - b * p)
  {
  }

  lemma SquareExpands(a: int, b: int, p: int, q: int)
    ensures (a * q - b * p) * (a * q - b * p) == (a * a) * (q * q) - 2 * (a * b) * (p * q) + (b * b) * (p * p)
  {
  }

  lemma CrossAlgebra(aa: int, ab: int, bb: int, A: int, B: int, C: int, pp: int, pq: int, qq: int)
    ensures aa * (B + qq) - 2 * ab * (C + pq) + bb * (A + pp)
      == (aa * B - 2 * ab * C + bb * A) + (aa * qq - 2 * ab * pq + bb * pp)
  {
  }

  lemma {:induction false} CrossExpands(xs: seq<int>, ys: seq<int>, n: int, sx: int, sy: int, a: int, b: int)
    requires |xs| == |ys|
    ensures Cross(xs, ys, n, sx, sy, a, b) >= 0
    ensures Cross(xs, ys, n, sx, sy, a, b)
      == a * a * SqDev(ys, n, sy) - 2 * (a * b) * CoDev(xs, ys, n, sx, sy) + b * b * SqDev(xs, n, sx)
    decreases |xs|
  {
    if xs != [] {
      var xs', ys' := xs[..|xs| - 1], ys[..|ys| - 1];
      var p, q := Dev(xs[|xs| - 1], n, sx), Dev(ys[|ys| - 1], n, sy);
      CrossExpands(xs', ys', n, sx, sy, a, b);
      CrossStep(xs, ys, n, sx, sy, a, b);
      CoDevStep(xs, ys, n, sx, sy);
      CoDevStep(xs, xs, n, sx, sx);
      CoDevStep(ys, ys, n, sy, sy);
      SquareExpands(a, b, p, q);
      SquareNonNegative(a * q - b * p);
      CrossAlgebra(a * a, a * b, b * b, SqDev(xs', n, sx), SqDev(ys', n, sy), CoDev(xs', ys', n, sx, sy), p * p, p * q, q * q);
    }
  }

  lemma CauchySchwarzAlgebra(A: int, B: int, C: int, a: int, b: int)
    ensures (A + a * a) * (B + b * b) - (C + a * b) * (C + a * b)
      == (A * B - C * C) + (a * a * B - 2 * (a * b) * C + b * b * A)
  {
  }

  /** Cauchy-Schwarz: the squared sum of products is at most the product of the sums of squares. */
  lemma {:induction false} CauchySchwarz(xs: seq<int>, ys: seq<int>, n: int, sx: int, sy: int)
    requires |xs| == |ys|
    ensures CoDev(xs, ys, n, sx, sy) * CoDev(xs, ys, n, sx, sy) <= SqDev(xs, n, sx) * SqDev(ys, n, sy)
    decreases |xs|
  {
    if xs != [] {
      var xs', ys' := xs[..|xs| - 1], ys[..|ys| - 1];
      var a, b := Dev(xs[|xs| - 1], n, sx), Dev(ys[|ys| - 1], n, sy);
      CauchySchwarz(xs', ys', n, sx, sy);
      CrossExpands(xs', ys', n, sx, sy, a, b);
      CoDevStep(xs, ys, n, sx, sy);
      CoDevStep(xs, xs, n, sx, sx);
      CoDevStep(ys, ys, n, sy, sy);
      CauchySchwarzAlgebra(SqDev(xs', n, sx), SqDev(ys', n, sy), CoDev(xs', ys', n, sx, sy), a, b);
    }
  }

  lemma ProductZero(a: int, b: int)
    requires a >= 0 && b >= 0
    ensures a * b == 0 <==> a == 0 || b == 0
    ensures a * b >= 0
  {
  }

  /** The correlation falls back to `Zero` exactly when one of the two
      series is constant (which includes having no values). */
  lemma CorrelationZeroIff(xs: seq<int>, ys: seq<int>)
    requires |xs| == |ys|
    ensures PearsonOf(xs, ys) == Zero <==> Constant(xs) || Constant(ys)
  {
    SumSquaresZeroIff(xs);
    SumSquaresZeroIff(ys);
    ProductZero(SumSquares(xs), SumSquares(ys));
  }

  /** When the ratio is taken its denominator is positive and the ratio
      lies in [-1, 1]: the numerator squared is at most `sxx * syy`. */
  lemma CorrelationBounded(xs: seq<int>, ys: seq<int>)
    requires |xs| == |ys|
    ensures PearsonOf(xs, ys).Pearson? ==>
      var c := PearsonOf(xs, ys);
      c.sxx > 0 && c.syy > 0 && c.numerator * c.numerator <= c.sxx * c.syy
  {
    SumSquaresZeroIff(xs);
    SumSquaresZeroIff(ys);
    CauchySchwarz(xs, ys, |xs|, Sum(xs), Sum(ys));
  }
}
