/** The statistics helpers of the detector: mean, population standard
    deviation and z-score of a window of readings, over exact reals. */
module Statistics {
  import opened Surds

  /** The `reduce` sum with initial value 0 (exact, so the order of addition
      does not matter). */
  function Sum(vs: seq<real>): (total: real)
  {
    if vs == [] then 0.0 else vs[0] + Sum(vs[1..])
  }

  /** `calculateMean`: the arithmetic mean, 0 for an empty list. */
  function Mean(vs: seq<real>): (m: real)
    ensures |vs| == 0 ==> m == 0.0
    ensures m * (|vs| as real) == Sum(vs)
  {
    if |vs| == 0 then 0.0 else Sum(vs) / (|vs| as real)
  }

  /** x * y, behind a function so that the solver sees products of
      sequence-level quantities as atoms. */
  function Mul(x: real, y: real): (product: real)
  {
    x * y
  }

  /** x^2 (`Math.pow(x, 2)`). */
  function Sq(x: real): (square: real)
  {
    x * x
  }

  /** `values.map((val) => Math.pow(val - mean, 2))`. */
  function SquaredDiffs(vs: seq<real>, m: real): (ds: seq<real>)
    ensures |ds| == |vs|
    ensures forall i :: 0 <= i < |vs| ==> ds[i] == Sq(vs[i] - m) >= 0.0
  {
    seq(|vs|, i requires 0 <= i < |vs| => SquareIsPositive(vs[i] - m); Sq(vs[i] - m))
  }

  /** Sum of (v - m)^2 over the list. */
  function SquaredDeviations(vs: seq<real>, m: real): (s: real)
    ensures s >= 0.0
  {
    NonNegativeSum(SquaredDiffs(vs, m));
    Sum(SquaredDiffs(vs, m))
  }

  /** The population variance about m, 0 for an empty list. */
  function Variance(vs: seq<real>, m: real): (v: real)
    ensures v >= 0.0
    ensures v * (|vs| as real) == SquaredDeviations(vs, m)
  {
    if |vs| == 0 then 0.0 else SquaredDeviations(vs, m) / (|vs| as real)
  }

  /** `calculateStdDev`: the non-negative square root of the population
      variance about the given mean, 0 for an empty list. */
  function StdDev(vs: seq<real>, m: real): (sd: Surd)
    ensures sd.Valid() && sd.NonNegative()
    ensures sd.Square() == Variance(vs, m)
    ensures |vs| == 0 ==> sd.IsZero()
  {
    Sqrt(Variance(vs, m))
  }

  /** `calculateZScore`: 0 when the standard deviation is 0, otherwise the
      number that times the standard deviation gives value - mean. */
  function ZScore(value: real, mean: real, stdDev: Surd): (z: Surd)
    requires stdDev.Valid()
    ensures z.Valid()
    ensures stdDev.IsZero() ==> z.Is(0.0)
    ensures !stdDev.IsZero() ==>
      z.radicand == stdDev.radicand && z.coef * stdDev.coef * stdDev.radicand == value - mean
  {
    if stdDev.IsZero() then Lit(0.0) else Quotient(value - mean, stdDev)
  }

  /** The z-score of the first (newest) value of a window, computed as the
      detector does. */
  function WindowZScore(vs: seq<real>): (z: Surd)
  {
    ZScore(if vs == [] then 0.0 else vs[0], Mean(vs), StdDev(vs, Mean(vs)))
  }

  /** Peeling the first value off a sum of squared deviations. */
  lemma SquaredDeviationsCons(vs: seq<real>, m: real)
    requires vs != []
    ensures SquaredDeviations(vs, m) == Sq(vs[0] - m) + SquaredDeviations(vs[1..], m)
  {
    var ds := SquaredDiffs(vs, m);
    var es := SquaredDiffs(vs[1..], m);
    forall i | 0 <= i < |es|
      ensures ds[1..][i] == es[i]
    {
      assert vs[1..][i] == vs[i + 1];
    }
    assert ds[1..] == es;
  }

  lemma {:induction false} NonNegativeSum(xs: seq<real>)
    requires forall i :: 0 <= i < |xs| ==> xs[i] >= 0.0
    ensures Sum(xs) >= 0.0
  {
    if xs != [] {
      NonNegativeSum(xs[1..]);
    }
  }

  /** Every value of a non-empty list lies between its minimum and maximum
      bound, and so does the mean. */
  lemma MeanWithinBounds(vs: seq<real>, lo: real, hi: real)
    requires |vs| > 0
    requires forall i :: 0 <= i < |vs| ==> lo <= vs[i] <= hi
    ensures lo <= Mean(vs) <= hi
  {
    SumWithinBounds(vs, lo, hi);
    var n := |vs| as real;
    var m := Mean(vs);
    assert m * n == Sum(vs);
    if m < lo {
      ScaleStrict(m, lo, n);
    }
    if m > hi {
      ScaleStrict(hi, m, n);
    }
  }

  lemma {:induction false} SumWithinBounds(vs: seq<real>, lo: real, hi: real)
    requires forall i :: 0 <= i < |vs| ==> lo <= vs[i] <= hi
    ensures (|vs| as real) * lo <= Sum(vs) <= (|vs| as real) * hi
  {
    if vs != [] {
      SumWithinBounds(vs[1..], lo, hi);
    }
  }

  /** A window of one repeated value has that value as mean and no variance. */
  lemma FlatWindow(vs: seq<real>, c: real)
    requires |vs| > 0
    requires forall i :: 0 <= i < |vs| ==> vs[i] == c
    ensures Mean(vs) == c
    ensures Variance(vs, Mean(vs)) == 0.0
    ensures WindowZScore(vs).IsZero()
  {
    MeanWithinBounds(vs, c, c);
    FlatDeviations(vs, c);
  }

  lemma {:induction false} FlatDeviations(vs: seq<real>, c: real)
    requires forall i :: 0 <= i < |vs| ==> vs[i] == c
    ensures SquaredDeviations(vs, c) == 0.0
  {
    if vs != [] {
      FlatDeviations(vs[1..], c);
      SquaredDeviationsCons(vs, c);
    }
  }

  /** No variance means every value sits on the mean; in particular the newest. */
  lemma NoVarianceNoDeviation(vs: seq<real>, m: real)
    requires |vs| > 0 && Variance(vs, m) == 0.0
    ensures forall i :: 0 <= i < |vs| ==> vs[i] == m
    ensures vs[0] == m
  {
    var ds := SquaredDiffs(vs, m);
    assert Sum(ds) == SquaredDeviations(vs, m) == 0.0;
    ZeroSumOfNonNegative(ds);
    forall i | 0 <= i < |vs|
      ensures vs[i] == m
    {
      SquareIsPositive(vs[i] - m);
    }
  }

  /** A sum of non-negative terms is 0 only when every term is. */
  lemma {:induction false} ZeroSumOfNonNegative(xs: seq<real>)
    requires forall i :: 0 <= i < |xs| ==> xs[i] >= 0.0
    requires Sum(xs) == 0.0
    ensures forall i :: 0 <= i < |xs| ==> xs[i] == 0.0
  {
    if xs != [] {
      var tail := xs[1..];
      NonNegativeSum(tail);
      ZeroSumOfNonNegative(tail);
      forall i | 1 <= i < |xs|
        ensures xs[i] == 0.0
      {
        assert xs[i] == tail[i - 1];
      }
    }
  }

  /** Sum of (x - m) over the list. */
  function DeviationSum(xs: seq<real>, m: real): (total: real)
  {
    Sum(xs) - (|xs| as real) * m
  }

  /** Peeling the first value off both deviation sums. */
  lemma DeviationsCons(xs: seq<real>, m: real)
    requires xs != []
    ensures DeviationSum(xs, m) == (xs[0] - m) + DeviationSum(xs[1..], m)
    ensures SquaredDeviations(xs, m) == Sq(xs[0] - m) + SquaredDeviations(xs[1..], m)
  {
    var k := |xs[1..]| as real;
    assert |xs| as real == k + 1.0;
    assert (k + 1.0) * m == k * m + m;
    SquaredDeviationsCons(xs, m);
  }

  /** The deviations from the mean cancel out. */
  lemma DeviationsFromMeanCancel(vs: seq<real>)
    ensures DeviationSum(vs, Mean(vs)) == 0.0
  {
    assert Mean(vs) * (|vs| as real) == Sum(vs);
  }

  /** Cauchy-Schwarz for the deviations from m: (sum (x - m))^2 <= n * sum (x - m)^2. */
  lemma {:induction false} DeviationSumBound(xs: seq<real>, m: real)
    ensures Sq(DeviationSum(xs, m)) <= Mul(|xs| as real, SquaredDeviations(xs, m))
  {
    if xs == [] {
      assert DeviationSum(xs, m) == 0.0;
      NothingToBound(DeviationSum(xs, m), |xs| as real, SquaredDeviations(xs, m));
    } else {
      DeviationSumBound(xs[1..], m);
      DeviationsCons(xs, m);
      CauchyStep(xs[0] - m, DeviationSum(xs[1..], m), SquaredDeviations(xs[1..], m), |xs[1..]| as real,
                 DeviationSum(xs, m), |xs| as real, SquaredDeviations(xs, m));
    }
  }

  lemma NothingToBound(total: real, n: real, squares: real)
    requires total == 0.0 && n == 0.0
    ensures Sq(total) <= Mul(n, squares)
  {
  }

  /** The inductive step of Cauchy-Schwarz, as plain algebra. */
  lemma CauchyStep(a: real, A: real, Q: real, k: real, total: real, n: real, squares: real)
    requires k >= 0.0 && Q >= 0.0 && Sq(A) <= Mul(k, Q)
    requires k == 0.0 ==> A == 0.0
    requires total == a + A && n == k + 1.0 && squares == Sq(a) + Q
    ensures Sq(total) <= Mul(n, squares)
  {
    CrossTermBound(a, A, Q, k);
    assert (a + A) * (a + A) == a * a + 2.0 * a * A + A * A;
    assert (k + 1.0) * (a * a + Q) == a * a + k * a * a + k * Q + Q;
  }

  /** 2aA <= k a^2 + Q whenever A^2 <= kQ, Q >= 0 and (k = 0 ==> A = 0). */
  lemma CrossTermBound(a: real, A: real, Q: real, k: real)
    requires k >= 0.0 && Q >= 0.0 && A * A <= k * Q
    requires k == 0.0 ==> A == 0.0
    ensures 2.0 * a * A <= k * a * a + Q
  {
    if k > 0.0 {
      var e := k * a - A;
      assert e * e >= 0.0;
      assert e * e == k * k * a * a - 2.0 * k * a * A + A * A;
      assert k * (k * a * a + Q) == k * k * a * a + k * Q;
      if 2.0 * a * A > k * a * a + Q {
        ScaleStrict(k * a * a + Q, 2.0 * a * A, k);
      }
    }
  }

  /** Samuelson's inequality for the newest value: it lies within
      sqrt(n - 1) population standard deviations of the mean. */
  lemma Samuelson(vs: seq<real>)
    requires |vs| > 0
    ensures Mul(|vs| as real, Sq(vs[0] - Mean(vs))) <= Mul(|vs| as real - 1.0, SquaredDeviations(vs, Mean(vs)))
  {
    var m := Mean(vs);
    DeviationSumBound(vs[1..], m);
    DeviationsFromMeanCancel(vs);
    DeviationsCons(vs, m);
    SamuelsonStep(vs[0] - m, DeviationSum(vs[1..], m), SquaredDeviations(vs[1..], m), |vs| as real, SquaredDeviations(vs, m));
  }

  lemma SamuelsonStep(d: real, A: real, R: real, n: real, S: real)
    requires A == -d && Sq(A) <= Mul(n - 1.0, R) && S == Sq(d) + R
    ensures Mul(n, Sq(d)) <= Mul(n - 1.0, S)
  {
    assert Sq(A) == Sq(d);
  }

  /** The z-score of a window in closed form: 0 without variance, otherwise
      ((newest - mean) / variance) * sqrt(variance). */
  lemma WindowZScoreShape(vs: seq<real>)
    requires |vs| > 0
    ensures Variance(vs, Mean(vs)) == 0.0 ==> WindowZScore(vs) == Lit(0.0) && vs[0] == Mean(vs)
    ensures Variance(vs, Mean(vs)) > 0.0 ==>
      WindowZScore(vs) == Surd((vs[0] - Mean(vs)) / Variance(vs, Mean(vs)), Variance(vs, Mean(vs)))
  {
    var m := Mean(vs);
    var v := Variance(vs, m);
    if v == 0.0 {
      NoVarianceNoDeviation(vs, m);
    } else {
      assert StdDev(vs, m) == Surd(1.0, v);
      assert 1.0 * v == v;
    }
  }

  /** What the detector's thresholds mean without square roots: |z| > k holds
      exactly when (newest - mean)^2 > k^2 * variance; z has the sign of
      newest - mean. */
  lemma WindowZScoreOnSquares(vs: seq<real>, k: real)
    requires |vs| > 0 && k >= 0.0
    ensures WindowZScore(vs).AbsExceeds(k) <==> Sq(vs[0] - Mean(vs)) > Mul(Sq(k), Variance(vs, Mean(vs)))
    ensures WindowZScore(vs).IsPositive() <==> vs[0] > Mean(vs)
    ensures Variance(vs, Mean(vs)) > 0.0 ==> Mul(WindowZScore(vs).Square(), Variance(vs, Mean(vs))) == Sq(vs[0] - Mean(vs))
  {
    WindowZScoreShape(vs);
    ScoreOnSquares(vs[0] - Mean(vs), Variance(vs, Mean(vs)), k, WindowZScore(vs));
  }

  /** The algebra behind WindowZScoreOnSquares, for z the score of a
      deviation d against a variance v. */
  lemma ScoreOnSquares(d: real, v: real, k: real, z: Surd)
    requires k >= 0.0 && v >= 0.0
    requires v == 0.0 ==> z == Lit(0.0) && d == 0.0
    requires v > 0.0 ==> z == Surd(d / v, v)
    ensures z.AbsExceeds(k) <==> Sq(d) > Mul(Sq(k), v)
    ensures z.IsPositive() <==> d > 0.0
    ensures v > 0.0 ==> Mul(z.Square(), v) == Sq(d)
  {
    if v > 0.0 {
      QuotientSquare(d, v, k, z);
    } else {
      ZeroSquare(d, v, k, z);
    }
  }

  lemma ZeroSquare(d: real, v: real, k: real, z: Surd)
    requires d == 0.0 && v == 0.0 && k >= 0.0 && z == Lit(0.0)
    ensures z.AbsExceeds(k) <==> Sq(d) > Mul(Sq(k), v)
    ensures z.IsPositive() <==> d > 0.0
  {
    SquareIsPositive(k);
    assert Sq(d) == 0.0 && Mul(Sq(k), v) == 0.0;
    assert z.Square() == 0.0;
  }

  /** The algebra behind WindowZScoreOnSquares, for z = (d / v) * sqrt(v). */
  lemma QuotientSquare(d: real, v: real, k: real, z: Surd)
    requires v > 0.0 && k >= 0.0 && z == Surd(d / v, v)
    ensures Mul(z.Square(), v) == Sq(d)
    ensures z.AbsExceeds(k) <==> Sq(d) > Mul(Sq(k), v)
    ensures z.IsPositive() <==> d > 0.0
  {
    var c := d / v;
    assert c * v == d;
    var sq := c * c * v;
    assert sq * v == (c * v) * (c * v);
    if sq > k * k {
      ScaleStrict(k * k, sq, v);
    } else {
      ScaleWeak(sq, k * k, v);
    }
    if d > 0.0 {
      assert c > 0.0;
    } else {
      assert c <= 0.0;
    }
  }

  /** What the surd z-score means over the reals: for sigma the root of the
      variance and zr the quotient (newest - mean) / sigma (0 when sigma is 0),
      each predicate the detector applies to the surd decides the same
      relation on zr. */
  lemma WindowZScoreMeaning(vs: seq<real>, sigma: real, zr: real, k: real, x: real)
    requires |vs| > 0 && k >= 0.0
    requires sigma >= 0.0 && sigma * sigma == Variance(vs, Mean(vs))
    requires sigma == 0.0 ==> zr == 0.0
    requires sigma > 0.0 ==> zr * sigma == vs[0] - Mean(vs)
    ensures WindowZScore(vs).AbsExceeds(k) <==> zr > k || zr < -k
    ensures WindowZScore(vs).IsPositive() <==> zr > 0.0
    ensures WindowZScore(vs).Is(x) <==> zr == x
  {
    WindowZScoreShape(vs);
    ScoreDenotes(vs[0] - Mean(vs), Variance(vs, Mean(vs)), sigma, zr, k, x, WindowZScore(vs));
  }

  /** The algebra behind WindowZScoreMeaning. */
  lemma ScoreDenotes(d: real, v: real, sigma: real, zr: real, k: real, x: real, z: Surd)
    requires k >= 0.0 && v >= 0.0 && sigma >= 0.0 && sigma * sigma == v
    requires v == 0.0 ==> z == Lit(0.0) && d == 0.0
    requires v > 0.0 ==> z == Surd(d / v, v)
    requires sigma == 0.0 ==> zr == 0.0
    requires sigma > 0.0 ==> zr * sigma == d
    ensures z.AbsExceeds(k) <==> zr > k || zr < -k
    ensures z.IsPositive() <==> zr > 0.0
    ensures z.Is(x) <==> zr == x
  {
    if v == 0.0 {
      SquaresAgree(sigma, 0.0);
      Denotation(z, 1.0, x, k);
    } else {
      RootQuotient(d, v, sigma, zr);
      Denotation(z, sigma, x, k);
    }
  }

  /** (d / v) * sigma == zr for sigma the positive root of v and zr * sigma == d. */
  lemma RootQuotient(d: real, v: real, sigma: real, zr: real)
    requires v > 0.0 && sigma > 0.0 && sigma * sigma == v && zr * sigma == d
    ensures (d / v) * sigma == zr
  {
    var c := d / v;
    assert c * v == d;
    assert (c * sigma) * sigma == c * v;
    Cancel(c * sigma, zr, sigma);
  }

  lemma Cancel(a: real, b: real, c: real)
    requires c != 0.0 && a * c == b * c
    ensures a == b
  {
    assert (a - b) * c == 0.0;
  }

  /** A window of ten readings, newest 60 and nine of 10: mean 15, variance
      225 (standard deviation 15) and z-score exactly 3. */
  lemma WorkedWindow(vs: seq<real>)
    requires |vs| == 10 && vs[0] == 60.0
    requires forall i :: 1 <= i < 10 ==> vs[i] == 10.0
    ensures Mean(vs) == 15.0
    ensures Variance(vs, Mean(vs)) == 225.0
    ensures StdDev(vs, Mean(vs)).Is(15.0)
    ensures WindowZScore(vs).Is(3.0)
  {
    var tail := vs[1..];
    assert forall i :: 0 <= i < |tail| ==> tail[i] == 10.0;
    SumWithinBounds(tail, 10.0, 10.0);
    assert Sum(vs) == 150.0;
    var m := Mean(vs);
    assert m * 10.0 == 150.0;
    FlatDeviationsAbout(tail, 10.0, m);
    SquaredDeviationsCons(vs, m);
    var v := Variance(vs, m);
    assert v * 10.0 == Sq(45.0) + Mul(9.0, Sq(-5.0));
    WindowZScoreShape(vs);
  }

  /** n readings of c have squared deviations n * (c - m)^2 about any m. */
  lemma {:induction false} FlatDeviationsAbout(vs: seq<real>, c: real, m: real)
    requires forall i :: 0 <= i < |vs| ==> vs[i] == c
    ensures SquaredDeviations(vs, m) == Mul(|vs| as real, Sq(c - m))
  {
    if vs != [] {
      FlatDeviationsAbout(vs[1..], c, m);
      SquaredDeviationsCons(vs, m);
      assert |vs| as real == (|vs[1..]| as real) + 1.0;
      MulSucc(|vs[1..]| as real, Sq(c - m));
    }
  }

  lemma MulSucc(n: real, q: real)
    ensures Mul(n + 1.0, q) == Mul(n, q) + q
  {
  }

  /** The z-score of the newest value of a window of n readings never exceeds
      sqrt(n - 1) in magnitude. */
  lemma WindowZScoreBound(vs: seq<real>)
    requires |vs| > 0
    ensures WindowZScore(vs).Square() <= |vs| as real - 1.0
  {
    WindowZScoreShape(vs);
    if Variance(vs, Mean(vs)) > 0.0 {
      Samuelson(vs);
      WindowZScoreOnSquares(vs, 0.0);
      BoundFromSamuelson(Sq(vs[0] - Mean(vs)), Variance(vs, Mean(vs)), |vs| as real,
                         WindowZScore(vs).Square(), SquaredDeviations(vs, Mean(vs)));
    }
  }

  lemma BoundFromSamuelson(dd: real, v: real, n: real, sq: real, S: real)
    requires v > 0.0 && n > 0.0
    requires Mul(n, dd) <= Mul(n - 1.0, S) && v * n == S
    requires Mul(sq, v) == dd
    ensures sq <= n - 1.0
  {
    assert n * dd <= n * ((n - 1.0) * v);
    if dd > (n - 1.0) * v {
      ScaleStrict((n - 1.0) * v, dd, n);
    }
    if sq > n - 1.0 {
      ScaleStrict(n - 1.0, sq, v);
    }
  }

  lemma ScaleStrict(a: real, b: real, c: real)
    requires a < b && c > 0.0
    ensures a * c < b * c
  {
  }

  lemma ScaleWeak(a: real, b: real, c: real)
    requires a <= b && c >= 0.0
    ensures a * c <= b * c
  {
  }

  lemma MulStrict(a: real, b: real, c: real)
    requires a < b && c > 0.0
    ensures Mul(a, c) < Mul(b, c)
  {
  }

  /** A square is never negative, and positive away from zero. */
  lemma SquareIsPositive(d: real)
    ensures Sq(d) >= 0.0
    ensures d != 0.0 ==> Sq(d) > 0.0
  {
    if d > 0.0 {
      MulStrict(0.0, d, d);
      assert Sq(d) == Mul(d, d);
    } else if d < 0.0 {
      MulStrict(0.0, -d, -d);
      assert Sq(d) == Mul(-d, -d);
    } else {
      assert Sq(d) == 0.0;
    }
  }
}
