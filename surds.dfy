/** Exact values for the two irrational quantities of the detector.  The
    standard deviation is a square root and the z-score is a quotient by it;
    over the reals both have the form coef * sqrt(radicand), which is what a
    `Surd` stands for.  Every comparison the detector makes on them is decided
    on squares, without ever computing a root. */
module Surds {

  /** The real number coef * sqrt(radicand). */
  datatype Surd = Surd(coef: real, radicand: real) {

    predicate Valid() { radicand >= 0.0 }

    /** The square of the number. */
    function Square(): real { coef * coef * radicand }

    predicate IsZero() { coef == 0.0 || radicand == 0.0 }

    predicate IsPositive() { coef > 0.0 && radicand > 0.0 }

    predicate NonNegative() { coef >= 0.0 || radicand == 0.0 }

    /** |this| > k, for a bound k >= 0. */
    predicate AbsExceeds(k: real) { Square() > k * k }

    /** this == x. */
    predicate Is(x: real)
    {
      Square() == x * x && (x > 0.0 ==> coef > 0.0) && (x < 0.0 ==> coef < 0.0)
    }
  }

  /** A rational number as a surd. */
  function Lit(x: real): (s: Surd)
    ensures s.Valid() && s.Is(x)
  {
    Surd(x, 1.0)
  }

  /** The non-negative square root of x (`Math.sqrt`). */
  function Sqrt(x: real): (s: Surd)
    requires x >= 0.0
    ensures s.Valid() && s.NonNegative() && s.Square() == x
    ensures s.IsZero() <==> x == 0.0
  {
    Surd(1.0, x)
  }

  /** num / d for a non-zero d: the result times d is num (the radicands agree,
      and sqrt(r) * sqrt(r) == r). */
  function Quotient(num: real, d: Surd): (q: Surd)
    requires d.Valid() && !d.IsZero()
    ensures q.Valid() && q.radicand == d.radicand
    ensures q.coef * d.coef * d.radicand == num
  {
    Surd(num / (d.coef * d.radicand), d.radicand)
  }

  lemma SquaresAgree(a: real, b: real)
    requires a * a == b * b
    ensures a == b || a == -b
  {
    assert (a - b) * (a + b) == a * a - b * b;
  }

  lemma SquareExceeds(w: real, k: real)
    requires k >= 0.0
    ensures w * w > k * k <==> (w > k || w < -k)
  {
    if w > k {
      assert w * w > k * w >= k * k;
    } else if w < -k {
      assert w * w > -k * w >= k * k;
    } else if w >= 0.0 {
      assert w * w <= k * w <= k * k;
    } else {
      assert w * w <= -k * w <= k * k;
    }
  }

  /** Soundness of the representation: for the root t of the radicand, each
      predicate on a surd decides the corresponding relation on coef * t. */
  lemma Denotation(s: Surd, t: real, x: real, k: real)
    requires s.Valid() && t >= 0.0 && t * t == s.radicand && k >= 0.0
    ensures s.Square() == (s.coef * t) * (s.coef * t)
    ensures s.IsZero() <==> s.coef * t == 0.0
    ensures s.IsPositive() <==> s.coef * t > 0.0
    ensures s.NonNegative() <==> s.coef * t >= 0.0
    ensures s.AbsExceeds(k) <==> (s.coef * t > k || s.coef * t < -k)
    ensures s.Is(x) <==> s.coef * t == x
  {
    DenotesSquare(s, t);
    DenotesSign(s, t);
    SquareExceeds(s.coef * t, k);
    DenotesEquality(s, t, x);
  }

  lemma DenotesSquare(s: Surd, t: real)
    requires t * t == s.radicand
    ensures s.Square() == (s.coef * t) * (s.coef * t)
  {
    assert (s.coef * t) * (s.coef * t) == s.coef * s.coef * (t * t);
  }

  lemma DenotesSign(s: Surd, t: real)
    requires t >= 0.0 && t * t == s.radicand
    ensures s.IsZero() <==> s.coef * t == 0.0
    ensures s.IsPositive() <==> s.coef * t > 0.0
    ensures s.NonNegative() <==> s.coef * t >= 0.0
    ensures s.coef * t < 0.0 <==> s.coef < 0.0 && s.radicand > 0.0
  {
    if t > 0.0 {
      assert t * t > 0.0;
      assert s.coef > 0.0 <==> s.coef * t > 0.0;
      assert s.coef < 0.0 <==> s.coef * t < 0.0;
    }
  }

  lemma DenotesEquality(s: Surd, t: real, x: real)
    requires s.Valid() && t >= 0.0 && t * t == s.radicand
    ensures s.Is(x) <==> s.coef * t == x
  {
    var w := s.coef * t;
    DenotesSquare(s, t);
    DenotesSign(s, t);
    if s.Is(x) {
      SquaresAgree(w, x);
      if x > 0.0 {
        assert w * w > 0.0;
        assert w != 0.0;
      } else if x < 0.0 {
        assert w * w > 0.0;
        assert w != 0.0;
      }
    }
  }
}
