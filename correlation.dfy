/**
 * Pearson correlation over the reals, as `Series.corr` computes it on pairwise-complete
 * observations. No square root is taken: a defined result carries the co-moment and the two
 * sums of squared deviations, and the coefficient it stands for is
 * `cov / sqrt(varX * varY)`. A result is undefined (pandas' NaN) when there are fewer than two
 * pairs or either side has zero variance.
 */
module Correlation {

  datatype Correlation = Undefined | Pearson(cov: real, varX: real, varY: real)

  function Firsts(ps: seq<(real, real)>): (r: seq<real>)
    ensures |r| == |ps|
    ensures forall i :: 0 <= i < |ps| ==> r[i] == ps[i].0
  {
    seq(|ps|, i requires 0 <= i < |ps| => ps[i].0)
  }

  function Seconds(ps: seq<(real, real)>): (r: seq<real>)
    ensures |r| == |ps|
    ensures forall i :: 0 <= i < |ps| ==> r[i] == ps[i].1
  {
    seq(|ps|, i requires 0 <= i < |ps| => ps[i].1)
  }

  function Swap(ps: seq<(real, real)>): (r: seq<(real, real)>)
    ensures |r| == |ps|
    ensures forall i :: 0 <= i < |ps| ==> r[i] == (ps[i].1, ps[i].0)
  {
    seq(|ps|, i requires 0 <= i < |ps| => (ps[i].1, ps[i].0))
  }

  function Sum(xs: seq<real>): real
  {
    if |xs| == 0 then 0.0 else xs[0] + Sum(xs[1..])
  }

  function Mean(xs: seq<real>): real
    requires |xs| > 0
  {
    Sum(xs) / (|xs| as real)
  }

  /** Each value minus the mean of all of them. */
  function Deviations(xs: seq<real>): (r: seq<real>)
    requires |xs| > 0
    ensures |r| == |xs|
  {
    seq(|xs|, i requires 0 <= i < |xs| => xs[i] - Mean(xs))
  }

  /** Sum of products `a[0]·b[0] + a[1]·b[1] + …`. */
  function Dot(a: seq<real>, b: seq<real>): real
    requires |a| == |b|
  {
    if |a| == 0 then 0.0 else a[0] * b[0] + Dot(a[1..], b[1..])
  }

  predicate Constant(xs: seq<real>)
  {
    forall i, j :: 0 <= i < |xs| && 0 <= j < |xs| ==> xs[i] == xs[j]
  }

  /**
   * The correlation of pairwise-complete observations. A defined result has positive spreads on
   * both sides and a co-moment whose square is bounded by their product, so the coefficient it
   * stands for lies in [-1, 1].
   */
  function Corr(pairs: seq<(real, real)>): (r: Correlation)
    ensures r.Pearson? ==> |pairs| >= 2 && r.varX > 0.0 && r.varY > 0.0
    ensures r.Pearson? ==> r.cov * r.cov <= r.varX * r.varY
  {
    if |pairs| < 2 then Undefined
    else
      var dx := Deviations(Firsts(pairs));
      var dy := Deviations(Seconds(pairs));
      var sxx := Dot(dx, dx);
      var syy := Dot(dy, dy);
      if sxx == 0.0 || syy == 0.0 then Undefined
      else
        DotSelfNonNegative(dx);
        DotSelfNonNegative(dy);
        CauchySchwarz(dx, dy);
        Pearson(Dot(dx, dy), sxx, syy)
  }

  lemma {:induction false} DotSymmetric(a: seq<real>, b: seq<real>)
    requires |a| == |b|
    ensures Dot(a, b) == Dot(b, a)
  {
    if |a| > 0 {
      DotSymmetric(a[1..], b[1..]);
    }
  }

  /**
   * `Dot(a,a)·y² − 2·Dot(a,b)·x·y + x²·Dot(b,b)` is the sum of the squares `(a[i]·y − x·b[i])²`,
   * hence never negative.
   */
  lemma {:induction false} CrossTermBound(a: seq<real>, b: seq<real>, x: real, y: real)
    requires |a| == |b|
    ensures Dot(a, a) * (y * y) - 2.0 * Dot(a, b) * (x * y) + (x * x) * Dot(b, b) >= 0.0
  {
    if |a| > 0 {
      CrossTermBound(a[1..], b[1..], x, y);
      DotUnfold(a, a);
      DotUnfold(a, b);
      DotUnfold(b, b);
      CrossTermStep(a[0], b[0], Dot(a[1..], a[1..]), Dot(a[1..], b[1..]), Dot(b[1..], b[1..]), x, y,
                    Dot(a, a), Dot(a, b), Dot(b, b));
    }
  }

  /** Cauchy–Schwarz for finite sums: `Dot(a,b)² <= Dot(a,a)·Dot(b,b)`. */
  lemma {:induction false} CauchySchwarz(a: seq<real>, b: seq<real>)
    requires |a| == |b|
    ensures Dot(a, b) * Dot(a, b) <= Dot(a, a) * Dot(b, b)
  {
    if |a| > 0 {
      CauchySchwarz(a[1..], b[1..]);
      CrossTermBound(a[1..], b[1..], a[0], b[0]);
      DotUnfold(a, a);
      DotUnfold(a, b);
      DotUnfold(b, b);
      ExpandProducts(a[0], b[0], Dot(a[1..], a[1..]), Dot(a[1..], b[1..]), Dot(b[1..], b[1..]),
                     Dot(a, a), Dot(a, b), Dot(b, b));
    }
  }

  lemma DotUnfold(a: seq<real>, b: seq<real>)
    requires |a| == |b| > 0
    ensures Dot(a, b) == a[0] * b[0] + Dot(a[1..], b[1..])
  {
  }

  /** The algebra behind one step of CrossTermBound: the new term is a perfect square. */
  lemma CrossTermStep(p: real, q: real, aa: real, ab: real, bb: real, x: real, y: real,
                      A: real, C: real, B: real)
    requires A == p * p + aa && C == p * q + ab && B == q * q + bb
    requires aa * (y * y) - 2.0 * ab * (x * y) + (x * x) * bb >= 0.0
    ensures A * (y * y) - 2.0 * C * (x * y) + (x * x) * B >= 0.0
  {
    CrossIdentity(p, q, aa, ab, bb, x, y);
    SquareNonNegative(p * y - x * q);
    assert A * (y * y) == (p * p + aa) * (y * y);
    assert C * (x * y) == (p * q + ab) * (x * y);
    assert (x * x) * B == (x * x) * (q * q + bb);
  }

  lemma CrossIdentity(p: real, q: real, aa: real, ab: real, bb: real, x: real, y: real)
    ensures (p * p + aa) * (y * y) - 2.0 * (p * q + ab) * (x * y) + (x * x) * (q * q + bb)
         == (p * y - x * q) * (p * y - x * q) + (aa * (y * y) - 2.0 * ab * (x * y) + (x * x) * bb)
  {
  }

  /** The algebra behind one step of CauchySchwarz. */
  lemma ExpandProducts(p: real, q: real, aa: real, ab: real, bb: real, A: real, C: real, B: real)
    requires A == p * p + aa && C == p * q + ab && B == q * q + bb
    requires ab * ab <= aa * bb
    requires aa * (q * q) - 2.0 * ab * (p * q) + (p * p) * bb >= 0.0
    ensures C * C <= A * B
  {
    ProductsIdentity(p, q, aa, ab, bb);
    assert C * C == (p * q + ab) * (p * q + ab);
    assert A * B == (p * p + aa) * (q * q + bb);
  }

  lemma ProductsIdentity(p: real, q: real, aa: real, ab: real, bb: real)
    ensures (p * q + ab) * (p * q + ab) == (p * p) * (q * q) + 2.0 * ab * (p * q) + ab * ab
    ensures (p * p + aa) * (q * q + bb) == (p * p) * (q * q) + (aa * (q * q) + (p * p) * bb) + aa * bb
  {
  }

  lemma SquareNonNegative(z: real)
    ensures z * z >= 0.0
  {
  }

  /** A sum of squares is never negative, */
  lemma {:induction false} DotSelfNonNegative(a: seq<real>)
    ensures Dot(a, a) >= 0.0
  {
    if |a| > 0 {
      DotSelfNonNegative(a[1..]);
      SquareNonNegative(a[0]);
    }
  }

  /** and it vanishes when every term is zero. */
  lemma {:induction false} DotOfZeros(a: seq<real>)
    requires forall i :: 0 <= i < |a| ==> a[i] == 0.0
    ensures Dot(a, a) == 0.0
  {
    if |a| > 0 {
      forall i | 0 <= i < |a[1..]| ensures a[1..][i] == 0.0 {
        assert a[1..][i] == a[i + 1];
      }
      DotOfZeros(a[1..]);
    }
  }

  lemma {:induction false} SumOfConstant(xs: seq<real>, c: real)
    requires forall i :: 0 <= i < |xs| ==> xs[i] == c
    ensures Sum(xs) == (|xs| as real) * c
  {
    if |xs| > 0 {
      forall i | 0 <= i < |xs[1..]| ensures xs[1..][i] == c {
        assert xs[1..][i] == xs[i + 1];
      }
      SumOfConstant(xs[1..], c);
    }
  }

  /** A constant sample has zero variance. */
  lemma ConstantHasZeroVariance(xs: seq<real>)
    requires |xs| > 0 && Constant(xs)
    ensures Dot(Deviations(xs), Deviations(xs)) == 0.0
  {
    var d := Deviations(xs);
    SumOfConstant(xs, xs[0]);
    var n := |xs| as real;
    assert Mean(xs) == (n * xs[0]) / n;
    assert Mean(xs) == xs[0];
    forall i | 0 <= i < |d| ensures d[i] == 0.0 {
      assert xs[i] == xs[0];
    }
    DotOfZeros(d);
  }

  lemma SquareNotPositive(x: real, y: real)
    requires x == y && x * y <= 0.0
    ensures x <= 0.0
  {
  }

  /** Only zero squares to zero. */
  lemma SquareZero(z: real)
    requires z * z <= 0.0
    ensures z == 0.0
  {
    SquareNotPositive(z, z);
    assert (-z) * (-z) == z * z;
    SquareNotPositive(-z, -z);
  }

  /** A sum of squares vanishes only when every term is zero, */
  lemma {:induction false} ZeroSumOfSquares(a: seq<real>)
    requires Dot(a, a) == 0.0
    ensures forall i :: 0 <= i < |a| ==> a[i] == 0.0
  {
    if |a| > 0 {
      DotSelfNonNegative(a[1..]);
      SquareNonNegative(a[0]);
      SquareZero(a[0]);
      ZeroSumOfSquares(a[1..]);
      forall i | 1 <= i < |a| ensures a[i] == 0.0 {
        assert a[i] == a[1..][i - 1];
      }
    }
  }

  /** so a sample with zero variance is constant. */
  lemma ZeroVarianceIsConstant(xs: seq<real>)
    requires |xs| > 0 && Dot(Deviations(xs), Deviations(xs)) == 0.0
    ensures Constant(xs)
  {
    var d := Deviations(xs);
    ZeroSumOfSquares(d);
    forall i | 0 <= i < |xs| ensures xs[i] == Mean(xs) {
      assert d[i] == xs[i] - Mean(xs);
    }
  }

  /**
   * When the correlation is defined: at least two complete pairs and a side that varies on each
   * side. Fewer pairs or a constant side gives NaN; anything else gives a value.
   */
  lemma CorrDefinedness(pairs: seq<(real, real)>)
    ensures Corr(pairs).Pearson? <==> |pairs| >= 2 && !Constant(Firsts(pairs)) && !Constant(Seconds(pairs))
  {
    if |pairs| >= 2 {
      var dx := Deviations(Firsts(pairs));
      var dy := Deviations(Seconds(pairs));
      if Constant(Firsts(pairs)) {
        ConstantHasZeroVariance(Firsts(pairs));
      } else if Dot(dx, dx) == 0.0 {
        ZeroVarianceIsConstant(Firsts(pairs));
      }
      if Constant(Seconds(pairs)) {
        ConstantHasZeroVariance(Seconds(pairs));
      } else if Dot(dy, dy) == 0.0 {
        ZeroVarianceIsConstant(Seconds(pairs));
      }
    }
  }

  /** Swapping the two sides keeps the co-moment and swaps the spreads: the coefficient is symmetric. */
  lemma CorrSymmetric(pairs: seq<(real, real)>)
    ensures Corr(Swap(pairs)).Pearson? <==> Corr(pairs).Pearson?
    ensures Corr(pairs).Pearson? ==>
      Corr(Swap(pairs)) == Pearson(Corr(pairs).cov, Corr(pairs).varY, Corr(pairs).varX)
  {
    assert Firsts(Swap(pairs)) == Seconds(pairs);
    assert Seconds(Swap(pairs)) == Firsts(pairs);
    if |pairs| >= 2 {
      DotSymmetric(Deviations(Firsts(pairs)), Deviations(Seconds(pairs)));
    }
  }
}
