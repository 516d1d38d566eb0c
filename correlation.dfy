/**
 * Pearson's correlation coefficient as RMAP computes it, over exact reals.
 *
 * `get_RMAP_np` evaluates the raw-sum formula
 *   (N·Σxy − Σx·Σy) / sqrt((N·Σx² − (Σx)²)·(N·Σy² − (Σy)²))
 * for every voxel row x of X at once; `get_corr_numba` and the per-voxel loop use
 * `np.corrcoef`, which centres both vectors first. Dafny has no square root, so a
 * coefficient num / sqrt(den) is kept as its sign and its square (see Coef).
 */
module Correlation {
  import opened Wrappers
  import opened Sums

  /**
   * The value of a quotient num / sqrt(den) as IEEE arithmetic produces it.
   * Defined(sign, square) stands for the real number sign·sqrt(square): sign is −1, 0
   * or 1 and square ≥ 0. Inf is ±infinity (a non-zero numerator over a zero
   * denominator), NaN the result of 0/0 or of the square root of a negative number.
   */
  datatype Coef = NaN | Inf(positive: bool) | Defined(sign: int, square: real)

  /** The errors np.corrcoef raises: vectors of different lengths cannot be stacked. */
  datatype ShapeError = ShapeMismatch

  function Sign(x: real): int
  {
    if x > 0.0 then 1 else if x < 0.0 then -1 else 0
  }

  /** v is the real number that c stands for. */
  predicate Denotes(c: Coef, v: real)
  {
    c.Defined? && Mul(v, v) == c.square && Sign(v) == c.sign
  }

  /** v = num / sqrt(den), said without a square root: den > 0, v²·den = num², same sign. */
  predicate IsQuotient(v: real, num: real, den: real)
  {
    den > 0.0 && Mul(Mul(v, v), den) == Mul(num, num) && Sign(v) == Sign(num)
  }

  /** `num / np.sqrt(den)`: NaN for a negative den or 0/0, ±inf for a non-zero num over 0. */
  function DivideBySqrt(num: real, den: real): (c: Coef)
    ensures c.Defined? <==> den > 0.0
    ensures c.Inf? <==> den == 0.0 && num != 0.0
    ensures c.Inf? ==> c.positive == (num > 0.0)
    ensures c.Defined? ==> c.square >= 0.0 && (c.sign == 0 <==> c.square == 0.0)
  {
    if den < 0.0 then NaN
    else if den == 0.0 then (if num == 0.0 then NaN else Inf(num > 0.0))
    else
      SquareOverPositive(num, den);
      Defined(Sign(num), Mul(num, num) / den)
  }

  lemma SquareOverPositive(num: real, den: real)
    requires den > 0.0
    ensures Mul(num, num) / den >= 0.0
    ensures Mul(num, num) / den == 0.0 <==> num == 0.0
  {
    SquarePositive(num);
    var q := Mul(num, num) / den;
    assert q * den == Mul(num, num);
    if num != 0.0 {
      assert q > 0.0;
    }
  }

  /** The negated coefficient: −v for Defined, the other infinity, NaN unchanged. */
  function Negate(c: Coef): (r: Coef)
  {
    match c
    case NaN => NaN
    case Inf(p) => Inf(!p)
    case Defined(s, q) => Defined(-s, q)
  }

  /** np.clip(c, -1, 1): NaN passes through, infinities and larger magnitudes become ±1. */
  function ClipUnit(c: Coef): (r: Coef)
    ensures r.NaN? <==> c.NaN?
    ensures !r.Inf? && (r.Defined? ==> r.square <= 1.0)
    ensures c.Defined? && c.square <= 1.0 ==> r == c
  {
    match c
    case NaN => NaN
    case Inf(p) => Defined(if p then 1 else -1, 1.0)
    case Defined(s, q) => if q > 1.0 then Defined(s, 1.0) else c
  }

  /**
   * The raw-sum Pearson coefficient of one row x against the correlate y
   * (py_RMAP/RMAP.py, get_RMAP_np, for a single row).
   */
  function RowCoef(x: seq<real>, y: seq<real>): (r: Coef)
    requires |x| == |y|
    ensures !r.Inf?
    ensures r.Defined? ==> r.sign == Sign(CoMoment(x, y))
  {
    CoMomentBound(x, y);
    SquarePositive(CoMoment(x, y));
    DivideBySqrt(CoMoment(x, y), Mul(CoMoment(x, x), CoMoment(y, y)))
  }

  /**
   * get_RMAP_np: the vectorised form. The three per-row sums Σxy, Σx and Σx² are computed
   * as whole vectors first and the correlate's term once; entry v only reads row v and y.
   */
  function GetRmapNp(X: seq<seq<real>>, y: seq<real>): (r: seq<Coef>)
    requires forall v :: 0 <= v < |X| ==> |X[v]| == |y|
    ensures |r| == |X|
    ensures forall v :: 0 <= v < |X| ==> r[v] == RowCoef(X[v], y)
  {
    var n := |y| as real;
    var sxy := seq(|X|, v requires 0 <= v < |X| => Dot(X[v], y));
    var sx := seq(|X|, v requires 0 <= v < |X| => Sum(X[v]));
    var sxx := seq(|X|, v requires 0 <= v < |X| => Dot(X[v], X[v]));
    var yTerm := Mul(n, Dot(y, y)) - Mul(Sum(y), Sum(y));
    seq(|X|, v requires 0 <= v < |X| =>
      DivideBySqrt(Mul(n, sxy[v]) - Mul(sx[v], Sum(y)), Mul(Mul(n, sxx[v]) - Mul(sx[v], sx[v]), yTerm)))
  }

  /**
   * np.corrcoef(a, b)[0][1]: the covariance of the centred vectors with N − 1 degrees of
   * freedom, divided by the square root of the product of the two variances, clipped to
   * [−1, 1]. With fewer than two samples the N − 1 divisor is zero and the result is NaN.
   */
  function CorrCoef(a: seq<real>, b: seq<real>): (r: Coef)
    requires |a| == |b|
    ensures |a| <= 1 ==> r.NaN?
    ensures !r.Inf? && (r.Defined? ==> r.square <= 1.0)
  {
    if |a| <= 1 then NaN
    else
      var m := (|a| - 1) as real;
      var ma, mb := Mean(a), Mean(b);
      var cov := CrossDev(a, ma, b, mb) / m;
      var va := CrossDev(a, ma, a, ma) / m;
      var vb := CrossDev(b, mb, b, mb) / m;
      ClipUnit(DivideBySqrt(cov, Mul(va, vb)))
  }

  /** get_corr_numba(fp, fp_test): np.corrcoef with the arguments in the order (fp_test, fp). */
  function GetCorrNumba(fp: seq<real>, fpTest: seq<real>): (r: Result<Coef, ShapeError>)
    ensures r.Ok? <==> |fp| == |fpTest|
    ensures r.Ok? ==> r.value == RowCoef(fp, fpTest) && r.value == RowCoef(fpTest, fp)
  {
    if |fp| != |fpTest| then Err(ShapeMismatch)
    else
      CorrCoefMatchesRowCoef(fpTest, fp);
      RowCoefSymmetric(fpTest, fp);
      Ok(CorrCoef(fpTest, fp))
  }

  // ---------------------------------------------------------------------------------
  // The meaning of a coefficient

  /** DivideBySqrt(num, den) stands for v exactly when v = num / sqrt(den). */
  lemma DivideBySqrtDenotes(num: real, den: real, v: real)
    ensures Denotes(DivideBySqrt(num, den), v) <==> IsQuotient(v, num, den)
  {
    if den > 0.0 {
      var q := Mul(num, num) / den;
      assert q * den == Mul(num, num);
      if Mul(Mul(v, v), den) == Mul(num, num) {
        assert Mul(v, v) == q;
      }
    }
  }

  /** A coefficient whose square is at most 1 stands for a number in [−1, 1]. */
  lemma DenotesUnitInterval(c: Coef, v: real)
    requires Denotes(c, v) && c.square <= 1.0
    ensures -1.0 <= v <= 1.0
  {
    if v > 1.0 {
      MulPositive(v - 1.0, v + 1.0);
    } else if v < -1.0 {
      MulPositive(-1.0 - v, 1.0 - v);
    }
  }

  /**
   * Scaling the numerator by k and the denominator by k² leaves the quotient unchanged
   * for k > 0 and negates it for k < 0.
   */
  lemma DivideBySqrtScale(k: real, num: real, den: real)
    requires k != 0.0
    ensures DivideBySqrt(Mul(k, num), Mul(Mul(k, k), den))
         == if k > 0.0 then DivideBySqrt(num, den) else Negate(DivideBySqrt(num, den))
  {
    var kk := Mul(k, k);
    SquarePositive(k);
    var num', den' := Mul(k, num), Mul(kk, den);
    ScaledSign(kk, den);
    ScaledSign(k, num);
    if den > 0.0 {
      assert Mul(num', num') == Mul(kk, Mul(num, num));
      CancelPositive(kk, Mul(num, num), den);
    }
  }

  /** The sign of k·x is the product of the signs. */
  lemma ScaledSign(k: real, x: real)
    requires k != 0.0
    ensures Sign(Mul(k, x)) == Sign(k) * Sign(x)
  {
    if k > 0.0 && x > 0.0 {
      MulPositive(k, x);
    } else if k > 0.0 && x < 0.0 {
      MulPositive(k, -x);
      assert Mul(k, -x) == -Mul(k, x);
    } else if k < 0.0 && x > 0.0 {
      MulPositive(-k, x);
      assert Mul(-k, x) == -Mul(k, x);
    } else if k < 0.0 && x < 0.0 {
      MulPositive(-k, -x);
      assert Mul(-k, -x) == Mul(k, x);
    }
  }

  lemma CancelPositive(k: real, a: real, d: real)
    requires k > 0.0 && d > 0.0
    ensures Mul(k, a) / Mul(k, d) == a / d
  {
    MulPositive(k, d);
    var q := a / d;
    assert q * d == a;
    assert Mul(k, d) * q == Mul(k, a);
  }

  // ---------------------------------------------------------------------------------
  // Properties of the per-row coefficient

  /**
   * The coefficient is NaN exactly when the row or the correlate is constant (its term
   * under the square root is then zero, and so is the numerator), and Defined otherwise:
   * it is never infinite.
   */
  lemma RowCoefNaNIffConstant(x: seq<real>, y: seq<real>)
    requires |x| == |y|
    ensures RowCoef(x, y).NaN? <==> IsConstant(x) || IsConstant(y)
    ensures RowCoef(x, y).Defined? <==> !IsConstant(x) && !IsConstant(y)
  {
    var A, B := CoMoment(x, x), CoMoment(y, y);
    RowTermZeroIffConstant(x);
    RowTermZeroIffConstant(y);
    if A > 0.0 && B > 0.0 {
      MulPositive(A, B);
    } else if A == 0.0 {
      ConstantCoMoment(x, y);
      assert Mul(A, B) == 0.0;
    } else {
      ConstantCoMoment(y, x);
      CoMomentSymmetric(x, y);
      assert Mul(A, B) == 0.0;
    }
  }

  /** A Defined coefficient has square at most 1: numerator² ≤ row term · correlate term. */
  lemma RowCoefSquareAtMostOne(x: seq<real>, y: seq<real>)
    requires |x| == |y|
    ensures RowCoef(x, y).Defined? ==> RowCoef(x, y).square <= 1.0
  {
    var num, den := CoMoment(x, y), Mul(CoMoment(x, x), CoMoment(y, y));
    if den > 0.0 {
      CoMomentBound(x, y);
      var q := Mul(num, num) / den;
      assert q * den == Mul(num, num);
    }
  }

  /** Every value get_RMAP_np produces lies in [−1, 1], as a Pearson coefficient must. */
  lemma RowCoefInUnitInterval(x: seq<real>, y: seq<real>, v: real)
    requires |x| == |y| && Denotes(RowCoef(x, y), v)
    ensures -1.0 <= v <= 1.0
  {
    RowCoefSquareAtMostOne(x, y);
    DenotesUnitInterval(RowCoef(x, y), v);
  }

  /** The formula is symmetric in the row and the correlate. */
  lemma RowCoefSymmetric(x: seq<real>, y: seq<real>)
    requires |x| == |y|
    ensures RowCoef(x, y) == RowCoef(y, x)
  {
    CoMomentSymmetric(x, y);
    assert Mul(CoMoment(x, x), CoMoment(y, y)) == Mul(CoMoment(y, y), CoMoment(x, x));
  }

  /**
   * Replacing the row x by k·x + c keeps the coefficient for k > 0, negates it for k < 0,
   * and gives NaN for k = 0 (a constant row).
   */
  lemma RowCoefAffine(x: seq<real>, k: real, c: real, y: seq<real>)
    requires |x| == |y|
    ensures RowCoef(Affine(x, k, c), y)
         == if k > 0.0 then RowCoef(x, y) else if k < 0.0 then Negate(RowCoef(x, y)) else NaN
  {
    var x' := Affine(x, k, c);
    var A, B := CoMoment(x, x), CoMoment(y, y);
    CoMomentAffine(x, k, c, y);
    RowTermAffine(x, k, c);
    assert Mul(Mul(Mul(k, k), A), B) == Mul(Mul(k, k), Mul(A, B));
    if k == 0.0 {
      assert Mul(k, CoMoment(x, y)) == 0.0;
      assert Mul(Mul(k, k), Mul(A, B)) == 0.0;
    } else {
      DivideBySqrtScale(k, CoMoment(x, y), Mul(A, B));
    }
  }

  /** Adding the same constant to every element of the row leaves the coefficient unchanged. */
  lemma RowCoefShiftInvariant(x: seq<real>, x': seq<real>, c: real, y: seq<real>)
    requires |x| == |x'| == |y|
    requires forall i :: 0 <= i < |x| ==> x'[i] == x[i] + c
    ensures RowCoef(x', y) == RowCoef(x, y)
  {
    assert x' == Affine(x, 1.0, c);
    RowCoefAffine(x, 1.0, c, y);
  }

  /** A non-constant row correlates with itself exactly: the coefficient is 1. */
  lemma PerfectCorrelation(y: seq<real>)
    requires !IsConstant(y)
    ensures RowCoef(y, y) == Defined(1, 1.0)
    ensures Denotes(RowCoef(y, y), 1.0)
  {
    var A := CoMoment(y, y);
    RowTermZeroIffConstant(y);
    MulPositive(A, A);
    assert Mul(A, A) / Mul(A, A) == 1.0;
  }

  /** A row that is the negation of a non-constant correlate gives exactly −1. */
  lemma PerfectAnticorrelation(x: seq<real>, y: seq<real>)
    requires |x| == |y| && !IsConstant(y)
    requires forall i :: 0 <= i < |x| ==> x[i] == -y[i]
    ensures RowCoef(x, y) == Defined(-1, 1.0)
    ensures Denotes(RowCoef(x, y), -1.0)
  {
    assert x == Affine(y, -1.0, 0.0);
    RowCoefAffine(y, -1.0, 0.0, y);
    PerfectCorrelation(y);
  }

  /** A constant correlate makes every entry of get_RMAP_np NaN. */
  lemma ConstantCorrelateAllNaN(X: seq<seq<real>>, y: seq<real>)
    requires forall v :: 0 <= v < |X| ==> |X[v]| == |y|
    requires IsConstant(y)
    ensures forall v :: 0 <= v < |X| ==> GetRmapNp(X, y)[v] == NaN
  {
    forall v | 0 <= v < |X|
      ensures GetRmapNp(X, y)[v] == NaN
    {
      RowCoefNaNIffConstant(X[v], y);
    }
  }

  /**
   * np.corrcoef agrees with the raw-sum formula on every pair of equal-length vectors:
   * centring, the N − 1 divisor and the clip to [−1, 1] change nothing over exact reals.
   */
  lemma CorrCoefMatchesRowCoef(a: seq<real>, b: seq<real>)
    requires |a| == |b|
    ensures CorrCoef(a, b) == RowCoef(a, b)
  {
    RowCoefNaNIffConstant(a, b);
    if |a| <= 1 {
      assert IsConstant(a);
    } else {
      var n, m := |a| as real, (|a| - 1) as real;
      var ma, mb := Mean(a), Mean(b);
      var A, B, C := CrossDev(a, ma, a, ma), CrossDev(b, mb, b, mb), CrossDev(a, ma, b, mb);
      CoMomentCentred(a, b);
      CoMomentCentred(a, a);
      CoMomentCentred(b, b);
      CorrScaling(n, |b| as real, m, A, B, C);
      DivideBySqrtScale(Mul(n, m), C / m, Mul(A / m, B / m));
      RowCoefSquareAtMostOne(a, b);
    }
  }

  lemma CorrScaling(n: real, n': real, m: real, A: real, B: real, C: real)
    requires n > 0.0 && m > 0.0 && n == n'
    ensures Mul(n, m) > 0.0
    ensures Mul(Mul(n, m), C / m) == Mul(n, C)
    ensures Mul(Mul(Mul(n, m), Mul(n, m)), Mul(A / m, B / m)) == Mul(Mul(n, A), Mul(n', B))
  {
    MulPositive(n, m);
    assert (C / m) * m == C;
    assert (A / m) * m == A;
    assert (B / m) * m == B;
  }

  // ---------------------------------------------------------------------------------
  // A worked example

  /**
   * Rows [1, 2, 3], [4, 4, 4] and [1, 2, 4] against y = [1, 2, 3]: the first row is y
   * itself, the second is constant, and the third has numerator 9, row term 14 and
   * correlate term 6, so r = 9 / sqrt(84).
   */
  lemma WorkedExample()
    ensures GetRmapNp([[1.0, 2.0, 3.0], [4.0, 4.0, 4.0], [1.0, 2.0, 4.0]], [1.0, 2.0, 3.0])
         == [Defined(1, 1.0), NaN, Defined(1, 81.0 / 84.0)]
  {
    var y := [1.0, 2.0, 3.0];
    var X := [[1.0, 2.0, 3.0], [4.0, 4.0, 4.0], [1.0, 2.0, 4.0]];
    var r := GetRmapNp(X, y);
    assert y[0] != y[1];
    PerfectCorrelation(y);
    RowCoefNaNIffConstant(X[1], y);
    ThirdRow();
    assert r[0] == Defined(1, 1.0) && r[1] == NaN && r[2] == Defined(1, 81.0 / 84.0);
  }

  /** The third row's sums: Σx = 7, Σy = 6, Σxy = 17, Σx² = 21, Σy² = 14, so 9 / sqrt(14·6). */
  lemma ThirdRow()
    ensures RowCoef([1.0, 2.0, 4.0], [1.0, 2.0, 3.0]) == Defined(1, 81.0 / 84.0)
  {
  }

  /** The third entry of the worked example, 9 / sqrt(84) ≈ 0.98198, lies between 0.9819 and 0.9821. */
  lemma WorkedExampleValue(v: real)
    requires Denotes(Defined(1, 81.0 / 84.0), v)
    ensures 0.9819 < v < 0.9821
  {
    if v <= 0.9819 {
      MulNonNegative(0.9819 - v, 0.9819 + v);
    } else if v >= 0.9821 {
      MulNonNegative(v - 0.9821, v + 0.9821);
    }
  }
}
