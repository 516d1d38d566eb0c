/**
 * The summary sums that numpy's `np.sum` computes over one row, taken over exact reals,
 * and the algebra behind the raw-sum Pearson formula: the centred form of the co-moment,
 * non-negativity of the row term, and the Cauchy-Schwarz bound.
 */
module Sums {

  /** Σ s[i]: `np.sum` over one row. */
  function Sum(s: seq<real>): real
  {
    if |s| == 0 then 0.0 else s[0] + Sum(s[1..])
  }

  /** Σ a[i]·b[i]: `np.sum(x * y)`; the sum of squares `np.sum(x**2)` is Dot(x, x). */
  function Dot(a: seq<real>, b: seq<real>): real
    requires |a| == |b|
  {
    if |a| == 0 then 0.0 else Mul(a[0], b[0]) + Dot(a[1..], b[1..])
  }

  /**
   * N·Σab − Σa·Σb with N = |b| (the source's `len(y)`): the numerator of the raw-sum
   * formula; CoMoment(x, x) is the row term N·Σx² − (Σx)².
   */
  function CoMoment(a: seq<real>, b: seq<real>): real
    requires |a| == |b|
  {
    Mul(|b| as real, Dot(a, b)) - Mul(Sum(a), Sum(b))
  }

  /** Σ (a[i] − p)·(b[i] − q): the cross product of a and b centred at p and q. */
  function CrossDev(a: seq<real>, p: real, b: seq<real>, q: real): real
    requires |a| == |b|
  {
    if |a| == 0 then 0.0 else Mul(a[0] - p, b[0] - q) + CrossDev(a[1..], p, b[1..], q)
  }

  function Mean(a: seq<real>): real
    requires |a| > 0
  {
    Sum(a) / |a| as real
  }

  /** Every element equals every other: a zero-variance voxel row. */
  predicate IsConstant(a: seq<real>)
  {
    forall i, j :: 0 <= i < |a| && 0 <= j < |a| ==> a[i] == a[j]
  }

  /** k·a[i] + c for every i. */
  function Affine(a: seq<real>, k: real, c: real): (r: seq<real>)
    ensures |r| == |a|
  {
    seq(|a|, i requires 0 <= i < |a| => k * a[i] + c)
  }

  lemma {:induction false} DotSymmetric(a: seq<real>, b: seq<real>)
    requires |a| == |b|
    ensures Dot(a, b) == Dot(b, a)
  {
    if |a| > 0 {
      DotSymmetric(a[1..], b[1..]);
    }
  }

  lemma CoMomentSymmetric(a: seq<real>, b: seq<real>)
    requires |a| == |b|
    ensures CoMoment(a, b) == CoMoment(b, a)
  {
    DotSymmetric(a, b);
  }

  /** Expanding the centred cross product into raw sums. */
  lemma {:induction false} CrossDevExpand(a: seq<real>, p: real, b: seq<real>, q: real)
    requires |a| == |b|
    ensures CrossDev(a, p, b, q) == Dot(a, b) - Mul(q, Sum(a)) - Mul(p, Sum(b)) + Mul(|a| as real, Mul(p, q))
  {
    if |a| > 0 {
      CrossDevExpand(a[1..], p, b[1..], q);
      CrossDevExpandCons(a[0], a[1..], p, b[0], b[1..], q);
      assert [a[0]] + a[1..] == a;
      assert [b[0]] + b[1..] == b;
    }
  }

  lemma CrossDevExpandCons(x: real, a: seq<real>, p: real, y: real, b: seq<real>, q: real)
    requires |a| == |b|
    requires CrossDev(a, p, b, q) == Dot(a, b) - Mul(q, Sum(a)) - Mul(p, Sum(b)) + Mul(|a| as real, Mul(p, q))
    ensures CrossDev([x] + a, p, [y] + b, q)
         == Dot([x] + a, [y] + b) - Mul(q, Sum([x] + a)) - Mul(p, Sum([y] + b)) + Mul(|[x] + a| as real, Mul(p, q))
  {
    CrossDevCons(x, a, p, y, b, q);
    DotCons(x, a, y, b);
    SumCons(x, a);
    SumCons(y, b);
    ExpandStep(x, y, p, q, |[x] + a| as real, |a| as real, Dot(a, b), Sum(a), Sum(b), CrossDev(a, p, b, q));
  }

  lemma ExpandStep(x: real, y: real, p: real, q: real, n: real, n': real, d: real, sa: real, sb: real, cd: real)
    requires n == n' + 1.0
    requires cd == d - Mul(q, sa) - Mul(p, sb) + Mul(n', Mul(p, q))
    ensures Mul(x - p, y - q) + cd == (Mul(x, y) + d) - Mul(q, x + sa) - Mul(p, y + sb) + Mul(n, Mul(p, q))
  {
  }

  /** A sum of squares is non-negative, and positive as soon as one term is not zero. */
  lemma {:induction false} SquaresNonNegative(a: seq<real>, p: real)
    ensures CrossDev(a, p, a, p) >= 0.0
    ensures (exists i :: 0 <= i < |a| && a[i] != p) ==> CrossDev(a, p, a, p) > 0.0
  {
    if |a| > 0 {
      SquaresNonNegative(a[1..], p);
      SquarePositive(a[0] - p);
      if exists i :: 0 <= i < |a| && a[i] != p {
        var i :| 0 <= i < |a| && a[i] != p;
        if i > 0 {
          assert a[1..][i - 1] != p;
        }
      }
    }
  }

  /**
   * x·y as a function. Facts about squares are stated on Mul(x, x): the solver
   * rewrites a comparison of the raw product x * x with zero into one about x alone,
   * which loses the product that the surrounding sums need.
   */
  function Mul(x: real, y: real): real
  {
    x * y
  }

  lemma MulPositive(a: real, b: real)
    requires a > 0.0 && b > 0.0
    ensures Mul(a, b) > 0.0
  {
  }

  lemma MulNonNegative(a: real, b: real)
    requires a >= 0.0 && b >= 0.0
    ensures Mul(a, b) >= 0.0
  {
    if a > 0.0 && b > 0.0 {
      MulPositive(a, b);
    }
  }

  /** A non-negative product with a positive factor has a non-negative other factor. */
  lemma PositiveFactor(a: real, b: real)
    requires a > 0.0 && Mul(a, b) >= 0.0
    ensures b >= 0.0
  {
    if b < 0.0 {
      MulPositive(a, -b);
    }
  }

  /** x² ≥ 0, and x² > 0 when x ≠ 0. */
  lemma SquarePositive(x: real)
    ensures Mul(x, x) >= 0.0
    ensures x != 0.0 ==> Mul(x, x) > 0.0
  {
    if x > 0.0 {
      MulPositive(x, x);
    } else if x < 0.0 {
      MulPositive(-x, -x);
      assert Mul(-x, -x) == Mul(x, x);
    }
  }

  /** Centring a at a point every element equals leaves nothing to multiply. */
  lemma {:induction false} CrossDevAtCentre(a: seq<real>, p: real, b: seq<real>, q: real)
    requires |a| == |b|
    requires forall i :: 0 <= i < |a| ==> a[i] == p
    ensures CrossDev(a, p, b, q) == 0.0
  {
    if |a| > 0 {
      assert forall i :: 0 <= i < |a[1..]| ==> a[1..][i] == p;
      CrossDevAtCentre(a[1..], p, b[1..], q);
    }
  }

  /** One induction step of Cauchy-Schwarz: X² ≤ YZ for X = C + uv, Y = A + u², Z = B + v², when C² ≤ AB. */
  lemma CauchySchwarzStep(A: real, B: real, C: real, u: real, v: real, X: real, Y: real, Z: real)
    requires A >= 0.0 && B >= 0.0 && Mul(C, C) <= Mul(A, B)
    requires A == 0.0 ==> C == 0.0
    requires X == C + Mul(u, v) && Y == A + Mul(u, u) && Z == B + Mul(v, v)
    ensures Mul(X, X) <= Mul(Y, Z)
  {
    GapNonNegative(A, B, C, u, v);
    StepAlgebra(A, B, C, u, v);
  }

  /** The cross terms of the step: A·v² + B·u² − 2·C·uv ≥ 0. */
  lemma GapNonNegative(A: real, B: real, C: real, u: real, v: real)
    requires A >= 0.0 && B >= 0.0 && Mul(C, C) <= Mul(A, B)
    requires A == 0.0 ==> C == 0.0
    ensures Mul(A, Mul(v, v)) + Mul(B, Mul(u, u)) - 2.0 * Mul(C, Mul(u, v)) >= 0.0
  {
    var gap := Mul(A, Mul(v, v)) + Mul(B, Mul(u, u)) - 2.0 * Mul(C, Mul(u, v));
    SquarePositive(u);
    MulNonNegative(B, Mul(u, u));
    if A > 0.0 {
      var w := A * v - C * u;
      SquarePositive(w);
      MulNonNegative(Mul(u, u), Mul(A, B) - Mul(C, C));
      GapIdentity(A, B, C, u, v);
      PositiveFactor(A, gap);
    }
  }

  lemma GapIdentity(A: real, B: real, C: real, u: real, v: real)
    ensures Mul(A, Mul(A, Mul(v, v)) + Mul(B, Mul(u, u)) - 2.0 * Mul(C, Mul(u, v)))
         == Mul(A * v - C * u, A * v - C * u) + Mul(Mul(u, u), Mul(A, B) - Mul(C, C))
  {
  }

  /** Expanding (C + uv)² and (A + u²)(B + v²). */
  lemma StepAlgebra(A: real, B: real, C: real, u: real, v: real)
    ensures Mul(C + Mul(u, v), C + Mul(u, v)) == Mul(C, C) + 2.0 * Mul(C, Mul(u, v)) + Mul(Mul(u, u), Mul(v, v))
    ensures Mul(A + Mul(u, u), B + Mul(v, v))
         == Mul(A, B) + Mul(A, Mul(v, v)) + Mul(B, Mul(u, u)) + Mul(Mul(u, u), Mul(v, v))
  {
  }

  /** A row with zero squared deviation from p has zero cross product with every row. */
  lemma ZeroSquaresZeroCross(a: seq<real>, p: real, b: seq<real>, q: real)
    requires |a| == |b|
    ensures CrossDev(a, p, a, p) == 0.0 ==> CrossDev(a, p, b, q) == 0.0
  {
    SquaresNonNegative(a, p);
    if CrossDev(a, p, a, p) == 0.0 {
      CrossDevAtCentre(a, p, b, q);
    }
  }

  /** Cauchy-Schwarz for centred cross products. */
  lemma {:induction false} CauchySchwarz(a: seq<real>, p: real, b: seq<real>, q: real)
    requires |a| == |b|
    ensures Mul(CrossDev(a, p, b, q), CrossDev(a, p, b, q)) <= Mul(CrossDev(a, p, a, p), CrossDev(b, q, b, q))
  {
    if |a| > 0 {
      CauchySchwarz(a[1..], p, b[1..], q);
      CauchySchwarzCons(a[0], a[1..], p, b[0], b[1..], q);
      assert [a[0]] + a[1..] == a;
      assert [b[0]] + b[1..] == b;
    }
  }

  /** The inductive step of CauchySchwarz: the bound for the tails extends to rows one longer. */
  lemma CauchySchwarzCons(x: real, a: seq<real>, p: real, y: real, b: seq<real>, q: real)
    requires |a| == |b|
    requires Mul(CrossDev(a, p, b, q), CrossDev(a, p, b, q)) <= Mul(CrossDev(a, p, a, p), CrossDev(b, q, b, q))
    ensures Mul(CrossDev([x] + a, p, [y] + b, q), CrossDev([x] + a, p, [y] + b, q))
         <= Mul(CrossDev([x] + a, p, [x] + a, p), CrossDev([y] + b, q, [y] + b, q))
  {
    var u, v := x - p, y - q;
    var A, B, C := CrossDev(a, p, a, p), CrossDev(b, q, b, q), CrossDev(a, p, b, q);
    CrossDevCons(x, a, p, y, b, q);
    CrossDevCons(x, a, p, x, a, p);
    CrossDevCons(y, b, q, y, b, q);
    SquaresNonNegative(a, p);
    SquaresNonNegative(b, q);
    ZeroSquaresZeroCross(a, p, b, q);
    CauchySchwarzStep(A, B, C, u, v, CrossDev([x] + a, p, [y] + b, q),
                      CrossDev([x] + a, p, [x] + a, p), CrossDev([y] + b, q, [y] + b, q));
  }

  lemma DotCons(x: real, a: seq<real>, y: real, b: seq<real>)
    requires |a| == |b|
    ensures Dot([x] + a, [y] + b) == Mul(x, y) + Dot(a, b)
  {
    assert ([x] + a)[1..] == a;
    assert ([y] + b)[1..] == b;
  }

  lemma SumCons(x: real, a: seq<real>)
    ensures Sum([x] + a) == x + Sum(a)
  {
    assert ([x] + a)[1..] == a;
  }

  lemma CrossDevCons(x: real, a: seq<real>, p: real, y: real, b: seq<real>, q: real)
    requires |a| == |b|
    ensures CrossDev([x] + a, p, [y] + b, q) == Mul(x - p, y - q) + CrossDev(a, p, b, q)
  {
    assert ([x] + a)[1..] == a;
    assert ([y] + b)[1..] == b;
  }

  /** The raw-sum co-moment is N times the co-moment of the centred rows. */
  lemma CoMomentCentred(a: seq<real>, b: seq<real>)
    requires |a| == |b| > 0
    ensures CoMoment(a, b) == Mul(|a| as real, CrossDev(a, Mean(a), b, Mean(b)))
  {
    var ma, mb := Mean(a), Mean(b);
    CrossDevExpand(a, ma, b, mb);
    CentringAlgebra(|a| as real, |b| as real, Dot(a, b), Sum(a), Sum(b), ma, mb,
                    CrossDev(a, ma, b, mb), CoMoment(a, b));
  }

  lemma CentringAlgebra(n: real, m: real, d: real, sa: real, sb: real, ma: real, mb: real, cd: real, cm: real)
    requires n > 0.0 && n == m && ma == sa / n && mb == sb / m
    requires cd == d - Mul(mb, sa) - Mul(ma, sb) + Mul(n, Mul(ma, mb))
    requires cm == Mul(m, d) - Mul(sa, sb)
    ensures cm == Mul(n, cd)
  {
    assert n * ma == sa && n * mb == sb;
    assert n * (mb * sa) == sa * sb;
    assert n * (ma * sb) == sa * sb;
    assert n * (n * ma * mb) == (n * ma) * (n * mb);
  }

  /** Elements all equal to c: Σa = N·c. */
  lemma {:induction false} SumOfConstant(a: seq<real>, c: real)
    requires forall i :: 0 <= i < |a| ==> a[i] == c
    ensures Sum(a) == |a| as real * c
  {
    if |a| > 0 {
      assert forall i :: 0 <= i < |a[1..]| ==> a[1..][i] == c;
      SumOfConstant(a[1..], c);
    }
  }

  /**
   * The row term N·Σx² − (Σx)² is never negative, and it is zero exactly when the row
   * is constant (including the empty and one-element rows).
   */
  lemma RowTermZeroIffConstant(a: seq<real>)
    ensures CoMoment(a, a) >= 0.0
    ensures CoMoment(a, a) == 0.0 <==> IsConstant(a)
  {
    if |a| > 0 {
      var n, m := |a| as real, Mean(a);
      CoMomentCentred(a, a);
      SquaresNonNegative(a, m);
      assert n * CrossDev(a, m, a, m) >= 0.0 * CrossDev(a, m, a, m);
      if IsConstant(a) {
        ConstantCoMoment(a, a);
      } else {
        var i, j :| 0 <= i < |a| && 0 <= j < |a| && a[i] != a[j];
        assert a[i] != m || a[j] != m;
        assert n * CrossDev(a, m, a, m) > 0.0 * CrossDev(a, m, a, m);
      }
    }
  }

  /** A constant row has a zero co-moment with every other row. */
  lemma ConstantCoMoment(a: seq<real>, b: seq<real>)
    requires |a| == |b| && IsConstant(a)
    ensures CoMoment(a, b) == 0.0
  {
    if |a| > 0 {
      SumOfConstant(a, a[0]);
      assert Mean(a) == a[0];
      CoMomentCentred(a, b);
      CrossDevAtCentre(a, Mean(a), b, Mean(b));
    }
  }

  /** Cauchy-Schwarz for the raw-sum form: numerator² ≤ row term · correlate term. */
  lemma CoMomentBound(a: seq<real>, b: seq<real>)
    requires |a| == |b|
    ensures Mul(CoMoment(a, b), CoMoment(a, b)) <= Mul(CoMoment(a, a), CoMoment(b, b))
  {
    if |a| > 0 {
      var ma, mb := Mean(a), Mean(b);
      CoMomentCentred(a, b);
      CoMomentCentred(a, a);
      CoMomentCentred(b, b);
      CauchySchwarz(a, ma, b, mb);
      ScaledBound(|a| as real, CrossDev(a, ma, a, ma), CrossDev(b, mb, b, mb), CrossDev(a, ma, b, mb));
    }
  }

  lemma ScaledBound(n: real, A: real, B: real, C: real)
    requires n > 0.0 && Mul(C, C) <= Mul(A, B)
    ensures Mul(Mul(n, C), Mul(n, C)) <= Mul(Mul(n, A), Mul(n, B))
  {
    var nn := Mul(n, n);
    MulPositive(n, n);
    MulNonNegative(nn, Mul(A, B) - Mul(C, C));
    assert Mul(Mul(n, C), Mul(n, C)) == Mul(nn, Mul(C, C));
    assert Mul(Mul(n, A), Mul(n, B)) == Mul(nn, Mul(A, B));
  }

  lemma {:induction false} SumAffine(a: seq<real>, k: real, c: real)
    ensures Sum(Affine(a, k, c)) == Mul(k, Sum(a)) + Mul(|a| as real, c)
  {
    if |a| > 0 {
      AffineTail(a, k, c);
      SumAffine(a[1..], k, c);
    }
  }

  lemma {:induction false} DotAffine(a: seq<real>, k: real, c: real, b: seq<real>)
    requires |a| == |b|
    ensures Dot(Affine(a, k, c), b) == Mul(k, Dot(a, b)) + Mul(c, Sum(b))
  {
    if |a| > 0 {
      AffineTail(a, k, c);
      DotAffine(a[1..], k, c, b[1..]);
    }
  }

  lemma AffineTail(a: seq<real>, k: real, c: real)
    requires |a| > 0
    ensures Affine(a, k, c)[1..] == Affine(a[1..], k, c)
  {
    var x, y := Affine(a, k, c)[1..], Affine(a[1..], k, c);
    assert |x| == |y|;
    forall i | 0 <= i < |x| ensures x[i] == y[i] {
      assert x[i] == Affine(a, k, c)[i + 1];
    }
  }

  /** Replacing a row x by k·x + c scales its numerator with any row b by k. */
  lemma CoMomentAffine(a: seq<real>, k: real, c: real, b: seq<real>)
    requires |a| == |b|
    ensures CoMoment(Affine(a, k, c), b) == Mul(k, CoMoment(a, b))
  {
    var x := Affine(a, k, c);
    SumAffine(a, k, c);
    DotAffine(a, k, c, b);
    NumeratorAlgebra(|a| as real, |b| as real, k, c, Sum(a), Sum(b), Dot(a, b), Sum(x), Dot(x, b),
                     CoMoment(a, b), CoMoment(x, b));
  }

  /** Replacing a row x by k·x + c scales its row term by k². */
  lemma RowTermAffine(a: seq<real>, k: real, c: real)
    ensures CoMoment(Affine(a, k, c), Affine(a, k, c)) == Mul(Mul(k, k), CoMoment(a, a))
  {
    var x := Affine(a, k, c);
    SumAffine(a, k, c);
    DotAffine(a, k, c, x);
    DotSymmetric(a, x);
    DotAffine(a, k, c, a);
    RowTermAlgebra(|a| as real, |x| as real, k, c, Sum(a), Dot(a, a), Sum(x), Dot(a, x), Dot(x, x),
                   CoMoment(a, a), CoMoment(x, x));
  }

  lemma NumeratorAlgebra(n: real, m: real, k: real, c: real, sa: real, sb: real, dab: real, sx: real, dxb: real,
                         cab: real, cxb: real)
    requires n == m
    requires sx == Mul(k, sa) + Mul(n, c)
    requires dxb == Mul(k, dab) + Mul(c, sb)
    requires cab == Mul(m, dab) - Mul(sa, sb) && cxb == Mul(m, dxb) - Mul(sx, sb)
    ensures cxb == Mul(k, cab)
  {
  }

  lemma RowTermAlgebra(n: real, m: real, k: real, c: real, sa: real, daa: real, sx: real, dax: real, dxx: real,
                       caa: real, cxx: real)
    requires n == m
    requires sx == Mul(k, sa) + Mul(n, c)
    requires dax == Mul(k, daa) + Mul(c, sa)
    requires dxx == Mul(k, dax) + Mul(c, sx)
    requires caa == Mul(n, daa) - Mul(sa, sa) && cxx == Mul(m, dxx) - Mul(sx, sx)
    ensures cxx == Mul(Mul(k, k), caa)
  {
    assert dxx == k * k * daa + 2.0 * k * c * sa + n * c * c;
  }
}
