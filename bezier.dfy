/** Polynomial and rational Bézier curves: binomial coefficients, the
    Bernstein basis, curve points and curve sampling, over exact reals. */
module Bezier {
  import opened Common
  import opened Geometry2D
  import opened Summation

  // Binomial coefficients

  /** Pascal's triangle: the number of `k`-element subsets of `n` items,
      zero when `k` lies outside `0 .. n`. */
  function Choose(n: int, k: int): nat
    decreases n
  {
    if k < 0 || k > n then 0
    else if k == 0 || k == n then 1
    else Choose(n - 1, k - 1) + Choose(n - 1, k)
  }

  function Factorial(n: nat): nat {
    if n == 0 then 1 else n * Factorial(n - 1)
  }

  /** Absorption: `(k + 1) · C(n, k + 1) == n · C(n - 1, k)`. */
  lemma {:induction false} AbsorbUpper(n: int, k: int)
    requires n >= 1 && k >= 0
    ensures (k + 1) * Choose(n, k + 1) == n * Choose(n - 1, k)
    decreases n, 1
  {
    if k + 1 > n || k + 1 == n {
    } else {
      AbsorbUpper(n - 1, k);
      AbsorbLower(n - 1, k);
      var x := Choose(n - 1, k);
      var y := Choose(n - 1, k + 1);
      assert Choose(n, k + 1) == x + y;
      assert (k + 1) * y == (n - 1) * Choose(n - 2, k);
      assert (n - 1 - k) * x == (n - 1) * Choose(n - 2, k);
      Regroup(k + 1, n - 1 - k, x, y);
    }
  }

  lemma Regroup(p: int, q: int, x: int, y: int)
    requires p * y == q * x
    ensures p * (x + y) == (p + q) * x
  {
  }

  /** The companion identity `(m - k) · C(m, k) == m · C(m - 1, k)`. */
  lemma {:induction false} AbsorbLower(m: int, k: int)
    requires m >= 0 && k >= 0
    ensures (m - k) * Choose(m, k) == m * Choose(m - 1, k)
    decreases m, 2
  {
    if m == 0 || k == 0 || k >= m {
      if k > m {
        assert Choose(m, k) == 0 && Choose(m - 1, k) == 0;
      }
    } else {
      AbsorbUpper(m, k - 1);
      var x := Choose(m - 1, k - 1);
      var y := Choose(m - 1, k);
      assert Choose(m, k) == x + y;
      assert k * Choose(m, k) == m * x;
      Separate(m, k, x, y);
    }
  }

  lemma Separate(m: int, k: int, x: int, y: int)
    requires k * (x + y) == m * x
    ensures (m - k) * (x + y) == m * y
  {
  }

  /** One step of the multiplicative formula: `C(n, i) · (n - i) == (i + 1) · C(n, i + 1)`. */
  lemma ChooseStep(n: int, i: int)
    requires 0 <= i < n
    ensures Choose(n, i) * (n - i) == (i + 1) * Choose(n, i + 1)
  {
    AbsorbUpper(n, i);
    AbsorbLower(n, i);
  }

  /** So the running product divides exactly at every step. */
  lemma ExactStep(n: int, i: int)
    requires 0 <= i < n
    ensures Choose(n, i) * (n - i) / (i + 1) == Choose(n, i + 1)
  {
    ChooseStep(n, i);
    DivideProduct((i + 1), Choose(n, i + 1));
  }

  lemma DivideProduct(d: int, q: int)
    requires d > 0
    ensures d * q / d == q
  {
    var quotient := d * q / d;
    var remainder := d * q % d;
    assert d * q == d * quotient + remainder && 0 <= remainder < d;
    Difference(d, q, quotient, remainder);
  }

  /** A multiple of `d` in `[0, d)` is zero, so the quotients agree. */
  lemma Difference(d: int, q: int, quotient: int, remainder: int)
    requires d > 0 && d * q == d * quotient + remainder && 0 <= remainder < d
    ensures q == quotient
  {
    assert d * (q - quotient) == remainder;
    if q - quotient >= 1 {
      MultipleAtLeast(d, q - quotient);
    } else if q - quotient <= -1 {
      MultipleAtLeast(d, quotient - q);
    }
  }

  lemma MultipleAtLeast(d: int, e: int)
    requires d > 0 && e >= 1
    ensures d * e >= d
  {
  }

  /** `C(n, k) == C(n, n - k)`: choosing what to keep is choosing what to drop. */
  lemma {:induction false} ChooseSymmetric(n: int, k: int)
    ensures Choose(n, k) == Choose(n, n - k)
    decreases n
  {
    if k < 0 || k > n || k == 0 || k == n {
    } else {
      ChooseSymmetric(n - 1, k - 1);
      ChooseSymmetric(n - 1, k);
    }
  }

  /** `k! · (n - k)! · C(n, k) == n!`. */
  lemma {:induction false} ChooseFactorial(n: nat, k: nat)
    requires k <= n
    ensures Factorial(k) * Factorial(n - k) * Choose(n, k) == Factorial(n)
  {
    if k > 0 {
      ChooseFactorial(n, k - 1);
      ChooseStep(n, k - 1);
      var f := Factorial(k - 1);
      var g := Factorial(n - k);
      assert Factorial(n - (k - 1)) == (n - k + 1) * g;
      FactorialRegroup(f, g, k, n - k + 1, Choose(n, k - 1), Choose(n, k));
    }
  }

  /** `(k f) g c' == f ((m g) c)` when `c · m == k · c'`. */
  lemma FactorialRegroup(f: int, g: int, k: int, m: int, c: int, c': int)
    requires c * m == k * c'
    ensures (k * f) * g * c' == f * (m * g) * c
  {
    assert (k * f) * g * c' == f * g * (k * c');
    assert f * (m * g) * c == f * g * (c * m);
  }

  /** The source's loop: after `k` is replaced by the smaller of `k` and
      `n - k`, the running product `result · (n - i) // (i + 1)` is `C(n, i)`. */
  method BinomialCoefficient(n: int, k: int) returns (r: int)
    ensures r == Choose(n, k)
  {
    if k < 0 || k > n {
      return 0;
    }
    if k == 0 || k == n {
      return 1;
    }
    var m := Min(k, n - k);
    ChooseSymmetric(n, k);
    r := 1;
    var i := 0;
    while i < m
      invariant 0 <= i <= m
      invariant r == Choose(n, i)
    {
      ExactStep(n, i);
      r := r * (n - i) / (i + 1);
      i := i + 1;
    }
  }

  // The Bernstein basis and the binomial theorem

  function Pow(x: real, e: nat): real {
    if e == 0 then 1.0 else x * Pow(x, e - 1)
  }

  lemma {:induction false} PowOne(e: nat)
    ensures Pow(1.0, e) == 1.0
  {
    if e > 0 {
      PowOne(e - 1);
    }
  }

  lemma PowZero(e: nat)
    requires e > 0
    ensures Pow(0.0, e) == 0.0
  {
  }

  /** `B(i, n)(t)`, zero outside the unit interval. */
  function Bernstein(n: nat, i: nat, t: real): real
    requires i <= n
  {
    if t < 0.0 || t > 1.0 then 0.0
    else (Choose(n, i) as real) * Pow(t, i) * Pow(1.0 - t, n - i)
  }

  method BernsteinPolynomial(n: nat, i: nat, t: real) returns (b: real)
    requires i <= n
    ensures b == Bernstein(n, i, t)
  {
    if t < 0.0 || t > 1.0 {
      return 0.0;
    }
    var c := BinomialCoefficient(n, i);
    b := (c as real) * Pow(t, i) * Pow(1.0 - t, n - i);
  }

  /** The `i`-th term of the expansion of `(a + b)^n`, zero past `n`. */
  function Term(n: nat, i: nat, a: real, b: real): real {
    if i > n then 0.0 else (Choose(n, i) as real) * Pow(a, i) * Pow(b, n - i)
  }

  /** The terms of the expansion of `(a + b)^n`, indexed by the power of `a`. */
  function Terms(n: nat, a: real, b: real): nat -> real {
    (i: nat) => Term(n, i, a, b)
  }

  /** Pascal's rule on terms: `T(n + 1, k) == a T(n, k - 1) + b T(n, k)`. */
  lemma TermStep(n: nat, k: nat, a: real, b: real)
    requires k >= 1
    ensures Term(n + 1, k, a, b) == a * Term(n, k - 1, a, b) + b * Term(n, k, a, b)
  {
    if k <= n {
      TermSplit(n, k, a, b);
      TermLeft(n, k, a, b);
      TermRight(n, k, a, b);
    } else if k == n + 1 {
      assert Term(n + 1, k, a, b) == a * Pow(a, n);
      assert Term(n, n, a, b) == Pow(a, n);
    }
  }

  /** Pascal's rule on the coefficient, with the powers kept together. */
  lemma TermSplit(n: nat, k: nat, a: real, b: real)
    requires 1 <= k <= n
    ensures Term(n + 1, k, a, b) == (Choose(n, k - 1) as real) * (Pow(a, k) * Pow(b, n + 1 - k))
      + (Choose(n, k) as real) * (Pow(a, k) * Pow(b, n + 1 - k))
  {
    SplitFactor(Choose(n, k - 1) as real, Choose(n, k) as real, Pow(a, k), Pow(b, n + 1 - k));
  }

  lemma SplitFactor(c1: real, c2: real, x: real, y: real)
    ensures (c1 + c2) * x * y == c1 * (x * y) + c2 * (x * y)
  {
  }

  lemma TermLeft(n: nat, k: nat, a: real, b: real)
    requires 1 <= k <= n
    ensures a * Term(n, k - 1, a, b) == (Choose(n, k - 1) as real) * (Pow(a, k) * Pow(b, n + 1 - k))
  {
    assert n - (k - 1) == n + 1 - k;
    ShiftLeft(Choose(n, k - 1) as real, a, Pow(a, k - 1), Pow(b, n + 1 - k));
  }

  lemma ShiftLeft(c: real, a: real, p: real, y: real)
    ensures a * (c * p * y) == c * ((a * p) * y)
  {
  }

  lemma TermRight(n: nat, k: nat, a: real, b: real)
    requires 1 <= k <= n
    ensures b * Term(n, k, a, b) == (Choose(n, k) as real) * (Pow(a, k) * Pow(b, n + 1 - k))
  {
    ShiftRight(Choose(n, k) as real, b, Pow(a, k), Pow(b, n - k));
  }

  lemma ShiftRight(c: real, b: real, x: real, q: real)
    ensures b * (c * x * q) == c * (x * (b * q))
  {
  }

  lemma TermFirst(n: nat, a: real, b: real)
    ensures Term(n + 1, 0, a, b) == b * Term(n, 0, a, b)
  {
  }

  /** The terms of degree `n` follow those of degree `n - 1` by Pascal's rule. */
  lemma TermsRecurrence(n: nat, k: nat, a: real, b: real)
    requires n >= 1
    ensures Terms(n, a, b)(0) == b * Terms(n - 1, a, b)(0)
    ensures forall i: nat {:trigger Terms(n, a, b)(i)} :: 1 <= i < k ==> Terms(n, a, b)(i) == a * Terms(n - 1, a, b)(i - 1) + b * Terms(n - 1, a, b)(i)
  {
    forall i: nat | 1 <= i < k
      ensures Terms(n, a, b)(i) == a * Terms(n - 1, a, b)(i - 1) + b * Terms(n - 1, a, b)(i)
    {
      TermsStep(n, i, a, b);
    }
    TermFirst(n - 1, a, b);
  }

  /** Pascal's rule on the term sequences at one index. */
  lemma TermsStep(n: nat, i: nat, a: real, b: real)
    requires n >= 1 && i >= 1
    ensures Terms(n, a, b)(i) == a * Terms(n - 1, a, b)(i - 1) + b * Terms(n - 1, a, b)(i)
  {
    TermStepDown(n, i, a, b);
    Rename(Terms(n, a, b)(i), Terms(n - 1, a, b)(i - 1), Terms(n - 1, a, b)(i),
      Term(n, i, a, b), Term(n - 1, i - 1, a, b), Term(n - 1, i, a, b), a, b);
  }

  /** Pascal's rule on terms, stated downwards from degree `n`. */
  lemma TermStepDown(n: nat, k: nat, a: real, b: real)
    requires n >= 1 && k >= 1
    ensures Term(n, k, a, b) == a * Term(n - 1, k - 1, a, b) + b * Term(n - 1, k, a, b)
  {
    TermStep(n - 1, k, a, b);
  }

  /** A linear relation between three values carries over to equal values. */
  lemma Rename(x: real, y: real, z: real, x': real, y': real, z': real, a: real, b: real)
    requires x == x' && y == y' && z == z' && x' == a * y' + b * z'
    ensures x == a * y + b * z
  {
  }

  /** The binomial theorem: the `n + 1` terms add up to `(a + b)^n`. */
  lemma {:induction false} BinomialTheorem(n: nat, a: real, b: real)
    ensures Sum(n + 1, Terms(n, a, b)) == Pow(a + b, n)
  {
    if n == 0 {
      assert Terms(0, a, b)(0) == 1.0;
    } else {
      BinomialTheorem(n - 1, a, b);
      BinomialStep(n, a, b);
    }
  }

  lemma BinomialStep(n: nat, a: real, b: real)
    requires n >= 1
    requires Sum(n, Terms(n - 1, a, b)) == Pow(a + b, n - 1)
    ensures Sum(n + 1, Terms(n, a, b)) == Pow(a + b, n)
  {
    TermsRecurrence(n, n + 1, a, b);
    assert Terms(n - 1, a, b)(n) == 0.0;
    SumOfRecurrence(n, Terms(n, a, b), Terms(n - 1, a, b), a, b, Sum(n + 1, Terms(n, a, b)), Pow(a + b, n - 1));
  }

  /** The Bernstein basis of degree `n` at `t`, indexed by `i`, zero past `n`. */
  function Basis(n: nat, t: real): nat -> real {
    (i: nat) => if i <= n then Bernstein(n, i, t) else 0.0
  }

  /** On the unit interval the Bernstein basis is a partition of unity. */
  lemma PartitionOfUnity(n: nat, t: real)
    requires 0.0 <= t <= 1.0
    ensures Sum(n + 1, Basis(n, t)) == 1.0
  {
    forall i: nat | i < n + 1
      ensures Basis(n, t)(i) == Terms(n, t, 1.0 - t)(i)
    {
    }
    SumAgree(n + 1, Basis(n, t), Terms(n, t, 1.0 - t), Sum(n + 1, Basis(n, t)), Sum(n + 1, Terms(n, t, 1.0 - t)));
    BinomialTheorem(n, t, 1.0 - t);
    PowOne(n);
  }

  // Curve points

  /** The sum of `basis(i) * controls[i]` over the first `k` controls. */
  function CurveSum(controls: seq<Vec2>, basis: nat -> real, k: nat): Vec2
    requires k <= |controls|
  {
    if k == 0 then Vec2(0.0, 0.0)
    else
      var sum := CurveSum(controls, basis, k - 1);
      var b := basis(k - 1);
      Vec2(sum.x + b * controls[k - 1].x, sum.y + b * controls[k - 1].y)
  }

  /** The point of the polynomial curve at `t`, or the origin without controls. */
  function CurvePointOf(controls: seq<Vec2>, t: real): Vec2 {
    if controls == [] then Vec2(0.0, 0.0)
    else CurveSum(controls, Basis(|controls| - 1, t), |controls|)
  }

  method CurvePoint(controls: seq<Vec2>, t: real) returns (p: Vec2)
    ensures p == CurvePointOf(controls, t)
  {
    if controls == [] {
      return Vec2(0.0, 0.0);
    }
    var n := |controls| - 1;
    var x, y := 0.0, 0.0;
    for i := 0 to |controls|
      invariant Vec2(x, y) == CurveSum(controls, Basis(n, t), i)
    {
      var b := BernsteinPolynomial(n, i, t);
      CurveStep(controls, Basis(n, t), i, b, CurveSum(controls, Basis(n, t), i + 1), CurveSum(controls, Basis(n, t), i));
      x := x + b * controls[i].x;
      y := y + b * controls[i].y;
    }
    p := Vec2(x, y);
  }

  /** One more control point adds its share to the curve sum: `c` and `c'`
      are the sums over the first `k + 1` and `k` controls. */
  lemma CurveStep(controls: seq<Vec2>, basis: nat -> real, k: nat, b: real, c: Vec2, c': Vec2)
    requires k < |controls| && b == basis(k)
    requires c == CurveSum(controls, basis, k + 1) && c' == CurveSum(controls, basis, k)
    ensures c == Vec2(c'.x + b * controls[k].x, c'.y + b * controls[k].y)
  {
  }

  lemma BernsteinAtZero(n: nat, i: nat)
    requires i <= n
    ensures Bernstein(n, i, 0.0) == if i == 0 then 1.0 else 0.0
  {
    PowOne(n - i);
    if i > 0 {
      PowZero(i);
    }
  }

  lemma BernsteinAtOne(n: nat, i: nat)
    requires i <= n
    ensures Bernstein(n, i, 1.0) == if i == n then 1.0 else 0.0
  {
    PowOne(i);
    if i < n {
      PowZero(n - i);
    }
  }

  lemma {:induction false} PrefixAtZero(controls: seq<Vec2>, k: nat)
    requires 0 < k <= |controls|
    ensures CurveSum(controls, Basis(|controls| - 1, 0.0), k) == controls[0]
  {
    BernsteinAtZero(|controls| - 1, k - 1);
    if k > 1 {
      PrefixAtZero(controls, k - 1);
    }
  }

  lemma {:induction false} PrefixAtOne(controls: seq<Vec2>, k: nat)
    requires 0 < |controls| && k < |controls|
    ensures CurveSum(controls, Basis(|controls| - 1, 1.0), k) == Vec2(0.0, 0.0)
  {
    if k > 0 {
      BernsteinAtOne(|controls| - 1, k - 1);
      PrefixAtOne(controls, k - 1);
    }
  }

  /** The curve starts at the first control point and ends at the last. */
  lemma CurveEndpoints(controls: seq<Vec2>)
    requires controls != []
    ensures CurvePointOf(controls, 0.0) == controls[0]
    ensures CurvePointOf(controls, 1.0) == controls[|controls| - 1]
  {
    PrefixAtZero(controls, |controls|);
    PrefixAtOne(controls, |controls| - 1);
    BernsteinAtOne(|controls| - 1, |controls| - 1);
  }

  /** Below this magnitude the rational denominator counts as zero. */
  const DenominatorEpsilon: real := 0.0000000001

  /** The two weighted numerators and the denominator over the first `k` controls. */
  datatype Sums = Sums(x: real, y: real, w: real)

  function RationalSum(controls: seq<Vec2>, weights: seq<real>, basis: nat -> real, k: nat): Sums
    requires |controls| == |weights| && k <= |controls|
  {
    if k == 0 then Sums(0.0, 0.0, 0.0)
    else
      var sum := RationalSum(controls, weights, basis, k - 1);
      var wb := weights[k - 1] * basis(k - 1);
      Sums(sum.x + wb * controls[k - 1].x, sum.y + wb * controls[k - 1].y, sum.w + wb)
  }

  /** The point of the rational curve at `t`: the origin without controls,
      with mismatched weights, or with a vanishing denominator. */
  function RationalPointOf(controls: seq<Vec2>, weights: seq<real>, t: real): Vec2 {
    if controls == [] || |controls| != |weights| then Vec2(0.0, 0.0)
    else
      var sums := RationalSum(controls, weights, Basis(|controls| - 1, t), |controls|);
      if Abs(sums.w) < DenominatorEpsilon then Vec2(0.0, 0.0)
      else Vec2(sums.x / sums.w, sums.y / sums.w)
  }

  method RationalCurvePoint(controls: seq<Vec2>, weights: seq<real>, t: real) returns (p: Vec2)
    ensures p == RationalPointOf(controls, weights, t)
  {
    if controls == [] || |controls| != |weights| {
      return Vec2(0.0, 0.0);
    }
    var n := |controls| - 1;
    var numeratorX, numeratorY, denominator := 0.0, 0.0, 0.0;
    for i := 0 to |controls|
      invariant Sums(numeratorX, numeratorY, denominator) == RationalSum(controls, weights, Basis(n, t), i)
    {
      var b := BernsteinPolynomial(n, i, t);
      var wb := weights[i] * b;
      RationalStep(controls, weights, Basis(n, t), i, b, wb, RationalSum(controls, weights, Basis(n, t), i + 1), RationalSum(controls, weights, Basis(n, t), i));
      numeratorX := numeratorX + wb * controls[i].x;
      numeratorY := numeratorY + wb * controls[i].y;
      denominator := denominator + wb;
    }
    if Abs(denominator) < DenominatorEpsilon {
      return Vec2(0.0, 0.0);
    }
    p := Vec2(numeratorX / denominator, numeratorY / denominator);
  }

  /** One more control point adds its weighted share to each sum: `r` and
      `r'` are the sums over the first `k + 1` and `k` controls. */
  lemma RationalStep(controls: seq<Vec2>, weights: seq<real>, basis: nat -> real, k: nat, b: real, wb: real, r: Sums, r': Sums)
    requires |controls| == |weights| && k < |controls|
    requires b == basis(k) && wb == weights[k] * b
    requires r == RationalSum(controls, weights, basis, k + 1) && r' == RationalSum(controls, weights, basis, k)
    ensures r == Sums(r'.x + wb * controls[k].x, r'.y + wb * controls[k].y, r'.w + wb)
  {
  }

  // Equal weights

  /** The numerator of the rational sums along `axis`. */
  function Numerator(r: Sums, axis: Axis): real {
    if axis == X then r.x else r.y
  }

  /** The summands of the polynomial curve along `axis`, zero past the controls. */
  function CurveTerms(controls: seq<Vec2>, basis: nat -> real, axis: Axis): nat -> real {
    (i: nat) => if i < |controls| then basis(i) * Coordinate(controls[i], axis) else 0.0
  }

  /** The summands of the rational denominator, zero past the controls. */
  function DenominatorTerms(controls: seq<Vec2>, weights: seq<real>, basis: nat -> real): nat -> real
    requires |controls| == |weights|
  {
    (i: nat) => if i < |controls| then weights[i] * basis(i) else 0.0
  }

  /** The summands of the rational numerator along `axis`, zero past the controls. */
  function NumeratorTerms(controls: seq<Vec2>, weights: seq<real>, basis: nat -> real, axis: Axis): nat -> real
    requires |controls| == |weights|
  {
    (i: nat) => if i < |controls| then weights[i] * basis(i) * Coordinate(controls[i], axis) else 0.0
  }

  /** The curve sum `c` over the first `k` controls is, along `axis`, the
      sum `s` of the first `k` summands. */
  lemma {:induction false} CurveSumAlong(controls: seq<Vec2>, basis: nat -> real, k: nat, axis: Axis, c: Vec2, s: real)
    requires k <= |controls|
    requires c == CurveSum(controls, basis, k) && s == Sum(k, CurveTerms(controls, basis, axis))
    ensures Coordinate(c, axis) == s
  {
    if k > 0 {
      var c', s' := CurveSum(controls, basis, k - 1), Sum(k - 1, CurveTerms(controls, basis, axis));
      CurveSumAlong(controls, basis, k - 1, axis, c', s');
    }
  }

  /** The rational denominator `d` over the first `k` controls is the sum
      `s` of the first `k` summands. */
  lemma {:induction false} DenominatorSum(controls: seq<Vec2>, weights: seq<real>, basis: nat -> real, k: nat, d: real, s: real)
    requires |controls| == |weights| && k <= |controls|
    requires d == RationalSum(controls, weights, basis, k).w && s == Sum(k, DenominatorTerms(controls, weights, basis))
    ensures d == s
  {
    if k > 0 {
      var d', s' := RationalSum(controls, weights, basis, k - 1).w, Sum(k - 1, DenominatorTerms(controls, weights, basis));
      DenominatorSum(controls, weights, basis, k - 1, d', s');
    }
  }

  /** The rational numerator `r` over the first `k` controls is, along
      `axis`, the sum `s` of the first `k` summands. */
  lemma {:induction false} NumeratorSum(controls: seq<Vec2>, weights: seq<real>, basis: nat -> real, k: nat, axis: Axis, r: Sums, s: real)
    requires |controls| == |weights| && k <= |controls|
    requires r == RationalSum(controls, weights, basis, k) && s == Sum(k, NumeratorTerms(controls, weights, basis, axis))
    ensures Numerator(r, axis) == s
  {
    if k > 0 {
      var r', s' := RationalSum(controls, weights, basis, k - 1), Sum(k - 1, NumeratorTerms(controls, weights, basis, axis));
      NumeratorSum(controls, weights, basis, k - 1, axis, r', s');
    }
  }

  /** Equal weights that clear the denominator guard give the polynomial curve. */
  lemma RationalUniformWeights(controls: seq<Vec2>, weights: seq<real>, w: real, t: real)
    requires controls != [] && |weights| == |controls|
    requires forall i :: 0 <= i < |weights| ==> weights[i] == w
    requires w >= DenominatorEpsilon && 0.0 <= t <= 1.0
    ensures RationalPointOf(controls, weights, t) == CurvePointOf(controls, t)
  {
    var n, m := |controls| - 1, |controls|;
    var basis := Basis(n, t);
    PartitionOfUnity(n, t);
    var sums, c := RationalSum(controls, weights, basis, m), CurveSum(controls, basis, m);
    UniformSum(controls, weights, w, basis, 1.0);
    Unit(sums.w, w, 1.0);
    Cancel(sums.x, sums.w, w, c.x);
    Cancel(sums.y, sums.w, w, c.y);
  }

  lemma Unit(x: real, w: real, s: real)
    requires x == w * s && s == 1.0
    ensures x == w
  {
  }

  lemma Cancel(x: real, d: real, w: real, v: real)
    requires w != 0.0 && d == w && x == w * v
    ensures x / d == v
  {
  }

  /** With one weight `w` throughout and summed basis values `b`, the
      rational sums are `w` times the curve sum and `w * b`. */
  lemma UniformSum(controls: seq<Vec2>, weights: seq<real>, w: real, basis: nat -> real, b: real)
    requires |weights| == |controls|
    requires forall i :: 0 <= i < |weights| ==> weights[i] == w
    requires b == Sum(|controls|, basis)
    ensures RationalSum(controls, weights, basis, |controls|).w == w * b
    ensures RationalSum(controls, weights, basis, |controls|).x == w * CurveSum(controls, basis, |controls|).x
    ensures RationalSum(controls, weights, basis, |controls|).y == w * CurveSum(controls, basis, |controls|).y
  {
    var m := |controls|;
    var sums, c := RationalSum(controls, weights, basis, m), CurveSum(controls, basis, m);
    DenominatorSum(controls, weights, basis, m, sums.w, Sum(m, DenominatorTerms(controls, weights, basis)));
    SumScale(m, DenominatorTerms(controls, weights, basis), basis, w, Sum(m, DenominatorTerms(controls, weights, basis)), b);
    UniformAlong(controls, weights, w, basis, X, sums, c);
    UniformAlong(controls, weights, w, basis, Y, sums, c);
  }

  /** Along `axis` the rational numerator is `w` times the curve sum. */
  lemma UniformAlong(controls: seq<Vec2>, weights: seq<real>, w: real, basis: nat -> real, axis: Axis, sums: Sums, c: Vec2)
    requires |weights| == |controls|
    requires forall i :: 0 <= i < |weights| ==> weights[i] == w
    requires sums == RationalSum(controls, weights, basis, |controls|) && c == CurveSum(controls, basis, |controls|)
    ensures Numerator(sums, axis) == w * Coordinate(c, axis)
  {
    var m := |controls|;
    var s, e := Sum(m, NumeratorTerms(controls, weights, basis, axis)), Sum(m, CurveTerms(controls, basis, axis));
    NumeratorSum(controls, weights, basis, m, axis, sums, s);
    CurveSumAlong(controls, basis, m, axis, c, e);
    UniformTerms(controls, weights, w, basis, axis);
    SumScale(m, NumeratorTerms(controls, weights, basis, axis), CurveTerms(controls, basis, axis), w, Numerator(sums, axis), Coordinate(c, axis));
  }

  /** With one weight `w` throughout, each numerator summand is `w` times
      the curve summand. */
  lemma UniformTerms(controls: seq<Vec2>, weights: seq<real>, w: real, basis: nat -> real, axis: Axis)
    requires |weights| == |controls|
    requires forall i :: 0 <= i < |weights| ==> weights[i] == w
    ensures forall i: nat {:trigger NumeratorTerms(controls, weights, basis, axis)(i)} :: i < |controls| ==>
      NumeratorTerms(controls, weights, basis, axis)(i) == w * CurveTerms(controls, basis, axis)(i)
  {
    forall i: nat | i < |controls|
      ensures NumeratorTerms(controls, weights, basis, axis)(i) == w * CurveTerms(controls, basis, axis)(i)
    {
      Associate(w, basis(i), Coordinate(controls[i], axis));
    }
  }

  lemma Associate(w: real, b: real, v: real)
    ensures (w * b) * v == w * (b * v)
  {
  }

  // Sampling

  /** The evaluator the sampler uses: rational exactly when weights are given
      and match the controls in number. */
  function Evaluate(controls: seq<Vec2>, weights: Option<seq<real>>, t: real): Vec2 {
    if weights.Some? && |weights.value| == |controls| then RationalPointOf(controls, weights.value, t)
    else CurvePointOf(controls, t)
  }

  /** The sampled curve: the controls themselves when fewer than two, else
      the points at `t = i / numSamples` for `i = 0 .. numSamples`; `i / 0`
      raises, and a negative count samples nothing. */
  function SampledCurve(controls: seq<Vec2>, numSamples: int, weights: Option<seq<real>>): Result<seq<Vec2>> {
    if |controls| < 2 then Ok(controls)
    else if numSamples < 0 then Ok([])
    else if numSamples == 0 then Err(ZeroDivisionError)
    else Ok(seq(numSamples + 1, i => Evaluate(controls, weights, i as real / numSamples as real)))
  }

  method GenerateCurve(controls: seq<Vec2>, numSamples: int, weights: Option<seq<real>>) returns (r: Result<seq<Vec2>>)
    ensures r == SampledCurve(controls, numSamples, weights)
  {
    if |controls| < 2 {
      return Ok(controls);
    }
    var points: seq<Vec2> := [];
    var isRational := weights.Some? && |weights.value| == |controls|;
    var i := 0;
    while i < numSamples + 1
      invariant 0 <= i && (numSamples >= 0 ==> i <= numSamples + 1)
      invariant numSamples < 0 ==> i == 0
      invariant i > 0 ==> numSamples > 0
      invariant |points| == i
      invariant forall k :: 0 <= k < i ==> points[k] == Evaluate(controls, weights, k as real / numSamples as real)
    {
      if numSamples == 0 {
        return Err(ZeroDivisionError);
      }
      var t := i as real / numSamples as real;
      var point;
      if isRational {
        point := RationalCurvePoint(controls, weights.value, t);
      } else {
        point := CurvePoint(controls, t);
      }
      points := points + [point];
      i := i + 1;
    }
    assert numSamples > 0 ==> points == seq(numSamples + 1, k => Evaluate(controls, weights, k as real / numSamples as real));
    r := Ok(points);
  }

  /** A polynomial curve, sampled at least twice, runs from the first
      control point to the last. */
  lemma SampledEndpoints(controls: seq<Vec2>, numSamples: int)
    requires |controls| >= 2 && numSamples >= 1
    ensures SampledCurve(controls, numSamples, None).Ok?
    ensures |SampledCurve(controls, numSamples, None).value| == numSamples + 1
    ensures SampledCurve(controls, numSamples, None).value[0] == controls[0]
    ensures SampledCurve(controls, numSamples, None).value[numSamples] == controls[|controls| - 1]
  {
    CurveEndpoints(controls);
    assert numSamples as real / numSamples as real == 1.0;
  }

  /** Every sample parameter lies in the unit interval. */
  lemma SampleParameters(i: nat, numSamples: nat)
    requires 0 < numSamples && i <= numSamples
    ensures 0.0 <= i as real / numSamples as real <= 1.0
  {
  }
}
