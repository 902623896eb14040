/** Identities of real arithmetic used by the least-squares proofs. Each is stated over plain
    real variables and proved in a small context of its own; the relations the induction
    steps carry are named predicates, so that a step is matched rather than re-derived. */
module RealAlgebra {

  lemma Distrib(x: real, y: real, z: real)
    ensures x * (y + z) == x * y + x * z
    ensures x * (y - z) == x * y - x * z
  {
  }

  function Square(d: real): real
  {
    d * d
  }

  /** `d²` again, with its sign stated. It is kept apart from `Square` so that the sign is
      in scope only where a proof asks for it. */
  function NonnegativeSquare(d: real): (r: real)
    ensures r >= 0.0
  {
    d * d
  }

  lemma SquareNonnegative(d: real)
    ensures Square(d) >= 0.0
  {
    assert Square(d) == NonnegativeSquare(d);
  }

  /** `x · y`, which is nonzero when both factors are. */
  function Product(x: real, y: real): (r: real)
    ensures x != 0.0 && y != 0.0 ==> r != 0.0
  {
    x * y
  }

  /** A square is zero only for zero. */
  lemma SquareZero(d: real)
    ensures Square(d) == 0.0 <==> d == 0.0
  {
    assert Square(d) == Product(d, d);
  }

  /** `n · lo <= s <= n · hi`. */
  predicate ScaledBetween(n: real, lo: real, s: real, hi: real)
  {
    n * lo <= s <= n * hi
  }

  /** Adding a value between the bounds to a sum of `n` such values. */
  lemma ScaledBetweenStep(n: real, lo: real, s: real, hi: real, x: real)
    requires ScaledBetween(n, lo, s, hi) && lo <= x <= hi
    ensures ScaledBetween(n + 1.0, lo, x + s, hi)
  {
    assert (n + 1.0) * lo == n * lo + lo;
    assert (n + 1.0) * hi == n * hi + hi;
  }

  /** A quotient by a positive number lies between the bounds it lies between after scaling. */
  lemma DivBetween(s: real, n: real, lo: real, hi: real)
    requires n > 0.0 && ScaledBetween(n, lo, s, hi)
    ensures lo <= s / n <= hi
  {
  }

  /** The sum `d` of the squared deviations from `a` of `n` values with sum `s` and sum of
      squares `q`, expanded. */
  predicate DeviationExpansion(d: real, q: real, s: real, n: real, a: real)
  {
    d == q - 2.0 * a * s + n * a * a
  }

  /** Appending `x` keeps the expansion. */
  lemma DeviationStep(n: real, s: real, q: real, d: real, x: real, a: real)
    requires DeviationExpansion(d, q, s, n, a)
    ensures DeviationExpansion(d + Square(x - a), q + Square(x), s + x, n + 1.0, a)
  {
  }

  /** `n · q - s²` for the count, sum and sum of squares. */
  function Spread2(n: real, s: real, q: real): real
  {
    n * q - s * s
  }

  /** Lagrange's identity, one step: appending `a` adds the squared deviations from `a`. */
  lemma LagrangeStep(n: real, s: real, q: real, d: real, a: real)
    requires DeviationExpansion(d, q, s, n, a)
    ensures Spread2(n + 1.0, s + a, q + Square(a)) == Spread2(n, s, q) + d
  {
  }

  /** The sums of y = a·x + b over `n` values: `sy` = Σy, `sxy` = Σxy, `syy` = Σy², from
      `s` = Σx and `q` = Σx². */
  predicate AffineSumsHold(n: real, s: real, q: real, sy: real, sxy: real, syy: real, a: real, b: real)
  {
    && sy == a * s + n * b
    && sxy == a * q + b * s
    && syy == a * a * q + 2.0 * a * b * s + n * b * b
  }

  /** Appending `x`, and `y = a·x + b`, keeps the sums of the line: the primed sums are
      those of the longer sequences. */
  lemma AffineSumsStep(n: real, s: real, q: real, sy: real, sxy: real, syy: real,
                       a: real, b: real, x: real, y: real,
                       n': real, s': real, q': real, sy': real, sxy': real, syy': real)
    requires AffineSumsHold(n, s, q, sy, sxy, syy, a, b) && y == a * x + b
    requires n' == n + 1.0 && s' == s + x && q' == q + Square(x)
    requires sy' == sy + y && sxy' == sxy + Product(x, y) && syy' == syy + Square(y)
    ensures AffineSumsHold(n', s', q', sy', sxy', syy', a, b)
  {
    Distrib(a, s, x);
    Distrib(b, s, x);
    CrossStep(s, q, sxy, a, b, x, y);
    SquareStep(n, s, q, syy, a, b, x, y);
  }

  /** `Σxy = a·Σx² + b·Σx` survives appending `x` and `y = a·x + b`. */
  lemma CrossStep(s: real, q: real, sxy: real, a: real, b: real, x: real, y: real)
    requires sxy == a * q + b * s && y == a * x + b
    ensures sxy + Product(x, y) == a * (q + Square(x)) + b * (s + x)
  {
    Distrib(a, q, x * x);
    Distrib(b, s, x);
    Distrib(x, a * x, b);
  }

  /** `Σy² = a²·Σx² + 2ab·Σx + n·b²` survives appending `x` and `y = a·x + b`. */
  lemma SquareStep(n: real, s: real, q: real, syy: real, a: real, b: real, x: real, y: real)
    requires syy == a * a * q + 2.0 * a * b * s + n * b * b && y == a * x + b
    ensures syy + Square(y) == a * a * (q + Square(x)) + 2.0 * a * b * (s + x) + (n + 1.0) * b * b
  {
    Distrib(a * x + b, a * x, b);
    Distrib(a * x, a * x, b);
    Distrib(b, a * x, b);
    Distrib(a * a, q, x * x);
    Distrib(2.0 * a * b, s, x);
  }

  /** The covariance terms `cxy` and `cyy` are those of a line of slope `a` over x values
      with covariance term `cxx`. */
  predicate OnLine(a: real, cxx: real, cxy: real, cyy: real)
  {
    cxy == a * cxx && cyy == a * a * cxx
  }

  /** The cross term of a line: `n·Σxy - Σx·Σy = a·(n·Σx² - (Σx)²)`. */
  lemma LineCovariance(n: real, s: real, q: real, sy: real, sxy: real, a: real, b: real)
    requires sy == a * s + n * b && sxy == a * q + b * s
    ensures n * sxy - s * sy == a * Spread2(n, s, q)
  {
    Distrib(n, a * q, b * s);
    Distrib(s, a * s, n * b);
    Distrib(a, n * q, s * s);
  }

  /** The y term of a line: `n·Σy² - (Σy)² = a²·(n·Σx² - (Σx)²)`. */
  lemma LineVariance(n: real, s: real, q: real, sy: real, syy: real, a: real, b: real)
    requires sy == a * s + n * b && syy == a * a * q + 2.0 * a * b * s + n * b * b
    ensures Spread2(n, sy, syy) == a * a * Spread2(n, s, q)
  {
    Distrib(n, a * a * q + 2.0 * a * b * s, n * b * b);
    Distrib(n, a * a * q, 2.0 * a * b * s);
    Distrib(a * s + n * b, a * s, n * b);
    Distrib(a * s, a * s, n * b);
    Distrib(n * b, a * s, n * b);
    Distrib(a * a, n * q, s * s);
  }

  /** The covariance terms of a line are on it. */
  lemma AffineMoments(n: real, s: real, q: real, sy: real, sxy: real, syy: real, a: real, b: real,
                      cxx: real, cxy: real, cyy: real)
    requires AffineSumsHold(n, s, q, sy, sxy, syy, a, b)
    requires cxx == Spread2(n, s, q) && cxy == n * sxy - s * sy && cyy == Spread2(n, sy, syy)
    ensures OnLine(a, cxx, cxy, cyy)
  {
    LineCovariance(n, s, q, sy, sxy, a, b);
    LineVariance(n, s, q, sy, syy, a, b);
  }

  /** `r_value ** 2` from the covariance terms: `Sxy² / (Sxx · Syy)`, and 0 when either
      variance is 0. */
  function RSquared(sxy: real, sxx: real, syy: real): real
  {
    if sxx == 0.0 || syy == 0.0 then 0.0 else (sxy * sxy) / (sxx * syy)
  }

  /** The fit of an exact line y = a·x + b: slope `a`, and r² = 1 unless the line is flat. */
  lemma LineFit(a: real, sxx: real, sxy: real, syy: real)
    requires sxx != 0.0 && OnLine(a, sxx, sxy, syy)
    ensures sxy / sxx == a
    ensures RSquared(sxy, sxx, syy) == if a == 0.0 then 0.0 else 1.0
  {
    assert (a * sxx) / sxx == a;
    if a != 0.0 {
      assert sxy == Product(a, sxx);
      assert syy == Product(a, sxy);
      var d := Product(sxx, syy);
      assert sxy * sxy == d;
      assert (sxy * sxy) / (sxx * syy) == 1.0;
      assert syy != 0.0;
      assert RSquared(sxy, sxx, syy) == 1.0;
    }
    assert sxy / sxx == a;
  }
}
