/** `wilson_lower_bound` over the reals, including the region m > n where the variance term is clamped. */
module Wilson {

  /** The library square root, by its defining property. */
  ghost predicate IsSqrt(r: real, x: real) {
    r >= 0.0 && r * r == x
  }

  function Max(x: real, y: real): real {
    if x < y then y else x
  }

  function RawVariance(m: real, n: real, z: real): real
    requires n > 0.0
  {
    var p := m / n;
    p * (1.0 - p) / n + z * z / (4.0 * n * n)
  }

  /** The code's formula; `root` is what `std::sqrt` returns for the clamped variance term. */
  function LowerBound(m: real, n: real, z: real, root: real): (w: real)
    ensures n <= 0.0 ==> w == 0.0
  {
    if n <= 0.0 then 0.0
    else
      var p := m / n;
      var z2 := z * z;
      Square(z);
      QuotientSign(z2, n);
      var denom := 1.0 + z2 / n;
      var center := p + z2 / (2.0 * n);
      var spread := z * root;
      (center - spread) / denom
  }

  ghost predicate ValidCall(m: real, n: real, z: real, root: real) {
    m >= 0.0 && n > 0.0 && z > 0.0 && IsSqrt(root, Max(0.0, RawVariance(m, n, z)))
  }

  // ------------------------------------------------------------- scale-free form

  /** With `p = m / n` and `a = z^2 / n`: the squared spread before clamping. */
  function Spread2(p: real, a: real): real {
    a * p * (1.0 - p) + a * a / 4.0
  }

  /** `w` is the bound for proportion `p` at strength `a`, `s` the spread it uses. */
  ghost predicate IsBound(p: real, a: real, s: real, w: real) {
    && p >= 0.0 && a > 0.0
    && IsSqrt(s, Max(0.0, Spread2(p, a)))
    && w * (1.0 + a) == p + a / 2.0 - s
  }

  /** The quadratic of the score test: a rate `x` is rejected exactly when it is positive. */
  function Score(p: real, a: real, x: real): real {
    (p - x) * (p - x) - a * x * (1.0 - x)
  }

  // ------------------------------------------------------------- sign rules

  lemma NonNeg(x: real, y: real)
    requires x >= 0.0 && y >= 0.0
    ensures x * y >= 0.0
  {
  }

  lemma Pos(x: real, y: real)
    requires x > 0.0 && y > 0.0
    ensures x * y > 0.0
  {
  }

  lemma Product(x: real, y: real, t: real)
    requires x > 0.0 && y > 0.0 && t == x * y
    ensures t > 0.0
  {
    Pos(x, y);
  }

  lemma Neg(x: real, y: real)
    requires x < 0.0 && y > 0.0
    ensures x * y < 0.0
  {
    Pos(-x, y);
    assert -x * y == -(x * y);
  }

  lemma Square(x: real)
    ensures x * x >= 0.0
    ensures x != 0.0 ==> x * x > 0.0
  {
    if x > 0.0 {
      Pos(x, x);
    } else if x < 0.0 {
      Pos(-x, -x);
      assert -x * -x == x * x;
    }
  }

  /** Squares decide the order against a non-negative number. */
  lemma RootOrder(x: real, y: real)
    requires y >= 0.0
    ensures x * x <= y * y ==> x <= y
    ensures x * x < y * y ==> x < y
  {
    assert (x - y) * (x + y) == x * x - y * y;
    if x > y {
      Pos(x - y, x + y);
    }
  }

  /** Cancelling a positive factor. */
  lemma Cancel(x: real, y: real, k: real)
    requires k > 0.0
    ensures x * k <= y * k <==> x <= y
    ensures x * k < y * k <==> x < y
    ensures x * k == y * k <==> x == y
  {
    assert (x - y) * k == x * k - y * k;
    if x > y {
      Pos(x - y, k);
    } else if x < y {
      Neg(x - y, k);
    }
  }

  // ------------------------------------------------------------- the bound as a root

  /** Completing the square: the score at `x`, times `1 + a`. */
  lemma ScoreSquared(p: real, a: real, x: real)
    ensures var d := p + a / 2.0 - x * (1.0 + a); (1.0 + a) * Score(p, a, x) == d * d - Spread2(p, a)
  {
    var c, y := p + a / 2.0, x * (1.0 + a);
    assert Score(p, a, x) == p * p - 2.0 * c * x + (1.0 + a) * (x * x);
    assert (1.0 + a) * Score(p, a, x) == (1.0 + a) * (p * p) - 2.0 * c * y + y * y;
    assert (c - y) * (c - y) == y * y - 2.0 * c * y + c * c;
    assert c * c == p * p + a * p + a * a / 4.0;
  }

  /** Without clamping the bound is a root of the score. */
  lemma BoundIsRoot(p: real, a: real, s: real, w: real)
    requires IsBound(p, a, s, w) && Spread2(p, a) >= 0.0
    ensures Score(p, a, w) == 0.0
  {
    ScoreSquared(p, a, w);
    assert p + a / 2.0 - w * (1.0 + a) == s;
    Cancel(Score(p, a, w), 0.0, 1.0 + a);
  }

  /** Every rate that is not rejected lies at or above the bound. */
  lemma AcceptedIsAbove(p: real, a: real, s: real, w: real, x: real)
    requires IsBound(p, a, s, w) && Score(p, a, x) <= 0.0
    ensures w <= x && (Score(p, a, x) < 0.0 ==> w < x)
  {
    ScoreSquared(p, a, x);
    WithinSpread(p + a / 2.0, x, w, s, Spread2(p, a), Score(p, a, x), 1.0 + a);
  }

  lemma WithinSpread(c: real, x: real, w: real, s: real, spread2: real, score: real, k: real)
    requires k > 0.0 && IsSqrt(s, Max(0.0, spread2)) && score <= 0.0
    requires k * score == (c - x * k) * (c - x * k) - spread2 && w * k == c - s
    ensures w <= x && (score < 0.0 ==> w < x)
  {
    DistanceBelowRoot(c - x * k, s, spread2, score, k);
    Cancel(w, x, k);
  }

  lemma DistanceBelowRoot(d: real, s: real, spread2: real, score: real, k: real)
    requires k > 0.0 && IsSqrt(s, Max(0.0, spread2)) && score <= 0.0 && k * score == d * d - spread2
    ensures d <= s && (score < 0.0 ==> d < s)
  {
    Cancel(score, 0.0, k);
    Square(d);
    RootOrder(d, s);
  }

  /** When the spread is clamped every rate is rejected. */
  lemma ClampedRejectsAll(p: real, a: real, x: real)
    requires a > 0.0 && Spread2(p, a) < 0.0
    ensures Score(p, a, x) > 0.0
  {
    ScoreSquared(p, a, x);
    Square(p + a / 2.0 - x * (1.0 + a));
    Cancel(0.0, Score(p, a, x), 1.0 + a);
  }

  /** When the spread is clamped the bound has the smallest score of all rates. */
  lemma ClampedIsLeastRejected(p: real, a: real, s: real, w: real)
    requires IsBound(p, a, s, w) && Spread2(p, a) < 0.0
    ensures IsLeastRejected(p, a, w)
  {
    ZeroRoot(s);
    ScoreSquared(p, a, w);
    forall x: real
      ensures Score(p, a, w) <= Score(p, a, x)
    {
      ScoreSquared(p, a, x);
      Square(p + a / 2.0 - x * (1.0 + a));
      Cancel(Score(p, a, w), Score(p, a, x), 1.0 + a);
    }
  }

  lemma UnclampedBelowOne(p: real, a: real)
    requires 0.0 <= p <= 1.0 && a > 0.0
    ensures Spread2(p, a) > 0.0
  {
    var square := a * a;
    Product(a, a, square);
    NonNeg(a, p);
    NonNeg(a * p, 1.0 - p);
    assert Spread2(p, a) == a * p * (1.0 - p) + square / 4.0;
  }

  lemma BoundNonNegative(p: real, a: real, s: real, w: real)
    requires IsBound(p, a, s, w)
    ensures 0.0 <= w
  {
    var c := p + a / 2.0;
    assert c * c == p * p + a * p + a * a / 4.0;
    Square(p);
    Square(c);
    NonNeg(a, p * p);
    assert c * c - Spread2(p, a) == p * p + a * (p * p);
    RootOrder(s, c);
    Cancel(0.0, w, 1.0 + a);
  }

  /** The bound lies between 0 and the observed proportion. */
  lemma BoundInRange(p: real, a: real, s: real, w: real)
    requires IsBound(p, a, s, w)
    ensures 0.0 <= w <= p
  {
    BoundNonNegative(p, a, s, w);
    if p <= 1.0 {
      NonNeg(a, p);
      NonNeg(a * p, 1.0 - p);
      assert Score(p, a, p) == -(a * p * (1.0 - p));
      AcceptedIsAbove(p, a, s, w, p);
    } else {
      Pos(a, p - 0.5);
      assert p * (1.0 + a) == p + a / 2.0 + a * (p - 0.5);
      Cancel(w, p, 1.0 + a);
    }
  }

  /** Strictly increasing in the proportion, through the clamped region and across its border. */
  lemma BoundIncreases(p: real, q: real, a: real, s: real, w: real, s': real, w': real)
    requires IsBound(p, a, s, w) && IsBound(q, a, s', w') && p < q
    ensures w < w'
  {
    BoundInRange(p, a, s, w);
    BoundInRange(q, a, s', w');
    if Spread2(q, a) < 0.0 {
      ZeroRoot(s');
      ClampedIncreases(p, q, a, s, w, w');
    } else {
      BoundIsRoot(q, a, s', w');
      if w' < p {
        ScoreBelow(p, q, a, w');
        AcceptedIsAbove(p, a, s, w, w');
      } else {
        AboveProportion(p, q, a, s, w, w');
      }
    }
  }

  lemma ZeroRoot(s: real)
    requires IsSqrt(s, 0.0)
    ensures s == 0.0
  {
    RootOrder(s, 0.0);
  }

  lemma ClampedIncreases(p: real, q: real, a: real, s: real, w: real, w': real)
    requires p < q && a > 0.0 && s >= 0.0
    requires w * (1.0 + a) == p + a / 2.0 - s && w' * (1.0 + a) == q + a / 2.0
    ensures w < w'
  {
    Cancel(w, w', 1.0 + a);
  }

  lemma ScoreShift(p: real, q: real, a: real, x: real)
    ensures Score(p, a, x) - Score(q, a, x) == (p - q) * ((p - x) + (q - x))
  {
    assert (p - x) * (p - x) - (q - x) * (q - x) == (p - q) * ((p - x) + (q - x));
  }

  lemma ScoreBelow(p: real, q: real, a: real, x: real)
    requires x < p < q && Score(q, a, x) == 0.0
    ensures Score(p, a, x) < 0.0
  {
    ScoreShift(p, q, a, x);
    Neg(p - q, (p - x) + (q - x));
  }

  lemma AboveProportion(p: real, q: real, a: real, s: real, w: real, w': real)
    requires IsBound(p, a, s, w) && p < q && w <= p <= w' && Score(q, a, w') == 0.0
    ensures w < w'
  {
    if w == w' {
      ScoreShift(p, q, a, p);
      var square := (q - p) * (q - p);
      Product(q - p, q - p, square);
      assert (p - q) * ((p - p) + (q - p)) == -square;
      AcceptedIsAbove(p, a, s, w, p);
    }
  }

  /** Nonincreasing in `a`: with the same proportion, more evidence never lowers the bound. */
  lemma BoundFallsWithStrength(p: real, a: real, b: real, s: real, w: real, s': real, w': real)
    requires IsBound(p, a, s, w) && IsBound(p, b, s', w') && b <= a
    ensures w <= w'
  {
    if Spread2(p, b) < 0.0 {
      ZeroRoot(s');
      if p <= 1.0 { UnclampedBelowOne(p, b); }
      ClampedFalls(p, a, b, s, w, w');
    } else {
      BoundIsRoot(p, b, s', w');
      StrengthKeepsAccepted(p, a, b, w');
      AcceptedIsAbove(p, a, s, w, w');
    }
  }

  /** A rate that is not rejected is not rejected at a greater strength either. */
  lemma StrengthKeepsAccepted(p: real, a: real, b: real, x: real)
    requires 0.0 < b <= a && Score(p, b, x) <= 0.0
    ensures Score(p, a, x) <= 0.0
  {
    var k, square := x * (1.0 - x), (p - x) * (p - x);
    assert Score(p, b, x) == square - b * k && Score(p, a, x) == square - a * k;
    Square(p - x);
    if k < 0.0 {
      Neg(k, b);
    }
    NonNeg(a - b, k);
    assert (a - b) * k == a * k - b * k;
  }

  lemma ClampedFalls(p: real, a: real, b: real, s: real, w: real, w': real)
    requires p > 1.0 && 0.0 < b <= a && s >= 0.0
    requires w * (1.0 + a) == p + a / 2.0 - s && w' * (1.0 + b) == p + b / 2.0
    ensures w <= w'
  {
    Cancel(0.5, w', 1.0 + b);
    NonNeg(w' - 0.5, a - b);
    assert w' * (1.0 + a) == w' * (1.0 + b) + (w' - 0.5) * (a - b) + (a - b) / 2.0;
    Cancel(w, w', 1.0 + a);
  }

  // ------------------------------------------------------------- the code's bound

  lemma MulDiv(x: real, n: real)
    requires n > 0.0
    ensures x / n * n == x
  {
  }

  /** A quotient is what its product with the divisor says. */
  lemma QuotientIs(x: real, n: real, q: real)
    requires n > 0.0 && q * n == x
    ensures x / n == q
  {
    MulDiv(x, n);
    Cancel(x / n, q, n);
  }

  lemma QuotientSign(x: real, n: real)
    requires n > 0.0
    ensures x >= 0.0 ==> x / n >= 0.0
    ensures x > 0.0 ==> x / n > 0.0
  {
    MulDiv(x, n);
    Cancel(0.0, x / n, n);
  }

  lemma QuotientOrder(x: real, y: real, n: real)
    requires n > 0.0 && x < y
    ensures x / n < y / n
  {
    MulDiv(x, n);
    MulDiv(y, n);
    Cancel(x / n, y / n, n);
  }

  /** The variance term in the scale-free quantities. */
  lemma VarianceScaled(p: real, n: real, y: real)
    requires n > 0.0 && y > 0.0
    ensures var a := y / n; y * (p * (1.0 - p) / n + y / (4.0 * n * n)) == Spread2(p, a)
  {
    var a, t := y / n, p * (1.0 - p);
    MulDiv(y, n);
    MulDiv(t, n);
    assert y * (t / n) == a * (t / n * n) by { assert a * n * (t / n) == a * (t / n * n); }
    Pos(n, n);
    assert 4.0 * n * n == 4.0 * (n * n);
    var q := y / (4.0 * n * n);
    MulDiv(y, 4.0 * n * n);
    Cancel(y * q, a * a / 4.0, 4.0 * n * n);
    assert y * q * (4.0 * n * n) == y * (q * (4.0 * n * n)) == y * y;
    assert a * a / 4.0 * (4.0 * n * n) == (a * n) * (a * n);
    assert a * p * (1.0 - p) == a * t;
  }

  lemma CenterScaled(y: real, n: real)
    requires n > 0.0
    ensures y / (2.0 * n) == y / n / 2.0
  {
    MulDiv(y, n);
    assert y / n / 2.0 * (2.0 * n) == y / n * n;
    QuotientIs(y, 2.0 * n, y / n / 2.0);
  }

  lemma ScaledRoot(z: real, root: real, v: real, y: real)
    requires z > 0.0 && y > 0.0 && y == z * z && IsSqrt(root, Max(0.0, v))
    ensures IsSqrt(z * root, Max(0.0, y * v))
  {
    assert z * root * (z * root) == y * (root * root);
    NonNeg(z, root);
    if v >= 0.0 {
      NonNeg(y, v);
    } else {
      Neg(v, y);
    }
  }

  /** Passing from the code's quantities to the scale-free ones. */
  lemma CodeIsBound(m: real, n: real, z: real, root: real)
    requires ValidCall(m, n, z, root)
    ensures z * z / n > 0.0
    ensures Spread2(m / n, z * z / n) == z * z * RawVariance(m, n, z)
    ensures IsBound(m / n, z * z / n, z * root, LowerBound(m, n, z, root))
  {
    var y := z * z;
    Product(z, z, y);
    QuotientSign(m, n);
    QuotientSign(y, n);
    FormulaScaled(m, n, z, root, y);
    SpreadOfCode(m, n, z, y);
    ScaledRoot(z, root, RawVariance(m, n, z), y);
  }

  lemma SpreadOfCode(m: real, n: real, z: real, y: real)
    requires n > 0.0 && y > 0.0 && y == z * z
    ensures Spread2(m / n, y / n) == y * RawVariance(m, n, z)
  {
    VarianceScaled(m / n, n, y);
  }

  lemma FormulaScaled(m: real, n: real, z: real, root: real, y: real)
    requires n > 0.0 && y > 0.0 && y == z * z
    ensures var a := y / n; LowerBound(m, n, z, root) * (1.0 + a) == m / n + a / 2.0 - z * root
  {
    var a := y / n;
    QuotientSign(y, n);
    CenterScaled(y, n);
    MulDiv(m / n + a / 2.0 - z * root, 1.0 + a);
  }

  /** For every m >= 0, n > 0 and z > 0, also when m > n, the bound lies between 0 and the point estimate. */
  lemma InRange(m: real, n: real, z: real, root: real)
    requires ValidCall(m, n, z, root)
    ensures 0.0 <= LowerBound(m, n, z, root) <= m / n
  {
    CodeIsBound(m, n, z, root);
    BoundInRange(m / n, z * z / n, z * root, LowerBound(m, n, z, root));
  }

  /** More misses among the same number of accesses always raise the bound, across the clamp as well. */
  lemma IncreasesInMisses(m: real, m': real, n: real, z: real, root: real, root': real)
    requires ValidCall(m, n, z, root) && ValidCall(m', n, z, root') && m < m'
    ensures LowerBound(m, n, z, root) < LowerBound(m', n, z, root')
  {
    CodeIsBound(m, n, z, root);
    CodeIsBound(m', n, z, root');
    QuotientOrder(m, m', n);
    BoundIncreases(m / n, m' / n, z * z / n,
                   z * root, LowerBound(m, n, z, root), z * root', LowerBound(m', n, z, root'));
  }

  /** The same ratio on `k` times the samples never lowers the bound. */
  lemma MoreEvidence(m: real, n: real, k: real, m': real, n': real, z: real, root: real, root': real)
    requires k >= 1.0 && m' == k * m && n' == k * n
    requires ValidCall(m, n, z, root) && ValidCall(m', n', z, root')
    ensures LowerBound(m, n, z, root) <= LowerBound(m', n', z, root')
  {
    CodeIsBound(m, n, z, root);
    CodeIsBound(m', n', z, root');
    SameRatio(m, n, k);
    SmallerQuotient(z * z, n, k);
    BoundFallsWithStrength(m / n, z * z / n, z * z / n',
                           z * root, LowerBound(m, n, z, root), z * root', LowerBound(m', n', z, root'));
  }

  lemma SameRatio(m: real, n: real, k: real)
    requires n > 0.0 && k * n > 0.0
    ensures k * m / (k * n) == m / n
  {
    MulDiv(m, n);
    assert m / n * (k * n) == k * (m / n * n);
    QuotientIs(k * m, k * n, m / n);
  }

  lemma SmallerQuotient(x: real, n: real, k: real)
    requires x > 0.0 && n > 0.0 && k >= 1.0 && k * n > 0.0
    ensures x / (k * n) <= x / n
  {
    MulDiv(x, n);
    MulDiv(x, k * n);
    NonNeg(x, k - 1.0);
    assert x / n * (k * n) == x / n * n * k == x + x * (k - 1.0);
    Cancel(x / (k * n), x / n, k * n);
  }

  /** The variance term, freed of its divisions. */
  lemma VarianceTimes(m: real, n: real, z: real)
    requires n > 0.0
    ensures RawVariance(m, n, z) * (4.0 * n * n * n) == z * z * n - 4.0 * m * (m - n)
  {
    var p, y := m / n, z * z;
    var t, k := p * (1.0 - p), 4.0 * n * n;
    MulDiv(m, n);
    MulDiv(t, n);
    Product(4.0 * n, n, k);
    MulDiv(y, k);
    assert t / n * (k * n) == 4.0 * n * n * (t / n * n);
    assert 4.0 * n * n * t == 4.0 * ((p * n) * (n - p * n));
    assert y / k * (k * n) == y / k * k * n;
    assert RawVariance(m, n, z) * (k * n) == t / n * (k * n) + y / k * (k * n);
    assert 4.0 * (m * (n - m)) == -(4.0 * m * (m - n));
  }

  /** The clamp acts exactly when 4 m (m - n) exceeds z^2 n, in particular only when m > n. */
  lemma ClampsExactly(m: real, n: real, z: real)
    requires m >= 0.0 && n > 0.0 && z > 0.0
    ensures RawVariance(m, n, z) < 0.0 <==> 4.0 * m * (m - n) > z * z * n
    ensures RawVariance(m, n, z) < 0.0 ==> m > n
  {
    VarianceTimes(m, n, z);
    var square, cube, y := 4.0 * n * n, 4.0 * n * n * n, z * z;
    Product(4.0 * n, n, square);
    Product(square, n, cube);
    Cancel(RawVariance(m, n, z), 0.0, cube);
    Product(z, z, y);
    Pos(y, n);
    if m <= n {
      NonNeg(m, n - m);
      assert 4.0 * m * (m - n) == -(4.0 * (m * (n - m)));
    }
  }

  /** `x` is the least rate the score test at strength `a` does not reject. */
  ghost predicate IsLeastAccepted(p: real, a: real, x: real) {
    Score(p, a, x) <= 0.0 && forall y: real :: Score(p, a, y) <= 0.0 ==> x <= y
  }

  /** No rate has a smaller score than `x`. */
  ghost predicate IsLeastRejected(p: real, a: real, x: real) {
    forall y: real :: Score(p, a, x) <= Score(p, a, y)
  }

  /** The score test at strength `a` rejects every rate. */
  ghost predicate RejectsAll(p: real, a: real) {
    forall x: real :: Score(p, a, x) > 0.0
  }

  /**
   * What the bound is, independently of the formula. A rate x is accepted when m/n lies within z standard errors
   * of it, the error computed at x: (m/n - x)^2 <= z^2 x (1 - x) / n. Where the clamp does not act, also for
   * m > n, the bound is the least accepted rate; the clamp acts exactly when no rate at all is accepted, and then
   * the bound is the rate that is rejected by least.
   */
  lemma IsScoreBound(m: real, n: real, z: real, root: real)
    requires ValidCall(m, n, z, root)
    ensures RawVariance(m, n, z) >= 0.0 ==>
      IsLeastAccepted(m / n, z * z / n, LowerBound(m, n, z, root))
    ensures RawVariance(m, n, z) < 0.0 <==> RejectsAll(m / n, z * z / n)
    ensures RawVariance(m, n, z) < 0.0 ==> IsLeastRejected(m / n, z * z / n, LowerBound(m, n, z, root))
  {
    CodeIsBound(m, n, z, root);
    var p, a, s, w, v := m / n, z * z / n, z * root, LowerBound(m, n, z, root), RawVariance(m, n, z);
    var y := z * z;
    Product(z, z, y);
    if v >= 0.0 {
      NonNeg(y, v);
      BoundIsRoot(p, a, s, w);
      forall y: real | Score(p, a, y) <= 0.0
        ensures w <= y
      {
        AcceptedIsAbove(p, a, s, w, y);
      }
    } else {
      Neg(v, y);
      forall x: real
        ensures Score(p, a, x) > 0.0
      {
        ClampedRejectsAll(p, a, x);
      }
      ClampedIsLeastRejected(p, a, s, w);
    }
  }
}
