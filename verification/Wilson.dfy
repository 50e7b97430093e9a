/** The two-sided Wilson score interval over the reals. The square root is a value `s` with
    `s >= 0` and `s * s` equal to the discriminant. */
module Wilson {

  const Z: real := 1.959963984540054
  const LIMIT: real := 0.05

  predicate IsRoot(x: real, s: real) { s >= 0.0 && s * s == x }

  function Proportion(k: nat, n: nat): real
    requires n > 0
  {
    k as real / n as real
  }

  /** The variance term under the root, for proportion `p`, sample size `t` and `zz = z * z`. */
  function Variance(p: real, t: real, zz: real): real
    requires t > 0.0
  {
    p * (1.0 - p) / t + zz / (4.0 * (t * t))
  }

  function Discriminant(k: nat, n: nat, z: real): real
    requires n > 0
  {
    Variance(Proportion(k, n), n as real, z * z)
  }

  /** Center minus and plus margin, before clamping. */
  function RawBounds(k: nat, n: nat, z: real, s: real): (real, real)
    requires n > 0 && z > 0.0
  {
    var den := 1.0 + z * z / n as real;
    assert den > 0.0 by { Positive(n, z); }
    var center := (Proportion(k, n) + z * z / (2.0 * n as real)) / den;
    var margin := z * s / den;
    (center - margin, center + margin)
  }

  function Interval(k: nat, n: nat, z: real, s: real): (real, real)
    requires z > 0.0
  {
    if n == 0 then (0.0, 0.0)
    else
      var (low, high) := RawBounds(k, n, z, s);
      (if low > 0.0 then low else 0.0, if high < 1.0 then high else 1.0)
  }

  /** Without any window there is nothing to bound. */
  lemma NoWindows(k: nat, z: real, s: real)
    requires z > 0.0
    ensures Interval(k, 0, z, s) == (0.0, 0.0)
  {}

  // ---------------------------------------------------------------- the reduced form

  lemma Positive(n: nat, z: real)
    requires n > 0 && z > 0.0
    ensures z * z / n as real > 0.0
  {
    var zz := z * z;
    NamedProductPositive(z, z, zz);
    RatioPositive(zz, n as real);
  }

  lemma NamedProductPositive(a: real, b: real, ab: real)
    requires a > 0.0 && b > 0.0 && ab == a * b
    ensures ab > 0.0
  {}

  lemma RatioPositive(a: real, b: real)
    requires a > 0.0 && b > 0.0
    ensures a / b > 0.0
  {}

  /** With `w = z*z/n` and `r = z*s` the interval is `(p + w/2 -+ r) / (1 + w)`. */
  ghost predicate Reduced(p: real, w: real, r: real) {
    0.0 <= p <= 1.0 && w > 0.0 && r >= 0.0 && r * r == w * (p * (1.0 - p)) + w * w / 4.0
  }

  lemma ProductNonNegative(a: real, b: real, ab: real)
    requires a >= 0.0 && b >= 0.0 && ab == a * b
    ensures ab >= 0.0
  {}

  lemma SquareOrder(a: real, b: real)
    requires a >= 0.0 && b >= 0.0
    ensures a * a <= b * b <==> a <= b
  {
    var aa, ab, bb := a * a, a * b, b * b;
    if a <= b {
      ProductNonNegative(a, b - a, ab - aa);
      ProductNonNegative(b, b - a, bb - ab);
    } else {
      NamedProductPositive(a - b, a + b, aa - bb);
    }
  }

  lemma HalfSquare(a: real, w: real)
    ensures (a + w / 2.0) * (a + w / 2.0) - (w * (a * (1.0 - a)) + w * w / 4.0) == a * a + w * (a * a)
  {}

  lemma HalfBound(a: real, w: real, r: real)
    requires a >= 0.0 && w > 0.0 && r >= 0.0 && r * r == w * (a * (1.0 - a)) + w * w / 4.0
    ensures r <= a + w / 2.0
  {
    var aa := a * a;
    ProductNonNegative(a, a, aa);
    ProductNonNegative(w, aa, w * aa);
    HalfSquare(a, w);
    SquareOrder(r, a + w / 2.0);
  }

  lemma LowerHalf(p: real, w: real, r: real)
    requires Reduced(p, w, r)
    ensures w / 2.0 <= r
  {
    var pq := p * (1.0 - p);
    ProductNonNegative(p, 1.0 - p, pq);
    ProductNonNegative(w, pq, w * pq);
    assert (w / 2.0) * (w / 2.0) == w * w / 4.0;
    SquareOrder(w / 2.0, r);
  }

  lemma ReducedBounds(p: real, w: real, r: real)
    requires Reduced(p, w, r)
    ensures w / 2.0 <= r <= p + w / 2.0 && r <= (1.0 - p) + w / 2.0
  {
    LowerHalf(p, w, r);
    HalfBound(p, w, r);
    assert (1.0 - p) * (1.0 - (1.0 - p)) == p * (1.0 - p);
    HalfBound(1.0 - p, w, r);
  }

  lemma QuadraticIdentity(p: real, w: real, x: real)
    ensures ((1.0 + w) * x - p - w / 2.0) * ((1.0 + w) * x - p - w / 2.0) - (w * (p * (1.0 - p)) + w * w / 4.0)
      == (1.0 + w) * ((x - p) * (x - p) - w * (x * (1.0 - x)))
  {}

  lemma DivOrder(a: real, d: real, x: real)
    requires d > 0.0
    ensures a / d <= x <==> a <= d * x
    ensures x <= a / d <==> d * x <= a
  {
    DivCompare(a, d, x, d * x);
  }

  lemma DivCompare(a: real, d: real, x: real, dx: real)
    requires d > 0.0 && dx == d * x
    ensures a / d <= x <==> a <= dx
    ensures x <= a / d <==> dx <= a
  {
    var q := a / d;
    assert q * d == a;
    if q < x { NamedProductPositive(d, x - q, dx - a); }
    if x < q { NamedProductPositive(d, q - x, a - dx); }
  }

  /** The interval contains the proportion and lies in the unit interval. */
  lemma ReducedContains(p: real, w: real, r: real)
    requires Reduced(p, w, r)
    ensures 0.0 <= (p + w / 2.0 - r) / (1.0 + w) <= p <= (p + w / 2.0 + r) / (1.0 + w) <= 1.0
  {
    ReducedBounds(p, w, r);
    LinearContains(p, w, r, w * p);
  }

  lemma LinearContains(p: real, w: real, r: real, wp: real)
    requires 0.0 <= p <= 1.0 && w > 0.0 && wp == w * p
    requires w / 2.0 <= r <= p + w / 2.0 && r <= (1.0 - p) + w / 2.0
    ensures 0.0 <= (p + w / 2.0 - r) / (1.0 + w) <= p <= (p + w / 2.0 + r) / (1.0 + w) <= 1.0
  {
    ProductNonNegative(w, p, wp);
    ProductNonNegative(w, 1.0 - p, w - wp);
    DivCompare(p + w / 2.0 - r, 1.0 + w, 0.0, 0.0);
    DivCompare(p + w / 2.0 - r, 1.0 + w, p, p + wp);
    DivCompare(p + w / 2.0 + r, 1.0 + w, p, p + wp);
    DivCompare(p + w / 2.0 + r, 1.0 + w, 1.0, 1.0 + w);
  }

  /** The upper end is at most a positive level exactly when the proportion is, and the level lies
      outside the interval: a test without any square root. */
  lemma ReducedUpperIff(p: real, w: real, r: real, x: real)
    requires Reduced(p, w, r) && x > 0.0
    ensures (p + w / 2.0 + r) / (1.0 + w) <= x <==> p <= x && (x - p) * (x - p) >= w * (x * (1.0 - x))
  {
    var gap := (x - p) * (x - p) - w * (x * (1.0 - x));
    SquareGap(p, w, r, x, w * x, gap);
    UpperFacts(p, w, r, x, w * x, (p + w / 2.0 + r) / (1.0 + w));
    UpperFromGap(p, w, r, x, w * x, (p + w / 2.0 + r) / (1.0 + w), gap);
  }

  lemma SquareGap(p: real, w: real, r: real, x: real, wx: real, gap: real)
    requires Reduced(p, w, r) && wx == w * x && gap == (x - p) * (x - p) - w * (x * (1.0 - x))
    ensures var y := x + wx - p - w / 2.0; gap >= 0.0 <==> y * y >= r * r
  {
    QuadraticIdentity(p, w, x);
    var y := x + wx - p - w / 2.0;
    assert y == (1.0 + w) * x - p - w / 2.0;
    GapSign(y, r, 1.0 + w, gap);
  }

  lemma UpperFacts(p: real, w: real, r: real, x: real, wx: real, u: real)
    requires Reduced(p, w, r) && x > 0.0 && wx == w * x && u == (p + w / 2.0 + r) / (1.0 + w)
    ensures w / 2.0 <= r && p <= u && wx > 0.0
    ensures u <= x <==> r <= x + wx - p - w / 2.0
  {
    ReducedBounds(p, w, r);
    ReducedContains(p, w, r);
    NamedProductPositive(w, x, wx);
    DivOrder(p + w / 2.0 + r, 1.0 + w, x);
    assert (1.0 + w) * x == x + wx;
  }

  lemma UpperFromGap(p: real, w: real, r: real, x: real, wx: real, u: real, gap: real)
    requires w > 0.0 && w / 2.0 <= r && p <= u && wx > 0.0
    requires u <= x <==> r <= x + wx - p - w / 2.0
    requires var y := x + wx - p - w / 2.0; gap >= 0.0 <==> y * y >= r * r
    ensures u <= x <==> p <= x && gap >= 0.0
  {
    if p <= x { Comparison(x + wx - p - w / 2.0, r); }
  }

  lemma GapSign(y: real, r: real, d: real, gap: real)
    requires d > 0.0 && y * y - r * r == d * gap
    ensures gap >= 0.0 <==> y * y >= r * r
  {
    DivOrder(0.0, d, gap);
  }

  /** For a number above `-r`, exceeding `r` and exceeding it in square are the same. */
  lemma Comparison(y: real, r: real)
    requires r >= 0.0 && -r < y
    ensures r <= y <==> y * y >= r * r
  {
    if y >= 0.0 { SquareOrder(r, y); } else { Magnitude(y, r); }
  }

  /** A number in `(-r, 0)` has a smaller square than `r`. */
  lemma Magnitude(y: real, r: real)
    requires -r < y < 0.0
    ensures y * y < r * r
  {
    SquareOrder(r, -y);
    assert (-y) * (-y) == y * y;
  }

  // ---------------------------------------------------------------- in terms of counts

  lemma MoveFactor(a: real, b: real, c: real)
    requires c != 0.0
    ensures a * (b / c) == (a / c) * b
  {}

  lemma ProportionInUnit(k: nat, n: nat)
    requires n > 0 && k <= n
    ensures 0.0 <= Proportion(k, n) <= 1.0
  {
    DivOrder(k as real, n as real, 1.0);
    DivOrder(k as real, n as real, 0.0);
  }

  lemma Reduces(k: nat, n: nat, z: real, s: real)
    requires n > 0 && k <= n && z > 0.0 && IsRoot(Discriminant(k, n, z), s)
    ensures var p, w, r := Proportion(k, n), z * z / n as real, z * s;
      && Reduced(p, w, r)
      && RawBounds(k, n, z, s) == ((p + w / 2.0 - r) / (1.0 + w), (p + w / 2.0 + r) / (1.0 + w))
  {
    ProportionInUnit(k, n);
    Positive(n, z);
    RootReduces(Proportion(k, n), n as real, z, s);
    BoundsReduce(Proportion(k, n), n as real, z * z, z * s);
  }

  lemma RootReduces(p: real, t: real, z: real, s: real)
    requires t > 0.0 && IsRoot(Variance(p, t, z * z), s)
    ensures (z * s) * (z * s) == (z * z / t) * (p * (1.0 - p)) + (z * z / t) * (z * z / t) / 4.0
  {
    var zz, v, d := z * z, p * (1.0 - p), Variance(p, t, z * z);
    assert (z * s) * (z * s) == zz * d;
    assert zz * d == zz * (v / t) + zz * (zz / (4.0 * (t * t)));
    MoveFactor(zz, v, t);
    SquareRatio(zz, t);
  }

  lemma BoundsReduce(p: real, t: real, zz: real, r: real)
    requires t > 0.0 && zz / t > 0.0
    ensures var w := zz / t; var den := 1.0 + w;
      && (p + zz / (2.0 * t)) / den - r / den == (p + w / 2.0 - r) / den
      && (p + zz / (2.0 * t)) / den + r / den == (p + w / 2.0 + r) / den
  {
    var w := zz / t;
    assert w * t == zz;
    assert zz / (2.0 * t) == w / 2.0;
  }

  lemma SquareRatio(a: real, t: real)
    requires t > 0.0
    ensures a * (a / (4.0 * (t * t))) == (a / t) * (a / t) / 4.0
  {
    var q := a / t;
    assert q * t == a;
    assert a * a == q * q * (t * t);
    assert t * t > 0.0;
    var u := a / (4.0 * (t * t));
    assert u * (4.0 * (t * t)) == a;
  }

  /** The interval contains `k/n`, lies in the unit interval, and clamping never changes it. */
  lemma IntervalContains(k: nat, n: nat, z: real, s: real)
    requires n > 0 && k <= n && z > 0.0 && s >= 0.0 && s * s == Discriminant(k, n, z)
    ensures Interval(k, n, z, s) == RawBounds(k, n, z, s)
    ensures 0.0 <= Interval(k, n, z, s).0 <= k as real / n as real <= Interval(k, n, z, s).1 <= 1.0
  {
    Reduces(k, n, z, s);
    ReducedContains(Proportion(k, n), z * z / n as real, z * s);
  }

  /** The number under the root, cleared of its denominators: it is positive, so it has a root. */
  lemma DiscriminantIs(k: nat, n: nat, z: real)
    requires n > 0 && k <= n && z > 0.0
    ensures var t := n as real;
      4.0 * (t * (t * t)) * Discriminant(k, n, z) == 4.0 * (k as real * (n - k) as real) + t * (z * z)
    ensures Discriminant(k, n, z) > 0.0
  {
    var t, p, zz := n as real, Proportion(k, n), z * z;
    assert t * p == k as real by { Cancel(k as real, t); }
    NamedProductPositive(z, z, zz);
    VarianceCleared(p, t, zz, k as real);
    ProportionInUnit(k, n);
    VariancePositive(p, t, zz);
  }

  lemma VarianceCleared(p: real, t: real, zz: real, k: real)
    requires t > 0.0 && t * p == k
    ensures 4.0 * (t * (t * t)) * Variance(p, t, zz) == 4.0 * (k * (t - k)) + t * zz
  {
    var v, a, b := p * (1.0 - p), p * (1.0 - p) / t, zz / (4.0 * (t * t));
    assert t * a == v;
    var tt := t * t;
    NamedProductPositive(t, t, tt);
    Cancel(zz, 4.0 * tt);
    assert (4.0 * tt) * b == zz;
    assert k * (t - k) == tt * v;
    assert 4.0 * (t * tt) * a == 4.0 * (tt * (t * a));
    assert 4.0 * (t * tt) * b == t * ((4.0 * tt) * b);
  }

  lemma VariancePositive(p: real, t: real, zz: real)
    requires 0.0 <= p <= 1.0 && t > 0.0 && zz > 0.0
    ensures Variance(p, t, zz) > 0.0
  {
    var v, tt := p * (1.0 - p), t * t;
    ProductNonNegative(p, 1.0 - p, v);
    NamedProductPositive(t, t, tt);
    DivCompare(v, t, 0.0, 0.0);
    RatioPositive(zz, 4.0 * tt);
  }

  /** Deciding `upper <= x` on the counts alone, `c` hits of `t`: no root and no quotient. */
  lemma UpperIff(k: nat, n: nat, z: real, s: real, x: real, t: real, c: real, zz: real)
    requires n > 0 && k <= n && z > 0.0 && s >= 0.0 && s * s == Discriminant(k, n, z) && x > 0.0
    requires t == n as real && c == k as real && zz == z * z
    ensures Interval(k, n, z, s).1 <= x <==> CountsAbove(c, t, zz, x)
  {
    Cancel(k as real, n as real);
    Cancel(z * z, n as real);
    UpperIffNamed(k, n, z, s, x, t, c, zz, Proportion(k, n), z * z / n as real);
  }

  /** The level `x` is at least the proportion `c/t`, and outside the interval. */
  predicate CountsAbove(c: real, t: real, zz: real, x: real) {
    c <= t * x && (t * x - c) * (t * x - c) >= t * zz * (x * (1.0 - x))
  }

  lemma UpperIffNamed(k: nat, n: nat, z: real, s: real, x: real, t: real, c: real, zz: real, p: real, w: real)
    requires n > 0 && k <= n && z > 0.0 && IsRoot(Discriminant(k, n, z), s) && x > 0.0
    requires p == Proportion(k, n) && w == z * z / n as real && t > 0.0 && t * p == c && t * w == zz
    ensures Interval(k, n, z, s).1 <= x <==> CountsAbove(c, t, zz, x)
  {
    UpperIs(k, n, z, s, p, w, z * s);
    UpperCounts(p, w, z * s, x, t, c, zz, Interval(k, n, z, s).1);
  }

  lemma UpperCounts(p: real, w: real, r: real, x: real, t: real, c: real, zz: real, u: real)
    requires Reduced(p, w, r) && u == (p + w / 2.0 + r) / (1.0 + w) && x > 0.0
    requires t > 0.0 && t * p == c && t * w == zz
    ensures u <= x <==> CountsAbove(c, t, zz, x)
  {
    ReducedUpperIff(p, w, r, x);
    CountsForm(p, w, x, t, c, zz);
  }

  lemma CountsForm(p: real, w: real, x: real, t: real, c: real, zz: real)
    requires t > 0.0 && t * p == c && t * w == zz
    ensures p <= x && (x - p) * (x - p) >= w * (x * (1.0 - x)) <==> CountsAbove(c, t, zz, x)
  {
    var tt, v := t * t, x * (1.0 - x);
    NamedProductPositive(t, t, tt);
    assert p <= x <==> c <= t * x by {
      if p < x { NamedProductPositive(t, x - p, t * x - c); }
      if x < p { NamedProductPositive(t, p - x, c - t * x); }
    }
    var a, b := (x - p) * (x - p), w * v;
    assert (t * x - c) * (t * x - c) == tt * a by { assert t * x - c == t * (x - p); SquareOf(t, x - p, t * x - c); }
    assert t * zz * v == tt * b by { FactorOf(t, w, v, zz); }
    ScaleOrder(tt, a, b, tt * a, tt * b);
  }

  lemma SquareOf(t: real, y: real, ty: real)
    requires ty == t * y
    ensures ty * ty == (t * t) * (y * y)
  {}

  lemma FactorOf(t: real, w: real, v: real, zz: real)
    requires t * w == zz
    ensures t * zz * v == (t * t) * (w * v)
  {}

  lemma ScaleOrder(d: real, a: real, b: real, da: real, db: real)
    requires d > 0.0 && da == d * a && db == d * b
    ensures a >= b <==> da >= db
  {
    if a < b { NamedProductPositive(d, b - a, db - da); }
    if b < a { NamedProductPositive(d, a - b, da - db); }
  }

  /** The number under the root is the same for the complementary count. */
  lemma DiscriminantMirrors(k: nat, n: nat, z: real)
    requires n > 0 && k <= n
    ensures Proportion(n - k, n) == 1.0 - Proportion(k, n) && Discriminant(n - k, n, z) == Discriminant(k, n, z)
  {
    var p, q := Proportion(k, n), Proportion(n - k, n);
    assert q == 1.0 - p by { Complement(k as real, (n - k) as real, n as real); }
    assert q * (1.0 - q) == p * (1.0 - p);
  }

  lemma LowerIs(k: nat, n: nat, z: real, s: real, p: real, w: real, r: real)
    requires n > 0 && k <= n && z > 0.0 && IsRoot(Discriminant(k, n, z), s)
    requires p == Proportion(k, n) && w == z * z / n as real && r == z * s
    ensures w > 0.0 && Interval(k, n, z, s).0 == (p + w / 2.0 - r) / (1.0 + w)
  {
    IntervalContains(k, n, z, s);
    Reduces(k, n, z, s);
  }

  /** The lower end is the upper end of the complementary count, mirrored. */
  lemma LowerMirrorsUpper(k: nat, n: nat, z: real, s: real)
    requires n > 0 && k <= n && z > 0.0 && IsRoot(Discriminant(k, n, z), s)
    ensures IsRoot(Discriminant(n - k, n, z), s)
    ensures Interval(k, n, z, s).0 == 1.0 - Interval(n - k, n, z, s).1
  {
    DiscriminantMirrors(k, n, z);
    LowerIs(k, n, z, s, Proportion(k, n), z * z / n as real, z * s);
    UpperIs(n - k, n, z, s, Proportion(n - k, n), z * z / n as real, z * s);
    MirrorSum(Proportion(k, n), z * z / n as real, z * s);
  }

  lemma Complement(k: real, l: real, t: real)
    requires t > 0.0 && k + l == t
    ensures l / t == 1.0 - k / t
  {
    Cancel(k, t);
    Cancel(l, t);
    SameProduct(t, l / t, 1.0 - k / t, l);
  }

  lemma SameProduct(t: real, a: real, b: real, c: real)
    requires t > 0.0 && t * a == c && t * b == c
    ensures a == b
  {
    if a < b { NamedProductPositive(t, b - a, 0.0); }
    if b < a { NamedProductPositive(t, a - b, 0.0); }
  }

  lemma MirrorSum(p: real, w: real, r: real)
    requires w > 0.0
    ensures (p + w / 2.0 - r) / (1.0 + w) == 1.0 - ((1.0 - p) + w / 2.0 + r) / (1.0 + w)
  {
    Complement((1.0 - p) + w / 2.0 + r, p + w / 2.0 - r, 1.0 + w);
  }

  /** The level `x` is at most the proportion `c/t`, and outside the interval. */
  predicate CountsBelow(c: real, t: real, zz: real, x: real) {
    t * x <= c && (t * x - c) * (t * x - c) >= t * zz * (x * (1.0 - x))
  }

  /** Deciding `x <= lower` on the counts alone. */
  lemma LowerIff(k: nat, n: nat, z: real, s: real, x: real, t: real, c: real, zz: real)
    requires n > 0 && k <= n && z > 0.0 && s >= 0.0 && s * s == Discriminant(k, n, z) && x < 1.0
    requires t == n as real && c == k as real && zz == z * z
    ensures x <= Interval(k, n, z, s).0 <==> CountsBelow(c, t, zz, x)
  {
    var y, l := 1.0 - x, t - c;
    LowerMirrorsUpper(k, n, z, s);
    UpperIff(n - k, n, z, s, y, t, l, zz);
    MirrorCounts(t, c, l, x, y, zz);
  }

  lemma MirrorCounts(t: real, c: real, l: real, x: real, y: real, zz: real)
    requires l == t - c && y == 1.0 - x
    ensures CountsAbove(l, t, zz, y) <==> CountsBelow(c, t, zz, x)
  {
    var a := t * y - l;
    assert a == c - t * x;
    assert a * a == (t * x - c) * (t * x - c);
    assert y * (1.0 - y) == x * (1.0 - x);
  }

  lemma UpperIs(k: nat, n: nat, z: real, s: real, p: real, w: real, r: real)
    requires n > 0 && k <= n && z > 0.0 && IsRoot(Discriminant(k, n, z), s)
    requires p == Proportion(k, n) && w == z * z / n as real && r == z * s
    ensures Reduced(p, w, r) && Interval(k, n, z, s).1 == (p + w / 2.0 + r) / (1.0 + w)
  {
    IntervalContains(k, n, z, s);
    Reduces(k, n, z, s);
  }

  /** The upper end solves the quadratic. */
  lemma UpperSolves(p: real, w: real, r: real, x: real)
    requires Reduced(p, w, r) && (1.0 + w) * x == p + w / 2.0 + r
    ensures (x - p) * (x - p) == w * (x * (1.0 - x))
  {
    var gap := (x - p) * (x - p) - w * (x * (1.0 - x));
    QuadraticIdentity(p, w, x);
    assert (1.0 + w) * gap == 0.0;
    DivOrder(0.0, 1.0 + w, gap);
  }

  lemma ComparedAt(p: real, p': real, x: real, u': real, v: real)
    requires p < p' && (x - p) * (x - p) == v
    requires u' <= x <==> p' <= x && (x - p') * (x - p') >= v
    ensures x < u'
  {
    if p' <= x { SquareOrder(x - p, x - p'); }
  }

  lemma Cancel(a: real, d: real)
    requires d > 0.0
    ensures d * (a / d) == a
  {}

  lemma StrictAt(p: real, w: real, r: real, p': real, r': real, x: real)
    requires Reduced(p, w, r) && Reduced(p', w, r') && p < p'
    requires x > 0.0 && (1.0 + w) * x == p + w / 2.0 + r
    ensures x < (p' + w / 2.0 + r') / (1.0 + w)
  {
    UpperSolves(p, w, r, x);
    ReducedUpperIff(p', w, r', x);
    ComparedAt(p, p', x, (p' + w / 2.0 + r') / (1.0 + w), w * (x * (1.0 - x)));
  }

  lemma ReducedStrict(p: real, w: real, r: real, p': real, r': real)
    requires Reduced(p, w, r) && Reduced(p', w, r') && p < p'
    ensures (p + w / 2.0 + r) / (1.0 + w) < (p' + w / 2.0 + r') / (1.0 + w)
  {
    Cancel(p + w / 2.0 + r, 1.0 + w);
    RatioPositive(p + w / 2.0 + r, 1.0 + w);
    StrictAt(p, w, r, p', r', (p + w / 2.0 + r) / (1.0 + w));
  }

  /** The upper end strictly grows with the count. */
  lemma UpperStrict(k: nat, j: nat, n: nat, z: real, s: real, t: real)
    requires n > 0 && k < j <= n && z > 0.0
    requires s >= 0.0 && s * s == Discriminant(k, n, z) && t >= 0.0 && t * t == Discriminant(j, n, z)
    ensures Interval(k, n, z, s).1 < Interval(j, n, z, t).1
  {
    Reduces(k, n, z, s);
    Reduces(j, n, z, t);
    IntervalContains(k, n, z, s);
    IntervalContains(j, n, z, t);
    assert Proportion(k, n) < Proportion(j, n) by { RatioOrder(k as real, j as real, n as real); }
    ReducedStrict(Proportion(k, n), z * z / n as real, z * s, Proportion(j, n), z * t);
  }

  lemma RatioOrder(a: real, b: real, d: real)
    requires d > 0.0 && a < b
    ensures a / d < b / d
  {
    RatioPositive(b - a, d);
    assert b / d - a / d == (b - a) / d;
  }

  /** With no false positive at all, the upper end meets the 5% limit exactly from 73 windows on. */
  lemma CleanMeetsLimitIff(n: nat, s: real)
    requires n > 0 && s >= 0.0 && s * s == Discriminant(0, n, Z)
    ensures Interval(0, n, Z, s).1 <= LIMIT <==> n >= 73
  {
    var t := n as real;
    UpperIff(0, n, Z, s, LIMIT, t, 0.0, Z * Z);
    LevelAt(t, 0.0, (t * LIMIT) * (t * LIMIT));
    CleanQuadratic(n, t);
  }

  /** The test at the limit as a quadratic in the number of windows. */
  lemma LevelAt(t: real, c: real, square: real)
    requires square == (t * LIMIT - c) * (t * LIMIT - c)
    ensures square - t * (Z * Z) * (LIMIT * (1.0 - LIMIT))
      == 0.0025 * (t * t) - (0.1 * c + 0.0475 * (Z * Z)) * t + c * c
  {}

  lemma CleanQuadratic(n: nat, t: real)
    requires n > 0 && t == n as real
    ensures 0.0025 * (t * t) - (0.1 * 0.0 + 0.0475 * (Z * Z)) * t + 0.0 * 0.0 >= 0.0 <==> n >= 73
  {
    var b := 0.0475 * (Z * Z);
    assert 0.0025 * (t * t) - b * t == t * (0.0025 * t - b);
    if n >= 73 {
      ProductNonNegative(t, 0.0025 * t - b, t * (0.0025 * t - b));
    } else {
      NamedProductPositive(t, b - 0.0025 * t, t * (b - 0.0025 * t));
    }
  }

  lemma OneQuadratic(n: nat, t: real)
    requires n > 0 && t == n as real
    ensures (1.0 <= t * LIMIT && 0.0025 * (t * t) - (0.1 * 1.0 + 0.0475 * (Z * Z)) * t + 1.0 * 1.0 >= 0.0) <==> n >= 110
  {
    var b := 0.1 + 0.0475 * (Z * Z);
    if n >= 110 {
      Around(t, 110.0, b);
      ProductNonNegative(t - 110.0, 0.0025 * (t + 110.0) - b, (t - 110.0) * (0.0025 * (t + 110.0) - b));
    } else if n >= 20 {
      Around(t, 109.0, b);
      ProductNonNegative(109.0 - t, 0.0025 * (t + 109.0) - b, (109.0 - t) * (0.0025 * (t + 109.0) - b));
    }
  }

  /** The quadratic, expanded around a point. */
  lemma Around(t: real, m: real, b: real)
    ensures 0.0025 * (t * t) - b * t + 1.0 == (0.0025 * (m * m) - b * m + 1.0) + (t - m) * (0.0025 * (t + m) - b)
    ensures (m - t) * (0.0025 * (t + m) - b) == -((t - m) * (0.0025 * (t + m) - b))
  {}
}
