/** The small-order gate: three doublings in extended coordinates. */
module SmallOrder {
  import opened NumberTheory
  import opened Field
  import opened Ed25519

  // Extended coordinates of section 5.1.4 of RFC 8032: x = X/Z, y = Y/Z, x*y = T/Z.
  datatype Extended = Extended(x: int, y: int, z: int, t: int)

  // _double
  function DoubleExtended(c: Curve, s: Extended): (r: Extended)
    requires c.p > 0
  {
    var p := c.p;
    var d2 := 2 * c.d % p;
    var a := (s.y - s.x) * (s.y - s.x) % p;
    var b := (s.y + s.x) * (s.y + s.x) % p;
    var k := s.t * d2 * s.t % p;
    var z2 := 2 * s.z * s.z % p;
    var e := (b - a) % p;
    var f := (z2 - k) % p;
    var g := (z2 + k) % p;
    var h := (b + a) % p;
    Extended(e * f % p, g * h % p, f * g % p, e * h % p)
  }

  function Start(c: Curve, pt: Point): Extended
    requires c.p > 0
  {
    Extended(pt.x % c.p, pt.y % c.p, 1, pt.x * pt.y % c.p)
  }

  // _ed25519_is_small_order
  predicate IsSmallOrder(c: Curve, pt: Point)
    requires c.p > 0
  {
    var s := DoubleExtended(c, DoubleExtended(c, DoubleExtended(c, Start(c, pt))));
    s.x % c.p == 0 && (s.y - s.z) % c.p == 0
  }

  // The addition law of the curve, with division as multiplication by the inverse.
  function Add(c: Curve, a: Point, b: Point): (r: Point)
    requires c.p >= 2
    ensures 0 <= r.x < c.p && 0 <= r.y < c.p
  {
    var k := c.d * a.x * b.x * a.y * b.y;
    Point((a.x * b.y + b.x * a.y) * PowMod(1 + k, c.p - 2, c.p) % c.p,
          (a.y * b.y + a.x * b.x) * PowMod(1 - k, c.p - 2, c.p) % c.p)
  }

  const IDENTITY := Point(0, 1)

  function EightTimes(c: Curve, pt: Point): (r: Point)
    requires c.p >= 2
  {
    var two := Add(c, pt, pt);
    var four := Add(c, two, two);
    Add(c, four, four)
  }

  // The extended coordinates stand for the affine point.
  ghost predicate Represents(c: Curve, s: Extended, pt: Point)
    requires c.p > 0
  {
    && !Cong(s.z, 0, c.p)
    && Cong(s.x, pt.x * s.z, c.p) && Cong(s.y, pt.y * s.z, c.p)
    && Cong(s.x * s.y, s.z * s.t, c.p)
  }

  lemma CongProductMod(e: int, e': int, f: int, f': int, p: int)
    requires p > 0 && Cong(e, e', p) && Cong(f, f', p)
    ensures Cong(e * f % p, e' * f', p)
  {
    CongMul(e, e', f, f', p);
    CongMod(e * f, p);
    CongTrans(e * f % p, e * f, e' * f', p);
  }

  lemma CongSumMod(e: int, e': int, f: int, f': int, p: int)
    requires p > 0 && Cong(e, e', p) && Cong(f, f', p)
    ensures Cong((e + f) % p, e' + f', p) && Cong((e - f) % p, e' - f', p)
  {
    CongAdd(e, e', f, f', p);
    CongMod(e + f, p);
    CongMod(e - f, p);
    CongTrans((e + f) % p, e + f, e' + f', p);
    CongTrans((e - f) % p, e - f, e' - f', p);
  }

  lemma CurveTerm(d: int, t: int, p: int)
    requires p > 0
    ensures Cong(t * (2 * d % p) * t % p, 2 * (d * (t * t)), p)
  {
    var d2 := 2 * d % p;
    CongMod(2 * d, p);
    CongScale(d2, 2 * d, t * t, p);
    Regroup(d2, t, t);
    CongMod(t * d2 * t, p);
    Regroup(2, d, t * t);
    CongTrans(t * d2 * t % p, d2 * (t * t), (2 * d) * (t * t), p);
  }

  lemma SumAndDifferenceOfSquares(x: int, y: int)
    ensures (y + x) * (y + x) - (y - x) * (y - x) == 4 * (x * y)
    ensures (y + x) * (y + x) + (y - x) * (y - x) == 2 * (x * x + y * y)
  {
  }

  lemma ProductsOfParts(a: int, b: int, k: int, z2: int, a': int, b': int, k': int, z': int, p: int)
    requires p > 0 && Cong(a, a', p) && Cong(b, b', p) && Cong(k, k', p) && Cong(z2, z', p)
    ensures var e, f, g, h := b' - a', z' - k', z' + k', b' + a';
            && Cong((b - a) % p * ((z2 - k) % p) % p, e * f, p)
            && Cong((z2 + k) % p * ((b + a) % p) % p, g * h, p)
            && Cong((z2 - k) % p * ((z2 + k) % p) % p, f * g, p)
            && Cong((b - a) % p * ((b + a) % p) % p, e * h, p)
  {
    var e, f, g, h := b' - a', z' - k', z' + k', b' + a';
    CongSumMod(b, b', a, a', p);
    CongSumMod(z2, z', k, k', p);
    CongProductMod((b - a) % p, e, (z2 - k) % p, f, p);
    CongProductMod((z2 + k) % p, g, (b + a) % p, h, p);
    CongProductMod((z2 - k) % p, f, (z2 + k) % p, g, p);
    CongProductMod((b - a) % p, e, (b + a) % p, h, p);
  }

  // The four factors of a doubling, as polynomials in the coordinates.
  lemma DoublingParts(c: Curve, s: Extended) returns (e: int, f: int, g: int, h: int)
    requires c.p > 0
    ensures e == 4 * (s.x * s.y) && h == 2 * (s.x * s.x + s.y * s.y)
    ensures f == 2 * (s.z * s.z - c.d * (s.t * s.t)) && g == 2 * (s.z * s.z + c.d * (s.t * s.t))
    ensures var r := DoubleExtended(c, s);
            Cong(r.x, e * f, c.p) && Cong(r.y, g * h, c.p) && Cong(r.z, f * g, c.p) && Cong(r.t, e * h, c.p)
  {
    var p := c.p;
    var a', b' := (s.y - s.x) * (s.y - s.x), (s.y + s.x) * (s.y + s.x);
    var k', z' := 2 * (c.d * (s.t * s.t)), 2 * s.z * s.z;
    e, f, g, h := b' - a', z' - k', z' + k', b' + a';
    CongMod(a', p);
    CongMod(b', p);
    CongMod(z', p);
    CurveTerm(c.d, s.t, p);
    ProductsOfParts(a' % p, b' % p, s.t * (2 * c.d % p) * s.t % p, z' % p, a', b', k', z', p);
    SumAndDifferenceOfSquares(s.x, s.y);
  }

  // t = w follows from n = z*t and n = m with m = w*z.
  lemma CancelledProduct(n: int, m: int, w: int, z: int, t: int, p: int)
    requires Prime(p) && !Cong(z, 0, p) && Cong(n, m, p) && Cong(n, z * t, p) && m == w * z
    ensures Cong(t, w, p)
  {
    assert z * t == t * z;
    CongSym(n, t * z, p);
    CongTrans(t * z, n, w * z, p);
    CongCancel(t, w, z, p);
  }

  // A state that stands for (x, y) is the state (x*z, y*z, z, x*y*z).
  lemma RepresentedState(c: Curve, s: Extended, pt: Point)
    requires Prime(c.p) && Represents(c, s, pt)
    ensures Cong(s.t, pt.x * pt.y * s.z, c.p)
  {
    CongMul(s.x, pt.x * s.z, s.y, pt.y * s.z, c.p);
    Interchange(pt.x, s.z, pt.y, s.z);
    Regroup(pt.x * pt.y, s.z, s.z);
    CancelledProduct(s.x * s.y, (pt.x * s.z) * (pt.y * s.z), pt.x * pt.y * s.z, s.z, s.t, c.p);
  }

  // The factors of a doubling in terms of the represented point; zz is the square of Z.
  lemma PartsOfPoint(c: Curve, s: Extended, pt: Point, k: int, zz: int)
    requires Prime(c.p) && Represents(c, s, pt)
    requires k == c.d * pt.x * pt.x * pt.y * pt.y && zz == s.z * s.z
    ensures Cong(4 * (s.x * s.y), 2 * zz * (2 * (pt.x * pt.y)), c.p)
    ensures Cong(2 * (s.x * s.x + s.y * s.y), 2 * zz * (pt.x * pt.x + pt.y * pt.y), c.p)
    ensures Cong(2 * (s.z * s.z - c.d * (s.t * s.t)), 2 * zz * (1 - k), c.p)
    ensures Cong(2 * (s.z * s.z + c.d * (s.t * s.t)), 2 * zz * (1 + k), c.p)
  {
    var p, x, y, t := c.p, pt.x * s.z, pt.y * s.z, pt.x * pt.y * s.z;
    RepresentedState(c, s, pt);
    CongMul(s.x, x, s.y, y, p);
    CongMul(s.x, x, s.x, x, p);
    CongMul(s.y, y, s.y, y, p);
    CongMul(s.t, t, s.t, t, p);
    CongScale(s.t * s.t, t * t, c.d, p);
    SquaredCoordinates(pt.x, pt.y, s.z, c.d);
    CongScale(s.x * s.y, x * y, 4, p);
    CongAdd(s.x * s.x, x * x, s.y * s.y, y * y, p);
    CongScale(s.x * s.x + s.y * s.y, x * x + y * y, 2, p);
    CongAdd(zz, zz, c.d * (s.t * s.t), c.d * (t * t), p);
    CongScale(zz - c.d * (s.t * s.t), zz - c.d * (t * t), 2, p);
    CongScale(zz + c.d * (s.t * s.t), zz + c.d * (t * t), 2, p);
  }

  lemma SquaredCoordinates(x: int, y: int, z: int, d: int)
    ensures 4 * ((x * z) * (y * z)) == 2 * (z * z) * (2 * (x * y))
    ensures 2 * ((x * z) * (x * z) + (y * z) * (y * z)) == 2 * (z * z) * (x * x + y * y)
    ensures var k := d * x * x * y * y;
            && d * ((x * y * z) * (x * y * z)) == (z * z) * k
            && 2 * (z * z - (z * z) * k) == 2 * (z * z) * (1 - k)
            && 2 * (z * z + (z * z) * k) == 2 * (z * z) * (1 + k)
  {
    Interchange(x, z, y, z);
    Interchange(x, z, x, z);
    Interchange(y, z, y, z);
    Interchange(x * y, z, x * y, z);
    CurveProduct(d, x, y);
    Regroup(d, (x * y) * (x * y), z * z);
    Scaled(z * z, x * y, x * x, y * y, d * x * x * y * y);
  }

  lemma CurveProduct(d: int, x: int, y: int)
    ensures d * x * x * y * y == d * ((x * y) * (x * y)) == d * ((x * x) * (y * y))
  {
    Interchange(x, y, x, y);
    assert d * x * x == d * (x * x);
    Regroup(d, x * x, y);
    assert (d * (x * x)) * y * y == (d * (x * x)) * (y * y);
  }

  lemma Regroup(a: int, b: int, c: int)
    ensures a * (b * c) == (a * b) * c == c * (a * b)
  {
  }

  lemma Scaled(zz: int, m: int, a: int, b: int, k: int)
    ensures 4 * (m * zz) == 2 * zz * (2 * m) && 2 * (a * zz + b * zz) == 2 * zz * (a + b)
    ensures 2 * (zz - zz * k) == 2 * zz * (1 - k) && 2 * (zz + zz * k) == 2 * zz * (1 + k)
  {
  }

  lemma TwoIsNotZero(p: int)
    requires p > 2
    ensures !Cong(2, 0, p)
  {
    if Cong(2, 0, p) { CongEqual(2, 0, p); }
  }

  // Division in the addition law multiplies back.
  lemma DividedBack(a: int, v: int, p: int)
    requires Prime(p) && !Cong(v, 0, p)
    ensures Cong(a * PowMod(v, p - 2, p) % p * v, a, p)
  {
    var t := PowMod(v, p - 2, p);
    InverseByPower(v, p);
    CongMod(a * t, p);
    CongScale(a * t % p, a * t, v, p);
    CongScale(v * t, 1, a, p);
    Regroup(a, t, v);
    CongTrans(a * t % p * v, (a * t) * v, a, p);
  }

  // Affine doubling without division; neither denominator vanishes on any input.
  lemma DoublingEquations(c: Curve, pt: Point) returns (k: int)
    requires Sound(c)
    ensures k == c.d * pt.x * pt.x * pt.y * pt.y == c.d * ((pt.x * pt.x) * (pt.y * pt.y))
    ensures !Cong(1 + k, 0, c.p) && !Cong(1 - k, 0, c.p)
    ensures Cong(Add(c, pt, pt).x * (1 + k), 2 * (pt.x * pt.y), c.p)
    ensures Cong(Add(c, pt, pt).y * (1 - k), pt.x * pt.x + pt.y * pt.y, c.p)
  {
    k := c.d * pt.x * pt.x * pt.y * pt.y;
    CurveProduct(c.d, pt.x, pt.y);
    NonSquareTimesSquare(c.d, c.i, pt.x * pt.y, c.p);
    if Cong(1 - k, 0, c.p) { CongSym(1 - k, 0, c.p); CongAdd(k, k, 0, 1 - k, c.p); }
    DividedBack(pt.x * pt.y + pt.x * pt.y, 1 + k, c.p);
    DividedBack(pt.y * pt.y + pt.x * pt.x, 1 - k, c.p);
  }

  // If e = m*a, g = m*b and r*b = a, then e = r*g.
  lemma Ratio(e: int, g: int, m: int, a: int, b: int, r: int, p: int)
    requires p > 0 && Cong(e, m * a, p) && Cong(g, m * b, p) && Cong(r * b, a, p)
    ensures Cong(e, r * g, p)
  {
    CongScale(g, m * b, r, p);
    CongScale(r * b, a, m, p);
    Regroup(r, m, b);
    Regroup(m, r, b);
    assert r * (m * b) == m * (r * b);
    CongTrans(r * g, m * (r * b), m * a, p);
    CongSym(r * g, m * a, p);
    CongTrans(e, m * a, r * g, p);
  }

  // n = e*f, m = f*g and e = r*g make n = r*m.
  lemma RatioOfProducts(n: int, m: int, e: int, f: int, g: int, r: int, p: int)
    requires p > 0 && Cong(n, e * f, p) && Cong(m, f * g, p) && Cong(e, r * g, p)
    ensures Cong(n, r * m, p)
  {
    CongScale(e, r * g, f, p);
    CongScale(m, f * g, r, p);
    CongSym(r * m, r * (f * g), p);
    Regroup(r, g, f);
    CongTrans(n, e * f, r * (f * g), p);
    CongTrans(n, r * (f * g), r * m, p);
  }

  lemma ProjectiveDouble(rx: int, ry: int, e: int, f: int, g: int, h: int, r: Extended, p: int)
    requires Prime(p) && !Cong(f, 0, p) && !Cong(g, 0, p)
    requires Cong(e, rx * g, p) && Cong(h, ry * f, p)
    requires Cong(r.x, e * f, p) && Cong(r.y, g * h, p) && Cong(r.z, f * g, p) && Cong(r.t, e * h, p)
    ensures !Cong(r.z, 0, p) && Cong(r.x, rx * r.z, p) && Cong(r.y, ry * r.z, p)
    ensures Cong(r.x * r.y, r.z * r.t, p)
  {
    assert g * h == h * g && f * g == g * f;
    CongZeroProduct(f, g, p);
    NonZeroTransfer(r.z, f * g, p);
    RatioOfProducts(r.x, r.z, e, f, g, rx, p);
    RatioOfProducts(r.y, r.z, h, g, f, ry, p);
    SameProducts(e, f, g, h, r, p);
  }

  lemma SameProducts(e: int, f: int, g: int, h: int, r: Extended, p: int)
    requires p > 0
    requires Cong(r.x, e * f, p) && Cong(r.y, g * h, p) && Cong(r.z, f * g, p) && Cong(r.t, e * h, p)
    ensures Cong(r.x * r.y, r.z * r.t, p)
  {
    CongMul(r.x, e * f, r.y, g * h, p);
    CongMul(r.z, f * g, r.t, e * h, p);
    SameFourFactors(e, f, g, h);
    CongSym(r.z * r.t, (f * g) * (e * h), p);
    CongTrans(r.x * r.y, (e * f) * (g * h), r.z * r.t, p);
  }

  lemma SameFourFactors(e: int, f: int, g: int, h: int)
    ensures (e * f) * (g * h) == (f * g) * (e * h)
  {
    Interchange(f, e, g, h);
  }

  /** Each extended doubling refines affine doubling: Z stays non-zero, X*Y = Z*T stays true,
      and X/Z, Y/Z are the coordinates of the doubled point. */
  lemma DoublingRefines(c: Curve, s: Extended, pt: Point)
    requires Sound(c) && Represents(c, s, pt)
    ensures Represents(c, DoubleExtended(c, s), Add(c, pt, pt))
  {
    var p, zz := c.p, s.z * s.z;
    var e, f, g, h := DoublingParts(c, s);
    var k := DoublingEquations(c, pt);
    var r := Add(c, pt, pt);
    PartsOfPoint(c, s, pt, k, zz);
    TwoIsNotZero(p);
    CongZeroProduct(s.z, s.z, p);
    CongZeroProduct(2, zz, p);
    CongZeroProduct(2 * zz, 1 - k, p);
    CongZeroProduct(2 * zz, 1 + k, p);
    NonZeroTransfer(f, 2 * zz * (1 - k), p);
    NonZeroTransfer(g, 2 * zz * (1 + k), p);
    Ratio(e, g, 2 * zz, 2 * (pt.x * pt.y), 1 + k, r.x, p);
    Ratio(h, f, 2 * zz, pt.x * pt.x + pt.y * pt.y, 1 - k, r.y, p);
    ProjectiveDouble(r.x, r.y, e, f, g, h, DoubleExtended(c, s), p);
  }

  lemma NonZeroTransfer(a: int, b: int, p: int)
    requires p > 0 && Cong(a, b, p) && !Cong(b, 0, p)
    ensures !Cong(a, 0, p)
  {
    CongSym(a, b, p);
    if Cong(a, 0, p) { CongTrans(b, a, 0, p); }
  }

  lemma StartRepresents(c: Curve, pt: Point)
    requires Sound(c)
    ensures Represents(c, Start(c, pt), pt)
  {
    var p, n := c.p, pt.x * pt.y;
    UnitsAreNotZero(c.i, p);
    CongMod(pt.x, p);
    CongMod(pt.y, p);
    CongMod(n, p);
    CongMul(pt.x % p, pt.x, pt.y % p, pt.y, p);
    CongTrans(pt.x % p * (pt.y % p), n, n % p, p);
  }

  lemma RepresentsIdentity(c: Curve, s: Extended, pt: Point)
    requires Sound(c) && Represents(c, s, pt) && 0 <= pt.x < c.p && 0 <= pt.y < c.p
    ensures s.x % c.p == 0 && (s.y - s.z) % c.p == 0 <==> pt == IDENTITY
  {
    var p := c.p;
    CongZeroProduct(pt.x, s.z, p);
    CongSym(s.x, pt.x * s.z, p);
    CongSym(s.y, pt.y * s.z, p);
    CongCancel(pt.y, 1, s.z, p);
    if Cong(s.x, 0, p) { CongTrans(pt.x * s.z, s.x, 0, p); CongEqual(pt.x, 0, p); }
    if pt.x == 0 { assert Cong(s.x, 0, p); }
    if Cong(s.y, s.z, p) { CongTrans(pt.y * s.z, s.y, 1 * s.z, p); CongEqual(pt.y, 1, p); }
    if pt.y == 1 { assert Cong(s.y, s.z, p); }
  }

  /** The gate computes exactly "8 times the point is the identity". */
  lemma SmallOrderIsEightTimes(c: Curve, pt: Point)
    requires Sound(c)
    ensures IsSmallOrder(c, pt) <==> EightTimes(c, pt) == IDENTITY
  {
    var two := Add(c, pt, pt);
    var four := Add(c, two, two);
    var s0 := Start(c, pt);
    var s1 := DoubleExtended(c, s0);
    var s2 := DoubleExtended(c, s1);
    StartRepresents(c, pt);
    DoublingRefines(c, s0, pt);
    DoublingRefines(c, s1, two);
    DoublingRefines(c, s2, four);
    RepresentsIdentity(c, DoubleExtended(c, s2), Add(c, four, four));
  }

  // With a = 1 + dq and b = 1 - dq, closure of the curve under doubling is this identity.
  lemma ClosureIdentity(a: int, b: int, q: int, m: int, dq: int)
    requires a == 1 + dq && b == 1 - dq
    ensures -(4 * q) * (b * b) + m * (a * a) - (a * a) * (b * b) - 4 * dq * m
            == (m - a * a - 4 * q) * (a * a - 4 * dq)
  {
    var w := a * a;
    assert b * b == w - 4 * dq by {
      assert b == 2 - a;
      assert (2 - a) * (2 - a) == 4 - 4 * a + a * a;
    }
    var v := w - 4 * dq;
    assert (m - w - 4 * q) * v == m * v - w * v - 4 * q * v;
    assert m * v == m * w - m * (4 * dq);
  }

  // The sum and the difference of x^2 and y^2: s*s = e*e + 4*x^2*y^2.
  lemma SumSquared(xx: int, yy: int)
    ensures (xx + yy) * (xx + yy) == (yy - xx) * (yy - xx) + 4 * (xx * yy)
  {
  }

  // What the doubled point's coordinates satisfy once denominators are cleared.
  lemma ClearedEquation(u: int, v: int, a: int, b: int, d: int)
    ensures (-(u * u) + v * v - (1 + d * (u * u) * (v * v))) * ((a * a) * (b * b))
            == -((u * a) * (u * a)) * (b * b) + ((v * b) * (v * b)) * (a * a) - (a * a) * (b * b)
               - d * (((u * a) * (u * a)) * ((v * b) * (v * b)))
  {
    Interchange(u, a, u, a);
    Interchange(v, b, v, b);
    Cleared(u * u, v * v, a * a, b * b, d);
  }

  lemma Cleared(u: int, v: int, a: int, b: int, d: int)
    ensures (-u + v - (1 + d * u * v)) * (a * b)
            == -(u * a) * b + (v * b) * a - a * b - d * ((u * a) * (v * b))
  {
    Interchange(u, a, v, b);
    assert d * ((u * v) * (a * b)) == (d * (u * v)) * (a * b);
    assert d * u * v == d * (u * v);
    assert (-u) * (a * b) == -(u * a) * b;
    assert v * (a * b) == (v * b) * a;
  }

  lemma ReplaceSquares(u: int, u': int, v: int, v': int, aa: int, bb: int, d: int, p: int)
    requires p > 0 && Cong(u, u', p) && Cong(v, v', p)
    ensures Cong(-u * bb + v * aa - aa * bb - d * (u * v), -u' * bb + v' * aa - aa * bb - d * (u' * v'), p)
  {
    CongAdd(0, 0, u, u', p);
    CongMul(-u, -u', bb, bb, p);
    CongMul(v, v', aa, aa, p);
    CongMul(u, u', v, v', p);
    CongMul(d, d, u * v, u' * v', p);
    CongAdd(-u * bb, -u' * bb, v * aa, v' * aa, p);
    CongAdd(-u * bb + v * aa, -u' * bb + v' * aa, aa * bb, aa * bb, p);
    CongAdd(-u * bb + v * aa - aa * bb, -u' * bb + v' * aa - aa * bb, d * (u * v), d * (u' * v'), p);
  }

  // The squared numerators of a doubling, reduced with the curve equation.
  lemma SquaredNumerators(c: Curve, pt: Point, k: int) returns (q: int, m: int)
    requires Sound(c) && OnCurve(c, pt) && k == c.d * ((pt.x * pt.x) * (pt.y * pt.y))
    ensures q == (pt.x * pt.x) * (pt.y * pt.y) && m == (pt.x * pt.x + pt.y * pt.y) * (pt.x * pt.x + pt.y * pt.y)
    ensures Cong((2 * (pt.x * pt.y)) * (2 * (pt.x * pt.y)), 4 * q, c.p)
    ensures Cong(m - (1 + k) * (1 + k) - 4 * q, 0, c.p)
  {
    var p, xx, yy, a := c.p, pt.x * pt.x, pt.y * pt.y, 1 + k;
    q, m := xx * yy, (xx + yy) * (xx + yy);
    Interchange(pt.x, pt.y, pt.x, pt.y);
    Interchange(2, pt.x * pt.y, 2, pt.x * pt.y);
    CongIntro(4 * q, 4 * q, 0, p);
    SumSquared(xx, yy);
    Regroup(c.d, xx, yy);
    CongMul(-xx + yy, a, -xx + yy, a, p);
  }

  lemma DoubleCurveEquation(x: int, y: int, a: int, b: int, d: int, q: int, m: int, n: int, s: int, p: int)
    requires Prime(p) && !Cong(a, 0, p) && !Cong(b, 0, p)
    requires a == 1 + d * q && b == 1 - d * q && m == s * s
    requires Cong(x * a, n, p) && Cong(n * n, 4 * q, p) && Cong(y * b, s, p) && Cong(m - a * a - 4 * q, 0, p)
    ensures Cong(-(x * x) + y * y, 1 + d * (x * x) * (y * y), p)
  {
    var w := -(x * x) + y * y - (1 + d * (x * x) * (y * y));
    var u, v := (x * a) * (x * a), (y * b) * (y * b);
    CongMul(x * a, n, x * a, n, p);
    CongTrans(u, n * n, 4 * q, p);
    CongMul(y * b, s, y * b, s, p);
    ReplaceSquares(u, 4 * q, v, m, a * a, b * b, d, p);
    ClearedEquation(x, y, a, b, d);
    ClosureIdentity(a, b, q, m, d * q);
    assert d * ((4 * q) * m) == 4 * (d * q) * m by { Regroup(d, 4 * q, m); }
    CongScale(m - a * a - 4 * q, 0, a * a - 4 * (d * q), p);
    var t := -(4 * q) * (b * b) + m * (a * a) - (a * a) * (b * b) - d * ((4 * q) * m);
    CongTrans(w * ((a * a) * (b * b)), t, 0, p);
    CongZeroProduct(a, a, p);
    CongZeroProduct(b, b, p);
    CongZeroProduct(a * a, b * b, p);
    CongZeroProduct(w, (a * a) * (b * b), p);
  }

  /** Doubling stays on the curve. */
  lemma DoubleOnCurve(c: Curve, pt: Point)
    requires Sound(c) && OnCurve(c, pt)
    ensures OnCurve(c, Add(c, pt, pt))
  {
    var k := DoublingEquations(c, pt);
    var q, m := SquaredNumerators(c, pt, k);
    var r := Add(c, pt, pt);
    DoubleCurveEquation(r.x, r.y, 1 + k, 1 - k, c.d, q, m, 2 * (pt.x * pt.y), pt.x * pt.x + pt.y * pt.y, c.p);
  }

  /** The extended coordinates keep the projective curve equation. */
  lemma DoublingKeepsEquation(c: Curve, s: Extended, pt: Point)
    requires Sound(c) && OnCurve(c, pt) && Represents(c, s, pt)
    ensures var r := DoubleExtended(c, s);
            && !Cong(r.z, 0, c.p) && Cong(r.x * r.y, r.z * r.t, c.p)
            && Cong(-(r.x * r.x) + r.y * r.y, r.z * r.z + c.d * (r.t * r.t), c.p)
  {
    var r, q := DoubleExtended(c, s), Add(c, pt, pt);
    DoublingRefines(c, s, pt);
    DoubleOnCurve(c, pt);
    Homogeneous(c, r, q);
  }

  lemma Homogeneous(c: Curve, r: Extended, q: Point)
    requires Sound(c) && OnCurve(c, q) && Represents(c, r, q)
    ensures Cong(-(r.x * r.x) + r.y * r.y, r.z * r.z + c.d * (r.t * r.t), c.p)
  {
    var p, zz := c.p, r.z * r.z;
    var x, y, t := q.x * r.z, q.y * r.z, q.x * q.y * r.z;
    RepresentedState(c, r, q);
    CongMul(r.x, x, r.x, x, p);
    CongMul(r.y, y, r.y, y, p);
    CongMul(r.t, t, r.t, t, p);
    CongScale(r.t * r.t, t * t, c.d, p);
    Interchange(q.x, r.z, q.x, r.z);
    Interchange(q.y, r.z, q.y, r.z);
    SquaredCoordinates(q.x, q.y, r.z, c.d);
    CurveProduct(c.d, q.x, q.y);
    Regroup(c.d, q.x * q.x, q.y * q.y);
    CongScale(-(q.x * q.x) + q.y * q.y, 1 + c.d * (q.x * q.x) * (q.y * q.y), zz, p);
    Homogenize(r.x * r.x, r.y * r.y, c.d * (r.t * r.t), q.x * q.x, q.y * q.y, c.d * (q.x * q.x) * (q.y * q.y), zz, p);
  }

  lemma Homogenize(xx: int, yy: int, dtt: int, ax: int, ay: int, k: int, zz: int, p: int)
    requires p > 0 && Cong(xx, ax * zz, p) && Cong(yy, ay * zz, p) && Cong(dtt, zz * k, p)
    requires Cong((-ax + ay) * zz, (1 + k) * zz, p)
    ensures Cong(-xx + yy, zz + dtt, p)
  {
    CongAdd(yy, ay * zz, xx, ax * zz, p);
    CongAdd(zz, zz, dtt, zz * k, p);
    CongSym(zz + dtt, zz + zz * k, p);
    assert (-ax + ay) * zz == ay * zz - ax * zz && (1 + k) * zz == zz + zz * k;
    CongTrans(yy - xx, ay * zz - ax * zz, zz + zz * k, p);
    CongTrans(yy - xx, zz + zz * k, zz + dtt, p);
  }
}
