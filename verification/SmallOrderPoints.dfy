/** The eight points of the real curve that the small-order gate refuses. */
module SmallOrderPoints {
  import opened Wrappers
  import opened NumberTheory
  import opened Field
  import opened Bytes
  import opened Ed25519
  import opened SmallOrder
  import opened KeyLoading

  // The curve equation with d = -a/n cleared.
  lemma ScaledCurve(d: int, xx: int, yy: int, a: int, n: int, p: int)
    requires Prime(p) && !Cong(n, 0, p) && Cong(d * n, -a, p)
    ensures Cong(-xx + yy, 1 + d * xx * yy, p) <==> Cong((-xx + yy) * n, n - a * (xx * yy), p)
  {
    var l, r := -xx + yy, 1 + d * xx * yy;
    CongCancel(l, r, n, p);
    ScaledRight(d, xx * yy, a, n, p);
    assert d * xx * yy == d * (xx * yy);
    CongSym(r * n, n - a * (xx * yy), p);
    if Cong(l * n, r * n, p) { CongTrans(l * n, r * n, n - a * (xx * yy), p); }
    if Cong(l * n, n - a * (xx * yy), p) { CongTrans(l * n, n - a * (xx * yy), r * n, p); }
  }

  lemma ScaledRight(d: int, q: int, a: int, n: int, p: int)
    requires p > 0 && Cong(d * n, -a, p)
    ensures Cong((1 + d * q) * n, n - a * q, p)
  {
    CongScale(d * n, -a, q, p);
    assert (1 + d * q) * n == n + d * n * q;
    CongAdd(n, n, d * n * q, -a * q, p);
  }

  function Quadratic(a: int, n: int, x: int): int { a * (x * x) + 2 * n * x + n }

  // On the curve with x^2 + y^2 = 0, the square of x is a root of a fixed quadratic.
  lemma SquareIsRoot(xx: int, yy: int, a: int, n: int, p: int)
    requires p > 0 && Cong(yy, -xx, p) && Cong((-xx + yy) * n, n - a * (xx * yy), p)
    ensures Cong(Quadratic(a, n, xx), 0, p)
  {
    CongAdd(-xx, -xx, yy, -xx, p);
    CongScale(-xx + yy, -2 * xx, n, p);
    CongScale(yy, -xx, a * xx, p);
    Moved(xx, yy, a, n);
    CongAdd(n, n, a * xx * yy, a * xx * -xx, p);
    CongSym((-xx + yy) * n, n - a * xx * yy, p);
    CongTrans(n - a * xx * yy, (-xx + yy) * n, -2 * xx * n, p);
    CongSym(n - a * xx * yy, n - a * xx * -xx, p);
    CongTrans(n - a * xx * -xx, n - a * xx * yy, -2 * xx * n, p);
    assert (n - a * xx * -xx) - (-2 * xx * n) == Quadratic(a, n, xx);
  }

  lemma Moved(xx: int, yy: int, a: int, n: int)
    ensures a * (xx * yy) == a * xx * yy && a * xx * -xx == -(a * (xx * xx))
    ensures -2 * xx * n == -(2 * n * xx)
  {
  }

  lemma QuadraticDifference(a: int, n: int, x: int, z: int)
    ensures Quadratic(a, n, x) - Quadratic(a, n, z) == (x - z) * (a * (x + z) + 2 * n)
  {
    assert (x - z) * (x + z) == x * x - z * z;
    assert (x - z) * (a * (x + z)) == a * ((x - z) * (x + z));
    assert a * (x * x - z * z) == a * (x * x) - a * (z * z);
  }

  // Two roots of the quadratic are equal or have product n / a.
  lemma TwoRoots(a: int, n: int, x: int, z: int, p: int)
    requires Prime(p) && Cong(Quadratic(a, n, x), 0, p) && Cong(Quadratic(a, n, z), 0, p)
    ensures Cong(x, z, p) || Cong(a * (x * z), n, p)
  {
    CongAdd(Quadratic(a, n, x), 0, Quadratic(a, n, z), 0, p);
    QuadraticDifference(a, n, x, z);
    var w := a * (x + z) + 2 * n;
    CongZeroProduct(x - z, w, p);
    if Cong(w, 0, p) {
      CongScale(w, 0, z, p);
      CongAdd(w * z, 0, Quadratic(a, n, z), 0, p);
      OtherRoot(a, n, x, z);
    }
  }

  lemma OtherRoot(a: int, n: int, x: int, z: int)
    ensures (a * (x + z) + 2 * n) * z - Quadratic(a, n, z) == a * (x * z) - n
  {
    assert a * (x + z) * z == a * (x * z) + a * (z * z);
    assert (a * (x + z) + 2 * n) * z == a * (x + z) * z + 2 * n * z;
  }

  // The product of two squares is not n / a = -1/d.
  lemma ProductNotMinusInverse(c: Curve, x: int, z: int, a: int, n: int)
    requires Sound(c) && !Cong(n, 0, c.p) && Cong(c.d * n, -a, c.p)
    ensures !Cong(a * ((x * x) * (z * z)), n, c.p)
  {
    var p, w := c.p, x * z;
    Interchange(x, z, x, z);
    var ww := w * w;
    if Cong(a * ww, n, p) {
      CongScale(c.d * n, -a, ww, p);
      CongScale(a * ww, n, -1, p);
      assert -a * ww == a * ww * -1 && c.d * n * ww == c.d * ww * n && n * -1 == -1 * n;
      CongTrans(c.d * ww * n, -a * ww, -1 * n, p);
      CongCancel(c.d * ww, -1, n, p);
      NonSquareTimesSquare(c.d, c.i, w, p);
    }
  }

  lemma SumZero(u: int, v: int, p: int)
    requires p > 0 && Cong(u + v, 0, p)
    ensures Cong(v, -u, p)
  {
    assert (u + v) - 0 == v - (-u);
  }

  // A curve point with x^2 + y^2 = 0 has the given coordinates up to sign.
  lemma OrderEight(c: Curve, pt: Point, x8: int, y8: int, a: int, n: int)
    requires Sound(c) && OnCurve(c, pt) && !Cong(n, 0, c.p) && Cong(c.d * n, -a, c.p)
    requires 0 <= x8 < c.p && 0 <= y8 < c.p && Cong(Quadratic(a, n, x8 * x8), 0, c.p) && IsRoot(y8, -(x8 * x8), c.p)
    requires Cong(pt.x * pt.x + pt.y * pt.y, 0, c.p)
    ensures (pt.x == x8 || pt.x == c.p - x8) && (pt.y == y8 || pt.y == c.p - y8)
  {
    var p, xx, yy := c.p, pt.x * pt.x, pt.y * pt.y;
    SumZero(xx, yy, p);
    ScaledCurve(c.d, xx, yy, a, n, p);
    SquareIsRoot(xx, yy, a, n, p);
    TwoRoots(a, n, xx, x8 * x8, p);
    ProductNotMinusInverse(c, pt.x, x8, a, n);
    RootsUpToSign(x8, pt.x, x8 * x8, p);
    CongScale(xx, x8 * x8, -1, p);
    CongTrans(yy, -xx, -(x8 * x8), p);
    RootsUpToSign(y8, pt.y, -(x8 * x8), p);
  }

  // ----- The eight points -----

  // The values both coordinates take up to sign, and a square root of -1.
  const X8: int := 0x602a465ff9c6b5d716cc66cdc721b544a3e6c38fec1a1dc7215eb9b93aba2ea3
  const Y8: int := 0x05fc536d880238b13933c6d305acdfd5f098eff289f4c345b027b2c28f95e826
  const ROOT: int := 0x2b8324804fc1df0b2b4d00993dfbd7a72f431806ad2fe478c4ee1b274a0ea0b0
  const P: int := 0x7fffffffffffffffffffffffffffffffffffffffffffffffffffffffffffffed

  function EightPoints(): (r: seq<Point>)
    ensures |r| == 8
  {
    [Point(0, 1), Point(0, P - 1), Point(ROOT, 0), Point(P - ROOT, 0),
     Point(X8, Y8), Point(X8, P - Y8), Point(P - X8, Y8), Point(P - X8, P - Y8)]
  }

  lemma Numbers()
    ensures Cong(Quadratic(121665, 121666, X8 * X8), 0, P)
    ensures IsRoot(Y8, -(X8 * X8), P) && IsRoot(ROOT, -1, P) && IsRoot(1, 1, P)
  {
  }

  // Either sign of a root is a root.
  lemma BothSigns(s: int, r: int, a: int, p: int)
    requires p > 0 && IsRoot(s, a, p) && (r == s || r == p - s)
    ensures IsRoot(r, a, p)
  {
    NegatedSquares(s, p);
    CongTrans((p - s) * (p - s), s * s, a, p);
  }

  lemma RealConstants(c: Curve)
    requires IsEd25519(c)
    ensures Sound(c) && c.p == P && !Cong(121666, 0, P) && Cong(c.d * 121666, -121665, P)
  {
    Ed25519IsSound(c);
    CurveConstant(c);
    SmallIsNotZero(121666, P);
  }

  // A point with x = 0.
  lemma ZeroX(c: Curve, pt: Point)
    requires Sound(c) && c.p == P && pt.x == 0 && 0 <= pt.y < P
    ensures OnCurve(c, pt) <==> pt.y == 1 || pt.y == P - 1
  {
    var yy := pt.y * pt.y;
    Numbers();
    assert pt.x * pt.x == 0 && c.d * (pt.x * pt.x) * yy == 0;
    if OnCurve(c, pt) { RootsUpToSign(1, pt.y, 1, P); }
    if pt.y == 1 || pt.y == P - 1 { BothSigns(1, pt.y, 1, P); }
  }

  lemma ZeroY(c: Curve, pt: Point)
    requires Sound(c) && c.p == P && pt.y == 0 && 0 <= pt.x < P
    ensures OnCurve(c, pt) <==> pt.x == ROOT || pt.x == P - ROOT
  {
    var xx := pt.x * pt.x;
    Numbers();
    assert pt.y * pt.y == 0 && c.d * xx * (pt.y * pt.y) == 0;
    NegateBothSides(xx, P);
    if OnCurve(c, pt) { RootsUpToSign(ROOT, pt.x, -1, P); }
    if pt.x == ROOT || pt.x == P - ROOT { BothSigns(ROOT, pt.x, -1, P); }
  }

  lemma NegateBothSides(xx: int, p: int)
    requires p > 0
    ensures Cong(-xx, 1, p) <==> Cong(xx, -1, p)
  {
    if Cong(-xx, 1, p) { CongScale(-xx, 1, -1, p); }
    if Cong(xx, -1, p) { CongScale(xx, -1, -1, p); }
  }

  // The converse of SquareIsRoot.
  lemma RootIsOnCurve(xx: int, yy: int, a: int, n: int, p: int)
    requires p > 0 && Cong(yy, -xx, p) && Cong(Quadratic(a, n, xx), 0, p)
    ensures Cong((-xx + yy) * n, n - a * (xx * yy), p)
  {
    CongAdd(-xx, -xx, yy, -xx, p);
    CongScale(-xx + yy, -2 * xx, n, p);
    CongScale(yy, -xx, a * xx, p);
    Moved(xx, yy, a, n);
    CongAdd(n, n, a * xx * yy, a * xx * -xx, p);
    CongSym(n - a * xx * yy, n - a * xx * -xx, p);
    CongSym(Quadratic(a, n, xx), 0, p);
    assert 0 - Quadratic(a, n, xx) == -2 * xx * n - (n - a * xx * -xx);
    CongTrans((-xx + yy) * n, -2 * xx * n, n - a * xx * -xx, p);
    CongTrans((-xx + yy) * n, n - a * xx * -xx, n - a * xx * yy, p);
  }

  lemma QuadraticSame(a: int, n: int, x: int, z: int, p: int)
    requires p > 0 && Cong(x, z, p) && Cong(Quadratic(a, n, z), 0, p)
    ensures Cong(Quadratic(a, n, x), 0, p)
  {
    QuadraticDifference(a, n, x, z);
    CongScale(x - z, 0, a * (x + z) + 2 * n, p);
    CongAdd(Quadratic(a, n, x) - Quadratic(a, n, z), 0, Quadratic(a, n, z), 0, p);
  }

  lemma EighthOnCurve(c: Curve, pt: Point, x8: int, y8: int, a: int, n: int)
    requires Sound(c) && !Cong(n, 0, c.p) && Cong(c.d * n, -a, c.p) && 0 <= pt.x < c.p && 0 <= pt.y < c.p
    requires Cong(Quadratic(a, n, x8 * x8), 0, c.p) && IsRoot(y8, -(x8 * x8), c.p)
    requires (pt.x == x8 || pt.x == c.p - x8) && (pt.y == y8 || pt.y == c.p - y8)
    ensures OnCurve(c, pt) && Cong(pt.x * pt.x + pt.y * pt.y, 0, c.p)
  {
    var p, xx, yy := c.p, pt.x * pt.x, pt.y * pt.y;
    BothSigns(x8, pt.x, x8 * x8, p);
    BothSigns(y8, pt.y, -(x8 * x8), p);
    CongAdd(xx, x8 * x8, yy, -(x8 * x8), p);
    SumZero(xx, yy, p);
    QuadraticSame(a, n, xx, x8 * x8, p);
    RootIsOnCurve(xx, yy, a, n, p);
    ScaledCurve(c.d, xx, yy, a, n, p);
  }

  // Rejected points of the curve in terms of the three factors of the torsion equation.
  lemma ThreeCases(c: Curve, pt: Point)
    requires Sound(c) && OnCurve(c, pt)
    ensures IsSmallOrder(c, pt) <==> pt.x == 0 || pt.y == 0 || Cong(pt.x * pt.x + pt.y * pt.y, 0, c.p)
  {
    TorsionEquation(c, pt);
    CongZeroProduct(pt.x * pt.y, pt.x * pt.x + pt.y * pt.y, c.p);
    CongZeroProduct(pt.x, pt.y, c.p);
    ResidueIsZero(pt.x, c.p);
    ResidueIsZero(pt.y, c.p);
  }

  ghost predicate IsEighth(pt: Point) {
    (pt.x == X8 || pt.x == P - X8) && (pt.y == Y8 || pt.y == P - Y8)
  }

  lemma EighthExactly(c: Curve, pt: Point)
    requires IsEd25519(c) && 0 <= pt.x < P && 0 <= pt.y < P
    ensures IsEighth(pt) <==> OnCurve(c, pt) && Cong(pt.x * pt.x + pt.y * pt.y, 0, P)
  {
    RealConstants(c);
    Numbers();
    if IsEighth(pt) { EighthOnCurve(c, pt, X8, Y8, 121665, 121666); }
    if OnCurve(c, pt) && Cong(pt.x * pt.x + pt.y * pt.y, 0, P) { OrderEight(c, pt, X8, Y8, 121665, 121666); }
  }

  lemma Listed(pt: Point)
    ensures pt in EightPoints() <==>
            (pt.x == 0 && (pt.y == 1 || pt.y == P - 1)) || (pt.y == 0 && (pt.x == ROOT || pt.x == P - ROOT)) || IsEighth(pt)
  {
    var r := EightPoints();
    assert pt in r <==> pt == r[0] || pt == r[1] || pt == r[2] || pt == r[3] || pt == r[4] || pt == r[5] || pt == r[6] || pt == r[7];
  }

  /** The curve points the gate refuses are the identity and seven others. */
  lemma RefusedPoints(c: Curve, pt: Point)
    requires IsEd25519(c)
    ensures c.p == P
    ensures OnCurve(c, pt) && IsSmallOrder(c, pt) <==> pt in EightPoints()
  {
    RealConstants(c);
    Listed(pt);
    if 0 <= pt.x < P && 0 <= pt.y < P {
      if OnCurve(c, pt) { ThreeCases(c, pt); }
      if pt.x == 0 { ZeroX(c, pt); }
      if pt.y == 0 { ZeroY(c, pt); }
      EighthExactly(c, pt);
    }
  }

  lemma PointsDiffer(j: nat, k: nat)
    requires j < k < 8
    ensures EightPoints()[j] != EightPoints()[k]
  {
  }

  /** Exactly eight keys decode and are refused as small order: the encodings of those points, no two
      of them the same. */
  lemma ExactlyEightRefused(c: Curve, raw: seq<byte>)
    requires IsEd25519(c) && |raw| == KEY_LENGTH
    ensures c.p >= 2
    ensures DecodePoint(c, raw).Some? && IsSmallOrder(c, DecodePoint(c, raw).value) <==>
            exists j :: 0 <= j < 8 && raw == Encode(EightPoints()[j])
    ensures forall j, k :: 0 <= j < k < 8 ==> Encode(EightPoints()[j]) != Encode(EightPoints()[k])
  {
    RealConstants(c);
    var pt := DecodePoint(c, raw);
    if pt.Some? {
      DecodeIsInverseOfEncode(c, raw, pt.value);
      RefusedPoints(c, pt.value);
    }
    forall j | 0 <= j < 8 ensures DecodePoint(c, Encode(EightPoints()[j])) == Some(EightPoints()[j]) && IsSmallOrder(c, EightPoints()[j]) {
      RefusedPoints(c, EightPoints()[j]);
      DecodeComplete(c, EightPoints()[j]);
    }
    forall j, k | 0 <= j < k < 8 ensures Encode(EightPoints()[j]) != Encode(EightPoints()[k]) {
      PointsDiffer(j, k);
    }
  }
}
