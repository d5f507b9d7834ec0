/** Public-key decoding and the small-order gate (eyenet/crypto/_file_access_signing.py). */
module Ed25519 {
  import opened Wrappers
  import opened NumberTheory
  import opened Field
  import opened Bytes

  /** The curve -x^2 + y^2 = 1 + d x^2 y^2 over the integers modulo p, and the number the
      code uses as a square root of -1. */
  datatype Curve = Curve(p: int, d: int, i: int)

  const KEY_LENGTH: nat := 32

  datatype Point = Point(x: int, y: int)

  ghost predicate Sound(c: Curve) {
    && Prime(c.p) && c.p % 8 == 5 && c.p < TWO_255
    && Cong(c.i * c.i, -1, c.p)
    && NonSquare(c.d, c.p)
  }

  ghost predicate OnCurve(c: Curve, pt: Point)
    requires c.p > 0
  {
    && 0 <= pt.x < c.p && 0 <= pt.y < c.p
    && Cong(-(pt.x * pt.x) + pt.y * pt.y, 1 + c.d * (pt.x * pt.x) * (pt.y * pt.y), c.p)
  }

  // Section 5.1.2 of RFC 8032: y in little-endian order, the low bit of x on top.
  function Encode(pt: Point): (raw: seq<byte>)
    requires 0 <= pt.y
  {
    ToLittleEndian(pt.y + pt.x % 2 * TWO_255, KEY_LENGTH)
  }

  // u / v modulo p for u = y^2 - 1 and v = d*y^2 + 1, dividing by a power.
  function SquaredX(c: Curve, y: int): (x2: int)
    requires c.p >= 2
    ensures 0 <= x2 < c.p
  {
    var y2 := y * y % c.p;
    var u := (y2 - 1) % c.p;
    var v := (c.d * y2 + 1) % c.p;
    u * PowMod(v, c.p - 2, c.p) % c.p
  }

  // The square-root candidate, moved to the other branch when it squares to something else.
  function RootOf(c: Curve, x2: int): (x: int)
    requires c.p >= 2
    ensures 0 <= x < c.p
  {
    var x := PowMod(x2, (c.p + 3) / 8, c.p);
    if (x * x - x2) % c.p != 0 then x * c.i % c.p else x
  }

  // The point with second coordinate y whose first coordinate has the given low bit.
  function Recover(c: Curve, y: int, sign: int): (pt: Option<Point>)
    requires c.p >= 2
  {
    if y >= c.p then None else
    var x2 := SquaredX(c, y);
    var x := RootOf(c, x2);
    if (x * x - x2) % c.p != 0 then None
    else if x == 0 && sign == 1 then None
    else Some(Point(if x % 2 != sign then (c.p - x) % c.p else x, y))
  }

  // _decode_ed25519_point
  function DecodePoint(c: Curve, raw: seq<byte>): (pt: Option<Point>)
    requires c.p >= 2
  {
    var n := FromLittleEndian(raw);
    Recover(c, n % TWO_255, n / TWO_255 % 2)
  }

  // The denominator d*y^2 + 1 never vanishes.
  lemma DenominatorNonZero(c: Curve, y: int)
    requires Sound(c)
    ensures !Cong(c.d * (y * y) + 1, 0, c.p)
  {
    NonSquareTimesSquare(c.d, c.i, y, c.p);
    assert c.d * (y * y) + 1 - 0 == c.d * (y * y) - (-1);
  }

  lemma Denominators(c: Curve, y: int) returns (u: int, v: int)
    requires c.p >= 2
    ensures u == (y * y % c.p - 1) % c.p && v == (c.d * (y * y % c.p) + 1) % c.p
    ensures Cong(u, y * y - 1, c.p) && Cong(v, c.d * (y * y) + 1, c.p)
  {
    var p, y2 := c.p, y * y % c.p;
    u, v := (y2 - 1) % p, (c.d * y2 + 1) % p;
    CongMod(y * y, p);
    CongAdd(y2, y * y, 1, 1, p);
    CongMod(y2 - 1, p);
    CongTrans(u, y2 - 1, y * y - 1, p);
    CongScale(y2, y * y, c.d, p);
    CongAdd(c.d * y2, c.d * (y * y), 1, 1, p);
    CongMod(c.d * y2 + 1, p);
    CongTrans(v, c.d * y2 + 1, c.d * (y * y) + 1, p);
  }

  // x is on the curve with y exactly when x*x is the decoder's u / v.
  lemma CurveEquation(c: Curve, x: int, y: int)
    requires Sound(c)
    ensures Cong(-(x * x) + y * y, 1 + c.d * (x * x) * (y * y), c.p) <==> Cong(x * x, SquaredX(c, y), c.p)
  {
    var p := c.p;
    var u, v := Denominators(c, y);
    var w := c.d * (y * y) + 1;
    DenominatorNonZero(c, y);
    if Cong(v, 0, p) { CongSym(v, w, p); CongTrans(w, v, 0, p); }
    var t := PowMod(v, p - 2, p);
    InverseByPower(v, p);
    var x2 := SquaredX(c, y);
    CongMod(u * t, p);
    // x2 * v = u
    CongScale(x2, u * t, v, p);
    assert (u * t) * v == u * (v * t);
    CongScale(v * t, 1, u, p);
    CongTrans(x2 * v, u * (v * t), u, p);
    CongCancel(x * x, x2, v, p);
    Rearranged(c.d, x * x, y * y, u, v, x2, p);
  }

  lemma Rearranged(d: int, a: int, b: int, u: int, v: int, x2: int, p: int)
    requires p > 0 && Cong(u, b - 1, p) && Cong(v, d * b + 1, p) && Cong(x2 * v, u, p)
    ensures Cong(-a + b, 1 + d * a * b, p) <==> Cong(a * v, x2 * v, p)
  {
    CongScale(v, d * b + 1, a, p);
    assert (-a + b) - (1 + d * a * b) == (b - 1) - a * (d * b + 1);
    CongSym(a * v, a * (d * b + 1), p);
    CongSym(u, b - 1, p);
    CongSym(x2 * v, u, p);
    if Cong(-a + b, 1 + d * a * b, p) {
      assert Cong(b - 1, a * (d * b + 1), p);
      CongTrans(u, b - 1, a * (d * b + 1), p);
      CongTrans(x2 * v, u, a * (d * b + 1), p);
      CongTrans(x2 * v, a * (d * b + 1), a * v, p);
      CongSym(x2 * v, a * v, p);
    }
    if Cong(a * v, x2 * v, p) {
      CongTrans(a * v, x2 * v, u, p);
      CongTrans(a * v, u, b - 1, p);
      CongSym(a * v, b - 1, p);
      CongTrans(b - 1, a * v, a * (d * b + 1), p);
    }
  }

  // The two candidates find a square root whenever there is one.
  lemma RootFound(c: Curve, s: int, x2: int)
    requires Sound(c) && IsRoot(s, x2, c.p)
    ensures IsRoot(RootOf(c, x2), x2, c.p)
  {
    var p := c.p;
    var e := (p + 3) / 8;
    var w, x0 := Pow(x2, e), PowMod(x2, e, p);
    RootCandidate(s, x2, p);
    CongMul(x0, w, x0, w, p);
    if !Cong(x0 * x0, x2, p) {
      if Cong(w * w, x2, p) { CongTrans(x0 * x0, w * w, x2, p); }
      CongTrans(x0 * x0, w * w, -x2, p);
      var x := x0 * c.i % p;
      CongMod(x0 * c.i, p);
      CongMul(x, x0 * c.i, x, x0 * c.i, p);
      Interchange(x0, c.i, x0, c.i);
      CongMul(x0 * x0, -x2, c.i * c.i, -1, p);
      CongTrans(x * x, (x0 * x0) * (c.i * c.i), x2, p);
    }
  }

  lemma Negated(x: int, p: int)
    requires 0 <= x < p
    ensures (p - x) % p == if x == 0 then 0 else p - x
  {
    if x == 0 { ModOfMultiple(p, 1, p); }
  }

  lemma SumIsMultiple(x: int, s: int, k: int, p: int)
    requires 0 <= x < p && 0 <= s < p && x + s == k * p
    ensures (x == 0 && s == 0) || s == p - x
  {
    MultipleIsFar(k, p);
    MultipleIsFar(k - 1, p);
    assert (k - 1) * p == x + s - p;
  }

  lemma RootsUpToSign(x: int, s: int, a: int, p: int)
    requires Prime(p) && 0 <= x < p && 0 <= s < p && IsRoot(x, a, p) && IsRoot(s, a, p)
    ensures s == x || s == p - x
  {
    CongSym(s * s, a, p);
    CongTrans(x * x, a, s * s, p);
    RootsAgree(x, s, p);
    if Cong(x, s, p) {
      CongEqual(x, s, p);
    } else {
      var k := CongElim(x, -s, p);
      SumIsMultiple(x, s, k, p);
    }
  }

  // Among the residues with a given square, the low bit picks one.
  lemma RootByParity(x: int, s: int, a: int, p: int)
    requires Prime(p) && p % 2 == 1 && 0 <= x < p && 0 <= s < p && IsRoot(x, a, p) && IsRoot(s, a, p)
    ensures s == if x % 2 != s % 2 then (p - x) % p else x
    ensures x == 0 <==> s == 0
  {
    RootsUpToSign(x, s, a, p);
    Negated(x, p);
  }

  // The root the decoder returns squares to x2 and has the wanted low bit.
  lemma SignFixed(x: int, a: int, sign: int, p: int)
    requires p % 2 == 1 && 0 <= x < p && IsRoot(x, a, p) && (sign == 0 || sign == 1) && !(x == 0 && sign == 1)
    ensures var s := if x % 2 != sign then (p - x) % p else x; 0 <= s < p && IsRoot(s, a, p) && s % 2 == sign
  {
    Negated(x, p);
    if x % 2 != sign {
      NegatedSquares(x, p);
      CongTrans((p - x) * (p - x), x * x, a, p);
    }
  }

  lemma RecoverSound(c: Curve, y: int, sign: int, pt: Point)
    requires Sound(c) && 0 <= y && (sign == 0 || sign == 1) && Recover(c, y, sign) == Some(pt)
    ensures OnCurve(c, pt) && pt.y == y && pt.x % 2 == sign
  {
    var x2 := SquaredX(c, y);
    SignFixed(RootOf(c, x2), x2, sign, c.p);
    CurveEquation(c, pt.x, y);
  }

  lemma RecoverComplete(c: Curve, pt: Point)
    requires Sound(c) && OnCurve(c, pt)
    ensures Recover(c, pt.y, pt.x % 2) == Some(pt)
  {
    CurveEquation(c, pt.x, pt.y);
    var x2 := SquaredX(c, pt.y);
    RootFound(c, pt.x, x2);
    RootByParity(RootOf(c, x2), pt.x, x2, c.p);
  }

  lemma TopBit(y: int, bit: int)
    requires 0 <= y < TWO_255 && (bit == 0 || bit == 1)
    ensures (y + bit * TWO_255) / TWO_255 % 2 == bit && (y + bit * TWO_255) % TWO_255 == y
    ensures 0 <= y + bit * TWO_255 < TWO_256
  {
  }

  lemma EncodedNumber(pt: Point)
    requires 0 <= pt.y < TWO_255
    ensures FromLittleEndian(Encode(pt)) == pt.y + pt.x % 2 * TWO_255
  {
    ThirtyTwoBytes();
    TopBit(pt.y, pt.x % 2);
    BytesOfNumber(pt.y + pt.x % 2 * TWO_255, 32);
  }

  /** Decompression is the exact inverse of the encoding: it returns a point if and only if
      the bytes are the encoding of that point, and the point is on the curve. */
  lemma DecodeIsInverseOfEncode(c: Curve, raw: seq<byte>, pt: Point)
    requires Sound(c) && |raw| == KEY_LENGTH
    ensures DecodePoint(c, raw) == Some(pt) <==> OnCurve(c, pt) && Encode(pt) == raw
  {
    if DecodePoint(c, raw) == Some(pt) {
      DecodeSound(c, raw, pt);
    }
    if OnCurve(c, pt) && Encode(pt) == raw {
      DecodeComplete(c, pt);
    }
  }

  lemma SplitTopBit(n: int) returns (y: int, sign: int)
    requires 0 <= n < TWO_256
    ensures y == n % TWO_255 && sign == n / TWO_255 % 2
    ensures 0 <= y < TWO_255 && (sign == 0 || sign == 1) && n == y + sign * TWO_255
  {
    y, sign := n % TWO_255, n / TWO_255 % 2;
  }

  lemma EncodingOfNumber(pt: Point, raw: seq<byte>)
    requires 0 <= pt.y && |raw| == KEY_LENGTH && FromLittleEndian(raw) == pt.y + pt.x % 2 * TWO_255
    ensures Encode(pt) == raw
  {
    NumberOfBytes(raw);
  }

  lemma KeyNumber(raw: seq<byte>)
    requires |raw| == KEY_LENGTH
    ensures FromLittleEndian(raw) < TWO_256
  {
    ThirtyTwoBytes();
    LittleEndianBound(raw);
  }

  lemma DecodeSound(c: Curve, raw: seq<byte>, pt: Point)
    requires Sound(c) && |raw| == KEY_LENGTH && DecodePoint(c, raw) == Some(pt)
    ensures OnCurve(c, pt) && Encode(pt) == raw
  {
    KeyNumber(raw);
    var y, sign := SplitTopBit(FromLittleEndian(raw));
    RecoverSound(c, y, sign, pt);
    EncodingOfNumber(pt, raw);
  }

  lemma DecodeComplete(c: Curve, pt: Point)
    requires Sound(c) && OnCurve(c, pt)
    ensures DecodePoint(c, Encode(pt)) == Some(pt)
  {
    EncodedNumber(pt);
    TopBit(pt.y, pt.x % 2);
    RecoverComplete(c, pt);
  }
}
