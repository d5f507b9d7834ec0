/** Which byte strings load as a public key. */
module KeyLoading {
  import opened Wrappers
  import opened NumberTheory
  import opened Field
  import opened Bytes
  import opened Ed25519
  import opened SmallOrder
  import Certificate

  // What a caller may hand in: bytes of any length, or something that is not bytes.
  datatype Input = NotBytes | RawBytes(raw: seq<byte>)

  // load_ed25519_public_key; `accepts` is the backend's own check of the raw bytes.
  function LoadPublicKey(c: Curve, input: Input, accepts: seq<byte> -> bool): (key: Option<seq<byte>>)
    requires c.p >= 2
  {
    if input.NotBytes? then None
    else if |input.raw| != KEY_LENGTH then None
    else
      var pt := DecodePoint(c, input.raw);
      if pt.None? then None
      else if IsSmallOrder(c, pt.value) then None
      else if accepts(input.raw) then Some(input.raw) else None
  }

  // pt is on the curve, is encoded by raw, and is not annihilated by eight.
  ghost predicate IsSafeKey(c: Curve, raw: seq<byte>, pt: Point)
    requires c.p >= 2
  {
    OnCurve(c, pt) && Encode(pt) == raw && EightTimes(c, pt) != IDENTITY
  }

  /** Up to the backend's check, exactly the encodings of curve points outside the 8-torsion load. */
  lemma LoadsExactlySafeKeys(c: Curve, input: Input, accepts: seq<byte> -> bool)
    requires Sound(c)
    ensures LoadPublicKey(c, input, accepts).Some? <==>
            input.RawBytes? && accepts(input.raw) && exists pt: Point :: IsSafeKey(c, input.raw, pt)
    ensures LoadPublicKey(c, input, accepts).Some? ==> LoadPublicKey(c, input, accepts).value == input.raw
  {
    if input.RawBytes? && |input.raw| == KEY_LENGTH {
      var pt := DecodePoint(c, input.raw);
      if pt.Some? {
        DecodeIsInverseOfEncode(c, input.raw, pt.value);
        SmallOrderIsEightTimes(c, pt.value);
        if EightTimes(c, pt.value) != IDENTITY { assert IsSafeKey(c, input.raw, pt.value); }
      }
      forall other: Point | IsSafeKey(c, input.raw, other)
        ensures pt == Some(other)
      {
        DecodeIsInverseOfEncode(c, input.raw, other);
      }
    }
  }

  lemma ZeroResidue(a: int, v: int, n: int, p: int)
    requires Prime(p) && 0 <= a < p && !Cong(v, 0, p) && Cong(a * v, n, p)
    ensures a == 0 <==> Cong(n, 0, p)
  {
    CongZeroProduct(a, v, p);
    CongSym(a * v, n, p);
    if Cong(n, 0, p) { CongTrans(a * v, n, 0, p); CongEqual(a, 0, p); }
    if a == 0 { CongTrans(n, a * v, 0, p); }
  }

  // The doubled point has x = 0 exactly when x*y = 0.
  lemma DoubleHasZeroX(c: Curve, pt: Point)
    requires Sound(c)
    ensures Add(c, pt, pt).x == 0 <==> Cong(pt.x * pt.y, 0, c.p)
  {
    var k := DoublingEquations(c, pt);
    ZeroResidue(Add(c, pt, pt).x, 1 + k, 2 * (pt.x * pt.y), c.p);
    TwoIsNotZero(c.p);
    CongZeroProduct(2, pt.x * pt.y, c.p);
  }

  lemma DoubleHasZeroY(c: Curve, pt: Point)
    requires Sound(c)
    ensures Add(c, pt, pt).y == 0 <==> Cong(pt.x * pt.x + pt.y * pt.y, 0, c.p)
  {
    var k := DoublingEquations(c, pt);
    ZeroResidue(Add(c, pt, pt).y, 1 - k, pt.x * pt.x + pt.y * pt.y, c.p);
  }

  lemma ResidueIsZero(a: int, p: int)
    requires 0 <= a < p
    ensures Cong(a, 0, p) <==> a == 0
  {
    if Cong(a, 0, p) { CongEqual(a, 0, p); }
  }

  // With x = 0 the doubled y is y^2 = 1; with y = 0 it is x^2 = -1.
  lemma DoubledYAtZeroX(c: Curve, pt: Point)
    requires Sound(c) && OnCurve(c, pt) && pt.x == 0
    ensures Add(c, pt, pt).y == 1
  {
    var k := DoublingEquations(c, pt);
    var r := Add(c, pt, pt);
    assert pt.x * pt.x == 0;
    assert k == 0;
    CongTrans(r.y, pt.y * pt.y, 1, c.p);
    CongEqual(r.y, 1, c.p);
  }

  lemma DoubledYAtZeroY(c: Curve, pt: Point)
    requires Sound(c) && OnCurve(c, pt) && pt.y == 0
    ensures Add(c, pt, pt).y != 1
  {
    var k := DoublingEquations(c, pt);
    assert pt.y * pt.y == 0;
    assert k == 0;
    if Add(c, pt, pt).y == 1 { MinusOneIsNotOne(pt.x * pt.x, c.p); }
  }

  // A point of the curve doubles to the identity exactly when its x is 0.
  lemma DoubleIsIdentity(c: Curve, pt: Point)
    requires Sound(c) && OnCurve(c, pt)
    ensures Add(c, pt, pt) == IDENTITY <==> pt.x == 0
  {
    DoubleHasZeroX(c, pt);
    CongZeroProduct(pt.x, pt.y, c.p);
    ResidueIsZero(pt.x, c.p);
    ResidueIsZero(pt.y, c.p);
    if pt.x == 0 { DoubledYAtZeroX(c, pt); }
    if pt.y == 0 { DoubledYAtZeroY(c, pt); }
  }

  lemma MinusOneIsNotOne(xx: int, p: int)
    requires Prime(p) && p > 2 && Cong(1, xx, p)
    ensures !Cong(-xx, 1, p)
  {
    if Cong(-xx, 1, p) {
      CongSym(1, xx, p);
      CongAdd(-xx, 1, xx, 1, p);
      CongSym(0, 2, p);
      TwoIsNotZero(p);
    }
  }

  // Four times the point has x = 0 exactly when twice the point has a zero coordinate.
  lemma QuadrupleHasZeroX(c: Curve, pt: Point)
    requires Sound(c)
    ensures var two := Add(c, pt, pt);
            Add(c, two, two).x == 0 <==> Cong(pt.x * pt.y, 0, c.p) || Cong(pt.x * pt.x + pt.y * pt.y, 0, c.p)
  {
    var two := Add(c, pt, pt);
    DoubleHasZeroX(c, two);
    CongZeroProduct(two.x, two.y, c.p);
    ResidueIsZero(two.x, c.p);
    ResidueIsZero(two.y, c.p);
    DoubleHasZeroX(c, pt);
    DoubleHasZeroY(c, pt);
  }

  /** The points the gate rejects, without any curve arithmetic: x = 0, y = 0 or x^2 + y^2 = 0. */
  lemma TorsionEquation(c: Curve, pt: Point)
    requires Sound(c) && OnCurve(c, pt)
    ensures IsSmallOrder(c, pt) <==> Cong(pt.x * pt.y * (pt.x * pt.x + pt.y * pt.y), 0, c.p)
  {
    var two := Add(c, pt, pt);
    SmallOrderIsEightTimes(c, pt);
    DoubleOnCurve(c, pt);
    DoubleOnCurve(c, two);
    DoubleIsIdentity(c, Add(c, two, two));
    QuadrupleHasZeroX(c, pt);
    CongZeroProduct(pt.x * pt.y, pt.x * pt.x + pt.y * pt.y, c.p);
  }

  // The module constants of the source.
  ghost predicate IsEd25519(c: Curve) {
    && c.p == 0x7fffffffffffffffffffffffffffffffffffffffffffffffffffffffffffffed
    && c.d == -121665 * PowMod(121666, c.p - 2, c.p) % c.p
    && c.i == PowMod(2, (c.p - 1) / 4, c.p)
  }

  lemma SmallIsNotZero(n: int, p: int)
    requires 0 < n < p
    ensures !Cong(n, 0, p)
  {
    if Cong(n, 0, p) { CongEqual(n, 0, p); }
  }

  // A square root of 2 would make 2^((p-1)/2) both 1 and -1.
  lemma RootOfTwoContradicts(s: int, p: int, f: nat, i: int)
    requires Prime(p) && p % 8 == 5 && f == (p - 1) / 4 && Cong(Pow(2, f), i, p) && Cong(i * i, -1, p)
    ensures !IsRoot(s, 2, p)
  {
    if IsRoot(s, 2, p) {
      TwoIsNotZero(p);
      SquareHasHalfPowerOne(s, 2, p);
      PowAdd(2, f, f);
      assert f + f == (p - 1) / 2;
      CongMul(Pow(2, f), i, Pow(2, f), i, p);
      OneIsMinusOne(Pow(2, f + f), i * i, p);
    }
  }

  lemma OneIsMinusOne(h: int, ii: int, p: int)
    requires Prime(p) && p > 2 && Cong(h, ii, p) && Cong(ii, -1, p)
    ensures !Cong(h, 1, p)
  {
    if Cong(h, 1, p) {
      CongTrans(h, ii, -1, p);
      CongSym(h, -1, p);
      CongTrans(-1, h, 1, p);
      CongScale(-1, 1, -1, p);
      TwoIsNotZero(p);
    }
  }

  // 2 is no square modulo p when 2^((p-1)/4) is a square root of -1.
  lemma TwoIsNonSquare(p: int, f: nat, i: int)
    requires Prime(p) && p % 8 == 5 && f == (p - 1) / 4 && Cong(Pow(2, f), i, p) && Cong(i * i, -1, p)
    ensures NonSquare(2, p)
  {
    forall s: int ensures !IsRoot(s, 2, p) {
      RootOfTwoContradicts(s, p, f, i);
    }
  }

  // d = -a/n with n = 2b is no square, because -1 and a*b are squares and 2 is not.
  lemma RatioIsNonSquare(d: int, a: int, b: int, n: int, i: int, r: int, p: int)
    requires Prime(p) && p > 2 && NonSquare(2, p) && Cong(i * i, -1, p) && n == 2 * b
    requires Cong(r * r, a * b, p) && !Cong(a * b, 0, p) && Cong(d * n, -a, p)
    ensures NonSquare(d, p)
  {
    forall s: int ensures !IsRoot(s, d, p) {
      if IsRoot(s, d, p) {
        var y := i * r;
        TwiceSquare(a, b, i, r, y, p);
        ScaledRoot(s, d, a, b, n, p);
        RootOfTwo(2 * (-(a * b)), s * n, y, a * b, p);
      }
    }
  }

  lemma RootOfTwo(m: int, t: int, y: int, ab: int, p: int)
    requires Prime(p) && p > 2 && Cong(2 * (y * y), m, p) && Cong(t * t, m, p) && Cong(y * y, -ab, p) && !Cong(ab, 0, p)
    ensures !NonSquare(2, p)
  {
    CongSym(t * t, m, p);
    CongTrans(2 * (y * y), m, t * t, p);
    ProductIsNotZero(t, y, ab, p);
    QuotientOfSquares(2, t, y, p);
  }

  lemma TwiceSquare(a: int, b: int, i: int, r: int, y: int, p: int)
    requires p > 0 && y == i * r && Cong(i * i, -1, p) && Cong(r * r, a * b, p)
    ensures Cong(2 * (y * y), 2 * (-(a * b)), p) && Cong(y * y, -(a * b), p)
  {
    Interchange(i, r, i, r);
    CongMul(i * i, -1, r * r, a * b, p);
    CongScale(y * y, -(a * b), 2, p);
  }

  lemma ScaledRoot(s: int, d: int, a: int, b: int, n: int, p: int)
    requires p > 0 && IsRoot(s, d, p) && n == 2 * b && Cong(d * n, -a, p)
    ensures Cong((s * n) * (s * n), 2 * (-(a * b)), p)
  {
    Interchange(s, n, s, n);
    CongScale(s * s, d, n * n, p);
    CongScale(d * n, -a, n, p);
    Regroup(d, n, n);
    assert (-a) * (2 * b) == 2 * (-(a * b));
    CongTrans((s * s) * (n * n), d * (n * n), 2 * (-(a * b)), p);
  }

  lemma ProductIsNotZero(t: int, y: int, ab: int, p: int)
    requires Prime(p) && p > 2 && Cong(2 * (y * y), t * t, p) && Cong(y * y, -ab, p) && !Cong(ab, 0, p)
    ensures !Cong(t, 0, p)
  {
    if Cong(t, 0, p) {
      CongZeroProduct(t, t, p);
      CongTrans(2 * (y * y), t * t, 0, p);
      TwoIsNotZero(p);
      CongZeroProduct(2, y * y, p);
      CongSym(y * y, -ab, p);
      CongTrans(-ab, y * y, 0, p);
      CongScale(-ab, 0, -1, p);
    }
  }

  lemma CurveConstant(c: Curve)
    requires IsEd25519(c) && Prime(c.p)
    ensures Cong(c.d * 121666, -121665, c.p)
  {
    SmallIsNotZero(121666, c.p);
    InverseByPower(121666, c.p);
    var t := PowMod(121666, c.p - 2, c.p);
    CongMod(-121665 * t, c.p);
    CongScale(c.d, -121665 * t, 121666, c.p);
    CongScale(121666 * t, 1, -121665, c.p);
    CongTrans(c.d * 121666, -121665 * (121666 * t), -121665, c.p);
  }

  lemma RootConstant(c: Curve) returns (f: nat, i: int)
    requires IsEd25519(c)
    ensures f == (c.p - 1) / 4 && Cong(Pow(2, f), i, c.p) && Cong(i * i, -1, c.p) && Cong(c.i * c.i, -1, c.p)
  {
    i := 0x2b8324804fc1df0b2b4d00993dfbd7a72f431806ad2fe478c4ee1b274a0ea0b0;
    f := Certificate.Root();
    Certificate.RootSquared();
    CongTrans(c.i, Pow(2, f), i, c.p);
    CongMul(c.i, i, c.i, i, c.p);
    CongTrans(c.i * c.i, i * i, -1, c.p);
  }

  /** The source's constants meet every hypothesis: p is prime, i squares to -1, d is no square. */
  lemma Ed25519IsSound(c: Curve)
    requires IsEd25519(c)
    ensures Sound(c)
  {
    Certificate.PIsPrime();
    Certificate.HalfProductIsSquare();
    var f, i := RootConstant(c);
    TwoIsNonSquare(c.p, f, i);
    CurveConstant(c);
    SmallIsNotZero(121665 * 60833, c.p);
    RatioIsNonSquare(c.d, 121665, 60833, 121666, c.i, 0x1363d8e8ec577bbbf4be3f00bde6099b00b3b80e6fbf0a28352e73cceaa0b6b5, c.p);
  }

  /** The gate over the real curve, with nothing left to assume. */
  lemma Ed25519LoadsExactlySafeKeys(c: Curve, input: Input, accepts: seq<byte> -> bool)
    requires IsEd25519(c)
    ensures c.p >= 2
    ensures LoadPublicKey(c, input, accepts).Some? <==>
            input.RawBytes? && accepts(input.raw) && exists pt: Point :: IsSafeKey(c, input.raw, pt)
  {
    Ed25519IsSound(c);
    LoadsExactlySafeKeys(c, input, accepts);
  }
}
