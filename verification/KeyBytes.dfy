/** What a public key's 32 bytes say, byte by byte: the layout of section 5.1.2 of RFC 8032, and two
    keys it gives in full. */
module KeyBytes {
  import opened Wrappers
  import opened NumberTheory
  import opened Bytes
  import opened Ed25519
  import opened SmallOrder
  import opened KeyLoading
  import opened SmallOrderPoints

  lemma Grows(w: nat, k: nat, q: nat)
    requires k <= q
    ensures w * k <= w * q
  {
  }

  lemma QuotientBelow(y: nat, w: nat, k: nat)
    requires w > 0 && y < w * k
    ensures y / w < k
  {
    var q := y / w;
    if q >= k { Grows(w, k, q); }
  }

  lemma TopByte(y: nat, sign: nat, w: nat)
    requires w * 128 == TWO_255 && y < TWO_255 && sign < 2
    ensures w > 0 && (y + sign * TWO_255) / w % 256 == y / w + 128 * sign && y / w < 128
  {
    var q, r := y / w, y % w;
    assert y == q * w + r;
    QuotientBelow(y, w, 128);
    assert sign * (w * 128) == 128 * sign * w;
    assert (q + 128 * sign) * w == q * w + 128 * sign * w;
    QuotientUnique(y + sign * TWO_255, w, q + 128 * sign, r);
  }

  lemma LowerByte(y: nat, sign: nat, w: nat, v: nat)
    requires w > 0 && w * 256 * v == TWO_255
    ensures (y + sign * TWO_255) / w % 256 == y / w % 256
  {
    var q, r := y / w, y % w;
    assert sign * (w * 256 * v) == 256 * (sign * v) * w;
    assert (q + 256 * (sign * v)) * w == q * w + 256 * (sign * v) * w;
    QuotientUnique(y + sign * TWO_255, w, q + 256 * (sign * v), r);
    ModOfShifted(q, sign * v);
  }

  lemma ModOfShifted(q: nat, z: nat)
    ensures (q + 256 * z) % 256 == q % 256
  {
  }

  lemma WeightBelow(i: nat, j: nat)
    ensures Pow(256, i) * 256 * Pow(256, j) == Pow(256, i + 1 + j)
  {
    PowAdd(256, i, 1 + j);
    var a, b := Pow(256, i), Pow(256, j);
    assert Pow(256, 1 + j) == 256 * b;
    assert a * 256 * b == a * (256 * b);
  }

  // A digit below the top one is that of y alone.
  lemma DigitBelow(y: nat, sign: nat, half: nat, i: nat, top: nat)
    requires i < top && Pow(256, top) * 128 == half && half == TWO_255
    ensures Pow(256, i) > 0 && (y + sign * half) / Pow(256, i) % 256 == y / Pow(256, i) % 256
  {
    PowPositive(256, i);
    PowPositive(256, top - 1 - i);
    var w, v := Pow(256, i), Pow(256, top - 1 - i);
    WeightBelow(i, top - 1 - i);
    assert w * 256 * (v * 128) == w * 256 * v * 128;
    LowerByte(y, sign, w, v * 128);
  }

  lemma EncodedNumberOf(pt: Point, half: nat)
    requires 0 <= pt.y && half == TWO_255
    ensures Encode(pt) == ToLittleEndian(pt.y + pt.x % 2 * half, KEY_LENGTH)
  {
  }

  lemma EncodedByte(pt: Point, i: nat, top: nat, half: nat)
    requires 0 <= pt.y < half && i < top && top == 31 && half == TWO_255
    ensures Pow(256, i) > 0 && Encode(pt)[i] == pt.y / Pow(256, i) % 256
  {
    EncodedNumberOf(pt, half);
    LittleEndianDigit(pt.y + pt.x % 2 * half, KEY_LENGTH, i);
    ThirtyOneBytes();
    DigitBelow(pt.y, pt.x % 2, half, i, top);
  }

  lemma EncodedTop(pt: Point, top: nat)
    requires 0 <= pt.y < TWO_255 && top == 31
    ensures Pow(256, top) > 0 && Encode(pt)[top] == pt.y / Pow(256, top) + 128 * (pt.x % 2) && pt.y / Pow(256, top) < 128
  {
    LittleEndianDigit(pt.y + pt.x % 2 * TWO_255, KEY_LENGTH, top);
    ThirtyOneBytes();
    TopByte(pt.y, pt.x % 2, Pow(256, top));
  }

  lemma EncodedFirst(pt: Point)
    requires 0 <= pt.y
    ensures Encode(pt)[0] == pt.y % 256
  {
    var half := TWO_255;
    EncodedNumberOf(pt, half);
    LowerByte(pt.y, pt.x % 2, 1, half / 256);
  }

  // The top bit of the last byte and the seven bits below it.
  lemma EncodedLast(pt: Point, top: nat)
    requires 0 <= pt.y < TWO_255 && top == 31
    ensures Pow(256, top) > 0 && Encode(pt)[top] % 128 == pt.y / Pow(256, top) && Encode(pt)[top] / 128 == pt.x % 2
  {
    EncodedTop(pt, top);
  }

  /** The bytes of a key that decodes: byte i is the digit of weight 256^i of y, and the top bit of the
      last byte is the low bit of x. */
  lemma DecodedBytes(c: Curve, raw: seq<byte>, pt: Point, i: nat, top: nat)
    requires Sound(c) && |raw| == KEY_LENGTH && DecodePoint(c, raw) == Some(pt) && i < top && top == 31
    ensures Pow(256, i) > 0 && raw[i] == pt.y / Pow(256, i) % 256 && raw[0] == pt.y % 256
    ensures Pow(256, top) > 0 && raw[top] % 128 == pt.y / Pow(256, top) && raw[top] / 128 == pt.x % 2
  {
    DecodeIsInverseOfEncode(c, raw, pt);
    EncodedByte(pt, i, top, TWO_255);
    EncodedFirst(pt);
    EncodedLast(pt, top);
  }

  // ----- Two keys in full -----

  function Repeat(b: byte, k: nat): (r: seq<byte>)
    ensures |r| == k && forall i :: 0 <= i < k ==> r[i] == b
  {
    if k == 0 then [] else [b] + Repeat(b, k - 1)
  }

  lemma OneMoreByte(b: int, n: int, w: int)
    requires 255 * n == b * (w - 1)
    ensures 255 * (b + 256 * n) == b * (256 * w - 1)
  {
    assert b * (w - 1) == b * w - b;
    assert b * (256 * w - 1) == 256 * (b * w) - b;
  }

  // The number that k bytes b spell.
  lemma {:induction false} NumberOfRepeat(b: byte, k: nat)
    ensures 255 * FromLittleEndian(Repeat(b, k)) == b * (Pow(256, k) - 1)
  {
    if k > 0 {
      NumberOfRepeat(b, k - 1);
      assert Repeat(b, k)[0] == b && Repeat(b, k)[1..] == Repeat(b, k - 1);
      OneMoreByte(b, FromLittleEndian(Repeat(b, k - 1)), Pow(256, k - 1));
    }
  }

  lemma NumberOfKey(first: byte, b: byte, n: nat)
    requires 255 * n == 255 * first + b * (TWO_256 - 256)
    ensures FromLittleEndian([first] + Repeat(b, 31)) == n
  {
    NumberOfRepeat(b, 31);
    ThirtyTwoBytes();
    assert Pow(256, 32) == 256 * Pow(256, 31);
    assert ([first] + Repeat(b, 31))[1..] == Repeat(b, 31);
    assert b * (TWO_256 - 256) == 256 * (b * (Pow(256, 31) - 1));
  }

  lemma EvenKey(c: Curve, first: byte, b: byte, pt: Point)
    requires Sound(c) && OnCurve(c, pt) && pt.x % 2 == 0 && 255 * pt.y == 255 * first + b * (TWO_256 - 256)
    ensures DecodePoint(c, [first] + Repeat(b, 31)) == Some(pt)
  {
    NumberOfKey(first, b, pt.y);
    EncodingOfNumber(pt, [first] + Repeat(b, 31));
    DecodeComplete(c, pt);
  }

  /** The key 01 00 .. 00 is the identity. */
  lemma IdentityKey(c: Curve)
    requires Sound(c)
    ensures c.p >= 2 && DecodePoint(c, [1] + Repeat(0, 31)) == Some(Point(0, 1))
    ensures IsSmallOrder(c, Point(0, 1))
  {
    assert Cong(1, 1, c.p);
    assert OnCurve(c, IDENTITY);
    EvenKey(c, 1, 0, IDENTITY);
    TorsionEquation(c, IDENTITY);
  }

  // The base point of section 5.1 of RFC 8032; its second coordinate is 4/5.
  const BASE_X: int := 0x216936d3cd6e53fec0a4e231fdd6dc5c692cc7609525a7b2c9562d608f25d51a
  const BASE_Y: int := 0x6666666666666666666666666666666666666666666666666666666666666658

  lemma BaseEquation(x: int, y: int, p: int)
    requires x == BASE_X && y == BASE_Y && p == P
    ensures p > 0 && Cong((-(x * x) + y * y) * 121666, 121666 - 121665 * ((x * x) * (y * y)), p)
  {
    CongIntro((-(x * x) + y * y) * 121666, 121666 - 121665 * ((x * x) * (y * y)),
              0x29727744beaeafac1137359ebb6e2d8d8a48bb0e89f43ac089fee1cb480f9c78a92c3c1a3e29c3efa3a856cfa8c585aa4b7d25c5c707c2be3946ad675e966ab9588078eaea7120aa15fef0f9d5c3a15e3873149b5ce7c3417002d4af0760c27350e, p);
  }

  lemma BaseOnCurve(c: Curve)
    requires IsEd25519(c)
    ensures c.p == P && OnCurve(c, Point(BASE_X, BASE_Y))
  {
    Ed25519IsSound(c);
    CurveConstant(c);
    SmallIsNotZero(121666, c.p);
    BaseEquation(BASE_X, BASE_Y, c.p);
    ScaledCurve(c.d, BASE_X * BASE_X, BASE_Y * BASE_Y, 121665, 121666, c.p);
  }

  /** The key 58 66 .. 66 is the base point, and is not of small order. */
  lemma BasePointKey(c: Curve)
    requires IsEd25519(c)
    ensures c.p >= 2 && DecodePoint(c, [0x58] + Repeat(0x66, 31)) == Some(Point(BASE_X, BASE_Y))
    ensures !IsSmallOrder(c, Point(BASE_X, BASE_Y))
  {
    Ed25519IsSound(c);
    BaseOnCurve(c);
    EvenKey(c, 0x58, 0x66, Point(BASE_X, BASE_Y));
    RefusedPoints(c, Point(BASE_X, BASE_Y));
    Listed(Point(BASE_X, BASE_Y));
  }
}
