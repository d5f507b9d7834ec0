/** Byte strings and the integers they spell. */
module Bytes {
  import opened NumberTheory

  type byte = x: int | 0 <= x < 256

  // int.from_bytes(raw, "little")
  function FromLittleEndian(raw: seq<byte>): (n: nat)
  {
    if raw == [] then 0 else raw[0] + 256 * FromLittleEndian(raw[1..])
  }

  // The k low-order bytes of n, least significant first.
  function ToLittleEndian(n: nat, k: nat): (raw: seq<byte>)
    ensures |raw| == k
  {
    if k == 0 then [] else [n % 256] + ToLittleEndian(n / 256, k - 1)
  }

  lemma {:induction false} LittleEndianBound(raw: seq<byte>)
    ensures FromLittleEndian(raw) < Pow(256, |raw|)
  {
    if raw != [] { LittleEndianBound(raw[1..]); }
  }

  lemma {:induction false} BytesOfNumber(n: nat, k: nat)
    requires n < Pow(256, k)
    ensures FromLittleEndian(ToLittleEndian(n, k)) == n
  {
    if k > 0 {
      BytesOfNumber(n / 256, k - 1);
      assert ToLittleEndian(n, k)[1..] == ToLittleEndian(n / 256, k - 1);
    }
  }

  lemma {:induction false} NumberOfBytes(raw: seq<byte>)
    ensures ToLittleEndian(FromLittleEndian(raw), |raw|) == raw
  {
    if raw != [] {
      NumberOfBytes(raw[1..]);
      var m := FromLittleEndian(raw[1..]);
      assert FromLittleEndian(raw) / 256 == m && FromLittleEndian(raw) % 256 == raw[0];
      assert raw == [raw[0]] + raw[1..];
    }
  }

  lemma QuotientUnique(n: int, m: int, q: int, r: int)
    requires m > 0 && n == q * m + r && 0 <= r < m
    ensures n / m == q && n % m == r
  {
    assert (n / m - q) * m == r - n % m;
    MultipleIsFar(n / m - q, m);
  }

  lemma Product(a: nat, t: nat, b: nat)
    requires t <= b
    ensures 0 <= a * t <= a * b && a * (t + 1) == a * t + a
  {
  }

  lemma Rearranged(a: nat, b: nat, s: nat, t: nat)
    ensures a * (b * s + t) == s * (a * b) + a * t
  {
    assert a * (b * s + t) == a * (b * s) + a * t;
    assert a * (b * s) == a * b * s;
  }

  lemma TwoRemainders(a: nat, b: nat, s: nat, t: nat, r: nat)
    requires r < a && t < b
    ensures a * (b * s + t) + r == s * (a * b) + (a * t + r) && 0 <= a * t + r < a * b
  {
    Rearranged(a, b, s, t);
    Product(a, t, b);
    Product(a, t + 1, b);
  }

  lemma QuotientParts(n: nat, m: nat) returns (q: nat, r: nat)
    requires m > 0
    ensures q == n / m && n == m * q + r && r < m
  {
    q, r := n / m, n % m;
  }

  lemma DivideTwice(n: nat, a: nat, b: nat)
    requires a > 0 && b > 0
    ensures a * b > 0 && n / a / b == n / (a * b)
  {
    var q, r := QuotientParts(n, a);
    var s, t := QuotientParts(q, b);
    TwoRemainders(a, b, s, t, r);
    QuotientUnique(n, a * b, s, a * t + r);
  }

  lemma {:induction false} PowPositive(b: nat, e: nat)
    requires b > 0
    ensures Pow(b, e) > 0
  {
    if e > 0 { PowPositive(b, e - 1); }
  }

  /** Byte i carries the digit of weight 256^i: the least significant byte comes first. */
  lemma {:induction false} LittleEndianDigit(n: nat, k: nat, i: nat)
    requires i < k
    ensures Pow(256, i) > 0 && ToLittleEndian(n, k)[i] == n / Pow(256, i) % 256
  {
    PowPositive(256, i);
    if i > 0 {
      PowPositive(256, i - 1);
      LittleEndianDigit(n / 256, k - 1, i - 1);
      DivideTwice(n, 256, Pow(256, i - 1));
    }
  }

  /** And so does the number that a byte string spells. */
  lemma DigitOfBytes(raw: seq<byte>, i: nat)
    requires i < |raw|
    ensures Pow(256, i) > 0 && FromLittleEndian(raw) / Pow(256, i) % 256 == raw[i]
  {
    NumberOfBytes(raw);
    LittleEndianDigit(FromLittleEndian(raw), |raw|, i);
  }

  const TWO_255: int := 0x8000_0000_0000_0000_0000_0000_0000_0000_0000_0000_0000_0000_0000_0000_0000_0000
  const TWO_256: int := 0x1_0000_0000_0000_0000_0000_0000_0000_0000_0000_0000_0000_0000_0000_0000_0000_0000

  lemma ThirtyTwoBytes()
    ensures Pow(256, 32) == TWO_256
  {
    PowAdd(256, 1, 1);
    PowAdd(256, 2, 2);
    PowAdd(256, 4, 4);
    PowAdd(256, 8, 8);
    PowAdd(256, 16, 16);
  }

  lemma ThirtyOneBytes()
    ensures Pow(256, 31) * 128 == TWO_255
  {
    ThirtyTwoBytes();
    assert Pow(256, 32) == 256 * Pow(256, 31);
  }
}
