module Primality {
  import opened NumberTheory

  // No number 1 + i * q with 1 <= i <= j divides n.
  predicate NoneDivides(n: int, q: int, j: nat)
    requires q > 0
  {
    j == 0 || (n % (1 + j * q) != 0 && NoneDivides(n, q, j - 1))
  }

  lemma {:induction false} NoneDividesAt(n: int, q: int, j: nat, i: int)
    requires q > 0 && NoneDivides(n, q, j) && 1 <= i <= j
    ensures 1 + i * q > 0 && n % (1 + i * q) != 0
  {
    assert i * q > 0;
    if i < j { NoneDividesAt(n, q, j - 1, i); }
  }

  lemma DivisorProduct(n: int, m: int, f: int)
    requires m > 0 && f > 0 && m % f == 0 && n % m == 0
    ensures n % f == 0
  {
    var x, y := m / f, n / m;
    assert n == (y * x) * f by { assert n == y * (x * f); }
    ModOfMultiple(n, y * x, f);
  }

  // The least divisor of a composite number is prime and at most its square root.
  lemma LeastDivisor(n: int, m: int) returns (r: int)
    requires 2 <= m < n && n % m == 0
    requires forall k :: 2 <= k < m ==> n % k != 0
    ensures r == m && Prime(r) && r * r <= n
  {
    r := m;
    forall f | 2 <= f < r ensures r % f != 0 {
      if r % f == 0 { DivisorProduct(n, r, f); }
    }
    var c := n / r;
    assert n == c * r;
    if c < r {
      MultipleIsFar(c, r);
      ModOfMultiple(n, r, c);
    }
    assert c * r >= r * r;
  }

  lemma PrimeFactor(n: int) returns (r: int)
    requires n >= 2 && !Prime(n)
    ensures Prime(r) && r < n && n % r == 0 && r * r <= n
  {
    var m := 2;
    while n % m != 0
      invariant 2 <= m < n
      invariant forall k :: 2 <= k < m ==> n % k != 0
      decreases n - m
    {
      m := m + 1;
    }
    r := LeastDivisor(n, m);
  }

  lemma CongFactor(a: int, b: int, n: int, r: int)
    requires n > 0 && r > 0 && n % r == 0 && Cong(a, b, n)
    ensures Cong(a, b, r)
  {
    var k := CongElim(a, b, n);
    var c := n / r;
    assert k * (c * r) == (k * c) * r;
    CongIntro(a, b, k * c, r);
  }

  lemma Inverse(b: int, p: int) returns (s: nat)
    requires Prime(p) && !Cong(b, 0, p)
    ensures Cong(s * b, 1, p)
  {
    var w := Pow(b, p - 2);
    s := w % p;
    Fermat(b, p);
    assert Pow(b, p - 1) == b * w;
    CongMod(w, p);
    CongMul(s, w, b, b, p);
    CongTrans(s * b, w * b, 1, p);
  }

  lemma OneIsNotZero(a: int, e: nat, r: int)
    requires Prime(r) && e > 0 && Cong(Pow(a, e), 1, r)
    ensures !Cong(a, 0, r)
  {
    if Cong(a, 0, r) {
      CongMul(a, 0, Pow(a, e - 1), Pow(a, e - 1), r);
      CongSym(Pow(a, e), 1, r);
      CongTrans(1, Pow(a, e), 0, r);
      CongEqual(1, 0, r);
    }
  }

  lemma ExponentIdentity(k: int, q: int, s: int, b: int, t: int)
    requires s * b == 1 + t * q
    ensures b * (k * s) == k + (k * q) * t
  {
    assert b * (k * s) == k * (s * b);
    assert k * (1 + t * q) == k + k * (t * q);
    assert k * (t * q) == (k * q) * t;
  }

  lemma NonNegativeQuotient(x: int, t: int, q: int)
    requires x >= 0 && q >= 2 && x == 1 + t * q
    ensures t >= 0
  {
    MultipleIsFar(t, q);
  }

  // If a^(k*q) = 1 but a^k <> 1 modulo the prime r, then q divides r - 1.
  lemma OrderStep(a: int, k: nat, q: int, r: int, e: nat)
    requires Prime(r) && Prime(q) && e == k * q && e > 0
    requires Cong(Pow(a, e), 1, r) && !Cong(Pow(a, k), 1, r)
    ensures Cong(r - 1, 0, q)
  {
    if !Cong(r - 1, 0, q) {
      var s := Inverse(r - 1, q);
      var t := CongElim(s * (r - 1), 1, q);
      NonNegativeQuotient(s * (r - 1), t, q);
      OneIsNotZero(a, e, r);
      Fermat(a, r);
      PowToOne(a, r - 1, k * s, r);
      PowToOne(a, e, t, r);
      ExponentIdentity(k, q, s, r - 1, t);
      OnePart(a, k, e * t, r);
    }
  }

  lemma OnePart(a: int, k: nat, f: nat, r: int)
    requires r > 0 && Cong(Pow(a, k + f), 1, r) && Cong(Pow(a, f), 1, r)
    ensures Cong(Pow(a, k), 1, r)
  {
    PowAdd(a, k, f);
    var x, y := Pow(a, k), Pow(a, f);
    CongMul(x, x, y, 1, r);
    CongSym(x * y, x, r);
    CongTrans(x, x * y, 1, r);
  }

  lemma PowToOne(a: int, e: nat, f: nat, r: int)
    requires r > 0 && Cong(Pow(a, e), 1, r)
    ensures e * f >= 0 && Cong(Pow(a, e * f), 1, r)
  {
    PowMul(a, e, f);
    CongPow(Pow(a, e), 1, f, r);
    PowOne(f);
  }

  // A Bezout identity for c - 1 and n survives in every divisor of n.
  lemma BezoutKeepsApart(n: int, r: int, c: int, u: int, v: int)
    requires r >= 2 && n > 0 && n % r == 0 && u * (c - 1) + v * n == 1
    ensures !Cong(c, 1, r)
  {
    if Cong(c, 1, r) {
      CongMul(u, u, c - 1, 0, r);
      CongMul(v, v, n, 0, r);
      CongAdd(u * (c - 1), 0, v * n, 0, r);
      CongEqual(1, 0, r);
    }
  }

  lemma LargeFactor(i: int, j: nat, q: int, r: int, n: int)
    requires q >= 1 && r == 1 + i * q && i > j && (1 + (j + 1) * q) * (1 + (j + 1) * q) > n
    ensures r * r > n
  {
    var s := 1 + (j + 1) * q;
    assert (j + 1) * q <= i * q;
    assert r * r >= s * s;
  }

  // Pocklington's criterion with one prime factor q of n - 1.
  lemma Pocklington(n: int, q: int, k: nat, a: int, e: nat, c: int, u: int, v: int, j: nat)
    requires n >= 2 && Prime(q) && e == n - 1 == k * q
    requires Cong(Pow(a, e), 1, n) && Cong(Pow(a, k), c, n)
    requires u * (c - 1) + v * n == 1
    requires NoneDivides(n, q, j) && (1 + (j + 1) * q) * (1 + (j + 1) * q) > n
    ensures Prime(n)
  {
    if !Prime(n) {
      var r := PrimeFactor(n);
      CongFactor(Pow(a, e), 1, n, r);
      CongFactor(Pow(a, k), c, n, r);
      BezoutKeepsApart(n, r, c, u, v);
      if Cong(Pow(a, k), 1, r) {
        CongSym(Pow(a, k), c, r);
        CongTrans(c, Pow(a, k), 1, r);
      }
      OrderStep(a, k, q, r, e);
      var i := CongElim(r - 1, 0, q);
      MultipleIsFar(i, q);
      if i > j {
        LargeFactor(i, j, q, r, n);
      } else {
        NoneDividesAt(n, q, j, i);
      }
    }
  }

  // y is x^4 * t modulo n: one window of two exponent bits.
  lemma Advance(n: int, a: int, e: nat, x: int, w: nat, t: int, y: int) returns (f: nat)
    requires n > 0 && t == Pow(a, w) && Cong(Pow(a, e), x, n)
    requires (x * x * x * x * t - y) % n == 0
    ensures f == 4 * e + w && Cong(Pow(a, f), y, n)
  {
    f := 4 * e + w;
    PowMul(a, e, 4);
    CongPow(Pow(a, e), x, 4, n);
    PowAdd(a, e * 4, w);
    CongMul(Pow(a, e * 4), Pow(x, 4), t, t, n);
    PowAdd(x, 1, 1);
    PowAdd(x, 2, 1);
    PowAdd(x, 3, 1);
    CongTrans(Pow(a, f), Pow(x, 4) * t, y, n);
  }

  // Eight exponent bits at once.
  lemma AdvanceByte(n: int, a: int, e: nat, x: int, w1: nat, t1: int, x1: int, w2: nat, t2: int, x2: int,
                    w3: nat, t3: int, x3: int, w4: nat, t4: int, x4: int) returns (f: nat)
    requires n > 0 && Cong(Pow(a, e), x, n)
    requires t1 == Pow(a, w1) && t2 == Pow(a, w2) && t3 == Pow(a, w3) && t4 == Pow(a, w4)
    requires (x * x * x * x * t1 - x1) % n == 0
    requires (x1 * x1 * x1 * x1 * t2 - x2) % n == 0
    requires (x2 * x2 * x2 * x2 * t3 - x3) % n == 0
    requires (x3 * x3 * x3 * x3 * t4 - x4) % n == 0
    ensures f == 256 * e + 64 * w1 + 16 * w2 + 4 * w3 + w4
    ensures Cong(Pow(a, f), x4, n)
  {
    f := Advance(n, a, e, x, w1, t1, x1);
    f := Advance(n, a, f, x1, w2, t2, x2);
    f := Advance(n, a, f, x2, w3, t3, x3);
    f := Advance(n, a, f, x3, w4, t4, x4);
  }

  // If a^f is a square root of -1 modulo n then a^(4f) is 1.
  lemma FourthPower(n: int, a: int, f: nat, x: int) returns (e: nat)
    requires n > 0 && Cong(Pow(a, f), x, n) && Cong(x * x, -1, n)
    ensures e == 4 * f && Cong(Pow(a, e), 1, n)
  {
    e := f * 4;
    PowMul(a, f, 4);
    CongPow(Pow(a, f), x, 4, n);
    PowAdd(x, 1, 1);
    PowAdd(x, 2, 2);
    CongMul(x * x, -1, x * x, -1, n);
    CongTrans(Pow(a, e), Pow(x, 4), 1, n);
  }

  lemma PrimeByTrial(n: int, j: nat)
    requires n >= 2 && NoneDivides(n, 1, j) && (j + 2) * (j + 2) > n
    ensures Prime(n)
  {
    if !Prime(n) {
      var r := PrimeFactor(n);
      if r >= j + 2 {
        LargeFactor(r - 1, j, 1, r, n);
      } else {
        NoneDividesAt(n, 1, j, r - 1);
      }
    }
  }
}
