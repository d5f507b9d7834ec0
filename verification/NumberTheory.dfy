module NumberTheory {
  // A non-zero multiple of m is at least m away from zero.
  lemma MultipleIsFar(e: int, m: int)
    requires m > 0
    ensures e >= 1 ==> e * m >= m
    ensures e <= -1 ==> e * m <= -m
  {
  }

  lemma ModOfMultiple(a: int, k: int, m: int)
    requires m > 0 && a == k * m
    ensures a % m == 0
  {
    var q, r := a / m, a % m;
    assert (k - q) * m == r;
    MultipleIsFar(k - q, m);
  }

  predicate Cong(a: int, b: int, m: int)
    requires m > 0
  {
    (a - b) % m == 0
  }

  lemma CongIntro(a: int, b: int, k: int, m: int)
    requires m > 0 && a - b == k * m
    ensures Cong(a, b, m)
  {
    ModOfMultiple(a - b, k, m);
  }

  lemma CongElim(a: int, b: int, m: int) returns (k: int)
    requires m > 0 && Cong(a, b, m)
    ensures a == b + k * m
  {
    k := (a - b) / m;
  }

  lemma CongMod(a: int, m: int)
    requires m > 0
    ensures Cong(a % m, a, m) && Cong(a, a % m, m)
  {
    CongIntro(a % m, a, -(a / m), m);
    CongIntro(a, a % m, a / m, m);
  }

  lemma CongAdd(a: int, b: int, c: int, d: int, m: int)
    requires m > 0 && Cong(a, b, m) && Cong(c, d, m)
    ensures Cong(a + c, b + d, m)
    ensures Cong(a - c, b - d, m)
  {
    var k := CongElim(a, b, m);
    var l := CongElim(c, d, m);
    CongIntro(a + c, b + d, k + l, m);
    CongIntro(a - c, b - d, k - l, m);
  }

  lemma CongMul(a: int, b: int, c: int, d: int, m: int)
    requires m > 0 && Cong(a, b, m) && Cong(c, d, m)
    ensures Cong(a * c, b * d, m)
  {
    var k := CongElim(a, b, m);
    var l := CongElim(c, d, m);
    assert a * c - b * d == (k * d + b * l + k * l * m) * m by {
      assert a * c == (b + k * m) * (d + l * m);
    }
    CongIntro(a * c, b * d, k * d + b * l + k * l * m, m);
  }

  lemma CongSym(a: int, b: int, m: int)
    requires m > 0 && Cong(a, b, m)
    ensures Cong(b, a, m)
  {
    var k := CongElim(a, b, m);
    CongIntro(b, a, -k, m);
  }

  lemma CongTrans(a: int, b: int, c: int, m: int)
    requires m > 0 && Cong(a, b, m) && Cong(b, c, m)
    ensures Cong(a, c, m)
  {
    CongAdd(a, b, b, c, m);
  }

  lemma CongEqual(a: int, b: int, m: int)
    requires m > 0 && Cong(a, b, m)
    ensures a % m == b % m
    ensures 0 <= a < m && 0 <= b < m ==> a == b
  {
    var q1, r1, q2, r2 := a / m, a % m, b / m, b % m;
    var k := CongElim(a, b, m);
    assert (q1 - q2 - k) * m == r2 - r1;
    MultipleIsFar(q1 - q2 - k, m);
    MultipleIsFar(k, m);
  }

  function Pow(b: int, e: nat): int {
    if e == 0 then 1 else b * Pow(b, e - 1)
  }

  lemma {:induction false} PowAdd(b: int, e: nat, f: nat)
    ensures Pow(b, e + f) == Pow(b, e) * Pow(b, f)
  {
    if e > 0 {
      PowAdd(b, e - 1, f);
      assert b * (Pow(b, e - 1) * Pow(b, f)) == (b * Pow(b, e - 1)) * Pow(b, f);
    }
  }

  lemma {:induction false} PowMul(b: int, e: nat, f: nat)
    ensures e * f >= 0 && Pow(b, e * f) == Pow(Pow(b, e), f)
  {
    if f > 0 {
      PowMul(b, e, f - 1);
      assert e * f == e + e * (f - 1);
      PowAdd(b, e, e * (f - 1));
    }
  }

  lemma Interchange(a: int, b: int, x: int, y: int)
    ensures (a * b) * (x * y) == (a * x) * (b * y)
  {
  }

  lemma {:induction false} CongPow(a: int, b: int, e: nat, m: int)
    requires m > 0 && Cong(a, b, m)
    ensures Cong(Pow(a, e), Pow(b, e), m)
  {
    if e > 0 {
      CongPow(a, b, e - 1, m);
      CongMul(a, b, Pow(a, e - 1), Pow(b, e - 1), m);
    }
  }

  lemma {:induction false} PowOne(e: nat)
    ensures Pow(1, e) == 1
  {
    if e > 0 { PowOne(e - 1); }
  }

  predicate Prime(p: int) {
    p >= 2 && forall m :: 2 <= m < p ==> p % m != 0
  }

  // Euclid's lemma
  lemma {:induction false} EuclidSmall(p: int, a: int, b: int)
    requires Prime(p) && 0 < a < p && Cong(a * b, 0, p)
    ensures Cong(b, 0, p)
    decreases a
  {
    if a > 1 {
      var q, r := p / a, p % a;
      var k := CongElim(a * b, 0, p);
      assert r * b == (b - q * k) * p by {
        assert r * b == p * b - q * (a * b);
        assert q * (a * b) == q * (k * p);
      }
      CongIntro(r * b, 0, b - q * k, p);
      EuclidSmall(p, r, b);
    }
  }

  lemma Euclid(p: int, a: int, b: int)
    requires Prime(p) && Cong(a * b, 0, p)
    ensures Cong(a, 0, p) || Cong(b, 0, p)
  {
    if !Cong(a, 0, p) {
      CongMod(a, p);
      CongMul(a % p, a, b, b, p);
      CongTrans((a % p) * b, a * b, 0, p);
      EuclidSmall(p, a % p, b);
    }
  }

  function Choose(n: nat, k: nat): nat {
    if k == 0 then 1 else if n == 0 then 0 else Choose(n - 1, k - 1) + Choose(n - 1, k)
  }

  lemma AbsorbStep(n: int, k: int, c: int, d: int, e: int, f: int)
    requires c == e + f && (k - 1) * c == (n - 1) * e && k * d == (n - 1) * f
    ensures k * (c + d) == n * c
  {
    assert (n - 1) * c == (n - 1) * e + (n - 1) * f;
  }

  lemma {:induction false} ChooseAbsorb(n: nat, k: nat)
    requires n > 0 && k > 0
    ensures k * Choose(n, k) == n * Choose(n - 1, k - 1)
    decreases n
  {
    if n == 1 {
      assert Choose(0, k) == 0;
      assert Choose(1, k) == Choose(0, k - 1);
      if k > 1 { assert Choose(0, k - 1) == 0; }
    } else {
      ChooseAbsorb(n - 1, k);
      if k > 1 {
        ChooseAbsorb(n - 1, k - 1);
        AbsorbStep(n, k, Choose(n - 1, k - 1), Choose(n - 1, k), Choose(n - 2, k - 2), Choose(n - 2, k - 1));
      }
    }
  }

  lemma {:induction false} ChooseAbove(n: nat, k: nat)
    requires k > n
    ensures Choose(n, k) == 0
  {
    if n > 0 { ChooseAbove(n - 1, k - 1); ChooseAbove(n - 1, k); }
  }

  lemma {:induction false} ChooseFull(n: nat)
    ensures Choose(n, n) == 1
  {
    if n > 0 { ChooseFull(n - 1); ChooseAbove(n - 1, n); }
  }

  // sum of Choose(n, j) * a^j for j in [0, k)
  function BinomialSum(a: int, n: nat, k: nat): int {
    if k == 0 then 0 else BinomialSum(a, n, k - 1) + Choose(n, k - 1) * Pow(a, k - 1)
  }

  lemma BinomialTerm(a: int, x: int, y: int, c: int, s: int)
    ensures (x + y) * (a * c) + a * s == y * (a * c) + a * (s + x * c)
  {
  }

  lemma {:induction false} BinomialStep(a: int, n: nat, k: nat)
    ensures BinomialSum(a, n + 1, k + 1) == BinomialSum(a, n, k + 1) + a * BinomialSum(a, n, k)
  {
    if k > 0 {
      BinomialStep(a, n, k - 1);
      BinomialTerm(a, Choose(n, k - 1), Choose(n, k), Pow(a, k - 1), BinomialSum(a, n, k - 1));
    } else {
      assert BinomialSum(a, n, 1) == BinomialSum(a, n, 0) + Choose(n, 0) * Pow(a, 0);
      assert BinomialSum(a, n + 1, 1) == BinomialSum(a, n + 1, 0) + Choose(n + 1, 0) * Pow(a, 0);
    }
  }

  lemma {:induction false} Binomial(a: int, n: nat)
    ensures BinomialSum(a, n, n + 1) == Pow(a + 1, n)
  {
    if n == 0 {
      assert BinomialSum(a, 0, 1) == BinomialSum(a, 0, 0) + Choose(0, 0) * Pow(a, 0);
    } else {
      Binomial(a, n - 1);
      BinomialStep(a, n - 1, n);
      ChooseAbove(n - 1, n);
      assert BinomialSum(a, n - 1, n + 1) == BinomialSum(a, n - 1, n);
      var s := BinomialSum(a, n - 1, n);
      assert s + a * s == (a + 1) * s;
    }
  }

  lemma ChoosePrime(p: int, k: nat)
    requires Prime(p) && 0 < k < p
    ensures Cong(Choose(p, k), 0, p)
  {
    ChooseAbsorb(p, k);
    CongIntro(k * Choose(p, k), 0, Choose(p - 1, k - 1), p);
    EuclidSmall(p, k, Choose(p, k));
  }

  lemma {:induction false} BinomialSumPrime(a: int, p: int, k: nat)
    requires Prime(p) && 0 < k <= p
    ensures Cong(BinomialSum(a, p, k), 1, p)
  {
    if k == 1 {
      assert BinomialSum(a, p, 1) == BinomialSum(a, p, 0) + Choose(p, 0) * Pow(a, 0);
    } else {
      BinomialSumPrime(a, p, k - 1);
      ChoosePrime(p, k - 1);
      var c, w := Choose(p, k - 1), Pow(a, k - 1);
      CongMul(c, 0, w, w, p);
      CongAdd(BinomialSum(a, p, k - 1), 1, c * w, 0 * w, p);
    }
  }

  lemma {:induction false} FermatNat(a: nat, p: int)
    requires Prime(p)
    ensures Cong(Pow(a, p), a, p)
  {
    if a > 0 {
      var b := a - 1;
      FermatNat(b, p);
      Binomial(b, p);
      BinomialSumPrime(b, p, p);
      ChooseFull(p);
      assert Pow(a, p) == BinomialSum(b, p, p) + Pow(b, p);
      CongAdd(BinomialSum(b, p, p), 1, Pow(b, p), b, p);
    }
  }

  // Fermat's little theorem.
  lemma Fermat(a: int, p: int)
    requires Prime(p) && !Cong(a, 0, p)
    ensures Cong(Pow(a, p - 1), 1, p)
  {
    var r := a % p;
    CongMod(a, p);
    FermatNat(r, p);
    CongPow(a, r, p, p);
    CongTrans(Pow(a, p), Pow(r, p), r, p);
    CongTrans(Pow(a, p), r, a, p);
    var w := Pow(a, p - 1);
    assert Pow(a, p) - a == a * (w - 1);
    Euclid(p, a, w - 1);
  }
}
