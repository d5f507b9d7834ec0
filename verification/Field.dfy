/** Facts about the field of residues modulo a prime that point decompression needs. */
module Field {
  import opened NumberTheory

  predicate IsRoot(s: int, a: int, p: int)
    requires p > 0
  {
    Cong(s * s, a, p)
  }

  ghost predicate NonSquare(a: int, p: int)
    requires p > 0
  {
    forall s: int :: !IsRoot(s, a, p)
  }

  // Python's pow(b, e, m).
  function PowMod(b: int, e: nat, m: int): (r: int)
    requires m > 0
    ensures 0 <= r < m && Cong(r, Pow(b, e), m)
  {
    CongMod(Pow(b, e), m);
    Pow(b, e) % m
  }

  lemma CongScale(a: int, b: int, t: int, p: int)
    requires p > 0 && Cong(a, b, p)
    ensures Cong(a * t, b * t, p) && Cong(t * a, t * b, p)
  {
    CongMul(a, b, t, t, p);
  }

  lemma CongZeroProduct(a: int, b: int, p: int)
    requires Prime(p)
    ensures Cong(a * b, 0, p) <==> Cong(a, 0, p) || Cong(b, 0, p)
  {
    if Cong(a * b, 0, p) { Euclid(p, a, b); }
    if Cong(a, 0, p) { CongScale(a, 0, b, p); }
    if Cong(b, 0, p) { CongScale(b, 0, a, p); }
  }

  // Cancelling a factor that is not zero.
  lemma CongCancel(a: int, b: int, t: int, p: int)
    requires Prime(p) && !Cong(t, 0, p)
    ensures Cong(a * t, b * t, p) <==> Cong(a, b, p)
  {
    assert a * t - b * t == (a - b) * t;
    CongZeroProduct(a - b, t, p);
  }

  lemma InverseByPower(v: int, p: int)
    requires Prime(p) && !Cong(v, 0, p)
    ensures Cong(v * PowMod(v, p - 2, p), 1, p)
  {
    Fermat(v, p);
    CongScale(PowMod(v, p - 2, p), Pow(v, p - 2), v, p);
    CongTrans(v * PowMod(v, p - 2, p), Pow(v, p - 1), 1, p);
  }

  lemma NegatedSquares(a: int, p: int)
    requires p > 0
    ensures Cong((p - a) * (p - a), a * a, p)
  {
    assert (p - a) * (p - a) - a * a == (p - 2 * a) * p;
    CongIntro((p - a) * (p - a), a * a, p - 2 * a, p);
  }

  // Two square roots of the same number agree up to sign.
  lemma RootsAgree(s: int, t: int, p: int)
    requires Prime(p) && Cong(s * s, t * t, p)
    ensures Cong(s, t, p) || Cong(s, -t, p)
  {
    assert s * s - t * t == (s - t) * (s + t);
    CongZeroProduct(s - t, s + t, p);
  }

  // Euler: the ((p-1)/2)-th power of a non-zero number is 1 or -1.
  lemma HalfPower(s: int, p: int)
    requires Prime(p) && p % 2 == 1 && !Cong(s, 0, p)
    ensures Cong(Pow(s, (p - 1) / 2), 1, p) || Cong(Pow(s, (p - 1) / 2), -1, p)
  {
    var h := (p - 1) / 2;
    Fermat(s, p);
    PowAdd(s, h, h);
    RootsAgree(Pow(s, h), 1, p);
  }

  // A square to the (p-1)/2 is 1.
  lemma SquareHasHalfPowerOne(s: int, a: int, p: int)
    requires Prime(p) && p % 2 == 1 && IsRoot(s, a, p) && !Cong(a, 0, p)
    ensures Cong(Pow(a, (p - 1) / 2), 1, p)
  {
    var h := (p - 1) / 2;
    if Cong(s, 0, p) {
      CongScale(s, 0, s, p);
      CongSym(s * s, a, p);
      CongTrans(a, s * s, 0, p);
    }
    Fermat(s, p);
    PowMul(s, 2, h);
    PowAdd(s, 1, 1);
    CongSym(s * s, a, p);
    CongPow(a, s * s, h, p);
    CongTrans(Pow(a, h), Pow(s, 2 * h), 1, p);
  }

  // The first root candidate a^((p+3)/8) squares to a or to -a when a is a square.
  lemma RootCandidate(s: int, a: int, p: int)
    requires Prime(p) && p % 8 == 5 && IsRoot(s, a, p)
    ensures var x := Pow(a, (p + 3) / 8); Cong(x * x, a, p) || Cong(x * x, -a, p)
  {
    var e, k := (p + 3) / 8, (p - 1) / 4;
    var x, w := Pow(a, e), Pow(a, k);
    assert x * x == a * w by {
      PowAdd(a, e, e);
      assert e + e == 1 + k;
    }
    if Cong(a, 0, p) {
      CongZeroProduct(a, w, p);
      CongSym(a, 0, p);
      CongTrans(x * x, 0, a, p);
    } else {
      PowerOfRoot(s, a, k, p);
      var h := Pow(s, (p - 1) / 2);
      if Cong(s, 0, p) {
        CongScale(s, 0, s, p);
        CongSym(s * s, a, p);
        CongTrans(a, s * s, 0, p);
      }
      HalfPower(s, p);
      var unit := if Cong(h, 1, p) then 1 else -1;
      CongTrans(w, h, unit, p);
      CongScale(w, unit, a, p);
    }
  }

  lemma PowerOfRoot(s: int, a: int, k: nat, p: int)
    requires p > 0 && IsRoot(s, a, p)
    ensures Cong(Pow(a, k), Pow(s, 2 * k), p)
  {
    PowMul(s, 2, k);
    PowAdd(s, 1, 1);
    CongSym(s * s, a, p);
    CongPow(a, s * s, k, p);
  }

  lemma UnitsAreNotZero(i: int, p: int)
    requires Prime(p) && Cong(i * i, -1, p)
    ensures !Cong(i, 0, p) && !Cong(1, 0, p)
  {
    if Cong(1, 0, p) { CongEqual(1, 0, p); }
    if Cong(i, 0, p) {
      CongZeroProduct(i, i, p);
      CongSym(i * i, -1, p);
      CongTrans(-1, i * i, 0, p);
      CongAdd(0, 0, -1, 0, p);
    }
  }

  // If -1 = i*i and d is no square, then d*y*y is never -1 or 1.
  lemma NonSquareTimesSquare(d: int, i: int, y: int, p: int)
    requires Prime(p) && Cong(i * i, -1, p) && NonSquare(d, p)
    ensures !Cong(d * (y * y), -1, p) && !Cong(d * (y * y), 1, p)
  {
    UnitsAreNotZero(i, p);
    CongSym(i * i, -1, p);
    var t := d * (y * y);
    if Cong(t, -1, p) {
      CongTrans(t, -1, i * i, p);
      QuotientOfSquares(d, i, y, p);
    }
    if Cong(t, 1, p) {
      assert 1 * 1 == 1;
      QuotientOfSquares(d, 1, y, p);
    }
  }

  lemma QuotientOfSquares(d: int, i: int, y: int, p: int)
    requires Prime(p) && Cong(d * (y * y), i * i, p) && !Cong(i, 0, p)
    ensures !NonSquare(d, p)
  {
    if Cong(y, 0, p) {
      CongZeroProduct(y, y, p);
      CongZeroProduct(d, y * y, p);
      CongSym(d * (y * y), i * i, p);
      CongTrans(i * i, d * (y * y), 0, p);
      CongZeroProduct(i, i, p);
    }
    var t := PowMod(y, p - 2, p);
    InverseByPower(y, p);
    CongMul(y * t, 1, y * t, 1, p);
    CongScale((y * t) * (y * t), 1, d, p);
    CongScale(d * (y * y), i * i, t * t, p);
    assert d * ((y * t) * (y * t)) == (d * (y * y)) * (t * t) by { Interchange(y, t, y, t); }
    assert (i * i) * (t * t) == (i * t) * (i * t) by { Interchange(i, i, t, t); }
    CongSym((d * (y * y)) * (t * t), (i * i) * (t * t), p);
    CongTrans((i * t) * (i * t), d * ((y * t) * (y * t)), d * 1, p);
    assert IsRoot(i * t, d, p);
  }
}
