/** round(x, 4): to the nearest multiple of 0.0001, ties to the even one. */
module Rounding {
  function HalfEven(y: real): int {
    var f := y.Floor;
    var rest := y - f as real;
    if rest < 0.5 || (rest == 0.5 && f % 2 == 0) then f else f + 1
  }

  function Round4(x: real): real {
    HalfEven(x * 10000.0) as real / 10000.0
  }

  // The nearest integer, and of two equally near ones the even one.
  lemma HalfEvenNearest(y: real, n: int)
    ensures var r := HalfEven(y) as real;
            var near, other := if r > y then r - y else y - r, if n as real > y then n as real - y else y - n as real;
            near <= other && (near == other && n != HalfEven(y) ==> HalfEven(y) % 2 == 0)
  {
  }

  lemma HalfEvenMonotone(x: real, y: real)
    requires x <= y
    ensures HalfEven(x) <= HalfEven(y)
  {
  }

  lemma Round4Monotone(x: real, y: real)
    requires x <= y
    ensures Round4(x) <= Round4(y)
  {
    HalfEvenMonotone(x * 10000.0, y * 10000.0);
  }

  lemma Round4Fixes()
    ensures Round4(0.0) == 0.0 && Round4(1.0) == 1.0
  {
  }

  // Numbers more than one step apart stay apart.
  lemma Round4Strict(x: real, y: real)
    requires x + 0.0001 < y
    ensures Round4(x) < Round4(y)
  {
    var a, b := x * 10000.0, y * 10000.0;
    assert a + 1.0 < b;
    assert HalfEven(a) < HalfEven(b);
  }

  // The rounded number reaches k steps exactly from half a step below on, the half step itself when k
  // is even.
  lemma Round4Reaches(x: real, k: int)
    ensures Round4(x) >= k as real / 10000.0 <==> x * 20000.0 > (2 * k - 1) as real || (x * 20000.0 == (2 * k - 1) as real && k % 2 == 0)
  {
    var y := x * 10000.0;
    HalfEvenReaches(y, k);
    assert Round4(x) >= k as real / 10000.0 <==> HalfEven(y) >= k;
  }

  lemma HalfEvenReaches(y: real, k: int)
    ensures HalfEven(y) >= k <==> 2.0 * y > (2 * k - 1) as real || (2.0 * y == (2 * k - 1) as real && k % 2 == 0)
  {
  }
}
