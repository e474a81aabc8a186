/** `round(x, 4)`, to the nearest ten-thousandth with ties to even, in exact arithmetic. */
module Rounding {

  const SCALE := 10000.0

  function NearestEven(x: real): int {
    var f := x.Floor;
    var rest := x - f as real;
    if rest < 0.5 || (rest == 0.5 && f % 2 == 0) then f else f + 1
  }

  function Round4(x: real): real {
    NearestEven(x * SCALE) as real / SCALE
  }

  lemma NearestEvenMonotone(x: real, y: real)
    requires x <= y
    ensures NearestEven(x) <= NearestEven(y)
  {
    assert x.Floor <= y.Floor;
  }

  /** Rounding preserves order, so comparisons of exact values survive it. */
  lemma Round4Monotone(x: real, y: real)
    requires x <= y
    ensures Round4(x) <= Round4(y)
  {
    assert x * SCALE <= y * SCALE;
    NearestEvenMonotone(x * SCALE, y * SCALE);
  }

  lemma Round4Whole(n: int)
    ensures Round4(n as real) == n as real
  {
    assert (n as real * SCALE) == (n * 10000) as real;
    assert ((n * 10000) as real).Floor == n * 10000;
  }

  /** A value between whole bounds stays between them. */
  lemma Round4Within(x: real, lo: int, hi: int)
    requires lo as real <= x <= hi as real
    ensures lo as real <= Round4(x) <= hi as real
  {
    Round4Monotone(lo as real, x);
    Round4Monotone(x, hi as real);
    Round4Whole(lo);
    Round4Whole(hi);
  }

  lemma Round4Close(x: real)
    ensures -0.00005 <= Round4(x) - x <= 0.00005
  {
    var y := x * SCALE;
    assert -0.5 <= NearestEven(y) as real - y <= 0.5;
    assert Round4(x) - x == (NearestEven(y) as real - y) / SCALE;
  }

  function Distance(a: real, b: real): (d: real)
    ensures d >= 0.0 && (d == 0.0 <==> a == b)
  {
    if a < b then b - a else a - b
  }

  /** The rounded value is a multiple of a ten-thousandth, no multiple is nearer, and of two equally near ones it is
      the even one. */
  lemma Round4Nearest(x: real, k: int) returns (n: int)
    ensures Round4(x) == n as real / 10000.0
    ensures Distance(n as real, 10000.0 * x) <= Distance(k as real, 10000.0 * x)
    ensures k != n && Distance(n as real, 10000.0 * x) == Distance(k as real, 10000.0 * x) ==> n % 2 == 0
  {
    var y := x * SCALE;
    n := NearestEven(y);
    assert Distance(n as real, y) <= 0.5;
    assert k < n ==> k <= n - 1;
    assert k > n ==> k >= n + 1;
  }
}
