/** The rounding and the integer division of the source: `llround` rounds halfway
    cases away from zero, and C++ `/` and `%` truncate toward zero. */
module Rounding {

  function Abs(x: int): (r: int)
    ensures r >= 0 && (r == x || r == -x)
  {
    if x < 0 then -x else x
  }

  // ---------------------------------------------------------------- llround

  /** `llround` of an exact real. */
  function LlRound(x: real): int {
    if x >= 0.0 then (x + 0.5).Floor else -((0.5 - x).Floor)
  }

  /** `llround` of the exact fraction n/d, in integers. */
  function Round(n: int, d: int): int
    requires d > 0
  {
    if n >= 0 then (2 * n + d) / (2 * d) else -((d - 2 * n) / (2 * d))
  }

  /** The nearest integer, ties away from zero, and nothing else. */
  lemma RoundIs(n: int, d: int, r: int)
    requires d > 0
    ensures Round(n, d) == r <==>
            if n >= 0 then 2 * n - d < 2 * (r * d) <= 2 * n + d
            else 2 * n - d <= 2 * (r * d) < 2 * n + d
  {
    if n >= 0 {
      QuotientIs(2 * n + d, 2 * d, r);
      assert r * (2 * d) == 2 * (r * d);
    } else {
      QuotientIs(d - 2 * n, 2 * d, -r);
      assert -r * (2 * d) == -2 * (r * d);
    }
  }

  lemma RoundError(n: int, d: int)
    requires d > 0
    ensures 2 * Abs(Round(n, d) * d - n) <= d
  {
    RoundIs(n, d, Round(n, d));
  }

  /** The law that makes several conversions exact. */
  lemma RoundOdd(n: int, d: int)
    requires d > 0
    ensures Round(-n, d) == -Round(n, d)
  {
  }

  lemma RoundMultiple(k: int, d: int)
    requires d > 0
    ensures Round(k * d, d) == k
  {
    RoundIs(k * d, d, k);
  }

  lemma RoundMonotone(n: int, m: int, d: int)
    requires d > 0 && n <= m
    ensures Round(n, d) <= Round(m, d)
  {
    var a, b := Round(n, d), Round(m, d);
    RoundIs(n, d, a);
    RoundIs(m, d, b);
    assert (a - b) * d == a * d - b * d;
    if a > b { MulAtLeast(a - b, d); }
  }

  /** The integer form computes the `llround` of the quotient. */
  lemma RoundIsLlRound(n: int, d: int)
    requires d > 0
    ensures Round(n, d) == LlRound(n as real / d as real)
  {
    var x := n as real / d as real;
    assert x * d as real == n as real;
    RoundOfQuotient(x, n, d);
  }

  lemma RoundOfQuotient(x: real, n: int, d: int)
    requires d > 0 && x * d as real == n as real
    ensures Round(n, d) == LlRound(x)
  {
    var r := LlRound(x);
    LlRoundIs(x, r);
    var z, e, p := r as real, d as real, r * d;
    assert p as real == z * e;
    ScaledOffset(x, -0.5, z, e, n as real, p as real);
    ScaledOffset(x, 0.5, z, e, n as real, p as real);
    ScaledOffset(0.0, 0.0, x, e, 0.0, n as real);
    RoundFromReals(n, d, r, p);
  }

  lemma RoundFromReals(n: int, d: int, r: int, p: int)
    requires d > 0 && p == r * d
    requires var y, e := n as real, d as real;
             if y >= 0.0 then y - 0.5 * e < p as real <= y + 0.5 * e
             else y - 0.5 * e <= p as real < y + 0.5 * e
    ensures Round(n, d) == r
  {
    RoundIs(n, d, r);
  }

  lemma LlRoundIs(x: real, r: int)
    ensures LlRound(x) == r <==>
            if x >= 0.0 then x - 0.5 < r as real <= x + 0.5 else x - 0.5 <= r as real < x + 0.5
  {
  }

  /** Multiplying by a positive factor keeps the order of x + h and z. */
  lemma ScaledOffset(x: real, h: real, z: real, e: real, xe: real, ze: real)
    requires e > 0.0 && xe == x * e && ze == z * e
    ensures x + h < z <==> xe + h * e < ze
    ensures x + h > z <==> xe + h * e > ze
  {
    var gap := z - x - h;
    assert gap * e == ze - xe - h * e;
    assert gap > 0.0 <==> gap * e > 0.0;
    assert gap < 0.0 <==> gap * e < 0.0;
  }

  // ---------------------------------------------------------------- division

  /** C++ integer division: truncates toward zero. */
  function TruncDiv(a: int, b: int): int
    requires b != 0
  {
    if (a >= 0) == (b > 0) then Abs(a) / Abs(b) else -(Abs(a) / Abs(b))
  }

  /** C++ remainder: it has the sign of the dividend. */
  function TruncMod(a: int, b: int): int
    requires b != 0
  {
    if a >= 0 then a % Abs(b) else -((-a) % Abs(b))
  }

  lemma TruncDivMod(a: int, b: int)
    requires b != 0
    ensures a == TruncDiv(a, b) * b + TruncMod(a, b)
    ensures Abs(TruncMod(a, b)) < Abs(b)
    ensures a >= 0 ==> TruncMod(a, b) >= 0
    ensures a <= 0 ==> TruncMod(a, b) <= 0
  {
    assert Abs(a) == Abs(b) * (Abs(a) / Abs(b)) + Abs(a) % Abs(b);
    var q := Abs(a) / Abs(b);
    assert (-q) * b == -(q * b);
  }

  // ---------------------------------------------------------------- helpers

  lemma MulAtLeast(k: int, d: int)
    requires k >= 1 && d >= 0
    ensures k * d >= d
  {
    assert (k - 1) * d >= 0;
  }

  lemma Distribute(a: int, b: int, m: int)
    ensures (a + b) * m == a * m + b * m && b * m == -(-b * m)
  {
  }

  lemma QuotientIs(a: int, b: int, q: int)
    requires b > 0
    ensures a / b == q <==> q * b <= a < q * b + b
  {
    var p := a / b;
    assert a == p * b + a % b;
    if q * b <= a < q * b + b {
      assert (q - p) * b == q * b - p * b;
      assert (p - q) * b == p * b - q * b;
      if q > p { MulAtLeast(q - p, b); }
      if q < p { MulAtLeast(p - q, b); }
    }
  }

  /** A remainder is determined by its range and its congruence class. */
  lemma ModIs(a: int, q: int, k: int, r: int)
    requires q > 0 && a == k * q + r && 0 <= r < q
    ensures a % q == r
  {
    QuotientIs(a, q, k);
    assert a == (a / q) * q + a % q;
  }

  lemma ModShift(a: int, k: int, q: int)
    requires q > 0
    ensures (a + k * q) % q == a % q
  {
    var p := a / q;
    assert a == p * q + a % q;
    assert (p + k) * q == p * q + k * q;
    ModIs(a + k * q, q, p + k, a % q);
  }

  /** Equal remainders mean a difference that is a multiple, and conversely. */
  lemma ModEqual(a: int, b: int, q: int)
    requires q > 0
    ensures a % q == b % q <==> (a - b) % q == 0
  {
    var i, j := a / q, b / q;
    assert a == i * q + a % q && b == j * q + b % q;
    assert (i - j) * q == i * q - j * q;
    if a % q >= b % q {
      ModIs(a - b, q, i - j, a % q - b % q);
    } else {
      assert (i - j - 1) * q == i * q - j * q - q;
      ModIs(a - b, q, i - j - 1, a % q - b % q + q);
    }
  }

  /** The remainder of a difference, from the remainders. */
  lemma ModDifference(a: int, b: int, c: int, q: int)
    requires q > 0
    ensures (a % q - b % q + c) % q == (a - b + c) % q
  {
    var i, j := a / q, b / q;
    assert a == i * q + a % q && b == j * q + b % q;
    assert (j - i) * q == j * q - i * q;
    ModShift(a - b + c, j - i, q);
    assert a - b + c + (j - i) * q == a % q - b % q + c;
  }

  lemma ModOfSum(a: int, b: int, q: int)
    requires q > 0 && 0 <= b <= q
    ensures (a + b) % q == if a % q + b < q then a % q + b else a % q + b - q
  {
    var k := a / q;
    assert a == k * q + a % q;
    if a % q + b < q {
      ModIs(a + b, q, k, a % q + b);
    } else {
      assert (k + 1) * q == k * q + q;
      ModIs(a + b, q, k + 1, a % q + b - q);
    }
  }

  /** The least value not below x in the residue class of the target. */
  lemma LeastCongruent(x: int, target: int, q: int)
    requires q > 0
    ensures (x + (target - x) % q) % q == target % q
    ensures forall y :: y >= x && y % q == target % q ==> x + (target - x) % q <= y
  {
    var d := (target - x) % q;
    var k := (target - x) / q;
    assert target - x == k * q + d;
    assert x + d == target + (-k) * q;
    ModShift(target, -k, q);
    forall y | y >= x && y % q == target % q ensures x + d <= y {
      ResidueApart(y, x + d, q);
    }
  }

  /** Values of one residue class that differ are at least q apart. */
  lemma ResidueApart(y: int, r: int, q: int)
    requires q > 0 && y % q == r % q
    ensures y == r || y <= r - q || y >= r + q
  {
    ModEqual(y, r, q);
    var k := (y - r) / q;
    assert y - r == k * q;
    if k >= 1 { MulAtLeast(k, q); }
    if k <= -1 { MulAtLeast(-k, q); }
  }
}
