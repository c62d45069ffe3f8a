/** Integer helpers. The Go code computes absolute values through
    `math.Abs` on `float64` and powers through `math.Pow`; both are exact
    while every value stays within 2^53, and there the model's unbounded
    integers agree with them. */
module Ints {

  function Abs(x: int): (r: nat)
    ensures r == x || r == -x
  {
    if x < 0 then -x else x
  }

  function Min(a: int, b: int): (m: int)
    ensures m <= a && m <= b && (m == a || m == b)
  {
    if a <= b then a else b
  }

  function Max(a: int, b: int): (m: int)
    ensures a <= m && b <= m && (m == a || m == b)
  {
    if a >= b then a else b
  }

  function Pow10(n: nat): (p: nat)
    ensures p >= 1
  {
    if n == 0 then 1 else 10 * Pow10(n - 1)
  }

  /** The sign of a product with a positive factor. */
  lemma MulSign(m: int, d: int)
    requires m > 0
    ensures d >= 1 ==> m * d >= m
    ensures d >= 0 ==> m * d >= 0
    ensures d <= 0 ==> m * d <= 0
    ensures d <= -1 ==> m * d <= -m
  {
    if d >= 1 {
      assert m * d == m * (d - 1) + m;
    } else if d <= -1 {
      assert m * d == m * (d + 1) - m;
    }
  }

  /** Euclidean division is unique: a quotient and a remainder in [0, m)
      that rebuild `y` are `y / m` and `y % m`. */
  lemma DivModUnique(y: int, m: int, q: int, r: int)
    requires m > 0 && 0 <= r < m && y == m * q + r
    ensures y / m == q && y % m == r
  {
    var q', r' := y / m, y % m;
    assert y == m * q' + r';
    assert m * (q - q') == r' - r;
    MulSign(m, q - q');
  }

  /** Reducing the left operand of a sum first does not change the sum's
      remainder. */
  lemma ModAdd(a: int, k: int, m: int)
    requires m > 0
    ensures (a % m + k) % m == (a + k) % m
  {
    var b := a % m + k;
    assert a == m * (a / m) + a % m;
    assert b == m * (b / m) + b % m;
    assert m * (a / m + b / m) == m * (a / m) + m * (b / m);
    DivModUnique(a + k, m, a / m + b / m, b % m);
  }

  /** Adding `m` adds one to the quotient. */
  lemma DivAddDivisor(x: int, m: int)
    requires m > 0
    ensures (x + m) / m == x / m + 1
  {
    assert x == m * (x / m) + x % m;
    assert m * (x / m + 1) == m * (x / m) + m;
    DivModUnique(x + m, m, x / m + 1, x % m);
  }

  /** Subtracting the divisor leaves the remainder alone. */
  lemma ModSubDivisor(x: int, m: int)
    requires m > 0
    ensures (x - m) % m == x % m
  {
    assert x == m * (x / m) + x % m;
    assert m * (x / m - 1) == m * (x / m) - m;
    DivModUnique(x - m, m, x / m - 1, x % m);
  }

  /** A proper divisor of `n` is at most half of it. */
  lemma ProperDivisorAtMostHalf(n: int, p: int)
    requires 1 <= p < n && n % p == 0
    ensures 2 * p <= n
  {
    var q := n / p;
    assert n == p * q;
    assert p * (q - 1) == n - p;
    MulSign(p, q - 1);
    assert p * q == p * (q - 2) + 2 * p;
    MulSign(p, q - 2);
  }

  /** The integers from `a` to `b`. */
  function Interval(a: int, b: int): (ids: set<int>)
    ensures forall x :: x in ids <==> a <= x <= b
    ensures a <= b ==> |ids| == b - a + 1
    decreases b - a
  {
    if a > b then {} else Interval(a, b - 1) + {b}
  }

  /** The total of a sequence. */
  function Sum(s: seq<int>): int {
    if |s| == 0 then 0 else Sum(s[..|s| - 1]) + s[|s| - 1]
  }

  lemma SumAppend(s: seq<int>, x: int)
    ensures Sum(s + [x]) == Sum(s) + x
  {
    assert (s + [x])[..|s|] == s;
  }
}
