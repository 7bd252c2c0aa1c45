/** 32-bit words, and facts about products and remainders, that several of the models need. */
module Arithmetic {

  /** One past the largest size_t, and one past the largest int, of the 32-bit targets. */
  const WORD: int := 0x1_0000_0000
  const SIGN: int := 0x8000_0000

  type uint32 = w: int | 0 <= w < 0x1_0000_0000

  lemma Multiple(n: nat, d: int)
    ensures d >= 1 ==> n * d >= n
    ensures d <= 0 ==> n * d <= 0
    ensures d <= -1 ==> n * d <= -(n as int)
  {
    if d >= 1 { assert n * d == n + n * (d - 1); }
    if d <= -1 { assert n * d == n * (d + 1) - n; }
  }

  lemma Remainder(x: int, m: nat, q: int, r: nat)
    requires r < m && x == m * q + r
    ensures x % m == r
  {
    var d := x / m - q;
    assert m * d == r - x % m;
    Multiple(m, d);
  }

  lemma TimesMonotone(a: int, b: int, k: int)
    requires a <= b && k >= 0
    ensures a * k <= b * k
  {
    assert b * k == a * k + (b - a) * k;
  }
}
