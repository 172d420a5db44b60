/** Powers of two, and quotients and remainders. */
module Arithmetic {

  function Pow2(n: nat): (p: nat)
    ensures p > 0
  {
    if n == 0 then 1 else 2 * Pow2(n - 1)
  }

  lemma {:induction false} Pow2Monotone(m: nat, n: nat)
    requires m <= n
    ensures Pow2(m) <= Pow2(n)
    decreases n
  {
    if m < n { Pow2Monotone(m, n - 1); }
  }

  lemma {:induction false} Pow2Add(m: nat, n: nat)
    ensures Pow2(m + n) == Pow2(m) * Pow2(n)
  {
    if m > 0 { Pow2Add(m - 1, n); }
  }

  lemma {:induction false} Pow2At64()
    ensures Pow2(64) == 0x1_0000_0000_0000_0000
  {
    assert Pow2(4) == 16;
    Pow2Add(4, 4);
    Pow2Add(8, 8);
    Pow2Add(16, 16);
    Pow2Add(32, 32);
  }

  lemma {:induction false} PowRises(m: nat, n: nat)
    requires m < n
    ensures Pow2(m) < Pow2(n)
  {
    if m + 1 < n { PowRises(m, n - 1); }
  }

  lemma {:induction false} ByteFits()
    ensures Pow2(8) == 256
  {
    assert Pow2(4) == 16;
    assert Pow2(8) == 16 * Pow2(4) by { assert Pow2(6) == 4 * Pow2(4); }
  }

  lemma {:induction false} Pow2Byte(n: nat)
    ensures Pow2(n + 8) == 256 * Pow2(n)
  {
    assert Pow2(n + 4) == 16 * Pow2(n) by { assert Pow2(n + 2) == 4 * Pow2(n); }
    assert Pow2(n + 8) == 16 * Pow2(n + 4) by { assert Pow2(n + 6) == 4 * Pow2(n + 4); }
  }

  lemma {:induction false} PowAtLeast(n: nat)
    requires n >= 2
    ensures Pow2(n) >= 4
  {
    if n > 2 { PowAtLeast(n - 1); } else { assert Pow2(2) == 2 * Pow2(1); }
  }

  lemma {:induction false} AtLeast(m: nat, k: int)
    requires k >= 1
    ensures m * k >= m
  {
    assert m * (k - 1) >= 0 && m * k == m * (k - 1) + m;
  }

  /** Quotient and remainder are unique. */
  lemma {:induction false} Unique(x: int, q: int, r: nat, m: nat)
    requires r < m && x == m * q + r
    ensures x / m == q && x % m == r
  {
    var d := q - x / m;
    assert x == m * (x / m) + x % m;
    assert m * d == m * q - m * (x / m);
    assert m * (-d) == -(m * d);
    if d >= 1 {
      AtLeast(m, d);
    } else if d <= -1 {
      AtLeast(m, -d);
    }
  }

  lemma {:induction false} ModAdd(a: int, b: int, m: nat)
    requires m > 0
    ensures (a + m * b) % m == a % m
  {
    assert a == m * (a / m) + a % m;
    assert a + m * b == m * (a / m + b) + a % m;
    Unique(a + m * b, a / m + b, a % m, m);
  }

  /** Reducing by a multiple first changes nothing. */
  lemma {:induction false} ModMod(x: nat, m: nat, k: nat)
    requires m > 0 && k > 0
    ensures m * k > 0 && (x % (m * k)) % m == x % m
  {
    assert m * k > 0;
    var q := x / (m * k);
    assert x == m * k * q + x % (m * k);
    assert m * k * q == m * (k * q);
    ModAdd(x % (m * k), k * q, m);
  }

  lemma {:induction false} ModSum(a: nat, b: nat, m: nat)
    requires m > 0
    ensures (a % m + b % m) % m == (a + b) % m
  {
    assert a == m * (a / m) + a % m && b == m * (b / m) + b % m;
    assert a + b == (a % m + b % m) + m * (a / m + b / m);
    ModAdd(a % m + b % m, a / m + b / m, m);
  }

  lemma {:induction false} SmallMod(x: nat, m: nat)
    requires x < m
    ensures x % m == x
  {
  }

  lemma {:induction false} Euclid(x: nat, p: nat)
    requires p > 0
    ensures x == p * (x / p) + x % p && x % p < p
  {
  }

  /** A digit below `p` above a rest below `q`. */
  lemma {:induction false} Stacked(a: nat, p: nat, b: nat, q: nat)
    requires a < p && b < q
    ensures a * q + b < p * q
  {
    var d := p - 1 - a;
    assert d * q >= 0;
    assert p * q == (d + a + 1) * q == d * q + a * q + q;
  }
}
