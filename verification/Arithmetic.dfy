/** Powers of two, division with remainder, and single bits of a number. */
module Arithmetic {

  function Pow2(n: nat): (r: nat)
    ensures r >= 1
  {
    if n == 0 then 1 else 2 * Pow2(n - 1)
  }

  lemma {:induction false} Pow2Add(a: nat, b: nat)
    ensures Pow2(a + b) == Pow2(a) * Pow2(b)
    decreases b
  {
    if b > 0 {
      Pow2Add(a, b - 1);
      calc {
        Pow2(a + b);
        2 * Pow2(a + b - 1);
        2 * (Pow2(a) * Pow2(b - 1));
        Pow2(a) * (2 * Pow2(b - 1));
      }
    }
  }

  /** Quotient and remainder are determined by what they satisfy. */
  lemma DivModUnique(a: int, d: int, q: int, r: int)
    requires d > 0 && a == d * q + r && 0 <= r < d
    ensures a / d == q && a % d == r
  {
    var q', r' := a / d, a % d;
    assert a == d * q' + r';
    assert d * (q - q') == r' - r;
    MulSign(d, q - q');
  }

  lemma MulSign(d: int, k: int)
    requires d > 0
    ensures k >= 1 ==> d * k >= d
    ensures k <= -1 ==> d * k <= -d
  {
  }

  lemma DivOfSum(m: int, d: int, k: int)
    requires d > 0
    ensures (m + d * k) / d == m / d + k && (m + d * k) % d == m % d
  {
    assert m == d * (m / d) + m % d;
    assert d * (m / d + k) == d * (m / d) + d * k;
    DivModUnique(m + d * k, d, m / d + k, m % d);
  }

  /** Bit j of a number. */
  function Bit(n: nat, j: nat): bool {
    n / Pow2(j) % 2 == 1
  }

  /** Setting the bit just above a number changes no other bit. */
  lemma AddHighBit(m: nat, r: nat, j: nat)
    requires m < Pow2(r) && j <= r
    ensures Bit(m + Pow2(r), j) == (j == r || Bit(m, j)) && m + Pow2(r) < Pow2(r + 1)
  {
    if j == r {
      DivModUnique(m + Pow2(r), Pow2(r), 1, m);
    } else {
      Pow2Add(j, r - j);
      EvenMultipleAdded(m, Pow2(j), Pow2(r - j - 1));
      Doubled(Pow2(j), Pow2(r - j - 1));
    }
  }

  lemma Doubled(d: int, k: int)
    ensures d * (2 * k) == 2 * (d * k)
  {
  }

  lemma EvenMultipleAdded(m: nat, d: nat, k: nat)
    requires d > 0
    ensures (m + d * (2 * k)) / d % 2 == m / d % 2
  {
    DivOfSum(m, d, 2 * k);
    EvenAdded(m / d, k);
  }

  lemma EvenAdded(a: nat, b: nat)
    ensures (a + 2 * b) % 2 == a % 2
  {
  }

  lemma NoHighBit(m: nat, r: nat)
    requires m < Pow2(r)
    ensures !Bit(m, r) && m < Pow2(r + 1)
  {
    DivModUnique(m, Pow2(r), 0, m);
  }
}
