/**
 Division, remainders and powers of two, in the few forms the other modules need.
 */
module Arithmetic {

  function Pow2(k: nat): (p: nat)
    ensures p >= 1
  {
    if k == 0 then 1 else 2 * Pow2(k - 1)
  }

  function Magnitude(x: int): nat {
    if x < 0 then -x else x
  }

  lemma Halves(h: int, r: int)
    requires r == 0 || r == 1
    ensures (2 * h + r) / 2 == h && (2 * h + r) % 2 == r
  {
  }

  lemma Halved(n: int)
    ensures n == 2 * (n / 2) + n % 2 && (n % 2 == 0 || n % 2 == 1)
    ensures n != 0 ==> Magnitude(n / 2) < Magnitude(n) || n == -1
    ensures n % 2 == 1 && (n / 2) % 2 == 1 ==> Magnitude(n / 2 + 1) < Magnitude(n)
  {
  }

  lemma MultipleAtLeast(k: int, d: nat)
    requires k >= 1
    ensures k * d >= d
  {
  }

  lemma QuotientUnique(d: nat, q: int, r: int, q': int, r': int)
    requires 0 <= r < d && 0 <= r' < d && q * d + r == q' * d + r'
    ensures q == q' && r == r'
  {
    assert (q - q') * d == r' - r;
    if q > q' {
      MultipleAtLeast(q - q', d);
    } else if q < q' {
      assert (q' - q) * d == r - r';
      MultipleAtLeast(q' - q, d);
    }
  }

  /** Doubling the divisor and putting a low bit back. */
  lemma ModDouble(a: nat, p: nat)
    requires p >= 1
    ensures a % (2 * p) == a % 2 + 2 * ((a / 2) % p)
  {
    var h := a / 2;
    var q, r := h / p, h % p;
    assert h == q * p + r;
    assert a == q * (2 * p) + (2 * r + a % 2);
    QuotientUnique(2 * p, q, 2 * r + a % 2, a / (2 * p), a % (2 * p));
  }
}
