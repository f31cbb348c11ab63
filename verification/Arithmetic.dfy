/** Quotients and remainders. */
module Arithmetic {

  /** A quotient with its remainder is the only one. */
  lemma ModUnique(v: int, m: int, k: int, x: int)
    requires m > 0 && v == m * k + x && 0 <= x < m
    ensures v % m == x && v / m == k
  {
    var q, r := v / m, v % m;
    assert v == m * q + r;
    Apart(m, k - q, r - x);
  }

  lemma Apart(m: int, d: int, y: int)
    requires m > 0 && m * d == y && -m < y < m
    ensures d == 0
  {
    if d != 0 {
      AtLeast(m, d);
    }
  }

  lemma {:induction false} AtLeast(m: nat, d: int)
    requires d != 0
    ensures m * d >= m || m * d + m <= 0
    decreases if d > 0 then d else -d
  {
    if d > 1 {
      AtLeast(m, d - 1);
      assert m * d == m * (d - 1) + m;
    } else if d < -1 {
      AtLeast(m, d + 1);
      assert m * d == m * (d + 1) - m;
    }
  }
}
