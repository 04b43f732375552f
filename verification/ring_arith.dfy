/** Facts about `%` with a positive modulus, as the ring index uses it. */
module RingArith {

  lemma {:induction false} MulAtLeast(m: int, d: int)
    requires m > 0 && d >= 1
    ensures m * d >= m
    decreases d
  {
    if d > 1 {
      MulAtLeast(m, d - 1);
      assert m * d == m * (d - 1) + m;
    }
  }

  /** Quotient and remainder are determined by any decomposition `x == m * q + r`. */
  lemma DivModUnique(x: int, m: int, q: int, r: int)
    requires m > 0 && 0 <= r < m && x == m * q + r
    ensures x % m == r && x / m == q
  {
    var q0, r0 := x / m, x % m;
    assert m * q0 + r0 == m * q + r;
    if q > q0 {
      assert m * (q - q0) == m * q - m * q0;
      MulAtLeast(m, q - q0);
    } else if q < q0 {
      assert m * (q0 - q) == m * q0 - m * q;
      MulAtLeast(m, q0 - q);
    }
  }

  lemma ModOfSmall(x: int, m: int)
    requires 0 <= x < m
    ensures x % m == x
  {
    DivModUnique(x, m, 0, x);
  }

  lemma ModAfterWrap(x: int, m: int)
    requires 0 < m
    ensures (x + m) % m == x % m
  {
    var q, r := x / m, x % m;
    assert m * (q + 1) + r == m * q + r + m;
    DivModUnique(x + m, m, q + 1, r);
  }

  /** Two counters less than `m` apart never land on the same slot. */
  lemma ModApart(i: int, j: int, m: int)
    requires 0 <= i < j && j - i < m
    ensures i % m != j % m
  {
    var qi, qj := i / m, j / m;
    if i % m == j % m {
      assert m * qj - m * qi == j - i;
      assert m * (qj - qi) == m * qj - m * qi;
      if qj - qi >= 1 {
        MulAtLeast(m, qj - qi);
      } else {
        assert m * (qi - qj + 1) == m * qi - m * qj + m;
        MulAtLeast(m, qi - qj + 1);
      }
    }
  }
}
