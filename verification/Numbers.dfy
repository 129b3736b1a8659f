/** Powers of two, shared by the models. */
module Numbers {

  function Pow2(n: nat): (p: nat)
    ensures p >= 1
  {
    if n == 0 then 1 else 2 * Pow2(n - 1)
  }

  function Quotient(a: nat, d: nat): nat
    requires d > 0
  {
    a / d
  }

  lemma {:induction false} Pow2Sum(m: nat, n: nat)
    ensures Pow2(m + n) == Pow2(m) * Pow2(n)
  {
    if m != 0 {
      Pow2Sum(m - 1, n);
      assert 2 * (Pow2(m - 1) * Pow2(n)) == (2 * Pow2(m - 1)) * Pow2(n);
    }
  }

  lemma {:induction false} Pow2Grows(m: nat, n: nat)
    requires m <= n
    ensures Pow2(m) <= Pow2(n)
    decreases n
  {
    if m < n {
      Pow2Grows(m, n - 1);
    }
  }

  lemma Pow2Doubles(n: nat)
    ensures Pow2(n + 1) == 2 * Pow2(n)
  {
  }

  lemma DivMod(a: int, q: int, d: int, r: int)
    requires d > 0 && 0 <= r < d && a == q * d + r
    ensures a / d == q && a % d == r
  {
    var q', r' := a / d, a % d;
    assert a == q' * d + r';
    if q < q' {
      assert q' * d == (q' - q) * d + q * d;
      AtLeastOnce(q' - q, d);
    } else if q' < q {
      assert q * d == (q - q') * d + q' * d;
      AtLeastOnce(q - q', d);
    }
  }

  lemma AtLeastOnce(k: int, d: int)
    requires k >= 1 && d > 0
    ensures k * d >= d
  {
    assert k * d == (k - 1) * d + d;
  }

  lemma DivOfDiv(a: nat, m: nat, n: nat)
    requires m > 0 && n > 0
    ensures m * n > 0 && a / (m * n) == (a / n) / m
  {
    AtLeastOnce(m, n);
    var q, r := a / n, a % n;
    var p, t := q / m, q % m;
    assert a == q * n + r && q == p * m + t;
    assert q * n == p * (m * n) + t * n by {
      assert (p * m + t) * n == p * m * n + t * n;
      assert p * m * n == p * (m * n);
    }
    assert t * n + r < m * n by {
      assert m * n == (m - t) * n + t * n;
      AtLeastOnce(m - t, n);
    }
    DivMod(a, p, m * n, t * n + r);
  }
}
