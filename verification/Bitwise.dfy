/** The operators of C on 32-bit integers, as functions of mathematical integers. A signed integer
    is taken in two's complement, with as many sign bits in front as needed. */
module Bitwise {
  import opened Numbers

  const INT_MIN: int := -0x8000_0000

  predicate IsInt(x: int) { INT_MIN <= x < 0x8000_0000 }

  predicate IsUnsigned(x: int) { 0 <= x < 0x1_0000_0000 }

  /** The value of a result that does not fit into an int, or into an unsigned. */
  function ToUnsigned(x: int): int { x % 0x1_0000_0000 }

  function ToInt(x: int): int {
    var u := ToUnsigned(x);
    if u < 0x8000_0000 then u else u - 0x1_0000_0000
  }

  function Magnitude(x: int): nat { if x < 0 then -x else x }

  function Not(x: int): int { if x == 0 then 1 else 0 }

  function Complement(x: int): int { -x - 1 }

  function And(x: int, y: int): int
    decreases Magnitude(x)
  {
    if x == 0 then 0 else if x == -1 then y
    else 2 * And(x / 2, y / 2) + if x % 2 == 1 && y % 2 == 1 then 1 else 0
  }

  function Or(x: int, y: int): int
    decreases Magnitude(x)
  {
    if x == 0 then y else if x == -1 then -1
    else 2 * Or(x / 2, y / 2) + if x % 2 == 1 || y % 2 == 1 then 1 else 0
  }

  function Xor(x: int, y: int): int
    decreases Magnitude(x)
  {
    if x == 0 then y else if x == -1 then Complement(y)
    else 2 * Xor(x / 2, y / 2) + if x % 2 != y % 2 then 1 else 0
  }

  /** x >> n: arithmetic for a signed x, logical for an unsigned one. */
  function Shr(x: int, n: nat): int { x / Pow2(n) }

  /** x << n, before it is cut to 32 bits. */
  function Shl(x: int, n: nat): int { x * Pow2(n) }

  lemma {:induction false} XorZero(x: int, y: int)
    ensures Xor(x, y) == 0 <==> x == y
    decreases Magnitude(x)
  {
    if x != 0 && x != -1 {
      XorZero(x / 2, y / 2);
    }
  }

  lemma {:induction false} AndZero(x: int)
    ensures And(x, 0) == 0
    decreases Magnitude(x)
  {
    if x != 0 && x != -1 {
      AndZero(x / 2);
    }
  }

  lemma ModDouble(x: int, p: int)
    requires p > 0
    ensures x % (2 * p) == 2 * (x / 2 % p) + x % 2
  {
    var q, r := x / 2 / p, 2 * (x / 2 % p) + x % 2;
    assert x == 2 * (q * p + x / 2 % p) + x % 2;
    assert 2 * (q * p) == q * (2 * p);
    ModIs(x, 2 * p, q, r);
  }

  lemma ModIs(x: int, n: int, q: int, r: int)
    requires n > 0 && x == q * n + r && 0 <= r < n
    ensures x % n == r && x / n == q
  {
    var d := x / n - q;
    assert x == (x / n) * n + x % n;
    assert (x / n) * n == d * n + q * n;
    if d != 0 { Multiple(d, n); }
  }

  /** No multiple of n but 0 is close to 0. */
  lemma Multiple(d: int, n: int)
    requires n > 0 && d != 0
    ensures d * n <= -n || n <= d * n
  {
    if d > 0 {
      MulNonNegative(d - 1, n);
      assert (d - 1) * n == d * n - n;
    } else {
      MulNonNegative(-d - 1, n);
      assert (-d - 1) * n == -(d * n) - n;
    }
  }

  lemma MulNonNegative(a: int, b: int)
    requires a >= 0 && b >= 0
    ensures a * b >= 0
  {
  }

  /** A mask of k ones takes the remainder by 2^k. */
  lemma {:induction false} AndMask(x: int, k: nat)
    ensures And(x, Pow2(k) - 1) == x % Pow2(k)
    decreases k
  {
    if k == 0 {
      AndZero(x);
    } else {
      hide And, Pow2;
      Pow2Doubles(k - 1);
      if x != 0 && x != -1 { AndMask(x / 2, k - 1); }
      MaskHalves(x, Pow2(k - 1));
      AndStep(x, 2 * Pow2(k - 1) - 1);
    }
  }

  lemma MaskHalves(x: int, p: int)
    requires p > 0
    ensures (2 * p - 1) / 2 == p - 1 && (2 * p - 1) % 2 == 1
    ensures x % (2 * p) == 2 * (x / 2 % p) + x % 2
    ensures x == 0 ==> x % (2 * p) == 0
    ensures x == -1 ==> x % (2 * p) == 2 * p - 1
  {
    ModDouble(x, p);
    if x == -1 {
      ModIs(-1, 2 * p, -1, 2 * p - 1);
    } else if x == 0 {
      ModIs(0, 2 * p, 0, 0);
    }
  }

  lemma AndStep(x: int, y: int)
    ensures And(x, y) == if x == 0 then 0 else if x == -1 then y
                         else 2 * And(x / 2, y / 2) + if x % 2 == 1 && y % 2 == 1 then 1 else 0
  {
  }

  lemma {:induction false} OrZero(x: int)
    ensures Or(x, 0) == x
    decreases Magnitude(x)
  {
    if x != 0 && x != -1 {
      OrZero(x / 2);
    }
  }

  lemma {:induction false} OrOnes(x: int)
    ensures Or(x, -1) == -1
    decreases Magnitude(x)
  {
    if x != 0 && x != -1 {
      OrOnes(x / 2);
    }
  }

  lemma {:induction false} OrSymmetric(x: int, y: int)
    ensures Or(x, y) == Or(y, x)
    decreases Magnitude(x)
  {
    if x == 0 {
      OrZero(y);
    } else if x == -1 {
      OrOnes(y);
    } else if y == 0 {
      OrZero(x);
    } else if y == -1 {
      OrOnes(x);
    } else {
      OrSymmetric(x / 2, y / 2);
    }
  }

  /** Bits that do not overlap are added. */
  lemma {:induction false} OrDisjoint(a: int, b: int, k: nat)
    requires 0 <= b < Pow2(k)
    ensures Or(a * Pow2(k), b) == a * Pow2(k) + b
    decreases k
  {
    if k == 0 {
      OrZero(a);
    } else {
      var p, x := Pow2(k - 1), a * Pow2(k);
      assert x == 2 * (a * p);
      if x != 0 {
        OrDisjoint(a, b / 2, k - 1);
        assert x / 2 == a * p && x % 2 == 0 && x != -1;
      }
    }
  }

  lemma Powers()
    ensures Pow2(8) == 0x100 && Pow2(23) == 0x80_0000 && Pow2(31) == 0x8000_0000
  {
    hide Pow2;
    assert Pow2(8) == 0x100 && Pow2(7) == 0x80 by { SmallPowers(); }
    Pow2Sum(8, 8);
    Pow2Sum(16, 7);
    Pow2Sum(23, 8);
  }

  lemma SmallPowers()
    ensures Pow2(1) == 2 && Pow2(2) == 4 && Pow2(4) == 16 && Pow2(7) == 0x80 && Pow2(8) == 0x100
  {
  }
}
