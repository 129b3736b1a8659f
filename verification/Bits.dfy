/** The bit-level puzzles of bits.c that compute something arithmetic, and their meaning. */
module Bits {
  import opened Numbers
  import opened Bitwise

  // ----- isLessOrEqual -----

  function IsLessOrEqual(x: int, y: int): int {
    And(Not(And(Not(Shr(x, 31)), Shr(y, 31))),
        Or(Or(And(Shr(x, 31), Not(Shr(y, 31))), Shr(ToInt(ToInt(x + Complement(y)) + 1), 31)), Not(Xor(x, y))))
  }

  lemma SignOf(x: int)
    requires IsInt(x)
    ensures Shr(x, 31) == if x < 0 then -1 else 0
  {
    Powers();
  }

  /** How the signs of x, y and x - y and the equality test are combined. */
  lemma Decide(sx: int, sy: int, sd: int, eq: int)
    requires sx == 0 || sx == -1
    requires sy == 0 || sy == -1
    requires sd == 0 || sd == -1
    requires eq == 0 || eq == 1
    ensures And(Not(And(Not(sx), sy)), Or(Or(And(sx, Not(sy)), sd), eq)) ==
            if sx < sy then 1 else if sx > sy then 0 else if sd < 0 || eq == 1 then 1 else 0
  {
    var left := Not(And(Not(sx), sy));
    assert left == if sx == 0 && sy == -1 then 0 else 1;
    var right := Or(Or(And(sx, Not(sy)), sd), eq);
    assert And(sx, Not(sy)) == if sx == -1 && sy == 0 then 1 else 0;
    assert right == if sd == -1 then -1 else if (sx == -1 && sy == 0) || eq == 1 then 1 else 0;
  }

  lemma Difference(x: int, y: int)
    requires IsInt(x) && IsInt(y) && (x < 0 <==> y < 0)
    ensures ToInt(ToInt(x + Complement(y)) + 1) == x - y
  {
  }

  lemma SignOfDifference(x: int, y: int)
    requires IsInt(x) && IsInt(y)
    ensures var sd := Shr(ToInt(ToInt(x + Complement(y)) + 1), 31);
      (sd == 0 || sd == -1) && ((x < 0 <==> y < 0) ==> sd == if x < y then -1 else 0)
  {
    var d := ToInt(ToInt(x + Complement(y)) + 1);
    SignOf(d);
    hide Shr;
    if x < 0 <==> y < 0 { Difference(x, y); }
  }

  lemma IsLessOrEqualCompares(x: int, y: int)
    requires IsInt(x) && IsInt(y)
    ensures IsLessOrEqual(x, y) == if x <= y then 1 else 0
  {
    hide Shr, Xor, And, Or, ToInt, Complement;
    SignOf(x);
    SignOf(y);
    XorZero(x, y);
    SignOfDifference(x, y);
    Decide(Shr(x, 31), Shr(y, 31), Shr(ToInt(ToInt(x + Complement(y)) + 1), 31), Not(Xor(x, y)));
  }

  // ----- howManyBits -----

  /** x fits into n bits, in two's complement. */
  predicate Fits(x: int, n: nat) {
    n > 0 && -(Pow2(n - 1) as int) <= x < Pow2(n - 1)
  }

  ghost predicate LeastWidth(x: int, n: nat) {
    Fits(x, n) && forall m: nat | m < n :: !Fits(x, m)
  }

  /** x is what is left of y after a shift by a. */
  ghost predicate Shifted(y: int, x: int, a: nat) {
    0 <= y - x * Pow2(a) < Pow2(a)
  }

  lemma ShiftedMore(y: int, x: int, a: nat, k: nat)
    requires Shifted(y, x, a)
    ensures Shifted(y, Shr(x, k), a + k)
  {
    Pow2Sum(a, k);
    assert x == x / Pow2(k) * Pow2(k) + x % Pow2(k);
    ScaleUp(y, x, Pow2(a), Pow2(k), x / Pow2(k), x % Pow2(k));
  }

  lemma ScaleUp(y: int, x: int, n: int, p: int, q: int, r: int)
    requires n > 0 && x == q * p + r && 0 <= r < p && 0 <= y - x * n < n
    ensures 0 <= y - q * (n * p) < n * p
  {
    assert x * n == q * (n * p) + r * n by {
      assert (q * p + r) * n == q * p * n + r * n;
      assert q * p * n == q * (n * p);
    }
    MulBetween(r, p, n);
  }

  lemma MulBetween(r: int, p: int, n: int)
    requires n > 0 && 0 <= r < p
    ensures 0 <= r * n <= n * p - n
  {
    MulNonNegative(p - 1 - r, n);
    MulNonNegative(r, n);
    assert (p - 1 - r) * n == p * n - n - r * n;
  }

  /** One round of the search: if anything is left above k bits, they are shifted out. */
  lemma Halved(y: int, x: int, a: nat, k: nat)
    requires Shifted(y, x, a) && 0 <= x < Pow2(2 * k)
    ensures var b := if Shr(x, k) != 0 then k else 0;
      Shifted(y, Shr(x, b), a + b) && 0 <= Shr(x, b) < Pow2(k) && (x > 0 ==> Shr(x, b) > 0)
  {
    Pow2Sum(k, k);
    ShiftedMore(y, x, a, k);
    ShiftedMore(y, x, a, 0);
    ShrBelow(x, Pow2(k));
  }

  lemma ShrBelow(x: int, p: int)
    requires p > 0 && 0 <= x < p * p
    ensures 0 <= x / p < p && (x / p == 0 ==> x < p)
  {
  }

  /** The number of bits of y, without a sign. */
  ghost predicate BitLength(y: int, n: nat) {
    0 <= y < Pow2(n) && (n > 0 ==> Pow2(n - 1) <= y)
  }

  /** A sign bit in front makes it the least width of x, where y is x or its complement. */
  lemma WidthFromLength(x: int, y: int, n: nat)
    requires BitLength(y, n) && (y == x || y == Complement(x))
    ensures LeastWidth(x, n + 1)
  {
    forall m: nat | m < n + 1 ensures !Fits(x, m) {
      if m > 0 {
        Pow2Grows(m - 1, n - 1);
      }
    }
  }

  lemma Folded(x: int)
    requires IsInt(x)
    ensures var sign := Shr(x, 31);
      Or(And(sign, Complement(x)), And(Complement(sign), x)) == if x < 0 then Complement(x) else x
  {
    SignOf(x);
    OrZero(Complement(x));
  }

  /** Negated, the difference of the normalised value from 1 tells whether b has any bit. */
  lemma AnyBit(b: int)
    ensures Not(Xor(Not(Not(b)), 1)) == if b != 0 then 1 else 0
  {
  }

  /** One round of the search: if x has a bit above the lowest k, which is 2 to the e, it is
      shifted by k. */
  method ShiftOut(x: int, k: nat, e: nat, ghost y: int, ghost a: nat) returns (bit: nat, rest: int)
    requires k == Pow2(e) && Shifted(y, x, a) && 0 <= x < Pow2(2 * k)
    ensures Shifted(y, rest, a + bit) && 0 <= rest < Pow2(k)
    ensures if x == 0 then rest == 0 && bit == 0 else rest > 0
  {
    AnyBit(Shr(x, k));
    Halved(y, x, a, k);
    var b := Shl(Not(Xor(Not(Not(Shr(x, k))), 1)), e);
    assert b == if Shr(x, k) != 0 then k else 0;
    bit := b;
    rest := Shr(x, bit);
  }

  lemma SearchStarts(x: int)
    requires 0 <= x < 0x8000_0000
    ensures Shifted(x, x, 0) && x < Pow2(32)
    ensures Pow2(4) == 16 && Pow2(3) == 8 && Pow2(2) == 4 && Pow2(1) == 2
  {
    Powers();
    assert Pow2(32) == 2 * Pow2(31);
    SmallPowers();
  }

  /** The last round: if x has its second bit, it is shifted by 1. */
  method LastShift(x: int, ghost y: int, ghost a: nat) returns (bit: nat, rest: int)
    requires Shifted(y, x, a) && 0 <= x < Pow2(2)
    ensures Shifted(y, rest, a + bit) && 0 <= rest <= 1
    ensures if x == 0 then rest == 0 && bit == 0 else rest > 0
  {
    SmallPowers();
    Halved(y, x, a, 1);
    bit := Not(Not(Shr(x, 1)));
    rest := Shr(x, bit);
  }

  lemma WidthFromSearch(y: int, x: int, t: nat)
    requires Shifted(y, x, t) && 0 <= x <= 1 && y >= 0 && (if y == 0 then x == 0 && t == 0 else x > 0)
    ensures BitLength(y, t + x)
  {
  }

  /** The mask keeps the result unless the last bit is 0. */
  lemma Masked(bit: int, result: int)
    requires bit == 0 || bit == 1
    ensures Or(Not(bit), And(Shr(ToInt(Shl(Not(Not(bit)), 31)), 31), result)) == if bit == 0 then 1 else result
  {
    Powers();
    assert Shr(ToInt(Shl(Not(Not(bit)), 31)), 31) == -bit;
  }

  /** howManyBits: the least n with -2^(n-1) <= x < 2^(n-1). */
  method HowManyBits(x0: int) returns (n: nat)
    requires IsInt(x0)
    ensures LeastWidth(x0, n)
  {
    hide Shr, Shl, And, Or, Xor, Pow2, Shifted, LeastWidth, BitLength;
    var sign := Shr(x0, 31);
    var x := Or(And(sign, Complement(x0)), And(Complement(sign), x0));
    Folded(x0);
    ghost var y := x;
    SearchStarts(x);
    var bit16, bit8, bit4, bit2, bit1, bit0;
    bit16, x := ShiftOut(x, 16, 4, y, 0);
    bit8, x := ShiftOut(x, 8, 3, y, bit16);
    bit4, x := ShiftOut(x, 4, 2, y, bit16 + bit8);
    bit2, x := ShiftOut(x, 2, 1, y, bit16 + bit8 + bit4);
    bit1, x := LastShift(x, y, bit16 + bit8 + bit4 + bit2);
    bit0 := x;
    WidthFromSearch(y, x, bit16 + bit8 + bit4 + bit2 + bit1);
    WidthFromLength(x0, y, bit16 + bit8 + bit4 + bit2 + bit1 + bit0);
    var mask := Shr(ToInt(Shl(Not(Not(x)), 31)), 31);
    var result := 1 + bit0 + bit1 + bit2 + bit4 + bit8 + bit16;
    Masked(x, result);
    n := Or(Not(x), And(mask, result));
  }

  /** The counting loop of tests.c. */
  method CountBits(x0: int) returns (n: nat)
    requires IsInt(x0)
    ensures LeastWidth(x0, n)
  {
    var x := if x0 < 0 then -x0 - 1 else x0;
    ghost var y := x;
    var a, cnt := x, 0;
    while a != 0
      invariant a >= 0 && Shifted(y, a, cnt) && (a == 0 ==> BitLength(y, cnt))
      decreases a
    {
      ShiftedMore(y, a, cnt, 1);
      a := a / 2;
      cnt := cnt + 1;
    }
    WidthFromLength(x0, y, cnt);
    n := cnt + 1;
  }

  lemma {:induction false} WidthUnique(x: int, m: nat, n: nat)
    requires LeastWidth(x, m) && LeastWidth(x, n)
    ensures m == n
  {
  }
}
