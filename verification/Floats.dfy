/** The floating-point puzzles of bits.c, against the meaning of single-precision encodings
    (section 3.4 of IEEE 754-2008). */
module Floats {
  import opened Numbers
  import opened Bitwise

  const FRACTIONS: int := 0x80_0000
  const SIGNS: int := 0x8000_0000

  // ----- What an encoding means -----

  function SignBit(uf: int): int { uf / SIGNS }

  function Exp(uf: int): int { uf / FRACTIONS % 256 }

  function Frac(uf: int): int { uf % FRACTIONS }

  /** A finite number is mag / 2^149, with a sign. */
  datatype Float = NaN | Infinite(neg: bool) | Finite(neg: bool, mag: nat)

  function Normal(e: nat, m: nat): nat
    requires e > 0
  {
    m * Pow2(e - 1)
  }

  function Decode(uf: int): Float
    requires IsUnsigned(uf)
  {
    var neg, e, f := SignBit(uf) == 1, Exp(uf), Frac(uf);
    if e == 255 then (if f == 0 then Infinite(neg) else NaN)
    else if e == 0 then Finite(neg, f)
    else Finite(neg, Normal(e, FRACTIONS + f))
  }

  /** Twice the number; what is beyond the largest finite number becomes infinite. */
  function Doubled(x: Float): Float {
    match x
    case NaN => NaN
    case Infinite(neg) => Infinite(neg)
    case Finite(neg, mag) => if 2 * mag >= Pow2(277) then Infinite(neg) else Finite(neg, 2 * mag)
  }

  /** The number cut to an integer, or INT_MIN if there is none in range. */
  function Truncated(x: Float): int {
    match x
    case NaN => INT_MIN
    case Infinite(_) => INT_MIN
    case Finite(neg, mag) =>
      var t := mag / Pow2(149);
      var v := if neg then -t else t;
      if IsInt(v) then v else INT_MIN
  }

  function PowerOfTwo(x: int): Float {
    if x < -149 then Finite(false, 0) else if x < 128 then Finite(false, Pow2(x + 149)) else Infinite(false)
  }

  // ----- Taking encodings apart and putting them together -----

  function Pack(s: int, e: int, f: int): int { s * SIGNS + e * FRACTIONS + f }

  lemma PackFields(s: int, e: int, f: int)
    requires 0 <= s <= 1 && 0 <= e < 256 && 0 <= f < FRACTIONS
    ensures IsUnsigned(Pack(s, e, f))
    ensures SignBit(Pack(s, e, f)) == s && Exp(Pack(s, e, f)) == e && Frac(Pack(s, e, f)) == f
  {
  }

  lemma FieldsPack(uf: int)
    requires IsUnsigned(uf)
    ensures 0 <= SignBit(uf) <= 1 && 0 <= Exp(uf) < 256 && 0 <= Frac(uf) < FRACTIONS
    ensures uf == Pack(SignBit(uf), Exp(uf), Frac(uf))
  {
  }

  /** The shifts and masks of the code take out the three fields. */
  lemma FieldsByMask(uf: int)
    requires IsUnsigned(uf)
    ensures And(Shr(uf, 31), 1) == SignBit(uf) && And(Shr(uf, 23), 0xff) == Exp(uf) && And(uf, 0x7f_ffff) == Frac(uf)
  {
    Powers();
    FieldsPack(uf);
    hide Pow2, And;
    assert Pow2(1) == 2 by { SmallPowers(); }
    AndMask(Shr(uf, 31), 1);
    AndMask(Shr(uf, 23), 8);
    AndMask(uf, 23);
  }

  /** Shifting the fields to their places and joining the bits packs them. */
  lemma PackByOr(s: int, e: int, f: int)
    requires 0 <= s <= 1 && 0 <= e < 256 && 0 <= f < FRACTIONS
    ensures Or(Or(Shl(s, 31), Shl(e, 23)), f) == Pack(s, e, f)
  {
    Powers();
    hide Pow2, Or;
    OrDisjoint(s, e * FRACTIONS, 31);
    OrDisjoint(s * 256 + e, f, 23);
  }

  // ----- floatScale2 -----

  function Scale2(uf: int): int {
    var s, e, f := SignBit(uf), Exp(uf), Frac(uf);
    if e == 255 || (e == 0 && f == 0) then uf
    else if e == 0 then Pack(s, 0, 2 * f)
    else Pack(s, e + 1, f)
  }

  method FloatScale2(uf: int) returns (r: int)
    requires IsUnsigned(uf)
    ensures r == Scale2(uf) && IsUnsigned(r)
  {
    hide And, Or, Shr, SignBit, Exp, Frac;
    FieldsByMask(uf);
    FieldsPack(uf);
    var sign, exp, frac := And(Shr(uf, 31), 1), And(Shr(uf, 23), 0xff), And(uf, 0x7f_ffff);
    if exp == 0 && frac == 0 {
      return uf;
    }
    if exp == 0xff {
      return uf;
    }
    Powers();
    if exp == 0 {
      frac := ToUnsigned(Shl(frac, 1));
      assert Pow2(1) == 2;
      OrDisjoint(sign, frac, 31);
      return Or(ToUnsigned(Shl(sign, 31)), frac);
    }
    exp := exp + 1;
    PackByOr(sign, exp, frac);
    r := Or(Or(ToUnsigned(Shl(sign, 31)), ToUnsigned(Shl(exp, 23))), frac);
  }

  lemma ScaleDenormal(s: int, f: int)
    requires 0 <= s <= 1 && 0 < f < FRACTIONS
    ensures IsUnsigned(Pack(s, 0, f)) && IsUnsigned(Pack(s, 0, 2 * f))
    ensures Decode(Pack(s, 0, f)) == Finite(s == 1, f) && Decode(Pack(s, 0, 2 * f)) == Finite(s == 1, 2 * f)
  {
    PackFields(s, 0, f);
    if 2 * f < FRACTIONS {
      PackFields(s, 0, 2 * f);
    } else {
      PackFields(s, 1, 2 * f - FRACTIONS);
      assert Pow2(0) == 1;
    }
  }

  /** The magnitudes of normal numbers lie between two powers of two. */
  lemma NormalRange(e: nat, f: int)
    requires 0 < e && 0 <= f < FRACTIONS
    ensures Pow2(e + 22) <= Normal(e, FRACTIONS + f) < Pow2(e + 23)
  {
    Powers();
    var p := Pow2(e - 1);
    Pow2Sum(23, e - 1);
    assert Pow2(e + 23) == 2 * Pow2(e + 22);
    assert (FRACTIONS + f) * p == FRACTIONS * p + f * p;
    MulBelow(f, FRACTIONS, p);
  }

  lemma MulBelow(f: int, n: int, p: int)
    requires 0 <= f < n && p > 0
    ensures 0 <= f * p < n * p
  {
  }

  lemma ScaleNormal(s: int, e: int, f: int)
    requires 0 <= s <= 1 && 0 < e < 254 && 0 <= f < FRACTIONS
    ensures IsUnsigned(Pack(s, e, f)) && IsUnsigned(Pack(s, e + 1, f))
    ensures Decode(Pack(s, e + 1, f)) == Doubled(Decode(Pack(s, e, f)))
  {
    hide Pow2, Normal;
    PackFields(s, e, f);
    PackFields(s, e + 1, f);
    NormalRange(e + 1, f);
    Pow2Grows(e + 24, 277);
    DoubleMagnitude(e, FRACTIONS + f);
  }

  lemma DoubleMagnitude(e: nat, m: nat)
    requires 0 < e
    ensures Normal(e + 1, m) == 2 * Normal(e, m)
  {
  }

  lemma ScaleHuge(s: int, f: int)
    requires 0 <= s <= 1 && 0 <= f < FRACTIONS
    ensures IsUnsigned(Pack(s, 254, f)) && IsUnsigned(Pack(s, 255, f))
    ensures Doubled(Decode(Pack(s, 254, f))) == Infinite(s == 1)
    ensures Decode(Pack(s, 255, f)) == if f == 0 then Infinite(s == 1) else NaN
  {
    hide Pow2, Normal;
    PackFields(s, 254, f);
    PackFields(s, 255, f);
    NormalRange(254, f);
    Pow2Doubles(276);
  }

  /** floatScale2 doubles the number, or gives the infinity on overflow, unless the exponent field
      is 254 and the fraction is not 0: then it returns a NaN. */
  lemma Scale2Doubles(uf: int)
    requires IsUnsigned(uf)
    ensures IsUnsigned(Scale2(uf))
    ensures Decode(Scale2(uf)) == Doubled(Decode(uf)) <==> !(Exp(uf) == 254 && Frac(uf) != 0)
    ensures Decode(uf).NaN? ==> Scale2(uf) == uf
  {
    hide Pow2, Normal;
    FieldsPack(uf);
    var s, e, f := SignBit(uf), Exp(uf), Frac(uf);
    PackFields(s, e, f);
    if e == 0 {
      if f != 0 { ScaleDenormal(s, f); }
      Pow2Grows(24, 277);
      Pow2Doubles(23);
      Powers();
    } else if e < 254 {
      ScaleNormal(s, e, f);
    } else if e == 254 {
      ScaleHuge(s, f);
    }
  }

  /** A finite number just above 2^127 is turned into a NaN. */
  lemma Scale2OfHugeIsNaN()
    ensures Decode(Scale2(0x7f00_0001)).NaN? && Doubled(Decode(0x7f00_0001)) == Infinite(false)
  {
    assert Pack(0, 254, 1) == 0x7f00_0001;
    PackFields(0, 254, 1);
    ScaleHuge(0, 1);
  }

  // ----- floatFloat2Int -----

  function TruncBits(uf: int): int {
    var s, e, f := SignBit(uf), Exp(uf), Frac(uf);
    if e == 255 || e > 158 then INT_MIN
    else if e < 127 then 0
    else
      var t := if e >= 150 then (FRACTIONS + f) * Pow2(e - 150) else (FRACTIONS + f) / Pow2(150 - e);
      ToInt(if s == 1 then -t else t)
  }

  lemma ShiftedFits(e: int, f: int)
    requires 150 <= e <= 158 && 0 <= f < FRACTIONS
    ensures 0 <= (FRACTIONS + f) * Pow2(e - 150) < 0x1_0000_0000
  {
    Powers();
    Pow2Grows(e - 150, 8);
    var p := Pow2(e - 150);
    MulBelow(p, 0x101, FRACTIONS + f);
    MulBelow(FRACTIONS + f, 2 * FRACTIONS, p);
    assert 2 * FRACTIONS * p <= 2 * FRACTIONS * 0x100;
  }

  method FloatFloat2Int(uf: int) returns (r: int)
    requires IsUnsigned(uf)
    ensures r == TruncBits(uf)
  {
    hide And, Or, Shr;
    FieldsByMask(uf);
    FieldsPack(uf);
    var sign, exp, frac := And(Shr(uf, 31), 1), And(Shr(uf, 23), 0xff), And(uf, 0x7f_ffff);
    if exp == 0xff {
      return ToInt(0x8000_0000);
    }
    if exp == 0 && frac == 0 {
      return 0;
    }
    if exp == 0 {
      return 0;
    }
    var e := exp - 127;
    frac := WithHiddenOne(frac);
    if e > 31 {
      return ToInt(0x8000_0000);
    } else if e < 0 {
      return 0;
    }
    r := ShiftToInt(sign, e, frac);
  }

  /** The end of floatFloat2Int: the point is moved to the right place. */
  method ShiftToInt(sign: int, e: int, frac0: int) returns (r: int)
    requires 0 <= sign <= 1 && 0 <= e <= 31 && FRACTIONS <= frac0 < 2 * FRACTIONS
    ensures var t := if e >= 23 then frac0 * Pow2(e - 23) else frac0 / Pow2(23 - e);
      r == ToInt(if sign == 1 then -t else t)
  {
    hide Pow2, ToInt;
    var frac := frac0;
    if e >= 23 {
      ShiftedFits(e + 127, frac - FRACTIONS);
      frac := ToUnsigned(Shl(frac, e - 23));
    } else {
      frac := Shr(frac, 23 - e);
    }
    if sign != 0 {
      NegateByComplement(frac);
      return ToInt(ToUnsigned(ToUnsigned(Complement(frac)) + 1));
    }
    r := ToInt(frac);
  }

  lemma NegateByComplement(x: int)
    ensures ToInt(ToUnsigned(ToUnsigned(Complement(x)) + 1)) == ToInt(-x)
  {
    var n := 0x1_0000_0000;
    var q, r := (-x - 1) / n, (-x - 1) % n;
    assert -x == q * n + (r + 1);
    if r + 1 < n {
      ModIs(-x, n, q, r + 1);
    } else {
      ModIs(-x, n, q + 1, 0);
    }
  }

  /** A fraction with the hidden bit of a normal number in front. */
  method WithHiddenOne(frac: int) returns (r: int)
    requires 0 <= frac < FRACTIONS
    ensures r == FRACTIONS + frac
  {
    Powers();
    OrDisjoint(1, frac, 23);
    OrSymmetric(frac, Shl(1, 23));
    r := Or(frac, Shl(1, 23));
  }

  /** The integer part of a normal number. */
  lemma IntegerPart(e: nat, m: nat)
    requires 0 < e
    ensures Normal(e, m) / Pow2(149) == if e >= 150 then m * Pow2(e - 150) else m / Pow2(150 - e)
  {
    hide Pow2;
    if e >= 150 {
      Pow2Sum(e - 150, 149);
      Exact(m, Pow2(e - 150), Pow2(149));
    } else {
      Pow2Sum(150 - e, e - 1);
      CancelRight(m, Pow2(150 - e), Pow2(e - 1));
    }
  }

  lemma Exact(m: int, a: int, p: int)
    requires p > 0
    ensures (m * (a * p)) / p == m * a
  {
    assert m * (a * p) == (m * a) * p + 0;
    ModIs(m * (a * p), p, m * a, 0);
  }

  lemma CancelRight(a: int, q: int, p: int)
    requires a >= 0 && q > 0 && p > 0
    ensures q * p > 0 && (a * p) / (q * p) == a / q
  {
    var d, r := a / q, a % q;
    assert a == d * q + r;
    assert a * p == d * (q * p) + r * p by {
      assert (d * q + r) * p == d * q * p + r * p;
      assert d * q * p == d * (q * p);
    }
    MulBelow(r, q, p);
    ModIs(a * p, q * p, d, r * p);
  }

  /** The integer part of m * 2^(e - 150). */
  function Whole(e: nat, m: int): int {
    if e >= 150 then m * Pow2(e - 150) else m / Pow2(150 - e)
  }

  lemma SmallTruncates(e: nat, m: int)
    requires 0 < e < 127 && 0 <= m < 2 * FRACTIONS
    ensures Whole(e, m) == 0
  {
    Pow2Grows(24, 150 - e);
    assert Pow2(24) == 2 * FRACTIONS by { Powers(); }
    hide Pow2;
    QuotSmall(m, Pow2(150 - e));
  }

  lemma QuotSmall(m: int, p: int)
    requires 0 <= m && 0 < p
    ensures 0 <= m / p <= m && (m < p ==> m / p == 0)
  {
    var q, r := m / p, m % p;
    assert m == q * p + r && 0 <= r;
    MulAtLeast(q, p);
  }

  lemma MulAtLeast(q: int, p: int)
    requires p > 0
    ensures q >= 0 ==> q * p >= q
    ensures q > 0 ==> q * p >= p
    ensures q < 0 ==> q * p <= -p
  {
    if q > 0 {
      MulBelow(0, q, p);
      MulBelow(q - 1, q, p);
      assert q * p == (q - 1) * p + p && q * p == q * (p - 1) + q;
    }
  }

  lemma LargeOverflows(e: nat, m: int)
    requires e > 158 && FRACTIONS <= m
    ensures Whole(e, m) >= 0x1_0000_0000
  {
    Powers();
    Pow2Grows(9, e - 150);
    assert Pow2(9) == 2 * Pow2(8);
    hide Pow2;
    var p := Pow2(e - 150);
    MulBelow(0x1ff, p, m);
    assert m * p >= m * 0x200;
  }

  function InRange(v: int): int { if IsInt(v) then v else INT_MIN }

  function Signed(s: int, t: int): int { if s == 1 then -t else t }

  lemma TruncEdge(s: int, f: int)
    requires 0 <= s <= 1 && 0 <= f < FRACTIONS
    ensures ToInt(Signed(s, Whole(158, FRACTIONS + f))) == InRange(Signed(s, Whole(158, FRACTIONS + f))) <==> f == 0
  {
    assert Pow2(8) == 256 by { Powers(); }
  }

  lemma NormalParts(s: int, e: nat, f: int)
    requires 0 <= s <= 1 && 0 < e < 255 && 0 <= f < FRACTIONS
    ensures IsUnsigned(Pack(s, e, f))
    ensures Truncated(Decode(Pack(s, e, f))) == InRange(Signed(s, Whole(e, FRACTIONS + f)))
    ensures TruncBits(Pack(s, e, f)) ==
            if e > 158 then INT_MIN else if e < 127 then 0 else ToInt(Signed(s, Whole(e, FRACTIONS + f)))
  {
    hide Pow2, Normal;
    PackFields(s, e, f);
    IntegerPart(e, FRACTIONS + f);
  }

  lemma TruncNormal(s: int, e: int, f: int)
    requires 0 <= s <= 1 && 0 < e < 255 && 0 <= f < FRACTIONS
    ensures IsUnsigned(Pack(s, e, f))
    ensures TruncBits(Pack(s, e, f)) == Truncated(Decode(Pack(s, e, f))) <==> !(e == 158 && f != 0)
  {
    hide Pow2, Pack, TruncBits, Truncated, Decode, Whole, Signed, InRange;
    NormalParts(s, e, f);
    var m := FRACTIONS + f;
    if e < 127 {
      SmallTruncates(e, m);
    } else if e > 158 {
      LargeOverflows(e, m);
    } else if e == 158 {
      TruncEdge(s, f);
    } else {
      TruncMiddle(e, m);
    }
    TruncCases(s, e, f);
  }

  lemma TruncCases(s: int, e: int, f: int)
    requires 0 <= s <= 1 && e >= 0
    requires var t := Whole(e, FRACTIONS + f);
      if e < 127 then t == 0 else if e > 158 then t >= 0x1_0000_0000 else e < 158 ==> 0 <= t < 0x8000_0000
    ensures var v := InRange(Signed(s, Whole(e, FRACTIONS + f)));
      if e < 127 then v == 0 else if e > 158 then v == INT_MIN
      else e < 158 ==> v == ToInt(Signed(s, Whole(e, FRACTIONS + f)))
  {
    hide Whole;
  }

  lemma TruncMiddle(e: int, m: int)
    requires 127 <= e < 158 && FRACTIONS <= m < 2 * FRACTIONS
    ensures 0 <= Whole(e, m) < 0x8000_0000
  {
    hide Pow2;
    if e >= 150 {
      assert Pow2(7) == 0x80 by { SmallPowers(); }
      Pow2Grows(e - 150, 7);
      MulBelow(m, 2 * FRACTIONS, Pow2(e - 150));
    } else {
      QuotSmall(m, Pow2(150 - e));
    }
  }

  /** floatFloat2Int cuts the number to an integer, or gives INT_MIN if that is out of range, unless
      the unbiased exponent is 31 and the fraction is not 0: then the shifted bits wrap around. */
  lemma TruncBitsTruncates(uf: int)
    requires IsUnsigned(uf)
    ensures TruncBits(uf) == Truncated(Decode(uf)) <==> !(Exp(uf) - 127 == 31 && Frac(uf) != 0)
  {
    hide TruncBits, Truncated, Decode;
    FieldsPack(uf);
    var s, e, f := SignBit(uf), Exp(uf), Frac(uf);
    if 0 < e < 255 {
      TruncNormal(s, e, f);
    } else {
      TruncRest(uf);
    }
  }

  lemma TruncRest(uf: int)
    requires IsUnsigned(uf) && (Exp(uf) == 0 || Exp(uf) == 255)
    ensures TruncBits(uf) == Truncated(Decode(uf))
  {
    hide Pow2;
    if Exp(uf) == 0 {
      Powers();
      Pow2Grows(23, 149);
      FieldsPack(uf);
      assert Frac(uf) / Pow2(149) == 0;
    }
  }

  /** A number just above 2^31, out of range, is given a value that is not INT_MIN. */
  lemma TruncBitsOfEdge()
    ensures TruncBits(0x4f00_0001) == -0x7fff_ff00 && Truncated(Decode(0x4f00_0001)) == INT_MIN
  {
    assert Pack(0, 158, 1) == 0x4f00_0001;
    NormalParts(0, 158, 1);
    hide Truncated, Decode, TruncBits;
    assert Pow2(8) == 256 by { Powers(); }
    hide Pow2;
  }

  // ----- floatPower2 -----

  lemma NoFraction(e: nat)
    requires 0 < e < 255
    ensures IsUnsigned(e * FRACTIONS) && Decode(e * FRACTIONS) == Finite(false, Pow2(e + 22))
  {
    Powers();
    PackFields(0, e, 0);
    Pow2Sum(23, e - 1);
  }

  lemma Denormal(k: nat)
    requires k < 23
    ensures IsUnsigned(Pow2(k)) && Decode(Pow2(k)) == Finite(false, Pow2(k))
  {
    Powers();
    assert Pow2(k + 1) == 2 * Pow2(k);
    Pow2Grows(k + 1, 23);
    hide Pow2;
    PackFields(0, 0, Pow2(k));
  }

  /** floatPower2: the encoding of 2^x, for every int x. */
  method FloatPower2(x: int) returns (r: int)
    requires IsInt(x)
    ensures IsUnsigned(r) && Decode(r) == PowerOfTwo(x)
    ensures x < -149 ==> r == 0
  {
    Powers();
    if x < -149 {
      return 0;
    } else if x < -126 {
      Denormal(x + 149);
      return Shl(1, 23 - (-x - 126));
    } else if x < 128 {
      var expr := x + 127;
      NoFraction(expr);
      return Shl(expr, 23);
    } else {
      PackFields(0, 255, 0);
      return Shl(0xff, 23);
    }
  }
}
