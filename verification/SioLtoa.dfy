/** The signal-safe number printer (csapp.c): sio_ltoa and the in-place sio_reverse. */
module SioLtoa {
  import opened Numbers

  const LONG_MIN: int := -0x8000_0000_0000_0000
  const LONG_MAX: int := 0x7FFF_FFFF_FFFF_FFFF

  datatype Option<T> = None | Some(value: T)

  predicate IsLong(v: int) { LONG_MIN <= v <= LONG_MAX }

  /** -v in 64 bits. */
  function Negated(v: int): int { if v == LONG_MIN then LONG_MIN else -v }

  /** The remainder and the quotient of C, which truncate toward zero. */
  function Rem(v: int, b: int): int
    requires b > 0
  {
    if v >= 0 then v % b else -(-v % b)
  }

  function Quot(v: int, b: int): int
    requires b > 0
  {
    if v >= 0 then v / b else -(-v / b)
  }

  function DigitChar(c: int): char
    requires -36 < c < 36
  {
    if c < 10 then (c + '0' as int) as char else (c - 10 + 'a' as int) as char
  }

  /** The value of a digit, or -1. */
  function DigitValue(c: char): int {
    if '0' <= c <= '9' then c as int - '0' as int
    else if 'a' <= c <= 'z' then c as int - 'a' as int + 10
    else -1
  }

  lemma RemRange(v: int, b: int)
    requires 2 <= b <= 36
    ensures -36 < Rem(v, b) < 36
  {
  }

  lemma QuotShrinks(v: int, b: int)
    requires 2 <= b && Quot(v, b) > 0
    ensures 0 < Quot(v, b) < v && 2 * Quot(v, b) <= v && v == b * Quot(v, b) + Rem(v, b)
  {
    var q := v / b;
    assert v > 0;
    assert v == b * q + v % b;
    assert b * q >= 2 * q;
  }

  /** The digits in the order the loop finds them, the lowest first. */
  function Digits(v: int, b: int): (s: string)
    requires 2 <= b <= 36
    ensures s != ""
    decreases if v > 0 then v else 0
  {
    RemRange(v, b);
    [DigitChar(Rem(v, b))] + if Quot(v, b) > 0 then QuotShrinks(v, b); Digits(Quot(v, b), b) else ""
  }

  function Reverse(s: string): (r: string)
    ensures |r| == |s|
  {
    if s == "" then "" else Reverse(s[1..]) + [s[0]]
  }

  /** The text sio_ltoa leaves. */
  function Text(v: int, b: int): string
    requires 2 <= b <= 36
  {
    if v < 0 then Reverse(Digits(Negated(v), b) + "-") else Reverse(Digits(v, b))
  }

  // ----- Reading back -----

  predicate Numeral(s: string, b: int) {
    s != "" && forall k | 0 <= k < |s| :: 0 <= DigitValue(s[k]) < b
  }

  /** The value of a numeral, the highest digit first. */
  function Value(s: string, b: int): int {
    if s == "" then 0 else Value(s[..|s| - 1], b) * b + DigitValue(s[|s| - 1])
  }

  function ReadBack(s: string, b: int): Option<int> {
    if s != "" && s[0] == '-' then if Numeral(s[1..], b) then Some(-Value(s[1..], b)) else None
    else if Numeral(s, b) then Some(Value(s, b)) else None
  }

  predicate NoLeadingZero(s: string) {
    var digits := if s != "" && s[0] == '-' then s[1..] else s;
    |digits| > 1 ==> digits[0] != '0'
  }

  lemma DigitBack(c: int, b: int)
    requires 0 <= c < b <= 36
    ensures DigitValue(DigitChar(c)) == c && (DigitChar(c) == '0' <==> c == 0)
    ensures DigitChar(c) != '-' && DigitChar(c) != '\0'
  {
  }

  /** The text of v is that of v / b and one digit more. */
  lemma DigitsStep(v: int, b: int)
    requires 2 <= b <= 36 && v >= 0
    ensures -36 < v % b < 36
    ensures Reverse(Digits(v, b)) == (if v / b > 0 then Reverse(Digits(v / b, b)) else "") + [DigitChar(v % b)]
  {
    RemRange(v, b);
    Plain(v, b);
    hide Rem, Quot, DigitChar;
    var c, q := DigitChar(v % b), v / b;
    if q > 0 {
      assert Digits(v, b) == [c] + Digits(q, b);
      ReverseStep(c, Digits(q, b));
    } else {
      assert Digits(v, b) == [c] + "";
      ReverseStep(c, "");
    }
  }

  lemma Plain(v: int, b: int)
    requires b > 0 && v >= 0
    ensures Rem(v, b) == v % b && Quot(v, b) == v / b
  {
  }

  lemma ReverseStep(c: char, s: string)
    ensures Reverse([c] + s) == Reverse(s) + [c]
  {
    assert ([c] + s)[1..] == s;
  }

  lemma ValueStep(s: string, c: char, b: int)
    requires 0 <= DigitValue(c) < b
    ensures Value(s + [c], b) == Value(s, b) * b + DigitValue(c)
    ensures Numeral(s + [c], b) <==> s == "" || Numeral(s, b)
  {
    hide DigitValue;
    assert (s + [c])[..|s|] == s;
    NumeralStep(s, c, b);
  }

  lemma NumeralStep(s: string, c: char, b: int)
    requires 0 <= DigitValue(c) < b
    ensures Numeral(s + [c], b) <==> s == "" || Numeral(s, b)
  {
    hide DigitValue;
    var t := s + [c];
    if s == "" || Numeral(s, b) {
      forall k | 0 <= k < |t| ensures 0 <= DigitValue(t[k]) < b {
        if k < |s| { assert t[k] == s[k]; }
      }
    } else {
      var k :| 0 <= k < |s| && !(0 <= DigitValue(s[k]) < b);
      assert t[k] == s[k];
    }
  }

  /** The digits of a non-negative number have its value, and the highest is not 0 unless alone. */
  lemma {:induction false} DigitsBack(v: int, b: int)
    requires 2 <= b <= 36 && v >= 0
    ensures var s := Reverse(Digits(v, b)); Numeral(s, b) && Value(s, b) == v && s[0] != '-' && '\0' !in s
    ensures var s := Reverse(Digits(v, b)); if v > 0 then s[0] != '0' else |s| == 1
    decreases v
  {
    hide Digits, Reverse, Numeral, Value, DigitValue, DigitChar;
    DivMod(v, b);
    DigitsStep(v, b);
    DigitBack(v % b, b);
    var c, q := DigitChar(v % b), v / b;
    if q > 0 {
      assert q < v by { QuotShrinks(v, b); }
      DigitsBack(q, b);
      ValueStep(Reverse(Digits(q, b)), c, b);
      FirstStays(Reverse(Digits(q, b)), c);
    } else {
      NoValue(b);
      ValueStep("", c, b);
    }
  }

  lemma DivMod(v: int, b: int)
    requires b > 0
    ensures v == v / b * b + v % b && 0 <= v % b < b
  {
  }

  lemma NoValue(b: int)
    ensures Value("", b) == 0
  {
  }

  lemma FirstStays(s: string, c: char)
    requires s != ""
    ensures (s + [c])[0] == s[0]
  {
  }

  lemma {:induction false} ReverseEnd(s: string, c: char)
    ensures Reverse(s + [c]) == [c] + Reverse(s)
  {
    if s == "" {
      assert [c][1..] == "";
    } else {
      assert (s + [c])[1..] == s[1..] + [c];
      ReverseEnd(s[1..], c);
    }
  }

  lemma LongMinText(b: int)
    requires 2 <= b <= 36
    ensures ReadBack(Text(LONG_MIN, b), b) != Some(LONG_MIN)
  {
    var c := Rem(LONG_MIN, b);
    RemRange(LONG_MIN, b);
    assert -LONG_MIN / b >= 0;
    assert Digits(LONG_MIN, b) == [DigitChar(c)];
    ReverseEnd([DigitChar(c)], '-');
    assert [DigitChar(c)][1..] == "";
    assert Text(LONG_MIN, b)[1..] == [DigitChar(c)];
    if c == 0 {
      ValueStep("", '0', b);
      NoValue(b);
      assert "" + "0" == "0";
    } else {
      assert DigitValue(DigitChar(c)) == -1;
    }
  }

  /** The text read back is the number, for every long but the one whose negation overflows. */
  lemma TextReadsBack(v: int, b: int)
    requires 2 <= b <= 36 && IsLong(v)
    ensures ReadBack(Text(v, b), b) == Some(v) <==> v != LONG_MIN
    ensures v != LONG_MIN ==> NoLeadingZero(Text(v, b))
  {
    hide Digits, Reverse, Numeral, Value;
    if v == LONG_MIN {
      LongMinText(b);
    } else if v < 0 {
      DigitsBack(-v, b);
      ReverseEnd(Digits(-v, b), '-');
      assert Text(v, b)[1..] == Reverse(Digits(-v, b));
    } else {
      DigitsBack(v, b);
    }
  }

  lemma {:induction false} DigitsFit(v: int, b: int, k: nat)
    requires 2 <= b <= 36 && v < Pow2(k)
    ensures |Digits(v, b)| <= if k == 0 then 1 else k
  {
    if Quot(v, b) > 0 {
      QuotShrinks(v, b);
      DigitsFit(Quot(v, b), b, k - 1);
    }
  }

  lemma {:induction false} NoNul(v: int, b: int)
    requires 2 <= b <= 36
    ensures '\0' !in Digits(v, b)
    decreases if v > 0 then v else 0
  {
    RemRange(v, b);
    if Quot(v, b) > 0 {
      QuotShrinks(v, b);
      NoNul(Quot(v, b), b);
    }
  }

  // ----- The code -----

  /** The C string in the array is the text. */
  ghost predicate HasText(a: seq<char>, text: string) {
    |text| < |a| && a[|text|] == '\0' && '\0' !in text && a[..|text|] == text
  }

  lemma {:induction false} ReverseAt(s: string, k: nat)
    requires k < |s|
    ensures Reverse(s)[k] == s[|s| - 1 - k]
  {
    if k < |s| - 1 {
      ReverseAt(s[1..], k);
    }
  }

  method StrLen(s: array<char>, ghost text: string) returns (n: nat)
    requires HasText(s[..], text)
    ensures n == |text|
  {
    n := 0;
    while s[n] != '\0'
      invariant n <= |text|
      decreases |text| - n
    {
      assert s[n] == s[..][n];
      n := n + 1;
    }
  }

  /** sio_reverse. */
  method ReverseInPlace(s: array<char>, ghost text: string)
    requires HasText(s[..], text)
    modifies s
    ensures HasText(s[..], Reverse(text))
  {
    var len := StrLen(s, text);
    var i: int, j: int := 0, len - 1;
    while i < j
      invariant 0 <= i && j == len - 1 - i && i <= j + 1 && s[len] == '\0'
      invariant forall k | 0 <= k < len && (k < i || k > j) :: s[k] == text[len - 1 - k]
      invariant forall k | i <= k <= j :: s[k] == text[k]
    {
      var c := s[i];
      s[i] := s[j];
      s[j] := c;
      i := i + 1;
      j := j - 1;
    }
    forall k | 0 <= k < len ensures s[k] == Reverse(text)[k] && Reverse(text)[k] != '\0' {
      ReverseAt(text, k);
    }
  }

  lemma Pow2Of63()
    ensures Pow2(63) == -LONG_MIN
  {
    hide Pow2;
    Pow2Sum(7, 7);
    Pow2Sum(14, 14);
    Pow2Sum(28, 28);
    Pow2Sum(56, 7);
    assert Pow2(7) == 128 by { Pow2Of7(); }
  }

  lemma Pow2Of7()
    ensures Pow2(7) == 128
  {
  }

  ghost predicate Left(digits: string, front: string, back: string) { digits == front + back }

  lemma FoundOne(digits: string, front: string, w: int, b: int)
    requires 2 <= b <= 36 && Left(digits, front, Digits(w, b)) && -36 < Rem(w, b) < 36
    ensures Left(digits, front + [DigitChar(Rem(w, b))], if Quot(w, b) > 0 then Digits(Quot(w, b), b) else "")
    ensures |front| < |digits| && (Quot(w, b) > 0 ==> 0 < Quot(w, b) < w)
  {
    hide DigitChar, Rem;
    if Quot(w, b) > 0 { QuotShrinks(w, b); }
    hide Quot;
    var c, rest := DigitChar(Rem(w, b)), if Quot(w, b) > 0 then Digits(Quot(w, b), b) else "";
    assert front + ([c] + rest) == (front + [c]) + rest;
  }

  /** The do loop of sio_ltoa. */
  method FindDigits(v: int, s: array<char>, b: int) returns (i: nat)
    requires v <= LONG_MAX && 2 <= b <= 36 && s.Length >= 66
    modifies s
    ensures i <= 63 && s[..i] == Digits(v, b)
  {
    hide Quot, Rem, DigitChar, Digits, Left;
    ghost var digits := Digits(v, b);
    Pow2Of63();
    DigitsFit(v, b, 63);
    hide Pow2;
    var w, more := v, true;
    i := 0;
    LeftNothing(digits, s[..0]);
    assert s[..0] == "";
    while more
      invariant i <= 63 && Left(digits, s[..i], if more then Digits(w, b) else "")
      decreases more, w
    {
      RemRange(w, b);
      FoundOne(digits, s[..i], w, b);
      ghost var before, c := s[..i], DigitChar(Rem(w, b));
      s[i] := DigitChar(Rem(w, b));
      i := i + 1;
      assert s[..i] == before + [c];
      w := Quot(w, b);
      more := w > 0;
    }
    LeftNothing(digits, s[..i]);
  }

  lemma LeftNothing(digits: string, front: string)
    ensures Left(digits, front, "") <==> digits == front
    ensures Left(digits, "", digits)
  {
  }

  /** sio_ltoa: s becomes the text of v. */
  method Ltoa(v: int, s: array<char>, b: int)
    requires IsLong(v) && 2 <= b <= 36 && s.Length >= 66
    modifies s
    ensures HasText(s[..], Text(v, b))
  {
    hide Digits, Reverse;
    var w := v;
    var neg := v < 0;
    if neg {
      w := Negated(w);
    }
    var i := FindDigits(w, s, b);
    NoNul(w, b);
    if neg {
      s[i] := '-';
      i := i + 1;
      assert s[..i] == Digits(w, b) + "-";
    }
    ghost var found := s[..i];
    s[i] := '\0';
    assert s[..i] == found;
    ReverseInPlace(s, found);
  }
}
