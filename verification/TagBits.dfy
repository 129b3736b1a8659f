/** The tag arithmetic of the allocators, which the models write with remainders, in the bit operators
    the C code uses. */
module TagBits {
  import opened Memory
  import opened Allocator
  import opened Bitwise
  import opened Numbers

  lemma {:induction false} AndAll(x: int)
    ensures And(x, -1) == x
    decreases Magnitude(x)
  {
    if x != 0 && x != -1 {
      AndAll(x / 2);
    }
  }

  lemma AndHalves(x: int, y: int)
    ensures And(x, 2 * y) == 2 * And(x / 2, y)
  {
    if x == 0 || x == -1 {
      assert And(x / 2, y) == if x == 0 then 0 else y;
    }
  }

  /** Masking with ~7 clears the last three bits. */
  lemma HighBits(w: int)
    ensures And(w, Complement(7)) == w - w % 8
  {
    hide And;
    AndHalves(w, -4);
    AndHalves(w / 2, -2);
    AndHalves(w / 2 / 2, -1);
    AndAll(w / 2 / 2 / 2);
    ThreeHalves(w);
  }

  lemma ThreeHalves(w: int)
    ensures 8 * (w / 2 / 2 / 2) == w - w % 8
  {
    var a, b := w / 2, w / 2 / 2;
    ModIs(w, 8, b / 2, 4 * (b % 2) + 2 * (a % 2) + w % 2);
  }

  lemma LowBit(w: int)
    ensures And(w, 1) == w % 2
  {
    AndMask(w, 1);
  }

  lemma OrZero(x: int)
    ensures Or(x, 0) == x
    decreases Magnitude(x)
  {
    if x != 0 && x != -1 {
      OrZero(x / 2);
    }
  }

  lemma OrLowBit(x: int, b: int)
    requires 0 <= b <= 1 && x >= 0
    ensures Or(x, b) == if x % 2 == 1 then x else x + b
  {
    OrZero(x / 2);
  }

  /** unpack_size, unpack_alloc and pack. */
  lemma TagsAreBits(w: int, size: Word, alloc: Word)
    requires alloc <= 1
    ensures UnpackSize(w) == And(w, Complement(7))
    ensures UnpackAlloc(w) == And(w, 1)
    ensures Pack(size, alloc) == Or(size, alloc)
  {
    hide And, Or;
    HighBits(w);
    LowBit(w);
    LastOfThree(w);
    OrLowBit(size, alloc);
    LastOfThree(size);
  }

  lemma LastOfThree(w: int)
    ensures w % 8 % 2 == w % 2
  {
    var q, r := w / 8, w % 8;
    assert w == 2 * (4 * q + r / 2) + r % 2;
  }

  /** ALIGN, in 32 bits. */
  lemma AlignIsMask(size: Word)
    ensures Align(size) == And(ToUnsigned(size + 7), Complement(7))
  {
    HighBits(ToUnsigned(size + 7));
  }
}
