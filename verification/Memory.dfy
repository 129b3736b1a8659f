/** The simulated memory system (memlib.c): a fixed array of bytes with a break that only
    grows, and the 32-bit little-endian word accesses the allocators make in it. */
module Memory {
  import opened HeapModel

  type Byte = b: int | 0 <= b < 0x100
  type Word = w: int | 0 <= w < 0x1_0000_0000

  function Assemble(b0: int, b1: int, b2: int, b3: int): (w: int)
    ensures w == b0 + 0x100 * b1 + 0x1_0000 * b2 + 0x100_0000 * b3
  {
    b0 + 0x100 * (b1 + 0x100 * (b2 + 0x100 * b3))
  }

  /** The least significant byte of w, and the rest. */
  method CutByte(w: int, ghost n: int) returns (b: Byte, q: int)
    requires 0 <= w < 0x100 * n
    ensures w == b + 0x100 * q && 0 <= q < n
  {
    b, q := w % 0x100, w / 0x100;
  }

  /** The four bytes of a word, least significant first. */
  method SplitWord(w: Word) returns (b0: Byte, b1: Byte, b2: Byte, b3: Byte)
    ensures Assemble(b0, b1, b2, b3) == w
  {
    var q;
    b0, q := CutByte(w, 0x100_0000);
    b1, q := CutByte(q, 0x1_0000);
    b2, q := CutByte(q, 0x100);
    b3 := q;
  }

  lemma Peel(b: int, x: int, c: int, y: int)
    requires 0 <= b < 0x100 && 0 <= c < 0x100 && b + 0x100 * x == c + 0x100 * y
    ensures b == c && x == y
  {
  }

  lemma AssembleInjective(b0: int, b1: int, b2: int, b3: int, c0: int, c1: int, c2: int, c3: int)
    requires 0 <= b0 < 0x100 && 0 <= b1 < 0x100 && 0 <= b2 < 0x100
    requires 0 <= c0 < 0x100 && 0 <= c1 < 0x100 && 0 <= c2 < 0x100
    requires Assemble(b0, b1, b2, b3) == Assemble(c0, c1, c2, c3)
    ensures b0 == c0 && b1 == c1 && b2 == c2 && b3 == c3
  {
    Peel(b0, b1 + 0x100 * (b2 + 0x100 * b3), c0, c1 + 0x100 * (c2 + 0x100 * c3));
    Peel(b1, b2 + 0x100 * b3, c1, c2 + 0x100 * c3);
    Peel(b2, b3, c2, c3);
  }

  function WordOf(b: seq<Byte>, a: int): (w: Word)
    requires 0 <= a && a + 4 <= |b|
  {
    Assemble(b[a], b[a + 1], b[a + 2], b[a + 3])
  }

  /** The bytes read as words, at every address. */
  ghost function Words(b: seq<Byte>): Mem {
    (a: int) => if 0 <= a && a + 4 <= |b| then WordOf(b, a) else 0
  }

  /** Changing the four bytes of one word changes no word that does not overlap it. */
  lemma StoreIsPut(b: seq<Byte>, b': seq<Byte>, a: int, w: Word)
    requires 0 <= a && a + 4 <= |b| && |b'| == |b|
    requires WordOf(b', a) == w
    requires forall i | 0 <= i < |b| && !(a <= i < a + 4) :: b'[i] == b[i]
    ensures Puts(Words(b), Words(b'), a, w)
  {
    forall c | Far(c, a) ensures At(Words(b'), c) == At(Words(b), c) {
      if 0 <= c && c + 4 <= |b| {
        assert WordOf(b', c) == WordOf(b, c);
      }
    }
  }

  /** A word determines its bytes. */
  lemma WordMakesBytes(b: seq<Byte>, b': seq<Byte>, a: int)
    requires 0 <= a && a + 4 <= |b| == |b'|
    requires At(Words(b), a) == At(Words(b'), a)
    ensures forall i | a <= i < a + 4 :: b[i] == b'[i]
  {
    assert WordOf(b, a) == WordOf(b', a);
    AssembleInjective(b[a], b[a + 1], b[a + 2], b[a + 3], b'[a], b'[a + 1], b'[a + 2], b'[a + 3]);
  }

  /** The same test on 32-bit pointers, the arena of limit bytes starting at address start. */
  predicate Refused(start: Word, brk: int, incr: int, limit: int) {
    (start + brk + incr) % 0x1_0000_0000 > start + limit
  }

  /** It refuses exactly the increments that leave the arena if and only if the sum does not wrap. */
  lemma RefusedExact(start: Word, brk: int, incr: int, limit: int)
    requires 0 <= brk <= limit && start + limit < 0x1_0000_0000 && 0 <= incr < 0x8000_0000
    ensures (Refused(start, brk, incr, limit) <==> brk + incr > limit) <==> start + brk + incr < 0x1_0000_0000
  {
    var sum := start + brk + incr;
    assert sum % 0x1_0000_0000 == if sum < 0x1_0000_0000 then sum else sum - 0x1_0000_0000;
  }

  /** An increment 12 times the arena that is not refused. */
  lemma WrappedBreakGranted()
    ensures !Refused(0xF700_0000, 0x1000, 0x0F00_0000, 0x140_0000)
  {
  }

  class MemLib {
    const bytes: array<Byte>
    var brk: nat

    /** mem_init: a heap that can grow to maxHeap bytes. */
    constructor (maxHeap: nat)
      requires maxHeap < 0x8000_0000
      ensures fresh(bytes) && bytes.Length == maxHeap && brk == 0
    {
      bytes := new Byte[maxHeap];
      brk := 0;
    }

    ghost function View(): Mem
      reads bytes
    {
      Words(bytes[..])
    }

    function Get(p: int): (w: Word)
      requires 0 <= p && p + 4 <= bytes.Length
      reads bytes
      ensures w == At(View(), p)
    {
      WordOf(bytes[..], p)
    }

    method Set(p: int, v: Word)
      requires 0 <= p && p + 4 <= bytes.Length
      modifies bytes
      ensures Puts(old(View()), View(), p, v)
    {
      var b0, b1, b2, b3 := SplitWord(v);
      StoreBytes(p, b0, b1, b2, b3);
      StoreIsPut(old(bytes[..]), bytes[..], p, v);
    }

    method StoreBytes(p: int, b0: Byte, b1: Byte, b2: Byte, b3: Byte)
      requires 0 <= p && p + 4 <= bytes.Length
      modifies bytes
      ensures bytes[p] == b0 && bytes[p + 1] == b1 && bytes[p + 2] == b2 && bytes[p + 3] == b3
      ensures forall i | 0 <= i < bytes.Length && !(p <= i < p + 4) :: bytes[i] == old(bytes[i])
    {
      bytes[p], bytes[p + 1], bytes[p + 2], bytes[p + 3] := b0, b1, b2, b3;
    }

    /** mem_reset_brk. */
    method ResetBrk()
      modifies this`brk
      ensures brk == 0
    {
      brk := 0;
    }

    /** mem_sbrk: the old break, or -1 when incr, as a signed int, is negative or too large. */
    method Sbrk(incr: Word) returns (old_brk: int)
      requires brk <= bytes.Length < 0x8000_0000
      modifies this`brk
      ensures old(brk) + incr <= bytes.Length ==> old_brk == old(brk) && brk == old(brk) + incr
      ensures old(brk) + incr > bytes.Length ==> old_brk == -1 && brk == old(brk)
    {
      var signed := if incr < 0x8000_0000 then incr else incr - 0x1_0000_0000;
      if signed < 0 || brk + signed > bytes.Length {
        return -1;
      }
      old_brk := brk;
      brk := brk + signed;
    }

    /** A range of bytes is filled with one value. */
    method Fill(p: int, v: Byte, n: nat)
      requires 0 <= p && p + n <= bytes.Length
      modifies bytes
      ensures forall j | 0 <= j < bytes.Length :: bytes[j] == if p <= j < p + n then v else old(bytes[j])
    {
      for i := 0 to n
        invariant forall j | 0 <= j < bytes.Length :: bytes[j] == if p <= j < p + i then v else old(bytes[j])
      {
        bytes[p + i] := v;
      }
    }

    /** memcpy between ranges that do not overlap. */
    method Copy(dst: int, src: int, n: nat)
      requires 0 <= dst && dst + n <= bytes.Length && 0 <= src && src + n <= bytes.Length
      requires dst + n <= src || src + n <= dst
      modifies bytes
      ensures forall j | 0 <= j < bytes.Length ::
                bytes[j] == if dst <= j < dst + n then old(bytes[src + (j - dst)]) else old(bytes[j])
    {
      for i := 0 to n
        invariant forall j | 0 <= j < bytes.Length ::
                    bytes[j] == if dst <= j < dst + i then old(bytes[src + (j - dst)]) else old(bytes[j])
      {
        bytes[dst + i] := bytes[src + i];
      }
    }
  }
}
