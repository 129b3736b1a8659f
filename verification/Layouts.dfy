/** What the layout invariant means for the heap as a whole. */
module Layouts {
  import opened HeapModel

  /** Every address from p on belongs to a block at or after p. */
  lemma {:induction false} CoveredFrom(B: Layout, lo: int, hi: int, p: int, a: int) returns (q: int)
    requires Tiled(B, lo, hi) && p in B && p <= a < hi
    ensures q in B && q <= a < q + B[q].size
    decreases hi - p
  {
    q := p;
    if p + B[p].size <= a {
      assert Starts(B, Next(B, p), hi);
      q := CoveredFrom(B, lo, hi, p + B[p].size, a);
    }
  }

  /** The blocks cover the heap exactly: each address lies in one and only one of them. */
  lemma TilesExactly(B: Layout, lo: int, hi: int, a: int)
    requires Tiled(B, lo, hi) && lo <= a < hi
    ensures exists q :: q in B && q <= a < q + B[q].size
    ensures forall q, r | q in B && r in B && q <= a < q + B[q].size && r <= a < r + B[r].size :: q == r
  {
    var q := CoveredFrom(B, lo, hi, lo, a);
  }

  /** Two coalesced layouts with the same allocated blocks agree on the block at p. */
  lemma SameBlock(B: Layout, C: Layout, lo: int, hi: int, p: int)
    requires Tiled(B, lo, hi) && Tiled(C, lo, hi) && Coalesced(B) && Coalesced(C) && Live(B) == Live(C)
    requires p in B && p in C
    ensures B[p] == C[p]
  {
    LiveEqual(B, C);
    LiveEqual(C, B);
    if B[p].free {
      NotShorter(B, C, lo, hi, p);
      NotShorter(C, B, lo, hi, p);
    }
  }

  lemma NotShorter(B: Layout, C: Layout, lo: int, hi: int, p: int)
    requires Tiled(B, lo, hi) && Tiled(C, lo, hi) && Coalesced(B) && LiveWithin(B, C)
    requires p in B && p in C && B[p].free
    ensures C[p].size <= B[p].size
  {
    var n := Next(B, p);
    assert Starts(B, n, hi);
    assert n in B ==> Precedes(B, p, n);
  }

  lemma {:induction false} SameFrom(B: Layout, C: Layout, lo: int, hi: int, p: int)
    requires Tiled(B, lo, hi) && Tiled(C, lo, hi) && Coalesced(B) && Coalesced(C) && Live(B) == Live(C)
    requires Starts(B, p, hi) && Starts(C, p, hi) && p <= hi
    ensures forall q | q in B && p <= q :: q in C && C[q] == B[q]
    decreases hi - p
  {
    if p < hi {
      SameBlock(B, C, lo, hi, p);
      var n := Next(B, p);
      assert n == Next(C, p);
      assert Starts(B, n, hi) && Starts(C, n, hi);
      SameFrom(B, C, lo, hi, n);
    }
  }

  /** A coalesced layout is determined by its bounds and its allocated blocks: no history of
      requests that leaves the same blocks allocated can leave different free blocks. */
  lemma LayoutDetermined(B: Layout, C: Layout, lo: int, hi: int)
    requires Tiled(B, lo, hi) && Tiled(C, lo, hi) && Coalesced(B) && Coalesced(C)
    requires Live(B) == Live(C)
    ensures B == C
  {
    SameFrom(B, C, lo, hi, lo);
    SameFrom(C, B, lo, hi, lo);
    assert forall p | p in B :: p in C && C[p] == B[p];
    assert forall p | p in C :: p in B;
  }

  /** Once everything is freed the heap is one free block. */
  lemma AllFreeIsOneBlock(B: Layout, lo: int, hi: int)
    requires Tiled(B, lo, hi) && Coalesced(B) && Live(B) == map[] && lo < hi
    ensures B == map[lo := Blk(hi - lo, true)]
  {
    assert forall p | p in B :: B[p].free by {
      assert forall p | p in B && !B[p].free :: p in Live(B);
    }
    var n := Next(B, lo);
    assert Starts(B, n, hi);
    assert n in B ==> Precedes(B, lo, n);
    assert B[lo] == Blk(hi - lo, true);
    assert forall p | p in B :: p == lo;
  }

  /** With a single allocated block, the free space is at most one block on each side of it. */
  lemma OneLive(B: Layout, lo: int, hi: int, p: int) returns (q: int)
    requires Tiled(B, lo, hi) && Coalesced(B) && p in B && forall r | r in B && r != p :: B[r].free
    requires B[p].size < hi - lo
    ensures q in B && q != p && B[q].free && 2 * B[q].size >= hi - lo - B[p].size
  {
    var n := Next(B, p);
    if n != hi { BehindOnly(B, lo, hi, p); }
    if lo != p { BeforeOnly(B, lo, hi, p); }
    q := if n != hi && (lo == p || hi - n >= p - lo) then n else lo;
  }

  lemma BehindOnly(B: Layout, lo: int, hi: int, p: int)
    requires Tiled(B, lo, hi) && Coalesced(B) && p in B && Next(B, p) != hi
    requires forall r | r in B && r != p :: B[r].free
    ensures var n := Next(B, p); n in B && n != p && B[n].size == hi - n
  {
    var n := Next(B, p);
    assert n in B && n > p;
    var m := Next(B, n);
    assert m in B ==> Precedes(B, n, m);
  }

  lemma BeforeOnly(B: Layout, lo: int, hi: int, p: int)
    requires Tiled(B, lo, hi) && Coalesced(B) && p in B && (forall r | r in B && r != p :: B[r].free) && lo != p
    ensures lo in B && B[lo].size == p - lo
  {
    assert lo in B && lo < p;
    var m := Next(B, lo);
    assert m in B ==> Precedes(B, lo, m);
  }

  /** Two blocks have room beside each other. */
  lemma BesideEachOther(B: Layout, lo: int, hi: int, p: int, q: int)
    requires Tiled(B, lo, hi) && p in B && q in B && p != q
    ensures B[p].size + B[q].size <= hi - lo
  {
  }
}
