/** The boundary-tag heap, as a layout of blocks over word memory. A layout maps the
    payload address of each block to its whole size (header, payload and footer) and
    whether it is free. The lemmas say what splitting, merging, recolouring and growing
    a layout do to the tiling of the heap and to the tags stored in memory. */
module HeapModel {

  /** Memory as its 4-byte words: the word that starts at each byte address. */
  type Mem = int -> int

  ghost function At(m: Mem, a: int): int {
    m(a)
  }

  /** The words at c and at a do not overlap. */
  ghost predicate Far(c: int, a: int) {
    c + 4 <= a || a + 4 <= c
  }

  /** Memory m' is m after the word v is stored at a. */
  ghost predicate Puts(m: Mem, m': Mem, a: int, v: int) {
    At(m', a) == v && forall c | Far(c, a) :: At(m', c) == At(m, c)
  }

  datatype Blk = Blk(size: int, free: bool)

  type Layout = map<int, Blk>

  /** What pack(size, alloc) stores in the header and footer of a block. */
  function Tag(b: Blk): int {
    if b.free then b.size else b.size + 1
  }

  /** Block q ends where p begins. */
  ghost predicate Precedes(B: Layout, q: int, p: int) {
    q in B && q + B[q].size == p
  }

  ghost function Next(B: Layout, p: int): int
    requires p in B
  {
    p + B[p].size
  }

  ghost predicate Starts(B: Layout, p: int, hi: int) {
    p == hi || p in B
  }

  ghost predicate HasPrev(B: Layout, p: int) {
    exists q :: Precedes(B, q, p)
  }

  /** The blocks of B tile the addresses from lo up to hi: each is large enough to hold two
      tags and two links, is followed by a block (or the epilogue at hi) and each
      but the first preceded by one. */
  ghost predicate Tiled(B: Layout, lo: int, hi: int) {
    && lo <= hi
    && Starts(B, lo, hi)
    && (forall p | p in B :: 16 <= B[p].size && lo <= p && p + B[p].size <= hi)
    && (forall p {:trigger Next(B, p)} | p in B :: Starts(B, Next(B, p), hi))
    && (forall p, q | p in B && q in B && p < q :: p + B[p].size <= q)
    && (forall p {:trigger HasPrev(B, p)} | p != lo && Starts(B, p, hi) :: HasPrev(B, p))
  }

  predicate Aligned(x: int) { x % 8 == 0 }

  /** Every block starts and ends at a multiple of 8. */
  ghost predicate AllAligned(B: Layout, hi: int) {
    Aligned(hi) && forall p | p in B :: Aligned(p) && Aligned(B[p].size)
  }

  /** Header and footer agree with the layout, for every block outside the set s; and so do
      the prologue (an allocated block of 8 bytes) and the epilogue (one of size 0). */
  ghost predicate Tagged(m: Mem, B: Layout, lo: int, hi: int, s: set<int>) {
    && (forall p | p in B && p !in s :: At(m, p - 4) == Tag(B[p]) && At(m, p + B[p].size - 8) == Tag(B[p]))
    && At(m, lo - 12) == 9 && At(m, lo - 8) == 9 && At(m, hi - 4) == 1
  }

  /** Memory m' is m with both tags of block b at p written. */
  ghost predicate Retags(m: Mem, m': Mem, p: int, b: Blk) {
    && At(m', p - 4) == At(m', p + b.size - 8) == Tag(b)
    && forall c | Far(c, p - 4) && Far(c, p + b.size - 8) :: At(m', c) == At(m, c)
  }

  /** No two neighbouring blocks are both free. */
  ghost predicate Coalesced(B: Layout) {
    forall p, q | Precedes(B, p, q) && q in B :: !(B[p].free && B[q].free)
  }

  /** The same, except possibly for the two borders of block x. */
  ghost predicate CoalescedBut(B: Layout, x: int) {
    forall p, q | Precedes(B, p, q) && q in B && p != x && q != x :: !(B[p].free && B[q].free)
  }

  /** The allocated blocks and their sizes: the part of the layout a client can see. */
  ghost function Live(B: Layout): map<int, int> {
    map p | p in B && !B[p].free :: B[p].size
  }

  ghost predicate OnlyFree(B: Layout, p: int) {
    p in B && B[p].free && forall q | q in B && B[q].free :: q == p
  }

  /** Every word of the payload of an allocated block is the same in m and m'. */
  ghost predicate PayloadKept(m: Mem, m': Mem, B: Layout) {
    forall p, a | p in B && !B[p].free && p <= a <= p + B[p].size - 12 :: At(m', a) == At(m, a)
  }

  /** C's allocated blocks are all allocated blocks of B. */
  ghost predicate LiveWithin(C: Layout, B: Layout) {
    forall p | p in C && !C[p].free :: p in B && B[p] == C[p]
  }

  function Split(B: Layout, p: int, n: int): Layout
    requires p in B
  {
    B[p := Blk(n, false)][p + n := Blk(B[p].size - n, true)]
  }

  function Paint(B: Layout, p: int, free: bool): Layout
    requires p in B
  {
    B[p := Blk(B[p].size, free)]
  }

  /** Block p swallows its free successor. */
  function Merge(B: Layout, p: int): Layout
    requires p in B && p + B[p].size in B
  {
    B[p := Blk(B[p].size + B[p + B[p].size].size, true)] - {p + B[p].size}
  }

  function Grow(B: Layout, hi: int, size: int): Layout {
    B[hi := Blk(size, true)]
  }

  lemma SplitNext(B: Layout, lo: int, hi: int, p: int, n: int, r: int)
    requires Tiled(B, lo, hi) && p in B && 16 <= n && 16 <= B[p].size - n && r in Split(B, p, n)
    ensures p + n !in B
    ensures Starts(Split(B, p, n), Next(Split(B, p, n), r), hi)
  {
    assert Starts(B, Next(B, if r == p + n then p else r), hi);
  }

  lemma SplitPrev(B: Layout, lo: int, hi: int, p: int, n: int, r: int)
    requires Tiled(B, lo, hi) && p in B && 16 <= n && 16 <= B[p].size - n
    requires r != lo && Starts(Split(B, p, n), r, hi)
    ensures HasPrev(Split(B, p, n), r)
  {
    var C := Split(B, p, n);
    if r == p + n {
      assert Precedes(C, p, r);
    } else {
      assert HasPrev(B, r);
      var q :| Precedes(B, q, r);
      assert Precedes(C, if q == p then p + n else q, r);
    }
  }

  lemma SplitApart(B: Layout, lo: int, hi: int, p: int, n: int)
    requires Tiled(B, lo, hi) && p in B && 16 <= n && 16 <= B[p].size - n
    ensures var C := Split(B, p, n);
            && (forall r | r in C :: 16 <= C[r].size && lo <= r && r + C[r].size <= hi)
            && (forall r, q | r in C && q in C && r < q :: r + C[r].size <= q)
    ensures p + n !in B && Starts(Split(B, p, n), lo, hi)
  {
  }

  lemma SplitTiled(B: Layout, lo: int, hi: int, p: int, n: int)
    requires Tiled(B, lo, hi) && p in B && 16 <= n && 16 <= B[p].size - n
    ensures Tiled(Split(B, p, n), lo, hi)
    ensures p + n !in B
  {
    var C := Split(B, p, n);
    SplitApart(B, lo, hi, p, n);
    assert lo <= hi;
    forall r {:trigger Next(C, r)} | r in C ensures Starts(C, Next(C, r), hi) {
      SplitNext(B, lo, hi, p, n, r);
    }
    forall r {:trigger HasPrev(C, r)} | r != lo && Starts(C, r, hi) ensures HasPrev(C, r) {
      SplitPrev(B, lo, hi, p, n, r);
    }
    hide Split, Starts, HasPrev;
  }

  lemma PaintTiled(B: Layout, lo: int, hi: int, p: int, free: bool)
    requires Tiled(B, lo, hi) && p in B
    ensures Tiled(Paint(B, p, free), lo, hi)
  {
    var C := Paint(B, p, free);
    forall r {:trigger Next(C, r)} | r in C ensures Starts(C, Next(C, r), hi) {
      assert Starts(B, Next(B, r), hi);
    }
    forall r {:trigger HasPrev(C, r)} | r != lo && Starts(C, r, hi) ensures HasPrev(C, r) {
      assert HasPrev(B, r);
      var q :| Precedes(B, q, r);
      assert Precedes(C, q, r);
    }
  }

  /** A block whose tags are to be written may be recoloured, and is then among those. */
  lemma PaintTagged(m: Mem, B: Layout, lo: int, hi: int, s: set<int>, p: int, free: bool)
    requires Tagged(m, B, lo, hi, s) && p in B && AllAligned(B, hi)
    ensures Tagged(m, Paint(B, p, free), lo, hi, s + {p}) && AllAligned(Paint(B, p, free), hi)
  {
  }

  lemma MergeTagged(m: Mem, B: Layout, lo: int, hi: int, s: set<int>, p: int)
    requires Tagged(m, B, lo, hi, s) && p in B && p + B[p].size in B
    ensures Tagged(m, Merge(B, p), lo, hi, s - {p + B[p].size} + {p})
  {
  }

  lemma SplitTagged(m: Mem, B: Layout, lo: int, hi: int, s: set<int>, p: int, n: int)
    requires Tagged(m, B, lo, hi, s) && p in B
    ensures Tagged(m, Split(B, p, n), lo, hi, s + {p, p + n})
  {
  }

  lemma MergeTiled(B: Layout, lo: int, hi: int, p: int)
    requires Tiled(B, lo, hi) && p in B && p + B[p].size in B
    ensures Tiled(Merge(B, p), lo, hi)
  {
    var C := Merge(B, p);
    forall r {:trigger Next(C, r)} | r in C ensures Starts(C, Next(C, r), hi) {
      MergeNext(B, lo, hi, p, r);
    }
    forall r {:trigger HasPrev(C, r)} | r != lo && Starts(C, r, hi) ensures HasPrev(C, r) {
      MergePrev(B, lo, hi, p, r);
    }
  }

  lemma MergeNext(B: Layout, lo: int, hi: int, p: int, r: int)
    requires Tiled(B, lo, hi) && p in B && p + B[p].size in B && r in Merge(B, p)
    ensures Starts(Merge(B, p), Next(Merge(B, p), r), hi)
  {
    assert Starts(B, Next(B, if r == p then p + B[p].size else r), hi);
  }

  lemma MergePrev(B: Layout, lo: int, hi: int, p: int, r: int)
    requires Tiled(B, lo, hi) && p in B && p + B[p].size in B
    requires r != lo && Starts(Merge(B, p), r, hi)
    ensures HasPrev(Merge(B, p), r)
  {
    assert HasPrev(B, r);
    var q :| Precedes(B, q, r);
    assert Precedes(Merge(B, p), if q == p + B[p].size then p else q, r);
  }

  lemma GrowTiled(B: Layout, lo: int, hi: int, size: int)
    requires Tiled(B, lo, hi) && 16 <= size
    ensures Tiled(Grow(B, hi, size), lo, hi + size)
    ensures hi !in B
  {
    var C := Grow(B, hi, size);
    forall r {:trigger Next(C, r)} | r in C ensures Starts(C, Next(C, r), hi + size) {
      if r != hi { assert Starts(B, Next(B, r), hi); }
    }
    forall r {:trigger HasPrev(C, r)} | r != lo && Starts(C, r, hi + size) ensures HasPrev(C, r) {
      if r == hi + size {
        assert Precedes(C, hi, r);
      } else {
        assert HasPrev(B, r);
        var q :| Precedes(B, q, r);
        assert Precedes(C, q, r);
      }
    }
  }

  lemma RetagTagged(m: Mem, m': Mem, B: Layout, lo: int, hi: int, s: set<int>, p: int)
    requires Tiled(B, lo, hi) && Tagged(m, B, lo, hi, s) && p in B && Retags(m, m', p, B[p])
    ensures Tagged(m', B, lo, hi, s - {p})
  {
  }

  lemma RetagKeepsPayload(m: Mem, m': Mem, B: Layout, lo: int, hi: int, p: int)
    requires Tiled(B, lo, hi) && p in B && Retags(m, m', p, B[p])
    ensures PayloadKept(m, m', B)
  {
  }

  /** Block p could serve a request for a block of n bytes. */
  ghost predicate Fits(B: Layout, p: int, n: int) {
    p in B && B[p].free && n <= B[p].size
  }

  lemma SameKept(m: Mem, B: Layout)
    ensures PayloadKept(m, m, B)
  {
  }

  lemma KeptTransitive(m0: Mem, m1: Mem, m2: Mem, B: Layout)
    requires PayloadKept(m0, m1, B) && PayloadKept(m1, m2, B)
    ensures PayloadKept(m0, m2, B)
  {
  }

  lemma KeptWithin(m0: Mem, m1: Mem, B: Layout, C: Layout)
    requires PayloadKept(m0, m1, B) && LiveWithin(C, B)
    ensures PayloadKept(m0, m1, C)
  {
  }

  lemma LiveSame(B: Layout, C: Layout)
    requires LiveWithin(B, C) && LiveWithin(C, B)
    ensures Live(B) == Live(C)
  {
    assert forall p | p in Live(B) :: p in Live(C) && Live(C)[p] == Live(B)[p];
    assert forall p | p in Live(C) :: p in Live(B);
  }

  lemma LiveEqual(B: Layout, C: Layout)
    requires Live(B) == Live(C)
    ensures LiveWithin(B, C)
  {
    forall p | p in B && !B[p].free ensures p in C && C[p] == B[p] {
      assert p in Live(B);
      assert p in Live(C) && Live(C)[p] == B[p].size;
    }
  }

  lemma MergeLive(B: Layout, lo: int, hi: int, p: int)
    requires Tiled(B, lo, hi) && p in B && p + B[p].size in B && B[p].free && B[p + B[p].size].free
    ensures LiveWithin(B, Merge(B, p)) && LiveWithin(Merge(B, p), B)
    ensures Live(Merge(B, p)) == Live(B)
  {
    LiveSame(B, Merge(B, p));
  }

  lemma MergeAligned(B: Layout, hi: int, p: int)
    requires AllAligned(B, hi) && p in B && p + B[p].size in B
    ensures AllAligned(Merge(B, p), hi)
  {
  }

  lemma SplitAligned(B: Layout, hi: int, p: int, n: int)
    requires AllAligned(B, hi) && p in B && Aligned(n)
    ensures AllAligned(Split(B, p, n), hi)
  {
    assert Aligned(p + n) && Aligned(B[p].size - n);
  }

  lemma GrowAligned(B: Layout, hi: int, size: int)
    requires AllAligned(B, hi) && Aligned(size)
    ensures AllAligned(Grow(B, hi, size), hi + size)
  {
  }

  lemma GrowTagged(m: Mem, m1: Mem, m2: Mem, B: Layout, lo: int, hi: int, size: int)
    requires Tiled(B, lo, hi) && Tagged(m, B, lo, hi, {}) && 16 <= size
    requires Retags(m, m1, hi, Blk(size, true)) && Puts(m1, m2, hi + size - 4, 1)
    ensures Tagged(m2, Grow(B, hi, size), lo, hi + size, {})
    ensures PayloadKept(m, m2, B)
  {
    GrowKeepsWords(m, m1, m2, hi, size);
    hide Retags, Puts;
  }

  /** New tags and a new epilogue leave the words below the old epilogue alone. */
  lemma GrowKeepsWords(m: Mem, m1: Mem, m2: Mem, hi: int, size: int)
    requires Retags(m, m1, hi, Blk(size, true)) && Puts(m1, m2, hi + size - 4, 1) && 16 <= size
    ensures forall a | a + 4 <= hi - 4 :: At(m2, a) == At(m, a)
    ensures At(m2, hi - 4) == At(m2, hi + size - 8) == size && At(m2, hi + size - 4) == 1
  {
  }

  ghost predicate PrevUsed(B: Layout, p: int) {
    forall q | Precedes(B, q, p) :: !B[q].free
  }

  ghost predicate NextUsed(B: Layout, p: int)
    requires p in B
  {
    p + B[p].size in B ==> !B[p + B[p].size].free
  }

  /** Merging moves the only place where free neighbours may meet to the merged block. */
  lemma MergeNextCoalesced(B: Layout, lo: int, hi: int, p: int)
    requires Tiled(B, lo, hi) && p in B && p + B[p].size in B && B[p].free && B[p + B[p].size].free
    requires CoalescedBut(B, p)
    ensures CoalescedBut(Merge(B, p), p) && NextUsed(Merge(B, p), p)
    ensures B[p + B[p].size].size > 0 && (PrevUsed(B, p) ==> PrevUsed(Merge(B, p), p))
  {
    MergeAfter(B, lo, hi, p);
    hide Tiled;
    MergeElsewhere(B, p);
  }

  lemma MergeAfter(B: Layout, lo: int, hi: int, p: int)
    requires Tiled(B, lo, hi) && p in B && p + B[p].size in B && B[p + B[p].size].free
    requires CoalescedBut(B, p)
    ensures B[p].size > 0 && B[p + B[p].size].size > 0 && NextUsed(Merge(B, p), p)
  {
    var t := p + B[p].size;
    assert t + B[t].size in B ==> Precedes(B, t, t + B[t].size);
  }

  /** Merging brings no two blocks together outside the merged one. */
  lemma MergeElsewhere(B: Layout, p: int)
    requires p in B && p + B[p].size in B && B[p].size > 0 && B[p + B[p].size].size > 0
    ensures CoalescedBut(B, p) || CoalescedBut(B, p + B[p].size) ==> CoalescedBut(Merge(B, p), p)
    ensures PrevUsed(B, p) ==> PrevUsed(Merge(B, p), p)
  {
    var C := Merge(B, p);
    assert forall q, r | Precedes(C, q, r) && q != p :: Precedes(B, q, r);
  }

  lemma MergePrevCoalesced(B: Layout, lo: int, hi: int, p: int, t: int)
    requires Tiled(B, lo, hi) && Precedes(B, p, t) && t in B && B[p].free && B[t].free
    requires CoalescedBut(B, t)
    ensures CoalescedBut(Merge(B, p), p) && PrevUsed(Merge(B, p), p)
    ensures NextUsed(B, t) ==> NextUsed(Merge(B, p), p)
  {
    MergeElsewhere(B, p);
    PrecededByUsed(B, lo, hi, p, t);
    hide Tiled, CoalescedBut, PrevUsed;
  }

  /** What stands before the merged block stood before its first part. */
  lemma PrecededByUsed(B: Layout, lo: int, hi: int, p: int, t: int)
    requires Tiled(B, lo, hi) && Precedes(B, p, t) && t in B && B[p].free && CoalescedBut(B, t)
    ensures PrevUsed(Merge(B, p), p)
  {
    assert forall q | Precedes(Merge(B, p), q, p) :: Precedes(B, q, p);
  }

  lemma BorderedCoalesced(B: Layout, p: int)
    requires p in B && CoalescedBut(B, p) && PrevUsed(B, p) && NextUsed(B, p)
    ensures Coalesced(B)
  {
  }

  ghost predicate CanJoin(B: Layout, p: int, prev: int, joinPrev: bool, joinNext: bool) {
    && p in B && B[p].free && 0 < B[p].size && CoalescedBut(B, p)
    && (if joinNext then p + B[p].size in B && B[p + B[p].size].free else NextUsed(B, p))
    && (if joinPrev then prev < p && Precedes(B, prev, p) && B[prev].free else PrevUsed(B, p))
  }

  /** Block p joined with its free neighbours; prev is the predecessor's address. */
  ghost function Join(B: Layout, p: int, prev: int, joinPrev: bool, joinNext: bool): Layout
    requires CanJoin(B, p, prev, joinPrev, joinNext)
  {
    var C := if joinNext then Merge(B, p) else B;
    if joinPrev && prev in C && prev + C[prev].size in C then Merge(C, prev) else C
  }

  ghost function JoinedSize(B: Layout, p: int, prev: int, joinPrev: bool, joinNext: bool): int
    requires CanJoin(B, p, prev, joinPrev, joinNext)
  {
    B[p].size + (if joinNext then B[p + B[p].size].size else 0) + (if joinPrev then B[prev].size else 0)
  }

  /** Joining a free block with both its free neighbours restores the no-free-neighbours
      rule and leaves the allocated blocks as they were. */
  lemma JoinCoalesces(B: Layout, lo: int, hi: int, p: int, prev: int, joinPrev: bool, joinNext: bool)
    requires Tiled(B, lo, hi) && CanJoin(B, p, prev, joinPrev, joinNext)
    ensures var C, r := Join(B, p, prev, joinPrev, joinNext), if joinPrev then prev else p;
            && r in C && C[r].free && r <= p && p + B[p].size <= r + C[r].size
            && C[r].size == JoinedSize(B, p, prev, joinPrev, joinNext)
            && Coalesced(C) && LiveWithin(B, C) && LiveWithin(C, B) && Live(C) == Live(B)
  {
    hide Tiled, PrevUsed, NextUsed, Coalesced, CoalescedBut, Live;
    var C := if joinNext then Merge(B, p) else B;
    if joinNext {
      MergeNextCoalesced(B, lo, hi, p);
      MergeTiled(B, lo, hi, p);
      MergeLive(B, lo, hi, p);
      assert joinPrev ==> Precedes(C, prev, p) && C[prev] == B[prev];
    }
    JoinPrevCoalesces(C, lo, hi, p, prev, joinPrev);
  }

  lemma JoinPrevCoalesces(C: Layout, lo: int, hi: int, p: int, prev: int, joinPrev: bool)
    requires Tiled(C, lo, hi) && CanJoin(C, p, prev, joinPrev, false)
    ensures var D, r := Join(C, p, prev, joinPrev, false), if joinPrev then prev else p;
            && r in D && D[r].free && r <= p && p + C[p].size <= r + D[r].size
            && D[r].size == C[p].size + (if joinPrev then C[prev].size else 0)
            && Coalesced(D) && LiveWithin(C, D) && LiveWithin(D, C) && Live(D) == Live(C)
  {
    if joinPrev {
      MergePrevCoalesced(C, lo, hi, prev, p);
      MergeLive(C, lo, hi, prev);
      BorderedCoalesced(Merge(C, prev), prev);
    } else {
      BorderedCoalesced(C, p);
      assert LiveWithin(C, C);
    }
  }

  lemma PaintLive(B: Layout, p: int)
    requires p in B && B[p].free
    ensures Live(Paint(B, p, false)) == Live(B)[p := B[p].size]
    ensures LiveWithin(B, Paint(B, p, false))
  {
    var C := Paint(B, p, false);
    assert forall q | q in Live(C) :: q in Live(B)[p := B[p].size];
    assert forall q | q in Live(B)[p := B[p].size] :: q in Live(C);
  }

  lemma SplitLive(B: Layout, lo: int, hi: int, p: int, n: int)
    requires Tiled(B, lo, hi) && p in B && B[p].free && 16 <= n && 16 <= B[p].size - n
    ensures Live(Split(B, p, n)) == Live(B)[p := n]
    ensures LiveWithin(B, Split(B, p, n))
  {
    SplitTiled(B, lo, hi, p, n);
    hide Tiled;
    var C := Split(B, p, n);
    assert forall q | q in Live(C) :: q in Live(B)[p := n];
    assert forall q | q in Live(B)[p := n] :: q in Live(C);
  }

  lemma FreeLive(B: Layout, p: int)
    requires p in B && !B[p].free
    ensures Live(Paint(B, p, true)) == Live(B) - {p}
    ensures LiveWithin(Paint(B, p, true), B)
  {
    var C := Paint(B, p, true);
    assert forall q | q in Live(C) :: q in Live(B) - {p};
    assert forall q | q in Live(B) - {p} :: q in Live(C);
  }

  lemma GrowLive(B: Layout, lo: int, hi: int, size: int)
    requires Tiled(B, lo, hi) && 16 <= size
    ensures Live(Grow(B, hi, size)) == Live(B)
    ensures LiveWithin(B, Grow(B, hi, size)) && LiveWithin(Grow(B, hi, size), B)
  {
    GrowTiled(B, lo, hi, size);
    LiveSame(B, Grow(B, hi, size));
  }

  lemma PaintCoalesced(B: Layout, p: int)
    requires p in B && Coalesced(B)
    ensures Coalesced(Paint(B, p, false)) && CoalescedBut(Paint(B, p, true), p)
  {
    forall free: bool, q, r | Precedes(Paint(B, p, free), q, r) && r in B ensures Precedes(B, q, r) {
    }
  }

  lemma SplitCoalesced(B: Layout, lo: int, hi: int, p: int, n: int)
    requires Tiled(B, lo, hi) && p in B && B[p].free && 16 <= n && 16 <= B[p].size - n && Coalesced(B)
    ensures Coalesced(Split(B, p, n))
  {
    SplitTiled(B, lo, hi, p, n);
    var C := Split(B, p, n);
    forall q, r | Precedes(C, q, r) && r in C ensures !(C[q].free && C[r].free) {
      if q == p + n {
        assert Precedes(B, p, r);
      } else if q != p {
        assert Precedes(B, q, r);
        assert r != p + n;
      }
    }
  }

  lemma GrowCoalesced(B: Layout, lo: int, hi: int, size: int)
    requires Tiled(B, lo, hi) && 16 <= size && Coalesced(B)
    ensures CoalescedBut(Grow(B, hi, size), hi)
  {
    forall q, r | Precedes(Grow(B, hi, size), q, r) && q != hi && r != hi ensures Precedes(B, q, r) {
    }
  }
}
