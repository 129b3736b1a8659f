/** The four boundary-tag allocators, mm.c, mm_right.c, mm_list.c and mm_blk.c. They share the
    block format, place, coalesce and extend_heap, and differ in how they index and search the
    free blocks, so one class models them all, with the policy as a constant. */
module Allocator {
  import opened HeapModel
  import opened FreeLists
  import opened ListOrder
  import opened Memory
  import opened Payload
  import opened Layouts
  import opened Numbers

  const CHUNKSIZE := 4096

  function UnpackSize(w: int): int { w - w % 8 }

  /** The lowest of the three tag bits. */
  function UnpackAlloc(w: int): int { w % 8 % 2 }

  /** A size with the allocation bit set into its lowest bit. */
  function Pack(size: Word, alloc: Word): Word
    requires alloc <= 1
  {
    if size % 8 % 2 == 1 then size else size + alloc
  }

  /** The next multiple of 8, in 32 bits. */
  function Align(size: Word): Word {
    var t := (size + 7) % 0x1_0000_0000;
    t - t % 8
  }

  /** The block size mm_malloc asks for, in 32 bits. */
  function RequestSize(pol: Policy, size: Word): Word {
    match pol
    case SegFirst => (8 + Align(size)) % 0x1_0000_0000
    case SegBest => if size <= 8 then 16 else (8 + Align(size)) % 0x1_0000_0000
    case _ => Align((size + 8) % 0x1_0000_0000)
  }

  /** The largest request that is served. In mm.c the block size must not wrap around. mm_list.c
      and mm_blk.c keep it in a signed int, which must not turn negative. The class search of
      mm_right.c ends only for block sizes up to 2^31. */
  function MaxRequest(pol: Policy): Word {
    match pol
    case SegFirst => 0xFFFF_FFF0
    case SegBest => 0x7FFF_FFF8
    case _ => 0x7FFF_FFF0
  }

  /** The bound that get_list_index of mm_right.c compares with after k rounds: 4 shifted left k
      times, in 32 bits. */
  function ClassBound(k: nat): Word {
    if k == 0 then 4 else 2 * ClassBound(k - 1) % 0x1_0000_0000
  }

  /** The loop of get_list_index meets a bound that is not below the size. */
  ghost predicate ClassSearchEnds(size: int) {
    exists k :: size <= ClassBound(k)
  }

  lemma {:induction false} ClassBoundIs(k: nat)
    ensures k <= 29 ==> ClassBound(k) == Pow2(k + 2) <= 0x8000_0000
    ensures k > 29 ==> ClassBound(k) == 0
  {
    hide Pow2;
    Pow2Of31();
    if k == 0 {
      assert Pow2(2) == 4 by { Pow2Small(); }
    } else {
      hide ClassBound;
      ClassBoundIs(k - 1);
      ClassBoundStep(k);
      if k <= 29 {
        Pow2Doubles(k + 1);
        Pow2Grows(k + 2, 31);
      }
    }
  }

  lemma ClassBoundStep(k: nat)
    requires k > 0
    ensures ClassBound(k - 1) < 0x8000_0000 ==> ClassBound(k) == 2 * ClassBound(k - 1)
    ensures ClassBound(k - 1) == 0x8000_0000 ==> ClassBound(k) == 0
  {
  }

  lemma Pow2Small()
    ensures Pow2(2) == 4 && Pow2(3) == 8 && Pow2(7) == 0x80
  {
  }

  lemma Pow2Of31()
    ensures Pow2(31) == 0x8000_0000
  {
    hide Pow2;
    Pow2Small();
    Pow2Sum(7, 7);
    Pow2Sum(14, 14);
    Pow2Sum(28, 3);
  }

  /** get_list_index of mm_right.c returns exactly for sizes up to 2^31: the bound reaches 2^31,
      then it is shifted out and stays 0. */
  lemma ClassSearchExact(size: int)
    ensures ClassSearchEnds(size) <==> size <= 0x8000_0000
  {
    hide Pow2, ClassBound;
    ClassBoundIs(29);
    Pow2Of31();
    if size <= 0x8000_0000 {
      assert size <= ClassBound(29);
    } else {
      forall k ensures ClassBound(k) < size {
        ClassBoundIs(k);
      }
    }
  }

  /** The smallest request for which mm_right.c searches for a class forever. */
  lemma ClassSearchHangs()
    ensures RequestSize(SegBest, 0x7FFF_FFF9) == 0x8000_0008 && !ClassSearchEnds(0x8000_0008)
  {
    ClassSearchExact(0x8000_0008);
  }

  lemma AlignRoundsUp(size: Word)
    requires size + 7 < 0x1_0000_0000
    ensures Aligned(Align(size)) && size <= Align(size) < size + 8
  {
    Uncut(size + 7);
    RoundDown(size + 7);
  }

  lemma Uncut(t: int)
    requires 0 <= t < 0x1_0000_0000
    ensures t % 0x1_0000_0000 == t
  {
  }

  lemma RoundDown(t: int)
    ensures t - 8 < t - t % 8 <= t && Aligned(t - t % 8)
  {
  }

  lemma AlignedPlus8(a: int)
    requires Aligned(a)
    ensures Aligned(a + 8) && Aligned(16)
  {
  }

  lemma RequestFits(pol: Policy, size: Word)
    requires 0 < size <= MaxRequest(pol)
    ensures var n := RequestSize(pol, size); Aligned(n) && 16 <= n && size + 8 <= n < size + 16 && n < 0xFFFF_FFFF
    ensures !pol.Segregated() ==> RequestSize(pol, size) < 0x8000_0000
    ensures pol == SegBest ==> RequestSize(pol, size) <= 0x8000_0000
  {
    hide Align, Aligned;
    if pol.Segregated() {
      AlignRoundsUp(size);
      AlignedPlus8(Align(size));
    } else {
      AlignRoundsUp(size + 8);
      AlignedAtLeast16(Align(size + 8));
    }
  }

  lemma AlignedAtLeast16(a: int)
    requires Aligned(a) && 8 < a
    ensures 16 <= a
  {
  }

  /** The block size as the allocator holds it: unsigned, or an int in mm_list.c and mm_blk.c. */
  function HeldSize(pol: Policy, size: Word): int {
    var n := RequestSize(pol, size);
    if pol.Segregated() || n < 0x8000_0000 then n else n - 0x1_0000_0000
  }

  /** The block size has room for the request and two tags, and in mm_right.c has a class, exactly
      up to the largest request. Beyond it the arithmetic wraps around, as for 0xFFFF_FFF1 in
      mm.c, which asks for 0 bytes, or the class search does not end. */
  lemma RequestExact(pol: Policy, size: Word)
    requires 0 < size
    ensures size + 8 <= HeldSize(pol, size) && (pol == SegBest ==> ClassSearchEnds(HeldSize(pol, size)))
            <==> size <= MaxRequest(pol)
  {
    hide Align, Aligned, ClassSearchEnds;
    if pol == SegBest {
      ClassSearchExact(HeldSize(pol, size));
    }
    if size <= MaxRequest(pol) {
      RequestFits(pol, size);
    } else if pol.Segregated() && size < 0xFFFF_FFF1 {
      AlignRoundsUp(size);
      AlignedPast(Align(size));
    } else if pol.Segregated() {
      AlignTop(size);
    } else if size + 8 < 0xFFFF_FFF1 {
      AlignRoundsUp(size + 8);
      AlignedPast(Align(size + 8));
    } else if size + 8 < 0x1_0000_0000 {
      AlignTop(size + 8);
    } else {
      AlignRoundsUp(size + 8 - 0x1_0000_0000);
    }
  }

  lemma RequestWraps()
    ensures RequestSize(SegFirst, 0xFFFF_FFF1) == 0
  {
  }

  lemma AlignTop(size: Word)
    requires 0xFFFF_FFF1 <= size
    ensures Align(size) == 0xFFFF_FFF8 || Align(size) == 0
  {
  }

  lemma AlignedPast(a: int)
    requires Aligned(a) && 0x7FFF_FFF9 <= a
    ensures 0x8000_0000 <= a
  {
  }

  lemma EvenWords(words: int)
    ensures Aligned(4 * (words + words % 2))
  {
    var k := words / 2 + words % 2;
    assert words + words % 2 == 2 * k;
  }

  lemma TagUnpacks(b: Blk)
    requires 0 <= b.size < 0x8000_0000 && Aligned(b.size)
    ensures UnpackSize(Tag(b)) == b.size && UnpackAlloc(Tag(b)) == (if b.free then 0 else 1)
    ensures Tag(b) == Pack(b.size, if b.free then 0 else 1)
  {
  }

  /** The header where a block starts, or the epilogue's at the end of the heap. */
  lemma StartTag(m: Mem, B: Layout, lo: int, hi: int, p: int)
    requires Tiled(B, lo, hi) && AllAligned(B, hi) && Tagged(m, B, lo, hi, {}) && hi < 0x8000_0000 && 16 <= lo
    requires Starts(B, p, hi)
    ensures lo <= p
    ensures var size, alloc := UnpackSize(At(m, p - 4)), UnpackAlloc(At(m, p - 4));
            if p == hi then size == 0 && alloc == 1
            else p in B && size == B[p].size && (alloc == 0 <==> B[p].free)
                 && 16 <= size && p + size <= hi && Starts(B, p + size, hi)
  {
    if p in B {
      TagUnpacks(B[p]);
      assert Starts(B, Next(B, p), hi);
    }
  }

  /** The word before a block's successor is that one's header, or the epilogue's. */
  lemma NextTag(m: Mem, B: Layout, lo: int, hi: int, p: int)
    requires Tiled(B, lo, hi) && AllAligned(B, hi) && Tagged(m, B, lo, hi, {}) && hi < 0x8000_0000 && 16 <= lo && p in B
    ensures p + UnpackSize(At(m, p - 4)) == p + B[p].size <= hi && 16 <= B[p].size
    ensures UnpackAlloc(At(m, p + B[p].size - 4)) == 0 <==> p + B[p].size in B && B[p + B[p].size].free
  {
    BelowEnd(B, lo, hi, p);
    hide Tiled, AllAligned, Tagged, UnpackSize, UnpackAlloc;
    StartTag(m, B, lo, hi, p);
    StartTag(m, B, lo, hi, p + B[p].size);
  }

  lemma BelowEnd(B: Layout, lo: int, hi: int, p: int)
    requires Tiled(B, lo, hi) && p in B
    ensures p < hi && hi !in B
  {
  }

  /** The word before a block's header is its predecessor's footer, or the prologue's. */
  lemma PrevTag(m: Mem, B: Layout, lo: int, hi: int, p: int)
    requires Tiled(B, lo, hi) && AllAligned(B, hi) && Tagged(m, B, lo, hi, {}) && hi < 0x8000_0000 && 16 <= lo && p in B
    ensures var w := At(m, p - 8);
            var prev := p - UnpackSize(w);
            && lo <= p && lo - 8 <= prev <= p - 8
            && At(m, prev - 4) == w
            && (UnpackAlloc(w) == 0 ==> Precedes(B, prev, p) && B[prev].free)
            && (UnpackAlloc(w) != 0 ==> PrevUsed(B, p))
  {
    if p == lo {
      assert forall q | Precedes(B, q, p) :: q < lo;
    } else {
      assert HasPrev(B, p);
      var q :| Precedes(B, q, p);
      TagUnpacks(B[q]);
      assert forall r | Precedes(B, r, p) :: r == q;
    }
  }

  ghost predicate NoFit(B: Layout, n: int) {
    forall q :: !Fits(B, q, n)
  }

  /** How many bytes mm_malloc grows the heap by for a block of n bytes. */
  function Growth(n: int): (g: int)
    ensures n <= g && CHUNKSIZE <= g && (g == n || g == CHUNKSIZE)
  {
    if n > CHUNKSIZE then n else CHUNKSIZE
  }

  /** mm_malloc returns NULL, in mathematical integers: nothing fits and the heap cannot grow. */
  ghost predicate NoMemory(B: Layout, brk: int, limit: int, n: int) {
    NoFit(B, n) && (brk + n > limit || brk + CHUNKSIZE > limit)
  }

  /** The break rises exactly if nothing fits: by the block size or by a chunk, enough for both. */
  ghost predicate GrownFor(B: Layout, brk: int, brk': int, n: int) {
    if NoFit(B, n) then brk' - brk >= n && brk' - brk >= CHUNKSIZE && (brk' - brk == n || brk' - brk == CHUNKSIZE)
    else brk' == brk
  }

  /** The same with the signed increment and the 32-bit pointers of mem_sbrk, for an arena at start. */
  ghost predicate NoMemory32(start: Word, B: Layout, brk: int, limit: int, n: int) {
    NoFit(B, n) && (Growth(n) >= 0x8000_0000 || Refused(start, brk, Growth(n), limit))
  }

  /** The two agree if and only if the pointer sum that is made, if one is made, does not wrap around. */
  lemma NoMemoryExact(start: Word, B: Layout, brk: int, limit: int, n: int)
    requires 0 <= brk <= limit < 0x8000_0000 && start + limit < 0x1_0000_0000
    ensures (NoMemory32(start, B, brk, limit, n) <==> NoMemory(B, brk, limit, n)) <==>
            (NoFit(B, n) && Growth(n) < 0x8000_0000 ==> start + brk + Growth(n) < 0x1_0000_0000)
  {
    hide NoFit, Refused;
    if Growth(n) < 0x8000_0000 {
      RefusedExact(start, brk, Growth(n), limit);
    }
  }

  lemma EvenQuarter(k: int)
    ensures (8 * k) / 4 == 2 * k
  {
  }

  lemma Even(k: int)
    ensures (2 * k) % 2 == 0
  {
  }

  lemma GrowthWords(n: int)
    requires Aligned(n) && 16 <= n < 0xFFFF_FFFF
    ensures var w := Growth(n) / 4; 4 <= w <= 0x3FFF_FFFE && 4 * (w + w % 2) == Growth(n)
  {
    var k := Growth(n) / 8;
    assert Growth(n) == 8 * k;
    EvenQuarter(k);
    Even(k);
  }

  /** Block p, unused before, is now allocated with room for size bytes, and wastes less than 16
      bytes over the block size asked for; no other allocated block appears, goes or changes size. */
  ghost predicate Granted(B: Layout, C: Layout, p: int, size: int, n: int) {
    && p !in Live(B) && p in C && Live(C) == Live(B)[p := C[p].size]
    && Aligned(p) && size + 8 <= n <= C[p].size < n + 16
  }

  /** What place leaves of a free block of total bytes: n of them, unless less than 16 would remain. */
  function CutSize(total: int, n: int): int {
    if total - n < 16 then total else n
  }

  /** In C, block p is the front of the free block that B has there. */
  ghost predicate CutFrom(B: Layout, C: Layout, p: int, n: int) {
    Fits(B, p, n) && p in C && C[p] == Blk(CutSize(B[p].size, n), false)
  }

  /** The same, told of the allocated blocks L only. */
  ghost predicate CutLive(B: Layout, L: map<int, int>, p: int, n: int) {
    Fits(B, p, n) && p in L && L[p] == CutSize(B[p].size, n)
  }

  lemma GrantedSame(A: Layout, B: Layout, C: Layout, p: int, size: int, n: int)
    requires Live(A) == Live(B) && Granted(B, C, p, size, n)
    ensures Granted(A, C, p, size, n)
  {
  }

  ghost predicate PolicyChoice(pol: Policy, B: Layout, lists: seq<seq<int>>, n: int, p: int) {
    match pol
    case SegBest => BestFound(B, n, p) && exists c | 0 <= c < |lists| :: FirstOfBest(B, lists[c], n, p)
    case Implicit => LowestFound(B, n, p)
    case _ => FirstFound(B, lists, n, p)
  }

  /** Where the block comes from: the policy's choice among the fitting free blocks, and new
      memory only when there is none. */
  ghost predicate Chosen(pol: Policy, B: Layout, lists: seq<seq<int>>, hi: int, hi': int, p: int, n: int) {
    && GrownFor(B, hi, hi', n)
    && (!NoFit(B, n) ==> PolicyChoice(pol, B, lists, n, p))
  }

  lemma ChosenBrk(pol: Policy, B: Layout, lists: seq<seq<int>>, hi: int, hi': int, p: int, n: int)
    requires Chosen(pol, B, lists, hi, hi', p, n)
    ensures GrownFor(B, hi, hi', n)
  {
  }

  lemma GrantUndone(B: Layout, C: Layout, p: int, size: int, n: int)
    requires Granted(B, C, p, size, n)
    ensures Live(C) - {p} == Live(B) && p in Live(C)
  {
  }

  /** What a successful malloc inside realloc establishes. */
  lemma GrantedMoves(B: Layout, C: Layout, b: seq<Byte>, b': seq<Byte>, ptr: int, np: int, size: int, n: int)
    requires Granted(B, C, np, size, n) && BytesKept(b, b', Live(B)) && n < size + 16
    requires ptr in Live(B) || (ptr == 0 && 0 !in Live(C))
    ensures np in C && size + 8 <= C[np].size < n + 16 && Aligned(np)
    ensures np !in Live(B) && Live(C) == Live(B)[np := C[np].size]
    ensures ptr == 0 && ptr !in Live(B) ==> Reallocated(b, b', Live(B), Live(C), ptr, np, size)
  {
    if ptr !in Live(B) {
      assert Live(C) - {ptr} == Live(C) && Live(B) - {ptr} == Live(B);
    }
  }

  /** What mm_init makes of a heap: one free block. */
  function FirstLayout(pol: Policy): Layout {
    map[Low(pol) := Blk(CHUNKSIZE, true)]
  }

  /** A list head in the arena, or none. */
  predicate HeadInArena(head: int, limit: int) {
    head == 0 || (16 <= head && head + 4 <= limit && Aligned(head))
  }

  /** mm_list.c never clears its list head. The next mm_init inserts the first block in front of the
      old one and writes a link there, which does harm if that is where the block has its footer. */
  predicate Reusable(pol: Policy, head: int) {
    pol == Explicit ==> head != Low(pol) + CHUNKSIZE - 8
  }

  /** The first block lies between the prologue and the epilogue, so coalesce only inserts it. */
  lemma BetweenAllocated(m: Mem)
    requires OneTagged(m, CHUNKSIZE)
    ensures UnpackAlloc(At(m, 8)) == UnpackAlloc(At(m, 16 + UnpackSize(At(m, 12)) - 4)) == 1
  {
    assert UnpackSize(CHUNKSIZE) == CHUNKSIZE;
  }

  /** Memory with one more word, at address -8. */
  ghost function WithHead(m: Mem, v: int): Mem {
    (a: int) => if a == -8 then v else At(m, a)
  }

  class Heap {
    const pol: Policy
    const mem: MemLib
    var freeList: Word  // mm_list.c's free_listp
    ghost var B: Layout
    ghost var lists: seq<seq<int>>
    ghost var x: set<int>  // free blocks that are in no list yet
    ghost var s: set<int>  // blocks whose tags are not written yet

    constructor (pol: Policy, maxHeap: nat)
      requires maxHeap < 0x8000_0000
      ensures this.pol == pol && fresh(mem) && fresh(mem.bytes)
      ensures mem.brk == 0 && mem.bytes.Length == maxHeap && freeList == 0
    {
      this.pol := pol;
      mem := new MemLib(maxHeap);
      freeList := 0;
      B, lists, x, s := map[], [], {}, {};
    }

    /** The words of the heap, with mm_list.c's static list head below them. */
    ghost function View(): Mem
      reads this`freeList, mem.bytes
    {
      WithHead(mem.View(), freeList)
    }

    ghost predicate Inv()
      reads this, mem, mem.bytes
    {
      && Low(pol) <= mem.brk <= mem.bytes.Length < 0x8000_0000
      && (pol != Explicit ==> freeList == 0)
      && HeapInv(pol, View(), B, mem.brk, lists, x, s)
    }

    ghost predicate Valid()
      reads this, mem, mem.bytes
    {
      Inv() && x == {} && s == {} && Coalesced(B)
    }

    /** All that is known of the list head before mm_init. */
    ghost predicate HeadKnown()
      reads this`freeList
    {
      if pol == Explicit then HeadInArena(freeList, mem.bytes.Length) else freeList == 0
    }

    function Get(p: int): (w: Word)
      requires 0 <= p && p + 4 <= mem.bytes.Length
      reads this`freeList, mem.bytes
      ensures w == At(View(), p)
    {
      mem.Get(p)
    }

    method Set(p: int, v: Word)
      requires 0 <= p && p + 4 <= mem.bytes.Length
      modifies mem.bytes
      ensures Puts(old(View()), View(), p, v)
    {
      mem.Set(p, v);
    }

    /** The head of list c. */
    method GetHead(c: int) returns (p: Word)
      requires 0 <= c < ClassCount(pol) && Low(pol) <= mem.bytes.Length && pol != Implicit
      ensures p == At(View(), Head(pol, c))
    {
      if pol == Explicit {
        p := freeList;
      } else {
        p := mem.Get(4 * c);
      }
    }

    method SetHead(c: int, v: Word)
      requires 0 <= c < ClassCount(pol) && Low(pol) <= mem.bytes.Length && pol != Implicit
      modifies this`freeList, mem.bytes
      ensures Puts(old(View()), View(), Head(pol, c), v)
      ensures pol != Explicit ==> freeList == old(freeList)
    {
      if pol == Explicit {
        freeList := v;
      } else {
        mem.Set(4 * c, v);
      }
    }

    /** The size stored in the header of block p. */
    method BlockSize(p: int) returns (size: Word)
      requires Inv() && p in B && p !in s
      ensures size == B[p].size
    {
      TagUnpacks(B[p]);
      size := UnpackSize(Get(p - 4));
    }

    /** Writes the header of p, then the footer where the new header says it is. */
    method WriteTags(p: int, ghost b: Blk, size: Word, alloc: Word)
      requires alloc <= 1 && b == Blk(size, alloc == 0) && Aligned(size)
      requires 4 <= p && 16 <= size && p + size <= mem.bytes.Length < 0x8000_0000
      modifies mem.bytes
      ensures Retags(old(View()), View(), p, b)
    {
      hide Words, WithHead;
      TagUnpacks(b);
      Set(p - 4, Pack(size, alloc));
      var ftr := p + UnpackSize(Get(p - 4)) - 8;
      Set(ftr, Pack(size, alloc));
    }

    method SetTags(p: int, size: Word, alloc: Word)
      requires Inv() && p in B && B[p] == Blk(size, alloc == 0) && alloc <= 1
      modifies this`s, mem.bytes
      ensures Inv() && s == old(s) - {p}
      ensures PayloadKept(old(View()), View(), B)
    {
      WriteTags(p, B[p], size, alloc);
      hide Tiled, Tagged, AllAligned, Indexed, Threaded, PayloadKept;
      RetagStep(pol, old(View()), View(), B, mem.brk, lists, x, s, p);
      s := s - {p};
    }

    /** The four cases of remove_free_blk. */
    method Unlink(prev: int, next: int, index: int)
      requires 0 <= index < ClassCount(pol) && Low(pol) <= mem.bytes.Length < 0x8000_0000 && Far(prev + 4, next)
      requires prev == 0 || LinkWords(prev, Low(pol), mem.bytes.Length)
      requires next == 0 || LinkWords(next, Low(pol), mem.bytes.Length)
      requires pol != Implicit
      modifies this`freeList, mem.bytes
      ensures Bypasses(old(View()), View(), prev, next, if prev == 0 then Head(pol, index) else prev + 4)
      ensures pol != Explicit ==> freeList == old(freeList)
    {
      if prev == 0 && next == 0 {
        SetHead(index, 0);
      } else if prev == 0 && next != 0 {
        Set(next, 0);
        SetHead(index, next);
      } else if prev != 0 && next == 0 {
        Set(prev + 4, 0);
      } else {
        Set(next, prev);
        Set(prev + 4, next);
      }
    }

    method RemoveFreeBlk(bp: int)
      requires Inv() && bp in B && B[bp].free && bp !in x && bp !in s
      modifies this`lists, this`x, this`freeList, mem.bytes
      ensures Inv() && x == old(x) + {bp} && lists == Minus(old(lists), {bp})
      ensures PayloadKept(old(View()), View(), B)
    {
      hide Tiled, AllAligned, Tagged, Indexed, Threaded, Words, WithHead, Unlinks, PayloadKept, Minus;
      var size := BlockSize(bp);
      SizeFits(bp);
      var index := GetListIdx(size);
      ghost var k := LinksOf(pol, View(), B, mem.brk, lists, x, bp);
      RemovedOrder(index, k);
      hide HeapInv;
      if pol != Implicit {
        var prev, next := Get(bp), Get(bp + 4);
        Unlink(prev, next, index);
      }
      RemoveStep(pol, old(View()), View(), B, mem.brk, lists, x, s, index, k);
      lists := lists[index := Without(lists[index], k)];
      x := x + {bp};
    }

    lemma RemovedOrder(c: int, k: int)
      requires Inv() && 0 <= c < |lists| && 0 <= k < |lists[c]|
      ensures lists[c := Without(lists[c], k)] == Minus(lists, {lists[c][k]})
    {
      assert Apart(Head(pol, c), lists[c]);
      RemovedIs(pol, B, lists, x, c, k);
    }

    /** A block between lists is in none of them. */
    lemma UnlistedStays(p: int, gone: set<int>)
      requires Inv() && p in x
      ensures Minus(lists, {p} + gone) == Minus(lists, gone)
      ensures Minus(lists, {p}) == lists
    {
      hide Tiled, AllAligned, Tagged, Threaded;
      forall c, q | 0 <= c < |lists| && q in lists[c] ensures q != p {
        assert Member(pol, B, x, c, q);
      }
      MinusSame(lists, {p} + gone, gone);
      MinusUnlisted(lists, {p});
    }

    /** The two cases of insert_free_blk. */
    method LinkFirst(bp: int, index: int)
      requires 0 <= index < ClassCount(pol) && mem.bytes.Length < 0x8000_0000
      requires LinkWords(bp, Low(pol), mem.bytes.Length)
      requires var root := At(View(), Head(pol, index));
               root == 0 || (LinkWords(root, Low(pol), mem.bytes.Length) && (bp + 8 <= root || root + 8 <= bp))
      requires pol != Implicit
      modifies this`freeList, mem.bytes
      ensures Prepends(old(View()), View(), Head(pol, index), old(At(View(), Head(pol, index))), bp)
      ensures pol != Explicit ==> freeList == old(freeList)
    {
      hide Puts, Prepends;
      var root := GetHead(index);
      ghost var m0, m1, m2, m3 := View(), View(), View(), View();
      if root == 0 {
        Set(bp, 0);
        m1 := View();
        Set(bp + 4, 0);
        m2, m3 := View(), View();
      } else {
        Set(bp, 0);
        m1 := View();
        Set(bp + 4, root);
        m2 := View();
        Set(root, bp);
        m3 := View();
      }
      SetHead(index, bp);
      PutsPrepend(m0, m1, m2, m3, View(), Head(pol, index), root, bp);
    }

    method InsertFreeBlk(bp: int)
      requires Inv() && bp in x && bp !in s
      modifies this`lists, this`x, this`freeList, mem.bytes
      ensures Inv() && x == old(x) - {bp} && lists == Filed(pol, old(lists), bp, B[bp].size)
      ensures PayloadKept(old(View()), View(), B)
    {
      hide Tiled, AllAligned, Tagged, Indexed, Threaded;
      HeadOf(pol, View(), B, mem.brk, lists, x, bp);
      var size := BlockSize(bp);
      SizeFits(bp);
      var index := GetListIdx(size);
      if pol != Implicit {
        LinkFirst(bp, index);
      }
      InsertStep(pol, old(View()), View(), B, mem.brk, lists, x, s, index, bp);
      lists := lists[index := [bp] + lists[index]];
      x := x - {bp};
    }

    method GetListIdx(size: Word) returns (idx: int)
      requires pol == SegBest ==> size <= 0x8000_0000
      ensures idx == Class(pol, size) && InClass(pol, size, idx)
    {
      ClassIs(pol, size);
      hide InClass;
      if !pol.Segregated() {
        return 0;
      } else if pol == SegFirst {
        var i, p := 4, 16;
        while i < 24
          invariant 4 <= i <= 24 && p == Pow2(i)
          invariant Exponent(size, 4, 24) == Exponent(size, i, 24)
        {
          if size <= p {
            return i - 4;
          }
          i, p := i + 1, 2 * p;
        }
        return 19;
      } else {
        var index, blkSize: Word := 2, 4;
        while size > blkSize
          invariant 2 <= index && blkSize == Pow2(index)
          invariant index <= 21 ==> Exponent(size, 2, 21) == Exponent(size, index, 21)
          invariant index > 21 ==> Exponent(size, 2, 21) == 21
          decreases size - blkSize
        {
          index, blkSize := index + 1, 2 * blkSize % 0x1_0000_0000;
        }
        return if index > 20 then 19 else index - 2;
      }
    }

    /** The neighbours of a block as its tags and its predecessor's footer give them. mm.c reads
        the predecessor's header, mm_right.c its footer. */
    method Neighbours(bp: int) returns (prev: int, next: int, prevAlloc: int, nextAlloc: int)
      requires Inv() && bp in B && B[bp].free && s == {} && CoalescedBut(B, bp)
      ensures next == bp + B[bp].size
      ensures CanJoin(B, bp, prev, prevAlloc == 0, nextAlloc == 0)
    {
      hide Tiled, Tagged, AllAligned, Indexed, Threaded, UnpackSize, UnpackAlloc, PrevUsed, CoalescedBut;
      NextTag(View(), B, Low(pol), mem.brk, bp);
      PrevTag(View(), B, Low(pol), mem.brk, bp);
      prev := bp - UnpackSize(Get(bp - 8));
      next := bp + UnpackSize(Get(bp - 4));
      prevAlloc := UnpackAlloc(Get(if pol == SegFirst then prev - 4 else prev + UnpackSize(Get(prev - 4)) - 8));
      nextAlloc := UnpackAlloc(Get(next - 4));
    }

    /** Two neighbouring unlisted free blocks, and the invariant with the first swallowing the second. */
    lemma MergedInv(p: int)
      requires Inv() && p in x && p + B[p].size in x
      ensures p in B && p + B[p].size in B
      ensures HeapInv(pol, View(), Merge(B, p), mem.brk, lists, x - {p + B[p].size}, s - {p + B[p].size} + {p})
    {
      hide Tiled, Tagged, AllAligned, Threaded, Merge;
      MergeStep(pol, View(), B, mem.brk, lists, x, s, p);
    }

    /** In the layout, block p swallows its successor; both are free and in no list. */
    ghost method MergeBlocks(p: int)
      requires Inv() && p in x && p + B[p].size in x
      modifies this`B, this`x, this`s
      ensures Inv() && B == Merge(old(B), p)
      ensures x == old(x) - {p + old(B[p].size)} && s == old(s) - {p + old(B[p].size)} + {p}
    {
      hide HeapInv, Merge, Words, WithHead;
      MergedInv(p);
      var next := p + B[p].size;
      B, x, s := Merge(B, p), x - {next}, s - {next} + {p};
    }

    /** In the layout, bp joins with those of its neighbours that have left their lists. */
    ghost method JoinBlocks(bp: int, prev: int, joinPrev: bool, joinNext: bool)
      requires Inv() && s == {} && CanJoin(B, bp, prev, joinPrev, joinNext)
      requires x == Joiners(bp, prev, bp + B[bp].size, joinPrev, joinNext)
      modifies this`B, this`x, this`s
      ensures Inv() && B == Join(old(B), bp, prev, joinPrev, joinNext)
      ensures var r := if joinPrev then prev else bp; x == {r} && s <= {r}
    {
      hide Tiled, Tagged, AllAligned, Indexed, Threaded, PrevUsed, NextUsed, CoalescedBut, HeapInv;
      if joinNext {
        MergeBlocks(bp);
      }
      if joinPrev {
        MergeBlocks(prev);
      }
    }

    /** Of the blocks that are joined, only the neighbours have to leave a list. */
    lemma JoinersLeave(bp: int, prev: int, next: int, joinPrev: bool, joinNext: bool)
      requires Inv() && bp in x && (joinPrev || joinNext)
      ensures Minus(lists, Joiners(bp, prev, next, joinPrev, joinNext)) ==
              Minus(lists, if !joinPrev then {next} else if !joinNext then {prev} else {next} + {prev})
    {
      var gone := if !joinPrev then {next} else if !joinNext then {prev} else {next} + {prev};
      UnlistedStays(bp, gone);
      assert Joiners(bp, prev, next, joinPrev, joinNext) == {bp} + gone;
    }

    /** Cases 2 to 4 of coalesce: the free neighbours of bp leave their lists. */
    method TakeNeighbours(bp: int, prev: int, next: int, prevAlloc: int, nextAlloc: int) returns (r: int, size: int)
      requires Inv() && x == {bp} && s == {} && next == (if bp in B then bp + B[bp].size else 0)
      requires CanJoin(B, bp, prev, prevAlloc == 0, nextAlloc == 0) && (prevAlloc == 0 || nextAlloc == 0)
      modifies this`lists, this`x, this`freeList, mem.bytes
      ensures Inv() && r == if prevAlloc == 0 then prev else bp
      ensures x == Joiners(bp, prev, next, prevAlloc == 0, nextAlloc == 0)
      ensures size == JoinedSize(B, bp, prev, prevAlloc == 0, nextAlloc == 0)
      ensures lists == Minus(old(lists), Joiners(bp, prev, next, prevAlloc == 0, nextAlloc == 0))
      ensures PayloadKept(old(View()), View(), B)
    {
      hide Tiled, Tagged, AllAligned, Indexed, Threaded, PrevUsed, NextUsed, CoalescedBut, HeapInv, PayloadKept, Minus,
        Words, WithHead;
      r := bp;
      JoinersLeave(bp, prev, next, prevAlloc == 0, nextAlloc == 0);
      size := BlockSize(bp);
      if prevAlloc != 0 {
        var nextSize := BlockSize(next);
        RemoveFreeBlk(next);
        size := size + nextSize;
      } else if nextAlloc != 0 {
        var prevSize := BlockSize(prev);
        RemoveFreeBlk(prev);
        r, size := prev, size + prevSize;
      } else {
        var nextSize := BlockSize(next);
        var prevSize := BlockSize(prev);
        RemoveFreeBlk(next);
        ghost var m := View();
        RemoveFreeBlk(prev);
        KeptTransitive(old(View()), m, View(), B);
        MinusTwice(old(lists), {next}, {prev});
        r, size := prev, size + nextSize + prevSize;
      }
    }

    /** Writes the tags of a free block and puts it in its list. */
    method Refile(r: int, size: int)
      requires Inv() && x == {r} && s <= {r} && r in B && B[r] == Blk(size, true)
      modifies this`lists, this`x, this`s, this`freeList, mem.bytes
      ensures Inv() && x == {} && s == {} && lists == Filed(pol, old(lists), r, size)
      ensures PayloadKept(old(View()), View(), B)
    {
      hide Tiled, Tagged, AllAligned, Indexed, Threaded, PayloadKept, Filed;
      SizeFits(r);
      SetTags(r, size, 0);
      ghost var m := View();
      InsertFreeBlk(r);
      KeptTransitive(old(View()), m, View(), B);
    }

    lemma SizeFits(p: int)
      requires Inv() && p in B
      ensures 0 <= B[p].size < 0x8000_0000
    {
    }

    /** Cases 2 to 4 of coalesce up to the new tags. */
    method JoinNeighbours(bp: int, prev: int, next: int, prevAlloc: int, nextAlloc: int) returns (r: int, size: int)
      requires Inv() && x == {bp} && s == {} && next == (if bp in B then bp + B[bp].size else 0)
      requires CanJoin(B, bp, prev, prevAlloc == 0, nextAlloc == 0) && (prevAlloc == 0 || nextAlloc == 0)
      modifies this, mem.bytes
      ensures Inv() && x == {r} && s <= {r} && r in B && B[r] == Blk(size, true)
      ensures Coalesced(B) && Live(B) == Live(old(B)) && r <= bp && bp + old(B[bp].size) <= r + size
      ensures lists == Minus(old(lists), Swallowed(old(B), r, size))
      ensures PayloadKept(old(View()), View(), B)
    {
      hide Tiled, Tagged, AllAligned, Indexed, Threaded, Live, PayloadKept, LiveWithin, Coalesced, CoalescedBut,
        PrevUsed, NextUsed, Join, Joiners, JoinedSize, Merge, Minus, Swallowed;
      JoinersAre(B, Low(pol), mem.brk, bp, prev, prevAlloc == 0, nextAlloc == 0);
      JoinCoalesces(B, Low(pol), mem.brk, bp, prev, prevAlloc == 0, nextAlloc == 0);
      ghost var C := Join(B, bp, prev, prevAlloc == 0, nextAlloc == 0);
      hide Inv;
      r, size := TakeNeighbours(bp, prev, next, prevAlloc, nextAlloc);
      KeptWithin(old(View()), View(), B, C);
      JoinBlocks(bp, prev, prevAlloc == 0, nextAlloc == 0);
    }

    /** A block between lists, alone. */
    lemma OnlySwallowed(p: int)
      requires Inv() && p in x
      ensures p in B && Minus(lists, Swallowed(B, p, B[p].size)) == lists
    {
      UnlistedStays(p, {});
      assert Swallowed(B, p, B[p].size) == {p};
    }

    method Coalesce(bp: int) returns (r: int)
      requires Inv() && bp in B && B[bp].free && x == {bp} && s == {} && CoalescedBut(B, bp)
      modifies this, mem.bytes
      ensures Valid()
      ensures Live(B) == Live(old(B))
      ensures r in B && B[r].free && r <= bp && bp + old(B[bp].size) <= r + B[r].size
      ensures lists == Refiled(pol, old(lists), old(B), r, B[r].size)
      ensures PayloadKept(old(View()), View(), B)
    {
      OnlySwallowed(bp);
      hide Inv, PayloadKept, Live, Coalesced, CoalescedBut, PrevUsed, NextUsed, Words, WithHead, Minus,
        Filed, Swallowed;
      var prev, next, prevAlloc, nextAlloc := Neighbours(bp);
      if prevAlloc != 0 && nextAlloc != 0 {
        BorderedCoalesced(B, bp);
        InsertFreeBlk(bp);
        return bp;
      }
      var size;
      r, size := JoinNeighbours(bp, prev, next, prevAlloc, nextAlloc);
      ghost var m := View();
      Refile(r, size);
      KeptTransitive(old(View()), m, View(), B);
    }

    /** The head of list c as memory shows it. */
    method FirstLst(c: int) returns (p: Word)
      requires Inv() && 0 <= c < ClassCount(pol) && pol != Implicit
      ensures |lists| == ClassCount(pol) && p == (if lists[c] == [] then 0 else lists[c][0])
    {
      assert Chained(pol, View(), Head(pol, c), lists[c]);
      p := GetHead(c);
    }

    /** next_lst, on element k of list c. */
    method NextLst(p: int, ghost c: int, ghost k: int) returns (q: Word)
      requires Inv() && 0 <= c < |lists| && 0 <= k < |lists[c]| && lists[c][k] == p && pol != Implicit
      ensures q == (if k == |lists[c]| - 1 then 0 else lists[c][k + 1])
    {
      ElementOf(pol, View(), B, mem.brk, lists, x, c, k);
      hide Tiled, Tagged, AllAligned, Indexed, Threaded;
      q := Get(p + 4);
    }

    /** The inner loop of mm.c's find_fit, and mm_list.c's first_fit. */
    method FirstInClass(c: int, n: Word) returns (p: int)
      requires Valid() && 0 <= c < ClassCount(pol) && pol != Implicit
      ensures |lists| == ClassCount(pol)
      ensures p == 0 ==> forall j | 0 <= j < |lists[c]| :: !Fits(B, lists[c][j], n)
      ensures p != 0 ==> exists k | 0 <= k < |lists[c]| ::
                lists[c][k] == p && Fits(B, p, n) && forall j | 0 <= j < k :: !Fits(B, lists[c][j], n)
    {
      hide Tiled, Tagged, AllAligned, Indexed, Threaded, Coalesced;
      p := FirstLst(c);
      ghost var k := 0;
      while p != 0
        invariant 0 <= k <= |lists[c]| && p == (if k == |lists[c]| then 0 else lists[c][k])
        invariant forall j | 0 <= j < k :: !Fits(B, lists[c][j], n)
        decreases |lists[c]| - k
      {
        ElementOf(pol, View(), B, mem.brk, lists, x, c, k);
        var size := BlockSize(p);
        if size >= n {
          return p;
        }
        p := NextLst(p, c, k);
        k := k + 1;
      }
      if k < |lists[c]| {
        ElementOf(pol, View(), B, mem.brk, lists, x, c, k);
      }
    }

    /** The inner loop of mm_right.c's find_fit. */
    method BestInClass(c: int, n: Word) returns (minBp: int)
      requires Valid() && 0 <= c < ClassCount(pol) && n < 0xFFFF_FFFF && pol != Implicit
      ensures |lists| == ClassCount(pol) && BestSoFar(B, lists[c], |lists[c]|, n, minBp)
    {
      hide Tiled, Tagged, AllAligned, Indexed, Threaded, Coalesced, BestSoFar, Words, WithHead;
      var bp := FirstLst(c);
      NothingSeen(B, lists[c], n);
      var minSize: Word := 0xFFFF_FFFF;
      minBp := 0;
      ghost var k := 0;
      while bp != 0
        invariant 0 <= k <= |lists[c]| && bp == (if k == |lists[c]| then 0 else lists[c][k])
        invariant BestSoFar(B, lists[c], k, n, minBp) && (minBp != 0 ==> minBp in B)
        invariant minSize == (if minBp == 0 then 0xFFFF_FFFF else B[minBp].size)
        decreases |lists[c]| - k
      {
        ElementOf(pol, View(), B, mem.brk, lists, x, c, k);
        SizeFits(bp);
        var curSize := BlockSize(bp);
        BestSoFarStep(B, lists[c], k, n, minBp, bp);
        if curSize >= n && curSize < minSize {
          minSize, minBp := curSize, bp;
        }
        bp := NextLst(bp, c, k);
        k := k + 1;
      }
      if k < |lists[c]| {
        ElementOf(pol, View(), B, mem.brk, lists, x, c, k);
      }
    }

    /** A header, or the epilogue's: what mm_blk.c's first_fit reads at each step. */
    method HeaderAt(p: int) returns (size: int, alloc: int)
      requires Valid() && Starts(B, p, mem.brk)
      ensures if p == mem.brk then size == 0 && alloc == 1
              else p in B && size == B[p].size && (alloc == 0 <==> B[p].free) && Starts(B, p + size, mem.brk)
                   && 16 <= size && p + size <= mem.brk
    {
      hide Tiled, AllAligned, Tagged, Indexed, Threaded, Coalesced, UnpackSize, UnpackAlloc;
      StartTag(View(), B, Low(pol), mem.brk, p);
      size, alloc := UnpackSize(Get(p - 4)), UnpackAlloc(Get(p - 4));
    }

    /** mm_blk.c's first_fit: from the prologue on, header by header. */
    method WalkHeaders(n: Word) returns (p: int)
      requires Valid() && 0 < n
      ensures p == 0 ==> NoFit(B, n)
      ensures p != 0 ==> LowestFound(B, n, p)
    {
      PrologueTag(n);
      hide HeapInv, Tiled, Tagged, AllAligned, Indexed, Threaded, Coalesced, NoFitBelow;
      p := Low(pol) - 8;
      var size: int := UnpackSize(Get(p - 4));
      while size != 0
        invariant size >= 0 && Low(pol) - 8 <= p && p + size <= mem.brk
        invariant size != 0 ==> Starts(B, p + size, mem.brk) && NoFitBelow(B, p + size, n)
        invariant size == 0 ==> NoFit(B, n)
        decreases mem.brk - p
      {
        p := p + size;
        var alloc;
        size, alloc := HeaderAt(p);
        if size >= n && alloc == 0 {
          FirstIsLowest(p, n);
          return;
        }
        StepFrom(p, n);
      }
      p := 0;
    }

    lemma FirstIsLowest(p: int, n: int)
      requires Fits(B, p, n) && NoFitBelow(B, p, n)
      ensures LowestFound(B, n, p)
    {
    }

    lemma StepFrom(p: int, n: int)
      requires Inv() && Starts(B, p, mem.brk) && NoFitBelow(B, p, n) && !Fits(B, p, n)
      ensures p in B ==> NoFitBelow(B, p + B[p].size, n)
      ensures p == mem.brk ==> NoFit(B, n)
    {
      StepOver(B, Low(pol), mem.brk, p, n);
    }

    method SearchLists(n: Word) returns (p: int)
      requires Valid() && n < 0xFFFF_FFFF && pol != Implicit && (pol == SegBest ==> n <= 0x8000_0000)
      ensures p == 0 ==> NoFit(B, n)
      ensures p != 0 ==> Fits(B, p, n) && PolicyChoice(pol, B, lists, n, p)
    {
      hide Tiled, Tagged, AllAligned, Indexed, Threaded, Coalesced, FirstFound, BestFound, BestSoFar, Fits, NoneBelow;
      var idx := GetListIdx(n);
      ClassesBelow(pol, B, lists, n);
      ListCount();
      while idx < ClassCount(pol)
        invariant 0 <= idx <= ClassCount(pol) && |lists| == ClassCount(pol) && NoneBelow(B, lists, idx, n)
      {
        if pol == SegBest {
          p := BestInClass(idx, n);
          FoundBest(idx, n, p);
        } else {
          p := FirstInClass(idx, n);
          FoundFirst(idx, n, p);
        }
        if p != 0 {
          return;
        }
        idx := idx + 1;
      }
      p := 0;
      NoneAtAll(pol, B, lists, n);
    }

    method FindFit(n: Word) returns (p: int)
      requires Valid() && 0 < n < 0xFFFF_FFFF && (pol == SegBest ==> n <= 0x8000_0000)
      ensures p == 0 ==> NoFit(B, n)
      ensures p != 0 ==> Fits(B, p, n) && PolicyChoice(pol, B, lists, n, p)
    {
      hide Inv, Coalesced, NoFit, Fits;
      if pol == Implicit {
        p := WalkHeaders(n);
        FoundLowest(n, p);
      } else {
        p := SearchLists(n);
      }
    }

    lemma FoundLowest(n: int, p: int)
      requires p != 0 ==> LowestFound(B, n, p)
      ensures p != 0 ==> Fits(B, p, n)
    {
    }

    lemma PrologueTag(n: int)
      requires Inv()
      ensures UnpackSize(At(View(), Low(pol) - 12)) == 8 && Starts(B, Low(pol), mem.brk) && Low(pol) <= mem.brk
      ensures NoFitBelow(B, Low(pol), n)
    {
    }

    lemma ListCount()
      requires Inv()
      ensures |lists| == ClassCount(pol)
    {
    }

    lemma FoundFirst(c: int, n: int, p: int)
      requires Valid() && 0 <= c < |lists| && NoneBelow(B, lists, c, n)
      requires p == 0 ==> forall j | 0 <= j < |lists[c]| :: !Fits(B, lists[c][j], n)
      requires p != 0 ==> exists k | 0 <= k < |lists[c]| ::
                 lists[c][k] == p && Fits(B, p, n) && forall j | 0 <= j < k :: !Fits(B, lists[c][j], n)
      ensures p == 0 ==> NoneBelow(B, lists, c + 1, n)
      ensures p != 0 ==> Fits(B, p, n) && FirstFound(B, lists, n, p)
    {
      hide Tiled, Tagged, AllAligned, Threaded, Coalesced;
      if p == 0 {
        forall q | q in lists[c] && q in B ensures B[q].size < n {
          assert Member(pol, B, x, c, q);
        }
      }
    }

    lemma FoundBest(c: int, n: int, p: int)
      requires Valid() && 0 <= c < |lists| && NoneBelow(B, lists, c, n) && BestSoFar(B, lists[c], |lists[c]|, n, p)
      ensures p == 0 ==> NoneBelow(B, lists, c + 1, n)
      ensures p != 0 ==> Fits(B, p, n) && BestFound(B, n, p) && FirstOfBest(B, lists[c], n, p)
    {
      hide Tiled, Tagged, AllAligned, Threaded, Coalesced;
      if p == 0 {
        forall q | q in lists[c] && q in B ensures B[q].size < n {
          assert Member(pol, B, x, c, q);
        }
      } else {
        BestOfClassIsBest(pol, B, lists, c, n, p);
      }
    }

    /** place, when the rest would be too small to be a block. */
    method PlaceWhole(bp: int, total: Word)
      requires Inv() && x == {bp} && s == {} && bp in B && B[bp] == Blk(total, true) && Coalesced(B)
      modifies this`B, this`x, this`s, mem.bytes
      ensures Valid() && bp in B && B[bp] == Blk(total, false)
      ensures Live(B) == Live(old(B))[bp := total]
      ensures PayloadKept(old(View()), View(), old(B))
    {
      hide Tiled, Tagged, AllAligned, Indexed, Threaded, Coalesced, Live, LiveWithin, PayloadKept;
      PaintStep(pol, View(), B, mem.brk, lists, x, s, bp, false);
      PaintLive(B, bp);
      PaintCoalesced(B, bp);
      B, x, s := Paint(B, bp, false), x - {bp}, s + {bp};
      SetTags(bp, total, 1);
      KeptWithin(old(View()), View(), B, old(B));
    }

    /** place, when the rest becomes a free block. */
    method PlaceSplit(bp: int, n: Word, total: Word)
      requires Inv() && x == {bp} && s == {} && bp in B && B[bp] == Blk(total, true) && Coalesced(B)
      requires 16 <= n && Aligned(n) && 16 <= total - n
      modifies this, mem.bytes
      ensures Valid() && bp in B && B[bp] == Blk(n, false)
      ensures Live(B) == Live(old(B))[bp := n] && lists == Filed(pol, old(lists), bp + n, total - n)
      ensures PayloadKept(old(View()), View(), old(B))
    {
      hide Tiled, Tagged, AllAligned, Indexed, Threaded, Coalesced, Live, LiveWithin, PayloadKept, Filed;
      SplitStep(pol, View(), B, mem.brk, lists, x, s, bp, n);
      SplitLive(B, Low(pol), mem.brk, bp, n);
      SplitCoalesced(B, Low(pol), mem.brk, bp, n);
      B, x, s := Split(B, bp, n), x - {bp} + {bp + n}, s + {bp, bp + n};
      SetTags(bp, n, 1);
      ghost var m := View();
      var size := BlockSize(bp);
      Refile(bp + size, total - n);
      KeptTransitive(old(View()), m, View(), B);
      KeptWithin(old(View()), View(), B, old(B));
    }

    method Place(bp: int, n: Word)
      requires Valid() && Fits(B, bp, n) && 16 <= n && Aligned(n)
      modifies this, mem.bytes
      ensures Valid()
      ensures CutFrom(old(B), B, bp, n)
      ensures Live(B) == Live(old(B))[bp := B[bp].size]
      ensures lists == AfterPlace(pol, old(lists), bp, old(B)[bp].size, n)
      ensures PayloadKept(old(View()), View(), old(B))
    {
      hide Tiled, Tagged, AllAligned, Indexed, Threaded, Coalesced, Live, PayloadKept, Filed, Minus;
      var total := BlockSize(bp);
      var rem := total - n;
      RemoveFreeBlk(bp);
      ghost var m := View();
      if rem < 16 {
        PlaceWhole(bp, total);
      } else {
        PlaceSplit(bp, n, total);
      }
      KeptTransitive(old(View()), m, View(), old(B));
    }

    /** mm_list.c clears the links of a new block before it coalesces it. */
    method ClearLinks(bp: int, ghost m: Mem, ghost C: Layout)
      requires Inv() && bp in x && PayloadKept(m, View(), C) && LiveWithin(C, B)
      modifies mem.bytes
      ensures Inv() && PayloadKept(m, View(), C)
    {
      if pol == Explicit {
        BlockAddress(bp);
        hide Tiled, Tagged, AllAligned, Indexed, Threaded, PayloadKept, LiveWithin;
        Set(bp, 0);
        Set(bp + 4, 0);
        LinksStep(pol, old(View()), View(), B, mem.brk, lists, x, s, bp);
        KeptWithin(old(View()), View(), B, C);
        KeptTransitive(m, old(View()), View(), C);
      }
    }

    /** Appends a free block and a new epilogue at the end of the heap, if there is room. */
    method AppendBlock(size: Word) returns (bp: int)
      requires Valid() && 16 <= size && Aligned(size)
      modifies this`B, this`x, mem`brk, mem.bytes
      ensures old(mem.brk) + size > mem.bytes.Length ==>
                bp == -1 && Valid() && mem.brk == old(mem.brk) && B == old(B) && mem.bytes[..] == old(mem.bytes[..])
      ensures old(mem.brk) + size <= mem.bytes.Length ==>
                && bp == old(mem.brk) && mem.brk == bp + size && Inv() && x == {bp} && s == {}
                && B == Grow(old(B), bp, size) && CoalescedBut(B, bp) && Live(B) == Live(old(B))
      ensures PayloadKept(old(View()), View(), old(B))
    {
      hide Tiled, Tagged, AllAligned, Indexed, Threaded, Coalesced, CoalescedBut, Live, LiveWithin, PayloadKept;
      bp := mem.Sbrk(size);
      SameKept(View(), B);
      if bp != -1 {
        GrowLive(B, Low(pol), bp, size);
        GrowCoalesced(B, Low(pol), bp, size);
        WriteTags(bp, Blk(size, true), size, 0);
        ghost var m := View();
        Set(bp + size - 4, Pack(0, 1));
        GrowStep(pol, old(View()), m, View(), B, bp, lists, size);
        B, x := Grow(B, bp, size), {bp};
        ClearLinks(bp, old(View()), old(B));
      }
    }

    lemma KeptAsBytes(f: int, b: seq<Byte>, C: Layout, hi: int)
      requires Tiled(C, Low(pol), hi) && hi <= mem.bytes.Length == |b|
      requires PayloadKept(WithHead(Words(b), f), View(), C)
      ensures BytesKept(b, mem.bytes[..], Live(C))
    {
      forall p, a | p in C && !C[p].free && p <= a <= p + C[p].size - 12
        ensures At(Words(mem.bytes[..]), a) == At(Words(b), a)
      {
        assert At(View(), a) == At(WithHead(Words(b), f), a);
      }
      KeptBytes(b, mem.bytes[..], C, Low(pol), hi);
    }

    /** coalesce after the heap has grown; f, b, C and hi describe the heap before. */
    method CoalesceNew(bp: int, ghost f: int, ghost b: seq<Byte>, ghost C: Layout, ghost hi: int) returns (r: int)
      requires Inv() && bp in B && B[bp].free && x == {bp} && s == {} && CoalescedBut(B, bp)
      requires Tiled(C, Low(pol), hi) && hi <= mem.bytes.Length == |b| && Live(B) == Live(C)
      requires PayloadKept(WithHead(Words(b), f), View(), C)
      modifies this, mem.bytes
      ensures Valid() && Live(B) == Live(C) && Fits(B, r, old(B[bp].size)) && r != 0
      ensures r <= bp && bp + old(B[bp].size) <= r + B[r].size <= mem.brk
      ensures lists == Refiled(pol, old(lists), old(B), r, B[r].size)
      ensures BytesKept(b, mem.bytes[..], Live(C))
    {
      hide Inv, Tiled, Coalesced, CoalescedBut, Live, LiveWithin, PayloadKept, BytesKept, Refiled;
      ghost var m := View();
      r := Coalesce(bp);
      BlockAddress(r);
      LiveEqual(C, B);
      KeptWithin(m, View(), B, C);
      KeptTransitive(WithHead(Words(b), f), m, View(), C);
      KeptAsBytes(f, b, C, hi);
    }

    /** Grows the heap by a free block of this many words, rounded up to an even number. */
    method ExtendHeap(words: Word) returns (r: int)
      requires Valid() && 4 <= words <= 0x3FFF_FFFE
      modifies this, mem`brk, mem.bytes
      ensures Valid() && Live(B) == Live(old(B))
      ensures var size := 4 * (words + words % 2);
              if old(mem.brk) + size <= mem.bytes.Length
              then mem.brk == old(mem.brk) + size && Fits(B, r, size) && r != 0 && r + B[r].size == mem.brk
                   && lists == Refiled(pol, old(lists), old(B), r, B[r].size)
              else r == 0 && mem.brk == old(mem.brk) && B == old(B) && mem.bytes[..] == old(mem.bytes[..])
      ensures BytesKept(old(mem.bytes[..]), mem.bytes[..], Live(old(B)))
    {
      var size := if words % 2 == 1 then (words + 1) * 4 else words * 4;
      EvenWords(words);
      ghost var hi := mem.brk;
      assert Tiled(B, Low(pol), hi);
      hide Inv, Tiled, Coalesced, CoalescedBut, Live, LiveWithin, PayloadKept, BytesKept, Aligned, Minus, Swallowed,
        Filed, Words, WithHead;
      var bp := AppendBlock(size);
      if bp == -1 {
        BytesSame(mem.bytes[..], Live(B));
        return 0;
      }
      NewStays(bp, old(B), hi, size);
      r := CoalesceNew(bp, old(freeList), old(mem.bytes[..]), old(B), hi);
    }

    /** The new block is in no list, so that it does not matter for their order. */
    lemma NewStays(bp: int, C: Layout, hi: int, size: int)
      requires Inv() && bp in x && bp == hi && B == Grow(C, hi, size)
      ensures forall r, n | r <= bp < r + n :: Refiled(pol, lists, B, r, n) == Refiled(pol, lists, C, r, n)
    {
      hide Inv, Minus, Filed;
      forall r, n | r <= bp < r + n ensures Refiled(pol, lists, B, r, n) == Refiled(pol, lists, C, r, n) {
        SwallowedGrown(C, hi, size, r, n);
        UnlistedStays(bp, Swallowed(C, r, n));
      }
    }

    lemma BlockAddress(p: int)
      requires Inv() && p in B
      ensures Low(pol) <= p && Aligned(p) && p + B[p].size <= mem.brk && 16 <= B[p].size
    {
    }

    /** place, then hand out the block. */
    method Grant(bp: int, size: Word)
      requires Valid() && 0 < size <= MaxRequest(pol) && Fits(B, bp, RequestSize(pol, size))
      modifies this, mem.bytes
      ensures Valid() && Granted(old(B), B, bp, size, RequestSize(pol, size))
      ensures CutFrom(old(B), B, bp, RequestSize(pol, size))
      ensures lists == AfterPlace(pol, old(lists), bp, old(B)[bp].size, RequestSize(pol, size))
      ensures BytesKept(old(mem.bytes[..]), mem.bytes[..], Live(old(B)))
    {
      hide Tiled, Tagged, AllAligned, Indexed, Threaded, Coalesced, LiveWithin, PayloadKept, BytesKept, RequestSize,
        AfterPlace, Words, WithHead;
      RequestFits(pol, size);
      BlockAddress(bp);
      Place(bp, RequestSize(pol, size));
      KeptAsBytes(old(freeList), old(mem.bytes[..]), old(B), mem.brk);
    }

    method Malloc(size: Word) returns (bp: int)
      requires Valid() && size <= MaxRequest(pol)
      modifies this, mem`brk, mem.bytes
      ensures Valid()
      ensures size == 0 ==> bp == 0
      ensures bp == 0 ==> B == old(B) && mem.brk == old(mem.brk) && mem.bytes[..] == old(mem.bytes[..])
      ensures var n := RequestSize(pol, size);
              size != 0 ==> (bp == 0 <==> NoMemory(old(B), old(mem.brk), mem.bytes.Length, n))
      ensures bp != 0 ==> Granted(old(B), B, bp, size, RequestSize(pol, size))
      ensures bp != 0 && !NoFit(old(B), RequestSize(pol, size)) ==>
                && CutFrom(old(B), B, bp, RequestSize(pol, size))
                && lists == AfterPlace(pol, old(lists), bp, old(B)[bp].size, RequestSize(pol, size))
      ensures bp != 0 && NoFit(old(B), RequestSize(pol, size)) ==>
                var total := mem.brk - bp;
                && bp in B && B[bp].size == CutSize(total, RequestSize(pol, size))
                && lists == AfterPlace(pol, Refiled(pol, old(lists), old(B), bp, total), bp, total,
                                       RequestSize(pol, size))
      ensures bp != 0 ==> Chosen(pol, old(B), old(lists), old(mem.brk), mem.brk, bp, RequestSize(pol, size))
      ensures BytesKept(old(mem.bytes[..]), mem.bytes[..], Live(old(B)))
    {
      hide Inv, Live, LiveWithin, PayloadKept, BytesKept, RequestSize, Granted, FirstFound, BestFound, Coalesced,
        Refiled, AfterPlace;
      if size == 0 {
        BytesSame(mem.bytes[..], Live(B));
        return 0;
      }
      var n := RequestSize(pol, size);
      RequestFits(pol, size);
      bp := FindFit(n);
      if bp != 0 {
        Grant(bp, size);
        return;
      }
      GrowthWords(n);
      bp := ExtendHeap((if n > CHUNKSIZE then n else CHUNKSIZE) / 4);
      if bp == 0 {
        BytesSame(mem.bytes[..], Live(B));
        return 0;
      }
      ghost var b, B0 := mem.bytes[..], B;
      Grant(bp, size);
      BytesKeptTransitive(old(mem.bytes[..]), b, mem.bytes[..], Live(old(B)));
      GrantedSame(old(B), B0, B, bp, size, n);
    }

    /** mm_free of a live pointer, or of NULL. */
    method Free(bp: int)
      requires Valid() && (bp == 0 || bp in Live(B))
      modifies this, mem.bytes
      ensures Valid() && Live(B) == Live(old(B)) - {bp}
      ensures bp == 0 ==> lists == old(lists)
      ensures bp != 0 ==> forall r | r in B && r <= bp < r + B[r].size ::
                            lists == Refiled(pol, old(lists), old(B), r, B[r].size)
      ensures BytesKept(old(mem.bytes[..]), mem.bytes[..], Live(B))
    {
      hide Tiled, Tagged, AllAligned, Indexed, Threaded, Coalesced, LiveWithin, PayloadKept, BytesKept;
      if bp == 0 {
        NullNotLive();
        BytesSame(mem.bytes[..], Live(B));
        return;
      }
      var size := BlockSize(bp);
      PaintStep(pol, View(), B, mem.brk, lists, x, s, bp, true);
      FreeLive(B, bp);
      PaintCoalesced(B, bp);
      BlockAddress(bp);
      hide Live;
      B, x, s := Paint(B, bp, true), x + {bp}, s + {bp};
      SetTags(bp, size, 0);
      ghost var m, C := View(), B;
      var r := Coalesce(bp);
      OnlyAround(r, bp);
      SwallowedPainted(old(B), bp, true, r, B[r].size);
      LiveEqual(B, C);
      KeptWithin(old(View()), m, C, B);
      KeptTransitive(old(View()), m, View(), B);
      KeptAsBytes(old(freeList), old(mem.bytes[..]), B, mem.brk);
    }

    lemma OnlyAround(r: int, p: int)
      requires Inv() && r in B && r <= p < r + B[r].size
      ensures forall q | q in B && q <= p < q + B[q].size :: q == r
    {
    }

    lemma NullNotLive()
      requires Inv()
      ensures 0 !in Live(B) && Live(B) - {0} == Live(B)
    {
    }

    /** Where two allocated blocks lie: inside the heap, without overlap. */
    lemma BlocksApart(p: int, q: int)
      requires Inv() && p in B && q in B
      ensures 16 <= p && p + B[p].size <= mem.brk && 16 <= q && q + B[q].size <= mem.brk
      ensures p == q || p + B[p].size <= q || q + B[q].size <= p
    {
    }

    lemma PayloadStored(b: seq<Byte>, p: int)
      requires Low(pol) <= mem.brk <= mem.bytes.Length < 0x8000_0000 && x == {} && s == {}
      requires pol != Explicit ==> freeList == 0
      requires HeapInv(pol, WithHead(Words(b), freeList), B, mem.brk, lists, x, s)
      requires PayloadWritten(b, mem.bytes[..], B, p) && p in B && !B[p].free
      ensures Inv() && BytesKept(b, mem.bytes[..], Live(B) - {p})
    {
      var m := WithHead(Words(b), freeList);
      forall a | a + 4 <= p || p + B[p].size - 8 <= a ensures At(View(), a) == At(m, a) {
        WrittenWords(b, mem.bytes[..], B, p, a);
      }
      WriteStep(pol, m, View(), B, mem.brk, lists, p);
      WrittenKeeps(b, mem.bytes[..], B, Low(pol), mem.brk, p);
    }

    /** memcpy into the payload of an allocated block. */
    method CopyPayload(dst: int, src: int, n: nat)
      requires Valid() && dst in Live(B) && src in Live(B) && dst != src
      requires n + 8 <= B[dst].size && n <= B[src].size
      modifies mem.bytes
      ensures Valid()
      ensures BytesKept(old(mem.bytes[..]), mem.bytes[..], Live(B) - {dst})
      ensures Copied(old(mem.bytes[..]), mem.bytes[..], src, dst, n)
    {
      hide Tiled, Tagged, AllAligned, Indexed, Threaded, Coalesced, BytesKept;
      BlocksApart(dst, src);
      mem.Copy(dst, src, n);
      PayloadStored(old(mem.bytes[..]), dst);
    }

    /** The second half of mm_realloc: copies the payload of ptr to np, then frees ptr. The length
        copied is bounded by the whole old block, tags and all. */
    method MovePayload(ptr: int, np: int, size: Word)
      requires Valid() && ptr in Live(B) && np in Live(B) && ptr != np && size + 8 <= B[np].size
      modifies this, mem.bytes
      ensures Valid() && Live(B) == Live(old(B)) - {ptr}
      ensures BytesKept(old(mem.bytes[..]), mem.bytes[..], Live(old(B)) - {np, ptr})
      ensures Copied(old(mem.bytes[..]), mem.bytes[..], ptr, np, Least(size, old(B[ptr].size) - 8))
    {
      hide HeapInv, Coalesced, BytesKept, Copied, Words, WithHead;
      BlocksApart(ptr, np);
      ghost var b1, L := mem.bytes[..], Live(B);
      var blk := BlockSize(ptr);
      BlockLarge(ptr);
      var n := Least(size, blk);
      CopyPayload(np, ptr, n);
      hide Inv;
      ghost var b2 := mem.bytes[..];
      Free(ptr);
      ghost var b3 := mem.bytes[..];
      BytesKeptWithin(b1, b2, L - {np}, L - {np, ptr});
      BytesKeptWithin(b2, b3, L - {ptr}, L - {np, ptr});
      BytesKeptTransitive(b1, b2, b3, L - {np, ptr});
      CopiedKept(b1, b2, b3, ptr, np, n, Least(size, blk - 8), L - {ptr});
    }

    lemma BlockLarge(p: int)
      requires Inv() && p in B
      ensures 16 <= B[p].size
    {
    }

    lemma LiveSize(p: int)
      requires p in Live(B)
      ensures p in B && B[p].size == Live(B)[p]
    {
    }

    lemma LiveCut(C: Layout, p: int, n: int)
      requires CutFrom(C, B, p, n)
      ensures CutLive(C, Live(B), p, n)
    {
    }

    /** What follows the malloc of np: b0 and L are the bytes and the live blocks before it. */
    method MoveAfterMalloc(ptr: int, np: int, size: Word, ghost b0: seq<Byte>, ghost L: map<int, int>)
      requires Valid() && np !in L && ptr in L && np in B && Live(B) == L[np := B[np].size]
      requires size + 8 <= B[np].size < size + 32 && Aligned(np)
      requires BytesKept(b0, mem.bytes[..], L)
      modifies this, mem.bytes
      ensures Valid() && Reallocated(b0, mem.bytes[..], L, Live(B), ptr, np, size)
      ensures np in Live(B) && Live(B)[np] == old(B[np].size)
    {
      hide BytesKept, Copied, Inv, Live, Coalesced, Least;
      LiveSize(ptr);
      LiveSize(np);
      ghost var b1 := mem.bytes[..];
      MovePayload(ptr, np, size);
      ReallocBytes(b0, b1, mem.bytes[..], ptr, np, size, L, old(B[np].size));
    }

    /** mm_malloc inside mm_realloc: what it promises about the block and the break. */
    method MallocFor(ptr: int, size: Word) returns (np: int)
      requires Valid() && size <= MaxRequest(pol) && (ptr == 0 || ptr in Live(B))
      modifies this, mem`brk, mem.bytes
      ensures Valid() && (size == 0 ==> np == 0)
      ensures np == 0 ==> B == old(B) && mem.brk == old(mem.brk) && mem.bytes[..] == old(mem.bytes[..])
      ensures size != 0 ==> (np == 0 <==> NoMemory(old(B), old(mem.brk), mem.bytes.Length, RequestSize(pol, size)))
      ensures np != 0 ==> Chosen(pol, old(B), old(lists), old(mem.brk), mem.brk, np, RequestSize(pol, size))
      ensures np != 0 && !NoFit(old(B), RequestSize(pol, size)) ==>
                CutLive(old(B), Live(B), np, RequestSize(pol, size))
      ensures BytesKept(old(mem.bytes[..]), mem.bytes[..], Live(old(B)))
      ensures np != 0 ==>
                && np in B && size + 8 <= B[np].size < size + 32 && Aligned(np)
                && np !in Live(old(B)) && Live(B) == Live(old(B))[np := B[np].size]
      ensures np != 0 && ptr == 0 ==>
                Reallocated(old(mem.bytes[..]), mem.bytes[..], Live(old(B)), Live(B), ptr, np, size)
    {
      hide BytesKept, Reallocated, Inv, NoFit, RequestSize, Granted, Live, Chosen, Coalesced, Growth, GrownFor;
      NullNotLive();
      ghost var b0, B0 := mem.bytes[..], B;
      np := Malloc(size);
      if np != 0 {
        RequestFits(pol, size);
        if !NoFit(B0, RequestSize(pol, size)) {
          LiveCut(B0, np, RequestSize(pol, size));
        }
        NullNotLive();
        GrantedMoves(B0, B, b0, mem.bytes[..], ptr, np, size, RequestSize(pol, size));
      }
    }

    /** mm_realloc. In mm.c it does not check that its mm_malloc succeeded, so there it must. */
    method Realloc(ptr: int, size: Word) returns (np: int)
      requires Valid() && size <= MaxRequest(pol) && (ptr == 0 || ptr in Live(B))
      requires pol == SegFirst && ptr != 0 && size != 0 ==>
                 !NoMemory(B, mem.brk, mem.bytes.Length, RequestSize(pol, size))
      modifies this, mem`brk, mem.bytes
      ensures Valid()
      ensures size == 0 ==> np == 0 && Live(B) == Live(old(B)) - {ptr}
                            && BytesKept(old(mem.bytes[..]), mem.bytes[..], Live(B))
      ensures size != 0 && np == 0 ==> B == old(B) && mem.brk == old(mem.brk) && mem.bytes[..] == old(mem.bytes[..])
      ensures size != 0 ==> (np == 0 <==> NoMemory(old(B), old(mem.brk), mem.bytes.Length, RequestSize(pol, size)))
      ensures np != 0 ==> Reallocated(old(mem.bytes[..]), mem.bytes[..], Live(old(B)), Live(B), ptr, np, size)
      ensures np != 0 ==> Chosen(pol, old(B), old(lists), old(mem.brk), mem.brk, np, RequestSize(pol, size))
      ensures np != 0 && !NoFit(old(B), RequestSize(pol, size)) ==>
                CutLive(old(B), Live(B), np, RequestSize(pol, size))
    {
      hide BytesKept, Reallocated, Inv, NoFit, RequestSize, Granted, Live, Coalesced, Growth, Chosen;
      NullNotLive();
      ghost var b0, B0 := mem.bytes[..], B;
      if ptr == 0 {
        np := MallocFor(ptr, size);
        return;
      }
      if size == 0 {
        Free(ptr);
        return 0;
      }
      np := MallocFor(ptr, size);
      if np != 0 {
        MoveAfterMalloc(ptr, np, size, b0, Live(B0));
      }
    }

    /** The list heads of mm.c and mm_right.c. */
    method ClearHeads()
      requires Low(pol) <= mem.bytes.Length && pol.Segregated()
      modifies mem.bytes
      ensures forall c | 0 <= c < 20 :: At(View(), Head(pol, c)) == 0
    {
      for i := 0 to 20
        invariant forall c | 0 <= c < i :: At(View(), Head(pol, c)) == 0
      {
        Set(4 * i, 0);
      }
    }

    /** What mm_init writes at the start of the heap: list heads, padding, prologue, epilogue. */
    method WritePrologue()
      requires Low(pol) <= mem.bytes.Length
      modifies mem.bytes
      ensures Bordered(View(), Low(pol)) && (freeList == 0 ==> Blank(pol, View(), Low(pol)))
    {
      hide Words;
      if pol.Segregated() {
        ClearHeads();
      }
      var base := Low(pol) - 16;
      Set(base, 0);
      Set(base + 4, Pack(8, 1));
      Set(base + 8, Pack(8, 1));
      Set(base + 12, Pack(0, 1));
    }

    /** The part of mm_init before the first growth. */
    method InitEmpty() returns (ok: bool)
      requires mem.brk == 0 && freeList == 0 && mem.bytes.Length < 0x8000_0000
      modifies this, mem`brk, mem.bytes
      ensures ok <==> Low(pol) <= mem.bytes.Length
      ensures !ok ==> freeList == 0
      ensures ok ==> Valid() && B == map[] && mem.brk == Low(pol) && lists == NoLists(pol)
    {
      var base := mem.Sbrk(Low(pol));
      if base == -1 {
        return false;
      }
      WritePrologue();
      B, lists, x, s := map[], NoLists(pol), {}, {};
      BlankHeap(pol, View());
      ok := true;
    }

    /** mm_list.c's extend_heap for the first block, up to coalesce. */
    method FirstBlock() returns (bp: int)
      requires pol == Explicit && mem.brk == 16 <= mem.bytes.Length < 0x8000_0000 && Bordered(View(), 16)
      modifies mem`brk, mem.bytes
      ensures if 16 + CHUNKSIZE > mem.bytes.Length then bp == -1
              else bp == 16 && mem.brk == 16 + CHUNKSIZE && OneTagged(View(), CHUNKSIZE)
    {
      hide Words;
      bp := mem.Sbrk(CHUNKSIZE);
      if bp != -1 {
        WriteTags(bp, Blk(CHUNKSIZE, true), CHUNKSIZE, 0);
        Set(bp + CHUNKSIZE - 4, Pack(0, 1));
        Set(bp, 0);
        Set(bp + 4, 0);
      }
    }

    /** insert_free_blk for the first block, in front of whatever the head is. */
    method InsertFirst(bp: int)
      requires pol == Explicit && bp == 16 && 16 + CHUNKSIZE <= mem.bytes.Length
      requires OneTagged(View(), CHUNKSIZE) && HeadKnown()
      modifies this`freeList, mem.bytes
      ensures freeList == bp
      ensures if Reusable(pol, old(freeList)) then OneTagged(View(), CHUNKSIZE)
              else At(View(), 16 + CHUNKSIZE - 8) == bp
    {
      hide Words;
      var root := freeList;
      Set(bp, 0);
      Set(bp + 4, root);
      if root != 0 {
        Set(root, bp);
      }
      freeList := bp;
    }

    /** mm_list.c's mm_init. At the end it clears the links of the first block once more. */
    method InitList() returns (ok: bool)
      requires pol == Explicit && mem.brk == 0 && mem.bytes.Length < 0x8000_0000 && HeadKnown()
      modifies this, mem`brk, mem.bytes
      ensures ok <==> 16 + CHUNKSIZE <= mem.bytes.Length
      ensures if ok then freeList == 16 else freeList == old(freeList)
      ensures ok ==> B == FirstLayout(pol) && mem.brk == 16 + CHUNKSIZE && lists == [[16]]
      ensures ok ==> (Valid() <==> Reusable(pol, old(freeList)))
    {
      hide Words, Bordered, Blank, HeapInv, Coalesced, OneTagged;
      var base := mem.Sbrk(16);
      if base == -1 {
        return false;
      }
      WritePrologue();
      var bp := FirstBlock();
      if bp == -1 {
        return false;
      }
      BetweenAllocated(View());
      InsertFirst(bp);
      ClearAgain(bp);
      B, lists, x, s := FirstLayout(pol), [[bp]], {}, {};
      if Reusable(pol, old(freeList)) {
        OneBlockHeap(View(), CHUNKSIZE);
      } else {
        FooterLost();
      }
      ok := true;
    }

    method ClearAgain(bp: int)
      requires pol == Explicit && bp == 16 && 16 + CHUNKSIZE <= mem.bytes.Length
      modifies mem.bytes
      ensures At(View(), 16) == 0 && At(View(), 20) == 0
      ensures old(OneTagged(View(), CHUNKSIZE)) ==> OneTagged(View(), CHUNKSIZE)
      ensures At(View(), 16 + CHUNKSIZE - 8) == old(At(View(), 16 + CHUNKSIZE - 8))
    {
      hide Words;
      Set(bp, 0);
      Set(bp + 4, 0);
    }

    lemma FooterLost()
      requires pol == Explicit && B == FirstLayout(pol) && s == {} && At(View(), 16 + CHUNKSIZE - 8) == 16
      ensures !Valid()
    {
      assert Low(pol) in B;
    }

    lemma Shape()
      requires Valid()
      ensures Tiled(B, Low(pol), mem.brk) && Coalesced(B) && mem.brk <= mem.bytes.Length
    {
    }

    lemma OneBlock()
      requires Valid() && Live(B) == map[] && Low(pol) < mem.brk
      ensures B == map[Low(pol) := Blk(mem.brk - Low(pol), true)]
    {
      AllFreeIsOneBlock(B, Low(pol), mem.brk);
    }

    /** mm_init. The heap is as it should be afterwards exactly if the list head that an earlier use of
        the arena may have left is not in the way. */
    method Init() returns (ok: bool)
      requires mem.brk == 0 && mem.bytes.Length < 0x8000_0000 && HeadKnown()
      modifies this, mem`brk, mem.bytes
      ensures ok <==> Low(pol) + CHUNKSIZE <= mem.bytes.Length
      ensures HeadKnown()
      ensures ok ==> B == FirstLayout(pol) && mem.brk == Low(pol) + CHUNKSIZE
      ensures ok ==> B == if pol.Segregated() then map[96 := Blk(4096, true)] else map[16 := Blk(4096, true)]
      ensures ok ==> lists == Filed(pol, NoLists(pol), Low(pol), CHUNKSIZE)
      ensures ok ==> (Valid() <==> Reusable(pol, old(freeList)))
    {
      hide Inv, Coalesced, Refiled, Filed;
      if pol == Explicit {
        ok := InitList();
        ListOfOne();
        return;
      }
      ok := InitEmpty();
      if ok {
        var bp := ExtendHeap(CHUNKSIZE / 4);
        ok := bp != 0;
        if ok {
          OneBlock();
          NoListsRefiled(pol, bp, CHUNKSIZE);
        }
        HeadListed();
      }
    }

    lemma ListOfOne()
      ensures Filed(Explicit, NoLists(Explicit), 16, CHUNKSIZE) == [[16]]
    {
      assert [16] + NoLists(Explicit)[0] == [16];
    }

    /** The list head of a heap in use: the first block of mm_list.c's list. */
    lemma HeadListed()
      requires Valid()
      ensures HeadKnown()
      ensures pol == Explicit ==> |lists| == 1 && freeList == (if lists[0] == [] then 0 else lists[0][0])
    {
      if pol == Explicit {
        assert Chained(pol, View(), -8, lists[0]);
        if lists[0] != [] {
          assert Member(pol, B, x, 0, lists[0][0]);
        }
      }
    }

    /** With one free block, that is where the list head points. */
    lemma HeadOfOnly(p: int)
      requires Valid() && pol == Explicit && OnlyFree(B, p)
      ensures freeList == p
    {
      HeadListed();
      OnlyListed(p);
    }

    lemma OnlyListed(p: int)
      requires Valid() && |lists| == 1 && OnlyFree(B, p)
      ensures lists[0] != [] && lists[0][0] == p
    {
      hide Tiled, Tagged, AllAligned, Threaded, Coalesced, Words, WithHead;
      assert Class(pol, B[p].size) == 0 && Member(pol, B, x, 0, p);
      assert p in lists[0];
      assert Member(pol, B, x, 0, lists[0][0]);
    }

    /** The first n payload bytes of an allocated block are filled with one value. */
    method Fill(p: int, v: Byte, n: nat)
      requires Valid() && p in Live(B) && n + 8 <= B[p].size
      modifies mem.bytes
      ensures Valid() && BytesKept(old(mem.bytes[..]), mem.bytes[..], Live(B) - {p})
      ensures Filled(mem.bytes[..], p, n, v)
    {
      hide HeapInv, Coalesced, BytesKept, Words, WithHead;
      BlocksApart(p, p);
      mem.Fill(p, v, n);
      PayloadStored(old(mem.bytes[..]), p);
    }

    /** Allocated blocks are aligned, inside the heap and apart. */
    lemma LiveBlocks(p: int, q: int)
      requires Valid() && p in Live(B) && q in Live(B)
      ensures 16 <= p && p + Live(B)[p] <= mem.brk && Aligned(p)
      ensures p == q || p + Live(B)[p] <= q || q + Live(B)[q] <= p
    {
      BlocksApart(p, q);
      BlockAddress(p);
    }

    /** A request that is freed again leaves the layout as it was, unless the heap had to grow. */
    method MallocFree(size: Word)
      requires Valid() && size <= MaxRequest(pol)
      modifies this, mem`brk, mem.bytes
      ensures Valid() && Live(B) == Live(old(B))
      ensures mem.brk == old(mem.brk) ==> B == old(B)
      ensures BytesKept(old(mem.bytes[..]), mem.bytes[..], Live(B))
    {
      ghost var b0, B0, hi := mem.bytes[..], B, mem.brk;
      assert Tiled(B0, Low(pol), hi) && Coalesced(B0);
      NullNotLive();
      hide Inv, Coalesced, Tiled, BytesKept, NoFit, Chosen, Granted, Live, RequestSize;
      var p := Malloc(size);
      ghost var b1 := mem.bytes[..];
      if p != 0 {
        GrantUndone(B0, B, p, size, RequestSize(pol, size));
      }
      Free(p);
      BytesKeptTransitive(b0, b1, mem.bytes[..], Live(B));
      if mem.brk == hi {
        SameLayout(B0);
      }
    }

    lemma SameLayout(C: Layout)
      requires Valid() && Tiled(C, Low(pol), mem.brk) && Coalesced(C) && Live(B) == Live(C)
      ensures B == C
    {
      LayoutDetermined(B, C, Low(pol), mem.brk);
    }
  }

  /** C is B moved by d bytes: the same blocks in the same order, of the same sizes. */
  ghost predicate Shifted(B: Layout, C: Layout, d: int) {
    && (forall p | p in B :: p + d in C && C[p + d] == B[p])
    && (forall q | q in C :: q - d in B)
  }

  /** On the same layout every allocator's search gives up in the same cases, whatever index it
      keeps: exactly when no free block of the heap fits. */
  method SearchesAgree(g: Heap, h: Heap, n: Word) returns (p: int, q: int)
    requires g.Valid() && h.Valid() && Shifted(g.B, h.B, Low(h.pol) - Low(g.pol)) && 0 < n < 0xFFFF_FFFF
    requires g.pol == SegBest || h.pol == SegBest ==> n <= 0x8000_0000
    ensures p == 0 <==> q == 0
    ensures p == 0 <==> forall r | r in g.B && g.B[r].free :: g.B[r].size < n
  {
    hide g.Inv, h.Inv, Coalesced, Shifted, NoFit, Fits;
    p := g.FindFit(n);
    q := h.FindFit(n);
    ShiftedFit(g.B, h.B, Low(h.pol) - Low(g.pol), n, p, q);
  }

  lemma ShiftedFit(B: Layout, C: Layout, d: int, n: int, p: int, q: int)
    requires Shifted(B, C, d)
    requires p == 0 ==> NoFit(B, n)
    requires p != 0 ==> Fits(B, p, n)
    requires q == 0 ==> NoFit(C, n)
    requires q != 0 ==> Fits(C, q, n)
    ensures p == 0 <==> q == 0
    ensures p == 0 <==> forall r | r in B && B[r].free :: B[r].size < n
  {
    if p != 0 { assert Fits(C, p + d, n); }
    if q != 0 { assert Fits(B, q - d, n); }
    if p == 0 {
      forall r | r in B && B[r].free ensures B[r].size < n {
        assert !Fits(B, r, n);
      }
    }
  }
}
