/** mdriver.c's eval_mm_valid: it replays a trace of requests against an allocator and checks
    alignment, bounds, overlap and the survival of data after every one of them. */
module Driver {
  import opened HeapModel
  import opened FreeLists
  import opened Memory
  import opened Payload
  import opened Allocator
  import opened TraceRuns

  /** No free block fits the request, and the heap cannot grow far enough. */
  ghost predicate NoRoom(h: Heap, size: int)
    reads h, h.mem
  {
    Full(h.pol, h.mem.bytes.Length, h.B, h.mem.brk, size)
  }

  /** Region r is the payload of an allocated block, or the start of it, filled with v. */
  ghost predicate Owned(L: map<int, int>, b: seq<Byte>, r: Region, v: Byte) {
    r.lo in L && 0 < r.size && r.size + 8 <= L[r.lo] && Filled(b, r.lo, r.size, v)
  }

  ghost predicate RecordOf(blocks: map<int, Region>, r: Region) {
    exists id :: id in blocks && blocks[id] == r
  }

  /** What holds between requests: every block of the trace is intact, and the range list is a
      list of their payloads. */
  ghost predicate Tracked(L: map<int, int>, b: seq<Byte>, blocks: map<int, Region>, ranges: seq<Region>) {
    && (forall id | id in blocks :: Owned(L, b, blocks[id], Mark(id)))
    && (forall id, jd | id in blocks && jd in blocks && id != jd :: blocks[id].lo != blocks[jd].lo)
    && (forall r | r in ranges :: RecordOf(blocks, r))
    && (forall i, j | 0 <= i < j < |ranges| :: ranges[i].lo != ranges[j].lo)
  }

  lemma OwnedKept(L: map<int, int>, b: seq<Byte>, K: map<int, int>, c: seq<Byte>, r: Region, v: Byte)
    requires Owned(L, b, r, v) && BytesKept(b, c, K) && r.lo in K && K[r.lo] == L[r.lo]
    ensures Owned(K, c, r, v)
  {
  }

  /** Blocks that keep their bytes stay tracked. */
  lemma TrackedKept(L: map<int, int>, b: seq<Byte>, K: map<int, int>, c: seq<Byte>,
                    blocks: map<int, Region>, ranges: seq<Region>)
    requires Tracked(L, b, blocks, ranges) && BytesKept(b, c, K)
    requires forall id | id in blocks :: blocks[id].lo in K && K[blocks[id].lo] == L[blocks[id].lo]
    ensures Tracked(K, c, blocks, ranges)
  {
    forall id | id in blocks ensures Owned(K, c, blocks[id], Mark(id)) {
      OwnedKept(L, b, K, c, blocks[id], Mark(id));
    }
  }

  lemma TrackedMore(L: map<int, int>, K: map<int, int>, b: seq<Byte>, blocks: map<int, Region>, ranges: seq<Region>)
    requires Tracked(K, b, blocks, ranges) && forall p | p in K :: p in L && L[p] == K[p]
    ensures Tracked(L, b, blocks, ranges)
  {
  }

  lemma TrackedAdd(L: map<int, int>, b: seq<Byte>, blocks: map<int, Region>, ranges: seq<Region>, id: int, r: Region)
    requires Tracked(L, b, blocks, ranges) && id !in blocks && Owned(L, b, r, Mark(id))
    requires forall jd | jd in blocks :: blocks[jd].lo != r.lo
    ensures Tracked(L, b, blocks[id := r], [r] + ranges)
  {
    var blocks' := blocks[id := r];
    forall q | q in [r] + ranges ensures RecordOf(blocks', q) {
      if q == r {
        assert blocks'[id] == q;
      } else {
        assert RecordOf(blocks, q);
        var jd :| jd in blocks && blocks[jd] == q;
        assert blocks'[jd] == q;
      }
    }
    forall q | q in ranges ensures q.lo != r.lo {
      assert RecordOf(blocks, q);
      var jd :| jd in blocks && blocks[jd] == q;
    }
  }

  lemma TrackedDrop(L: map<int, int>, b: seq<Byte>, blocks: map<int, Region>, ranges: seq<Region>,
                    id: int, rest: seq<Region>)
    requires Tracked(L, b, blocks, ranges) && id in blocks
    requires forall r | r in rest :: r in ranges && r.lo != blocks[id].lo
    requires forall i, j | 0 <= i < j < |rest| :: rest[i].lo != rest[j].lo
    ensures Tracked(L, b, blocks - {id}, rest)
  {
    forall r | r in rest ensures RecordOf(blocks - {id}, r) {
      assert RecordOf(blocks, r);
      var jd :| jd in blocks && blocks[jd] == r;
      assert (blocks - {id})[jd] == r;
    }
  }

  /** A freed block is forgotten and the others stay tracked. */
  lemma FreeTracked(L: map<int, int>, K: map<int, int>, b: seq<Byte>, c: seq<Byte>,
                    blocks: map<int, Region>, ranges: seq<Region>, id: int, rest: seq<Region>)
    requires Tracked(L, b, blocks, ranges) && id in blocks
    requires K == L - {blocks[id].lo} && BytesKept(b, c, K)
    requires forall r | r in rest :: r in ranges && r.lo != blocks[id].lo
    requires forall i, j | 0 <= i < j < |rest| :: rest[i].lo != rest[j].lo
    ensures Tracked(K, c, blocks - {id}, rest)
  {
    TrackedDrop(L, b, blocks, ranges, id, rest);
    forall jd | jd in blocks - {id} ensures blocks[jd].lo in K && K[blocks[jd].lo] == L[blocks[jd].lo] {
      assert Owned(L, b, blocks[jd], Mark(jd));
    }
    hide Tracked, BytesKept;
    TrackedKept(L, b, K, c, blocks - {id}, rest);
  }

  ghost predicate HeadOf(blocks: map<int, Region>, p: int) {
    exists id :: id in blocks && blocks[id].lo == p
  }

  /** The driver has been told of every allocated block. */
  ghost predicate AllKnown(L: map<int, int>, blocks: map<int, Region>) {
    forall p | p in L :: HeadOf(blocks, p)
  }

  lemma KnownAdd(L: map<int, int>, K: map<int, int>, blocks: map<int, Region>, id: int, p: int, size: int)
    requires AllKnown(L, blocks) && id !in blocks && p in K && K == L[p := K[p]]
    ensures AllKnown(K, blocks[id := Region(p, size)])
  {
    var blocks' := blocks[id := Region(p, size)];
    forall q | q in K ensures HeadOf(blocks', q) {
      if q == p {
        assert blocks'[id].lo == q;
      } else {
        assert HeadOf(blocks, q);
        var jd :| jd in blocks && blocks[jd].lo == q;
        assert blocks'[jd].lo == q;
      }
    }
  }

  lemma KnownDrop(L: map<int, int>, blocks: map<int, Region>, id: int)
    requires AllKnown(L, blocks) && id in blocks
    ensures AllKnown(L - {blocks[id].lo}, blocks - {id})
  {
    forall q | q in L - {blocks[id].lo} ensures HeadOf(blocks - {id}, q) {
      assert HeadOf(blocks, q);
      var jd :| jd in blocks && blocks[jd].lo == q;
      assert (blocks - {id})[jd].lo == q;
    }
  }

  lemma KnownMove(L: map<int, int>, K: map<int, int>, blocks: map<int, Region>, id: int, np: int, size: int)
    requires AllKnown(L, blocks) && id in blocks && Moved(L, K, blocks[id].lo, np, size) && np != blocks[id].lo
    ensures AllKnown(K, (blocks - {id})[id := Region(np, size)])
  {
    KnownDrop(L, blocks, id);
    var M := L - {blocks[id].lo};
    assert K == M[np := K[np]];
    KnownAdd(M, K, blocks - {id}, id, np, size);
  }

  /** The driver's overlap test between a new payload and a recorded one. */
  predicate Hits(lo: int, size: int, r: Region) {
    var hi, rhi := lo + size - 1, r.lo + r.size - 1;
    (lo >= r.lo && lo <= rhi) || (hi >= r.lo && hi <= rhi)
  }

  predicate InRegion(r: Region, a: int) { r.lo <= a < r.lo + r.size }

  ghost predicate Overlap(q: Region, r: Region) {
    exists a :: InRegion(q, a) && InRegion(r, a)
  }

  /** The test finds every overlap except those where the new payload sticks out on both sides. */
  lemma HitsExactly(lo: int, size: int, r: Region)
    requires size > 0 && r.size > 0
    ensures Hits(lo, size, r) <==> Overlap(Region(lo, size), r) && !(lo < r.lo && r.lo + r.size < lo + size)
  {
    var q := Region(lo, size);
    if Hits(lo, size, r) {
      assert InRegion(q, lo) && InRegion(q, lo + size - 1);
      assert InRegion(r, lo) || InRegion(r, lo + size - 1);
    }
  }

  /** add_range: the checks on a new payload, and its record. */
  method AddRange(ranges: seq<Region>, lo: int, size: int, heapHi: int) returns (ok: bool, ranges': seq<Region>)
    ensures ok <==> lo % 8 == 0 && 0 <= lo <= heapHi && 0 <= lo + size - 1 <= heapHi
                    && forall r | r in ranges :: !Hits(lo, size, r)
    ensures ok ==> ranges' == [Region(lo, size)] + ranges
  {
    ranges' := ranges;
    var hi := lo + size - 1;
    if lo % 8 != 0 {
      return false, ranges;
    }
    if lo < 0 || lo > heapHi || hi < 0 || hi > heapHi {
      return false, ranges;
    }
    for i := 0 to |ranges|
      invariant forall j | 0 <= j < i :: !Hits(lo, size, ranges[j])
    {
      if Hits(lo, size, ranges[i]) {
        return false, ranges;
      }
    }
    ok, ranges' := true, [Region(lo, size)] + ranges;
  }

  /** remove_range: forgets the first record of the payload at lo. */
  method RemoveRange(ranges: seq<Region>, lo: int) returns (rest: seq<Region>)
    requires forall i, j | 0 <= i < j < |ranges| :: ranges[i].lo != ranges[j].lo
    ensures forall r | r in rest :: r in ranges && r.lo != lo
    ensures forall i, j | 0 <= i < j < |rest| :: rest[i].lo != rest[j].lo
  {
    for i := 0 to |ranges|
      invariant forall j | 0 <= j < i :: ranges[j].lo != lo
    {
      if ranges[i].lo == lo {
        return ranges[..i] + ranges[i + 1..];
      }
    }
    rest := ranges;
  }

  /** A payload of an allocated block that the driver does not know yet passes its checks. */
  lemma NewRangeFits(h: Heap, blocks: map<int, Region>, ranges: seq<Region>, lo: int, size: int)
    requires h.Valid() && Tracked(Live(h.B), h.mem.bytes[..], blocks, ranges)
    requires lo in Live(h.B) && 0 < size && size + 8 <= Live(h.B)[lo]
    requires forall id | id in blocks :: blocks[id].lo != lo
    ensures lo % 8 == 0 && 0 <= lo <= h.mem.brk - 1 && 0 <= lo + size - 1 <= h.mem.brk - 1
    ensures forall r | r in ranges :: !Hits(lo, size, r)
  {
    hide h.Inv, Live, Coalesced, Filled;
    h.LiveBlocks(lo, lo);
    forall r | r in ranges ensures !Hits(lo, size, r) {
      assert RecordOf(blocks, r);
      var id :| id in blocks && blocks[id] == r;
      assert Owned(Live(h.B), h.mem.bytes[..], r, Mark(id));
      h.LiveBlocks(lo, r.lo);
    }
  }

  /** The end of an ALLOC or REALLOC request whose range is in the list: fill and remember it. */
  method Record(h: Heap, id: int, p: int, size: int, blocks: map<int, Region>, ghost ranges: seq<Region>)
    returns (blocks': map<int, Region>)
    requires h.Valid() && Tracked(Live(h.B), h.mem.bytes[..], blocks, ranges) && id !in blocks
    requires p in Live(h.B) && 0 < size && size + 8 <= Live(h.B)[p]
    requires forall jd | jd in blocks :: blocks[jd].lo != p
    modifies h.mem.bytes
    ensures h.Valid() && blocks' == blocks[id := Region(p, size)]
    ensures Tracked(Live(h.B), h.mem.bytes[..], blocks', [Region(p, size)] + ranges)
  {
    hide h.Inv, Coalesced, BytesKept, Filled;
    assert p in h.B && h.B[p].size == Live(h.B)[p];
    ghost var b, L := h.mem.bytes[..], Live(h.B);
    h.Fill(p, Mark(id), size);
    blocks' := blocks[id := Region(p, size)];
    TrackedKept(L, b, L - {p}, h.mem.bytes[..], blocks, ranges);
    TrackedMore(L, L - {p}, h.mem.bytes[..], blocks, ranges);
    TrackedAdd(L, h.mem.bytes[..], blocks, ranges, id, Region(p, size));
  }

  /** add_range on the payload just handed out never objects. */
  method AddNewRange(h: Heap, p: int, size: int, ghost blocks: map<int, Region>, ranges: seq<Region>)
    returns (ok: bool, ranges': seq<Region>)
    requires h.Valid() && Tracked(Live(h.B), h.mem.bytes[..], blocks, ranges)
    requires p in Live(h.B) && 0 < size && size + 8 <= Live(h.B)[p]
    requires forall jd | jd in blocks :: blocks[jd].lo != p
    ensures ok && ranges' == [Region(p, size)] + ranges
  {
    NewRangeFits(h, blocks, ranges, p, size);
    ok, ranges' := AddRange(ranges, p, size, h.mem.brk - 1);
  }

  lemma GrantedLive(B: Layout, C: Layout, p: int, size: int, n: int)
    requires Granted(B, C, p, size, n)
    ensures p !in Live(B) && p in C && p in Live(C) && Live(C) == Live(B)[p := Live(C)[p]] && size + 8 <= Live(C)[p]
  {
  }

  /** After a malloc the old blocks are still tracked, and the new one is not among them. */
  lemma AllocTracked(L: map<int, int>, K: map<int, int>, b: seq<Byte>, c: seq<Byte>,
                     blocks: map<int, Region>, ranges: seq<Region>, p: int)
    requires Tracked(L, b, blocks, ranges) && BytesKept(b, c, L) && p !in L && p in K && K == L[p := K[p]]
    ensures Tracked(K, c, blocks, ranges)
    ensures forall id | id in blocks :: blocks[id].lo != p
  {
    forall id | id in blocks ensures blocks[id].lo in L {
      assert Owned(L, b, blocks[id], Mark(id));
    }
    TrackedKept(L, b, L, c, blocks, ranges);
    TrackedMore(K, L, c, blocks, ranges);
  }

  method DoAlloc(h: Heap, id: int, size: int, blocks: map<int, Region>, ranges: seq<Region>)
    returns (v: Verdict, blocks': map<int, Region>, ranges': seq<Region>)
    requires h.Valid() && Tracked(Live(h.B), h.mem.bytes[..], blocks, ranges)
    requires id !in blocks && 0 < size <= MaxRequest(h.pol) && AllKnown(Live(h.B), blocks)
    modifies h, h.mem`brk, h.mem.bytes
    ensures h.Valid() && v == if old(NoRoom(h, size)) then OutOfMemory else Valid
    ensures v == Valid ==> AllKnown(Live(h.B), blocks') && Low(h.pol) < h.mem.brk
    ensures v == Valid ==> Tracked(Live(h.B), h.mem.bytes[..], blocks', ranges')
    ensures v == Valid ==>
              Served(h.pol, Alloc(id, size), Snap(old(h.B), old(h.mem.brk), blocks), Snap(h.B, h.mem.brk, blocks'))
  {
    hide h.Inv, Coalesced, BytesKept, Live, NoFit, RequestSize, Granted, Tracked, AllKnown, GrownFor, Tiled;
    ghost var B0, b, lists0, hi := h.B, h.mem.bytes[..], h.lists, h.mem.brk;
    var p := h.Malloc(size);
    if p == 0 {
      return OutOfMemory, blocks, ranges;
    }
    ghost var n := RequestSize(h.pol, size);
    ChosenBrk(h.pol, B0, lists0, hi, h.mem.brk, p, n);
    GrantedLive(B0, h.B, p, size, n);
    h.BlockAddress(p);
    AllocTracked(Live(B0), Live(h.B), b, h.mem.bytes[..], blocks, ranges, p);
    KnownAdd(Live(B0), Live(h.B), blocks, id, p, size);
    var ok;
    ok, ranges' := AddNewRange(h, p, size, blocks, ranges);
    if !ok {
      return BadRange, blocks, ranges';
    }
    blocks' := Record(h, id, p, size, blocks, ranges);
    h.Shape();
    v := Valid;
  }

  /** Without the block that realloc moved, the others are still tracked. */
  lemma ReallocTracked(L: map<int, int>, K: map<int, int>, b: seq<Byte>, c: seq<Byte>, blocks: map<int, Region>,
                       ranges: seq<Region>, rest: seq<Region>, id: int, np: int, size: int)
    requires Tracked(L, b, blocks, ranges) && id in blocks
    requires forall r | r in rest :: r in ranges && r.lo != blocks[id].lo
    requires forall i, j | 0 <= i < j < |rest| :: rest[i].lo != rest[j].lo
    requires Reallocated(b, c, L, K, blocks[id].lo, np, size)
    ensures Tracked(K, c, blocks - {id}, rest)
    ensures forall jd | jd in blocks :: blocks[jd].lo != np
    ensures Filled(c, np, Least(size, blocks[id].size), Mark(id)) && np in K && size + 8 <= K[np]
    ensures Moved(L, K, blocks[id].lo, np, size) && np != blocks[id].lo
  {
    var ptr := blocks[id].lo;
    assert Owned(L, b, blocks[id], Mark(id));
    forall jd | jd in blocks ensures blocks[jd].lo in L {
      assert Owned(L, b, blocks[jd], Mark(jd));
    }
    TrackedDrop(L, b, blocks, ranges, id, rest);
    TrackedKept(L, b, L - {ptr}, c, blocks - {id}, rest);
    TrackedMore(K, L - {ptr}, c, blocks - {id}, rest);
  }

  /** The driver's check of the first n chars at p against the mark of block id. */
  method AllMarked(h: Heap, p: int, n: int, id: int) returns (ok: bool)
    requires 0 <= p && p + n <= h.mem.bytes.Length
    ensures ok <==> forall j | p <= j < p + n :: SignedChar(h.mem.bytes[j]) == id % 0x100
  {
    var j := 0;
    while j < n
      invariant 0 <= j && (j <= n || j == 0)
      invariant forall i | p <= i < p + j :: SignedChar(h.mem.bytes[i]) == id % 0x100
    {
      if SignedChar(h.mem.bytes[p + j]) != id % 0x100 {
        return false;
      }
      j := j + 1;
    }
    ok := true;
  }

  /** Bytes that are all the mark of the block read as the mark only if it is below 128. */
  lemma MarkRead(b: seq<Byte>, p: int, n: int, id: int)
    requires 0 <= p && 0 < n && p + n <= |b| && Filled(b, p, n, Mark(id))
    ensures (forall j | p <= j < p + n :: SignedChar(b[j]) == id % 0x100) <==> id % 0x100 < 0x80
  {
    assert b[p] == Mark(id);
  }

  /** The rest of a REALLOC request: is the range good, and is the old data there? */
  method CheckMoved(h: Heap, id: int, np: int, size: int, n: int, blocks: map<int, Region>, rest: seq<Region>)
    returns (v: Verdict, blocks': map<int, Region>, ranges': seq<Region>)
    requires h.Valid() && id in blocks && Tracked(Live(h.B), h.mem.bytes[..], blocks - {id}, rest)
    requires np in Live(h.B) && 0 < size && size + 8 <= Live(h.B)[np]
    requires forall jd | jd in blocks :: blocks[jd].lo != np
    requires 0 < n <= size && Filled(h.mem.bytes[..], np, n, Mark(id))
    modifies h.mem.bytes
    ensures h.Valid() && v == if Misread(Resize(id, size)) then LostData else Valid
    ensures v == Valid ==> blocks' == (blocks - {id})[id := Region(np, size)]
    ensures v == Valid ==> Tracked(Live(h.B), h.mem.bytes[..], blocks', ranges')
  {
    hide h.Inv, Coalesced, Tiled, Live, Tracked, Filled, SignedChar;
    h.LiveBlocks(np, np);
    var ok;
    ok, ranges' := AddNewRange(h, np, size, blocks - {id}, rest);
    if !ok {
      return BadRange, blocks, ranges';
    }
    h.Shape();
    MarkRead(h.mem.bytes[..], np, n, id);
    ok := AllMarked(h, np, n, id);
    if !ok {
      return LostData, blocks, ranges';
    }
    blocks' := Record(h, id, np, size, blocks - {id}, rest);
    v := Valid;
  }

  /** Whether the mm_malloc of a realloc is about to fail. */
  method RunsOut(h: Heap, size: int) returns (full: bool)
    requires h.Valid() && 0 < size <= MaxRequest(h.pol)
    ensures full <==> NoRoom(h, size)
  {
    hide h.Inv, Coalesced, NoFit, Fits, RequestSize;
    var n := RequestSize(h.pol, size);
    RequestFits(h.pol, size);
    GrowthWords(n);
    var p := h.FindFit(n);
    full := p == 0 && h.mem.brk + Growth(n) > h.mem.bytes.Length;
    if p != 0 { FitsSome(h.B, p, n); }
  }

  lemma FitsSome(B: Layout, p: int, n: int)
    requires Fits(B, p, n)
    ensures !NoFit(B, n)
  {
  }

  lemma TrackedMeans(L: map<int, int>, b: seq<Byte>, blocks: map<int, Region>, ranges: seq<Region>, id: int)
    requires Tracked(L, b, blocks, ranges) && id in blocks
    ensures blocks[id].lo in L && 0 < blocks[id].size
    ensures forall i, j | 0 <= i < j < |ranges| :: ranges[i].lo != ranges[j].lo
  {
    assert Owned(L, b, blocks[id], Mark(id));
  }

  /** mm_realloc, as the driver sees it. */
  method TryRealloc(h: Heap, ptr: int, size: int) returns (v: Verdict, np: int)
    requires h.Valid() && ptr in Live(h.B) && 0 < size <= MaxRequest(h.pol)
    modifies h, h.mem`brk, h.mem.bytes
    ensures v == if old(!NoRoom(h, size)) then Valid else if h.pol == SegFirst then Crashed else OutOfMemory
    ensures h.Valid() && (v == Valid ==> Low(h.pol) < h.mem.brk)
    ensures v == Valid ==> GrownFor(old(h.B), old(h.mem.brk), h.mem.brk, RequestSize(h.pol, size))
    ensures v == Valid && !NoFit(old(h.B), RequestSize(h.pol, size)) ==>
              CutLive(old(h.B), Live(h.B), np, RequestSize(h.pol, size))
    ensures v == Valid ==> Reallocated(old(h.mem.bytes[..]), h.mem.bytes[..], Live(old(h.B)), Live(h.B), ptr, np, size)
  {
    hide h.Inv, Coalesced, BytesKept, NoFit, RequestSize, Growth, Copied;
    if h.pol == SegFirst {
      var full := RunsOut(h, size);
      if full {
        return Crashed, 0;
      }
    }
    ghost var B0, lists0, hi := h.B, h.lists, h.mem.brk;
    np := h.Realloc(ptr, size);
    if np != 0 { ChosenBrk(h.pol, B0, lists0, hi, h.mem.brk, np, RequestSize(h.pol, size)); }
    v := if np == 0 then OutOfMemory else Valid;
    if np != 0 { h.BlockAddress(np); }
  }

  method DoRealloc(h: Heap, id: int, size: int, blocks: map<int, Region>, ranges: seq<Region>)
    returns (v: Verdict, blocks': map<int, Region>, ranges': seq<Region>)
    requires h.Valid() && Tracked(Live(h.B), h.mem.bytes[..], blocks, ranges)
    requires id in blocks && 0 < size <= MaxRequest(h.pol) && AllKnown(Live(h.B), blocks)
    modifies h, h.mem`brk, h.mem.bytes
    ensures v == if old(NoRoom(h, size)) then (if h.pol == SegFirst then Crashed else OutOfMemory)
                 else if Misread(Resize(id, size)) then LostData else Valid
    ensures h.Valid() && (v == Valid ==> AllKnown(Live(h.B), blocks') && Low(h.pol) < h.mem.brk)
    ensures v == Valid ==> Tracked(Live(h.B), h.mem.bytes[..], blocks', ranges')
    ensures v == Valid ==>
              Served(h.pol, Resize(id, size), Snap(old(h.B), old(h.mem.brk), blocks), Snap(h.B, h.mem.brk, blocks'))
  {
    hide h.Inv, Coalesced, BytesKept, Live, NoRoom, Reallocated, Moved, Growth, Tracked, Filled, AllKnown, Misread,
      Tiled, GrownFor, RequestSize;
    TrackedMeans(Live(h.B), h.mem.bytes[..], blocks, ranges, id);
    var old_r := blocks[id];
    ghost var L, b := Live(h.B), h.mem.bytes[..];
    var np;
    v, np := TryRealloc(h, old_r.lo, size);
    if v != Valid {
      return v, blocks, ranges;
    }
    ghost var K, c := Live(h.B), h.mem.bytes[..];
    var rest := RemoveRange(ranges, old_r.lo);
    ReallocTracked(L, K, b, c, blocks, ranges, rest, id, np, size);
    KnownMove(L, K, blocks, id, np, size);
    v, blocks', ranges' := CheckMoved(h, id, np, size, Least(size, old_r.size), blocks, rest);
    if v == Valid { h.Shape(); }
  }

  method DoFree(h: Heap, id: int, blocks: map<int, Region>, ranges: seq<Region>)
    returns (blocks': map<int, Region>, ranges': seq<Region>)
    requires h.Valid() && Tracked(Live(h.B), h.mem.bytes[..], blocks, ranges) && id in blocks
    requires AllKnown(Live(h.B), blocks) && Low(h.pol) < h.mem.brk
    modifies h, h.mem`brk, h.mem.bytes
    ensures h.Valid() && blocks' == blocks - {id} && AllKnown(Live(h.B), blocks') && Low(h.pol) < h.mem.brk
    ensures Served(h.pol, Release(id), Snap(old(h.B), old(h.mem.brk), blocks), Snap(h.B, h.mem.brk, blocks'))
    ensures Tracked(Live(h.B), h.mem.bytes[..], blocks', ranges')
  {
    hide h.Inv, Coalesced, BytesKept, Live, AllKnown, Tracked, Tiled, Words, WithHead;
    var p := blocks[id].lo;
    ghost var L, b := Live(h.B), h.mem.bytes[..];
    TrackedMeans(L, b, blocks, ranges, id);
    ranges' := RemoveRange(ranges, p);
    blocks' := blocks - {id};
    KnownDrop(L, blocks, id);
    h.Free(p);
    h.Shape();
    FreeTracked(L, Live(h.B), b, h.mem.bytes[..], blocks, ranges, id, ranges');
  }

  /** Whatever the trace, whichever allocator, and however much memory there is: no payload is found
      misaligned, misplaced or overlapping; each request is served as `Served` says until one runs
      out of memory or is a realloc that the driver misreads; and after a run that ends well the
      blocks still allocated hold their data, or, if there are none, the heap is one free block. */
  method EvalMmValid(h: Heap, ops: seq<Op>) returns (v: Verdict, ghost run: seq<Snap>)
    requires h.HeadKnown() && Reusable(h.pol, h.freeList) && h.mem.bytes.Length < 0x8000_0000
    requires TraceOk(h.pol, ops, {})
    modifies h, h.mem`brk, h.mem.bytes
    ensures v == InitFailed <==> h.mem.bytes.Length < Low(h.pol) + CHUNKSIZE
    ensures v != InitFailed ==>
              IsRun(h.pol, h.mem.bytes.Length, ops, run) && EndsWith(h.pol, h.mem.bytes.Length, ops, run, v)
    ensures v != InitFailed && Low(h.pol) + CHUNKSIZE + Demand(h.pol, ops) <= h.mem.bytes.Length ==>
              v == if exists op | op in ops :: Misread(op) then LostData else Valid
    ensures v != InitFailed ==> h.Valid()
    ensures h.HeadKnown()
    ensures v == Valid ==> Holds(h, Last(run).blocks) && Last(run) == Snap(h.B, h.mem.brk, Last(run).blocks)
    ensures v == Valid ==> Last(run).blocks.Keys == Remaining(ops, {})
    ensures v == Valid && Remaining(ops, {}) == {} ==> h.B == map[Low(h.pol) := Blk(h.mem.brk - Low(h.pol), true)]
  {
    hide h.Inv, Coalesced, Live, Owned, AllKnown, IsRun, EndsWith, Demand, Misread;
    run := [FirstSnap(h.pol)];
    h.mem.ResetBrk();
    var ok := h.Init();
    if !ok {
      return InitFailed, run;
    }
    OneFree(h.B, Low(h.pol), CHUNKSIZE);
    v, run := Replay(h, ops);
    h.HeadListed();
    if Low(h.pol) + CHUNKSIZE + Demand(h.pol, ops) <= h.mem.bytes.Length {
      RoomyVerdict(h.pol, h.mem.bytes.Length, ops, run, v);
    }
    if v == Valid && Last(run).blocks.Keys == {} {
      NothingLive(Live(h.B), Last(run).blocks);
      h.OneBlock();
    }
  }

  ghost function Last(run: seq<Snap>): Snap
    requires run != []
  {
    run[|run| - 1]
  }

  /** Every block handed out holds the data written to it. */
  ghost predicate Holds(h: Heap, blocks: map<int, Region>)
    reads h, h.mem, h.mem.bytes
  {
    forall id | id in blocks :: Owned(Live(h.B), h.mem.bytes[..], blocks[id], Mark(id))
  }

  lemma OneFree(B: Layout, p: int, size: int)
    requires B == map[p := Blk(size, true)]
    ensures Live(B) == map[]
  {
  }

  lemma NothingLive(L: map<int, int>, blocks: map<int, Region>)
    requires AllKnown(L, blocks) && blocks.Keys == {}
    ensures L == map[]
  {
    assert forall id :: id !in blocks;
    assert forall p | p in L :: HeadOf(blocks, p);
    assert forall p :: p !in L;
    assert L.Keys == {};
  }

  /** One request, by its type. */
  method Handle(h: Heap, op: Op, blocks: map<int, Region>, ranges: seq<Region>)
    returns (v: Verdict, blocks': map<int, Region>, ranges': seq<Region>)
    requires h.Valid() && Tracked(Live(h.B), h.mem.bytes[..], blocks, ranges) && AllKnown(Live(h.B), blocks)
    requires RequestOk(h.pol, op, blocks.Keys) && Low(h.pol) < h.mem.brk
    modifies h, h.mem`brk, h.mem.bytes
    ensures v == if old(Starved(h.pol, h.mem.bytes.Length, op, Snap(h.B, h.mem.brk, blocks)))
                 then (if op.Resize? && h.pol == SegFirst then Crashed else OutOfMemory)
                 else if Misread(op) then LostData else Valid
    ensures h.Valid()
    ensures v == Valid ==> Tracked(Live(h.B), h.mem.bytes[..], blocks', ranges')
    ensures v == Valid ==> AllKnown(Live(h.B), blocks') && Low(h.pol) < h.mem.brk
    ensures v == Valid ==> Served(h.pol, op, Snap(old(h.B), old(h.mem.brk), blocks), Snap(h.B, h.mem.brk, blocks'))
  {
    hide h.Inv, Coalesced, Tiled, Live, Tracked, AllKnown, Answered, Full;
    match op {
      case Alloc(id, size) => v, blocks', ranges' := DoAlloc(h, id, size, blocks, ranges);
      case Resize(id, size) => v, blocks', ranges' := DoRealloc(h, id, size, blocks, ranges);
      case Release(id) =>
        v := Valid;
        blocks', ranges' := DoFree(h, id, blocks, ranges);
    }
  }

  /** The loop over the requests. */
  method Replay(h: Heap, ops: seq<Op>) returns (v: Verdict, ghost run: seq<Snap>)
    requires h.Valid() && TraceOk(h.pol, ops, {}) && Live(h.B) == map[]
    requires Snap(h.B, h.mem.brk, map[]) == FirstSnap(h.pol)
    modifies h, h.mem`brk, h.mem.bytes
    ensures v != InitFailed && run != [] && IsRun(h.pol, h.mem.bytes.Length, ops, run)
    ensures EndsWith(h.pol, h.mem.bytes.Length, ops, run, v)
    ensures h.Valid()
    ensures v == Valid ==> Holds(h, Last(run).blocks) && Last(run) == Snap(h.B, h.mem.brk, Last(run).blocks)
    ensures v == Valid ==> Last(run).blocks.Keys == Remaining(ops, {})
    ensures v == Valid ==> AllKnown(Live(h.B), Last(run).blocks) && Low(h.pol) < h.mem.brk
  {
    var blocks: map<int, Region>, ranges: seq<Region> := map[], [];
    assert ops[0..] == ops && blocks.Keys == {};
    hide h.Inv, Coalesced, Tiled, Live, Starved, Misread, Answered, RequestOk;
    run := [FirstSnap(h.pol)];
    ghost var limit := h.mem.bytes.Length;
    for i := 0 to |ops|
      invariant h.Valid() && Tracked(Live(h.B), h.mem.bytes[..], blocks, ranges)
      invariant TraceOk(h.pol, ops[i..], blocks.Keys) && AllKnown(Live(h.B), blocks) && Low(h.pol) < h.mem.brk
      invariant Remaining(ops[i..], blocks.Keys) == Remaining(ops, {})
      invariant IsRun(h.pol, limit, ops, run) && |run| == i + 1 && run[i] == Snap(h.B, h.mem.brk, blocks)
    {
      hide Tracked, AllKnown, IsRun;
      assert ops[i..][1..] == ops[i + 1..];
      v, blocks, ranges := Handle(h, ops[i], blocks, ranges);
      if v != Valid {
        return v, run;
      }
      ghost var t := Snap(h.B, h.mem.brk, blocks);
      ServedHolds(h.pol, ops[i], run[i], t);
      RunGrows(h.pol, limit, ops, run, t);
      run := run + [t];
    }
    v := Valid;
  }

  /** Block 128 allocated and resized: every allocator is reported to have lost its data. */
  method ReportsHighMark(h: Heap) returns (v: Verdict)
    requires h.freeList == 0 && Low(h.pol) + CHUNKSIZE <= h.mem.bytes.Length < 0x8000_0000
    modifies h, h.mem`brk, h.mem.bytes
    ensures v == LostData
  {
    var ops := [Alloc(128, 16), Resize(128, 32)];
    TwoRequests(h.pol, 128, 16, 32);
    ghost var run;
    v, run := EvalMmValid(h, ops);
    MarkOf128(h.pol, h.mem.bytes.Length, run, v);
  }

  /** mm.c in the driver's arena: a realloc without room crashes. */
  method CrashesWhenFull(h: Heap) returns (v: Verdict)
    requires h.pol == SegFirst && h.freeList == 0 && h.mem.bytes.Length == MAX_HEAP
    modifies h, h.mem`brk, h.mem.bytes
    ensures v == Crashed
  {
    var ops := [Alloc(0, 12_000_000), Resize(0, 12_000_000)];
    TwoRequests(SegFirst, 0, 12_000_000, 12_000_000);
    ghost var run;
    v, run := EvalMmValid(h, ops);
    CrashIn20MB(run, v);
  }

  lemma TwoRequests(pol: Policy, id: int, m: int, n: int)
    requires 0 < m <= MaxRequest(pol) && 0 < n <= MaxRequest(pol)
    ensures TraceOk(pol, [Alloc(id, m), Resize(id, n)], {})
  {
    var ops := [Alloc(id, m), Resize(id, n)];
    assert ops[1..] == [Resize(id, n)] && ops[1..][1..] == [];
    assert TraceOk(pol, ops[1..][1..], {id});
    assert Holding(ops[0], {}) == {id} && Holding(ops[1], {id}) == {id};
    assert TraceOk(pol, ops[1..], {id});
  }

  /** After this trace of three requests, all of them served, the next mm_init of mm_list.c leaves a
      heap whose only block has lost its footer. */
  method SpoilsNextTrace(h: Heap) returns (v: Verdict, ok: bool)
    requires h.pol == Explicit && h.freeList == 0 && h.mem.bytes.Length == MAX_HEAP
    modifies h, h.mem`brk, h.mem.bytes
    ensures v == Valid && ok && !h.Valid()
  {
    hide h.Inv, Coalesced, IsRun, EndsWith, Spoiler, OnlyFree, Holds, TraceOk, Demand, Misread;
    SpoilerOk();
    ghost var run;
    v, run := EvalMmValid(h, Spoiler());
    SpoilerEnds(MAX_HEAP, run, v);
    h.HeadOfOnly(4104);
    h.mem.ResetBrk();
    ok := h.Init();
  }

  lemma SpoilerOk()
    ensures TraceOk(Explicit, Spoiler(), {})
  {
    var ops := Spoiler();
    assert ops[1..] == [ops[1], ops[2]] && ops[1..][1..] == [ops[2]];
    assert Holding(ops[0], {}) == {0} && Holding(ops[1], {0}) == {};
    assert TraceOk(Explicit, [ops[2]], {});
  }
}
