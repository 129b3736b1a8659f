/** The runs of mdriver.c's eval_mm_valid over a trace of requests, and the verdict each ends with. */
module TraceRuns {
  import opened HeapModel
  import opened FreeLists
  import opened Memory
  import opened Payload
  import opened Layouts
  import opened Allocator

  /** The size of the driver's arena (config.h). */
  const MAX_HEAP := 20 * 0x10_0000

  datatype Op = Alloc(id: int, size: int) | Resize(id: int, size: int) | Release(id: int)

  /** A payload the driver has been given: its first byte and its requested size. */
  datatype Region = Region(lo: int, size: int)

  /** Crashed: mm.c's mm_realloc copies to the null pointer when its mm_malloc fails. */
  datatype Verdict = Valid | InitFailed | OutOfMemory | Crashed | BadRange | LostData

  /** A trace names only blocks it has allocated, and asks for sizes the allocator can serve. */
  ghost predicate TraceOk(pol: Policy, ops: seq<Op>, ids: set<int>) {
    ops == [] || (RequestOk(pol, ops[0], ids) && TraceOk(pol, ops[1..], Holding(ops[0], ids)))
  }

  predicate RequestOk(pol: Policy, op: Op, ids: set<int>) {
    match op
    case Alloc(id, size) => id !in ids && 0 < size <= MaxRequest(pol)
    case Resize(id, size) => id in ids && 0 < size <= MaxRequest(pol)
    case Release(id) => id in ids
  }

  /** The blocks that a trace leaves allocated. */
  function Remaining(ops: seq<Op>, ids: set<int>): set<int> {
    if ops == [] then ids else Remaining(ops[1..], Holding(ops[0], ids))
  }

  function Holding(op: Op, ids: set<int>): set<int> {
    match op
    case Alloc(id, _) => ids + {id}
    case Resize(_, _) => ids
    case Release(id) => ids - {id}
  }

  /** The byte the driver fills block id with. */
  function Mark(id: int): Byte {
    id % 0x100
  }

  /** A byte as a char of the driver, which is signed. */
  function SignedChar(b: Byte): int {
    if b < 0x80 then b else b - 0x100
  }

  /** The driver compares a signed char with a mark from 0 to 255. For a mark of 128 or more they
      always differ, so a realloc of such a block is reported whatever the allocator did. */
  predicate Misread(op: Op) {
    op.Resize? && op.id % 0x100 >= 0x80
  }

  /** What a run of the driver has made of the heap: layout, break and the blocks handed out. */
  datatype Snap = Snap(B: Layout, brk: int, blocks: map<int, Region>)

  /** No free block fits a request, and the heap cannot grow far enough below the limit. */
  ghost predicate Full(pol: Policy, limit: int, B: Layout, brk: int, size: int) {
    0 < size <= MaxRequest(pol) && NoMemory(B, brk, limit, RequestSize(pol, size))
  }

  ghost predicate Starved(pol: Policy, limit: int, op: Op, s: Snap) {
    !op.Release? && Full(pol, limit, s.B, s.brk, op.size)
  }

  /** The request is served, and nothing else changes. */
  ghost predicate Served(pol: Policy, op: Op, s: Snap, t: Snap) {
    && Tiled(t.B, Low(pol), t.brk) && Coalesced(t.B)
    && Answered(pol, op, s, t)
  }

  ghost predicate Answered(pol: Policy, op: Op, s: Snap, t: Snap) {
    match op
    case Alloc(id, size) =>
      && 0 < size <= MaxRequest(pol) && id !in s.blocks && id in t.blocks
      && t.blocks == s.blocks[id := Region(t.blocks[id].lo, size)]
      && Granted(s.B, t.B, t.blocks[id].lo, size, RequestSize(pol, size))
      && (!NoFit(s.B, RequestSize(pol, size)) ==> CutFrom(s.B, t.B, t.blocks[id].lo, RequestSize(pol, size)))
      && GrownFor(s.B, s.brk, t.brk, RequestSize(pol, size))
    case Resize(id, size) =>
      && 0 < size <= MaxRequest(pol) && id in s.blocks && id in t.blocks
      && t.blocks == s.blocks[id := Region(t.blocks[id].lo, size)]
      && Moved(Live(s.B), Live(t.B), s.blocks[id].lo, t.blocks[id].lo, size)
      && (!NoFit(s.B, RequestSize(pol, size)) ==>
            CutLive(s.B, Live(t.B), t.blocks[id].lo, RequestSize(pol, size)))
      && GrownFor(s.B, s.brk, t.brk, RequestSize(pol, size))
    case Release(id) =>
      && id in s.blocks && t.blocks == s.blocks - {id}
      && Live(t.B) == Live(s.B) - {s.blocks[id].lo} && t.brk == s.brk
  }

  /** A freshly initialised heap: one free block. */
  function FirstSnap(pol: Policy): Snap {
    Snap(FirstLayout(pol), Low(pol) + CHUNKSIZE, map[])
  }

  /** Snapshot k of the run comes from the one before by serving a request. */
  ghost predicate Follows(pol: Policy, limit: int, ops: seq<Op>, run: seq<Snap>, k: int) {
    && 1 <= k < |run| && k <= |ops|
    && !Starved(pol, limit, ops[k - 1], run[k - 1]) && !Misread(ops[k - 1])
    && Served(pol, ops[k - 1], run[k - 1], run[k])
  }

  /** The snapshots of a run over the first requests of a trace, on a freshly initialised heap. */
  ghost predicate IsRun(pol: Policy, limit: int, ops: seq<Op>, run: seq<Snap>) {
    && 0 < |run| <= |ops| + 1
    && run[0] == FirstSnap(pol)
    && forall k | 1 <= k < |run| :: Follows(pol, limit, ops, run, k)
  }

  /** Why a run ends where it does. */
  ghost predicate EndsWith(pol: Policy, limit: int, ops: seq<Op>, run: seq<Snap>, v: Verdict)
    requires 0 < |run| <= |ops| + 1
  {
    var d := |run| - 1;
    if d == |ops| then v == Valid
    else if Starved(pol, limit, ops[d], run[d]) then
      v == if ops[d].Resize? && pol == SegFirst then Crashed else OutOfMemory
    else Misread(ops[d]) && v == LostData
  }

  /** The verdict on data: it is reported lost exactly if the run reaches a realloc of a block whose
      mark is 128 or more, and that realloc does not run out of memory. */
  lemma LostDataExactly(pol: Policy, limit: int, ops: seq<Op>, run: seq<Snap>, v: Verdict)
    requires IsRun(pol, limit, ops, run) && EndsWith(pol, limit, ops, run, v)
    ensures v == LostData <==>
            exists k | 0 <= k < |ops| && k < |run| :: Misread(ops[k]) && !Starved(pol, limit, ops[k], run[k])
  {
    forall k | 0 <= k < |ops| && k < |run| - 1 ensures !Misread(ops[k]) {
      assert Follows(pol, limit, ops, run, k + 1);
    }
  }

  /** A trace that ends well has no such realloc. */
  lemma ValidMeansReadable(pol: Policy, limit: int, ops: seq<Op>, run: seq<Snap>)
    requires IsRun(pol, limit, ops, run) && EndsWith(pol, limit, ops, run, Valid)
    ensures forall op | op in ops :: !Misread(op)
  {
    forall k | 0 <= k < |ops| ensures !Misread(ops[k]) {
      assert Follows(pol, limit, ops, run, k + 1);
    }
  }

  lemma RunGrows(pol: Policy, limit: int, ops: seq<Op>, run: seq<Snap>, t: Snap)
    requires IsRun(pol, limit, ops, run) && |run| <= |ops|
    requires var k := |run| - 1;
      !Starved(pol, limit, ops[k], run[k]) && !Misread(ops[k]) && Served(pol, ops[k], run[k], t)
    ensures IsRun(pol, limit, ops, run + [t])
  {
    hide Starved, Served, Misread;
    var r := run + [t];
    forall k | 1 <= k < |r| ensures Follows(pol, limit, ops, r, k) {
      if k < |run| {
        assert Follows(pol, limit, ops, run, k);
      }
    }
  }

  lemma ServedHolds(pol: Policy, op: Op, s: Snap, t: Snap)
    requires Answered(pol, op, s, t)
    ensures t.blocks.Keys == Holding(op, s.blocks.Keys)
  {
  }

  // ----- A condition on the trace alone -----

  /** The most a request can make the heap grow by. */
  function Cost(pol: Policy, op: Op): nat {
    if op.Release? || !(0 < op.size <= MaxRequest(pol)) then 0 else Growth(RequestSize(pol, op.size))
  }

  function Demand(pol: Policy, ops: seq<Op>): nat {
    if ops == [] then 0 else Demand(pol, ops[..|ops| - 1]) + Cost(pol, ops[|ops| - 1])
  }

  lemma DemandStep(pol: Policy, ops: seq<Op>, k: nat)
    requires k < |ops|
    ensures Demand(pol, ops[..k + 1]) == Demand(pol, ops[..k]) + Cost(pol, ops[k])
  {
    assert ops[..k + 1][..k] == ops[..k];
  }

  lemma {:induction false} DemandGrows(pol: Policy, ops: seq<Op>, k: nat)
    requires k <= |ops|
    ensures Demand(pol, ops[..k]) <= Demand(pol, ops)
    decreases |ops| - k
  {
    if k == |ops| {
      assert ops[..k] == ops;
    } else {
      DemandStep(pol, ops, k);
      DemandGrows(pol, ops, k + 1);
    }
  }

  /** The break is never above what the requests so far may have needed. */
  lemma {:induction false} BrkBelowDemand(pol: Policy, limit: int, ops: seq<Op>, run: seq<Snap>, k: nat)
    requires IsRun(pol, limit, ops, run) && k < |run|
    ensures run[k].brk <= Low(pol) + CHUNKSIZE + Demand(pol, ops[..k])
    decreases k
  {
    if k > 0 {
      var m := k - 1;
      BrkBelowDemand(pol, limit, ops, run, m);
      assert Follows(pol, limit, ops, run, k);
      DemandStep(pol, ops, m);
      hide RequestSize, Demand, Tiled, Coalesced, NoFit, Granted, Moved;
    }
  }

  lemma NeverStarved(pol: Policy, limit: int, ops: seq<Op>, run: seq<Snap>, k: nat)
    requires IsRun(pol, limit, ops, run) && k < |run| && k < |ops|
    requires Low(pol) + CHUNKSIZE + Demand(pol, ops) <= limit
    ensures !Starved(pol, limit, ops[k], run[k])
  {
    hide IsRun, Demand, RequestSize;
    BrkBelowDemand(pol, limit, ops, run, k);
    DemandStep(pol, ops, k);
    DemandGrows(pol, ops, k + 1);
  }

  /** With room for all that a trace can demand, the verdict depends on nothing but the trace: data
      are reported lost exactly if it has a realloc of a block whose mark is 128 or more. */
  lemma RoomyVerdict(pol: Policy, limit: int, ops: seq<Op>, run: seq<Snap>, v: Verdict)
    requires IsRun(pol, limit, ops, run) && EndsWith(pol, limit, ops, run, v)
    requires Low(pol) + CHUNKSIZE + Demand(pol, ops) <= limit
    ensures v == if exists op | op in ops :: Misread(op) then LostData else Valid
  {
    hide Starved, Misread, Demand;
    var d := |run| - 1;
    if d < |ops| {
      NeverStarved(pol, limit, ops, run, d);
      assert ops[d] in ops;
    } else {
      ValidMeansReadable(pol, limit, ops, run);
    }
  }

  // ----- Two traces that end badly -----

  lemma FirstFits(pol: Policy, n: int)
    requires 0 < n <= CHUNKSIZE
    ensures !NoFit(FirstSnap(pol).B, n) && Live(FirstSnap(pol).B) == map[]
  {
    assert Fits(FirstSnap(pol).B, Low(pol), n);
  }

  /** After the first allocation nothing else is allocated. */
  lemma FirstAlloc(pol: Policy, id: int, size: int, t: Snap)
    requires 0 < size <= MaxRequest(pol) && RequestSize(pol, size) <= CHUNKSIZE && 0 < RequestSize(pol, size)
    requires Served(pol, Alloc(id, size), FirstSnap(pol), t)
    ensures t.brk == Low(pol) + CHUNKSIZE && Tiled(t.B, Low(pol), t.brk) && Coalesced(t.B)
    ensures exists p | p in t.B ::
              RequestSize(pol, size) <= t.B[p].size < RequestSize(pol, size) + 16
              && !t.B[p].free && forall q | q in t.B && q != p :: t.B[q].free
  {
    hide RequestSize, NoFit, Tiled, Coalesced;
    FirstFits(pol, RequestSize(pol, size));
    var p := t.blocks[id].lo;
    assert p in Live(t.B) && t.B[p].size == Live(t.B)[p];
    forall q | q in t.B && q != p ensures t.B[q].free {
      assert q in Live(t.B) <==> !t.B[q].free;
    }
  }

  lemma SmallRequests(pol: Policy)
    ensures RequestSize(pol, 16) == 24 && RequestSize(pol, 32) == 40
  {
    AlignOf(16);
    AlignOf(24);
    AlignOf(32);
    AlignOf(40);
    hide Align;
  }

  lemma AlignOf(a: Word)
    requires a < 0x1_0000 && Aligned(a)
    ensures Align(a) == a
  {
  }

  /** Block 128 is allocated and resized: with every allocator, and whatever memory there is, the
      driver reports that its data were not preserved. */
  lemma MarkOf128(pol: Policy, limit: int, run: seq<Snap>, v: Verdict)
    requires var ops := [Alloc(128, 16), Resize(128, 32)];
      IsRun(pol, limit, ops, run) && EndsWith(pol, limit, ops, run, v)
    ensures v == LostData
  {
    hide NoFit, RequestSize, Served, Tiled, Coalesced;
    var ops := [Alloc(128, 16), Resize(128, 32)];
    SmallRequests(pol);
    FirstFits(pol, 24);
    assert run[0] == FirstSnap(pol);
    assert !Starved(pol, limit, ops[0], run[0]);
    assert |run| > 1;
    assert Follows(pol, limit, ops, run, 1);
    FirstAlloc(pol, 128, 16, run[1]);
    RoomAfter(pol, run[1]);
    assert !Starved(pol, limit, ops[1], run[1]);
    assert !Follows(pol, limit, ops, run, 2);
  }

  lemma RoomAfter(pol: Policy, t: Snap)
    requires Tiled(t.B, Low(pol), Low(pol) + CHUNKSIZE) && Coalesced(t.B)
    requires exists p | p in t.B :: t.B[p].size < 40 && forall q | q in t.B && q != p :: t.B[q].free
    ensures !NoFit(t.B, 40)
  {
    var p :| p in t.B && t.B[p].size < 40 && forall q | q in t.B && q != p :: t.B[q].free;
    var q := OneLive(t.B, Low(pol), Low(pol) + CHUNKSIZE, p);
    assert Fits(t.B, q, 40);
  }

  /** In the arena of 20 MB, mm.c's mm_realloc crashes the driver: there is no room for a second
      block of 12 million bytes. */
  lemma CrashIn20MB(run: seq<Snap>, v: Verdict)
    requires var ops := [Alloc(0, 12_000_000), Resize(0, 12_000_000)];
      IsRun(SegFirst, MAX_HEAP, ops, run) && EndsWith(SegFirst, MAX_HEAP, ops, run, v)
    ensures v == Crashed
  {
    hide NoFit, RequestSize, Served, Tiled, Coalesced;
    var ops := [Alloc(0, 12_000_000), Resize(0, 12_000_000)];
    LargeRequest();
    NoRoomAtFirst(12_000_008);
    assert run[0] == FirstSnap(SegFirst);
    assert !Starved(SegFirst, MAX_HEAP, ops[0], run[0]);
    assert |run| > 1;
    assert Follows(SegFirst, MAX_HEAP, ops, run, 1);
    LargeAlloc(run[1]);
    assert Starved(SegFirst, MAX_HEAP, ops[1], run[1]);
    assert !Follows(SegFirst, MAX_HEAP, ops, run, 2);
  }

  lemma LargeRequest()
    ensures RequestSize(SegFirst, 12_000_000) == 12_000_008
  {
    Uncut(12_000_007);
    Uncut(12_000_008);
  }

  lemma NoRoomAtFirst(n: int)
    requires n > CHUNKSIZE
    ensures NoFit(FirstSnap(SegFirst).B, n)
  {
  }

  lemma LargeAlloc(t: Snap)
    requires Served(SegFirst, Alloc(0, 12_000_000), FirstSnap(SegFirst), t)
    ensures t.brk == 4192 + 12_000_008 && NoFit(t.B, 12_000_008)
  {
    hide RequestSize, NoFit, Tiled, Coalesced;
    LargeRequest();
    NoRoomAtFirst(12_000_008);
    var p := t.blocks[0].lo;
    assert p in Live(t.B) && t.B[p].size == Live(t.B)[p];
    TakesMost(t.B, 96, t.brk, p, 12_000_008);
  }

  lemma TakesMost(B: Layout, lo: int, hi: int, p: int, n: int)
    requires Tiled(B, lo, hi) && p in B && !B[p].free && n <= B[p].size && hi - lo < 2 * n
    ensures NoFit(B, n)
  {
    forall q | q in B && B[q].free ensures B[q].size < n {
      BesideEachOther(B, lo, hi, p, q);
    }
  }

  // ----- A trace that spoils the next one -----

  /** The heap grows, is freed, and is cut where the footer of the first block of a fresh heap is. */
  function Spoiler(): seq<Op> {
    [Alloc(0, 4090), Release(0), Alloc(1, 4080)]
  }

  lemma SpoilerSizes()
    ensures RequestSize(Explicit, 4090) == 4104 && RequestSize(Explicit, 4080) == 4088
  {
    AlignOf(4104);
    AlignOf(4088);
  }

  /** mm_list.c is left with one free block, at 4104. */
  lemma SpoilerEnds(limit: int, run: seq<Snap>, v: Verdict)
    requires 0x1_0000 <= limit && IsRun(Explicit, limit, Spoiler(), run) && EndsWith(Explicit, limit, Spoiler(), run, v)
    ensures v == Valid && |run| == 4
    ensures OnlyFree(run[3].B, 4104)
  {
    hide IsRun, EndsWith, RequestSize;
    SpoilerRuns(limit, run, v);
    hide Served, Tiled, Coalesced;
    FirstGrows(run[1]);
    ThenFreed(run[1], run[2]);
    ThenCut(run[2], run[3]);
  }

  lemma SpoilerRuns(limit: int, run: seq<Snap>, v: Verdict)
    requires 0x1_0000 <= limit && IsRun(Explicit, limit, Spoiler(), run) && EndsWith(Explicit, limit, Spoiler(), run, v)
    ensures v == Valid && |run| == 4 && run[0] == FirstSnap(Explicit)
    ensures Served(Explicit, Spoiler()[0], run[0], run[1]) && Served(Explicit, Spoiler()[1], run[1], run[2])
    ensures Served(Explicit, Spoiler()[2], run[2], run[3])
  {
    var ops := Spoiler();
    SpoilerSizes();
    hide RequestSize;
    assert ops[..1] == [ops[0]] && ops[..2] == ops[..1] + [ops[1]] && ops == ops[..2] + [ops[2]];
    DemandStep(Explicit, ops, 0);
    DemandStep(Explicit, ops, 1);
    DemandStep(Explicit, ops, 2);
    RoomyVerdict(Explicit, limit, ops, run, v);
    assert Follows(Explicit, limit, ops, run, 1);
    assert Follows(Explicit, limit, ops, run, 2);
    assert Follows(Explicit, limit, ops, run, 3);
  }

  lemma FirstGrows(t: Snap)
    requires Served(Explicit, Alloc(0, 4090), FirstSnap(Explicit), t)
    ensures t.brk == 8216 && t.blocks.Keys == {0} && Live(t.B).Keys == {t.blocks[0].lo}
  {
    SpoilerSizes();
    hide RequestSize, Tiled, Coalesced;
    assert NoFit(FirstLayout(Explicit), 4104);
    assert Live(FirstLayout(Explicit)) == map[];
  }

  lemma ThenFreed(s: Snap, t: Snap)
    requires Served(Explicit, Release(0), s, t)
    requires s.brk == 8216 && s.blocks.Keys == {0} && Live(s.B).Keys == {s.blocks[0].lo}
    ensures t.brk == 8216 && t.B == map[16 := Blk(8200, true)]
  {
    hide Tiled, Coalesced;
    assert Live(t.B) == map[];
    AllFreeIsOneBlock(t.B, 16, 8216);
  }

  lemma ThenCut(s: Snap, t: Snap)
    requires Served(Explicit, Alloc(1, 4080), s, t)
    requires s.brk == 8216 && s.B == map[16 := Blk(8200, true)]
    ensures OnlyFree(t.B, 4104)
  {
    SpoilerSizes();
    hide RequestSize, Coalesced;
    assert Fits(s.B, 16, 4088);
    assert !NoFit(s.B, 4088);
    assert Live(s.B) == map[] && t.B[16] == Blk(4088, false);
    CutRest(t.B);
  }

  lemma CutRest(B: Layout)
    requires Tiled(B, 16, 8216) && Coalesced(B) && 16 in B && B[16] == Blk(4088, false) && Live(B).Keys == {16}
    ensures OnlyFree(B, 4104)
  {
    forall q | q in B && q != 16 ensures B[q].free {
      assert q in Live(B) <==> !B[q].free;
    }
    BehindOnly(B, 16, 8216, 16);
    assert Next(B, 16) == 4104;
  }
}
