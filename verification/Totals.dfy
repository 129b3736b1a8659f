/** What mdriver.c's eval_mm_util measures: the largest total size of the blocks a trace has
    allocated at one time. It is less than the heap that serves the trace, in every run. */
module Totals {
  import opened HeapModel
  import opened FreeLists
  import opened Payload
  import opened Layouts
  import opened Allocator
  import opened TraceRuns

  /** The size last asked for block id. */
  function SizeOf(ops: seq<Op>, id: int): int {
    if ops == [] then 0
    else match ops[|ops| - 1]
         case Alloc(jd, size) => if jd == id then size else SizeOf(ops[..|ops| - 1], id)
         case Resize(jd, size) => if jd == id then size else SizeOf(ops[..|ops| - 1], id)
         case Release(_) => SizeOf(ops[..|ops| - 1], id)
  }

  /** What a request after ops adds to the total. */
  function Delta(ops: seq<Op>, op: Op): int {
    match op
    case Alloc(_, size) => size
    case Resize(id, size) => size - SizeOf(ops, id)
    case Release(id) => -SizeOf(ops, id)
  }

  function Total(ops: seq<Op>): int {
    if ops == [] then 0 else Total(ops[..|ops| - 1]) + Delta(ops[..|ops| - 1], ops[|ops| - 1])
  }

  /** The largest total so far. */
  function Peak(ops: seq<Op>): (p: int)
    ensures p >= 0 && p >= Total(ops)
  {
    if ops == [] then 0
    else var p := Peak(ops[..|ops| - 1]); if Total(ops) > p then Total(ops) else p
  }

  /** The peak is the largest of the totals after any number of requests. */
  lemma {:induction false} PeakIsLargest(ops: seq<Op>) returns (k: nat)
    ensures k <= |ops| && Peak(ops) == Total(ops[..k])
    ensures forall j | 0 <= j <= |ops| :: Total(ops[..j]) <= Peak(ops)
  {
    assert ops[..|ops|] == ops;
    k := |ops|;
    if ops != [] {
      var rest := ops[..|ops| - 1];
      var m := PeakIsLargest(rest);
      assert forall j | 0 <= j <= |rest| :: rest[..j] == ops[..j];
      if Peak(ops) != Total(ops) { k := m; }
    }
  }

  ghost function Sum(m: map<int, Region>): int
    decreases |m|
  {
    if exists id :: id in m then
      var id :| id in m;
      m[id].size + Sum(m - {id})
    else 0
  }

  lemma {:induction false} SumTake(m: map<int, Region>, id: int)
    requires id in m
    ensures Sum(m) == m[id].size + Sum(m - {id})
    decreases |m|
  {
    var jd :| jd in m && Sum(m) == m[jd].size + Sum(m - {jd});
    if jd != id {
      SumTake(m - {jd}, id);
      SumTake(m - {id}, jd);
      assert m - {jd} - {id} == m - {id} - {jd};
    }
  }

  lemma SumPut(m: map<int, Region>, id: int, r: Region)
    requires id !in m
    ensures Sum(m[id := r]) == Sum(m) + r.size
  {
    SumTake(m[id := r], id);
    assert m[id := r] - {id} == m;
  }

  lemma SumReplace(m: map<int, Region>, id: int, r: Region)
    requires id in m
    ensures Sum(m[id := r]) == Sum(m) - m[id].size + r.size
  {
    SumTake(m, id);
    SumTake(m[id := r], id);
    assert m[id := r] - {id} == m - {id};
  }

  /** Payloads from lo to hi, each with its header and footer, that do not overlap. */
  ghost predicate Separate(m: map<int, Region>, lo: int, hi: int) {
    && (forall id | id in m :: lo <= m[id].lo && 0 < m[id].size && m[id].lo + m[id].size + 8 <= hi)
    && (forall id, jd | id in m && jd in m && id != jd ::
          m[id].lo + m[id].size + 8 <= m[jd].lo || m[jd].lo + m[jd].size + 8 <= m[id].lo)
  }

  lemma {:induction false} Highest(m: map<int, Region>) returns (id: int)
    requires exists jd :: jd in m
    ensures id in m && forall jd | jd in m :: m[jd].lo <= m[id].lo
    decreases |m|
  {
    id :| id in m;
    var rest := m - {id};
    if exists jd :: jd in rest {
      var jd := Highest(rest);
      assert forall kd | kd in m && kd != id :: kd in rest;
      if m[jd].lo > m[id].lo { id := jd; }
    } else {
      assert forall jd | jd in m && jd != id :: jd in rest;
    }
  }

  /** Separate payloads and their tags have room between lo and hi. */
  lemma {:induction false} SeparateFit(m: map<int, Region>, lo: int, hi: int)
    requires Separate(m, lo, hi) && lo <= hi
    ensures Sum(m) + 8 * |m| <= hi - lo
    decreases |m|
  {
    if exists id :: id in m {
      var id := Highest(m);
      SumTake(m, id);
      SeparateFit(m - {id}, lo, m[id].lo);
      assert |m - {id}| == |m| - 1;
    } else {
      assert m == map[];
    }
  }

  // ----- Along a run -----

  /** Every block handed out is an allocated block with room for its size. */
  ghost predicate Placed(L: map<int, int>, blocks: map<int, Region>) {
    && (forall id | id in blocks ::
          blocks[id].lo in L && 0 < blocks[id].size && blocks[id].size + 8 <= L[blocks[id].lo])
    && (forall id, jd | id in blocks && jd in blocks && id != jd :: blocks[id].lo != blocks[jd].lo)
  }

  lemma PlacedStep(pol: Policy, op: Op, s: Snap, t: Snap)
    requires Placed(Live(s.B), s.blocks) && Answered(pol, op, s, t)
    ensures Placed(Live(t.B), t.blocks)
  {
    hide Live, RequestSize, NoFit, CutFrom, GrownFor;
  }

  lemma {:induction false} RunPlaced(pol: Policy, limit: int, ops: seq<Op>, run: seq<Snap>, k: nat)
    requires IsRun(pol, limit, ops, run) && k < |run|
    ensures Placed(Live(run[k].B), run[k].blocks) && Tiled(run[k].B, Low(pol), run[k].brk)
    decreases k
  {
    hide Placed, Tiled, Coalesced, Live, Answered, Starved;
    if k == 0 {
      FirstPlaced(pol);
    } else {
      RunPlaced(pol, limit, ops, run, k - 1);
      assert Follows(pol, limit, ops, run, k);
      PlacedStep(pol, ops[k - 1], run[k - 1], run[k]);
    }
  }

  lemma FirstPlaced(pol: Policy)
    ensures var s := FirstSnap(pol); Placed(Live(s.B), s.blocks) && Tiled(s.B, Low(pol), s.brk)
  {
    OneTiled(Low(pol), CHUNKSIZE);
    hide Tiled, Live;
  }

  lemma OneTiled(lo: int, size: int)
    requires size >= 16
    ensures Tiled(map[lo := Blk(size, true)], lo, lo + size)
  {
    assert Precedes(map[lo := Blk(size, true)], lo, lo + size);
  }

  lemma PlacedSeparate(B: Layout, lo: int, hi: int, blocks: map<int, Region>)
    requires Placed(Live(B), blocks) && Tiled(B, lo, hi)
    ensures Separate(blocks, lo, hi)
  {
    forall id | id in blocks ensures var r := blocks[id]; r.lo in B && r.size + 8 <= B[r.lo].size {
      assert blocks[id].lo in Live(B);
    }
  }

  /** The sizes recorded are those last asked for. */
  ghost predicate SizesKnown(ops: seq<Op>, blocks: map<int, Region>) {
    forall id | id in blocks :: blocks[id].size == SizeOf(ops, id)
  }

  lemma {:induction false} TotalIsSum(pol: Policy, limit: int, ops: seq<Op>, run: seq<Snap>, k: nat)
    requires IsRun(pol, limit, ops, run) && k < |run|
    ensures SizesKnown(ops[..k], run[k].blocks) && Total(ops[..k]) == Sum(run[k].blocks)
    decreases k
  {
    if k > 0 {
      TotalIsSum(pol, limit, ops, run, k - 1);
      assert Follows(pol, limit, ops, run, k);
      TotalStep(pol, ops, k - 1, run[k - 1], run[k]);
    }
  }

  lemma TotalStep(pol: Policy, ops: seq<Op>, k: nat, s: Snap, t: Snap)
    requires k < |ops| && Answered(pol, ops[k], s, t)
    requires SizesKnown(ops[..k], s.blocks) && Total(ops[..k]) == Sum(s.blocks)
    ensures SizesKnown(ops[..k + 1], t.blocks) && Total(ops[..k + 1]) == Sum(t.blocks)
  {
    hide RequestSize, Granted, Moved, NoFit, CutFrom, GrownFor, Live, Sum;
    var done := ops[..k + 1];
    assert done[..|done| - 1] == ops[..k] && done[|done| - 1] == ops[k];
    match ops[k] {
      case Alloc(id, size) => SumPut(s.blocks, id, t.blocks[id]);
      case Resize(id, size) => SumReplace(s.blocks, id, t.blocks[id]);
      case Release(id) => SumTake(s.blocks, id);
    }
  }

  /** At every point of every run the payloads and their tags fit the heap below the break. */
  lemma TotalBelowBrk(pol: Policy, limit: int, ops: seq<Op>, run: seq<Snap>, k: nat)
    requires IsRun(pol, limit, ops, run) && k < |run|
    ensures Total(ops[..k]) + 8 * |run[k].blocks| <= run[k].brk - Low(pol)
  {
    hide IsRun, Total;
    RunPlaced(pol, limit, ops, run, k);
    TotalIsSum(pol, limit, ops, run, k);
    PlacedSeparate(run[k].B, Low(pol), run[k].brk, run[k].blocks);
    SeparateFit(run[k].blocks, Low(pol), run[k].brk);
  }

  /** And so does the peak so far, since the break never falls: the utilisation stays below 1. */
  lemma {:induction false} PeakBelowBrk(pol: Policy, limit: int, ops: seq<Op>, run: seq<Snap>, k: nat)
    requires IsRun(pol, limit, ops, run) && k < |run|
    ensures Peak(ops[..k]) <= run[k].brk - Low(pol)
    decreases k
  {
    TotalBelowBrk(pol, limit, ops, run, k);
    if k > 0 {
      PeakBelowBrk(pol, limit, ops, run, k - 1);
      assert Follows(pol, limit, ops, run, k);
      assert ops[..k][..k - 1] == ops[..k - 1];
      hide Total, RequestSize, Granted, Moved, NoFit, CutFrom, Live, Tiled, Coalesced;
    }
  }
}
