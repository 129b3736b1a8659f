/** mdriver.c beyond eval_mm_valid: the replays of a valid trace that measure utilisation and speed,
    and the loop over all traces on one heap. */
module Replays {
  import opened HeapModel
  import opened FreeLists
  import opened Payload
  import opened Allocator
  import opened TraceRuns
  import opened Totals
  import opened Driver

  /** One request of a replay, without checks. */
  method Serve(h: Heap, op: Op, blocks: map<int, Region>) returns (v: Verdict, blocks': map<int, Region>)
    requires h.Valid() && Placed(Live(h.B), blocks) && RequestOk(h.pol, op, blocks.Keys)
    modifies h, h.mem`brk, h.mem.bytes
    ensures h.Valid()
    ensures v == if old(Starved(h.pol, h.mem.bytes.Length, op, Snap(h.B, h.mem.brk, blocks)))
                 then (if op.Resize? && h.pol == SegFirst then Crashed else OutOfMemory) else Valid
    ensures v == Valid ==> Served(h.pol, op, Snap(old(h.B), old(h.mem.brk), blocks), Snap(h.B, h.mem.brk, blocks'))
  {
    hide h.Inv, Coalesced, Tiled, Live, BytesKept, NoFit, RequestSize, Granted, CutFrom, Copied, Growth, GrownFor;
    v, blocks' := Valid, blocks;
    match op {
      case Alloc(id, size) =>
        v, blocks' := ServeAlloc(h, id, size, blocks);
      case Resize(id, size) =>
        var np;
        v, np := TryRealloc(h, blocks[id].lo, size);
        blocks' := blocks[id := Region(np, size)];
      case Release(id) =>
        h.Free(blocks[id].lo);
        blocks' := blocks - {id};
    }
    h.Shape();
  }

  method ServeAlloc(h: Heap, id: int, size: int, blocks: map<int, Region>)
    returns (v: Verdict, blocks': map<int, Region>)
    requires h.Valid() && id !in blocks && 0 < size <= MaxRequest(h.pol)
    modifies h, h.mem`brk, h.mem.bytes
    ensures h.Valid() && v == if old(NoRoom(h, size)) then OutOfMemory else Valid
    ensures v == Valid ==>
              Answered(h.pol, Alloc(id, size), Snap(old(h.B), old(h.mem.brk), blocks), Snap(h.B, h.mem.brk, blocks'))
  {
    hide h.Inv, Coalesced, Live, BytesKept, NoFit, RequestSize, Granted, CutFrom, Growth, GrownFor;
    ghost var B0, lists0, hi := h.B, h.lists, h.mem.brk;
    var p := h.Malloc(size);
    if p == 0 {
      return OutOfMemory, blocks;
    }
    ChosenBrk(h.pol, B0, lists0, hi, h.mem.brk, p, RequestSize(h.pol, size));
    v, blocks' := Valid, blocks[id := Region(p, size)];
  }

  /** mem_reset_brk and mm_init: the heap is fresh. */
  method Restart(h: Heap) returns (ok: bool)
    requires h.HeadKnown() && Reusable(h.pol, h.freeList) && h.mem.bytes.Length < 0x8000_0000
    modifies h, h.mem`brk, h.mem.bytes
    ensures h.HeadKnown() && (ok <==> Low(h.pol) + CHUNKSIZE <= h.mem.bytes.Length)
    ensures ok ==> h.Valid() && Snap(h.B, h.mem.brk, map[]) == FirstSnap(h.pol)
  {
    h.mem.ResetBrk();
    ok := h.Init();
  }

  /** Request k of a run with these blocks is one the allocator can be asked to serve. */
  lemma CanServe(pol: Policy, limit: int, ops: seq<Op>, run: seq<Snap>, k: nat)
    requires IsRun(pol, limit, ops, run) && |run| == k + 1 && k < |ops|
    requires TraceOk(pol, ops[k..], run[k].blocks.Keys)
    ensures Placed(Live(run[k].B), run[k].blocks) && RequestOk(pol, ops[k], run[k].blocks.Keys)
    ensures TraceOk(pol, ops[k + 1..], Holding(ops[k], run[k].blocks.Keys))
  {
    hide IsRun, Placed, RequestOk;
    RunPlaced(pol, limit, ops, run, k);
    assert ops[k..][1..] == ops[k + 1..];
  }

  /** The run after request k has been served. */
  lemma Serves(pol: Policy, limit: int, ops: seq<Op>, run: seq<Snap>, k: nat, t: Snap)
    requires IsRun(pol, limit, ops, run) && |run| == k + 1 && k < |ops| && !Misread(ops[k])
    requires !Starved(pol, limit, ops[k], run[k]) && Served(pol, ops[k], run[k], t)
    requires TraceOk(pol, ops[k + 1..], Holding(ops[k], run[k].blocks.Keys))
    ensures IsRun(pol, limit, ops, run + [t]) && TraceOk(pol, ops[k + 1..], t.blocks.Keys)
  {
    hide IsRun, Starved, Misread, TraceOk;
    RunGrows(pol, limit, ops, run, t);
    hide Tiled, Coalesced, Answered;
    ServedHolds(pol, ops[k], run[k], t);
  }

  /** eval_mm_speed: the requests and nothing else. */
  method EvalMmSpeed(h: Heap, ops: seq<Op>) returns (v: Verdict, ghost run: seq<Snap>)
    requires h.HeadKnown() && Reusable(h.pol, h.freeList) && h.mem.bytes.Length < 0x8000_0000
    requires TraceOk(h.pol, ops, {}) && forall op | op in ops :: !Misread(op)
    modifies h, h.mem`brk, h.mem.bytes
    ensures h.HeadKnown()
    ensures v == InitFailed <==> h.mem.bytes.Length < Low(h.pol) + CHUNKSIZE
    ensures v != InitFailed ==>
              IsRun(h.pol, h.mem.bytes.Length, ops, run) && EndsWith(h.pol, h.mem.bytes.Length, ops, run, v)
  {
    hide h.Inv, Coalesced, Tiled, Live, Starved, Misread, Answered, RequestOk, TraceOk, Placed;
    run := [FirstSnap(h.pol)];
    var ok := Restart(h);
    if !ok {
      return InitFailed, run;
    }
    var blocks: map<int, Region> := map[];
    ghost var limit := h.mem.bytes.Length;
    assert ops[0..] == ops && blocks.Keys == {};
    for i := 0 to |ops|
      invariant h.Valid() && h.HeadKnown() && TraceOk(h.pol, ops[i..], blocks.Keys)
      invariant IsRun(h.pol, limit, ops, run) && |run| == i + 1 && run[i] == Snap(h.B, h.mem.brk, blocks)
    {
      hide IsRun;
      CanServe(h.pol, limit, ops, run, i);
      v, blocks := Serve(h, ops[i], blocks);
      h.HeadListed();
      if v != Valid {
        return;
      }
      ghost var t := Snap(h.B, h.mem.brk, blocks);
      Serves(h.pol, limit, ops, run, i, t);
      run := run + [t];
    }
    v := Valid;
  }

  /** How a request changes the total size of the allocated blocks. */
  function Change(op: Op, blocks: map<int, Region>): int
    requires !op.Alloc? ==> op.id in blocks
  {
    match op
    case Alloc(_, size) => size
    case Resize(id, size) => size - blocks[id].size
    case Release(id) => -blocks[id].size
  }

  /** The totals kept after request k; a release does not look at the maximum, and need not. */
  lemma TotalsStep(pol: Policy, limit: int, ops: seq<Op>, run: seq<Snap>, k: nat)
    requires IsRun(pol, limit, ops, run) && k < |run| && k < |ops| && RequestOk(pol, ops[k], run[k].blocks.Keys)
    ensures Total(ops[..k + 1]) == Total(ops[..k]) + Change(ops[k], run[k].blocks)
    ensures Peak(ops[..k + 1]) ==
            if !ops[k].Release? && Total(ops[..k + 1]) > Peak(ops[..k]) then Total(ops[..k + 1]) else Peak(ops[..k])
  {
    hide IsRun;
    RunPlaced(pol, limit, ops, run, k);
    TotalIsSum(pol, limit, ops, run, k);
    var done := ops[..k + 1];
    assert done[..|done| - 1] == ops[..k] && done[|done| - 1] == ops[k];
  }

  /** eval_mm_util: the largest total of the sizes asked for, and the heap it took. */
  method EvalMmUtil(h: Heap, ops: seq<Op>)
    returns (v: Verdict, maxTotal: int, heapSize: int, ghost run: seq<Snap>)
    requires h.HeadKnown() && Reusable(h.pol, h.freeList) && h.mem.bytes.Length < 0x8000_0000
    requires TraceOk(h.pol, ops, {}) && forall op | op in ops :: !Misread(op)
    modifies h, h.mem`brk, h.mem.bytes
    ensures h.HeadKnown()
    ensures v == InitFailed <==> h.mem.bytes.Length < Low(h.pol) + CHUNKSIZE
    ensures v != InitFailed ==>
              IsRun(h.pol, h.mem.bytes.Length, ops, run) && EndsWith(h.pol, h.mem.bytes.Length, ops, run, v)
    ensures v == Valid ==> maxTotal == Peak(ops) && heapSize == Last(run).brk && 0 <= maxTotal < heapSize
  {
    hide h.Inv, Coalesced, Tiled, Live, Starved, Misread, Answered, RequestOk, TraceOk, Placed, Total, Peak;
    run, maxTotal, heapSize := [FirstSnap(h.pol)], 0, 0;
    var ok := Restart(h);
    if !ok {
      return InitFailed, 0, 0, run;
    }
    var blocks: map<int, Region>, total := map[], 0;
    ghost var limit := h.mem.bytes.Length;
    assert ops[0..] == ops && blocks.Keys == {};
    NoTotals(ops);
    for i := 0 to |ops|
      invariant h.Valid() && h.HeadKnown() && TraceOk(h.pol, ops[i..], blocks.Keys)
      invariant IsRun(h.pol, limit, ops, run) && |run| == i + 1 && run[i] == Snap(h.B, h.mem.brk, blocks)
      invariant total == Total(ops[..i]) && maxTotal == Peak(ops[..i])
    {
      hide IsRun;
      CanServe(h.pol, limit, ops, run, i);
      TotalsStep(h.pol, limit, ops, run, i);
      Named(h.pol, ops[i], blocks.Keys);
      var change := Change(ops[i], blocks);
      v, blocks := Serve(h, ops[i], blocks);
      h.HeadListed();
      if v != Valid {
        return;
      }
      total := total + change;
      if !ops[i].Release? && total > maxTotal {
        maxTotal := total;
      }
      ghost var t := Snap(h.B, h.mem.brk, blocks);
      Serves(h.pol, limit, ops, run, i, t);
      run := run + [t];
    }
    assert ops[..|ops|] == ops;
    PeakBelowBrk(h.pol, limit, ops, run, |ops|);
    v, heapSize := Valid, h.mem.brk;
  }

  lemma NoTotals(ops: seq<Op>)
    ensures Total(ops[..0]) == 0 && Peak(ops[..0]) == 0
  {
  }

  lemma Named(pol: Policy, op: Op, ids: set<int>)
    requires RequestOk(pol, op, ids)
    ensures !op.Alloc? ==> op.id in ids
  {
  }

  // ----- All traces -----

  /** The verdict is that of a run of the trace from a fresh heap. */
  ghost predicate Explained(pol: Policy, limit: int, ops: seq<Op>, v: Verdict) {
    if limit < Low(pol) + CHUNKSIZE then v == InitFailed
    else exists run :: IsRun(pol, limit, ops, run) && EndsWith(pol, limit, ops, run, v)
  }

  lemma Explains(pol: Policy, limit: int, ops: seq<Op>, run: seq<Snap>, v: Verdict)
    requires Low(pol) + CHUNKSIZE <= limit && IsRun(pol, limit, ops, run) && EndsWith(pol, limit, ops, run, v)
    ensures Explained(pol, limit, ops, v)
  {
  }

  lemma NotInitialised(pol: Policy, limit: int, ops: seq<Op>)
    requires limit < Low(pol) + CHUNKSIZE
    ensures Explained(pol, limit, ops, InitFailed)
  {
  }

  /** Why the loop over the traces ends: all are done; or mm_list.c's list head is where its next mm_init
      spoils the heap; or a replay that measures has failed, which ends the program. */
  datatype Outcome = Done | Spoiled | AppError

  /** The trace can demand more memory than there is. */
  ghost predicate Demanding(pol: Policy, limit: int, ops: seq<Op>) {
    Low(pol) + CHUNKSIZE + Demand(pol, ops) > limit
  }

  /** A replay of a valid trace fails only if the trace is a demanding one. */
  lemma ReplayFails(pol: Policy, limit: int, ops: seq<Op>, run: seq<Snap>, v: Verdict)
    requires IsRun(pol, limit, ops, run) && EndsWith(pol, limit, ops, run, v) && v != Valid
    requires forall op | op in ops :: !Misread(op)
    ensures Demanding(pol, limit, ops)
  {
    hide IsRun, EndsWith, Misread;
    if !Demanding(pol, limit, ops) {
      RoomyVerdict(pol, limit, ops, run, v);
    }
  }

  /** The two measurements of a valid trace, the second of them repeats times: the utilisation, and how
      many replays for speed there were. */
  method Measure(h: Heap, ops: seq<Op>, repeats: nat)
    returns (o: Outcome, maxTotal: int, heapSize: int, speeds: seq<Verdict>)
    requires h.HeadKnown() && Low(h.pol) + CHUNKSIZE <= h.mem.bytes.Length < 0x8000_0000
    requires TraceOk(h.pol, ops, {}) && forall op | op in ops :: !Misread(op)
    modifies h, h.mem`brk, h.mem.bytes
    ensures h.HeadKnown()
    ensures o == Spoiled ==> !Reusable(h.pol, h.freeList)
    ensures o == AppError ==> Demanding(h.pol, h.mem.bytes.Length, ops)
    ensures o == Done ==> maxTotal == Peak(ops) && 0 <= maxTotal < heapSize && |speeds| == repeats
    ensures forall v | v in speeds :: v == Valid && Explained(h.pol, h.mem.bytes.Length, ops, v)
  {
    hide h.Inv, Explained, TraceOk, IsRun, EndsWith, Reusable, Misread, Demanding, Peak;
    speeds, maxTotal, heapSize := [], 0, 0;
    if !Reusable(h.pol, h.freeList) {
      o := Spoiled;
      return;
    }
    var v;
    ghost var run;
    v, maxTotal, heapSize, run := EvalMmUtil(h, ops);
    if v != Valid {
      ReplayFails(h.pol, h.mem.bytes.Length, ops, run, v);
      o := AppError;
      return;
    }
    for i := 0 to repeats
      invariant h.HeadKnown() && |speeds| == i
      invariant forall v | v in speeds :: v == Valid && Explained(h.pol, h.mem.bytes.Length, ops, v)
    {
      if !Reusable(h.pol, h.freeList) {
        o := Spoiled;
        return;
      }
      v, run := EvalMmSpeed(h, ops);
      if v != Valid {
        ReplayFails(h.pol, h.mem.bytes.Length, ops, run, v);
        o := AppError;
        return;
      }
      Explains(h.pol, h.mem.bytes.Length, ops, run, v);
      speeds := speeds + [v];
    }
    o := Done;
  }

  /** main's loop over its traces, on one heap: each verdict is as if the trace were the first. */
  method EvalTraces(h: Heap, traces: seq<seq<Op>>, repeats: nat)
    returns (vs: seq<Verdict>, o: Outcome, peaks: seq<int>, times: seq<nat>)
    requires h.HeadKnown() && h.mem.bytes.Length < 0x8000_0000
    requires forall ops | ops in traces :: TraceOk(h.pol, ops, {})
    modifies h, h.mem`brk, h.mem.bytes
    ensures |vs| <= |traces| && (o == Done ==> |vs| == |traces|)
    ensures forall k | 0 <= k < |vs| :: Explained(h.pol, h.mem.bytes.Length, traces[k], vs[k])
    ensures |peaks| == |times| <= |vs| && (o == Done ==> |peaks| == |vs|)
    ensures forall k | 0 <= k < |peaks| && vs[k] == Valid :: peaks[k] == Peak(traces[k]) && times[k] == repeats
    ensures o == Spoiled ==> !Reusable(h.pol, h.freeList)
    ensures o == AppError ==> exists ops | ops in traces :: Demanding(h.pol, h.mem.bytes.Length, ops)
  {
    hide h.Inv, Demanding, Peak, TraceOk, Explained, IsRun, EndsWith, Reusable, Misread, Demand;
    vs, peaks, times := [], [], [];
    for i := 0 to |traces|
      invariant h.HeadKnown() && |vs| == |peaks| == |times| == i
      invariant forall k | 0 <= k < i :: Explained(h.pol, h.mem.bytes.Length, traces[k], vs[k])
      invariant forall k | 0 <= k < i && vs[k] == Valid :: peaks[k] == Peak(traces[k]) && times[k] == repeats
    {
      if !Reusable(h.pol, h.freeList) {
        o := Spoiled;
        return;
      }
      var v, run := EvalMmValid(h, traces[i]);
      if v == InitFailed {
        NotInitialised(h.pol, h.mem.bytes.Length, traces[i]);
      } else {
        Explains(h.pol, h.mem.bytes.Length, traces[i], run, v);
      }
      vs := vs + [v];
      var maxTotal, heapSize, speeds := 0, 0, [];
      if v == Valid {
        ValidMeansReadable(h.pol, h.mem.bytes.Length, traces[i], run);
        o, maxTotal, heapSize, speeds := Measure(h, traces[i], repeats);
        if o != Done {
          return;
        }
      }
      peaks, times := peaks + [maxTotal], times + [|speeds|];
    }
    o := Done;
  }
}
