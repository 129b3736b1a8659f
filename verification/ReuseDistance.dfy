/** What a hit of csim.c means for the addresses of a trace: the block of the address has been
    accessed before, and fewer other blocks of its set since than the set has lines. */
module ReuseDistance {
  import opened Lru
  import opened CacheTrace
  import opened Numbers

  // ----- Addresses -----

  /** The tag and the set index of an address together are its block number. */
  lemma TagAndSet(g: Geometry, addr: nat)
    ensures g.Tag(addr) * Pow2(g.s) + g.Set(addr) == addr / Pow2(g.b)
    ensures g.Set(addr) == (addr / Pow2(g.b)) % Pow2(g.s)
  {
    hide Pow2;
    Pow2Sum(g.s, g.b);
    DivOfDiv(addr, Pow2(g.s), Pow2(g.b));
  }

  /** Two addresses have the same tag and set if and only if they are in the same block. */
  lemma SameBlock(g: Geometry, a: nat, b: nat)
    ensures g.Tag(a) == g.Tag(b) && g.Set(a) == g.Set(b) <==> a / Pow2(g.b) == b / Pow2(g.b)
  {
    TagAndSet(g, a);
    TagAndSet(g, b);
    if a / Pow2(g.b) == b / Pow2(g.b) {
      DivMod(a / Pow2(g.b), g.Tag(a), Pow2(g.s), g.Set(a));
      DivMod(b / Pow2(g.b), g.Tag(b), Pow2(g.s), g.Set(b));
    }
  }

  function Block(g: Geometry, addr: nat): int {
    addr / Pow2(g.b)
  }

  /** The trace accesses block x with line i. */
  ghost predicate AccessedAt(trace: seq<Event>, g: Geometry, x: int, i: int) {
    0 <= i < |trace| && !trace[i].Fetch? && Block(g, trace[i].addr) == x
  }

  /** When the trace last accessed block x, or -1. */
  ghost function LastAccess(trace: seq<Event>, g: Geometry, x: int): (i: int)
    ensures -1 <= i < |trace|
  {
    if trace == [] then -1
    else if AccessedAt(trace, g, x, |trace| - 1) then |trace| - 1
    else LastAccess(trace[..|trace| - 1], g, x)
  }

  lemma {:induction false} LastAccessIs(trace: seq<Event>, g: Geometry, x: int)
    ensures var last := LastAccess(trace, g, x);
            && (last >= 0 ==> AccessedAt(trace, g, x, last))
            && forall i | last < i :: !AccessedAt(trace, g, x, i)
  {
    if trace != [] {
      var rest := trace[..|trace| - 1];
      LastAccessIs(rest, g, x);
      assert forall i | i < |rest| :: AccessedAt(trace, g, x, i) == AccessedAt(rest, g, x, i);
    }
  }

  /** The blocks of the set of block x that have been accessed since x was. */
  ghost function Since(trace: seq<Event>, g: Geometry, x: int): set<int> {
    set i | LastAccess(trace, g, x) < i < |trace| && !trace[i].Fetch?
            && Block(g, trace[i].addr) % Pow2(g.s) == x % Pow2(g.s) :: Block(g, trace[i].addr)
  }

  lemma SinceMember(trace: seq<Event>, g: Geometry, x: int, y: int)
    ensures y in Since(trace, g, x) <==>
            y % Pow2(g.s) == x % Pow2(g.s) && LastAccess(trace, g, y) > LastAccess(trace, g, x)
  {
    hide LastAccess, Pow2;
    LastAccessIs(trace, g, y);
    if y % Pow2(g.s) == x % Pow2(g.s) && LastAccess(trace, g, y) > LastAccess(trace, g, x) {
      var i := LastAccess(trace, g, y);
      assert AccessedAt(trace, g, y, i);
    }
    if y in Since(trace, g, x) {
      var i :| LastAccess(trace, g, x) < i < |trace| && !trace[i].Fetch?
               && Block(g, trace[i].addr) % Pow2(g.s) == x % Pow2(g.s) && Block(g, trace[i].addr) == y;
      assert AccessedAt(trace, g, y, i);
    }
  }

  /** The block with this tag in set k. */
  function BlockOf(g: Geometry, k: nat, t: int): int {
    t * Pow2(g.s) + k
  }

  lemma {:induction false} UseIsAccess(trace: seq<Event>, g: Geometry, k: nat, t: int)
    requires k < g.Sets()
    ensures LastUse(trace, g, k, t) == LastAccess(trace, g, BlockOf(g, k, t))
  {
    if trace != [] {
      var ev := trace[|trace| - 1];
      UseIsAccess(trace[..|trace| - 1], g, k, t);
      AddressIn(g, ev.addr, k, t);
    }
  }

  lemma AddressIn(g: Geometry, addr: nat, k: nat, t: int)
    requires k < g.Sets()
    ensures g.Set(addr) == k && g.Tag(addr) == t <==> Block(g, addr) == BlockOf(g, k, t)
  {
    TagAndSet(g, addr);
    if Block(g, addr) == BlockOf(g, k, t) {
      DivMod(Block(g, addr), t, Pow2(g.s), k);
      DivMod(Block(g, addr), g.Tag(addr), Pow2(g.s), g.Set(addr));
    }
  }

  /** Different tags of a set are different blocks. */
  lemma {:induction false} CountBlocks(g: Geometry, k: nat, l: seq<int>)
    requires k < g.Sets() && Distinct(l)
    ensures |set q | 0 <= q < |l| :: BlockOf(g, k, l[q])| == |l|
  {
    if l != [] {
      var m := l[..|l| - 1];
      var last := l[|l| - 1];
      CountBlocks(g, k, m);
      var a, b := set q | 0 <= q < |l| :: BlockOf(g, k, l[q]), set q | 0 <= q < |m| :: BlockOf(g, k, m[q]);
      forall q | 0 <= q < |m| ensures BlockOf(g, k, m[q]) != BlockOf(g, k, last) {
        DivMod(BlockOf(g, k, m[q]), m[q], Pow2(g.s), k);
        DivMod(BlockOf(g, k, last), last, Pow2(g.s), k);
      }
      assert a == b + {BlockOf(g, k, last)};
    }
  }

  /** In a list by last use, the blocks before position p are those used since the one there. */
  lemma SinceIsBefore(trace: seq<Event>, g: Geometry, k: nat, all: seq<int>, p: nat)
    requires k < g.Sets() && ByLastUse(trace, g, k, all) && p < |all|
    ensures Since(trace, g, BlockOf(g, k, all[p])) == set q | 0 <= q < p :: BlockOf(g, k, all[q])
  {
    hide Since, LastUse, LastAccess, Pow2;
    var x := BlockOf(g, k, all[p]);
    DivMod(x, all[p], Pow2(g.s), k);
    UseIsAccess(trace, g, k, all[p]);
    forall y ensures y in Since(trace, g, x) <==> exists q | 0 <= q < p :: y == BlockOf(g, k, all[q]) {
      SinceMember(trace, g, x, y);
      if y in Since(trace, g, x) {
        var t := y / Pow2(g.s);
        assert y == BlockOf(g, k, t);
        UseIsAccess(trace, g, k, t);
        var q :| 0 <= q < |all| && all[q] == t;
      }
      if q :| 0 <= q < p && y == BlockOf(g, k, all[q]) {
        DivMod(y, all[q], Pow2(g.s), k);
        UseIsAccess(trace, g, k, all[q]);
      }
    }
  }

  lemma DistinctByUse(trace: seq<Event>, g: Geometry, k: nat, all: seq<int>)
    requires ByLastUse(trace, g, k, all)
    ensures Distinct(all)
  {
  }

  lemma DistanceIsPosition(trace: seq<Event>, g: Geometry, k: nat, all: seq<int>, p: nat)
    requires k < g.Sets() && ByLastUse(trace, g, k, all) && Distinct(all) && p < |all|
    ensures |Since(trace, g, BlockOf(g, k, all[p]))| == p
  {
    hide Since, ByLastUse;
    SinceIsBefore(trace, g, k, all, p);
    var l := all[..p];
    CountBlocks(g, k, l);
    assert (set q | 0 <= q < p :: BlockOf(g, k, all[q])) == set q | 0 <= q < |l| :: BlockOf(g, k, l[q]);
  }

  lemma TakenIf(all: seq<int>, p: nat, e: nat)
    requires Distinct(all) && p < |all|
    ensures all[p] in Take(all, e) <==> p < e
  {
    if p < e <= |all| {
      assert Take(all, e)[p] == all[p];
    }
  }

  /** The block of an address is held exactly if it has been accessed before, and fewer than e other
      blocks of its set since. */
  lemma HeldExactly(trace: seq<Event>, g: Geometry, addr: nat)
    requires 1 <= g.e
    ensures var x := addr / Pow2(g.b);
            g.Tag(addr) in Run(trace, g).lists[g.Set(addr)] <==>
            LastAccess(trace, g, x) >= 0 && |Since(trace, g, x)| < g.e
  {
    hide Since, LastUse, LastAccess, Pow2, Run, Distinct;
    var x, k, t := addr / Pow2(g.b), g.Set(addr), g.Tag(addr);
    var all := HoldsLastDistinct(trace, g, k);
    AddressIn(g, addr, k, t);
    UseIsAccess(trace, g, k, t);
    DistinctByUse(trace, g, k, all);
    if t in all {
      var p :| 0 <= p < |all| && all[p] == t;
      DistanceIsPosition(trace, g, k, all, p);
      TakenIf(all, p, g.e);
    }
  }

  /** One more load or store is a hit exactly in that case, and a miss otherwise. */
  lemma HitExactly(trace: seq<Event>, g: Geometry, addr: nat)
    requires 1 <= g.e
    ensures var x, c, d := addr / Pow2(g.b), Run(trace, g), Run(trace + [Touch(addr)], g);
            if LastAccess(trace, g, x) >= 0 && |Since(trace, g, x)| < g.e
            then d.hits == c.hits + 1 && d.misses == c.misses
            else d.hits == c.hits && d.misses == c.misses + 1
  {
    hide Since, LastAccess;
    HeldExactly(trace, g, addr);
    assert (trace + [Touch(addr)])[..|trace|] == trace;
  }
}
