/** The cache of csim.c as a function of its trace: one recency list for each set, and counters. */
module CacheTrace {
  import opened Lru
  import opened Numbers

  /** s set bits, b block bits, e lines in each set. */
  datatype Geometry = Geometry(s: nat, b: nat, e: nat) {
    function Sets(): nat { Pow2(s) }

    function Tag(addr: nat): nat { Quotient(addr, Pow2(s + b)) }

    function Set(addr: nat): (k: nat)
      ensures k < Sets()
    {
      Quotient(addr, Pow2(b)) % Pow2(s)
    }
  }

  /** A line of the trace: an instruction fetch (I), a load or a store (L, S), a modify (M). */
  datatype Event = Fetch(addr: nat) | Touch(addr: nat) | Modify(addr: nat)

  datatype Cache = Cache(lists: seq<seq<int>>, hits: nat, misses: nat, evictions: nat)

  function Empty(g: Geometry): Cache {
    Cache(seq(g.Sets(), _ => []), 0, 0, 0)
  }

  /** One access. */
  function Step(c: Cache, g: Geometry, addr: nat): Cache
    requires |c.lists| == g.Sets()
  {
    var k, t := g.Set(addr), g.Tag(addr);
    var l := c.lists[k];
    var lists := c.lists[k := Access(l, t, g.e)];
    if t in l then Cache(lists, c.hits + 1, c.misses, c.evictions)
    else Cache(lists, c.hits, c.misses + 1, if |l| < g.e then c.evictions else c.evictions + 1)
  }

  /** One line of the trace. Fetches are skipped; a modify is an access and one more hit. */
  function StepEvent(c: Cache, g: Geometry, ev: Event): (c': Cache)
    requires |c.lists| == g.Sets()
    ensures |c'.lists| == g.Sets()
  {
    match ev
    case Fetch(_) => c
    case Touch(addr) => Step(c, g, addr)
    case Modify(addr) => var d := Step(c, g, addr); d.(hits := d.hits + 1)
  }

  function Run(trace: seq<Event>, g: Geometry): (c: Cache)
    ensures |c.lists| == g.Sets()
  {
    if trace == [] then Empty(g)
    else StepEvent(Run(trace[..|trace| - 1], g), g, trace[|trace| - 1])
  }

  /** Counting a modify as one access and a hit is the same as two accesses. */
  lemma ModifyIsTwoAccesses(c: Cache, g: Geometry, addr: nat)
    requires |c.lists| == g.Sets()
    ensures StepEvent(c, g, Modify(addr)) == Step(Step(c, g, addr), g, addr)
  {
    AccessTwice(c.lists[g.Set(addr)], g.Tag(addr), g.e);
    var d := Step(c, g, addr);
    assert Step(d, g, addr).lists == d.lists;
  }

  function SumOfLengths(lists: seq<seq<int>>): nat {
    if lists == [] then 0 else |lists[0]| + SumOfLengths(lists[1..])
  }

  lemma {:induction false} SumUpdate(lists: seq<seq<int>>, k: nat, l: seq<int>)
    requires k < |lists|
    ensures SumOfLengths(lists[k := l]) == SumOfLengths(lists) - |lists[k]| + |l|
  {
    if k == 0 {
      assert lists[k := l][1..] == lists[1..];
    } else {
      SumUpdate(lists[1..], k - 1, l);
      assert lists[k := l][1..] == lists[1..][k - 1 := l];
    }
  }

  lemma {:induction false} SumOfEmpty(n: nat)
    ensures SumOfLengths(seq(n, _ => [])) == 0
  {
    if n > 0 {
      SumOfEmpty(n - 1);
      var s: seq<seq<int>> := seq(n, _ => []);
      assert s[1..] == seq(n - 1, _ => []);
    }
  }

  /** Accesses a trace makes: none for a fetch, one for a load or a store, two for a modify. */
  function Accesses(trace: seq<Event>): nat {
    if trace == [] then 0
    else Accesses(trace[..|trace| - 1]) + match trace[|trace| - 1]
                                          case Fetch(_) => 0
                                          case Touch(_) => 1
                                          case Modify(_) => 2
  }

  ghost predicate Proper(c: Cache, g: Geometry) {
    && |c.lists| == g.Sets()
    && forall k | 0 <= k < |c.lists| :: Distinct(c.lists[k]) && |c.lists[k]| <= g.e
  }

  ghost predicate Balanced(c: Cache, n: nat) {
    && c.hits + c.misses == n
    && c.evictions <= c.misses
    && c.misses - c.evictions == SumOfLengths(c.lists)
  }

  lemma StepConserves(c: Cache, g: Geometry, addr: nat, n: nat)
    requires Proper(c, g) && Balanced(c, n) && 1 <= g.e
    ensures Proper(Step(c, g, addr), g) && Balanced(Step(c, g, addr), n + 1)
  {
    var k, t := g.Set(addr), g.Tag(addr);
    AccessKeeps(c.lists[k], t, g.e);
    SumUpdate(c.lists, k, Access(c.lists[k], t, g.e));
  }

  /** Every access is a hit or a miss, and misses minus evictions is the number of valid lines. */
  lemma {:induction false} Conservation(trace: seq<Event>, g: Geometry)
    requires 1 <= g.e
    ensures Proper(Run(trace, g), g) && Balanced(Run(trace, g), Accesses(trace))
  {
    if trace == [] {
      SumOfEmpty(g.Sets());
    } else {
      var rest, ev := trace[..|trace| - 1], trace[|trace| - 1];
      Conservation(rest, g);
      if !ev.Fetch? {
        StepConserves(Run(rest, g), g, ev.addr, Accesses(rest));
      }
    }
  }

  /** The counters are bounded by the trace: one of fewer than 2^30 events cannot make the ints overflow. */
  lemma {:induction false} CountersBounded(trace: seq<Event>, g: Geometry)
    requires 1 <= g.e
    ensures var c := Run(trace, g); c.hits + c.misses <= 2 * |trace| && c.evictions <= c.misses
  {
    Conservation(trace, g);
    AccessesBounded(trace);
  }

  lemma {:induction false} AccessesBounded(trace: seq<Event>)
    ensures Accesses(trace) <= 2 * |trace|
  {
    if trace != [] {
      AccessesBounded(trace[..|trace| - 1]);
    }
  }

  /** The cache with fewer lines holds a prefix of each list of the cache with more. */
  ghost predicate Includes(c: Cache, d: Cache, e: nat) {
    && |c.lists| == |d.lists|
    && (forall k | 0 <= k < |c.lists| :: c.lists[k] == Take(d.lists[k], e))
    && d.misses <= c.misses && c.hits <= d.hits
  }

  lemma StepIncludes(c: Cache, d: Cache, g: Geometry, f: nat, addr: nat)
    requires 1 <= g.e <= f && |c.lists| == |d.lists| == g.Sets() && Includes(c, d, g.e)
    ensures Includes(Step(c, g, addr), Step(d, g.(e := f), addr), g.e)
  {
    var k, t := g.Set(addr), g.Tag(addr);
    assert g.(e := f).Set(addr) == k && g.(e := f).Tag(addr) == t;
    TakeAccess(d.lists[k], t, g.e, f);
  }

  /** LRU inclusion: with the same sets and blocks, whatever the trace, a cache with at least as
      many lines in each set always holds everything the smaller one holds, hits at least as often
      and misses at most as often. */
  lemma {:induction false} Inclusion(trace: seq<Event>, g: Geometry, f: nat)
    requires 1 <= g.e <= f
    ensures Includes(Run(trace, g), Run(trace, g.(e := f)), g.e)
    ensures forall k, t | 0 <= k < g.Sets() && t in Run(trace, g).lists[k] :: t in Run(trace, g.(e := f)).lists[k]
  {
    if trace != [] {
      var rest, ev := trace[..|trace| - 1], trace[|trace| - 1];
      Inclusion(rest, g, f);
      if !ev.Fetch? {
        StepIncludes(Run(rest, g), Run(rest, g.(e := f)), g, f, ev.addr);
      }
    }
  }

  /** When set k last saw tag t, or -1. */
  function LastUse(trace: seq<Event>, g: Geometry, k: nat, t: int): int {
    if trace == [] then -1
    else
      var i, ev := |trace| - 1, trace[|trace| - 1];
      if !ev.Fetch? && g.Set(ev.addr) == k && g.Tag(ev.addr) == t then i else LastUse(trace[..i], g, k, t)
  }

  lemma {:induction false} LastUseBelow(trace: seq<Event>, g: Geometry, k: nat, t: int)
    ensures -1 <= LastUse(trace, g, k, t) < |trace|
  {
    if trace != [] {
      LastUseBelow(trace[..|trace| - 1], g, k, t);
    }
  }

  /** l lists the tags that set k has seen, each once, the last used first. */
  ghost predicate ByLastUse(trace: seq<Event>, g: Geometry, k: nat, l: seq<int>) {
    && (forall t :: t in l <==> 0 <= LastUse(trace, g, k, t))
    && (forall i, j | 0 <= i < j < |l| :: LastUse(trace, g, k, l[j]) < LastUse(trace, g, k, l[i]))
  }

  ghost predicate Uses(g: Geometry, ev: Event, k: nat) {
    !ev.Fetch? && g.Set(ev.addr) == k
  }

  lemma LastUseStep(trace: seq<Event>, g: Geometry, k: nat, t: int)
    requires trace != []
    ensures var i, ev := |trace| - 1, trace[|trace| - 1];
            LastUse(trace, g, k, t) ==
            if Uses(g, ev, k) && g.Tag(ev.addr) == t then i else LastUse(trace[..i], g, k, t)
  {
  }

  lemma DropStep(l: seq<int>, t: int)
    requires Distinct(l) && Drop(l, t) != []
    ensures l != [] && Distinct(l[1..])
    ensures Drop(l, t) == if l[0] == t then l[1..] else [l[0]] + Drop(l[1..], t)
  {
  }

  lemma {:induction false} DropOrder(l: seq<int>, t: int, i: int, j: int) returns (i': int, j': int)
    requires Distinct(l) && 0 <= i < j < |Drop(l, t)|
    ensures 0 <= i' < j' < |l| && l[i'] == Drop(l, t)[i] && l[j'] == Drop(l, t)[j]
  {
    hide Drop, Distinct;
    DropStep(l, t);
    if l[0] == t {
      i', j' := i + 1, j + 1;
    } else if i > 0 {
      i', j' := DropOrder(l[1..], t, i - 1, j - 1);
      i', j' := i' + 1, j' + 1;
    } else {
      j' := DropPlace(l[1..], t, j - 1);
      i', j' := 0, j' + 1;
    }
  }

  lemma {:induction false} DropPlace(l: seq<int>, t: int, j: int) returns (j': int)
    requires 0 <= j < |Drop(l, t)|
    ensures 0 <= j' < |l| && l[j'] == Drop(l, t)[j]
  {
    if l[0] == t {
      j' := j + 1;
    } else if j == 0 {
      j' := 0;
    } else {
      j' := DropPlace(l[1..], t, j - 1);
      j' := j' + 1;
    }
  }

  lemma UsePair(trace: seq<Event>, g: Geometry, k: nat, l: seq<int>, i: int, j: int)
    requires trace != [] && Uses(g, trace[|trace| - 1], k)
    requires ByLastUse(trace[..|trace| - 1], g, k, l) && Distinct(l)
    requires var t := g.Tag(trace[|trace| - 1].addr); 0 <= i < j < |Drop(l, t)|
    ensures var d := Drop(l, g.Tag(trace[|trace| - 1].addr)); LastUse(trace, g, k, d[j]) < LastUse(trace, g, k, d[i])
  {
    var t := g.Tag(trace[|trace| - 1].addr);
    var d := Drop(l, t);
    var i', j' := DropOrder(l, t, i, j);
    hide Drop;
    UseOther(trace, g, k, l, i);
    UseOther(trace, g, k, l, j);
  }

  lemma UseOther(trace: seq<Event>, g: Geometry, k: nat, l: seq<int>, i: int)
    requires trace != [] && Uses(g, trace[|trace| - 1], k) && Distinct(l)
    requires var t := g.Tag(trace[|trace| - 1].addr); 0 <= i < |Drop(l, t)|
    ensures var d := Drop(l, g.Tag(trace[|trace| - 1].addr));
            LastUse(trace, g, k, d[i]) == LastUse(trace[..|trace| - 1], g, k, d[i]) < |trace| - 1
  {
    var t := g.Tag(trace[|trace| - 1].addr);
    var x := Drop(l, t)[i];
    assert x in Drop(l, t);
    DropMember(l, t, x);
    LastUseStep(trace, g, k, x);
    LastUseBelow(trace[..|trace| - 1], g, k, x);
  }

  lemma UsedMember(trace: seq<Event>, g: Geometry, k: nat, l: seq<int>, x: int)
    requires trace != [] && Uses(g, trace[|trace| - 1], k)
    requires ByLastUse(trace[..|trace| - 1], g, k, l) && Distinct(l)
    ensures var t := g.Tag(trace[|trace| - 1].addr); x in [t] + Drop(l, t) <==> 0 <= LastUse(trace, g, k, x)
  {
    var t := g.Tag(trace[|trace| - 1].addr);
    LastUseStep(trace, g, k, x);
    DropMember(l, t, x);
    hide Drop, LastUse, Distinct;
  }

  /** One use moves its tag to the front and leaves the order of the others. */
  lemma UseOrders(trace: seq<Event>, g: Geometry, k: nat, l: seq<int>)
    requires trace != [] && Uses(g, trace[|trace| - 1], k)
    requires ByLastUse(trace[..|trace| - 1], g, k, l) && Distinct(l) && |l| < g.e
    ensures ByLastUse(trace, g, k, Access(l, g.Tag(trace[|trace| - 1].addr), g.e))
  {
    hide LastUse, Distinct;
    var t := g.Tag(trace[|trace| - 1].addr);
    var d := Drop(l, t);
    assert Access(l, t, g.e) == [t] + d;
    hide Drop;
    forall x ensures x in [t] + d <==> 0 <= LastUse(trace, g, k, x) {
      UsedMember(trace, g, k, l, x);
    }
    LastUseStep(trace, g, k, t);
    forall i | 0 <= i < |d| ensures LastUse(trace, g, k, d[i]) < LastUse(trace, g, k, t) {
      UseOther(trace, g, k, l, i);
    }
    forall i, j | 0 <= i < j < |d| ensures LastUse(trace, g, k, d[j]) < LastUse(trace, g, k, d[i]) {
      UsePair(trace, g, k, l, i, j);
    }
    forall i, j | 0 <= i < j <= |d| ensures LastUse(trace, g, k, ([t] + d)[j]) < LastUse(trace, g, k, ([t] + d)[i]) {
      FrontIsLast(trace, g, k, t, d, i, j);
    }
  }

  lemma FrontIsLast(trace: seq<Event>, g: Geometry, k: nat, t: int, d: seq<int>, i: int, j: int)
    requires forall i | 0 <= i < |d| :: LastUse(trace, g, k, d[i]) < LastUse(trace, g, k, t)
    requires forall i, j | 0 <= i < j < |d| :: LastUse(trace, g, k, d[j]) < LastUse(trace, g, k, d[i])
    requires 0 <= i < j <= |d|
    ensures LastUse(trace, g, k, ([t] + d)[j]) < LastUse(trace, g, k, ([t] + d)[i])
  {
    hide LastUse;
    assert ([t] + d)[j] == d[j - 1];
    assert i > 0 ==> ([t] + d)[i] == d[i - 1];
  }

  /** With room for everything, a set's list is all its tags by last use. */
  lemma {:induction false} RoomyIsByLastUse(trace: seq<Event>, g: Geometry, k: nat)
    requires |trace| < g.e && k < g.Sets()
    ensures var l := Run(trace, g).lists[k]; ByLastUse(trace, g, k, l) && |l| <= |trace|
  {
    if trace != [] {
      var rest, ev := trace[..|trace| - 1], trace[|trace| - 1];
      RoomyIsByLastUse(rest, g, k);
      Conservation(rest, g);
      var l := Run(rest, g).lists[k];
      if Uses(g, ev, k) {
        UseOrders(trace, g, k, l);
        AccessKeeps(l, g.Tag(ev.addr), g.e);
      } else {
        forall t ensures LastUse(trace, g, k, t) == LastUse(rest, g, k, t) {
          LastUseStep(trace, g, k, t);
        }
      }
    }
  }

  /** Each set holds its last e distinct tags, for every trace and every e. */
  lemma HoldsLastDistinct(trace: seq<Event>, g: Geometry, k: nat) returns (all: seq<int>)
    requires 1 <= g.e && k < g.Sets()
    ensures ByLastUse(trace, g, k, all)
    ensures Run(trace, g).lists[k] == Take(all, g.e)
  {
    var f := if |trace| < g.e then g.e else |trace| + 1;
    var wide := g.(e := f);
    RoomyIsByLastUse(trace, wide, k);
    Inclusion(trace, g, f);
    all := Run(trace, wide).lists[k];
    forall t ensures LastUse(trace, g, k, t) == LastUse(trace, wide, k, t) {
      SameLastUse(trace, g, f, k, t);
    }
  }

  lemma {:induction false} SameLastUse(trace: seq<Event>, g: Geometry, f: nat, k: nat, t: int)
    ensures LastUse(trace, g, k, t) == LastUse(trace, g.(e := f), k, t)
  {
    if trace != [] {
      SameLastUse(trace[..|trace| - 1], g, f, k, t);
    }
  }
}
