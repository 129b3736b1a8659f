/** csim.c: the cache simulator, with its lines, time stamps and counters. */
module CacheSim {
  import opened Lru
  import opened CacheRow
  import opened CacheTrace
  import opened Numbers

  const INT_MAX := 0x7FFF_FFFF

  class Simulator {
    const g: Geometry
    const caches: array2<Line>
    var cnt: int
    var hits: nat
    var misses: nat
    var evictions: nat

    /** init_cache: every line unused. */
    constructor (g: Geometry)
      requires 1 <= g.e
      ensures this.g == g && fresh(caches) && Valid() && cnt == 1 && Model() == Empty(g)
    {
      this.g := g;
      caches := new Line[Pow2(g.s), g.e]((_, _) => Line(0, 0));
      cnt, hits, misses, evictions := 1, 0, 0, 0;
      new;
      assert forall k | 0 <= k < g.Sets() :: RowOk(Row(k), 1) && Recency(Row(k), 1) == [];
    }

    /** The lines of set k. */
    ghost function Row(k: int): (row: seq<Line>)
      requires 0 <= k < caches.Length0
      reads caches
      ensures |row| == caches.Length1 && forall i | 0 <= i < |row| :: row[i] == caches[k, i]
    {
      seq(caches.Length1, i requires 0 <= i < caches.Length1 reads caches => caches[k, i])
    }

    ghost predicate Valid()
      reads this, caches
    {
      && 1 <= g.e && caches.Length0 == g.Sets() && caches.Length1 == g.e
      && 1 <= cnt <= INT_MAX
      && forall k | 0 <= k < g.Sets() :: RowOk(Rows()[k], cnt)
    }

    /** The recency lists and counters this simulator stands for. */
    ghost function Model(): (c: Cache)
      requires Valid()
      reads this, caches
      ensures |c.lists| == g.Sets()
    {
      Cache(Lists(Rows(), cnt), hits, misses, evictions)
    }

    /** The first loop of find_cache: the line of set k that holds tag t, or -1. */
    method FindLine(k: nat, t: nat) returns (line: int)
      requires Valid() && k < g.Sets()
      ensures line == -1 ==> forall j | 0 <= j < g.e :: !(caches[k, j].valid != 0 && caches[k, j].tag == t)
      ensures line != -1 ==> 0 <= line < g.e && caches[k, line].valid != 0 && caches[k, line].tag == t
    {
      line := -1;
      for i := 0 to g.e
        invariant line == -1
        invariant forall j | 0 <= j < i :: !(caches[k, j].valid != 0 && caches[k, j].tag == t)
      {
        if caches[k, i].valid != 0 && caches[k, i].tag == t {
          line := i;
          break;
        }
      }
    }

    /** The second loop of find_cache: the first unused line of set k, or else the oldest. */
    method FindVictim(k: nat) returns (line: int)
      requires Valid() && k < g.Sets()
      ensures 0 <= line < g.e
      ensures forall j | 0 <= j < g.e :: caches[k, line].valid <= caches[k, j].valid
      ensures caches[k, line].valid == 0 ==> forall j | 0 <= j < line :: caches[k, j].valid != 0
    {
      assert RowOk(Rows()[k], cnt) && Rows()[k] == Row(k);
      assert forall j | 0 <= j < g.e :: 0 <= Row(k)[j].valid < cnt;
      line := -1;
      var validMin := INT_MAX;
      for i := 0 to g.e
        invariant forall j | 0 <= j < i :: caches[k, j].valid != 0 && validMin <= caches[k, j].valid
        invariant if line == -1 then i == 0 && validMin == INT_MAX
                  else 0 <= line < i && caches[k, line].valid == validMin
      {
        if caches[k, i].valid == 0 {
          line := i;
          break;
        }
        if caches[k, i].valid < validMin {
          line, validMin := i, caches[k, i].valid;
        }
      }
    }

    /** The rows of all sets. */
    ghost function Rows(): (rows: seq<seq<Line>>)
      reads caches
      ensures |rows| == caches.Length0 && forall k | 0 <= k < |rows| :: rows[k] == Row(k)
    {
      seq(caches.Length0, k requires 0 <= k < caches.Length0 reads caches => Row(k))
    }

    /** Loads tag t into line i of set k, or keeps it there, with the next stamp. */
    method Store(k: nat, i: nat, t: int)
      requires k < caches.Length0 && i < caches.Length1
      modifies this`cnt, caches
      ensures cnt == old(cnt) + 1
      ensures Rows() == old(Rows())[k := old(Row(k))[i := Line(old(cnt), t)]]
    {
      caches[k, i] := Line(cnt, t);
      cnt := cnt + 1;
      assert Row(k) == old(Row(k))[i := Line(old(cnt), t)];
      assert forall m | 0 <= m < caches.Length0 && m != k :: Row(m) == old(Row(m));
    }

    /** The recency lists of a list of rows. */
    ghost function Lists(rows: seq<seq<Line>>, now: int): (l: seq<seq<int>>)
      ensures |l| == |rows| && forall k | 0 <= k < |l| :: l[k] == Recency(rows[k], now)
    {
      seq(|rows|, k requires 0 <= k < |rows| => Recency(rows[k], now))
    }

    /** One access to set k, seen on all the rows. */
    lemma StoredIsAccess(rows: seq<seq<Line>>, now: int, k: nat, i: nat, t: int)
      requires forall m | 0 <= m < |rows| :: RowOk(rows[m], now)
      requires k < |rows| && i < |rows[k]| && 0 < now
      requires var row' := rows[k][i := Line(now, t)];
               RowOk(row', now + 1) && Recency(row', now + 1) == Access(Recency(rows[k], now), t, |rows[k]|)
      ensures var rows' := rows[k := rows[k][i := Line(now, t)]];
              && (forall m | 0 <= m < |rows| :: RowOk(rows'[m], now + 1))
              && Lists(rows', now + 1) == Lists(rows, now)[k := Access(Recency(rows[k], now), t, |rows[k]|)]
    {
      hide RowOk, Recency, Access;
      var rows' := rows[k := rows[k][i := Line(now, t)]];
      forall m | 0 <= m < |rows| && m != k
        ensures RowOk(rows'[m], now + 1) && Recency(rows'[m], now + 1) == Recency(rows[m], now)
      {
        LaterSame(rows[m], now);
      }
    }

    /** find_cache: one access. */
    method FindCache(addr: nat)
      requires Valid() && cnt < INT_MAX
      modifies this, caches
      ensures Valid() && cnt == old(cnt) + 1
      ensures Model() == Step(old(Model()), g, addr)
    {
      hide RowOk, Recency, Access;
      var t, k := g.Tag(addr), g.Set(addr);
      var line := FindLine(k, t);
      ghost var rows := Rows();
      if line != -1 {
        HitIsAccess(Row(k), cnt, line);
        StoredIsAccess(rows, cnt, k, line, t);
        hits := hits + 1;
        Store(k, line, t);
        return;
      }
      misses := misses + 1;
      line := FindVictim(k);
      MissIsAccess(Row(k), cnt, line, t);
      StoredIsAccess(rows, cnt, k, line, t);
      if caches[k, line].valid != 0 {
        evictions := evictions + 1;
      }
      Store(k, line, t);
    }

    /** read_from_file: the whole trace. Fewer accesses than stamps are assumed. */
    method Replay(trace: seq<Event>)
      requires Valid() && cnt == 1 && Model() == Empty(g) && |trace| < INT_MAX
      modifies this, caches
      ensures Valid() && Model() == Run(trace, g)
    {
      hide RowOk, Recency, Access;
      assert trace[..0] == [];
      for i := 0 to |trace|
        invariant Valid() && cnt <= i + 1
        invariant Model() == Run(trace[..i], g)
      {
        assert trace[..i + 1][..i] == trace[..i];
        if !trace[i].Fetch? {
          FindCache(trace[i].addr);
          if trace[i].Modify? {
            hits := hits + 1;
          }
        }
      }
      assert trace[..|trace|] == trace;
    }
  }
}
