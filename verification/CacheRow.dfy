/** One set of csim.c's cache: lines with time stamps, seen as a recency list. */
module CacheRow {
  import opened Lru

  /** A line: its stamp, 0 while it is unused, and its tag. */
  datatype Line = Line(valid: int, tag: int)

  /** Stamps lie below now; used lines have different stamps and different tags. */
  ghost predicate RowOk(row: seq<Line>, now: int) {
    && (forall i | 0 <= i < |row| :: 0 <= row[i].valid < now)
    && (forall i, j | 0 <= i < j < |row| && row[i].valid != 0 && row[j].valid != 0 ::
          row[i].valid != row[j].valid && row[i].tag != row[j].tag)
  }

  ghost predicate Stamped(row: seq<Line>, i: int, n: int) {
    0 <= i < |row| && row[i].valid == n
  }

  /** The tag stamped at time n, if it is still there. */
  ghost function TagAt(row: seq<Line>, n: int): seq<int> {
    if exists i :: Stamped(row, i, n) then
      var i :| Stamped(row, i, n);
      [row[i].tag]
    else []
  }

  /** The tags of the used lines with stamps below n, the latest stamp first. */
  ghost function Recency(row: seq<Line>, n: int): seq<int>
    decreases n
  {
    if n <= 1 then [] else TagAt(row, n - 1) + Recency(row, n - 1)
  }

  lemma TagAtIs(row: seq<Line>, now: int, i: int, n: int)
    requires RowOk(row, now) && Stamped(row, i, n) && n != 0
    ensures TagAt(row, n) == [row[i].tag]
  {
  }

  lemma {:induction false} RecencyMember(row: seq<Line>, now: int, n: int, t: int)
    requires RowOk(row, now)
    ensures t in Recency(row, n) <==> exists i | 0 <= i < |row| :: row[i].tag == t && 0 < row[i].valid < n
    decreases n
  {
    if n > 1 {
      RecencyMember(row, now, n - 1, t);
      forall i | 0 <= i < |row| && row[i].valid == n - 1 ensures TagAt(row, n - 1) == [row[i].tag] {
        assert Stamped(row, i, n - 1);
        TagAtIs(row, now, i, n - 1);
      }
    }
  }

  lemma {:induction false} RecencyDistinct(row: seq<Line>, now: int, n: int)
    requires RowOk(row, now)
    ensures Distinct(Recency(row, n))
    decreases n
  {
    if n > 1 {
      var m := n - 1;
      RecencyDistinct(row, now, m);
      if i :| Stamped(row, i, m) {
        TagAtIs(row, now, i, m);
        RecencyMember(row, now, m, row[i].tag);
      }
    }
  }

  /** Only line i differs between the rows. */
  ghost predicate Replaces(row: seq<Line>, row': seq<Line>, i: int, now: int) {
    && 0 <= i < |row| == |row'| && row'[i].valid == now
    && forall j | 0 <= j < |row| && j != i :: row'[j] == row[j]
  }

  lemma TagAtKept(row: seq<Line>, row': seq<Line>, i: int, now: int, n: int)
    requires RowOk(row, now) && Replaces(row, row', i, now) && 0 < n < now
    ensures TagAt(row', n) == if row[i].valid == n then [] else TagAt(row, n)
  {
    if j :| Stamped(row', j, n) {
      assert Stamped(row, j, n);
      TagAtIs(row, now, j, n);
      assert TagAt(row', n) == [row[j].tag] by {
        forall k | Stamped(row', k, n) ensures k == j {
          assert Stamped(row, k, n);
        }
      }
    } else if j :| Stamped(row, j, n) {
      assert j == i || Stamped(row', j, n);
    }
  }

  lemma RecencyStep(row: seq<Line>, m: int)
    requires 0 < m
    ensures Recency(row, m + 1) == TagAt(row, m) + Recency(row, m)
  {
  }

  /** Restamping line i takes its tag out of the past. */
  lemma {:induction false} RestampDrops(row: seq<Line>, row': seq<Line>, i: int, now: int, n: int)
    requires RowOk(row, now) && Replaces(row, row', i, now) && n <= now && row[i].valid != 0
    ensures Recency(row', n) == Drop(Recency(row, n), row[i].tag)
    decreases n
  {
    hide TagAt;
    if n > 1 {
      var m := n - 1;
      RecencyStep(row, m);
      RecencyStep(row', m);
      hide Recency;
      RestampDrops(row, row', i, now, m);
      TagAtKept(row, row', i, now, m);
      RestampStep(row, i, now, m);
    }
  }

  lemma RestampStep(row: seq<Line>, i: int, now: int, m: int)
    requires RowOk(row, now) && 0 <= i < |row| && row[i].valid != 0 && 0 < m
    ensures Drop(TagAt(row, m) + Recency(row, m), row[i].tag) ==
            (if row[i].valid == m then [] else TagAt(row, m)) + Drop(Recency(row, m), row[i].tag)
  {
    hide Recency, Drop;
    var rest, t := Recency(row, m), row[i].tag;
    if row[i].valid == m {
      assert Stamped(row, i, m);
      TagAtIs(row, now, i, m);
      RecencyMember(row, now, m, t);
      DropCons(t, rest, t);
      DropAbsent(rest, t);
    } else if j :| Stamped(row, j, m) {
      TagAtIs(row, now, j, m);
      DropCons(row[j].tag, rest, t);
    } else {
      assert TagAt(row, m) + rest == rest;
    }
  }

  lemma DropAbsent(l: seq<int>, t: int)
    requires t !in l
    ensures Drop(l, t) == l
  {
  }

  /** Filling an unused line leaves the past alone. */
  lemma {:induction false} FillKeeps(row: seq<Line>, row': seq<Line>, i: int, now: int, n: int)
    requires RowOk(row, now) && Replaces(row, row', i, now) && n <= now && row[i].valid == 0
    ensures Recency(row', n) == Recency(row, n)
    decreases n
  {
    if n > 1 {
      FillKeeps(row, row', i, now, n - 1);
      TagAtKept(row, row', i, now, n - 1);
    }
  }

  lemma {:induction false} NothingBefore(row: seq<Line>, n: int)
    requires forall j | 0 <= j < |row| && row[j].valid != 0 :: n <= row[j].valid
    ensures Recency(row, n) == []
    decreases n
  {
    if n > 1 {
      var m := n - 1;
      NothingBefore(row, m);
      assert forall j :: !Stamped(row, j, m);
    }
  }

  function Front(l: seq<int>): seq<int>
    requires l != []
  {
    l[..|l| - 1]
  }

  /** Replacing the line with the oldest stamp cuts off the end of the list. */
  lemma {:induction false} EvictCuts(row: seq<Line>, row': seq<Line>, i: int, now: int, n: int)
    requires RowOk(row, now) && Replaces(row, row', i, now) && 0 < row[i].valid < n <= now
    requires forall j | 0 <= j < |row| :: row[i].valid <= row[j].valid
    ensures Recency(row, n) != [] && Recency(row', n) == Front(Recency(row, n))
    decreases n
  {
    hide Recency, TagAt;
    var m := n - 1;
    RecencyStep(row, m);
    RecencyStep(row', m);
    TagAtKept(row, row', i, now, m);
    if row[i].valid == m {
      assert Stamped(row, i, m);
      TagAtIs(row, now, i, m);
      NothingBefore(row, m);
      NothingBefore(row', m);
    } else {
      EvictCuts(row, row', i, now, m);
      FrontAppend(TagAt(row, m), Recency(row, m));
    }
  }

  lemma FrontAppend(a: seq<int>, b: seq<int>)
    requires b != []
    ensures Front(a + b) == a + Front(b)
  {
  }

  lemma NewestFirst(row: seq<Line>, row': seq<Line>, i: int, now: int)
    requires RowOk(row, now) && Replaces(row, row', i, now) && 0 < now && RowOk(row', now + 1)
    ensures Recency(row', now + 1) == [row'[i].tag] + Recency(row', now)
  {
    assert Stamped(row', i, now);
    TagAtIs(row', now + 1, i, now);
  }

  ghost function UsedBelow(row: seq<Line>, n: int): set<int> {
    set i | 0 <= i < |row| && 0 < row[i].valid < n
  }

  lemma {:induction false} RecencyLength(row: seq<Line>, now: int, n: int)
    requires RowOk(row, now)
    ensures |Recency(row, n)| == |UsedBelow(row, n)|
    decreases n
  {
    if n <= 1 {
      assert UsedBelow(row, n) == {};
    } else {
      hide Recency, TagAt, UsedBelow;
      var m := n - 1;
      RecencyStep(row, m);
      RecencyLength(row, now, m);
      UsedStep(row, now, m);
    }
  }

  lemma UsedStep(row: seq<Line>, now: int, m: int)
    requires RowOk(row, now) && 0 < m
    ensures |UsedBelow(row, m + 1)| == |TagAt(row, m)| + |UsedBelow(row, m)|
  {
    if i :| Stamped(row, i, m) {
      TagAtIs(row, now, i, m);
      UsedMore(row, now, m, i);
    } else {
      UsedSame(row, m);
    }
  }

  lemma UsedMore(row: seq<Line>, now: int, m: int, i: int)
    requires RowOk(row, now) && 0 < m && Stamped(row, i, m)
    ensures UsedBelow(row, m + 1) == UsedBelow(row, m) + {i} && i !in UsedBelow(row, m)
  {
  }

  lemma UsedSame(row: seq<Line>, m: int)
    requires 0 < m && forall i :: !Stamped(row, i, m)
    ensures UsedBelow(row, m + 1) == UsedBelow(row, m)
  {
    forall i | 0 <= i < |row| ensures row[i].valid != m {
      assert !Stamped(row, i, m);
    }
  }

  ghost function Indices(n: nat): (s: set<int>)
    ensures |s| == n && forall i :: i in s <==> 0 <= i < n
  {
    if n == 0 then {} else Indices(n - 1) + {n - 1}
  }

  lemma SubsetSize(a: set<int>, b: set<int>)
    requires a <= b
    ensures |a| <= |b| && (a != b ==> |a| < |b|)
  {
    assert b == a + (b - a);
  }

  /** The list is as long as the row exactly when every line is used. */
  lemma FullRow(row: seq<Line>, now: int)
    requires RowOk(row, now)
    ensures |Recency(row, now)| <= |row|
    ensures |Recency(row, now)| == |row| <==> forall i | 0 <= i < |row| :: row[i].valid != 0
  {
    var used, all := UsedBelow(row, now), Indices(|row|);
    RecencyLength(row, now, now);
    SubsetSize(used, all);
    if i :| 0 <= i < |row| && row[i].valid == 0 {
      assert i in all && i !in used;
    } else {
      assert used == all;
    }
  }

  /** What a hit does to a set, as an access to its recency list. */
  lemma HitIsAccess(row: seq<Line>, now: int, i: int)
    requires RowOk(row, now) && 0 <= i < |row| && row[i].valid != 0 && 0 < now
    ensures var row', t := row[i := Line(now, row[i].tag)], row[i].tag;
            && RowOk(row', now + 1)
            && t in Recency(row, now)
            && Recency(row', now + 1) == Access(Recency(row, now), t, |row|)
  {
    var row' := row[i := Line(now, row[i].tag)];
    assert Replaces(row, row', i, now);
    RestampDrops(row, row', i, now, now);
    RecencyMember(row, now, now, row[i].tag);
    NewestFirst(row, row', i, now);
  }

  /** What a miss does to a set, when it loads tag t into an unused line or the oldest one. */
  lemma MissIsAccess(row: seq<Line>, now: int, i: int, t: int)
    requires RowOk(row, now) && 0 <= i < |row| && 0 < now
    requires forall j | 0 <= j < |row| :: row[i].valid <= row[j].valid
    requires forall j | 0 <= j < |row| && row[j].valid != 0 :: row[j].tag != t
    ensures var row' := row[i := Line(now, t)];
            && RowOk(row', now + 1)
            && t !in Recency(row, now)
            && (row[i].valid == 0 <==> |Recency(row, now)| < |row|)
            && Recency(row', now + 1) == Access(Recency(row, now), t, |row|)
  {
    var row' := row[i := Line(now, t)];
    assert Replaces(row, row', i, now);
    RecencyMember(row, now, now, t);
    FullRow(row, now);
    NewestFirst(row, row', i, now);
    if row[i].valid == 0 {
      FillKeeps(row, row', i, now, now);
    } else {
      EvictCuts(row, row', i, now, now);
    }
  }

  /** Time passing changes nothing. */
  lemma LaterSame(row: seq<Line>, now: int)
    requires RowOk(row, now) && 0 < now
    ensures RowOk(row, now + 1) && Recency(row, now + 1) == Recency(row, now)
  {
    assert TagAt(row, now) == [] by {
      assert forall i | 0 <= i < |row| :: row[i].valid != now;
    }
  }
}
