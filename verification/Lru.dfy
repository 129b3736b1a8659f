/** Least-recently-used replacement as a recency list, and why more lines never hurt it. */
module Lru {
  /** The list without t; a recency list holds each tag at most once. */
  function Drop(l: seq<int>, t: int): (r: seq<int>)
    ensures t in l ==> |r| < |l|
    ensures t !in l ==> r == l
  {
    if l == [] then [] else if l[0] == t then l[1..] else [l[0]] + Drop(l[1..], t)
  }

  /** One access to tag t in a set of e lines whose tags, most recent first, are l. */
  function Access(l: seq<int>, t: int, e: nat): seq<int> {
    if t in l then [t] + Drop(l, t)
    else if |l| < e || l == [] then [t] + l
    else [t] + l[..|l| - 1]
  }

  ghost predicate Distinct(l: seq<int>) {
    forall i, j | 0 <= i < j < |l| :: l[i] != l[j]
  }

  /** The first e elements. */
  function Take(l: seq<int>, e: nat): seq<int> {
    if e <= |l| then l[..e] else l
  }

  lemma TakeCons(x: int, l: seq<int>, e: nat)
    requires 1 <= e
    ensures Take([x] + l, e) == [x] + Take(l, e - 1)
  {
  }

  lemma DropCons(x: int, l: seq<int>, t: int)
    ensures Drop([x] + l, t) == if x == t then l else [x] + Drop(l, t)
  {
    assert ([x] + l)[1..] == l;
  }

  lemma {:induction false} DropTake(l: seq<int>, t: int, e: nat)
    requires 1 <= e
    ensures Take(Drop(l, t), e - 1) == if t in Take(l, e) then Drop(Take(l, e), t) else Take(l, e - 1)
  {
    if l == [] {
    } else {
      var x, r := l[0], l[1..];
      assert l == [x] + r;
      TakeCons(x, r, e);
      DropCons(x, Take(r, e - 1), t);
      if x != t && e > 1 {
        DropTake(r, t, e - 1);
        TakeCons(x, r, e - 1);
        TakeCons(x, Drop(r, t), e - 1);
      }
    }
  }

  /** The heart of the stack property: what a set of e lines holds after an access is the first e
      tags of what a set without limit holds. */
  lemma TakeAccess(l: seq<int>, t: int, e: nat, f: nat)
    requires 1 <= e <= f
    ensures Take(Access(l, t, f), e) == Access(Take(l, e), t, e)
  {
    DropTake(l, t, e);
    var a := Access(l, t, f);
    assert a[0] == t;
    assert Take(a, e) == [t] + Take(a[1..], e - 1);
  }

  lemma {:induction false} DropMember(l: seq<int>, t: int, x: int)
    requires Distinct(l)
    ensures x in Drop(l, t) <==> x in l && x != t
    ensures |Drop(l, t)| == if t in l then |l| - 1 else |l|
  {
    if l != [] {
      assert Distinct(l[1..]);
      assert x in l <==> x == l[0] || x in l[1..];
      if l[0] == t {
        assert forall j | 0 <= j < |l[1..]| :: l[1..][j] == l[j + 1] != l[0];
      } else {
        DropMember(l[1..], t, x);
      }
    }
  }

  lemma {:induction false} DropDistinct(l: seq<int>, t: int)
    requires Distinct(l)
    ensures Distinct(Drop(l, t))
  {
    if l != [] && l[0] != t {
      assert Distinct(l[1..]);
      DropDistinct(l[1..], t);
      DropMember(l[1..], t, l[0]);
      var d := Drop(l[1..], t);
      forall i | 0 <= i < |d| ensures d[i] != l[0] {
        assert d[i] in d;
        DropMember(l[1..], t, d[i]);
        var j :| 0 <= j < |l[1..]| && l[1..][j] == d[i];
        assert l[j + 1] == d[i];
      }
    }
  }

  /** An access keeps the list free of duplicates and within the capacity, and puts t in front. */
  lemma AccessKeeps(l: seq<int>, t: int, e: nat)
    requires Distinct(l) && |l| <= e && 1 <= e
    ensures var a := Access(l, t, e);
            && Distinct(a) && |a| <= e && a[0] == t
            && |a| == |l| + (if t in l then 0 else 1) - (if t !in l && |l| == e then 1 else 0)
            && forall x | x in a :: x == t || x in l
  {
    DropDistinct(l, t);
    DropMember(l, t, t);
    forall x | x in Access(l, t, e) ensures x == t || x in l {
      DropMember(l, t, x);
    }
  }

  /** A second access to the same tag hits and changes nothing. */
  lemma AccessTwice(l: seq<int>, t: int, e: nat)
    ensures t in Access(l, t, e) && Access(Access(l, t, e), t, e) == Access(l, t, e)
  {
    var a := Access(l, t, e);
    assert a[0] == t;
    assert [t] + a[1..] == a;
  }
}
