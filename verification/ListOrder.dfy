/** The order of the free lists: a block that leaves keeps the order of the others, and a block that
    enters is the first of its class. */
module ListOrder {
  import opened HeapModel
  import opened FreeLists

  /** L without the elements of gone, in its order. */
  ghost function Outside(L: seq<int>, gone: set<int>): seq<int> {
    if L == [] then []
    else if L[0] in gone then Outside(L[1..], gone)
    else [L[0]] + Outside(L[1..], gone)
  }

  ghost function Minus(lists: seq<seq<int>>, gone: set<int>): (r: seq<seq<int>>)
    ensures |r| == |lists|
  {
    seq(|lists|, c requires 0 <= c < |lists| => Outside(lists[c], gone))
  }

  /** The lists with block p in front of the list of its class. */
  ghost function Filed(pol: Policy, lists: seq<seq<int>>, p: int, size: int): seq<seq<int>> {
    var c := Class(pol, size);
    if c < |lists| then lists[c := [p] + lists[c]] else lists
  }

  /** The blocks of B that lie in a block of size bytes at r. */
  ghost function Swallowed(B: Layout, r: int, size: int): set<int> {
    set q | q in B && r <= q < r + size
  }

  /** The lists after a block of size bytes at r has taken the place of the blocks of B that lie there. */
  ghost function Refiled(pol: Policy, lists: seq<seq<int>>, B: Layout, r: int, size: int): seq<seq<int>> {
    Filed(pol, Minus(lists, Swallowed(B, r, size)), r, size)
  }

  /** The lists after place has taken n bytes of the free block of total bytes at p: the rest, if there
      is one, is the first of its class. */
  ghost function AfterPlace(pol: Policy, lists: seq<seq<int>>, p: int, total: int, n: int): seq<seq<int>> {
    if total - n < 16 then Minus(lists, {p}) else Filed(pol, Minus(lists, {p}), p + n, total - n)
  }

  lemma SwallowedPainted(B: Layout, p: int, free: bool, r: int, size: int)
    requires p in B
    ensures Swallowed(Paint(B, p, free), r, size) == Swallowed(B, r, size)
  {
  }

  lemma SwallowedGrown(B: Layout, hi: int, n: int, r: int, size: int)
    requires r <= hi < r + size
    ensures Swallowed(Grow(B, hi, n), r, size) == {hi} + Swallowed(B, r, size)
  {
  }

  lemma NoListsRefiled(pol: Policy, r: int, size: int)
    ensures Refiled(pol, NoLists(pol), map[], r, size) == Filed(pol, NoLists(pol), r, size)
  {
    assert Minus(NoLists(pol), Swallowed(map[], r, size)) == NoLists(pol);
  }

  /** The blocks that coalesce joins are all that lie in the joined block. */
  lemma JoinersAre(B: Layout, lo: int, hi: int, p: int, prev: int, joinPrev: bool, joinNext: bool)
    requires Tiled(B, lo, hi) && CanJoin(B, p, prev, joinPrev, joinNext)
    ensures Swallowed(B, if joinPrev then prev else p, JoinedSize(B, p, prev, joinPrev, joinNext)) ==
            Joiners(p, prev, p + B[p].size, joinPrev, joinNext)
  {
  }

  /** The blocks coalesce joins. */
  ghost function Joiners(bp: int, prev: int, next: int, joinPrev: bool, joinNext: bool): set<int> {
    {bp} + (if joinNext then {next} else {}) + (if joinPrev then {prev} else {})
  }

  lemma {:induction false} OutsideSame(L: seq<int>, a: set<int>, b: set<int>)
    requires forall q | q in L :: q in a <==> q in b
    ensures Outside(L, a) == Outside(L, b)
  {
    if L != [] {
      var h := L[0];
      assert h in L && (h in a <==> h in b);
      OutsideSame(L[1..], a, b);
    }
  }

  lemma {:induction false} OutsideTwice(L: seq<int>, a: set<int>, b: set<int>)
    ensures Outside(Outside(L, a), b) == Outside(L, a + b)
  {
    if L != [] {
      OutsideTwice(L[1..], a, b);
    }
  }

  lemma {:induction false} OutsideNone(L: seq<int>)
    ensures Outside(L, {}) == L
  {
    if L != [] {
      OutsideNone(L[1..]);
    }
  }

  lemma {:induction false} OutsideOne(L: seq<int>, k: nat)
    requires k < |L| && forall i, j | 0 <= i < j < |L| :: L[i] != L[j]
    ensures Outside(L, {L[k]}) == Without(L, k)
  {
    var p := L[k];
    if k == 0 {
      OutsideSame(L[1..], {p}, {});
      OutsideNone(L[1..]);
    } else {
      OutsideOne(L[1..], k - 1);
      assert Without(L, k) == [L[0]] + Without(L[1..], k - 1);
    }
  }

  lemma MinusSame(lists: seq<seq<int>>, a: set<int>, b: set<int>)
    requires forall c, q | 0 <= c < |lists| && q in lists[c] :: q in a <==> q in b
    ensures Minus(lists, a) == Minus(lists, b)
  {
    forall c | 0 <= c < |lists| ensures Outside(lists[c], a) == Outside(lists[c], b) {
      OutsideSame(lists[c], a, b);
    }
  }

  lemma MinusTwice(lists: seq<seq<int>>, a: set<int>, b: set<int>)
    ensures Minus(Minus(lists, a), b) == Minus(lists, a + b)
  {
    forall c | 0 <= c < |lists| ensures Outside(Outside(lists[c], a), b) == Outside(lists[c], a + b) {
      OutsideTwice(lists[c], a, b);
    }
  }

  /** Blocks that are in no list do not matter. */
  lemma MinusUnlisted(lists: seq<seq<int>>, a: set<int>)
    requires forall c, q | 0 <= c < |lists| && q in lists[c] :: q !in a
    ensures Minus(lists, a) == lists
  {
    forall c | 0 <= c < |lists| ensures Outside(lists[c], a) == lists[c] {
      OutsideSame(lists[c], a, {});
      OutsideNone(lists[c]);
    }
  }

  /** remove_free_blk takes a block out of the lists. */
  lemma RemovedIs(pol: Policy, B: Layout, lists: seq<seq<int>>, x: set<int>, c: int, k: int)
    requires Indexed(pol, B, lists, x) && 0 <= c < |lists| && 0 <= k < |lists[c]| && Apart(Head(pol, c), lists[c])
    ensures lists[c := Without(lists[c], k)] == Minus(lists, {lists[c][k]})
  {
    var p := lists[c][k];
    assert Member(pol, B, x, c, p);
    OutsideOne(lists[c], k);
    forall d | 0 <= d < |lists| && d != c ensures Outside(lists[d], {p}) == lists[d] {
      assert p in lists[d] ==> Member(pol, B, x, d, p);
      OutsideSame(lists[d], {p}, {});
      OutsideNone(lists[d]);
    }
  }
}
