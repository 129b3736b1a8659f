/** The free index of an allocator: doubly linked lists threaded through the first two
    payload words of the free blocks, one list for each size class. */
module FreeLists {
  import opened HeapModel
  import opened Numbers

  /** Which allocator: mm.c (segregated lists, first fit), mm_right.c (segregated lists, best
      fit), mm_list.c (one explicit list) or mm_blk.c (no list: the headers are walked). */
  datatype Policy = SegFirst | SegBest | Explicit | Implicit {
    predicate Segregated() { SegFirst? || SegBest? }
  }

  function ClassCount(pol: Policy): int {
    if pol.Segregated() then 20 else 1
  }

  /** The least i >= k with size <= 2^i, or n when there is none below n. */
  function Exponent(size: int, k: nat, n: nat): (i: int)
    requires k <= n
    ensures k <= i <= n
    decreases n - k
  {
    if k == n || size <= Pow2(k) then k else Exponent(size, k + 1, n)
  }

  /** The list a free block of this size belongs to. */
  function Class(pol: Policy, size: int): (c: int)
    ensures 0 <= c < ClassCount(pol)
  {
    match pol
    case SegFirst => var i := Exponent(size, 4, 24); if i == 24 then 19 else i - 4
    case SegBest => var i := Exponent(size, 2, 21); if i == 21 then 19 else i - 2
    case _ => 0
  }

  /** Where the head of list c is stored. mm_list.c keeps its head in a static variable,
      which the memory view places below the heap; mm_blk.c has no list in memory. */
  function Head(pol: Policy, c: int): int {
    if pol.Segregated() then 4 * c else -8
  }

  /** The payload address of the first block. */
  function Low(pol: Policy): int {
    if pol.Segregated() then 96 else 16
  }

  /** The blocks of L, in order, form the doubly linked list whose head is stored at h. */
  ghost predicate Linked(m: Mem, h: int, L: seq<int>) {
    && At(m, h) == (if L == [] then 0 else L[0])
    && (forall i {:trigger At(m, L[i])} | 0 <= i < |L| :: At(m, L[i]) == (if i == 0 then 0 else L[i - 1]))
    && (forall i {:trigger At(m, L[i] + 4)} | 0 <= i < |L| ::
          At(m, L[i] + 4) == (if i == |L| - 1 then 0 else L[i + 1]))
  }

  /** The link words of the blocks of L overlap neither each other nor address h. */
  ghost predicate Apart(h: int, L: seq<int>) {
    && (forall i | 0 <= i < |L| :: L[i] != 0 && h + 4 <= L[i])
    && (forall i, j | 0 <= i < j < |L| :: L[i] + 16 <= L[j] || L[j] + 16 <= L[i])
  }

  /** What insert_free_blk does to list L: block p becomes its first element. */
  ghost predicate Pushes(m: Mem, m': Mem, h: int, L: seq<int>, p: int) {
    Prepends(m, m', h, if L == [] then 0 else L[0], p)
  }

  ghost predicate Prepends(m: Mem, m': Mem, h: int, next: int, p: int) {
    && At(m', h) == p && At(m', p) == 0 && At(m', p + 4) == next && (next != 0 ==> At(m', next) == p)
    && forall a | Far(a, h) && Far(a, p) && Far(a, p + 4) && (next == 0 || Far(a, next)) :: At(m', a) == At(m, a)
  }

  lemma PutsPrepend(m0: Mem, m1: Mem, m2: Mem, m3: Mem, m4: Mem, h: int, root: int, p: int)
    requires h + 4 <= p && (root == 0 || (h + 4 <= root && (p + 8 <= root || root + 8 <= p)))
    requires Puts(m0, m1, p, 0) && Puts(m1, m2, p + 4, root)
    requires if root == 0 then m3 == m2 else Puts(m2, m3, root, p)
    requires Puts(m3, m4, h, p)
    ensures Prepends(m0, m4, h, root, p)
  {
  }

  /** What remove_free_blk does to element k of L: the word that led to it (the head, or the
      next-link of its predecessor) now leads to its successor, whose prev-link skips it. */
  ghost predicate Unlinks(m: Mem, m': Mem, h: int, L: seq<int>, k: int)
    requires 0 <= k < |L|
  {
    var prev := if k == 0 then 0 else L[k - 1];
    var next := if k == |L| - 1 then 0 else L[k + 1];
    Bypasses(m, m', prev, next, if k == 0 then h else prev + 4)
  }

  ghost predicate Bypasses(m: Mem, m': Mem, prev: int, next: int, from: int) {
    && At(m', from) == next && (next != 0 ==> At(m', next) == prev)
    && forall a | Far(a, from) && (next == 0 || Far(a, next)) :: At(m', a) == At(m, a)
  }

  function Without<T>(s: seq<T>, k: int): seq<T>
    requires 0 <= k < |s|
  {
    s[..k] + s[k + 1..]
  }

  /** Memory changes only at h and in the link words of blocks q1 and q2. */
  ghost predicate WritesOnly(m: Mem, m': Mem, h: int, q1: int, q2: int) {
    forall a | Far(a, h) && Far(a, q1) && Far(a, q1 + 4) && Far(a, q2) && Far(a, q2 + 4) :: At(m', a) == At(m, a)
  }

  /** The neighbours of element k in L, or L[k] itself where there is none. */
  function PrevOrSelf(L: seq<int>, k: int): int
    requires 0 <= k < |L|
  {
    if k == 0 then L[k] else L[k - 1]
  }

  function NextOrSelf(L: seq<int>, k: int): int
    requires 0 <= k < |L|
  {
    if k == |L| - 1 then L[k] else L[k + 1]
  }

  lemma PushLinked(m: Mem, m': Mem, h: int, L: seq<int>, p: int)
    requires Linked(m, h, L) && Apart(h, [p] + L) && Pushes(m, m', h, L, p)
    ensures Linked(m', h, [p] + L)
    ensures WritesOnly(m, m', h, p, if L == [] then p else L[0])
  {
    var M := [p] + L;
    assert M[0] == p && (L != [] ==> M[1] == L[0]);
    forall i {:trigger At(m', M[i])} | 0 <= i < |M| ensures At(m', M[i]) == if i == 0 then 0 else M[i - 1] {
      if i > 0 {
        assert M[i] == L[i - 1] && At(m, L[i - 1]) == if i == 1 then 0 else L[i - 2];
      }
    }
    forall i {:trigger At(m', M[i] + 4)} | 0 <= i < |M|
      ensures At(m', M[i] + 4) == if i == |M| - 1 then 0 else M[i + 1]
    {
      if i > 0 {
        assert M[i] == L[i - 1] && At(m, L[i - 1] + 4) == if i == |L| then 0 else L[i];
      }
    }
  }

  lemma LinkedFrame(m: Mem, m': Mem, h: int, L: seq<int>)
    requires Linked(m, h, L) && At(m', h) == At(m, h)
    requires forall i | 0 <= i < |L| :: At(m', L[i]) == At(m, L[i]) && At(m', L[i] + 4) == At(m, L[i] + 4)
    ensures Linked(m', h, L)
  {
  }

  /** What a removal leaves in the links of another element j. */
  lemma UnlinkAt(m: Mem, m': Mem, h: int, L: seq<int>, k: int, j: int)
    requires Apart(h, L) && 0 <= k < |L| && 0 <= j < |L| && j != k && Unlinks(m, m', h, L, k)
    ensures At(m', L[j]) == if j != k + 1 then At(m, L[j]) else if k == 0 then 0 else L[k - 1]
    ensures At(m', L[j] + 4) == if j != k - 1 then At(m, L[j] + 4) else if k == |L| - 1 then 0 else L[k + 1]
  {
  }

  lemma UnlinkHead(m: Mem, m': Mem, h: int, L: seq<int>, k: int)
    requires Apart(h, L) && 0 <= k < |L| && Unlinks(m, m', h, L, k)
    ensures At(m', h) == if k > 0 then At(m, h) else if |L| == 1 then 0 else L[1]
    ensures WritesOnly(m, m', h, PrevOrSelf(L, k), NextOrSelf(L, k))
  {
  }

  lemma UnlinkLinked(m: Mem, m': Mem, h: int, L: seq<int>, k: int)
    requires Linked(m, h, L) && Apart(h, L) && 0 <= k < |L| && Unlinks(m, m', h, L, k)
    ensures Linked(m', h, Without(L, k))
    ensures WritesOnly(m, m', h, PrevOrSelf(L, k), NextOrSelf(L, k))
  {
    hide Apart, Unlinks, WritesOnly;
    UnlinkHead(m, m', h, L, k);
    var W := Without(L, k);
    forall i {:trigger At(m', W[i])} | 0 <= i < |W| ensures At(m', W[i]) == if i == 0 then 0 else W[i - 1] {
      var j := if i < k then i else i + 1;
      assert W[i] == L[j] && At(m, L[j]) == if j == 0 then 0 else L[j - 1];
      UnlinkAt(m, m', h, L, k, j);
    }
    forall i {:trigger At(m', W[i] + 4)} | 0 <= i < |W|
      ensures At(m', W[i] + 4) == if i == |W| - 1 then 0 else W[i + 1]
    {
      var j := if i < k then i else i + 1;
      assert W[i] == L[j] && At(m, L[j] + 4) == if j == |L| - 1 then 0 else L[j + 1];
      UnlinkAt(m, m', h, L, k, j);
    }
  }

  ghost predicate Member(pol: Policy, B: Layout, x: set<int>, c: int, p: int) {
    p in B && B[p].free && p !in x && Class(pol, B[p].size) == c
  }

  /** Memory threads every list through its blocks, from its head; mm_blk.c's memory does not. */
  ghost predicate Threaded(pol: Policy, m: Mem, lists: seq<seq<int>>) {
    forall c | 0 <= c < |lists| :: Chained(pol, m, Head(pol, c), lists[c]) && Apart(Head(pol, c), lists[c])
  }

  ghost predicate Chained(pol: Policy, m: Mem, h: int, L: seq<int>) {
    pol == Implicit || Linked(m, h, L)
  }

  /** The lists hold exactly the free blocks outside x, each in its own class. */
  ghost predicate Indexed(pol: Policy, B: Layout, lists: seq<seq<int>>, x: set<int>) {
    && |lists| == ClassCount(pol)
    && (forall c, p | 0 <= c < |lists| && p in lists[c] :: Member(pol, B, x, c, p))
    && (forall c, p {:trigger p in lists[c]} | 0 <= c < |lists| && Member(pol, B, x, c, p) :: p in lists[c])
    && (forall p | p in x :: p in B && B[p].free)
  }

  /** The link words of different blocks, and the list heads, do not overlap. */
  lemma BlocksFar(B: Layout, lo: int, hi: int, p: int, q: int)
    requires Tiled(B, lo, hi) && p in B && q in B && p != q
    ensures p + 16 <= q || q + 16 <= p
    ensures lo <= p && lo <= q
  {
  }

  /** List d is untouched by writes to another list's head and to the links of blocks q1 and q2. */
  lemma OthersKept(pol: Policy, m: Mem, m': Mem, B: Layout, hi: int, lists: seq<seq<int>>, x: set<int>,
                   c: int, d: int, q1: int, q2: int)
    requires Tiled(B, Low(pol), hi) && Indexed(pol, B, lists, x)
    requires 0 <= c < |lists| && 0 <= d < |lists| && c != d && Chained(pol, m, Head(pol, d), lists[d])
    requires q1 in B && q2 in B && q1 !in lists[d] && q2 !in lists[d]
    requires WritesOnly(m, m', Head(pol, c), q1, q2)
    ensures Chained(pol, m', Head(pol, d), lists[d])
  {
    hide Tiled;
    var L := lists[d];
    BlockHigh(pol, B, hi, q1);
    BlockHigh(pol, B, hi, q2);
    assert At(m', Head(pol, d)) == At(m, Head(pol, d));
    forall i | 0 <= i < |L| ensures At(m', L[i]) == At(m, L[i]) && At(m', L[i] + 4) == At(m, L[i] + 4) {
      assert Member(pol, B, x, d, L[i]);
      BlocksFar(B, Low(pol), hi, L[i], q1);
      BlocksFar(B, Low(pol), hi, L[i], q2);
    }
    if pol != Implicit {
      LinkedFrame(m, m', Head(pol, d), L);
    }
  }

  lemma BlockHigh(pol: Policy, B: Layout, hi: int, p: int)
    requires Tiled(B, Low(pol), hi) && p in B
    ensures Low(pol) <= p
  {
  }

  lemma WithoutMembers(h: int, L: seq<int>, k: int, p: int)
    requires Apart(h, L) && 0 <= k < |L|
    ensures p in Without(L, k) <==> p in L && p != L[k]
  {
    if p in L && p != L[k] {
      var i :| 0 <= i < |L| && L[i] == p;
      assert Without(L, k)[if i < k then i else i - 1] == p;
    }
  }

  lemma WithoutApart(h: int, L: seq<int>, k: int)
    requires Apart(h, L) && 0 <= k < |L|
    ensures Apart(h, Without(L, k))
  {
  }

  lemma UnlinkThreaded(pol: Policy, m: Mem, m': Mem, B: Layout, hi: int, lists: seq<seq<int>>, x: set<int>,
                       c: int, k: int)
    requires Tiled(B, Low(pol), hi) && Indexed(pol, B, lists, x) && Threaded(pol, m, lists)
    requires 0 <= c < |lists| && 0 <= k < |lists[c]|
    requires Chained(pol, m', Head(pol, c), Without(lists[c], k))
    requires WritesOnly(m, m', Head(pol, c), PrevOrSelf(lists[c], k), NextOrSelf(lists[c], k))
    ensures Threaded(pol, m', lists[c := Without(lists[c], k)])
  {
    var L := lists[c];
    WithoutApart(Head(pol, c), L, k);
    var q1, q2 := PrevOrSelf(L, k), NextOrSelf(L, k);
    assert Member(pol, B, x, c, q1) && Member(pol, B, x, c, q2);
    forall d | 0 <= d < |lists| && d != c ensures Chained(pol, m', Head(pol, d), lists[d]) {
      OthersKept(pol, m, m', B, hi, lists, x, c, d, q1, q2);
    }
  }

  lemma UnlinkIndexed(pol: Policy, B: Layout, lists: seq<seq<int>>, x: set<int>, c: int, k: int)
    requires Indexed(pol, B, lists, x) && 0 <= c < |lists| && 0 <= k < |lists[c]| && Apart(Head(pol, c), lists[c])
    ensures Indexed(pol, B, lists[c := Without(lists[c], k)], x + {lists[c][k]})
  {
    var L, lists', x' := lists[c], lists[c := Without(lists[c], k)], x + {lists[c][k]};
    assert Member(pol, B, x, c, L[k]);
    forall p ensures p in Without(L, k) <==> p in L && p != L[k] {
      WithoutMembers(Head(pol, c), L, k, p);
    }
    forall d, p {:trigger p in lists'[d]} | 0 <= d < |lists|
      ensures p in lists'[d] <==> Member(pol, B, x', d, p)
    {
      assert p in lists[d] <==> Member(pol, B, x, d, p);
    }
  }

  lemma PushApart(pol: Policy, B: Layout, hi: int, lists: seq<seq<int>>, x: set<int>, c: int, p: int)
    requires Tiled(B, Low(pol), hi) && Indexed(pol, B, lists, x)
    requires p in x && 0 <= c < |lists| && Apart(Head(pol, c), lists[c])
    ensures Apart(Head(pol, c), [p] + lists[c])
  {
    var L := lists[c];
    forall i | 0 <= i < |L| ensures L[i] + 16 <= p || p + 16 <= L[i] {
      assert Member(pol, B, x, c, L[i]);
    }
  }

  lemma PushThreaded(pol: Policy, m: Mem, m': Mem, B: Layout, hi: int, lists: seq<seq<int>>, x: set<int>,
                     c: int, p: int)
    requires Tiled(B, Low(pol), hi) && Indexed(pol, B, lists, x) && Threaded(pol, m, lists)
    requires p in x && 0 <= c < |lists|
    requires Chained(pol, m', Head(pol, c), [p] + lists[c])
    requires WritesOnly(m, m', Head(pol, c), p, if lists[c] == [] then p else lists[c][0])
    ensures Threaded(pol, m', lists[c := [p] + lists[c]])
  {
    PushApart(pol, B, hi, lists, x, c, p);
    var L := lists[c];
    var q := if L == [] then p else L[0];
    assert L != [] ==> Member(pol, B, x, c, q);
    forall d | 0 <= d < |lists| && d != c ensures Chained(pol, m', Head(pol, d), lists[d]) {
      OthersKept(pol, m, m', B, hi, lists, x, c, d, p, q);
    }
  }

  lemma PushIndexed(pol: Policy, B: Layout, lists: seq<seq<int>>, x: set<int>, c: int, p: int)
    requires Indexed(pol, B, lists, x) && p in x && c == Class(pol, B[p].size)
    ensures Indexed(pol, B, lists[c := [p] + lists[c]], x - {p})
  {
    var lists', x' := lists[c := [p] + lists[c]], x - {p};
    forall d, q {:trigger q in lists'[d]} | 0 <= d < |lists|
      ensures q in lists'[d] <==> Member(pol, B, x', d, q)
    {
      assert q in lists[d] <==> Member(pol, B, x, d, q);
    }
  }

  /** Writing links and heads leaves tags and payloads alone. */
  lemma WritesKeepTags(pol: Policy, m: Mem, m': Mem, B: Layout, hi: int, s: set<int>, c: int, q1: int, q2: int)
    requires Tiled(B, Low(pol), hi) && Tagged(m, B, Low(pol), hi, s)
    requires 0 <= c < ClassCount(pol) && q1 in B && q2 in B && WritesOnly(m, m', Head(pol, c), q1, q2)
    ensures Tagged(m', B, Low(pol), hi, s)
  {
    var lo, h := Low(pol), Head(pol, c);
    forall p | p in B && p !in s
      ensures At(m', p - 4) == Tag(B[p]) && At(m', p + B[p].size - 8) == Tag(B[p])
    {
      assert At(m', p - 4) == At(m, p - 4);
      assert At(m', p + B[p].size - 8) == At(m, p + B[p].size - 8);
    }
  }

  lemma WritesKeepPayload(pol: Policy, m: Mem, m': Mem, B: Layout, hi: int, c: int, q1: int, q2: int)
    requires Tiled(B, Low(pol), hi) && 0 <= c < ClassCount(pol)
    requires q1 in B && q2 in B && B[q1].free && B[q2].free && WritesOnly(m, m', Head(pol, c), q1, q2)
    ensures PayloadKept(m, m', B)
  {
  }

  lemma RetagKeepsLinks(m: Mem, m': Mem, B: Layout, lo: int, hi: int, p: int, q: int)
    requires Tiled(B, lo, hi) && p in B && q in B && Retags(m, m', p, B[p])
    ensures At(m', q) == At(m, q) && At(m', q + 4) == At(m, q + 4)
  {
  }

  /** Writing the tags of a block leaves every list alone. */
  lemma RetagThreaded(pol: Policy, m: Mem, m': Mem, B: Layout, hi: int, lists: seq<seq<int>>, x: set<int>, p: int)
    requires Tiled(B, Low(pol), hi) && Indexed(pol, B, lists, x) && Threaded(pol, m, lists)
    requires p in B && Retags(m, m', p, B[p])
    ensures Threaded(pol, m', lists)
  {
    forall c | 0 <= c < |lists| && pol != Implicit ensures Linked(m', Head(pol, c), lists[c]) {
      var L := lists[c];
      assert At(m', Head(pol, c)) == At(m, Head(pol, c));
      forall i | 0 <= i < |L| ensures At(m', L[i]) == At(m, L[i]) && At(m', L[i] + 4) == At(m, L[i] + 4) {
        assert Member(pol, B, x, c, L[i]);
        RetagKeepsLinks(m, m', B, Low(pol), hi, p, L[i]);
      }
      LinkedFrame(m, m', Head(pol, c), L);
    }
  }

  /** Everything the free index promises about one state of the heap. */
  ghost predicate HeapInv(pol: Policy, m: Mem, B: Layout, hi: int, lists: seq<seq<int>>, x: set<int>, s: set<int>) {
    && Tiled(B, Low(pol), hi)
    && AllAligned(B, hi)
    && Tagged(m, B, Low(pol), hi, s)
    && Indexed(pol, B, lists, x)
    && Threaded(pol, m, lists)
  }

  ghost predicate SameMem(m: Mem, m': Mem) {
    forall a :: At(m', a) == At(m, a)
  }

  lemma RemoveStep(pol: Policy, m: Mem, m': Mem, B: Layout, hi: int, lists: seq<seq<int>>, x: set<int>, s: set<int>,
                   c: int, k: int)
    requires HeapInv(pol, m, B, hi, lists, x, s)
    requires 0 <= c < |lists| && 0 <= k < |lists[c]|
    requires if pol == Implicit then SameMem(m, m') else Unlinks(m, m', Head(pol, c), lists[c], k)
    ensures HeapInv(pol, m', B, hi, lists[c := Without(lists[c], k)], x + {lists[c][k]}, s)
    ensures PayloadKept(m, m', B)
  {
    var L := lists[c];
    var q1, q2 := PrevOrSelf(L, k), NextOrSelf(L, k);
    assert Member(pol, B, x, c, q1) && Member(pol, B, x, c, q2);
    if pol != Implicit {
      UnlinkLinked(m, m', Head(pol, c), L, k);
    }
    UnlinkThreaded(pol, m, m', B, hi, lists, x, c, k);
    UnlinkIndexed(pol, B, lists, x, c, k);
    WritesKeepTags(pol, m, m', B, hi, s, c, q1, q2);
    WritesKeepPayload(pol, m, m', B, hi, c, q1, q2);
  }

  lemma InsertStep(pol: Policy, m: Mem, m': Mem, B: Layout, hi: int, lists: seq<seq<int>>, x: set<int>, s: set<int>,
                   c: int, p: int)
    requires HeapInv(pol, m, B, hi, lists, x, s)
    requires p in x && c == Class(pol, B[p].size)
    requires if pol == Implicit then SameMem(m, m') else Pushes(m, m', Head(pol, c), lists[c], p)
    ensures HeapInv(pol, m', B, hi, lists[c := [p] + lists[c]], x - {p}, s)
    ensures PayloadKept(m, m', B)
  {
    var L := lists[c];
    var q := if L == [] then p else L[0];
    assert L != [] ==> Member(pol, B, x, c, q);
    PushApart(pol, B, hi, lists, x, c, p);
    if pol != Implicit {
      PushLinked(m, m', Head(pol, c), L, p);
    }
    PushThreaded(pol, m, m', B, hi, lists, x, c, p);
    PushIndexed(pol, B, lists, x, c, p);
    WritesKeepTags(pol, m, m', B, hi, s, c, p, q);
    WritesKeepPayload(pol, m, m', B, hi, c, p, q);
  }

  lemma RetagStep(pol: Policy, m: Mem, m': Mem, B: Layout, hi: int, lists: seq<seq<int>>, x: set<int>, s: set<int>,
                  p: int)
    requires HeapInv(pol, m, B, hi, lists, x, s) && p in B && Retags(m, m', p, B[p])
    ensures HeapInv(pol, m', B, hi, lists, x, s - {p})
    ensures PayloadKept(m, m', B)
  {
    RetagTagged(m, m', B, Low(pol), hi, s, p);
    RetagThreaded(pol, m, m', B, hi, lists, x, p);
    RetagKeepsPayload(m, m', B, Low(pol), hi, p);
  }

  /** Room for the two link words at q. */
  ghost predicate LinkWords(q: int, lo: int, hi: int) {
    lo <= q && q + 8 <= hi
  }

  /** What the head of a list says about a block about to be inserted in front of it. */
  lemma HeadOf(pol: Policy, m: Mem, B: Layout, hi: int, lists: seq<seq<int>>, x: set<int>, p: int)
    requires Tiled(B, Low(pol), hi) && Indexed(pol, B, lists, x) && Threaded(pol, m, lists) && p in x
    ensures var c := Class(pol, B[p].size);
            var root := At(m, Head(pol, c));
            && |lists| == ClassCount(pol) && p in B && LinkWords(p, Low(pol), hi)
            && (pol != Implicit ==> root == (if lists[c] == [] then 0 else lists[c][0]))
            && (pol != Implicit && root != 0 ==> LinkWords(root, Low(pol), hi) && (p + 8 <= root || root + 8 <= p))
  {
    var c := Class(pol, B[p].size);
    assert Chained(pol, m, Head(pol, c), lists[c]);
    if lists[c] != [] { assert Member(pol, B, x, c, lists[c][0]); }
  }

  /** What the links of a listed block say about its place in its list. */
  lemma LinkedAt(m: Mem, h: int, L: seq<int>, k: int)
    requires Linked(m, h, L) && 0 <= k < |L|
    ensures At(m, L[k]) == (if k == 0 then 0 else L[k - 1])
    ensures At(m, L[k] + 4) == (if k == |L| - 1 then 0 else L[k + 1])
  {
  }

  /** The elements around one of a list are blocks of the heap, apart from each other. */
  lemma NeighboursListed(pol: Policy, B: Layout, hi: int, lists: seq<seq<int>>, x: set<int>, c: int, k: int)
    requires Tiled(B, Low(pol), hi) && Indexed(pol, B, lists, x)
    requires 0 <= c < |lists| && 0 <= k < |lists[c]| && Apart(Head(pol, c), lists[c])
    ensures |lists| == ClassCount(pol) && LinkWords(lists[c][k], Low(pol), hi)
    ensures k > 0 ==> LinkWords(lists[c][k - 1], Low(pol), hi) && lists[c][k - 1] != 0
    ensures k < |lists[c]| - 1 ==> LinkWords(lists[c][k + 1], Low(pol), hi) && lists[c][k + 1] != 0
    ensures Far((if k == 0 then 0 else lists[c][k - 1]) + 4, if k == |lists[c]| - 1 then 0 else lists[c][k + 1])
  {
    var L := lists[c];
    assert Member(pol, B, x, c, L[k]);
    if k > 0 { assert Member(pol, B, x, c, L[k - 1]); }
    if k < |L| - 1 { assert Member(pol, B, x, c, L[k + 1]); }
  }

  lemma LinksOf(pol: Policy, m: Mem, B: Layout, hi: int, lists: seq<seq<int>>, x: set<int>, p: int) returns (k: int)
    requires Tiled(B, Low(pol), hi) && Indexed(pol, B, lists, x) && Threaded(pol, m, lists)
    requires p in B && B[p].free && p !in x
    ensures var L := lists[Class(pol, B[p].size)];
            && |lists| == ClassCount(pol) && LinkWords(p, Low(pol), hi)
            && 0 <= k < |L| && L[k] == p
            && (pol != Implicit ==>
                  && At(m, p) == (if k == 0 then 0 else L[k - 1])
                  && At(m, p + 4) == (if k == |L| - 1 then 0 else L[k + 1])
                  && (At(m, p) == 0 <==> k == 0) && (At(m, p + 4) == 0 <==> k == |L| - 1)
                  && (At(m, p) != 0 ==> LinkWords(At(m, p), Low(pol), hi))
                  && (At(m, p + 4) != 0 ==> LinkWords(At(m, p + 4), Low(pol), hi))
                  && Far(At(m, p) + 4, At(m, p + 4)))
  {
    var c := Class(pol, B[p].size);
    var L := lists[c];
    assert Member(pol, B, x, c, p);
    assert p in L;
    k :| 0 <= k < |L| && L[k] == p;
    assert Chained(pol, m, Head(pol, c), L) && Apart(Head(pol, c), L);
    hide Tiled;
    NeighboursListed(pol, B, hi, lists, x, c, k);
    hide Indexed, Threaded, Apart, LinkWords;
    if pol != Implicit {
      LinkedAt(m, Head(pol, c), L, k);
    }
  }

  lemma UnlistedBlock(pol: Policy, B: Layout, hi: int, lists: seq<seq<int>>, x: set<int>, p: int)
    requires Tiled(B, Low(pol), hi) && Indexed(pol, B, lists, x) && p in x
    ensures p in B && B[p].free && 16 <= B[p].size
  {
  }

  /** Two neighbouring unlisted free blocks become one, whose tags are still to be written. */
  lemma MergeStep(pol: Policy, m: Mem, B: Layout, hi: int, lists: seq<seq<int>>, x: set<int>, s: set<int>, p: int)
    requires HeapInv(pol, m, B, hi, lists, x, s)
    requires p in x && p + B[p].size in x
    ensures HeapInv(pol, m, Merge(B, p), hi, lists, x - {p + B[p].size}, s - {p + B[p].size} + {p})
  {
    hide Tiled, AllAligned, Tagged, Indexed, Threaded;
    UnlistedBlock(pol, B, hi, lists, x, p);
    UnlistedBlock(pol, B, hi, lists, x, p + B[p].size);
    MergeTiled(B, Low(pol), hi, p);
    MergeAligned(B, hi, p);
    MergeTagged(m, B, Low(pol), hi, s, p);
    MergeIndexed(pol, B, lists, x, p);
  }

  lemma MergeIndexed(pol: Policy, B: Layout, lists: seq<seq<int>>, x: set<int>, p: int)
    requires Indexed(pol, B, lists, x) && p in B && p in x && p + B[p].size in x && 0 < B[p].size
    ensures p + B[p].size in B && Indexed(pol, Merge(B, p), lists, x - {p + B[p].size})
  {
    var C, x' := Merge(B, p), x - {p + B[p].size};
    forall c, q {:trigger q in lists[c]} | 0 <= c < |lists|
      ensures q in lists[c] <==> Member(pol, C, x', c, q)
    {
      assert q in lists[c] <==> Member(pol, B, x, c, q);
    }
  }

  /** A free block outside the lists becomes allocated, or the reverse. */
  lemma PaintStep(pol: Policy, m: Mem, B: Layout, hi: int, lists: seq<seq<int>>, x: set<int>, s: set<int>,
                  p: int, free: bool)
    requires HeapInv(pol, m, B, hi, lists, x, s)
    requires p in B && (B[p].free <==> p in x)
    ensures HeapInv(pol, m, Paint(B, p, free), hi, lists, if free then x + {p} else x - {p}, s + {p})
  {
    hide Tiled, AllAligned, Tagged, Indexed, Threaded;
    PaintTiled(B, Low(pol), hi, p, free);
    PaintTagged(m, B, Low(pol), hi, s, p, free);
    PaintIndexed(pol, B, lists, x, p, free);
  }

  lemma PaintIndexed(pol: Policy, B: Layout, lists: seq<seq<int>>, x: set<int>, p: int, free: bool)
    requires Indexed(pol, B, lists, x) && p in B && (B[p].free <==> p in x)
    ensures Indexed(pol, Paint(B, p, free), lists, if free then x + {p} else x - {p})
  {
    var C, x' := Paint(B, p, free), if free then x + {p} else x - {p};
    forall c, q {:trigger q in lists[c]} | 0 <= c < |lists|
      ensures q in lists[c] <==> Member(pol, C, x', c, q)
    {
      assert q in lists[c] <==> Member(pol, B, x, c, q);
    }
  }

  /** An unlisted free block is cut in two: an allocated one of n bytes and an unlisted free one. */
  lemma SplitStep(pol: Policy, m: Mem, B: Layout, hi: int, lists: seq<seq<int>>, x: set<int>, s: set<int>,
                  p: int, n: int)
    requires HeapInv(pol, m, B, hi, lists, x, s)
    requires p in x && Aligned(n) && 16 <= n && 16 <= B[p].size - n
    ensures HeapInv(pol, m, Split(B, p, n), hi, lists, x - {p} + {p + n}, s + {p, p + n})
  {
    hide Tiled, AllAligned, Aligned, Tagged, Indexed, Threaded;
    UnlistedBlock(pol, B, hi, lists, x, p);
    SplitTiled(B, Low(pol), hi, p, n);
    SplitAligned(B, hi, p, n);
    SplitTagged(m, B, Low(pol), hi, s, p, n);
    SplitIndexed(pol, B, lists, x, p, n);
  }

  lemma SplitIndexed(pol: Policy, B: Layout, lists: seq<seq<int>>, x: set<int>, p: int, n: int)
    requires Indexed(pol, B, lists, x) && p in B && p in x && p + n !in B
    ensures Indexed(pol, Split(B, p, n), lists, x - {p} + {p + n})
  {
    var C, x' := Split(B, p, n), x - {p} + {p + n};
    forall c, q {:trigger q in lists[c]} | 0 <= c < |lists|
      ensures q in lists[c] <==> Member(pol, C, x', c, q)
    {
      assert q in lists[c] <==> Member(pol, B, x, c, q);
    }
  }

  /** The heap grows by one unlisted free block and a new epilogue. */
  lemma GrowStep(pol: Policy, m: Mem, m1: Mem, m2: Mem, B: Layout, hi: int, lists: seq<seq<int>>, size: int)
    requires HeapInv(pol, m, B, hi, lists, {}, {}) && 16 <= size && Aligned(size)
    requires Retags(m, m1, hi, Blk(size, true)) && Puts(m1, m2, hi + size - 4, 1)
    ensures HeapInv(pol, m2, Grow(B, hi, size), hi + size, lists, {hi}, {})
    ensures PayloadKept(m, m2, B)
  {
    hide Tiled, AllAligned, Aligned, Tagged, Indexed, Threaded, Retags, Puts, PayloadKept;
    GrowTiled(B, Low(pol), hi, size);
    GrowTagged(m, m1, m2, B, Low(pol), hi, size);
    GrowAligned(B, hi, size);
    GrowIndexed(pol, B, hi, lists, size);
    GrowThreaded(pol, m, m1, m2, B, hi, lists, size);
  }

  lemma GrowIndexed(pol: Policy, B: Layout, hi: int, lists: seq<seq<int>>, size: int)
    requires Indexed(pol, B, lists, {}) && hi !in B
    ensures Indexed(pol, Grow(B, hi, size), lists, {hi})
  {
    var C := Grow(B, hi, size);
    forall c, q {:trigger q in lists[c]} | 0 <= c < |lists|
      ensures q in lists[c] <==> Member(pol, C, {hi}, c, q)
    {
      assert q in lists[c] <==> Member(pol, B, {}, c, q);
    }
  }

  lemma GrowThreaded(pol: Policy, m: Mem, m1: Mem, m2: Mem, B: Layout, hi: int, lists: seq<seq<int>>, size: int)
    requires HeapInv(pol, m, B, hi, lists, {}, {}) && 16 <= size
    requires Retags(m, m1, hi, Blk(size, true)) && Puts(m1, m2, hi + size - 4, 1)
    ensures Threaded(pol, m2, lists)
  {
    GrowKeepsWords(m, m1, m2, hi, size);
    hide Retags, Puts, Tagged, AllAligned;
    forall c | 0 <= c < |lists| && pol != Implicit ensures Linked(m2, Head(pol, c), lists[c]) {
      var L := lists[c];
      forall i | 0 <= i < |L| ensures At(m2, L[i]) == At(m, L[i]) && At(m2, L[i] + 4) == At(m, L[i] + 4) {
        assert Member(pol, B, {}, c, L[i]);
      }
      LinkedFrame(m, m2, Head(pol, c), L);
    }
  }

  lemma {:induction false} ExponentMonotone(a: int, b: int, k: nat, n: nat)
    requires k <= n && a <= b
    ensures Exponent(a, k, n) <= Exponent(b, k, n)
    decreases n - k
  {
    if k < n && Pow2(k) < a {
      ExponentMonotone(a, b, k + 1, n);
    }
  }

  /** The largest size of class 0. */
  function FirstBound(pol: Policy): int {
    if pol == SegFirst then 16 else 4
  }

  /** Class c of a size: the classes are consecutive ranges whose upper bounds double from one to the
      next, from 16 in mm.c and from 4 in mm_right.c; the last class has no upper bound. */
  ghost predicate InClass(pol: Policy, size: int, c: int) {
    && 0 <= c < ClassCount(pol)
    && (pol.Segregated() ==>
          && (c < 19 ==> size <= FirstBound(pol) * Pow2(c))
          && (c > 0 ==> size > FirstBound(pol) * Pow2(c - 1)))
  }

  lemma {:induction false} ExponentIs(size: int, k: nat, n: nat)
    requires k <= n
    ensures var i := Exponent(size, k, n);
            && (i < n ==> size <= Pow2(i))
            && (i > k ==> Pow2(i - 1) < size)
    decreases n - k
  {
    if k < n && Pow2(k) < size {
      ExponentIs(size, k + 1, n);
    }
  }

  lemma ClassIs(pol: Policy, size: int)
    ensures InClass(pol, size, Class(pol, size))
  {
    hide Pow2, Exponent;
    if pol.Segregated() {
      var c := Class(pol, size);
      if pol == SegFirst {
        ExponentIs(size, 4, 24);
        Pow2Grows(22, 23);
      } else {
        ExponentIs(size, 2, 21);
      }
      BoundIs(pol, c);
      if c > 0 { BoundIs(pol, c - 1); }
    }
  }

  lemma BoundIs(pol: Policy, c: nat)
    requires pol.Segregated()
    ensures FirstBound(pol) * Pow2(c) == Pow2(c + if pol == SegFirst then 4 else 2)
  {
    assert Pow2(4) == 16 && Pow2(2) == 4;
    hide Pow2;
    Pow2Sum(c, if pol == SegFirst then 4 else 2);
  }

  /** A size is in one class only. */
  lemma InOneClass(pol: Policy, size: int, c: int, d: int)
    requires InClass(pol, size, c) && InClass(pol, size, d)
    ensures c == d
  {
    if pol.Segregated() && c != d {
      var x, y := if c < d then c else d, if c < d then d else c;
      Pow2Grows(x, y - 1);
    }
  }

  /** And every class has sizes. */
  lemma ClassOccurs(pol: Policy, c: int)
    requires 0 <= c < ClassCount(pol)
    ensures exists size :: Class(pol, size) == c
  {
    var size := FirstBound(pol) * Pow2(c);
    ClassIs(pol, size);
    if pol.Segregated() && c > 0 {
      Pow2Doubles(c - 1);
      hide Pow2;
    }
    InOneClass(pol, size, Class(pol, size), c);
  }

  /** The classes are ordered ranges of sizes. */
  lemma ClassOrder(pol: Policy, a: int, b: int)
    requires Class(pol, a) < Class(pol, b)
    ensures a < b
  {
    if b <= a && pol == SegFirst {
      ExponentMonotone(b, a, 4, 24);
    } else if b <= a && pol == SegBest {
      ExponentMonotone(b, a, 2, 21);
    }
  }

  /** Every block in the lists before list c is smaller than n. */
  ghost predicate NoneBelow(B: Layout, lists: seq<seq<int>>, c: int, n: int) {
    forall d, p | 0 <= d < c && d < |lists| && p in lists[d] && p in B :: B[p].size < n
  }

  lemma ClassesBelow(pol: Policy, B: Layout, lists: seq<seq<int>>, n: int)
    requires Indexed(pol, B, lists, {})
    ensures NoneBelow(B, lists, Class(pol, n), n)
  {
    forall d, p | 0 <= d < Class(pol, n) && d < |lists| && p in lists[d] ensures B[p].size < n {
      assert Member(pol, B, {}, d, p);
      ClassOrder(pol, B[p].size, n);
    }
  }

  lemma NoneAtAll(pol: Policy, B: Layout, lists: seq<seq<int>>, n: int)
    requires Indexed(pol, B, lists, {}) && NoneBelow(B, lists, |lists|, n)
    ensures forall p :: !Fits(B, p, n)
  {
    forall p | p in B && B[p].free ensures B[p].size < n {
      assert Member(pol, B, {}, Class(pol, B[p].size), p);
      assert p in lists[Class(pol, B[p].size)];
    }
  }

  /** Element k of list c as memory shows it. */
  lemma ElementOf(pol: Policy, m: Mem, B: Layout, hi: int, lists: seq<seq<int>>, x: set<int>, c: int, k: int)
    requires Tiled(B, Low(pol), hi) && Indexed(pol, B, lists, x) && Threaded(pol, m, lists)
    requires 0 <= c < |lists| && 0 <= k < |lists[c]|
    ensures var p := lists[c][k];
            && p != 0 && LinkWords(p, Low(pol), hi) && p in B && B[p].free && Class(pol, B[p].size) == c
            && (pol != Implicit ==> At(m, p + 4) == if k == |lists[c]| - 1 then 0 else lists[c][k + 1])
  {
    assert Member(pol, B, x, c, lists[c][k]);
    assert Chained(pol, m, Head(pol, c), lists[c]);
    assert pol != Implicit ==> At(m, lists[c][k] + 4) == if k == |lists[c]| - 1 then 0 else lists[c][k + 1];
  }

  /** The first element of the first list that holds a block of at least n bytes. */
  ghost predicate FirstFound(B: Layout, lists: seq<seq<int>>, n: int, p: int) {
    exists c, k ::
      && 0 <= c < |lists| && 0 <= k < |lists[c]| && lists[c][k] == p
      && Fits(B, p, n) && NoneBelow(B, lists, c, n)
      && forall j | 0 <= j < k :: !Fits(B, lists[c][j], n)
  }

  /** A smallest block of the whole heap that fits. */
  ghost predicate BestFound(B: Layout, n: int, p: int) {
    Fits(B, p, n) && forall q | Fits(B, q, n) :: B[p].size <= B[q].size
  }

  /** p is a smallest fitting block among the first k of list c, or 0 when there is none. */
  ghost predicate BestSoFar(B: Layout, L: seq<int>, k: int, n: int, p: int) {
    && 0 <= k <= |L|
    && (p == 0 ==> forall j | 0 <= j < k :: !Fits(B, L[j], n))
    && (p != 0 ==> Fits(B, p, n) && p in L && FirstOfBest(B, L, n, p)
                   && forall j | 0 <= j < k && Fits(B, L[j], n) :: B[p].size <= B[L[j]].size)
  }

  /** Every fitting block before p in L is larger. */
  ghost predicate FirstOfBest(B: Layout, L: seq<int>, n: int, p: int) {
    exists i | 0 <= i < |L| && L[i] == p :: LargerBefore(B, L, n, p, i)
  }

  ghost predicate LargerBefore(B: Layout, L: seq<int>, n: int, p: int, i: int) {
    p in B && 0 <= i <= |L| && forall j | 0 <= j < i && Fits(B, L[j], n) :: B[p].size < B[L[j]].size
  }

  lemma NothingSeen(B: Layout, L: seq<int>, n: int)
    ensures BestSoFar(B, L, 0, n, 0)
  {
  }

  /** The best so far when element k, a free block q, has been looked at too. */
  lemma BestSoFarStep(B: Layout, L: seq<int>, k: nat, n: int, p: int, q: int)
    requires BestSoFar(B, L, k, n, p) && k < |L| && L[k] == q && q != 0 && q in B && B[q].free
    ensures p != 0 ==> p in B
    ensures BestSoFar(B, L, k + 1, n, if n <= B[q].size && (p == 0 || B[q].size < B[p].size) then q else p)
  {
    if n <= B[q].size && (p == 0 || B[q].size < B[p].size) {
      assert LargerBefore(B, L, n, q, k);
    }
  }

  /** Because the classes are ordered ranges, the best of the first class that has a fitting
      block is the best of the heap. */
  lemma BestOfClassIsBest(pol: Policy, B: Layout, lists: seq<seq<int>>, c: int, n: int, p: int)
    requires Indexed(pol, B, lists, {}) && 0 <= c < |lists| && NoneBelow(B, lists, c, n)
    requires p != 0 && BestSoFar(B, lists[c], |lists[c]|, n, p)
    ensures BestFound(B, n, p)
  {
    assert Member(pol, B, {}, c, p);
    forall q | Fits(B, q, n) ensures B[p].size <= B[q].size {
      var d := Class(pol, B[q].size);
      assert Member(pol, B, {}, d, q);
      assert q in lists[d];
      if c < d { ClassOrder(pol, B[p].size, B[q].size); }
    }
  }

  /** Memory as mm_init leaves it before the first growth: empty lists, a prologue, an epilogue. */
  ghost predicate Blank(pol: Policy, m: Mem, lo: int) {
    && (pol != Implicit ==> forall c | 0 <= c < ClassCount(pol) :: At(m, Head(pol, c)) == 0)
    && Bordered(m, lo)
  }

  /** The tags of the prologue and of an epilogue right behind it. */
  ghost predicate Bordered(m: Mem, lo: int) {
    At(m, lo - 12) == 9 && At(m, lo - 8) == 9 && At(m, lo - 4) == 1
  }

  /** The lists of a heap without free blocks. */
  ghost function NoLists(pol: Policy): seq<seq<int>> {
    seq(ClassCount(pol), _ => [])
  }

  lemma BlankHeap(pol: Policy, m: Mem)
    requires Blank(pol, m, Low(pol))
    ensures HeapInv(pol, m, map[], Low(pol), NoLists(pol), {}, {})
  {
  }

  /** Only the link words of block p differ. */
  ghost predicate LinksWritten(m: Mem, m': Mem, p: int) {
    forall a | Far(a, p) && Far(a, p + 4) :: At(m', a) == At(m, a)
  }

  /** Writing the link words of a free block does no harm while it is in no list, or when they
      keep their values. */
  lemma LinksStep(pol: Policy, m: Mem, m': Mem, B: Layout, hi: int, lists: seq<seq<int>>, x: set<int>, s: set<int>,
                  p: int)
    requires HeapInv(pol, m, B, hi, lists, x, s) && LinksWritten(m, m', p) && p in B && B[p].free
    requires p in x || (At(m', p) == At(m, p) && At(m', p + 4) == At(m, p + 4))
    ensures HeapInv(pol, m', B, hi, lists, x, s)
    ensures PayloadKept(m, m', B)
  {
    LinksThreaded(pol, m, m', B, hi, lists, x, p);
    WritesKeepTags(pol, m, m', B, hi, s, 0, p, p);
    WritesKeepPayload(pol, m, m', B, hi, 0, p, p);
  }

  lemma LinksThreaded(pol: Policy, m: Mem, m': Mem, B: Layout, hi: int, lists: seq<seq<int>>, x: set<int>, p: int)
    requires Tiled(B, Low(pol), hi) && Indexed(pol, B, lists, x) && Threaded(pol, m, lists)
    requires LinksWritten(m, m', p) && p in B && B[p].free
    requires p in x || (At(m', p) == At(m, p) && At(m', p + 4) == At(m, p + 4))
    ensures Threaded(pol, m', lists)
  {
    forall c | 0 <= c < |lists| && pol != Implicit ensures Linked(m', Head(pol, c), lists[c]) {
      var L := lists[c];
      BlockHigh(pol, B, hi, p);
      assert At(m', Head(pol, c)) == At(m, Head(pol, c));
      forall i | 0 <= i < |L| ensures At(m', L[i]) == At(m, L[i]) && At(m', L[i] + 4) == At(m, L[i] + 4) {
        assert Member(pol, B, x, c, L[i]);
        LinksElsewhere(pol, m, m', B, hi, x, p, L[i]);
      }
      hide Tiled, Indexed, LinksWritten;
      LinkedFrame(m, m', Head(pol, c), L);
    }
  }

  lemma LinksElsewhere(pol: Policy, m: Mem, m': Mem, B: Layout, hi: int, x: set<int>, p: int, q: int)
    requires Tiled(B, Low(pol), hi) && p in B && q in B && q !in x && LinksWritten(m, m', p)
    requires p in x || (At(m', p) == At(m, p) && At(m', p + 4) == At(m, p + 4))
    ensures At(m', q) == At(m, q) && At(m', q + 4) == At(m, q + 4)
  {
  }

  /** The first block in address order that fits. */
  ghost predicate LowestFound(B: Layout, n: int, p: int) {
    Fits(B, p, n) && forall q | Fits(B, q, n) :: p <= q
  }

  ghost predicate NoFitBelow(B: Layout, a: int, n: int) {
    forall q | Fits(B, q, n) :: a <= q
  }

  /** When the block at p does not fit, the search may move on to its successor. */
  lemma StepOver(B: Layout, lo: int, hi: int, p: int, n: int)
    requires Tiled(B, lo, hi) && Starts(B, p, hi) && NoFitBelow(B, p, n) && !Fits(B, p, n)
    ensures p in B ==> NoFitBelow(B, p + B[p].size, n)
    ensures p == hi ==> forall q :: !Fits(B, q, n)
  {
  }

  /** The tags of prologue, block and epilogue in mm_list.c's heap of one free block. */
  ghost predicate OneTagged(m: Mem, size: int) {
    At(m, 4) == At(m, 8) == 9 && At(m, 12) == At(m, 8 + size) == size && At(m, 12 + size) == 1
  }

  /** With the links of the block cleared and the head in front of it that is all there is to say. */
  lemma OneBlockHeap(m: Mem, size: int)
    requires OneTagged(m, size) && 16 <= size && Aligned(size)
    requires At(m, -8) == 16 && At(m, 16) == 0 && At(m, 20) == 0
    ensures HeapInv(Explicit, m, map[16 := Blk(size, true)], 16 + size, [[16]], {}, {})
    ensures Coalesced(map[16 := Blk(size, true)])
  {
    var B := map[16 := Blk(size, true)];
    assert Precedes(B, 16, 16 + size);
    forall c, q {:trigger q in [[16]][c]} | 0 <= c < 1 ensures q in [[16]][c] <==> Member(Explicit, B, {}, c, q) {
    }
  }
}
