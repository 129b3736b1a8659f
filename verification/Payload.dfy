/** Payloads as bytes: what the allocators promise the owner of an allocated block. */
module Payload {
  import opened HeapModel
  import opened FreeLists
  import opened Memory

  /** Every payload byte of the blocks in L is the same in b and b'. */
  ghost predicate BytesKept(b: seq<Byte>, b': seq<Byte>, L: map<int, int>) {
    && |b'| == |b|
    && forall p, i | p in L && p <= i < p + L[p] - 8 && 0 <= i < |b| :: b'[i] == b[i]
  }

  lemma KeptBytes(b: seq<Byte>, b': seq<Byte>, B: Layout, lo: int, hi: int)
    requires Tiled(B, lo, hi) && 0 <= lo && hi <= |b| == |b'|
    requires forall p, a | p in B && !B[p].free && p <= a <= p + B[p].size - 12 :: At(Words(b'), a) == At(Words(b), a)
    ensures BytesKept(b, b', Live(B))
  {
    forall p, i | p in Live(B) && p <= i < p + B[p].size - 8 && 0 <= i < |b| ensures b'[i] == b[i] {
      var a := if i <= p + B[p].size - 12 then i else p + B[p].size - 12;
      assert At(Words(b'), a) == At(Words(b), a);
      WordMakesBytes(b, b', a);
    }
  }

  lemma BytesSame(b: seq<Byte>, L: map<int, int>)
    ensures BytesKept(b, b, L)
  {
  }

  lemma BytesKeptTransitive(b0: seq<Byte>, b1: seq<Byte>, b2: seq<Byte>, L: map<int, int>)
    requires BytesKept(b0, b1, L) && BytesKept(b1, b2, L)
    ensures BytesKept(b0, b2, L)
  {
  }

  /** The allocated blocks before (L) and after (K) a realloc: ptr is gone, np is new, large enough
      and not much larger, and the rest is as it was. */
  ghost predicate Moved(L: map<int, int>, K: map<int, int>, ptr: int, np: int, size: int) {
    && np !in L && np in K && Aligned(np) && size + 8 <= K[np] < size + 32
    && K == L[np := K[np]] - {ptr}
  }

  /** malloc and then moving the data together keep every byte of the other blocks. */
  lemma KeptThrough(b0: seq<Byte>, b1: seq<Byte>, b2: seq<Byte>, ptr: int, np: int, s: int, L: map<int, int>)
    requires np !in L && BytesKept(b0, b1, L) && BytesKept(b1, b2, L[np := s] - {np, ptr})
    ensures BytesKept(b0, b2, L - {ptr})
  {
    BytesKeptWithin(b0, b1, L, L - {ptr});
    BytesKeptWithin(b1, b2, L[np := s] - {np, ptr}, L - {ptr});
  }

  function Least(a: int, b: int): (m: int)
    ensures m <= a && m <= b && (m == a || m == b)
  {
    if a < b then a else b
  }

  /** The bytes of the heap through malloc of np and then the move of ptr's payload to it. */
  lemma ReallocBytes(b0: seq<Byte>, b1: seq<Byte>, b2: seq<Byte>, ptr: int, np: int, size: int,
                    L: map<int, int>, s: int)
    requires np !in L && ptr in L && BytesKept(b0, b1, L) && BytesKept(b1, b2, L[np := s] - {np, ptr})
    requires Copied(b1, b2, ptr, np, Least(size, L[ptr] - 8))
    ensures BytesKept(b0, b2, L - {ptr}) && Copied(b0, b2, ptr, np, Least(size, L[ptr] - 8))
  {
    KeptThrough(b0, b1, b2, ptr, np, s, L);
    KeptCopied(b0, b1, b2, ptr, np, Least(size, L[ptr] - 8), L);
  }

  /** A successful realloc of ptr to np: the blocks move as above, the new payload starts with as
      much of the old one as both have room for, and the other payloads keep their bytes. */
  ghost predicate Reallocated(b: seq<Byte>, b': seq<Byte>, L: map<int, int>, K: map<int, int>,
                              ptr: int, np: int, size: int) {
    && Moved(L, K, ptr, np, size)
    && (ptr in L ==> Copied(b, b', ptr, np, Least(size, L[ptr] - 8)))
    && BytesKept(b, b', L - {ptr})
  }

  lemma BytesKeptWithin(b0: seq<Byte>, b1: seq<Byte>, L: map<int, int>, K: map<int, int>)
    requires BytesKept(b0, b1, L)
    requires forall p | p in K :: p in L && L[p] == K[p]
    ensures BytesKept(b0, b1, K)
  {
  }

  ghost predicate Filled(b: seq<Byte>, p: int, n: int, v: Byte) {
    0 <= p && p + n <= |b| && forall j | p <= j < p + n :: b[j] == v
  }

  /** The n bytes at dst in b' are the n bytes at src in b. */
  ghost predicate Copied(b: seq<Byte>, b': seq<Byte>, src: int, dst: int, n: int) {
    && 0 <= dst && dst + n <= |b'| && 0 <= src && src + n <= |b|
    && forall j | dst <= j < dst + n :: b'[j] == b[src + (j - dst)]
  }

  /** The copied bytes survive the free of their source. */
  lemma CopiedKept(b1: seq<Byte>, b2: seq<Byte>, b3: seq<Byte>, src: int, dst: int, n: int, k: int, K: map<int, int>)
    requires Copied(b1, b2, src, dst, n) && 0 <= k <= n
    requires BytesKept(b2, b3, K) && dst in K && k <= K[dst] - 8
    ensures Copied(b1, b3, src, dst, k)
  {
  }

  /** What is copied out of a kept block is what it held before. */
  lemma KeptCopied(b0: seq<Byte>, b1: seq<Byte>, b3: seq<Byte>, src: int, dst: int, k: int, L: map<int, int>)
    requires BytesKept(b0, b1, L) && src in L && k <= L[src] - 8
    requires Copied(b1, b3, src, dst, k)
    ensures Copied(b0, b3, src, dst, k)
  {
  }

  /** Only bytes of the payload of block p differ. */
  ghost predicate PayloadWritten(b: seq<Byte>, b': seq<Byte>, B: Layout, p: int) {
    && p in B && |b'| == |b|
    && forall i | 0 <= i < |b| && !(p <= i < p + B[p].size - 8) :: b'[i] == b[i]
  }

  /** Writing a payload changes no word outside it. */
  lemma WrittenWords(b: seq<Byte>, b': seq<Byte>, B: Layout, p: int, a: int)
    requires PayloadWritten(b, b', B, p) && (a + 4 <= p || p + B[p].size - 8 <= a)
    ensures At(Words(b'), a) == At(Words(b), a)
  {
    if 0 <= a && a + 4 <= |b| { assert WordOf(b', a) == WordOf(b, a); }
  }

  lemma WrittenKeeps(b: seq<Byte>, b': seq<Byte>, B: Layout, lo: int, hi: int, p: int)
    requires Tiled(B, lo, hi) && PayloadWritten(b, b', B, p)
    ensures BytesKept(b, b', Live(B) - {p})
  {
    forall q, i | q in Live(B) - {p} && q <= i < q + B[q].size - 8 && 0 <= i < |b| ensures b'[i] == b[i] {
      assert q != p;
    }
  }

  /** An owner's writes to an allocated payload leave the heap structure alone. */
  lemma WriteStep(pol: Policy, m: Mem, m': Mem, B: Layout, hi: int, lists: seq<seq<int>>, p: int)
    requires HeapInv(pol, m, B, hi, lists, {}, {}) && p in B && !B[p].free
    requires forall a | a + 4 <= p || p + B[p].size - 8 <= a :: At(m', a) == At(m, a)
    ensures HeapInv(pol, m', B, hi, lists, {}, {})
  {
    WriteKeepsTags(pol, m, m', B, hi, p);
    WriteKeepsLists(pol, m, m', B, hi, lists, p);
  }

  lemma WriteKeepsTags(pol: Policy, m: Mem, m': Mem, B: Layout, hi: int, p: int)
    requires Tiled(B, Low(pol), hi) && Tagged(m, B, Low(pol), hi, {}) && p in B
    requires forall a | a + 4 <= p || p + B[p].size - 8 <= a :: At(m', a) == At(m, a)
    ensures Tagged(m', B, Low(pol), hi, {})
  {
  }

  lemma WriteKeepsLists(pol: Policy, m: Mem, m': Mem, B: Layout, hi: int, lists: seq<seq<int>>, p: int)
    requires Tiled(B, Low(pol), hi) && Indexed(pol, B, lists, {}) && Threaded(pol, m, lists) && p in B && !B[p].free
    requires forall a | a + 4 <= p || p + B[p].size - 8 <= a :: At(m', a) == At(m, a)
    ensures Threaded(pol, m', lists)
  {
    forall c | 0 <= c < |lists| && pol != Implicit ensures Linked(m', Head(pol, c), lists[c]) {
      var L := lists[c];
      forall i | 0 <= i < |L| ensures At(m', L[i]) == At(m, L[i]) && At(m', L[i] + 4) == At(m, L[i] + 4) {
        assert Member(pol, B, {}, c, L[i]);
      }
      LinkedFrame(m, m', Head(pol, c), L);
    }
  }
}
