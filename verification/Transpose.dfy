/** The matrix transposes of trans.c. Each writes B in an order chosen for a small cache, two of
    them using B as scratch space, and each leaves B the transpose of A. */
module Transpose {

  type Matrix = array2<int>

  ghost predicate Shaped(A: Matrix, B: Matrix) {
    A != B && B.Length0 == A.Length1 && B.Length1 == A.Length0
  }

  predicate By8(A: Matrix) {
    A.Length0 % 8 == 0 && A.Length1 % 8 == 0
  }

  /** Rows [top, bottom) and columns [left, right) of B hold the transpose of A. */
  ghost predicate Done(A: Matrix, B: Matrix, top: int, bottom: int, left: int, right: int)
    requires Shaped(A, B)
    reads A, B
  {
    forall r, c | 0 <= r < B.Length0 && 0 <= c < B.Length1 && top <= r < bottom && left <= c < right ::
      B[r, c] == A[c, r]
  }

  ghost predicate Transposed(A: Matrix, B: Matrix)
    reads A, B
  {
    Shaped(A, B) && Done(A, B, 0, B.Length0, 0, B.Length1)
  }

  predicate Inside(r: int, c: int, top: int, left: int, height: int, width: int) {
    top <= r < top + height && left <= c < left + width
  }

  /** All cells of B outside the given block are as before. */
  twostate predicate KeptOutside(B: Matrix, top: int, left: int, height: int, width: int)
    reads B
  {
    forall r, c | 0 <= r < B.Length0 && 0 <= c < B.Length1 && !Inside(r, c, top, left, height, width) ::
      B[r, c] == old(B[r, c])
  }

  // ----- The 32 by 32 branch: copy rows, then transpose each block in place -----

  method CopyRow(A: Matrix, B: Matrix, i: nat, j: nat, k: nat)
    requires Shaped(A, B) && k < 8 && i + 8 <= A.Length0 && j + 8 <= A.Length1
    modifies B
    ensures forall r, c | j + k <= r < j + k + 1 && i <= c < i + 8 :: B[r, c] == A[i + k, j + (c - i)]
    ensures KeptOutside(B, j + k, i, 1, 8)
  {
    var a, b, c, d := A[i + k, j], A[i + k, j + 1], A[i + k, j + 2], A[i + k, j + 3];
    var e, f, g, h := A[i + k, j + 4], A[i + k, j + 5], A[i + k, j + 6], A[i + k, j + 7];
    B[j + k, i] := a;
    B[j + k, i + 1] := b;
    B[j + k, i + 2] := c;
    B[j + k, i + 3] := d;
    B[j + k, i + 4] := e;
    B[j + k, i + 5] := f;
    B[j + k, i + 6] := g;
    B[j + k, i + 7] := h;
  }

  method CopyBlock(A: Matrix, B: Matrix, i: nat, j: nat)
    requires Shaped(A, B) && i + 8 <= A.Length0 && j + 8 <= A.Length1
    modifies B
    ensures forall r, c | j <= r < j + 8 && i <= c < i + 8 :: B[r, c] == A[i + (r - j), j + (c - i)]
    ensures KeptOutside(B, j, i, 8, 8)
  {
    for k := 0 to 8
      invariant forall r, c | j <= r < j + k && i <= c < i + 8 :: B[r, c] == A[i + (r - j), j + (c - i)]
      invariant KeptOutside(B, j, i, 8, 8)
    {
      CopyRow(A, B, i, j, k);
    }
  }

  /** Has the pair of the cell and its mirror image been swapped before step (k, l)? */
  predicate SwappedBy(p: int, q: int, k: int, l: int) {
    (p < k && q < k) || (p == k && q < l) || (q == k && p < l)
  }

  method SwapBlock(B: Matrix, i: nat, j: nat)
    requires j + 8 <= B.Length0 && i + 8 <= B.Length1
    modifies B
    ensures forall r, c | j <= r < j + 8 && i <= c < i + 8 :: B[r, c] == old(B[j + (c - i), i + (r - j)])
    ensures KeptOutside(B, j, i, 8, 8)
  {
    for k := 0 to 8
      invariant forall r, c | j <= r < j + 8 && i <= c < i + 8 ::
        B[r, c] == if SwappedBy(r - j, c - i, k, 0) then old(B[j + (c - i), i + (r - j)]) else old(B[r, c])
      invariant KeptOutside(B, j, i, 8, 8)
    {
      for l := 0 to k
        invariant forall r, c | j <= r < j + 8 && i <= c < i + 8 ::
          B[r, c] == if SwappedBy(r - j, c - i, k, l) then old(B[j + (c - i), i + (r - j)]) else old(B[r, c])
        invariant KeptOutside(B, j, i, 8, 8)
      {
        var tmp := B[j + k, i + l];
        B[j + k, i + l] := B[j + l, i + k];
        B[j + l, i + k] := tmp;
      }
    }
  }

  method TransposeByBlocks(A: Matrix, B: Matrix)
    requires Shaped(A, B) && By8(A)
    modifies B
    ensures Transposed(A, B)
  {
    var i := 0;
    while i < A.Length0
      invariant 0 <= i <= A.Length0 && i % 8 == 0
      invariant Done(A, B, 0, B.Length0, 0, i)
    {
      var j := 0;
      while j < A.Length1
        invariant 0 <= j <= A.Length1 && j % 8 == 0
        invariant Done(A, B, 0, B.Length0, 0, i)
        invariant Done(A, B, 0, j, i, i + 8)
      {
        Room(i, A.Length0);
        Room(j, A.Length1);
        BlockInPlace(A, B, i, j);
        j := j + 8;
      }
      i := i + 8;
    }
  }

  lemma Room(i: int, n: int)
    requires i % 8 == 0 && n % 8 == 0 && i < n
    ensures i + 8 <= n && (i + 8) % 8 == 0
  {
  }

  method BlockInPlace(A: Matrix, B: Matrix, i: nat, j: nat)
    requires Shaped(A, B) && i + 8 <= A.Length0 && j + 8 <= A.Length1
    modifies B
    ensures Done(A, B, j, j + 8, i, i + 8)
    ensures KeptOutside(B, j, i, 8, 8)
  {
    CopyBlock(A, B, i, j);
    SwapBlock(B, i, j);
  }

  // ----- The 64 by 64 branch: the top right quarter of each block is staged in B -----

  /** The first loop: four rows of A go to the upper half of the block, the right ones of them to
      a place that is not theirs. */
  method StageColumn(A: Matrix, B: Matrix, i: nat, j: nat, k: nat)
    requires Shaped(A, B) && k < 4 && i + 8 <= A.Length0 && j + 8 <= A.Length1
    modifies B
    ensures forall r, c | j <= r < j + 4 && i + k <= c < i + k + 1 :: B[r, c] == A[c, r]
    ensures forall r, c | j <= r < j + 4 && i + 4 + k <= c < i + 4 + k + 1 :: B[r, c] == A[c - 4, r + 4]
    ensures KeptElsewhere(B, i, j, k)
  {
    var a, b, c, d := A[i + k, j], A[i + k, j + 1], A[i + k, j + 2], A[i + k, j + 3];
    var e, f, g, h := A[i + k, j + 4], A[i + k, j + 5], A[i + k, j + 6], A[i + k, j + 7];
    B[j, i + k] := a;
    B[j + 1, i + k] := b;
    B[j + 2, i + k] := c;
    B[j + 3, i + k] := d;
    B[j, i + k + 4] := e;
    B[j + 1, i + k + 4] := f;
    B[j + 2, i + k + 4] := g;
    B[j + 3, i + k + 4] := h;
  }

  twostate predicate KeptElsewhere(B: Matrix, i: int, j: int, k: int)
    reads B
  {
    forall r, c | 0 <= r < B.Length0 && 0 <= c < B.Length1
      && !Inside(r, c, j, i + k, 4, 1) && !Inside(r, c, j, i + 4 + k, 4, 1) :: B[r, c] == old(B[r, c])
  }

  /** Rows [top, j + 4) of the block still hold, on the right, what belongs four rows further down
      on the left. */
  ghost predicate Staged(A: Matrix, B: Matrix, i: int, j: int, top: int)
    requires Shaped(A, B) && 0 <= i && i + 8 <= A.Length0 && 0 <= j <= top && j + 8 <= A.Length1
    reads A, B
  {
    forall r, c | top <= r < j + 4 && i + 4 <= c < i + 8 :: B[r, c] == A[c - 4, r + 4]
  }

  method StageBlock(A: Matrix, B: Matrix, i: nat, j: nat)
    requires Shaped(A, B) && i + 8 <= A.Length0 && j + 8 <= A.Length1
    modifies B
    ensures Done(A, B, j, j + 4, i, i + 4) && Staged(A, B, i, j, j)
    ensures KeptOutside(B, j, i, 8, 8)
  {
    for k := 0 to 4
      invariant Done(A, B, j, j + 4, i, i + k)
      invariant forall r, c | j <= r < j + 4 && i + 4 <= c < i + 4 + k :: B[r, c] == A[c - 4, r + 4]
      invariant KeptOutside(B, j, i, 8, 8)
    {
      StageColumn(A, B, i, j, k);
    }
  }

  /** The second loop: row j + k gives up its staged half for its own and passes it down. */
  method UnstageRow(A: Matrix, B: Matrix, i: nat, j: nat, k: nat)
    requires Shaped(A, B) && k < 4 && i + 8 <= A.Length0 && j + 8 <= A.Length1
    requires Staged(A, B, i, j, j + k)
    modifies B
    ensures Done(A, B, j + k, j + k + 1, i + 4, i + 8)
    ensures Done(A, B, j + k + 4, j + k + 5, i, i + 8)
    ensures KeptRows(B, i, j, k)
  {
    var a, b, c, d := B[j + k, i + 4], B[j + k, i + 5], B[j + k, i + 6], B[j + k, i + 7];
    FillRow(A, B, i + 4, j + k);
    PutRow(B, j + k + 4, i, a, b, c, d);
    FillRow(A, B, i + 4, j + k + 4);
  }

  method PutRow(B: Matrix, r: nat, i: nat, a: int, b: int, c: int, d: int)
    requires r < B.Length0 && i + 4 <= B.Length1
    modifies B
    ensures B[r, i] == a && B[r, i + 1] == b && B[r, i + 2] == c && B[r, i + 3] == d
    ensures KeptOutside(B, r, i, 1, 4)
  {
    B[r, i] := a;
    B[r, i + 1] := b;
    B[r, i + 2] := c;
    B[r, i + 3] := d;
  }

  method FillRow(A: Matrix, B: Matrix, i: nat, r: nat)
    requires Shaped(A, B) && i + 4 <= A.Length0 && r < A.Length1
    modifies B
    ensures Done(A, B, r, r + 1, i, i + 4)
    ensures KeptOutside(B, r, i, 1, 4)
  {
    var e, f, g, h := A[i, r], A[i + 1, r], A[i + 2, r], A[i + 3, r];
    PutRow(B, r, i, e, f, g, h);
  }

  twostate predicate KeptRows(B: Matrix, i: int, j: int, k: int)
    reads B
  {
    forall r, c | 0 <= r < B.Length0 && 0 <= c < B.Length1
      && !Inside(r, c, j + k, i + 4, 1, 4) && !Inside(r, c, j + k + 4, i, 1, 8) :: B[r, c] == old(B[r, c])
  }

  method UnstageBlock(A: Matrix, B: Matrix, i: nat, j: nat)
    requires Shaped(A, B) && i + 8 <= A.Length0 && j + 8 <= A.Length1
    requires Done(A, B, j, j + 4, i, i + 4) && Staged(A, B, i, j, j)
    modifies B
    ensures Done(A, B, j, j + 8, i, i + 8)
    ensures KeptOutside(B, j, i, 8, 8)
  {
    for k := 0 to 4
      invariant Done(A, B, j, j + 4, i, i + 4) && Staged(A, B, i, j, j + k)
      invariant Done(A, B, j, j + k, i + 4, i + 8)
      invariant Done(A, B, j + 4, j + 4 + k, i, i + 8)
      invariant KeptOutside(B, j, i, 8, 8)
    {
      UnstageRow(A, B, i, j, k);
    }
  }

  method TransposeStaged(A: Matrix, B: Matrix)
    requires Shaped(A, B) && By8(A)
    modifies B
    ensures Transposed(A, B)
  {
    var i := 0;
    while i < A.Length0
      invariant 0 <= i <= A.Length0 && i % 8 == 0
      invariant Done(A, B, 0, B.Length0, 0, i)
    {
      var j := 0;
      while j < A.Length1
        invariant 0 <= j <= A.Length1 && j % 8 == 0
        invariant Done(A, B, 0, B.Length0, 0, i)
        invariant Done(A, B, 0, j, i, i + 8)
      {
        Room(i, A.Length0);
        Room(j, A.Length1);
        StageBlock(A, B, i, j);
        UnstageBlock(A, B, i, j);
        j := j + 8;
      }
      i := i + 8;
    }
  }

  // ----- The general branch: eight columns of A at a time, and the columns left over -----

  method CopyColumns(A: Matrix, B: Matrix, j: nat, k: nat)
    requires Shaped(A, B) && j + 8 <= A.Length1 && k < A.Length0
    modifies B
    ensures Done(A, B, j, j + 8, k, k + 1)
    ensures KeptOutside(B, j, k, 8, 1)
  {
    var a, b, c, d := A[k, j], A[k, j + 1], A[k, j + 2], A[k, j + 3];
    var e, f, g, h := A[k, j + 4], A[k, j + 5], A[k, j + 6], A[k, j + 7];
    B[j, k] := a;
    B[j + 1, k] := b;
    B[j + 2, k] := c;
    B[j + 3, k] := d;
    B[j + 4, k] := e;
    B[j + 5, k] := f;
    B[j + 6, k] := g;
    B[j + 7, k] := h;
  }

  method TransposeByColumns(A: Matrix, B: Matrix)
    requires Shaped(A, B)
    modifies B
    ensures Transposed(A, B)
  {
    var whole := A.Length1 - A.Length1 % 8;
    var j := 0;
    while j < whole
      invariant 0 <= j <= whole && j % 8 == 0
      invariant Done(A, B, 0, j, 0, B.Length1)
    {
      Room(j, whole);
      for k := 0 to A.Length0
        invariant Done(A, B, 0, j, 0, B.Length1)
        invariant Done(A, B, j, j + 8, 0, k)
      {
        CopyColumns(A, B, j, k);
      }
      j := j + 8;
    }
    CopyRest(A, B, whole);
  }

  method CopyRest(A: Matrix, B: Matrix, whole: nat)
    requires Shaped(A, B) && whole <= A.Length1 && Done(A, B, 0, whole, 0, B.Length1)
    modifies B
    ensures Transposed(A, B)
  {
    for i := 0 to A.Length0
      invariant Done(A, B, 0, whole, 0, B.Length1)
      invariant Done(A, B, whole, B.Length0, 0, i)
    {
      for j := whole to A.Length1
        invariant Done(A, B, 0, whole, 0, B.Length1)
        invariant Done(A, B, whole, B.Length0, 0, i)
        invariant Done(A, B, whole, j, i, i + 1)
      {
        var tmp := A[i, j];
        B[j, i] := tmp;
      }
    }
  }

  /** transpose_submit: whatever the shape, B becomes the transpose of A, and A, which is not
      among what may be modified, stays as it is. */
  method TransposeSubmit(A: Matrix, B: Matrix)
    requires Shaped(A, B)
    modifies B
    ensures Transposed(A, B)
  {
    if A.Length0 == 32 && A.Length1 == 32 {
      TransposeByBlocks(A, B);
    } else if A.Length0 == 64 && A.Length1 == 64 {
      TransposeStaged(A, B);
    } else {
      TransposeByColumns(A, B);
    }
  }

  /** The baseline: one scan, row by row. */
  method Trans(A: Matrix, B: Matrix)
    requires Shaped(A, B)
    modifies B
    ensures Transposed(A, B)
  {
    for i := 0 to A.Length0
      invariant Done(A, B, 0, B.Length0, 0, i)
    {
      for j := 0 to A.Length1
        invariant Done(A, B, 0, B.Length0, 0, i)
        invariant Done(A, B, 0, j, i, i + 1)
      {
        var tmp := A[i, j];
        B[j, i] := tmp;
      }
    }
  }

  /** is_transpose. */
  method IsTranspose(A: Matrix, B: Matrix) returns (yes: bool)
    requires Shaped(A, B)
    ensures yes <==> Transposed(A, B)
  {
    for i := 0 to A.Length0
      invariant Done(A, B, 0, B.Length0, 0, i)
    {
      for j := 0 to A.Length1
        invariant Done(A, B, 0, B.Length0, 0, i)
        invariant Done(A, B, 0, j, i, i + 1)
      {
        if A[i, j] != B[j, i] {
          return false;
        }
      }
    }
    return true;
  }

  /** The blocked transposes and the baseline agree on every cell, and transposing twice gives the
      original back. */
  method TransposeTwice(A: Matrix, B: Matrix, C: Matrix, D: Matrix)
    requires Shaped(A, B) && Shaped(A, D) && Shaped(B, C) && A != C && B != D && C != D
    modifies B, C, D
    ensures forall r, c | 0 <= r < A.Length0 && 0 <= c < A.Length1 :: C[r, c] == A[r, c] == old(A[r, c])
    ensures forall r, c | 0 <= r < B.Length0 && 0 <= c < B.Length1 :: D[r, c] == B[r, c]
  {
    TransposeSubmit(A, B);
    TransposeSubmit(B, C);
    Trans(A, D);
  }
}
