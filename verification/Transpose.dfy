/** Four-dimensional transposition: `transpose_4d` in src/cpu/primitives.cc.

    The generic strided loop and the block-copy path for permutation (0, 2, 1, 3) both write the reference
    `Transposed`, with the outer loop cut into chunks that run in any order. */
module Transpose {
  import opened RowMajor
  import opened Parallel
  import opened Vectors

  // ----- Indices, permutations, positions -----

  datatype Quad = Quad(x0: nat, x1: nat, x2: nat, x3: nat) {
    function At(k: nat): nat {
      if k == 0 then x0 else if k == 1 then x1 else if k == 2 then x2 else x3
    }

    predicate Within(dims: Quad) {
      x0 < dims.x0 && x1 < dims.x1 && x2 < dims.x2 && x3 < dims.x3
    }
  }

  predicate IsPerm(p: Quad) {
    && p.Within(Quad(4, 4, 4, 4))
    && p.x0 != p.x1 && p.x0 != p.x2 && p.x0 != p.x3 && p.x1 != p.x2 && p.x1 != p.x3 && p.x2 != p.x3
  }

  /** Component k of the result is component p[k] of q. */
  function Permuted(q: Quad, p: Quad): Quad {
    Quad(q.At(p.x0), q.At(p.x1), q.At(p.x2), q.At(p.x3))
  }

  /** Where p puts k. */
  function Find(p: Quad, k: nat): nat {
    if p.x0 == k then 0 else if p.x1 == k then 1 else if p.x2 == k then 2 else 3
  }

  /** `perm_ind`. */
  function Inverse(p: Quad): Quad {
    Quad(Find(p, 0), Find(p, 1), Find(p, 2), Find(p, 3))
  }

  lemma InverseUndoes(q: Quad, p: Quad)
    requires IsPerm(p)
    ensures IsPerm(Inverse(p))
    ensures Permuted(Permuted(q, p), Inverse(p)) == q && Permuted(Permuted(q, Inverse(p)), p) == q
  {
  }

  lemma PermutedWithin(q: Quad, dims: Quad, p: Quad)
    requires IsPerm(p)
    ensures q.Within(dims) <==> Permuted(q, p).Within(Permuted(dims, p))
  {
  }

  function Size(dims: Quad): nat {
    dims.x0 * dims.x1 * dims.x2 * dims.x3
  }

  lemma SizeSwaps(q: Quad)
    ensures Size(q) == Size(Quad(q.x1, q.x0, q.x2, q.x3))
    ensures Size(q) == Size(Quad(q.x0, q.x2, q.x1, q.x3))
    ensures Size(q) == Size(Quad(q.x0, q.x1, q.x3, q.x2))
  {
  }

  /** One pass of bubble sort over a permutation keeps the product. */
  lemma SizePass(dims: Quad, p: Quad) returns (q: Quad)
    requires IsPerm(p)
    ensures IsPerm(q) && Size(Permuted(dims, q)) == Size(Permuted(dims, p))
    ensures q.x3 == 3 && (p.x3 == 3 ==> q.x2 == 2) && (p.x3 == 3 && p.x2 == 2 ==> q == Quad(0, 1, 2, 3))
  {
    hide Size;
    q := p;
    SizeSwaps(Permuted(dims, q));
    if q.x0 > q.x1 { q := Quad(q.x1, q.x0, q.x2, q.x3); }
    SizeSwaps(Permuted(dims, q));
    if q.x1 > q.x2 { q := Quad(q.x0, q.x2, q.x1, q.x3); }
    SizeSwaps(Permuted(dims, q));
    if q.x2 > q.x3 { q := Quad(q.x0, q.x1, q.x3, q.x2); }
  }

  lemma SizePermuted(dims: Quad, p: Quad)
    requires IsPerm(p)
    ensures Size(Permuted(dims, p)) == Size(dims)
  {
    hide Size;
    var q := SizePass(dims, p);
    q := SizePass(dims, q);
    q := SizePass(dims, q);
  }

  /** Row-major position of an index. */
  function Position(dims: Quad, i: Quad): nat {
    Flat(Flat(Flat(i.x0, i.x1, dims.x1), i.x2, dims.x2), i.x3, dims.x3)
  }

  /** The index at a row-major position. */
  function IndexAt(dims: Quad, n: nat): Quad
    requires dims.x1 > 0 && dims.x2 > 0 && dims.x3 > 0
  {
    var n2 := RowOf(n, dims.x3);
    var n1 := RowOf(n2, dims.x2);
    Quad(RowOf(n1, dims.x1), ColumnOf(n1, dims.x1), ColumnOf(n2, dims.x2), ColumnOf(n, dims.x3))
  }

  lemma SizePositive(dims: Quad, n: nat)
    requires n < Size(dims)
    ensures dims.x0 > 0 && dims.x1 > 0 && dims.x2 > 0 && dims.x3 > 0
  {
  }

  lemma IndexInverse(dims: Quad, n: nat)
    requires n < Size(dims) && dims.x1 > 0 && dims.x2 > 0 && dims.x3 > 0
    ensures IndexAt(dims, n).Within(dims) && Position(dims, IndexAt(dims, n)) == n
  {
    hide Flat, RowOf, ColumnOf;
    var n2 := RowOf(n, dims.x3);
    PositionOf(n, dims.x0 * dims.x1 * dims.x2, dims.x3);
    PositionOf(n2, dims.x0 * dims.x1, dims.x2);
    PositionOf(RowOf(n2, dims.x2), dims.x0, dims.x1);
  }

  lemma PositionInverse(dims: Quad, i: Quad)
    requires i.Within(dims)
    ensures Position(dims, i) < Size(dims) && IndexAt(dims, Position(dims, i)) == i
  {
    hide Flat, RowOf, ColumnOf;
    FlatPosition(i.x0, i.x1, dims.x1, dims.x0);
    FlatPosition(Flat(i.x0, i.x1, dims.x1), i.x2, dims.x2, dims.x0 * dims.x1);
    FlatPosition(Flat(Flat(i.x0, i.x1, dims.x1), i.x2, dims.x2), i.x3, dims.x3, dims.x0 * dims.x1 * dims.x2);
  }

  // ----- The reference -----

  /** The input position of the element that belongs at output position q. */
  function Source(dims: Quad, p: Quad, q: nat): (n: nat)
    requires IsPerm(p) && q < Size(dims)
    ensures n < Size(dims)
  {
    var out := Permuted(dims, p);
    SizePermuted(dims, p);
    SizePositive(out, q);
    IndexInverse(out, q);
    InverseUndoes(dims, p);
    PermutedWithin(IndexAt(out, q), out, Inverse(p));
    PositionInverse(dims, Permuted(IndexAt(out, q), Inverse(p)));
    Position(dims, Permuted(IndexAt(out, q), Inverse(p)))
  }

  /** The output position of the element at input position n. */
  function Destination(dims: Quad, p: Quad, n: nat): (q: nat)
    requires IsPerm(p) && n < Size(dims)
    ensures q < Size(dims)
  {
    SizePermuted(dims, p);
    SizePositive(dims, n);
    IndexInverse(dims, n);
    PermutedWithin(IndexAt(dims, n), dims, p);
    PositionInverse(Permuted(dims, p), Permuted(IndexAt(dims, n), p));
    Position(Permuted(dims, p), Permuted(IndexAt(dims, n), p))
  }

  /** Every output slot has one source and every element one destination. */
  lemma SourceDestination(dims: Quad, p: Quad, n: nat)
    requires IsPerm(p) && n < Size(dims)
    ensures Source(dims, p, Destination(dims, p, n)) == n && Destination(dims, p, Source(dims, p, n)) == n
  {
    hide Flat, IndexAt, Permuted, Inverse, IsPerm, Size, Position;
    var out := Permuted(dims, p);
    SizePermuted(dims, p);
    SizePositive(dims, n);
    SizePositive(out, n);
    InverseUndoes(dims, p);
    IndexInverse(dims, n);
    IndexInverse(out, n);
    var i, o := IndexAt(dims, n), IndexAt(out, n);
    InverseUndoes(i, p);
    InverseUndoes(o, p);
    PermutedWithin(i, dims, p);
    PermutedWithin(o, out, Inverse(p));
    PositionInverse(out, Permuted(i, p));
    PositionInverse(dims, Permuted(o, Inverse(p)));
  }

  function Transposed<T>(a: seq<T>, dims: Quad, p: Quad): (r: seq<T>)
    requires IsPerm(p) && |a| == Size(dims)
    ensures |r| == |a| && forall q :: 0 <= q < |r| ==> r[q] == a[Source(dims, p, q)]
  {
    seq(Size(dims), q requires 0 <= q < Size(dims) => a[Source(dims, p, q)])
  }

  /** What transposition means: the element at index i is found at the permuted index. */
  lemma TransposedAt<T>(a: seq<T>, dims: Quad, p: Quad, i: Quad)
    requires IsPerm(p) && |a| == Size(dims) && i.Within(dims)
    ensures Position(dims, i) < |a| && Position(Permuted(dims, p), Permuted(i, p)) < |a|
    ensures Transposed(a, dims, p)[Position(Permuted(dims, p), Permuted(i, p))] == a[Position(dims, i)]
  {
    hide Flat, IndexAt, Permuted, Inverse, IsPerm, Size, Position;
    PositionInverse(dims, i);
    SizePositive(dims, Position(dims, i));
    SourceDestination(dims, p, Position(dims, i));
  }

  /** Transposing by the inverse permutation restores the input. */
  lemma TransposedBack<T>(a: seq<T>, dims: Quad, p: Quad)
    requires IsPerm(p) && |a| == Size(dims)
    ensures IsPerm(Inverse(p)) && Size(Permuted(dims, p)) == |a|
    ensures Transposed(Transposed(a, dims, p), Permuted(dims, p), Inverse(p)) == a
  {
    hide Flat, IndexAt, Permuted, Inverse, IsPerm, Size, Position, Source, Destination;
    var out := Permuted(dims, p);
    SizePermuted(dims, p);
    InverseUndoes(dims, p);
    forall q | 0 <= q < |a| ensures Transposed(Transposed(a, dims, p), out, Inverse(p))[q] == a[q] {
      SourceBack(dims, p, q);
    }
  }

  lemma SourceBack(dims: Quad, p: Quad, q: nat)
    requires IsPerm(p) && q < Size(dims)
    ensures IsPerm(Inverse(p)) && Size(Permuted(dims, p)) == Size(dims)
    ensures Source(dims, p, Source(Permuted(dims, p), Inverse(p), q)) == q
  {
    hide Flat, IndexAt, Permuted, Inverse, IsPerm, Size, Position;
    var out := Permuted(dims, p);
    SizePermuted(dims, p);
    InverseUndoes(dims, p);
    SizePositive(dims, q);
    IndexInverse(dims, q);
    var i := IndexAt(dims, q);
    InverseTwice(p);
    PermutedWithin(i, dims, p);
    PositionInverse(out, Permuted(i, p));
    SizePositive(out, Position(out, Permuted(i, p)));
    InverseUndoes(i, p);
  }

  lemma InverseTwice(p: Quad)
    requires IsPerm(p)
    ensures Inverse(Inverse(p)) == p
  {
  }

  // ----- Strides -----

  function Strides(dims: Quad): Quad {
    Quad(dims.x1 * dims.x2 * dims.x3, dims.x2 * dims.x3, dims.x3, 1)
  }

  function Dot(i: Quad, s: Quad): nat {
    i.x0 * s.x0 + i.x1 * s.x1 + i.x2 * s.x2 + i.x3 * s.x3
  }

  lemma PositionDot(dims: Quad, i: Quad)
    ensures Position(dims, i) == Dot(i, Strides(dims))
  {
    var m := i.x0 * dims.x1 + i.x1;
    assert m * dims.x2 == i.x0 * (dims.x1 * dims.x2) + i.x1 * dims.x2;
    var n := m * dims.x2 + i.x2;
    assert n * dims.x3 == i.x0 * (dims.x1 * dims.x2 * dims.x3) + i.x1 * (dims.x2 * dims.x3) + i.x2 * dims.x3;
  }

  /** Component j of the index meets the stride of the output dimension it moves to. */
  lemma StridesReindexed(i: Quad, s: Quad, p: Quad)
    requires IsPerm(p)
    ensures Dot(i, Permuted(s, Inverse(p))) == Dot(Permuted(i, p), s)
  {
    var s' := Permuted(s, Inverse(p));
    InverseUndoes(s, p);
    DotPermuted(i, s', p);
  }

  lemma DotPermuted(i: Quad, s: Quad, p: Quad)
    requires IsPerm(p)
    ensures Dot(i, s) == Dot(Permuted(i, p), Permuted(s, p))
  {
    var products := Quad(i.x0 * s.x0, i.x1 * s.x1, i.x2 * s.x2, i.x3 * s.x3);
    SumPermuted(products, p);
    forall k | 0 <= k < 4 ensures products.At(k) == i.At(k) * s.At(k) {}
  }

  function Sum(q: Quad): nat { q.x0 + q.x1 + q.x2 + q.x3 }

  lemma SumPermuted(q: Quad, p: Quad)
    requires IsPerm(p)
    ensures Sum(Permuted(q, p)) == Sum(q)
  {
  }

  // ----- The strided loop -----

  /** Exactly the elements at input positions lo..hi have been written, each to its destination. */
  ghost predicate Written<T>(a: seq<T>, was: seq<T>, b: seq<T>, dims: Quad, p: Quad, lo: nat, hi: nat)
    requires IsPerm(p) && |a| == |was| == |b| == Size(dims)
  {
    forall q :: 0 <= q < |b| ==> b[q] == if lo <= Source(dims, p, q) < hi then a[Source(dims, p, q)] else was[q]
  }

  lemma WriteOne<T>(a: seq<T>, was: seq<T>, b: seq<T>, dims: Quad, p: Quad, lo: nat, n: nat)
    requires IsPerm(p) && |a| == |was| == |b| == Size(dims) && lo <= n < Size(dims)
    requires Written(a, was, b, dims, p, lo, n)
    ensures Written(a, was, b[Destination(dims, p, n) := a[n]], dims, p, lo, n + 1)
  {
    hide Source, Destination, Size, IsPerm;
    var b' := b[Destination(dims, p, n) := a[n]];
    SourceDestination(dims, p, n);
    forall q | 0 <= q < |b|
      ensures b'[q] == if lo <= Source(dims, p, q) < n + 1 then a[Source(dims, p, q)] else was[q]
    {
      SourceDestination(dims, p, q);
    }
  }

  lemma Carry(dims: Quad, i: Quad)
    ensures Position(dims, Quad(i.x0, i.x1, i.x2, i.x3 + 1)) == Position(dims, i) + 1
    ensures Position(dims, Quad(i.x0, i.x1, i.x2, dims.x3)) == Position(dims, Quad(i.x0, i.x1, i.x2 + 1, 0))
    ensures Position(dims, Quad(i.x0, i.x1, dims.x2, 0)) == Position(dims, Quad(i.x0, i.x1 + 1, 0, 0))
    ensures Position(dims, Quad(i.x0, dims.x1, 0, 0)) == Position(dims, Quad(i.x0 + 1, 0, 0, 0))
  {
  }

  lemma StartOf(dims: Quad, i0: nat)
    ensures Position(dims, Quad(i0, 0, 0, 0)) == i0 * (dims.x1 * dims.x2 * dims.x3)
  {
    PositionDot(dims, Quad(i0, 0, 0, 0));
  }

  /** The strides find an element and its destination. */
  lemma StridesFind(dims: Quad, p: Quad, i: Quad)
    requires IsPerm(p) && i.Within(dims)
    ensures Dot(i, Strides(dims)) == Position(dims, i) < Size(dims)
    ensures Dot(i, Permuted(Strides(Permuted(dims, p)), Inverse(p))) == Destination(dims, p, Position(dims, i))
  {
    hide Flat, IndexAt, Permuted, Inverse, IsPerm, Size, Position, Dot, Strides;
    PositionInverse(dims, i);
    SizePositive(dims, Position(dims, i));
    PositionDot(dims, i);
    PositionDot(Permuted(dims, p), Permuted(i, p));
    StridesReindexed(i, Strides(Permuted(dims, p)), p);
  }

  /** The innermost loop. */
  method TransposeRow<T>(a: seq<T>, b: array<T>, dims: Quad, p: Quad, i0: nat, i1: nat, i2: nat, aStride: Quad,
                         permBStride: Quad, ghost was: seq<T>, ghost lo: nat)
    requires IsPerm(p) && |a| == |was| == b.Length == Size(dims)
    requires i0 < dims.x0 && i1 < dims.x1 && i2 < dims.x2 && lo <= Position(dims, Quad(i0, i1, i2, 0))
    requires aStride == Strides(dims) && permBStride == Permuted(Strides(Permuted(dims, p)), Inverse(p))
    requires Written(a, was, b[..], dims, p, lo, Position(dims, Quad(i0, i1, i2, 0)))
    modifies b
    ensures Written(a, was, b[..], dims, p, lo, Position(dims, Quad(i0, i1, i2 + 1, 0)))
  {
    hide Position, Written, Size, IsPerm, Permuted, Inverse, Destination, Strides;
    var i3 := 0;
    while i3 < dims.x3
      invariant i3 <= dims.x3 && lo <= Position(dims, Quad(i0, i1, i2, i3))
      invariant Written(a, was, b[..], dims, p, lo, Position(dims, Quad(i0, i1, i2, i3)))
    {
      ghost var i := Quad(i0, i1, i2, i3);
      StridesFind(dims, p, i);
      Carry(dims, i);
      WriteOne(a, was, b[..], dims, p, lo, Position(dims, i));
      var bi := i0 * permBStride.x0 + i1 * permBStride.x1 + i2 * permBStride.x2 + i3 * permBStride.x3;
      var ai := i0 * aStride.x0 + i1 * aStride.x1 + i2 * aStride.x2 + i3 * aStride.x3;
      assert ai == Dot(i, aStride) && bi == Dot(i, permBStride);
      ghost var before := b[..];
      b[bi] := a[ai];
      assert b[..] == before[bi := a[ai]];
      i3 := i3 + 1;
    }
    Carry(dims, Quad(i0, i1, i2, 0));
  }

  /** The body of the parallel loop: outer indices begin..end. */
  method TransposeChunk<T>(a: seq<T>, b: array<T>, dims: Quad, p: Quad, begin: nat, end: nat)
    requires IsPerm(p) && |a| == b.Length == Size(dims) && begin <= end <= dims.x0
    modifies b
    ensures Written(a, old(b[..]), b[..], dims, p, Position(dims, Quad(begin, 0, 0, 0)),
                    Position(dims, Quad(end, 0, 0, 0)))
  {
    hide Position, Size, IsPerm, Permuted, Inverse, Source, Strides;
    var permInd := Inverse(p);
    var aStride := Strides(dims);
    var bStride := Strides(Permuted(dims, p));
    var permBStride := Permuted(bStride, permInd);
    ghost var was := b[..];
    ghost var lo := Position(dims, Quad(begin, 0, 0, 0));
    var i0 := begin;
    while i0 < end
      invariant begin <= i0 <= end && lo <= Position(dims, Quad(i0, 0, 0, 0))
      invariant Written(a, was, b[..], dims, p, lo, Position(dims, Quad(i0, 0, 0, 0)))
    {
      TransposeSlice(a, b, dims, p, i0, aStride, permBStride, was, lo);
      i0 := i0 + 1;
    }
  }

  /** The two middle loops. */
  method TransposeSlice<T>(a: seq<T>, b: array<T>, dims: Quad, p: Quad, i0: nat, aStride: Quad, permBStride: Quad,
                           ghost was: seq<T>, ghost lo: nat)
    requires IsPerm(p) && |a| == |was| == b.Length == Size(dims) && i0 < dims.x0
    requires lo <= Position(dims, Quad(i0, 0, 0, 0))
    requires aStride == Strides(dims) && permBStride == Permuted(Strides(Permuted(dims, p)), Inverse(p))
    requires Written(a, was, b[..], dims, p, lo, Position(dims, Quad(i0, 0, 0, 0)))
    modifies b
    ensures lo <= Position(dims, Quad(i0 + 1, 0, 0, 0))
    ensures Written(a, was, b[..], dims, p, lo, Position(dims, Quad(i0 + 1, 0, 0, 0)))
  {
    hide Position, Written, Size, IsPerm, Permuted, Inverse, Strides;
    var i1 := 0;
    while i1 < dims.x1
      invariant i1 <= dims.x1 && lo <= Position(dims, Quad(i0, i1, 0, 0))
      invariant Written(a, was, b[..], dims, p, lo, Position(dims, Quad(i0, i1, 0, 0)))
    {
      var i2 := 0;
      while i2 < dims.x2
        invariant i2 <= dims.x2 && lo <= Position(dims, Quad(i0, i1, i2, 0))
        invariant Written(a, was, b[..], dims, p, lo, Position(dims, Quad(i0, i1, i2, 0)))
      {
        TransposeRow(a, b, dims, p, i0, i1, i2, aStride, permBStride, was, lo);
        Further(dims, i0, i1, i2);
        i2 := i2 + 1;
      }
      Carry(dims, Quad(i0, i1, 0, 0));
      i1 := i1 + 1;
    }
    Carry(dims, Quad(i0, 0, 0, 0));
  }

  lemma Further(dims: Quad, i0: nat, i1: nat, i2: nat)
    ensures Position(dims, Quad(i0, i1, i2, 0)) <= Position(dims, Quad(i0, i1, i2 + 1, 0))
  {
    Carry(dims, Quad(i0, i1, i2, 0));
  }

  // ----- The block copy for permutation (0, 2, 1, 3) -----

  const HEADS_PERM := Quad(0, 2, 1, 3)

  /** The input offset of block j of outer index i. */
  function BlockStart(dims: Quad, i: nat, j: nat): nat {
    dims.x3 * (i * dims.x2 * dims.x1 + j)
  }

  lemma BlockPosition(dims: Quad, i: nat, i1: nat, i2: nat, e: nat)
    ensures Position(dims, Quad(i, i1, i2, e)) == BlockStart(dims, i, Flat(i1, i2, dims.x2)) + e
  {
    Rearranged(i, dims.x1, i1, dims.x2);
    assert Flat(Flat(i, i1, dims.x1), i2, dims.x2) == i * dims.x2 * dims.x1 + Flat(i1, i2, dims.x2);
  }

  lemma Rearranged(i: nat, m: nat, k: nat, n: nat)
    ensures (i * m + k) * n == i * n * m + k * n
  {
  }

  lemma BlockOutput(dims: Quad, i: nat, i1: nat, i2: nat, e: nat)
    ensures Position(Permuted(dims, HEADS_PERM), Quad(i, i2, i1, e))
            == dims.x3 * (i * dims.x2 * dims.x1 + i1 + i2 * dims.x1) + e
  {
    Rearranged(i, dims.x2, i2, dims.x1);
  }

  /** Element e of block j goes where the strided loop would put it. */
  lemma BlockDestination(dims: Quad, i: nat, j: nat, e: nat)
    requires i < dims.x0 && j < dims.x2 * dims.x1 && e < dims.x3 && dims.x2 > 0
    ensures BlockStart(dims, i, j) + e < Size(dims)
    ensures Destination(dims, HEADS_PERM, BlockStart(dims, i, j) + e)
            == dims.x3 * (i * dims.x2 * dims.x1 + j / dims.x2 + (j % dims.x2) * dims.x1) + e
  {
    hide Flat, IndexAt, Size, Position, BlockStart;
    FlatIdInRange(j, dims.x1, dims.x2);
    var idx := Quad(i, j / dims.x2, j % dims.x2, e);
    BlockPosition(dims, i, idx.x1, idx.x2, e);
    BlockOutput(dims, i, idx.x1, idx.x2, e);
    PositionInverse(dims, idx);
    SizePositive(dims, Position(dims, idx));
  }

  /** `copy(a + a_offset, b + b_offset, depth)` for one block. */
  method CopyBlock<T>(a: seq<T>, b: array<T>, dims: Quad, i: nat, j: nat,
                      bOffset: nat, ghost was: seq<T>, ghost lo: nat)
    requires |a| == |was| == b.Length == Size(dims) && i < dims.x0 && j < dims.x2 * dims.x1 && dims.x2 > 0
    requires lo <= BlockStart(dims, i, j)
    requires bOffset == dims.x3 * (i * dims.x2 * dims.x1 + j / dims.x2 + (j % dims.x2) * dims.x1)
    requires Written(a, was, b[..], dims, HEADS_PERM, lo, BlockStart(dims, i, j))
    modifies b
    ensures Written(a, was, b[..], dims, HEADS_PERM, lo, BlockStart(dims, i, j) + dims.x3)
  {
    hide Written, Size, Destination, BlockStart;
    var aOffset := BlockStart(dims, i, j);
    var e := 0;
    while e < dims.x3
      invariant e <= dims.x3
      invariant Written(a, was, b[..], dims, HEADS_PERM, lo, aOffset + e)
    {
      BlockDestination(dims, i, j, e);
      WriteOne(a, was, b[..], dims, HEADS_PERM, lo, aOffset + e);
      ghost var before := b[..];
      b[bOffset + e] := a[aOffset + e];
      assert b[..] == before[bOffset + e := a[aOffset + e]];
      e := e + 1;
    }
  }

  lemma NextBlock(dims: Quad, i: nat, j: nat)
    ensures BlockStart(dims, i, j + 1) == BlockStart(dims, i, j) + dims.x3
    ensures BlockStart(dims, i, dims.x2 * dims.x1) == BlockStart(dims, i + 1, 0)
    ensures Position(dims, Quad(i, 0, 0, 0)) == BlockStart(dims, i, 0)
  {
    assert (i + 1) * dims.x2 * dims.x1 == i * dims.x2 * dims.x1 + dims.x2 * dims.x1;
    BlockPosition(dims, i, 0, 0, 0);
  }

  lemma SomeBlock(dims: Quad, j: nat)
    requires j < dims.x2 * dims.x1
    ensures dims.x2 > 0
  {
  }

  /** The blocks of one outer index. */
  method CopyBlocks<T>(a: seq<T>, b: array<T>, dims: Quad, i: nat, ghost was: seq<T>, ghost lo: nat)
    requires |a| == |was| == b.Length == Size(dims) && i < dims.x0 && lo <= BlockStart(dims, i, 0)
    requires Written(a, was, b[..], dims, HEADS_PERM, lo, BlockStart(dims, i, 0))
    modifies b
    ensures Written(a, was, b[..], dims, HEADS_PERM, lo, BlockStart(dims, i + 1, 0)) && lo <= BlockStart(dims, i + 1, 0)
  {
    hide Written, Size, BlockStart;
    var r1, r2 := dims.x2, dims.x1;
    NextBlock(dims, i, 0);
    var j := 0;
    while j < r1 * r2
      invariant j <= r1 * r2 && lo <= BlockStart(dims, i, j)
      invariant Written(a, was, b[..], dims, HEADS_PERM, lo, BlockStart(dims, i, j))
    {
      SomeBlock(dims, j);
      CopyBlock(a, b, dims, i, j, dims.x3 * (i * r1 * r2 + j / r1 + (j % r1) * r2), was, lo);
      NextBlock(dims, i, j);
      j := j + 1;
    }
  }

  /** The body of the parallel loop in the optimised path. */
  method TransposeHeads<T>(a: seq<T>, b: array<T>, dims: Quad, begin: nat, end: nat)
    requires |a| == b.Length == Size(dims) && begin <= end <= dims.x0
    modifies b
    ensures Written(a, old(b[..]), b[..], dims, HEADS_PERM,
                    Position(dims, Quad(begin, 0, 0, 0)), Position(dims, Quad(end, 0, 0, 0)))
  {
    hide Position, Size, Source, BlockStart;
    ghost var was := b[..];
    ghost var lo := BlockStart(dims, begin, 0);
    var i := begin;
    while i < end
      invariant begin <= i <= end && lo <= BlockStart(dims, i, 0)
      invariant Written(a, was, b[..], dims, HEADS_PERM, lo, BlockStart(dims, i, 0))
    {
      CopyBlocks(a, b, dims, i, was, lo);
      i := i + 1;
    }
    NextBlock(dims, begin, 0);
    NextBlock(dims, end, 0);
  }

  // ----- All chunks -----

  lemma OuterIndex(dims: Quad, n: nat, begin: nat, end: nat)
    requires n < Size(dims) && dims.x1 > 0 && dims.x2 > 0 && dims.x3 > 0
    ensures begin <= IndexAt(dims, n).x0 < end
            <==> Position(dims, Quad(begin, 0, 0, 0)) <= n < Position(dims, Quad(end, 0, 0, 0))
  {
    hide Position, IndexAt, Flat, Size;
    AtLeastOuter(dims, n, begin);
    AtLeastOuter(dims, n, end);
  }

  lemma AtLeastOuter(dims: Quad, n: nat, i0: nat)
    requires n < Size(dims) && dims.x1 > 0 && dims.x2 > 0 && dims.x3 > 0
    ensures i0 <= IndexAt(dims, n).x0 <==> Position(dims, Quad(i0, 0, 0, 0)) <= n
  {
    hide Position, IndexAt, Flat, Size;
    var i := IndexAt(dims, n);
    IndexInverse(dims, n);
    RestBelow(dims, i);
    StartOf(dims, i0);
    if i.x0 < i0 {
      ProductMonotone(i.x0 + 1, i0, dims.x1 * dims.x2 * dims.x3);
    } else {
      ProductMonotone(i0, i.x0, dims.x1 * dims.x2 * dims.x3);
    }
  }

  lemma RestBelow(dims: Quad, i: Quad)
    requires i.Within(dims)
    ensures var s := dims.x1 * dims.x2 * dims.x3;
            i.x0 * s <= Position(dims, i) < i.x0 * s + s
  {
    var first := Quad(0, i.x1, i.x2, i.x3);
    PositionDot(dims, i);
    PositionDot(dims, first);
    PositionInverse(Quad(1, dims.x1, dims.x2, dims.x3), first);
  }

  /** Slots whose source belongs to a thread in `done` hold their element; the others are as before. */
  ghost predicate ChunksWritten<T>(a: seq<T>, was: seq<T>, b: seq<T>, dims: Quad, p: Quad, team: nat, done: seq<nat>)
    requires IsPerm(p) && |a| == |was| == |b| == Size(dims) && team > 0
  {
    forall q :: 0 <= q < |b| ==>
      b[q] == if Owner(dims, team, Source(dims, p, q)) in done then a[Source(dims, p, q)] else was[q]
  }

  /** The thread that runs the outer index of input position n. */
  ghost function Owner(dims: Quad, team: nat, n: nat): (tid: nat)
    requires n < Size(dims) && team > 0
    ensures tid < team
  {
    SizePositive(dims, n);
    IndexInverse(dims, n);
    ChunksPartition(0, dims.x0, 1, team, IndexAt(dims, n).x0);
    IndexAt(dims, n).x0 / ChunkSize(dims.x0, 1, team)
  }

  lemma OwnerRuns(dims: Quad, team: nat, n: nat, tid: nat)
    requires n < Size(dims) && team > 0 && dims.x0 > 0
    ensures var chunk := ChunkOf(0, dims.x0, 1, team, tid);
            Position(dims, Quad(chunk.begin, 0, 0, 0)) <= n < Position(dims, Quad(chunk.end, 0, 0, 0))
            <==> tid == Owner(dims, team, n)
  {
    hide Position, IndexAt, Size, ChunkOf, ChunkSize;
    SizePositive(dims, n);
    IndexInverse(dims, n);
    ChunksPartition(0, dims.x0, 1, team, IndexAt(dims, n).x0);
    var chunk := ChunkOf(0, dims.x0, 1, team, tid);
    OuterIndex(dims, n, chunk.begin, chunk.end);
  }

  lemma ChunkAdded<T>(a: seq<T>, was: seq<T>, before: seq<T>, after: seq<T>, dims: Quad, p: Quad, team: nat,
                      done: seq<nat>, tid: nat)
    requires IsPerm(p) && |a| == |was| == |before| == |after| == Size(dims) && team > 0 && dims.x0 > 0
    requires ChunksWritten(a, was, before, dims, p, team, done)
    requires var chunk := ChunkOf(0, dims.x0, 1, team, tid);
             Written(a, before, after, dims, p, Position(dims, Quad(chunk.begin, 0, 0, 0)),
                     Position(dims, Quad(chunk.end, 0, 0, 0)))
    ensures ChunksWritten(a, was, after, dims, p, team, done + [tid])
  {
    hide Position, Size, Source, ChunkOf, Owner, IsPerm;
    forall q | 0 <= q < |after|
      ensures after[q] == if Owner(dims, team, Source(dims, p, q)) in done + [tid] then a[Source(dims, p, q)]
                          else was[q]
    {
      OwnerRuns(dims, team, Source(dims, p, q), tid);
    }
  }

  /** Both paths give the transposition, whatever the number of threads and the order of their chunks. */
  method Transpose4d<T>(a: seq<T>, dims: Quad, perm: Quad, b: array<T>, team: nat, order: seq<nat>)
    requires IsPerm(perm) && |a| == b.Length == Size(dims) && team > 0 && IsPermutation(order, team)
    modifies b
    ensures b[..] == Transposed(a, dims, perm)
  {
    hide Position, Size, Source, ChunkOf, Owner, IsPerm, Written;
    if dims.x0 == 0 {
      NoElements(dims);
      return;
    }
    ghost var was := b[..];
    var k := 0;
    while k < |order|
      invariant k <= |order|
      invariant ChunksWritten(a, was, b[..], dims, perm, team, order[..k])
    {
      var chunk := ChunkOf(0, dims.x0, 1, team, order[k]);
      ChunkInside(0, dims.x0, 1, team, order[k]);
      ghost var before := b[..];
      if perm == HEADS_PERM {
        TransposeHeads(a, b, dims, chunk.begin, chunk.end);
      } else {
        TransposeChunk(a, b, dims, perm, chunk.begin, chunk.end);
      }
      ChunkAdded(a, was, before, b[..], dims, perm, team, order[..k], order[k]);
      assert order[..k + 1] == order[..k] + [order[k]];
      k := k + 1;
    }
    assert order[..k] == order;
    forall q | 0 <= q < |a| ensures b[q] == a[Source(dims, perm, q)] {
      PermutationOnto(order, team, Owner(dims, team, Source(dims, perm, q)));
    }
  }

  lemma NoElements(dims: Quad)
    requires dims.x0 == 0
    ensures Size(dims) == 0
  {
  }
}
