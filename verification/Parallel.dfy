/** Chunks of a parallel loop: `parallel_for` in src/cpu/parallel.h with OpenMP. */
module Parallel {
  import opened RowMajor

  /** `ceil_divide` (include/ctranslate2/utils.h). */
  function CeilDivide(x: nat, y: nat): nat
    requires y > 0
  {
    (x + (y - 1)) / y
  }

  /** The least count of y-sized parts that hold x. */
  lemma CeilDivideLeast(x: nat, y: nat)
    requires y > 0
    ensures CeilDivide(x, y) * y >= x
    ensures forall n: nat :: n * y >= x ==> n >= CeilDivide(x, y)
    ensures x > 0 ==> CeilDivide(x, y) > 0
  {
    var q := CeilDivide(x, y);
    assert x + (y - 1) == q * y + (x + (y - 1)) % y;
    forall n: nat | n * y >= x ensures n >= q {
      if n < q {
        ProductMonotone(n + 1, q, y);
      }
    }
  }

  datatype Chunk = Chunk(begin: nat, end: nat) {
    predicate Holds(i: nat) { begin <= i < end }
  }

  /** The number of threads that get a chunk. */
  function NumThreads(size: nat, grainSize: nat, team: nat): (r: nat)
    requires size > 0 && team > 0
    ensures 0 < r <= team
  {
    CeilDivideLeast(size, if grainSize > 0 then grainSize else 1);
    if grainSize > 0 && CeilDivide(size, grainSize) < team then CeilDivide(size, grainSize) else team
  }

  /** The size of the chunks: enough for the team to cover the range. */
  function ChunkSize(size: nat, grainSize: nat, team: nat): (r: nat)
    requires size > 0 && team > 0
    ensures r > 0 && team * r >= size
  {
    var numThreads := NumThreads(size, grainSize, team);
    CeilDivideLeast(size, numThreads);
    ProductMonotone(numThreads, team, CeilDivide(size, numThreads));
    CeilDivide(size, numThreads)
  }

  /** What thread `tid` of a team runs; an empty chunk is not run at all. */
  function ChunkOf(begin: nat, end: nat, grainSize: nat, team: nat, tid: nat): Chunk
    requires begin < end && team > 0
  {
    var chunkSize := ChunkSize(end - begin, grainSize, team);
    var beginTid := begin + tid * chunkSize;
    if beginTid < end then Chunk(beginTid, if chunkSize + beginTid < end then chunkSize + beginTid else end)
    else Chunk(end, end)
  }

  /** Each index of the loop is in the chunk of exactly one thread, whatever the team and the grain size. */
  lemma ChunksPartition(begin: nat, end: nat, grainSize: nat, team: nat, i: nat)
    requires begin <= i < end && team > 0
    ensures var owner := (i - begin) / ChunkSize(end - begin, grainSize, team);
            && owner < team
            && forall tid: nat :: ChunkOf(begin, end, grainSize, team, tid).Holds(i) <==> tid == owner
  {
    hide ChunkSize, Flat;
    var size := ChunkSize(end - begin, grainSize, team);
    var owner := (i - begin) / size;
    FlatIdInRange(i - begin, team, size);
    forall tid: nat ensures ChunkOf(begin, end, grainSize, team, tid).Holds(i) <==> tid == owner {
      OwnerIff(i - begin, size, tid);
    }
  }

  /** The team, or as many threads as there are grains if that is less. */
  lemma NumThreadsGreatest(size: nat, grainSize: nat, team: nat, threads: nat)
    requires size > 0 && 0 < team
    ensures threads <= NumThreads(size, grainSize, team)
       <==> threads <= team && (grainSize > 0 ==> forall n: nat :: n * grainSize >= size ==> threads <= n)
  {
    hide CeilDivide;
    if grainSize > 0 {
      CeilDivideLeast(size, grainSize);
      if forall n: nat :: n * grainSize >= size ==> threads <= n {
        assert CeilDivide(size, grainSize) * grainSize >= size;
      }
    }
  }

  /** A thread has work only if the team has it and the grains before it do not cover the loop. */
  lemma ChunksByGrain(begin: nat, end: nat, grainSize: nat, team: nat, tid: nat)
    requires begin < end && team > 0
    ensures var chunk := ChunkOf(begin, end, grainSize, team, tid);
            chunk.begin < chunk.end ==> tid < team && tid * grainSize < end - begin
  {
    hide CeilDivide, NumThreads;
    var size := end - begin;
    var chunk := ChunkOf(begin, end, grainSize, team, tid);
    if chunk.begin < chunk.end {
      var numThreads := NumThreads(size, grainSize, team);
      CeilDivideLeast(size, numThreads);
      if tid >= numThreads {
        ProductMonotone(numThreads, tid, CeilDivide(size, numThreads));
        assert false;
      }
      NumThreadsGreatest(size, grainSize, team, numThreads);
    }
  }

  /** The chunks are the smallest that cover the loop with that many threads. */
  lemma ChunksBalanced(begin: nat, end: nat, grainSize: nat, team: nat, threads: nat, size: nat)
    requires begin < end && team > 0 && threads * size >= end - begin
    requires threads <= team && (grainSize > 0 ==> forall n: nat :: n * grainSize >= end - begin ==> threads <= n)
    ensures ChunkSize(end - begin, grainSize, team) <= size
  {
    hide CeilDivide, NumThreads;
    var n := end - begin;
    var numThreads := NumThreads(n, grainSize, team);
    NumThreadsGreatest(n, grainSize, team, threads);
    ProductMonotone(threads, numThreads, size);
    CeilDivideLeast(n, numThreads);
    assert numThreads * size == size * numThreads;
  }

  lemma OwnerIff(i: nat, size: nat, tid: nat)
    requires size > 0
    ensures tid * size <= i < tid * size + size <==> tid == i / size
  {
    if tid < i / size {
      ProductMonotone(tid + 1, i / size, size);
    } else if i / size < tid {
      ProductMonotone(i / size + 1, tid, size);
    }
  }

  /** Chunks stay inside the loop's range. */
  lemma ChunkInside(begin: nat, end: nat, grainSize: nat, team: nat, tid: nat)
    requires begin < end && team > 0
    ensures var chunk := ChunkOf(begin, end, grainSize, team, tid);
            begin <= chunk.begin <= chunk.end <= end
  {
    hide ChunkSize;
  }
}
