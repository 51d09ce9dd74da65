/** Batch readers and `rebatch_input`: src/batch_reader.cc, include/ctranslate2/batch_reader.h. */
module Batching {
  import opened Vectors

  datatype BatchType = Examples | Tokens

  /** A collection of parallel token streams (source, target, ...). */
  datatype Example = Example(streams: seq<seq<string>>) {
    predicate Empty() { streams == [] }

    function Length(index: nat := 0): nat {
      if index >= |streams| then 0 else |streams[index]|
    }
  }

  datatype Batch = Batch(examples: seq<Example>, exampleIndex: seq<nat>)

  datatype Result<T> = Ok(value: T) | InvalidArgument

  function Increment(e: Example, batchType: BatchType): nat {
    match batchType
    case Tokens => e.Length()
    case Examples => 1
  }

  function Max(a: nat, b: nat): nat { if a < b then b else a }

  function Longest(s: seq<Example>, batchType: BatchType): nat {
    if s == [] then 0 else Max(Longest(s[..|s| - 1], batchType), Increment(s[|s| - 1], batchType))
  }

  function Total(s: seq<Example>, batchType: BatchType): nat {
    if s == [] then 0 else Total(s[..|s| - 1], batchType) + Increment(s[|s| - 1], batchType)
  }

  /** The size that is compared with the limit: padded area, or plain total. */
  function Size(s: seq<Example>, batchType: BatchType, padded: bool): nat {
    if padded then |s| * Longest(s, batchType) else Total(s, batchType)
  }

  /** A batch may hold one example of any size; more than one must fit the limit. */
  ghost predicate Fits(s: seq<Example>, limit: nat, batchType: BatchType, padded: bool) {
    |s| == 1 || (|s| > 1 && Size(s, batchType, padded) <= limit)
  }

  /** c is the longest prefix of s that the reader can take as one batch. */
  ghost predicate IsGreedyCut(s: seq<Example>, c: nat, limit: nat, batchType: BatchType, padded: bool) {
    && 1 <= c <= |s| && Fits(s[..c], limit, batchType, padded)
    && (c < |s| ==> !Fits(s[..c + 1], limit, batchType, padded))
  }

  // ----- The same, measured on the first stream -----

  /** The length of the first stream, 0 without streams. */
  function SourceLength(e: Example): nat {
    if e.streams == [] then 0 else |e.streams[0]|
  }

  function Words(s: seq<Example>): nat {
    if s == [] then 0 else Words(s[..|s| - 1]) + SourceLength(s[|s| - 1])
  }

  /** More than one example: their number is within a limit in examples; within one in tokens is the number times
      the length of each of them when they are padded, and else the sum of the lengths. */
  ghost predicate Within(s: seq<Example>, limit: nat, batchType: BatchType, padded: bool) {
    if batchType == Examples then |s| <= limit
    else if padded then forall e :: e in s ==> |s| * SourceLength(e) <= limit
    else Words(s) <= limit
  }

  /** The first c examples are one or within the limit, and one more would exceed it. */
  ghost predicate LongestWithin(s: seq<Example>, c: nat, limit: nat, batchType: BatchType, padded: bool) {
    && 1 <= c <= |s|
    && (c > 1 ==> Within(s[..c], limit, batchType, padded))
    && (c < |s| ==> !Within(s[..c + 1], limit, batchType, padded))
  }

  lemma {:induction false} LongestOfAll(s: seq<Example>, batchType: BatchType, bound: nat)
    ensures Longest(s, batchType) <= bound <==>
              forall e :: e in s ==> (if batchType == Examples then 1 else SourceLength(e)) <= bound
  {
    if s != [] {
      var m := |s| - 1;
      LongestOfAll(s[..m], batchType, bound);
      assert s[m] in s && Increment(s[m], batchType) == if batchType == Examples then 1 else SourceLength(s[m]);
      assert forall e :: e in s <==> e in s[..m] || e == s[m];
    }
  }

  lemma {:induction false} TotalOfAll(s: seq<Example>, batchType: BatchType)
    ensures Total(s, batchType) == if batchType == Examples then |s| else Words(s)
  {
    if s != [] { TotalOfAll(s[..|s| - 1], batchType); }
  }

  lemma {:induction false} LongestReached(s: seq<Example>) returns (e: Example)
    requires s != []
    ensures e in s && SourceLength(e) == Longest(s, Tokens)
  {
    var m := |s| - 1;
    e := s[m];
    if m > 0 {
      var e' := LongestReached(s[..m]);
      if Increment(s[m], Tokens) < Longest(s[..m], Tokens) {
        e := e';
      }
    } else {
      assert s[..m] == [];
    }
  }

  /** The size that is compared is within the limit exactly when this is so. */
  lemma SizeWithin(s: seq<Example>, limit: nat, batchType: BatchType, padded: bool)
    requires s != []
    ensures Size(s, batchType, padded) <= limit <==> Within(s, limit, batchType, padded)
  {
    hide Longest, Total;
    if !padded {
      TotalOfAll(s, batchType);
    } else if batchType == Examples {
      LongestOfAll(s, batchType, 1);
      LongestOfAll(s, batchType, 0);
      assert s[0] in s;
    } else {
      LongestOfAll(s, batchType, Longest(s, batchType));
      var e := LongestReached(s);
      forall e' | e' in s ensures |s| * SourceLength(e') <= |s| * SourceLength(e) {
        AreaMonotone(|s|, SourceLength(e'), |s|, SourceLength(e));
      }
    }
  }

  lemma AreaMonotone(w0: nat, h0: nat, w1: nat, h1: nat)
    requires w0 <= w1 && h0 <= h1
    ensures w0 * h0 <= w1 * h1
  {
    assert w0 * h0 <= w0 * h1;
    assert w0 * h1 <= w1 * h1;
  }

  /** A greedy cut is the longest prefix within the limit. */
  lemma GreedyCutIff(s: seq<Example>, c: nat, limit: nat, batchType: BatchType, padded: bool)
    ensures IsGreedyCut(s, c, limit, batchType, padded) <==> LongestWithin(s, c, limit, batchType, padded)
  {
    hide Size, Within;
    if 1 <= c <= |s| {
      SizeWithin(s[..c], limit, batchType, padded);
      if c < |s| {
        SizeWithin(s[..c + 1], limit, batchType, padded);
      }
    }
  }

  /** The examples that a reader delivers: those before the first one without streams. */
  function Ready(s: seq<Example>): (r: seq<Example>)
    ensures r <= s
    ensures forall k :: 0 <= k < |r| ==> !r[k].Empty()
    ensures |r| < |s| ==> s[|r|].Empty()
  {
    if s == [] || s[0].Empty() then [] else [s[0]] + Ready(s[1..])
  }

  lemma PrefixGrows(s: seq<Example>, k: nat, batchType: BatchType)
    requires k < |s|
    ensures Longest(s[..k + 1], batchType) == Max(Longest(s[..k], batchType), Increment(s[k], batchType))
    ensures Total(s[..k + 1], batchType) == Total(s[..k], batchType) + Increment(s[k], batchType)
  {
    assert s[..k + 1][..k] == s[..k];
  }

  lemma NothingYet(s: seq<Example>, batchType: BatchType)
    ensures Longest(s[..0], batchType) == 0 && Total(s[..0], batchType) == 0
  {
  }

  /** r is what remains deliverable of s from position i on. */
  ghost predicate IsReady(s: seq<Example>, i: nat, r: seq<Example>) {
    && i + |r| <= |s|
    && (forall k :: 0 <= k < |r| ==> r[k] == s[i + k] && !r[k].Empty())
    && (i + |r| < |s| ==> s[i + |r|].Empty())
  }

  /** Reading one more example. */
  lemma IsReadyNext(s: seq<Example>, i: nat, r: seq<Example>)
    requires IsReady(s, i, r)
    ensures i < |s| && !s[i].Empty() ==> r != [] && r[0] == s[i] && IsReady(s, i + 1, r[1..])
    ensures i >= |s| || s[i].Empty() ==> r == []
  {
    if r != [] {
      assert r[0] == s[i];
      assert forall k :: 0 <= k < |r[1..]| ==> r[1..][k] == r[k + 1] == s[i + 1 + k];
    }
  }

  class VectorReader {
    var examples: seq<Example>
    var index: nat
    var initialized: bool
    var next: Example
    /** What the reader has still to deliver. */
    ghost var remaining: seq<Example>

    ghost predicate Valid()
      reads this
    {
      && index <= |examples|
      && (if !initialized then IsReady(examples, index, remaining)
          else if next.Empty() then remaining == []
          else |remaining| > 0 && remaining[0] == next && IsReady(examples, index, remaining[1..]))
    }

    constructor (examples: seq<Example>)
      ensures Valid() && remaining == Ready(examples)
    {
      this.examples := examples;
      index := 0;
      initialized := false;
      next := Example([]);
      remaining := Ready(examples);
    }

    lemma NoneEmpty()
      requires Valid()
      ensures forall i :: 0 <= i < |remaining| ==> !remaining[i].Empty()
    {
      if initialized {
        forall i | 0 <= i < |remaining| ensures !remaining[i].Empty() {
          if i > 0 { assert remaining[1..][i - 1] == remaining[i]; }
        }
      }
    }

    method GetNextExample() returns (e: Example)
      requires index <= |examples|
      modifies this`index
      ensures index == if old(index) < |examples| then old(index) + 1 else old(index)
      ensures e == if old(index) < |examples| then examples[old(index)] else Example([])
    {
      if index >= |examples| {
        return Example([]);
      }
      e := examples[index];
      index := index + 1;
    }

    /** The reader's `_next = get_next_example()` after `_next` has been moved into a batch. */
    method Advance()
      requires Valid() && initialized && !next.Empty()
      modifies this`index, this`next, this`remaining
      ensures Valid() && remaining == old(remaining)[1..]
    {
      hide IsReady;
      IsReadyNext(examples, index, remaining[1..]);
      remaining := remaining[1..];
      next := GetNextExample();
    }

    method FillFixed(limit: nat, batchType: BatchType) returns (batch: seq<Example>)
      requires Valid() && initialized && !next.Empty()
      modifies this`index, this`next, this`remaining
      ensures Valid() && initialized
      ensures IsGreedyCut(old(remaining), |batch|, limit, batchType, true)
      ensures batch + remaining == old(remaining)
    {
      hide IsReady, Longest;
      NothingYet(remaining, batchType);
      batch := [];
      var maxIncrement := 0;
      ghost var all := remaining;
      while !next.Empty()
        invariant Valid() && initialized
        invariant |batch| <= |all| && batch == all[..|batch|] && remaining == all[|batch|..]
        invariant maxIncrement == Longest(all[..|batch|], batchType)
        invariant |batch| > 0 ==> Fits(all[..|batch|], limit, batchType, true)
        invariant |batch| == 0 ==> !next.Empty()
        decreases |all| - |batch|
      {
        PrefixGrows(all, |batch|, batchType);
        assert next == all[|batch|];
        var curIncrement := Increment(next, batchType);
        maxIncrement := Max(maxIncrement, curIncrement);
        var newSize := (|batch| + 1) * maxIncrement;
        if |batch| > 0 && newSize > limit {
          return;
        }
        batch := batch + [next];
        Advance();
      }
    }

    method FillVariable(limit: nat, batchType: BatchType) returns (batch: seq<Example>)
      requires Valid() && initialized && !next.Empty()
      modifies this`index, this`next, this`remaining
      ensures Valid() && initialized
      ensures IsGreedyCut(old(remaining), |batch|, limit, batchType, false)
      ensures batch + remaining == old(remaining)
    {
      hide IsReady, Total;
      NothingYet(remaining, batchType);
      batch := [];
      var total := 0;
      ghost var all := remaining;
      while !next.Empty()
        invariant Valid() && initialized
        invariant |batch| <= |all| && batch == all[..|batch|] && remaining == all[|batch|..]
        invariant total == Total(all[..|batch|], batchType)
        invariant |batch| > 0 ==> Fits(all[..|batch|], limit, batchType, false)
        invariant |batch| == 0 ==> !next.Empty()
        decreases |all| - |batch|
      {
        PrefixGrows(all, |batch|, batchType);
        assert next == all[|batch|];
        var curIncrement := Increment(next, batchType);
        var newSize := total + curIncrement;
        if |batch| > 0 && newSize > limit {
          return;
        }
        batch := batch + [next];
        total := newSize;
        Advance();
      }
    }

    method GetNext(maxBatchSize: nat, batchType: BatchType := Examples, considerPadding: bool := false)
      returns (r: Result<seq<Example>>)
      requires Valid()
      modifies this
      ensures Valid()
      ensures r.InvalidArgument? <==> maxBatchSize == 0
      ensures r.InvalidArgument? ==> remaining == old(remaining)
      ensures r.Ok? ==> r.value + remaining == old(remaining)
      ensures r.Ok? ==>
        if old(remaining) == [] then r.value == []
        else LongestWithin(old(remaining), |r.value|, maxBatchSize, batchType, considerPadding)
    {
      if maxBatchSize == 0 {
        return InvalidArgument;
      }
      hide IsReady, IsGreedyCut, LongestWithin;
      ghost var all := remaining;
      if !initialized {
        IsReadyNext(examples, index, remaining);
        next := GetNextExample();
        initialized := true;
      }
      if next.Empty() {
        return Ok([]);
      }
      var batch;
      if considerPadding {
        batch := FillFixed(maxBatchSize, batchType);
      } else {
        batch := FillVariable(maxBatchSize, batchType);
      }
      GreedyCutIff(all, |batch|, maxBatchSize, batchType, considerPadding);
      r := Ok(batch);
    }
  }

  // ----- rebatch_input -----

  function Lengths(examples: seq<Example>): (r: seq<real>)
    ensures |r| == |examples| && forall k :: 0 <= k < |r| ==> r[k] == examples[k].Length() as real
  {
    seq(|examples|, k requires 0 <= k < |examples| => examples[k].Length() as real)
  }

  function Parts(batches: seq<Batch>): (r: seq<seq<Example>>)
    ensures |r| == |batches| && forall k :: 0 <= k < |r| ==> r[k] == batches[k].examples
  {
    seq(|batches|, k requires 0 <= k < |batches| => batches[k].examples)
  }

  function Indices(batches: seq<Batch>): (r: seq<seq<nat>>)
    ensures |r| == |batches| && forall k :: 0 <= k < |r| ==> r[k] == batches[k].exampleIndex
  {
    seq(|batches|, k requires 0 <= k < |batches| => batches[k].exampleIndex)
  }

  /** parts cuts s greedily from the left. */
  ghost predicate IsGreedySplit(parts: seq<seq<Example>>, s: seq<Example>, limit: nat, batchType: BatchType) {
    if s == [] then parts == []
    else
      && parts != [] && parts[0] <= s
      && IsGreedyCut(s, |parts[0]|, limit, batchType, true)
      && IsGreedySplit(parts[1..], s[|parts[0]|..], limit, batchType)
  }

  lemma {:induction false} GreedySplitAppend(parts: seq<seq<Example>>, done: seq<Example>, rest: seq<Example>,
                                             part: seq<Example>, limit: nat, batchType: BatchType)
    requires IsGreedyPrefix(parts, done + rest, |done|, limit, batchType)
    requires rest != [] && part <= rest && IsGreedyCut(rest, |part|, limit, batchType, true)
    ensures IsGreedyPrefix(parts + [part], done + rest, |done| + |part|, limit, batchType)
  {
    hide IsGreedyCut;
    var s := done + rest;
    if parts == [] {
      assert s == rest;
      assert (parts + [part])[1..] == [];
    } else {
      var c := |parts[0]|;
      assert s[c..] == done[c..] + rest;
      GreedySplitAppend(parts[1..], done[c..], rest, part, limit, batchType);
      assert (parts + [part])[1..] == parts[1..] + [part];
    }
  }

  /** parts are the greedy cuts of the first n examples of s. */
  ghost predicate IsGreedyPrefix(parts: seq<seq<Example>>, s: seq<Example>, n: nat, limit: nat, batchType: BatchType)
    requires n <= |s|
  {
    if parts == [] then n == 0
    else
      && parts[0] <= s && |parts[0]| <= n
      && IsGreedyCut(s, |parts[0]|, limit, batchType, true)
      && IsGreedyPrefix(parts[1..], s[|parts[0]|..], n - |parts[0]|, limit, batchType)
  }

  lemma {:induction false} GreedyPrefixWhole(parts: seq<seq<Example>>, s: seq<Example>, limit: nat,
                                             batchType: BatchType)
    requires IsGreedyPrefix(parts, s, |s|, limit, batchType)
    ensures IsGreedySplit(parts, s, limit, batchType)
  {
    if parts != [] {
      GreedyPrefixWhole(parts[1..], s[|parts[0]|..], limit, batchType);
    }
  }

  /** The limit and the batch type in force: 0 means one batch of all examples. */
  function EffectiveLimit(n: nat, maxBatchSize: nat): nat {
    if maxBatchSize == 0 then n else maxBatchSize
  }

  function EffectiveType(maxBatchSize: nat, batchType: BatchType): BatchType {
    if maxBatchSize == 0 then Examples else batchType
  }

  /** The order of the batches: from the longest first stream to the shortest. */
  ghost predicate LongestFirst(examples: seq<Example>, order: seq<nat>) {
    && IsPermutation(order, |examples|)
    && forall j, k :: 0 <= j < k < |order| ==> SourceLength(examples[order[j]]) >= SourceLength(examples[order[k]])
  }

  lemma DescendingLengths(examples: seq<Example>, order: seq<nat>)
    requires IsDescendingOrder(Lengths(examples), order)
    ensures LongestFirst(examples, order)
  {
    forall j, k | 0 <= j < k < |order| ensures SourceLength(examples[order[j]]) >= SourceLength(examples[order[k]]) {
      assert Lengths(examples)[order[j]] >= Lengths(examples)[order[k]];
    }
  }

  /** The batches cut s from the left, each as long as the limit allows; a limit of 0 leaves s in one batch. */
  ghost predicate CutByLimit(parts: seq<seq<Example>>, s: seq<Example>, maxBatchSize: nat, batchType: BatchType) {
    if s == [] then parts == []
    else
      && parts != [] && parts[0] <= s
      && (if maxBatchSize == 0 then parts[0] == s
          else LongestWithin(s, |parts[0]|, maxBatchSize, batchType, true))
      && CutByLimit(parts[1..], s[|parts[0]|..], maxBatchSize, batchType)
  }

  lemma {:induction false} SplitByLimit(parts: seq<seq<Example>>, s: seq<Example>, n: nat, maxBatchSize: nat,
                                        batchType: BatchType)
    requires |s| <= n
    requires IsGreedySplit(parts, s, EffectiveLimit(n, maxBatchSize), EffectiveType(maxBatchSize, batchType))
    ensures CutByLimit(parts, s, maxBatchSize, batchType)
  {
    hide IsGreedyCut, LongestWithin;
    if s != [] {
      if maxBatchSize == 0 {
        ZeroLimitOneBatch(parts, s, n, batchType);
      } else {
        GreedyCutIff(s, |parts[0]|, maxBatchSize, batchType, true);
        SplitByLimit(parts[1..], s[|parts[0]|..], n, maxBatchSize, batchType);
      }
    }
  }

  method RebatchInput(examples: seq<Example>, maxBatchSize: nat, batchType: BatchType, sort: SortOp)
    returns (batches: seq<Batch>, ghost order: seq<nat>)
    ensures IsDescendingOrder(Lengths(examples), order) && LongestFirst(examples, order)
    ensures var sorted := Gather(examples, order);
            && Concat(Indices(batches)) == order[..|Ready(sorted)|]
            && IsGreedySplit(Parts(batches), Ready(sorted), EffectiveLimit(|examples|, maxBatchSize),
                             EffectiveType(maxBatchSize, batchType))
            && CutByLimit(Parts(batches), Ready(sorted), maxBatchSize, batchType)
    ensures forall b :: 0 <= b < |batches| ==> NamedBy(batches[b], examples)
  {
    order := sort(Lengths(examples));
    DescendingLengths(examples, order);
    if examples == [] {
      return [], order;
    }
    var exampleIndex := sort(Lengths(examples));
    batches := CutSorted(examples, exampleIndex, EffectiveLimit(|examples|, maxBatchSize),
                         EffectiveType(maxBatchSize, batchType));
    GreedyPrefixWhole(Parts(batches), Ready(Gather(examples, exampleIndex)),
                      EffectiveLimit(|examples|, maxBatchSize), EffectiveType(maxBatchSize, batchType));
    SplitByLimit(Parts(batches), Ready(Gather(examples, order)), |examples|, maxBatchSize, batchType);
  }

  method CutSorted(examples: seq<Example>, exampleIndex: seq<nat>, limit: nat, kind: BatchType)
    returns (batches: seq<Batch>)
    requires limit > 0 && Indexes(exampleIndex, |examples|)
    ensures var ready := Ready(Gather(examples, exampleIndex));
            Progress(examples, exampleIndex, ready, batches, |ready|, limit, kind)
  {
    var sorted := IndexVector(examples, exampleIndex);
    var reader := new VectorReader(sorted);
    batches := ReadAll(reader, examples, exampleIndex, limit, kind);
  }

  /** The reading loop of `rebatch_input`. */
  method ReadAll(reader: VectorReader, ghost examples: seq<Example>, exampleIndex: seq<nat>, limit: nat,
                 kind: BatchType)
    returns (batches: seq<Batch>)
    requires limit > 0 && Indexes(exampleIndex, |examples|)
    requires reader.Valid() && reader.remaining <= Gather(examples, exampleIndex)
    modifies reader
    ensures Progress(examples, exampleIndex, old(reader.remaining), batches, |old(reader.remaining)|, limit, kind)
  {
    hide Progress, IsGreedyCut, LongestWithin;
    ghost var ready := reader.remaining;
    batches := [];
    var offset := 0;
    NoProgress(examples, exampleIndex, ready, limit, kind);
    while true
      invariant reader.Valid() && offset <= |ready| <= |exampleIndex|
      invariant Progress(examples, exampleIndex, ready, batches, offset, limit, kind)
      invariant reader.remaining == ready[offset..]
      decreases |ready| - offset
    {
      var r := reader.GetNext(limit, kind, true);
      var part := r.value;
      GreedyCutIff(ready[offset..], |part|, limit, kind, true);
      PartNotEmpty(ready[offset..], part, limit, kind, true);
      if part == [] {
        break;
      }
      TakePart(ready, offset, part, reader.remaining);
      var batch := Batch(part, exampleIndex[offset..offset + |part|]);
      ProgressStep(examples, exampleIndex, ready, batches, batch, offset, |part|, limit, kind);
      batches := batches + [batch];
      offset := offset + |part|;
    }
  }

  lemma TakePart(ready: seq<Example>, offset: nat, part: seq<Example>, rest: seq<Example>)
    requires offset <= |ready| && part + rest == ready[offset..]
    ensures offset + |part| <= |ready| && part == ready[offset..offset + |part|] && rest == ready[offset + |part|..]
  {
    assert part == (part + rest)[..|part|] && rest == (part + rest)[|part|..];
  }

  ghost predicate NamedBy(batch: Batch, examples: seq<Example>) {
    Indexes(batch.exampleIndex, |examples|) && batch.examples == Gather(examples, batch.exampleIndex)
  }

  /** The first `offset` deliverable examples are cut into batches that carry their original indices. */
  ghost predicate Progress(examples: seq<Example>, order: seq<nat>, ready: seq<Example>, batches: seq<Batch>,
                           offset: nat, limit: nat, kind: BatchType)
  {
    && offset <= |ready| <= |order|
    && Concat(Indices(batches)) == order[..offset]
    && IsGreedyPrefix(Parts(batches), ready, offset, limit, kind)
    && forall b :: 0 <= b < |batches| ==> NamedBy(batches[b], examples)
  }

  lemma NoProgress(examples: seq<Example>, order: seq<nat>, ready: seq<Example>, limit: nat, kind: BatchType)
    requires |ready| <= |order|
    ensures Progress(examples, order, ready, [], 0, limit, kind)
  {
  }

  lemma PartNotEmpty(rest: seq<Example>, part: seq<Example>, limit: nat, kind: BatchType, padded: bool)
    requires rest != [] ==> LongestWithin(rest, |part|, limit, kind, padded)
    ensures rest != [] ==> part != []
  {
  }

  lemma ProgressStep(examples: seq<Example>, order: seq<nat>, ready: seq<Example>, batches: seq<Batch>,
                     batch: Batch, offset: nat, c: nat, limit: nat, kind: BatchType)
    requires Progress(examples, order, ready, batches, offset, limit, kind)
    requires Indexes(order, |examples|) && ready <= Gather(examples, order)
    requires offset < |ready| && IsGreedyCut(ready[offset..], c, limit, kind, true)
    requires batch == Batch(ready[offset..offset + c], order[offset..offset + c])
    ensures Progress(examples, order, ready, batches + [batch], offset + c, limit, kind)
  {
    hide NamedBy, IsGreedyPrefix, Concat, Gather;
    IndicesAppend(batches, batch);
    assert order[..offset + c] == order[..offset] + order[offset..offset + c];
    GreedyPrefixStep(batches, batch, ready, offset, c, limit, kind);
    SliceNamed(examples, order, ready, offset, c);
  }

  lemma SliceNamed(examples: seq<Example>, order: seq<nat>, ready: seq<Example>, offset: nat, c: nat)
    requires Indexes(order, |examples|) && ready <= Gather(examples, order) && offset + c <= |ready|
    ensures NamedBy(Batch(ready[offset..offset + c], order[offset..offset + c]), examples)
  {
    var index := order[offset..offset + c];
    assert forall k :: 0 <= k < c ==> index[k] == order[offset + k];
    assert ready[offset..offset + c] == Gather(examples, index);
  }

  lemma IndicesAppend(batches: seq<Batch>, batch: Batch)
    ensures Concat(Indices(batches + [batch])) == Concat(Indices(batches)) + batch.exampleIndex
  {
    assert Indices(batches + [batch]) == Indices(batches) + [batch.exampleIndex];
    ConcatAppend(Indices(batches), batch.exampleIndex);
  }

  lemma GreedyPrefixStep(batches: seq<Batch>, batch: Batch, ready: seq<Example>,
                         offset: nat, c: nat, limit: nat, kind: BatchType)
    requires offset < |ready| && IsGreedyPrefix(Parts(batches), ready, offset, limit, kind)
    requires IsGreedyCut(ready[offset..], c, limit, kind, true)
    requires batch.examples == ready[offset..offset + c]
    ensures IsGreedyPrefix(Parts(batches + [batch]), ready, offset + c, limit, kind)
  {
    assert Parts(batches + [batch]) == Parts(batches) + [batch.examples];
    assert ready[..offset] + ready[offset..] == ready;
    GreedySplitAppend(Parts(batches), ready[..offset], ready[offset..], batch.examples, limit, kind);
  }

  // ----- What the split is worth -----

  /** The batches cover the input exactly when every example has a stream. */
  lemma CoversIffNoEmpty(examples: seq<Example>, order: seq<nat>)
    requires IsPermutation(order, |examples|)
    ensures order[..|Ready(Gather(examples, order))|] == order
       <==> forall k :: 0 <= k < |examples| ==> !examples[k].Empty()
  {
    var sorted := Gather(examples, order);
    var c := |Ready(sorted)|;
    if c == |order| {
      forall k | 0 <= k < |examples| ensures !examples[k].Empty() {
        PermutationOnto(order, |examples|, k);
        var p :| 0 <= p < |order| && order[p] == k;
        assert !Ready(sorted)[p].Empty();
      }
    } else {
      assert sorted[c].Empty() && sorted[c] == examples[order[c]];
      assert |order[..c]| == c;
    }
  }

  /** An example without streams hides one with an (empty) stream behind it: of these two, whose lengths tie,
      nothing is delivered if the sort keeps their order, and both lengths are 0. */
  lemma HiddenExample()
    ensures var examples := [Example([]), Example([[]])];
            && IsDescendingOrder(Lengths(examples), [0, 1])
            && !examples[1].Empty() && Ready(Gather(examples, [0, 1])) == []
            && Ready(Gather(examples, [1, 0])) == [examples[1]]
  {
    var examples := [Example([]), Example([[]])];
    assert Gather(examples, [1, 0])[1..] == [examples[0]];
  }

  ghost predicate IsSplit(parts: seq<seq<Example>>, s: seq<Example>, limit: nat, batchType: BatchType) {
    if s == [] then parts == []
    else
      && parts != [] && parts[0] <= s && Fits(parts[0], limit, batchType, true)
      && IsSplit(parts[1..], s[|parts[0]|..], limit, batchType)
  }

  lemma {:induction false} LongestSuffix(s: seq<Example>, a: nat, batchType: BatchType)
    requires a <= |s|
    ensures Longest(s[a..], batchType) <= Longest(s, batchType)
  {
    if a < |s| {
      var m := |s| - 1;
      LongestSuffix(s[..m], a, batchType);
      assert s[a..][..m - a] == s[..m][a..];
    }
  }

  lemma {:induction false} LongestPrefix(s: seq<Example>, a: nat, batchType: BatchType)
    requires a <= |s|
    ensures Longest(s[..a], batchType) <= Longest(s, batchType)
  {
    if a < |s| {
      var m := |s| - 1;
      LongestPrefix(s[..m], a, batchType);
      assert s[..m][..a] == s[..a];
    } else {
      assert s[..a] == s;
    }
  }

  /** Dropping examples from either end of a batch that fits leaves one that fits. */
  lemma FitsPart(s: seq<Example>, a: nat, b: nat, limit: nat, batchType: BatchType)
    requires a < b <= |s| && Fits(s, limit, batchType, true)
    ensures Fits(s[a..b], limit, batchType, true)
  {
    if b - a > 1 {
      LongestPrefix(s, b, batchType);
      LongestSuffix(s[..b], a, batchType);
      assert s[..b][a..] == s[a..b];
      AreaMonotone(|s[a..b]|, Longest(s[a..b], batchType), |s|, Longest(s, batchType));
    }
  }

  /** A greedy batch that starts later ends no earlier than any batch that fits. */
  lemma GreedyReaches(s: seq<Example>, a: nat, g: nat, p: nat, limit: nat, batchType: BatchType)
    requires a < |s| && p <= |s| && Fits(s[..p], limit, batchType, true)
    requires IsGreedyCut(s[a..], g, limit, batchType, true)
    ensures p <= a + g
  {
    if a + g < p {
      assert s[..p][a..a + g + 1] == s[a..][..g + 1];
      FitsPart(s[..p], a, a + g + 1, limit, batchType);
    }
  }

  /** Greedy stays ahead: started further right, it needs no more batches than any split. */
  lemma {:induction false} GreedyStaysAhead(greedy: seq<seq<Example>>, parts: seq<seq<Example>>,
                                            s: seq<Example>, a: nat, limit: nat, batchType: BatchType)
    requires a <= |s|
    requires IsGreedySplit(greedy, s[a..], limit, batchType) && IsSplit(parts, s, limit, batchType)
    ensures |greedy| <= |parts|
    decreases |parts|
  {
    if a < |s| {
      var g, p := |greedy[0]|, |parts[0]|;
      assert parts[0] == s[..p];
      GreedyReaches(s, a, g, p, limit, batchType);
      assert s[a..][g..] == s[p..][a + g - p..];
      GreedyStaysAhead(greedy[1..], parts[1..], s[p..], a + g - p, limit, batchType);
    }
  }

  /** No order-preserving split under the limit uses fewer batches. */
  lemma GreedyMinimal(greedy: seq<seq<Example>>, parts: seq<seq<Example>>, s: seq<Example>,
                      limit: nat, batchType: BatchType)
    requires IsGreedySplit(greedy, s, limit, batchType) && IsSplit(parts, s, limit, batchType)
    ensures |greedy| <= |parts|
  {
    assert s[0..] == s;
    GreedyStaysAhead(greedy, parts, s, 0, limit, batchType);
  }

  /** A greedy split is a split, and concatenates back to its input. */
  lemma {:induction false} GreedyIsSplit(greedy: seq<seq<Example>>, s: seq<Example>, limit: nat, batchType: BatchType)
    requires IsGreedySplit(greedy, s, limit, batchType)
    ensures IsSplit(greedy, s, limit, batchType) && Concat(greedy) == s
  {
    if s != [] {
      var c := |greedy[0]|;
      GreedyIsSplit(greedy[1..], s[c..], limit, batchType);
      ConcatFront(greedy[0], greedy[1..]);
      assert greedy == [greedy[0]] + greedy[1..];
      assert s[..c] == greedy[0];
    }
  }

  /** With limit 0, which stands for the number n of all examples, the delivered ones go into one batch. */
  lemma ZeroLimitOneBatch(greedy: seq<seq<Example>>, s: seq<Example>, n: nat, batchType: BatchType)
    requires s != [] && |s| <= n
    requires IsGreedySplit(greedy, s, EffectiveLimit(n, 0), EffectiveType(0, batchType))
    ensures greedy == [s]
  {
    var c := |greedy[0]|;
    WholeFits(s, c, n);
    assert s[c..] == [];
    assert IsGreedySplit(greedy[1..], [], n, Examples);
    assert greedy[0] == s[..c] == s;
    assert greedy == [greedy[0]] + greedy[1..];
  }

  lemma WholeFits(s: seq<Example>, c: nat, n: nat)
    requires s != [] && |s| <= n && IsGreedyCut(s, c, n, Examples, true)
    ensures c == |s|
  {
    if c < |s| {
      LongestOne(s[..c + 1]);
    }
  }

  lemma {:induction false} LongestOne(s: seq<Example>)
    requires s != []
    ensures Longest(s, Examples) == 1
  {
    if |s| > 1 { LongestOne(s[..|s| - 1]); }
  }
}
