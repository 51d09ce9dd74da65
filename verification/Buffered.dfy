/** Buffered translation requests: src/buffered_translation_wrapper.cc.

    Every method runs under the wrapper's mutex, so the calls of a run are one interleaving of the request
    threads, the buffer loop and the destructor. The loop may wake at any time, since its wait times out. */
module Buffering {
  import opened Options
  import opened Vectors
  import Batching
  import ReplicaPool
  import RowMajor

  type Example = Batching.Example

  /** What one pass of the buffer loop hands to `post_examples`. */
  datatype Flush = Flush(examples: seq<Example>, promises: seq<nat>, stopping: bool)

  function ExamplesOf(flushes: seq<Flush>): (r: seq<seq<Example>>)
    ensures |r| == |flushes| && forall j :: 0 <= j < |r| ==> r[j] == flushes[j].examples
  {
    seq(|flushes|, j requires 0 <= j < |flushes| => flushes[j].examples)
  }

  function PromisesOf(flushes: seq<Flush>): (r: seq<seq<nat>>)
    ensures |r| == |flushes| && forall j :: 0 <= j < |r| ==> r[j] == flushes[j].promises
  {
    seq(|flushes|, j requires 0 <= j < |flushes| => flushes[j].promises)
  }

  /** A flush pairs its examples and promises; before the stop it is a part batch or full batches. */
  ghost predicate Proper(f: Flush, maxBatchSize: nat)
    requires maxBatchSize > 0
  {
    && |f.examples| == |f.promises| > 0
    && (!f.stopping ==> |f.examples| <= maxBatchSize || |f.examples| % maxBatchSize == 0)
  }

  /** The i-th accepted request holds the i-th promise. Requests are flushed or pending, in arrival order. */
  ghost predicate InOrder(accepted: seq<Example>, flushed: seq<Flush>, examples: seq<Example>, promises: seq<nat>) {
    && |examples| == |promises|
    && Concat(ExamplesOf(flushed)) + examples == accepted
    && Concat(PromisesOf(flushed)) + promises == Iota(|accepted|)
  }

  lemma FlushAppended(flushed: seq<Flush>, f: Flush)
    ensures Concat(ExamplesOf(flushed + [f])) == Concat(ExamplesOf(flushed)) + f.examples
    ensures Concat(PromisesOf(flushed + [f])) == Concat(PromisesOf(flushed)) + f.promises
  {
    assert ExamplesOf(flushed + [f]) == ExamplesOf(flushed) + [f.examples];
    assert PromisesOf(flushed + [f]) == PromisesOf(flushed) + [f.promises];
    ConcatAppend(ExamplesOf(flushed), f.examples);
    ConcatAppend(PromisesOf(flushed), f.promises);
  }

  lemma FlushKeepsOrder(accepted: seq<Example>, flushed: seq<Flush>, f: Flush, examples: seq<Example>,
                        promises: seq<nat>)
    requires InOrder(accepted, flushed, f.examples + examples, f.promises + promises) && |f.examples| == |f.promises|
    ensures InOrder(accepted, flushed + [f], examples, promises)
  {
    hide Concat, ExamplesOf, PromisesOf;
    FlushAppended(flushed, f);
    assert Concat(ExamplesOf(flushed)) + (f.examples + examples) == Concat(ExamplesOf(flushed)) + f.examples + examples;
    assert Concat(PromisesOf(flushed)) + (f.promises + promises) == Concat(PromisesOf(flushed)) + f.promises + promises;
  }

  lemma RequestKeepsOrder(accepted: seq<Example>, flushed: seq<Flush>, examples: seq<Example>, promises: seq<nat>,
                          e: Example)
    requires InOrder(accepted, flushed, examples, promises)
    ensures InOrder(accepted + [e], flushed, examples + [e], promises + [|accepted|])
  {
    assert Concat(ExamplesOf(flushed)) + (examples + [e]) == Concat(ExamplesOf(flushed)) + examples + [e];
    assert Concat(PromisesOf(flushed)) + (promises + [|accepted|])
           == Concat(PromisesOf(flushed)) + promises + [|accepted|];
    assert Iota(|accepted| + 1) == Iota(|accepted|) + [|accepted|];
  }

  class BufferedTranslationWrapper {
    const maxBatchSize: nat
    const maxBufferSize: nat
    var stop: bool
    var examples: seq<Example>
    var promises: seq<nat>
    var created: nat               // promises are told apart by their order of creation
    ghost var accepted: seq<Example>
    ghost var flushed: seq<Flush>

    ghost predicate Valid()
      reads this
    {
      && maxBatchSize > 0 && created == |accepted|
      && InOrder(accepted, flushed, examples, promises)
      && (forall e :: e in accepted ==> !e.Empty())
      && forall j :: 0 <= j < |flushed| ==> Proper(flushed[j], maxBatchSize)
    }

    constructor (maxBatchSize: nat, maxBufferSize: nat)
      requires maxBatchSize > 0
      ensures Valid() && !stop && accepted == [] && flushed == [] && this.maxBatchSize == maxBatchSize
      ensures this.maxBufferSize == if maxBufferSize == 0 then maxBatchSize else maxBufferSize
    {
      this.maxBatchSize := maxBatchSize;
      this.maxBufferSize := if maxBufferSize == 0 then maxBatchSize else maxBufferSize;
      stop, examples, promises, created := false, [], [], 0;
      accepted, flushed := [], [];
    }

    method TranslateAsync(source: seq<string>, target: seq<string>) returns (future: nat, notify: bool)
      requires Valid()
      modifies this`examples, this`promises, this`created, this`accepted
      ensures Valid() && accepted == old(accepted) + [Batching.Example([source, target])]
      ensures future == |old(accepted)|
      ensures examples == old(examples) + [Batching.Example([source, target])] && promises == old(promises) + [future]
      ensures notify <==> |examples| >= maxBufferSize
    {
      RequestKeepsOrder(accepted, flushed, examples, promises, Batching.Example([source, target]));
      future := created;
      created := created + 1;
      promises := promises + [future];
      examples := examples + [Batching.Example([source, target])];
      notify := |examples| >= maxBufferSize;
      accepted := accepted + [Batching.Example([source, target])];
    }

    /** The destructor's first half. */
    method SetStop()
      requires Valid()
      modifies this`stop
      ensures Valid() && stop
    {
      stop := true;
    }

    /** One pass of the buffer loop: what it flushes, and whether the loop ends. */
    method LoopPass() returns (exit: bool, flush: Option<Flush>)
      requires Valid()
      modifies this`examples, this`promises, this`flushed
      ensures Valid() && exit == stop
      ensures flush.None? <==> old(examples) == []
      ensures flush.None? ==> flushed == old(flushed)
      ensures flush.Some? ==> flushed == old(flushed) + [flush.value] && flush.value.stopping == stop
      ensures flush.Some? && !stop ==>
                |examples| == if |old(examples)| <= maxBatchSize then 0 else |old(examples)| % maxBatchSize
      ensures stop ==> examples == [] && promises == []
    {
      exit, flush := stop, None;
      if examples != [] {
        var flushSize := |examples|;
        if !stop && flushSize > maxBatchSize {
          flushSize := flushSize - flushSize % maxBatchSize;
          FullBatches(|examples|, maxBatchSize);
        }
        var f := Take(flushSize, stop);
        flush := Some(f);
        FlushKeepsOrder(accepted, flushed, f, examples, promises);
        flushed := flushed + [f];
      }
    }

    /** The loop that pops the flushed part of both queues. */
    method Take(flushSize: nat, stopping: bool) returns (f: Flush)
      requires flushSize <= |examples| == |promises|
      modifies this`examples, this`promises
      ensures |f.examples| == |f.promises| == flushSize && f.stopping == stopping
      ensures f.examples + examples == old(examples) && f.promises + promises == old(promises)
      ensures |examples| == |promises|
    {
      var taken: seq<Example>, keys: seq<nat> := [], [];
      var i := 0;
      while i < flushSize
        invariant i == |taken| == |keys| <= flushSize && |examples| == |promises| == |old(examples)| - i
        invariant taken + examples == old(examples) && keys + promises == old(promises)
      {
        taken := taken + [examples[0]];
        keys := keys + [promises[0]];
        examples := examples[1..];
        promises := promises[1..];
        i := i + 1;
      }
      f := Flush(taken, keys, stopping);
    }
  }

  lemma FullBatches(n: nat, m: nat)
    requires 0 < m < n
    ensures (n - n % m) % m == 0 && n - n % m > 0 && n - (n - n % m) == n % m
  {
    var q := n / m;
    assert n - n % m == m * q;
    RowMajor.FlatParts(q, 0, m);
  }

  // ----- Whole runs -----

  /** What happens before the destructor: a request, or a wake-up of the buffer loop. */
  datatype Event = Request(source: seq<string>, target: seq<string>) | Wake

  function Requests(events: seq<Event>): seq<Example> {
    if events == [] then []
    else
      Requests(events[..|events| - 1])
      + match events[|events| - 1] { case Request(s, t) => [Batching.Example([s, t])] case Wake => [] }
  }

  /** Any arrival and timeout schedule up to the stop. */
  method Serve(w: BufferedTranslationWrapper, events: seq<Event>)
    requires w.Valid() && !w.stop && w.accepted == []
    modifies w
    ensures w.Valid() && !w.stop && w.accepted == Requests(events)
  {
    var i := 0;
    while i < |events|
      invariant i <= |events| && w.Valid() && !w.stop && w.accepted == Requests(events[..i])
    {
      assert events[..i + 1][..i] == events[..i];
      match events[i] {
        case Request(source, target) =>
          var future, notify := w.TranslateAsync(source, target);
        case Wake =>
          var exit, flush := w.LoopPass();
      }
      i := i + 1;
    }
    assert events[..i] == events;
  }

  /** The destructor: the stop, requests that still get in before the loop sees it, and the last pass. */
  method Destroy(w: BufferedTranslationWrapper, late: seq<Event>)
    requires w.Valid() && forall i :: 0 <= i < |late| ==> late[i].Request?
    modifies w
    ensures w.Valid() && w.examples == [] && w.promises == []
    ensures w.accepted == old(w.accepted) + Requests(late)
    ensures Concat(ExamplesOf(w.flushed)) == w.accepted && Concat(PromisesOf(w.flushed)) == Iota(|w.accepted|)
  {
    w.SetStop();
    var i := 0;
    while i < |late|
      invariant i <= |late| && w.Valid() && w.stop && w.accepted == old(w.accepted) + Requests(late[..i])
    {
      assert late[..i + 1][..i] == late[..i];
      var future, notify := w.TranslateAsync(late[i].source, late[i].target);
      i := i + 1;
    }
    assert late[..i] == late;
    var exit, flush := w.LoopPass();
    assert exit;
    assert Concat(ExamplesOf(w.flushed)) + [] == Concat(ExamplesOf(w.flushed));
    assert Concat(PromisesOf(w.flushed)) + [] == Concat(PromisesOf(w.flushed));
  }

  /** Position k of flush j holds request i and its promise. */
  ghost predicate HoldsRequest(flushes: seq<Flush>, accepted: seq<Example>, i: nat, j: nat, k: nat)
    requires i < |accepted|
  {
    && j < |flushes| && k < |flushes[j].promises| == |flushes[j].examples|
    && flushes[j].promises[k] == i && flushes[j].examples[k] == accepted[i]
  }

  /** Every request is flushed at exactly one place, with its own promise. */
  lemma FlushedOnce(flushes: seq<Flush>, accepted: seq<Example>, i: nat) returns (j: nat, k: nat)
    requires forall j :: 0 <= j < |flushes| ==> |flushes[j].examples| == |flushes[j].promises|
    requires Concat(ExamplesOf(flushes)) == accepted && Concat(PromisesOf(flushes)) == Iota(|accepted|)
    requires i < |accepted|
    ensures HoldsRequest(flushes, accepted, i, j, k)
    ensures forall j', k' :: HoldsRequest(flushes, accepted, i, j', k') ==> j' == j && k' == k
  {
    j, k := PlaceOf(flushes, i);
    forall j', k' | HoldsRequest(flushes, accepted, i, j', k') ensures j' == j && k' == k {
      PlaceAt(flushes, j', k');
      PlaceAt(flushes, j, k);
      StartInjective(flushes, j, k, j', k');
    }
  }

  /** How many requests the first j flushes hold. */
  ghost function StartOf(flushes: seq<Flush>, j: nat): nat
    requires j <= |flushes|
  {
    if j == 0 then 0 else StartOf(flushes, j - 1) + |flushes[j - 1].promises|
  }

  lemma {:induction false} StartMonotone(flushes: seq<Flush>, i: nat, j: nat)
    requires i <= j <= |flushes|
    ensures StartOf(flushes, i) <= StartOf(flushes, j)
  {
    if i < j { StartMonotone(flushes, i, j - 1); }
  }

  lemma StartInjective(flushes: seq<Flush>, j: nat, k: nat, j': nat, k': nat)
    requires j < |flushes| && k < |flushes[j].promises| && j' < |flushes| && k' < |flushes[j'].promises|
    requires StartOf(flushes, j) + k == StartOf(flushes, j') + k'
    ensures j == j' && k == k'
  {
    if j < j' {
      StartMonotone(flushes, j + 1, j');
    } else if j' < j {
      StartMonotone(flushes, j' + 1, j);
    }
  }

  lemma {:induction false} StartTake(flushes: seq<Flush>, m: nat, j: nat)
    requires j <= m <= |flushes|
    ensures StartOf(flushes[..m], j) == StartOf(flushes, j)
  {
    if j > 0 { StartTake(flushes, m, j - 1); }
  }

  lemma LastFlush(flushes: seq<Flush>)
    requires flushes != []
    ensures var m := |flushes| - 1;
            && Concat(ExamplesOf(flushes)) == Concat(ExamplesOf(flushes[..m])) + flushes[m].examples
            && Concat(PromisesOf(flushes)) == Concat(PromisesOf(flushes[..m])) + flushes[m].promises
  {
    var m := |flushes| - 1;
    assert ExamplesOf(flushes)[..m] == ExamplesOf(flushes[..m]);
    assert PromisesOf(flushes)[..m] == PromisesOf(flushes[..m]);
  }

  /** Position k of flush j in the concatenated queues. */
  lemma {:induction false} PlaceAt(flushes: seq<Flush>, j: nat, k: nat)
    requires forall j :: 0 <= j < |flushes| ==> |flushes[j].examples| == |flushes[j].promises|
    requires j < |flushes| && k < |flushes[j].promises|
    ensures var p := StartOf(flushes, j) + k;
            && p < |Concat(PromisesOf(flushes))| && p < |Concat(ExamplesOf(flushes))|
            && Concat(PromisesOf(flushes))[p] == flushes[j].promises[k]
            && Concat(ExamplesOf(flushes))[p] == flushes[j].examples[k]
  {
    hide ExamplesOf, PromisesOf, Concat;
    var m := |flushes| - 1;
    LastFlush(flushes);
    StartTake(flushes, m, j);
    if j < m {
      PlaceAt(flushes[..m], j, k);
    } else {
      FlushTotals(flushes[..m]);
    }
  }

  lemma {:induction false} FlushTotals(flushes: seq<Flush>)
    requires forall j :: 0 <= j < |flushes| ==> |flushes[j].examples| == |flushes[j].promises|
    ensures |Concat(PromisesOf(flushes))| == |Concat(ExamplesOf(flushes))| == StartOf(flushes, |flushes|)
  {
    if flushes != [] {
      var m := |flushes| - 1;
      LastFlush(flushes);
      StartTake(flushes, m, m);
      FlushTotals(flushes[..m]);
    }
  }

  lemma PlaceOf(flushes: seq<Flush>, i: nat) returns (j: nat, k: nat)
    requires forall j :: 0 <= j < |flushes| ==> |flushes[j].examples| == |flushes[j].promises|
    requires i < |Concat(PromisesOf(flushes))|
    ensures j < |flushes| && k < |flushes[j].promises| && StartOf(flushes, j) + k == i
    ensures |Concat(ExamplesOf(flushes))| == |Concat(PromisesOf(flushes))|
    ensures flushes[j].promises[k] == Concat(PromisesOf(flushes))[i]
    ensures flushes[j].examples[k] == Concat(ExamplesOf(flushes))[i]
  {
    FlushTotals(flushes);
    j, k := Locate(flushes, |flushes|, i);
    PlaceAt(flushes, j, k);
  }

  lemma {:induction false} Locate(flushes: seq<Flush>, n: nat, i: nat) returns (j: nat, k: nat)
    requires n <= |flushes| && i < StartOf(flushes, n)
    ensures j < n && k < |flushes[j].promises| && StartOf(flushes, j) + k == i
  {
    if i < StartOf(flushes, n - 1) {
      j, k := Locate(flushes, n - 1, i);
    } else {
      j, k := n - 1, i - StartOf(flushes, n - 1);
    }
  }

  // ----- End to end -----

  type Func<!R> = ReplicaPool.Func<R>
  type Outcome<R> = ReplicaPool.Outcome<R>

  type Round = ReplicaPool.Round

  /** Each flush so far is one `post_examples` call, cut by the batch size in examples. */
  ghost predicate Posted(rounds: seq<Round>, flushes: seq<Flush>, maxBatchSize: nat) {
    && |rounds| <= |flushes|
    && ReplicaPool.AllCut(rounds, maxBatchSize, Batching.Examples)
    && forall j :: 0 <= j < |rounds| ==> rounds[j].examples == flushes[j].examples
  }

  /** The futures of the requests flushed so far are set, each to its own request's result (or the exception
      of its batch): `done` is what they hold. */
  ghost predicate Served<R>(func: Func<R>, accepted: seq<Example>, rounds: seq<Round>, done: seq<Outcome<R>>,
                            outcomes: seq<Option<Outcome<R>>>) {
    && |done| <= |accepted| == |outcomes| && ReplicaPool.ExamplesRead(rounds) == accepted[..|done|]
    && ReplicaPool.FuturesOf(func, accepted[..|done|], ReplicaPool.JobsPosted(rounds), done)
    && forall i :: 0 <= i < |outcomes| ==> outcomes[i] == if i < |done| then Some(done[i]) else None
  }

  lemma PostedMore(rounds: seq<Round>, flushes: seq<Flush>, maxBatchSize: nat, posted: Round)
    requires Posted(rounds, flushes, maxBatchSize) && |rounds| < |flushes|
    requires posted.Cut(maxBatchSize, Batching.Examples) && posted.examples == flushes[|rounds|].examples
    ensures Posted(rounds + [posted], flushes, maxBatchSize)
  {
  }

  lemma ServeMore<R>(func: Func<R>, accepted: seq<Example>, rounds: seq<Round>, done: seq<Outcome<R>>,
                     outcomes: seq<Option<Outcome<R>>>, posted: Round, futures: seq<Outcome<R>>,
                     next: seq<Option<Outcome<R>>>)
    requires Served(func, accepted, rounds, done, outcomes)
    requires ReplicaPool.FuturesOf(func, posted.examples, posted.jobs, futures)
    requires |done| + |posted.examples| <= |accepted|
    requires posted.examples == accepted[|done|..|done| + |posted.examples|]
    requires |futures| == |posted.examples| && |next| == |outcomes|
    requires forall i :: 0 <= i < |next| ==>
               next[i] == if |done| <= i < |done| + |futures| then Some(futures[i - |done|]) else outcomes[i]
    ensures Served(func, accepted, rounds + [posted], done + futures, next)
  {
    hide ReplicaPool.FuturesOf, ReplicaPool.JobsPosted, ReplicaPool.ExamplesRead;
    ReplicaPool.FuturesLength(func, accepted[..|done|], ReplicaPool.JobsPosted(rounds), done);
    ReplicaPool.FuturesJoin(func, accepted[..|done|], ReplicaPool.JobsPosted(rounds), done, posted.examples,
                            posted.jobs, futures);
    ReplicaPool.RoundAdded(rounds, posted);
    assert accepted[..|done| + |posted.examples|] == accepted[..|done|] + posted.examples;
  }

  /** `post_examples` on one flush, and its promises set as the jobs complete. */
  method RunFlush<R>(func: Func<R>, flushes: seq<Flush>, accepted: seq<Example>, j: nat, maxBatchSize: nat,
                     sort: SortOp, ghost rounds: seq<Round>, ghost done: seq<Outcome<R>>,
                     before: seq<Option<Outcome<R>>>)
    returns (outcomes: seq<Option<Outcome<R>>>, setTwice: bool, ghost more: seq<Round>, ghost moreDone: seq<Outcome<R>>)
    requires forall j :: 0 <= j < |flushes| ==> |flushes[j].examples| == |flushes[j].promises|
    requires Concat(ExamplesOf(flushes)) == accepted && Concat(PromisesOf(flushes)) == Iota(|accepted|)
    requires j < |flushes| && Served(func, accepted, rounds, done, before) && |done| == StartOf(flushes, j)
    requires |rounds| == j && Posted(rounds, flushes, maxBatchSize)
    requires forall e :: e in accepted ==> !e.Empty()
    ensures Served(func, accepted, more, moreDone, outcomes) && |moreDone| == StartOf(flushes, j + 1) && !setTwice
    ensures |more| == j + 1 && Posted(more, flushes, maxBatchSize)
  {
    hide ExamplesOf, PromisesOf, Concat, Posted, ReplicaPool.FuturesOf, ReplicaPool.JobsOf, ReplicaPool.JobsPosted,
         ReplicaPool.ExamplesRead;
    var f := flushes[j];
    forall k | 0 <= k < |f.examples|
      ensures |done| + k < |accepted| && f.promises[k] == |done| + k && f.examples[k] == accepted[|done| + k]
    {
      PlaceAt(flushes, j, k);
    }
    var futures, posted := ReplicaPool.PostAndRun(func, f.examples, maxBatchSize, Batching.Examples, sort);
    ReplicaPool.FuturesLength(func, f.examples, posted.jobs, futures);
    outcomes, setTwice := before, false;
    var k := 0;
    while k < |f.promises|
      invariant k <= |f.promises| && !setTwice && |outcomes| == |before|
      invariant forall i :: 0 <= i < |outcomes| ==>
                  outcomes[i] == if |done| <= i < |done| + k then Some(futures[i - |done|]) else before[i]
    {
      var p := f.promises[k];
      setTwice := setTwice || outcomes[p].Some?;
      outcomes := outcomes[p := Some(futures[k])];
      k := k + 1;
    }
    if f.examples != [] {
      assert f.promises[|f.promises| - 1] == |done| + |f.examples| - 1;
    }
    assert f.examples == accepted[|done|..|done| + |f.examples|];
    ServeMore(func, accepted, rounds, done, before, posted, futures, outcomes);
    PostedMore(rounds, flushes, maxBatchSize, posted);
    more, moreDone := rounds + [posted], done + futures;
  }

  /** Every accepted request gets its own result, through exactly one promise that is set exactly once. Each flush
      is posted in batches of at most `max_batch_size` requests. */
  method RunFlushes<R>(func: Func<R>, flushes: seq<Flush>, accepted: seq<Example>, maxBatchSize: nat, sort: SortOp)
    returns (outcomes: seq<Option<Outcome<R>>>, setTwice: bool, ghost rounds: seq<Round>, ghost done: seq<Outcome<R>>)
    requires forall j :: 0 <= j < |flushes| ==> |flushes[j].examples| == |flushes[j].promises|
    requires Concat(ExamplesOf(flushes)) == accepted && Concat(PromisesOf(flushes)) == Iota(|accepted|)
    requires forall e :: e in accepted ==> !e.Empty()
    ensures |rounds| == |flushes| && Posted(rounds, flushes, maxBatchSize)
    ensures !setTwice && |outcomes| == |accepted|
    ensures ReplicaPool.FuturesOf(func, accepted, ReplicaPool.JobsPosted(rounds), done)
    ensures forall i :: 0 <= i < |outcomes| ==> outcomes[i] == Some(done[i])
  {
    hide ExamplesOf, PromisesOf, Concat, ReplicaPool.FuturesOf, ReplicaPool.JobsOf;
    outcomes, setTwice, rounds, done := NothingServed(func, accepted), false, [], [];
    FlushTotals(flushes);
    var j := 0;
    while j < |flushes|
      invariant j <= |flushes| && !setTwice && |rounds| == j && Posted(rounds, flushes, maxBatchSize)
      invariant Served(func, accepted, rounds, done, outcomes) && |done| == StartOf(flushes, j)
    {
      outcomes, setTwice, rounds, done :=
        RunFlush(func, flushes, accepted, j, maxBatchSize, sort, rounds, done, outcomes);
      j := j + 1;
    }
    assert accepted[..|done|] == accepted;
  }

  function NothingServed<R>(func: Func<R>, accepted: seq<Example>): (r: seq<Option<Outcome<R>>>)
    ensures Served(func, accepted, [], [], r)
  {
    seq(|accepted|, _ => None)
  }
}
