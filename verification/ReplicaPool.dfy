/** Promises, futures and result order in the replica pool: include/ctranslate2/replica_pool.h. */
module ReplicaPool {
  import opened Options
  import opened Vectors
  import opened Batching

  datatype Outcome<R> = Value(v: R) | Exception

  /** A posted function: it throws on a whole batch or computes one result per example of the batch. A result
      may depend on the other examples of the batch. */
  datatype Func<!R> = Func(fails: Batch -> bool, results: (Batch, nat) -> R) {
    function Result(batch: Batch, k: nat): Outcome<R>
      requires k < |batch.examples|
    {
      if fails(batch) then Exception else Value(results(batch, k))
    }
  }

  /** A `BatchJob`: promise k of the job belongs to the future of example `promises[k]`. */
  datatype BatchJob = BatchJob(batch: Batch, promises: seq<nat>)

  /** The shared states behind the promises; setting one twice is a `std::future_error`. */
  datatype Shared<R> = Slots(slots: seq<Option<Outcome<R>>>) | AlreadySatisfied

  function SetPromise<R>(s: Shared<R>, p: nat, outcome: Outcome<R>): Shared<R> {
    if s.AlreadySatisfied? || p >= |s.slots| || s.slots[p].Some? then AlreadySatisfied
    else Slots(s.slots[p := Some(outcome)])
  }

  /** A promise can be set once: the first call stores its outcome and no other, the second one fails. */
  lemma SetOnce<R>(slots: seq<Option<Outcome<R>>>, p: nat, first: Outcome<R>, second: Outcome<R>)
    requires p < |slots| && slots[p].None?
    ensures SetPromise(Slots(slots), p, first) == Slots(slots[p := Some(first)])
    ensures SetPromise(SetPromise(Slots(slots), p, first), p, second) == AlreadySatisfied
    ensures SetPromise<R>(AlreadySatisfied, p, first) == AlreadySatisfied
  {
  }

  function Pending<R>(n: nat): Shared<R> {
    Slots(seq(n, _ => None))
  }

  // ----- post_examples -----

  /** The promise vector while jobs are built: a moved-from slot is None. */
  ghost predicate Available(promises: seq<Option<nat>>, moved: seq<nat>) {
    forall i :: 0 <= i < |promises| ==> promises[i] == if i in moved then None else Some(i)
  }

  /** The inner loop of `post_examples`: no promise is moved from twice. */
  method MovePromises(promises: seq<Option<nat>>, index: seq<nat>, ghost moved: seq<nat>)
    returns (rest: seq<Option<nat>>, taken: seq<nat>, movedTwice: bool)
    requires Available(promises, moved) && Indexes(index, |promises|) && Distinct(moved + index)
    ensures |rest| == |promises| && Available(rest, moved + index)
    ensures taken == index && !movedTwice
  {
    rest, taken, movedTwice := promises, [], false;
    var k := 0;
    while k < |index|
      invariant k <= |index| && taken == index[..k] && !movedTwice
      invariant |rest| == |promises| && Available(rest, moved + index[..k])
    {
      AppearsOnce(moved + index, |moved| + k);
      assert (moved + index)[..|moved| + k] == moved + index[..k];
      if rest[index[k]].None? {
        movedTwice := true;
      } else {
        taken := taken + [rest[index[k]].value];
      }
      rest := rest[index[k] := None];
      assert index[..k + 1] == index[..k] + [index[k]];
      k := k + 1;
    }
    assert index[..k] == index;
  }

  /** Every job names its examples and carries their promises. */
  ghost predicate WellFormed(jobs: seq<BatchJob>, examples: seq<Example>) {
    forall b :: 0 <= b < |jobs| ==>
      jobs[b].promises == jobs[b].batch.exampleIndex && NamedBy(jobs[b].batch, examples)
  }

  function Promises(jobs: seq<BatchJob>): (r: seq<seq<nat>>)
    ensures |r| == |jobs| && forall k :: 0 <= k < |r| ==> r[k] == jobs[k].promises
  {
    seq(|jobs|, k requires 0 <= k < |jobs| => jobs[k].promises)
  }

  function PartsOf(jobs: seq<BatchJob>): (r: seq<seq<Example>>)
    ensures |r| == |jobs| && forall k :: 0 <= k < |r| ==> r[k] == jobs[k].batch.examples
  {
    seq(|jobs|, k requires 0 <= k < |jobs| => jobs[k].batch.examples)
  }

  /** The jobs of a call: the examples that are ready, from the longest to the shortest, cut by the caller's limit
      into batches that carry the promises of their own examples. */
  ghost predicate JobsOf(jobs: seq<BatchJob>, examples: seq<Example>, order: seq<nat>, maxBatchSize: nat,
                         batchType: BatchType) {
    && LongestFirst(examples, order) && WellFormed(jobs, examples)
    && Concat(Promises(jobs)) == order[..|Ready(Gather(examples, order))|]
    && CutByLimit(PartsOf(jobs), Ready(Gather(examples, order)), maxBatchSize, batchType)
  }

  method PostExamples(examples: seq<Example>, maxBatchSize: nat, batchType: BatchType, sort: SortOp)
    returns (jobs: seq<BatchJob>, ghost order: seq<nat>, movedTwice: bool)
    ensures JobsOf(jobs, examples, order, maxBatchSize, batchType) && !movedTwice
  {
    hide Concat, Ready, CutByLimit, IsGreedySplit, Lengths;
    var batches;
    batches, order := RebatchInput(examples, maxBatchSize, batchType, sort);
    jobs, movedTwice := BuildJobs(examples, batches);
    assert Promises(jobs) == Indices(batches) && PartsOf(jobs) == Parts(batches);
  }

  method BuildJobs(examples: seq<Example>, batches: seq<Batch>) returns (jobs: seq<BatchJob>, movedTwice: bool)
    requires Distinct(Concat(Indices(batches)))
    requires forall b :: 0 <= b < |batches| ==> NamedBy(batches[b], examples)
    ensures |jobs| == |batches| && forall b :: 0 <= b < |jobs| ==>
              jobs[b] == BatchJob(batches[b], batches[b].exampleIndex)
    ensures !movedTwice
  {
    hide Distinct;
    var promises := seq(|examples|, k => Some(k));
    jobs, movedTwice := [], false;
    var b := 0;
    assert Concat(Indices(batches)[..0]) == [];
    hide Concat;
    while b < |batches|
      invariant b <= |batches| && |jobs| == b && !movedTwice
      invariant forall c :: 0 <= c < b ==> jobs[c] == BatchJob(batches[c], batches[c].exampleIndex)
      invariant |promises| == |examples| && Available(promises, Concat(Indices(batches)[..b]))
    {
      assert NamedBy(batches[b], examples);
      ghost var moved := Concat(Indices(batches)[..b]);
      ConcatStep(Indices(batches), b);
      var taken, twice;
      promises, taken, twice := MovePromises(promises, batches[b].exampleIndex, moved);
      movedTwice := movedTwice || twice;
      jobs := jobs + [BatchJob(batches[b], taken)];
      b := b + 1;
    }
  }

  lemma ConcatStep(parts: seq<seq<nat>>, b: nat)
    requires b < |parts| && Distinct(Concat(parts))
    ensures Concat(parts[..b + 1]) == Concat(parts[..b]) + parts[b]
    ensures Distinct(Concat(parts[..b]) + parts[b])
  {
    hide Concat;
    assert parts[..b + 1] == parts[..b] + [parts[b]];
    ConcatAppend(parts[..b], parts[b]);
    ConcatTake(parts, b + 1);
  }

  lemma {:induction false} ConcatTake<T>(parts: seq<seq<T>>, b: nat)
    requires b <= |parts|
    ensures Concat(parts[..b]) <= Concat(parts)
  {
    if b == |parts| {
      assert parts[..b] == parts;
    } else {
      var m := |parts| - 1;
      ConcatTake(parts[..m], b);
      assert parts[..m][..b] == parts[..b];
    }
  }

  lemma AppearsOnce(s: seq<nat>, k: nat)
    requires Distinct(s) && k < |s|
    ensures s[k] !in s[..k]
  {
  }

  // ----- Fulfilling the promises -----

  /** `BatchJob::run`: the set_value or set_exception calls of one job, in order. */
  method RunJob<R>(job: BatchJob, func: Func<R>, s: Shared<R>) returns (r: Shared<R>)
    requires |job.promises| == |job.batch.examples|
    ensures r == Play(func, s, [job], JobCalls(0, |job.promises|))
  {
    var exception := func.fails(job.batch);
    r := s;
    var i := 0;
    ghost var calls := JobCalls(0, |job.promises|);
    while i < |job.promises|
      invariant i <= |job.promises| && r == Play(func, s, [job], calls[..i])
    {
      assert calls[..i + 1][..i] == calls[..i];
      if exception {
        r := SetPromise(r, job.promises[i], Exception);
      } else {
        r := SetPromise(r, job.promises[i], Value(func.results(job.batch, i)));
      }
      i := i + 1;
    }
    assert calls[..i] == calls;
  }

  /** The set calls of job b. */
  ghost function JobCalls(b: nat, n: nat): (r: seq<(nat, nat)>)
    ensures |r| == n && forall k :: 0 <= k < n ==> r[k] == (b, k)
  {
    seq(n, k => (b, k))
  }

  ghost predicate IsCall(jobs: seq<BatchJob>, c: (nat, nat)) {
    c.0 < |jobs| && c.1 < |jobs[c.0].promises| && c.1 < |jobs[c.0].batch.examples|
  }

  /** The shared states after the set calls of several jobs, interleaved in any way: call (j, k) sets
      promise k of job j. */
  ghost function Play<R>(func: Func<R>, s: Shared<R>, jobs: seq<BatchJob>, calls: seq<(nat, nat)>): Shared<R>
    requires forall c :: 0 <= c < |calls| ==> IsCall(jobs, calls[c])
  {
    if calls == [] then s
    else
      var (j, k) := calls[|calls| - 1];
      assert IsCall(jobs, (j, k));
      SetPromise(Play(func, s, jobs, calls[..|calls| - 1]), jobs[j].promises[k], func.Result(jobs[j].batch, k))
  }

  /** A complete schedule: every set call of every job exactly once. */
  ghost predicate IsSchedule(jobs: seq<BatchJob>, calls: seq<(nat, nat)>) {
    && (forall c :: 0 <= c < |calls| ==> IsCall(jobs, calls[c]))
    && Distinct(calls)
    && (forall j, k :: 0 <= j < |jobs| && 0 <= k < |jobs[j].promises| ==> (j, k) in calls)
  }

  lemma {:induction false} ConcatPosition<T>(parts: seq<seq<T>>, x: T) returns (j: nat, k: nat)
    requires x in Concat(parts)
    ensures j < |parts| && k < |parts[j]| && parts[j][k] == x
  {
    var m := |parts| - 1;
    if x in parts[m] {
      j := m;
      k :| 0 <= k < |parts[m]| && parts[m][k] == x;
    } else {
      j, k := ConcatPosition(parts[..m], x);
    }
  }

  lemma {:induction false} ConcatHolds<T>(parts: seq<seq<T>>, j: nat, k: nat)
    requires j < |parts| && k < |parts[j]|
    ensures parts[j][k] in Concat(parts)
  {
    var m := |parts| - 1;
    if j < m { ConcatHolds(parts[..m], j, k); }
  }

  lemma {:induction false} ConcatInjective<T>(parts: seq<seq<T>>, j: nat, k: nat, j': nat, k': nat)
    requires Distinct(Concat(parts))
    requires j < |parts| && k < |parts[j]| && j' < |parts| && k' < |parts[j']| && parts[j][k] == parts[j'][k']
    ensures j == j' && k == k'
  {
    var m := |parts| - 1;
    var front := Concat(parts[..m]);
    assert Distinct(front) by { assert front == Concat(parts)[..|front|]; }
    if j < m && j' < m {
      ConcatInjective(parts[..m], j, k, j', k');
    } else if j == m && j' == m {
      assert Concat(parts)[|front| + k] == parts[m][k] && Concat(parts)[|front| + k'] == parts[m][k'];
    } else {
      var (lo, lk, hk) := if j < m then (j, k, k') else (j', k', k);
      assert Concat(parts)[|front| + hk] == parts[m][hk];
      ConcatHolds(parts[..m], lo, lk);
    }
  }

  /** Exactly the promises called so far are set, each to its own result. */
  ghost predicate Fulfilled<R>(func: Func<R>, jobs: seq<BatchJob>, calls: seq<(nat, nat)>,
                               slots: seq<Option<Outcome<R>>>)
    requires forall c :: 0 <= c < |calls| ==> IsCall(jobs, calls[c])
  {
    && (forall c :: 0 <= c < |calls| ==>
          Target(jobs, calls[c]) < |slots|
          && slots[Target(jobs, calls[c])] == Some(func.Result(jobs[calls[c].0].batch, calls[c].1)))
    && (forall p :: 0 <= p < |slots| && slots[p].Some? ==>
          exists c :: 0 <= c < |calls| && Target(jobs, calls[c]) == p)
  }

  ghost function Target(jobs: seq<BatchJob>, c: (nat, nat)): nat
    requires IsCall(jobs, c)
  {
    jobs[c.0].promises[c.1]
  }

  lemma TargetInjective(jobs: seq<BatchJob>, a: (nat, nat), b: (nat, nat))
    requires Distinct(Concat(Promises(jobs))) && IsCall(jobs, a) && IsCall(jobs, b)
    requires Target(jobs, a) == Target(jobs, b)
    ensures a == b
  {
    ConcatInjective(Promises(jobs), a.0, a.1, b.0, b.1);
  }

  lemma FulfilStep<R>(func: Func<R>, jobs: seq<BatchJob>, calls: seq<(nat, nat)>, call: (nat, nat),
                      slots: seq<Option<Outcome<R>>>)
    requires forall c :: 0 <= c < |calls| ==> IsCall(jobs, calls[c])
    requires Distinct(Concat(Promises(jobs))) && IsCall(jobs, call) && Target(jobs, call) < |slots|
    requires Fulfilled(func, jobs, calls, slots) && call !in calls
    ensures slots[Target(jobs, call)].None?
    ensures Fulfilled(func, jobs, calls + [call],
                      slots[Target(jobs, call) := Some(func.Result(jobs[call.0].batch, call.1))])
  {
    var p := Target(jobs, call);
    if c :| 0 <= c < |calls| && Target(jobs, calls[c]) == p {
      TargetInjective(jobs, calls[c], call);
    }
    var slots' := slots[p := Some(func.Result(jobs[call.0].batch, call.1))];
    var all := calls + [call];
    assert all[|calls|] == call;
    forall q | 0 <= q < |slots'| && slots'[q].Some? ensures exists c :: 0 <= c < |all| && Target(jobs, all[c]) == q {
      if q != p {
        var c :| 0 <= c < |calls| && Target(jobs, calls[c]) == q;
        assert all[c] == calls[c];
      } else {
        assert Target(jobs, all[|calls|]) == q;
      }
    }
  }

  lemma NothingFulfilled<R>(func: Func<R>, n: nat, jobs: seq<BatchJob>)
    ensures Fulfilled(func, jobs, [], Pending<R>(n).slots)
  {
  }

  /** After any part of any schedule no promise has been set twice, and exactly the called ones are set. */
  lemma {:induction false} PartialSchedule<R>(func: Func<R>, n: nat, jobs: seq<BatchJob>, calls: seq<(nat, nat)>)
    requires Distinct(Concat(Promises(jobs))) && Indexes(Concat(Promises(jobs)), n)
    requires Distinct(calls) && forall c :: 0 <= c < |calls| ==> IsCall(jobs, calls[c])
    ensures var s := Play(func, Pending(n), jobs, calls);
            s.Slots? && |s.slots| == n && Fulfilled(func, jobs, calls, s.slots)
  {
    hide Fulfilled, Concat;
    NothingFulfilled(func, n, jobs);
    if calls != [] {
      var m := |calls| - 1;
      PartialSchedule(func, n, jobs, calls[..m]);
      var call := calls[m];
      ConcatHolds(Promises(jobs), call.0, call.1);
      assert calls[..m] + [call] == calls;
      FulfilStep(func, jobs, calls[..m], call, Play(func, Pending(n), jobs, calls[..m]).slots);
    }
  }

  /** At position k the job has example e and the promise of future i. */
  predicate Carries(job: BatchJob, k: nat, i: nat, e: Example) {
    k < |job.promises| && k < |job.batch.examples| && job.promises[k] == i && job.batch.examples[k] == e
  }

  /** Slot i is set by a job that carries promise i and example e at one position: to the result at that
      position of its batch, or to the exception of that batch. */
  ghost predicate FutureOf<R>(func: Func<R>, jobs: seq<BatchJob>, e: Example, i: nat, slot: Option<Outcome<R>>) {
    exists j, k :: 0 <= j < |jobs| && Carries(jobs[j], k, i, e) && slot == Some(func.Result(jobs[j].batch, k))
  }

  /** No promise has been set twice, and future i is set to the result of example i. The promises of examples
      that no batch holds (from the first one without streams on, in sorted order) are never set. */
  ghost predicate AllSet<R>(func: Func<R>, examples: seq<Example>, order: seq<nat>, jobs: seq<BatchJob>,
                            calls: seq<(nat, nat)>)
    requires IsPermutation(order, |examples|)
    requires forall c :: 0 <= c < |calls| ==> IsCall(jobs, calls[c])
  {
    var s := Play(func, Pending(|examples|), jobs, calls);
    && s.Slots? && |s.slots| == |examples|
    && forall i :: 0 <= i < |examples| ==>
         if i in order[..|Ready(Gather(examples, order))|] then FutureOf(func, jobs, examples[i], i, s.slots[i])
         else s.slots[i].None?
  }

  /** Under every complete schedule future i gets the result of example i at its own position of the batch that
      holds it, or the exception of that batch. */
  lemma AnySchedule<R>(func: Func<R>, examples: seq<Example>, order: seq<nat>, jobs: seq<BatchJob>,
                       calls: seq<(nat, nat)>)
    requires IsPermutation(order, |examples|)
    requires Concat(Promises(jobs)) == order[..|Ready(Gather(examples, order))|]
    requires WellFormed(jobs, examples) && IsSchedule(jobs, calls)
    ensures AllSet(func, examples, order, jobs, calls)
  {
    hide Concat, Ready, Fulfilled, Play, Gather, FutureOf;
    var named := Concat(Promises(jobs));
    PartialSchedule(func, |examples|, jobs, calls);
    var s := Play(func, Pending(|examples|), jobs, calls);
    forall i: nat | 0 <= i < |examples|
      ensures if i in named then FutureOf(func, jobs, examples[i], i, s.slots[i]) else s.slots[i].None?
    {
      if i in named {
        var j, k := ConcatPosition<nat>(Promises(jobs), i);
        FutureSet(func, examples, jobs, calls, s.slots, j, k);
        assert jobs[j].promises[k] == i;
      } else if s.slots[i].Some? {
        SetIsNamed(func, jobs, calls, s.slots, i);
      }
    }
  }

  lemma SetIsNamed<R>(func: Func<R>, jobs: seq<BatchJob>, calls: seq<(nat, nat)>, slots: seq<Option<Outcome<R>>>,
                      i: nat)
    requires forall c :: 0 <= c < |calls| ==> IsCall(jobs, calls[c])
    requires Fulfilled(func, jobs, calls, slots) && i < |slots| && slots[i].Some?
    ensures i in Concat(Promises(jobs))
  {
    var c :| 0 <= c < |calls| && Target(jobs, calls[c]) == i;
    ConcatHolds(Promises(jobs), calls[c].0, calls[c].1);
  }

  /** A finished schedule has called the promise at position k of job j. */
  lemma FutureSet<R>(func: Func<R>, examples: seq<Example>, jobs: seq<BatchJob>, calls: seq<(nat, nat)>,
                     slots: seq<Option<Outcome<R>>>, j: nat, k: nat)
    requires WellFormed(jobs, examples) && IsSchedule(jobs, calls) && Fulfilled(func, jobs, calls, slots)
    requires j < |jobs| && k < |jobs[j].promises| && jobs[j].promises[k] < |slots| == |examples|
    ensures FutureOf(func, jobs, examples[jobs[j].promises[k]], jobs[j].promises[k], slots[jobs[j].promises[k]])
  {
    assert (j, k) in calls;
    var c :| 0 <= c < |calls| && calls[c] == (j, k);
    assert NamedBy(jobs[j].batch, examples);
    assert Target(jobs, calls[c]) == jobs[j].promises[k];
  }

  // ----- consume_batches -----

  datatype Consumed = Done | Threw | BadBatchSize

  /** What `get()` yields on the future of each example, by `AnySchedule` whatever the schedule. The jobs
      together carry each example once. */
  ghost predicate FuturesOf<R>(func: Func<R>, examples: seq<Example>, jobs: seq<BatchJob>, futures: seq<Outcome<R>>) {
    && |futures| == |examples| && IsPermutation(Concat(Promises(jobs)), |examples|)
    && forall i :: 0 <= i < |examples| ==> FutureOf(func, jobs, examples[i], i, Some(futures[i]))
  }

  method RunAll<R>(func: Func<R>, examples: seq<Example>, jobs: seq<BatchJob>) returns (s: Shared<R>)
    requires WellFormed(jobs, examples)
    ensures forall c :: 0 <= c < |CallsUpTo(jobs, |jobs|)| ==> IsCall(jobs, CallsUpTo(jobs, |jobs|)[c])
    ensures s == Play(func, Pending(|examples|), jobs, CallsUpTo(jobs, |jobs|))
  {
    AllCallsSchedule(jobs, examples);
    s := Pending(|examples|);
    var b := 0;
    while b < |jobs|
      invariant b <= |jobs|
      invariant forall c :: 0 <= c < |CallsUpTo(jobs, b)| ==> IsCall(jobs, CallsUpTo(jobs, b)[c])
      invariant s == Play(func, Pending(|examples|), jobs, CallsUpTo(jobs, b))
    {
      assert NamedBy(jobs[b].batch, examples);
      PlayAppend(func, s, Pending(|examples|), jobs, b, CallsUpTo(jobs, b), |jobs[b].promises|);
      s := RunJob(jobs[b], func, s);
      b := b + 1;
    }
  }

  /** The set calls of the first b jobs, job after job. */
  ghost function CallsUpTo(jobs: seq<BatchJob>, b: nat): seq<(nat, nat)>
    requires b <= |jobs|
  {
    if b == 0 then [] else CallsUpTo(jobs, b - 1) + JobCalls(b - 1, |jobs[b - 1].promises|)
  }

  lemma {:induction false} CallsUpToSchedule(jobs: seq<BatchJob>, b: nat)
    requires b <= |jobs|
    ensures var r := CallsUpTo(jobs, b);
            && (forall c :: 0 <= c < |r| ==> r[c].0 < b && r[c].1 < |jobs[r[c].0].promises|)
            && Distinct(r)
            && (forall j, k :: 0 <= j < b && 0 <= k < |jobs[j].promises| ==> (j, k) in r)
  {
    if b > 0 {
      CallsUpToSchedule(jobs, b - 1);
      var front, own := CallsUpTo(jobs, b - 1), JobCalls(b - 1, |jobs[b - 1].promises|);
      forall j, k | 0 <= j < b && 0 <= k < |jobs[j].promises| ensures (j, k) in front + own {
        if j == b - 1 {
          assert own[k] == (j, k);
        }
      }
    }
  }

  lemma AllCallsSchedule(jobs: seq<BatchJob>, examples: seq<Example>)
    requires WellFormed(jobs, examples)
    ensures IsSchedule(jobs, CallsUpTo(jobs, |jobs|))
  {
    var calls := CallsUpTo(jobs, |jobs|);
    CallsUpToSchedule(jobs, |jobs|);
    forall c | 0 <= c < |calls| ensures IsCall(jobs, calls[c]) {
      assert NamedBy(jobs[calls[c].0].batch, examples);
    }
  }

  lemma {:induction false} PlayAppend<R>(func: Func<R>, s: Shared<R>, start: Shared<R>, jobs: seq<BatchJob>, b: nat,
                                         calls: seq<(nat, nat)>, n: nat)
    requires b < |jobs| && n <= |jobs[b].promises| == |jobs[b].batch.examples|
    requires forall c :: 0 <= c < |calls| ==> IsCall(jobs, calls[c])
    requires s == Play(func, start, jobs, calls)
    ensures forall c :: 0 <= c < |calls + JobCalls(b, n)| ==> IsCall(jobs, (calls + JobCalls(b, n))[c])
    ensures forall c :: 0 <= c < n ==> IsCall([jobs[b]], JobCalls(0, n)[c])
    ensures Play(func, start, jobs, calls + JobCalls(b, n)) == Play(func, s, [jobs[b]], JobCalls(0, n))
  {
    hide SetPromise;
    if n == 0 {
      assert calls + JobCalls(b, n) == calls;
    } else {
      PlayAppend(func, s, start, jobs, b, calls, n - 1);
      assert JobCalls(0, n)[..n - 1] == JobCalls(0, n - 1);
      assert (calls + JobCalls(b, n))[..|calls| + n - 1] == calls + JobCalls(b, n - 1);
    }
  }

  /** One `post_examples` call: its examples, their order from the longest to the shortest, and its jobs. */
  datatype Round = Round(examples: seq<Example>, order: seq<nat>, jobs: seq<BatchJob>) {
    /** The jobs are the examples cut by the caller's limit. */
    ghost predicate Cut(maxBatchSize: nat, batchType: BatchType) {
      JobsOf(jobs, examples, order, maxBatchSize, batchType)
    }
  }

  /** The futures of one `post_examples` call, their jobs run to the end one after the other. */
  method PostAndRun<R>(func: Func<R>, examples: seq<Example>, maxBatchSize: nat, batchType: BatchType, sort: SortOp)
    returns (futures: seq<Outcome<R>>, ghost posted: Round)
    requires forall i :: 0 <= i < |examples| ==> !examples[i].Empty()
    ensures posted.examples == examples && posted.Cut(maxBatchSize, batchType)
    ensures FuturesOf(func, examples, posted.jobs, futures)
  {
    hide FutureOf, Concat, Play, Ready, Gather, WellFormed, CallsUpTo, CutByLimit;
    var jobs, order, movedTwice := PostExamples(examples, maxBatchSize, batchType, sort);
    posted := Round(examples, order, jobs);
    var s := RunAll(func, examples, jobs);
    AllCallsSchedule(jobs, examples);
    AnySchedule(func, examples, order, jobs, CallsUpTo(jobs, |jobs|));
    CoversIffNoEmpty(examples, order);
    forall i: nat | i < |examples|
      ensures s.slots[i].Some? && FutureOf(func, jobs, examples[i], i, Some(s.slots[i].value))
    {
      PermutationOnto(order, |examples|, i);
      FutureIsSet(func, jobs, examples[i], i, s.slots[i]);
    }
    futures := seq(|examples|, i requires 0 <= i < |examples| => s.slots[i].value);
  }

  lemma FutureIsSet<R>(func: Func<R>, jobs: seq<BatchJob>, e: Example, i: nat, slot: Option<Outcome<R>>)
    requires FutureOf(func, jobs, e, i, slot)
    ensures slot.Some? && FutureOf(func, jobs, e, i, Some(slot.value))
  {
  }

  // ----- The jobs of several calls -----

  function Shift(indices: seq<nat>, n: nat): (r: seq<nat>)
    ensures |r| == |indices| && forall k :: 0 <= k < |r| ==> r[k] == indices[k] + n
  {
    seq(|indices|, k requires 0 <= k < |indices| => indices[k] + n)
  }

  /** The jobs of a call whose futures are queued behind n others. */
  function Later(jobs: seq<BatchJob>, n: nat): (r: seq<BatchJob>)
    ensures |r| == |jobs|
    ensures forall j :: 0 <= j < |r| ==> r[j] == BatchJob(jobs[j].batch, Shift(jobs[j].promises, n))
  {
    seq(|jobs|, j requires 0 <= j < |jobs| => BatchJob(jobs[j].batch, Shift(jobs[j].promises, n)))
  }

  lemma {:induction false} ConcatJoin<T>(a: seq<seq<T>>, b: seq<seq<T>>)
    ensures Concat(a + b) == Concat(a) + Concat(b)
  {
    if b == [] {
      assert a + b == a;
    } else {
      var m := |b| - 1;
      ConcatJoin(a, b[..m]);
      assert (a + b)[..|a| + m] == a + b[..m];
    }
  }

  lemma {:induction false} ConcatLater(jobs: seq<BatchJob>, n: nat)
    ensures Concat(Promises(Later(jobs, n))) == Shift(Concat(Promises(jobs)), n)
  {
    if jobs != [] {
      var m := |jobs| - 1;
      ConcatLater(jobs[..m], n);
      assert Promises(jobs)[..m] == Promises(jobs[..m]);
      assert Promises(Later(jobs, n))[..m] == Promises(Later(jobs[..m], n));
    }
  }

  lemma PermutationJoin(a: seq<nat>, n: nat, b: seq<nat>, m: nat)
    requires IsPermutation(a, n) && IsPermutation(b, m)
    ensures IsPermutation(a + Shift(b, n), n + m)
  {
  }

  /** The futures of two calls, one behind the other, are those of all their jobs. */
  lemma FuturesJoin<R>(func: Func<R>, a: seq<Example>, jobsA: seq<BatchJob>, futuresA: seq<Outcome<R>>,
                       b: seq<Example>, jobsB: seq<BatchJob>, futuresB: seq<Outcome<R>>)
    requires FuturesOf(func, a, jobsA, futuresA) && FuturesOf(func, b, jobsB, futuresB)
    ensures FuturesOf(func, a + b, jobsA + Later(jobsB, |a|), futuresA + futuresB)
  {
    hide FutureOf, Concat, IsPermutation;
    var jobs := jobsA + Later(jobsB, |a|);
    assert Promises(jobs) == Promises(jobsA) + Promises(Later(jobsB, |a|));
    ConcatJoin(Promises(jobsA), Promises(Later(jobsB, |a|)));
    ConcatLater(jobsB, |a|);
    PermutationJoin(Concat(Promises(jobsA)), |a|, Concat(Promises(jobsB)), |b|);
    forall i: nat | i < |a + b| ensures FutureOf(func, jobs, (a + b)[i], i, Some((futuresA + futuresB)[i])) {
      if i < |a| {
        FutureKept(func, jobsA, Later(jobsB, |a|), a[i], i, Some(futuresA[i]));
      } else {
        FutureLater(func, jobsA, jobsB, |a|, b[i - |a|], i - |a|, Some(futuresB[i - |a|]));
      }
    }
  }

  lemma FutureKept<R>(func: Func<R>, jobs: seq<BatchJob>, more: seq<BatchJob>, e: Example, i: nat,
                      slot: Option<Outcome<R>>)
    requires FutureOf(func, jobs, e, i, slot)
    ensures FutureOf(func, jobs + more, e, i, slot)
  {
    var j, k :| 0 <= j < |jobs| && Carries(jobs[j], k, i, e) && slot == Some(func.Result(jobs[j].batch, k));
    assert (jobs + more)[j] == jobs[j];
  }

  lemma FutureLater<R>(func: Func<R>, before: seq<BatchJob>, jobs: seq<BatchJob>, n: nat, e: Example, i: nat,
                       slot: Option<Outcome<R>>)
    requires FutureOf(func, jobs, e, i, slot)
    ensures FutureOf(func, before + Later(jobs, n), e, n + i, slot)
  {
    var j, k :| 0 <= j < |jobs| && Carries(jobs[j], k, i, e) && slot == Some(func.Result(jobs[j].batch, k));
    var all := before + Later(jobs, n);
    assert all[|before| + j] == Later(jobs, n)[j];
    assert Carries(all[|before| + j], k, n + i, e);
  }

  /** The examples of all rounds, in the order of the rounds. */
  function ExamplesRead(rounds: seq<Round>): seq<Example> {
    if rounds == [] then [] else ExamplesRead(rounds[..|rounds| - 1]) + rounds[|rounds| - 1].examples
  }

  /** The jobs of all rounds, with the promises numbered through. */
  function JobsPosted(rounds: seq<Round>): seq<BatchJob> {
    if rounds == [] then []
    else
      var before := rounds[..|rounds| - 1];
      JobsPosted(before) + Later(rounds[|rounds| - 1].jobs, |ExamplesRead(before)|)
  }

  lemma RoundAdded(rounds: seq<Round>, r: Round)
    ensures ExamplesRead(rounds + [r]) == ExamplesRead(rounds) + r.examples
    ensures JobsPosted(rounds + [r]) == JobsPosted(rounds) + Later(r.jobs, |ExamplesRead(rounds)|)
  {
    assert (rounds + [r])[..|rounds|] == rounds;
  }

  ghost predicate AllCut(rounds: seq<Round>, maxBatchSize: nat, batchType: BatchType) {
    forall k :: 0 <= k < |rounds| ==> rounds[k].Cut(maxBatchSize, batchType)
  }

  // ----- The consuming loop -----

  /** Round k holds as many of the examples not yet read as the read size allows, without padding. */
  ghost predicate ReadInTurn(rounds: seq<Round>, all: seq<Example>, size: nat, batchType: BatchType) {
    forall k :: 0 <= k < |rounds| ==> ReadAt(rounds, all, size, batchType, k)
  }

  ghost predicate ReadAt(rounds: seq<Round>, all: seq<Example>, size: nat, batchType: BatchType, k: nat)
    requires k < |rounds|
  {
    var before := ExamplesRead(rounds[..k]);
    && before + rounds[k].examples <= all
    && LongestWithin(all[|before|..], |rounds[k].examples|, size, batchType, false)
  }

  /** The rounds so far have read the first n examples, each cut by both limits. */
  ghost predicate Consuming(rounds: seq<Round>, all: seq<Example>, n: nat, size: nat, maxBatchSize: nat,
                            batchType: BatchType) {
    n <= |all| && ExamplesRead(rounds) == all[..n] && AllCut(rounds, maxBatchSize, batchType)
    && ReadInTurn(rounds, all, size, batchType)
  }

  lemma OneMoreRound(rounds: seq<Round>, all: seq<Example>, n: nat, size: nat, maxBatchSize: nat,
                     batchType: BatchType, r: Round)
    requires Consuming(rounds, all, n, size, maxBatchSize, batchType) && r.Cut(maxBatchSize, batchType)
    requires n + |r.examples| <= |all| && r.examples == all[n..n + |r.examples|]
    requires LongestWithin(all[n..], |r.examples|, size, batchType, false)
    ensures Consuming(rounds + [r], all, n + |r.examples|, size, maxBatchSize, batchType)
  {
    hide LongestWithin, JobsOf, ExamplesRead;
    var more := rounds + [r];
    RoundAdded(rounds, r);
    assert all[..n + |r.examples|] == all[..n] + r.examples;
    forall k | 0 <= k < |more| ensures ReadAt(more, all, size, batchType, k) {
      if k < |rounds| {
        assert more[..k] == rounds[..k];
        assert ReadAt(rounds, all, size, batchType, k);
      } else {
        assert more[..k] == rounds;
      }
    }
  }

  /** `pop_results`: pops while the front is ready, or until empty when blocking. `readiness` is how many futures at
      the front are ready. */
  method PopResults<R>(ghost func: Func<R>, ghost examples: seq<Example>, ghost jobs: seq<BatchJob>,
                       ghost outcomes: seq<Outcome<R>>, results: seq<Outcome<R>>, written: seq<R>, blocking: bool,
                       readiness: nat)
    returns (rest: seq<Outcome<R>>, out: seq<R>, threw: bool)
    requires Pipeline(func, examples, jobs, outcomes, written, results)
    ensures Pipeline(func, examples, jobs, outcomes, out, rest)
    ensures threw ==> rest != [] && rest[0] == Exception
    ensures blocking && !threw ==> rest == []
    ensures |out| + |rest| == |written| + |results| && |rest| <= |results|
    ensures !blocking && !threw ==> |results| - |rest| == if readiness < |results| then readiness else |results|
    ensures !blocking && threw ==> |results| - |rest| < readiness
  {
    hide FuturesOf;
    rest, out, threw := results, written, false;
    var ready := readiness;
    while rest != [] && (blocking || ready > 0)
      invariant Pipeline(func, examples, jobs, outcomes, out, rest)
      invariant |out| + |rest| == |written| + |results| && |rest| <= |results|
      invariant ready == if |results| - |rest| < readiness then readiness - (|results| - |rest|) else 0
      invariant !blocking ==> |results| - |rest| <= readiness
      decreases |rest|
    {
      if rest[0] == Exception {
        threw := true;
        return;
      }
      PipelinePop(func, examples, jobs, outcomes, out, rest);
      out := out + [rest[0].v];
      rest := rest[1..];
      ready := if ready > 0 then ready - 1 else 0;
    }
  }

  /** What has been read, posted and written: each round as many examples as the read size allows, cut by the batch
      limit; `outcomes` what the futures of the examples read hold, in input order; the first of them written. */
  ghost predicate Consumption<R>(func: Func<R>, all: seq<Example>, rounds: seq<Round>, outcomes: seq<Outcome<R>>,
                                 written: seq<R>, size: nat, maxBatchSize: nat, batchType: BatchType) {
    && |outcomes| <= |all| && ExamplesRead(rounds) == all[..|outcomes|]
    && ReadInTurn(rounds, all, size, batchType) && AllCut(rounds, maxBatchSize, batchType)
    && FuturesOf(func, ExamplesRead(rounds), JobsPosted(rounds), outcomes) && WrittenFrom(outcomes, written)
  }

  lemma ConsumedSoFar<R>(func: Func<R>, all: seq<Example>, rounds: seq<Round>, outcomes: seq<Outcome<R>>,
                         written: seq<R>, results: seq<Outcome<R>>, size: nat, maxBatchSize: nat, batchType: BatchType)
    requires |outcomes| <= |all| && Pipeline(func, all[..|outcomes|], JobsPosted(rounds), outcomes, written, results)
    requires Consuming(rounds, all, |outcomes|, size, maxBatchSize, batchType)
    ensures Consumption(func, all, rounds, outcomes, written, size, maxBatchSize, batchType)
    ensures results == [] ==> |written| == |outcomes|
    ensures results != [] ==> |written| < |outcomes| && outcomes[|written|] == results[0]
    ensures (forall b :: !func.fails(b)) && results != [] ==> results[0].Value?
  {
    hide FuturesOf, WrittenFrom, ReadInTurn, AllCut, ExamplesRead, JobsPosted, Pipeline;
    PipelinePrefix(func, all, JobsPosted(rounds), outcomes, written, results);
  }

  /** The next examples of the stream `all`, of which n have been read. */
  method ReadNext(reader: VectorReader, ghost all: seq<Example>, ghost n: nat, size: nat, batchType: BatchType)
    returns (r: Batching.Result<seq<Example>>)
    requires reader.Valid() && n <= |all| && reader.remaining == all[n..]
    modifies reader
    ensures reader.Valid() && (r.InvalidArgument? <==> size == 0)
    ensures r.InvalidArgument? ==> reader.remaining == all[n..]
    ensures r.Ok? ==>
              && (r.value == [] <==> n == |all|)
              && n + |r.value| <= |all| && r.value == all[n..n + |r.value|] && reader.remaining == all[n + |r.value|..]
              && (r.value != [] ==> LongestWithin(all[n..], |r.value|, size, batchType, false))
  {
    hide LongestWithin;
    r := reader.GetNext(size, batchType);
    if r.Ok? {
      PartNotEmpty(all[n..], r.value, size, batchType, false);
      TakePart(all, n, r.value, reader.remaining);
    }
  }

  /** Results are written in input order, whichever futures happen to be ready (readiness: an arbitrary
      number of ready front futures after each read). `outcomes` is what the futures of the examples read
      hold, in input order: the loop writes all of them, or those before the first exception. Each round reads
      as many examples as the read size allows and posts them cut by the batch limit; together the jobs of all
      rounds carry each example read once. */
  method ConsumeBatches<R>(reader: VectorReader, func: Func<R>, maxBatchSize: nat, readBatchSize: nat,
                           batchType: BatchType, sort: SortOp, readiness: nat -> nat)
    returns (status: Consumed, written: seq<R>, ghost rounds: seq<Round>, ghost outcomes: seq<Outcome<R>>)
    requires reader.Valid()
    modifies reader
    ensures status == BadBatchSize <==> maxBatchSize == 0 && readBatchSize == 0
    ensures var size := if readBatchSize != 0 then readBatchSize
                        else if maxBatchSize == 1 then 1 else maxBatchSize * 16;
            Consumption(func, old(reader.remaining), rounds, outcomes, written, size, maxBatchSize, batchType)
    ensures status == Done ==> |written| == |outcomes| == |old(reader.remaining)| && reader.remaining == []
    ensures status == Threw ==> |written| < |outcomes| && outcomes[|written|] == Exception
    ensures status == BadBatchSize ==> outcomes == []
    ensures (forall b :: !func.fails(b)) ==> status != Threw
  {
    hide Pipeline, Consumption, Consuming, JobsPosted, LongestWithin;
    var size := if readBatchSize != 0 then readBatchSize
                else if maxBatchSize == 1 then maxBatchSize else maxBatchSize * 16;
    var results: seq<Outcome<R>> := [];
    written, rounds, outcomes, status := [], [], [], Done;
    ghost var all := reader.remaining;
    reader.NoneEmpty();
    NothingQueued(func, all);
    NothingRead(all, size, maxBatchSize, batchType);
    var threw;
    var round := 0;
    while true
      invariant reader.Valid() && |outcomes| <= |all| && reader.remaining == all[|outcomes|..]
      invariant size == 0 ==> outcomes == []
      invariant forall i :: 0 <= i < |all| ==> !all[i].Empty()
      invariant Pipeline(func, all[..|outcomes|], JobsPosted(rounds), outcomes, written, results)
      invariant Consuming(rounds, all, |outcomes|, size, maxBatchSize, batchType)
      decreases |all| - |outcomes|
    {
      var r := ReadNext(reader, all, |outcomes|, size, batchType);
      if r.InvalidArgument? {
        ConsumedSoFar(func, all, rounds, outcomes, written, results, size, maxBatchSize, batchType);
        status := BadBatchSize;
        return;
      }
      var examples := r.value;
      if examples == [] {
        break;
      }
      results, rounds, outcomes :=
        Enqueue(func, all, rounds, outcomes, examples, written, results, size, maxBatchSize, batchType, sort);
      results, written, threw :=
        PopResults(func, all[..|outcomes|], JobsPosted(rounds), outcomes, results, written, false, readiness(round));
      if threw {
        ConsumedSoFar(func, all, rounds, outcomes, written, results, size, maxBatchSize, batchType);
        status := Threw;
        return;
      }
      round := round + 1;
    }
    results, written, threw :=
      PopResults(func, all[..|outcomes|], JobsPosted(rounds), outcomes, results, written, true, 0);
    ConsumedSoFar(func, all, rounds, outcomes, written, results, size, maxBatchSize, batchType);
    if threw {
      status := Threw;
    }
  }

  lemma NothingRead(all: seq<Example>, size: nat, maxBatchSize: nat, batchType: BatchType)
    ensures Consuming([], all, 0, size, maxBatchSize, batchType)
  {
  }

  lemma ReadSoFar(rounds: seq<Round>, all: seq<Example>, n: nat, size: nat, maxBatchSize: nat, batchType: BatchType)
    requires Consuming(rounds, all, n, size, maxBatchSize, batchType)
    ensures n <= |all| && ExamplesRead(rounds) == all[..n] && AllCut(rounds, maxBatchSize, batchType)
    ensures ReadInTurn(rounds, all, size, batchType)
  {
  }

  /** One round's `post_examples` and the emplacing of its futures. */
  method Enqueue<R>(func: Func<R>, ghost all: seq<Example>, ghost rounds: seq<Round>, ghost outcomes: seq<Outcome<R>>,
                    examples: seq<Example>, ghost written: seq<R>, results: seq<Outcome<R>>, ghost size: nat,
                    maxBatchSize: nat, batchType: BatchType, sort: SortOp)
    returns (queue: seq<Outcome<R>>, ghost moreRounds: seq<Round>, ghost more: seq<Outcome<R>>)
    requires |outcomes| + |examples| <= |all| && examples == all[|outcomes|..|outcomes| + |examples|]
    requires forall i :: 0 <= i < |all| ==> !all[i].Empty()
    requires Pipeline(func, all[..|outcomes|], JobsPosted(rounds), outcomes, written, results)
    requires Consuming(rounds, all, |outcomes|, size, maxBatchSize, batchType)
    requires LongestWithin(all[|outcomes|..], |examples|, size, batchType, false)
    ensures |more| == |outcomes| + |examples|
    ensures Pipeline(func, all[..|more|], JobsPosted(moreRounds), more, written, queue)
    ensures Consuming(moreRounds, all, |more|, size, maxBatchSize, batchType)
  {
    hide FuturesOf, Consuming, LongestWithin, Pipeline, JobsOf, JobsPosted, ExamplesRead;
    forall i | 0 <= i < |examples| ensures !examples[i].Empty() {
      assert examples[i] == all[|outcomes| + i];
    }
    var futures, posted := PostAndRun(func, examples, maxBatchSize, batchType, sort);
    FuturesLength(func, examples, posted.jobs, futures);
    assert all[..|outcomes| + |examples|] == all[..|outcomes|] + examples;
    ReadSoFar(rounds, all, |outcomes|, size, maxBatchSize, batchType);
    RoundAdded(rounds, posted);
    PipelinePush(func, all[..|outcomes|], JobsPosted(rounds), outcomes, examples, posted.jobs, written, results,
                 futures);
    OneMoreRound(rounds, all, |outcomes|, size, maxBatchSize, batchType, posted);
    queue := results + futures;
    moreRounds := rounds + [posted];
    more := outcomes + futures;
  }

  lemma FuturesLength<R>(func: Func<R>, examples: seq<Example>, jobs: seq<BatchJob>, futures: seq<Outcome<R>>)
    requires FuturesOf(func, examples, jobs, futures)
    ensures |futures| == |examples|
  {
  }

  /** The first outcomes are the values written. */
  ghost predicate WrittenFrom<R>(outcomes: seq<Outcome<R>>, written: seq<R>) {
    |written| <= |outcomes| && forall i :: 0 <= i < |written| ==> outcomes[i] == Value(written[i])
  }

  /** Written results and queued futures together are the outcomes of the examples read so far, in order. */
  ghost predicate Pipeline<R>(func: Func<R>, examples: seq<Example>, jobs: seq<BatchJob>, outcomes: seq<Outcome<R>>,
                              written: seq<R>, results: seq<Outcome<R>>) {
    FuturesOf(func, examples, jobs, outcomes) && WrittenFrom(outcomes, written) && results == outcomes[|written|..]
  }

  lemma NothingQueued<R>(func: Func<R>, all: seq<Example>)
    ensures Pipeline(func, all[..0], JobsPosted([]), [], [], [])
  {
  }

  lemma PipelinePush<R>(func: Func<R>, examples: seq<Example>, jobs: seq<BatchJob>, outcomes: seq<Outcome<R>>,
                        more: seq<Example>, posted: seq<BatchJob>, written: seq<R>, results: seq<Outcome<R>>,
                        futures: seq<Outcome<R>>)
    requires Pipeline(func, examples, jobs, outcomes, written, results) && FuturesOf(func, more, posted, futures)
    ensures |outcomes| == |examples|
    ensures Pipeline(func, examples + more, jobs + Later(posted, |outcomes|), outcomes + futures, written,
                     results + futures)
  {
    hide FuturesOf;
    FuturesLength(func, examples, jobs, outcomes);
    FuturesJoin(func, examples, jobs, outcomes, more, posted, futures);
    assert (outcomes + futures)[|written|..] == outcomes[|written|..] + futures;
  }

  lemma PipelinePop<R>(func: Func<R>, examples: seq<Example>, jobs: seq<BatchJob>, outcomes: seq<Outcome<R>>,
                       written: seq<R>, results: seq<Outcome<R>>)
    requires Pipeline(func, examples, jobs, outcomes, written, results) && results != [] && results[0].Value?
    ensures Pipeline(func, examples, jobs, outcomes, written + [results[0].v], results[1..])
  {
    hide FuturesOf;
    assert outcomes[|written|] == results[0];
    assert outcomes[|written| + 1..] == outcomes[|written|..][1..];
  }

  lemma PipelinePrefix<R>(func: Func<R>, all: seq<Example>, jobs: seq<BatchJob>, outcomes: seq<Outcome<R>>,
                          written: seq<R>, results: seq<Outcome<R>>)
    requires |outcomes| <= |all| && Pipeline(func, all[..|outcomes|], jobs, outcomes, written, results)
    ensures FuturesOf(func, all[..|outcomes|], jobs, outcomes) && WrittenFrom(outcomes, written)
    ensures results == [] ==> |written| == |outcomes|
    ensures results != [] ==> |written| < |outcomes| && outcomes[|written|] == results[0]
    ensures (forall b :: !func.fails(b)) && results != [] ==> results[0].Value?
  {
    if results != [] {
      assert FutureOf(func, jobs, all[..|outcomes|][|written|], |written|, Some(outcomes[|written|]));
    }
  }

  // ----- A function that treats each example of a batch alone -----

  ghost predicate RowWise<R>(func: Func<R>, f: Example -> R) {
    forall batch: Batch, k :: 0 <= k < |batch.examples| ==> func.results(batch, k) == f(batch.examples[k])
  }

  function Results<R>(f: Example -> R, examples: seq<Example>): (r: seq<R>)
    ensures |r| == |examples| && forall k :: 0 <= k < |r| ==> r[k] == f(examples[k])
  {
    seq(|examples|, k requires 0 <= k < |examples| => f(examples[k]))
  }

  /** Then what is written are the f(example), in input order, whatever the batches. */
  lemma WrittenRowWise<R>(func: Func<R>, f: Example -> R, examples: seq<Example>, jobs: seq<BatchJob>,
                          outcomes: seq<Outcome<R>>, written: seq<R>)
    requires RowWise(func, f) && FuturesOf(func, examples, jobs, outcomes) && WrittenFrom(outcomes, written)
    ensures written == Results(f, examples[..|written|])
  {
    forall i | 0 <= i < |written| ensures written[i] == f(examples[i]) {
      assert FutureOf(func, jobs, examples[i], i, Some(outcomes[i]));
    }
  }
}
