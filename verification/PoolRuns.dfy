/** The jobs of `post_examples` on the worker pool: include/ctranslate2/replica_pool.h on src/thread_pool.cc.

    A run interleaves the atomic steps of the pool with the set_value and set_exception calls that the workers make
    inside `BatchJob::run`. It shows which schedules of these calls the pool can produce. */
module PoolRuns {
  import opened Options
  import opened Vectors
  import opened Batching
  import opened ReplicaPool
  import Pool = ThreadPool

  /** The pool, how far the loop over the promises of each job has come, and the set calls so far. */
  datatype State = State(pool: Pool.State, made: seq<nat>, calls: seq<(nat, nat)>)

  /** A step of the pool, or the next set call of job j by the worker that runs it. */
  datatype Event = PoolStep(step: Pool.Step) | SetCall(w: nat, j: nat)

  /** A job returns from `run` once its loop is through. Job j is the `number(j)`-th job posted to the pool;
      others may be posted in between. */
  ghost predicate Enabled(jobs: seq<BatchJob>, number: nat -> nat, s: State, e: Event) {
    && |s.made| == |jobs|
    && match e
       case PoolStep(step) =>
         && Pool.Enabled(s.pool, step)
         && (step.RunJob? ==> LoopsDone(jobs, number, s, s.pool.workers[step.w].job))
       case SetCall(w, j) =>
         && w < |s.pool.workers| && j < |jobs| && s.pool.workers[w] == Pool.Running(number(j))
         && s.made[j] < |jobs[j].promises|
  }

  ghost predicate LoopsDone(jobs: seq<BatchJob>, number: nat -> nat, s: State, job: nat)
    requires |s.made| == |jobs|
  {
    forall j :: 0 <= j < |jobs| && number(j) == job ==> s.made[j] == |jobs[j].promises|
  }

  ghost function Apply(jobs: seq<BatchJob>, number: nat -> nat, s: State, e: Event): State
    requires Enabled(jobs, number, s, e)
  {
    match e
    case PoolStep(step) => s.(pool := Pool.Apply(s.pool, step))
    case SetCall(w, j) => s.(made := s.made[j := s.made[j] + 1], calls := s.calls + [(j, s.made[j])])
  }

  /** The state after any interleaving, or None if an event was not enabled. */
  ghost function After(jobs: seq<BatchJob>, number: nat -> nat, s: State, events: seq<Event>): Option<State> {
    if events == [] then Some(s)
    else
      var before := After(jobs, number, s, events[..|events| - 1]);
      var e := events[|events| - 1];
      if before.Some? && Enabled(jobs, number, before.value, e) then Some(Apply(jobs, number, before.value, e))
      else None
  }

  function Init(jobs: seq<BatchJob>, maximumSize: nat, numWorkers: nat, numPosters: nat): State {
    State(Pool.Init(maximumSize, numWorkers, numPosters), seq(|jobs|, _ => 0), [])
  }

  /** The steps of the pool alone. */
  function PoolSteps(events: seq<Event>): seq<Pool.Step> {
    if events == [] then []
    else
      PoolSteps(events[..|events| - 1])
      + match events[|events| - 1] { case PoolStep(step) => [step] case SetCall(_, _) => [] }
  }

  lemma PoolStepAlone(jobs: seq<BatchJob>, number: nat -> nat, s: State, e: Event)
    requires Enabled(jobs, number, s, e)
    ensures e.PoolStep? ==>
              Pool.Enabled(s.pool, e.step) && Apply(jobs, number, s, e).pool == Pool.Apply(s.pool, e.step)
    ensures e.SetCall? ==> Apply(jobs, number, s, e).pool == s.pool
  {
  }

  /** The pool does not see the set calls. */
  lemma {:induction false} PoolAlone(jobs: seq<BatchJob>, number: nat -> nat, s: State, events: seq<Event>)
    requires After(jobs, number, s, events).Some?
    ensures Pool.After(s.pool, PoolSteps(events)) == Some(After(jobs, number, s, events).value.pool)
  {
    hide Enabled, Apply, Pool.Enabled, Pool.Apply;
    if events != [] {
      var m := |events| - 1;
      PoolAlone(jobs, number, s, events[..m]);
      PoolStepAlone(jobs, number, After(jobs, number, s, events[..m]).value, events[m]);
      if events[m].PoolStep? {
        var steps := PoolSteps(events);
        assert steps == PoolSteps(events[..m]) + [events[m].step];
        assert steps[..|steps| - 1] == PoolSteps(events[..m]);
      } else {
        assert PoolSteps(events) == PoolSteps(events[..m]);
      }
    }
  }

  // ----- The calls made so far -----

  /** The calls of each job are its first ones, each once, and all of them when the job has run. */
  ghost predicate Inv(jobs: seq<BatchJob>, number: nat -> nat, s: State) {
    && |s.made| == |jobs| && Distinct(s.calls)
    && (forall c :: 0 <= c < |s.calls| ==> s.calls[c].0 < |jobs| && s.calls[c].1 < s.made[s.calls[c].0])
    && (forall j, k :: 0 <= j < |jobs| && 0 <= k < s.made[j] ==> (j, k) in s.calls)
    && (forall j :: 0 <= j < |jobs| ==>
          s.made[j] <= |jobs[j].promises| && (number(j) in s.pool.ran ==> s.made[j] == |jobs[j].promises|))
  }

  lemma InvPoolStep(jobs: seq<BatchJob>, number: nat -> nat, s: State, step: Pool.Step)
    requires Inv(jobs, number, s) && Enabled(jobs, number, s, PoolStep(step))
    ensures Inv(jobs, number, Apply(jobs, number, s, PoolStep(step)))
  {
    var ran := Pool.Apply(s.pool, step).ran;
    assert ran == if step.RunJob? then s.pool.ran + [s.pool.workers[step.w].job] else s.pool.ran;
  }

  lemma InvSetCall(jobs: seq<BatchJob>, number: nat -> nat, s: State, w: nat, j: nat)
    requires Inv(jobs, number, s) && Enabled(jobs, number, s, SetCall(w, j))
    ensures Inv(jobs, number, Apply(jobs, number, s, SetCall(w, j)))
  {
    var r := Apply(jobs, number, s, SetCall(w, j));
    assert (j, s.made[j]) !in s.calls;
    assert r.calls[|s.calls|] == (j, s.made[j]);
    forall j', k | 0 <= j' < |jobs| && 0 <= k < r.made[j'] ensures (j', k) in r.calls {
      if (j', k) != (j, s.made[j]) {
        assert (j', k) in s.calls;
      }
    }
  }

  lemma {:induction false} InvAfter(jobs: seq<BatchJob>, number: nat -> nat, s: State, events: seq<Event>)
    requires Inv(jobs, number, s) && After(jobs, number, s, events).Some?
    ensures Inv(jobs, number, After(jobs, number, s, events).value)
  {
    hide Inv, Enabled, Apply;
    if events != [] {
      var m := |events| - 1;
      InvAfter(jobs, number, s, events[..m]);
      var before := After(jobs, number, s, events[..m]).value;
      match events[m]
      case PoolStep(step) => InvPoolStep(jobs, number, before, step);
      case SetCall(w, j) => InvSetCall(jobs, number, before, w, j);
    }
  }

  lemma Reached(jobs: seq<BatchJob>, number: nat -> nat, maximumSize: nat, numWorkers: nat, numPosters: nat,
                events: seq<Event>, s: State)
    requires After(jobs, number, Init(jobs, maximumSize, numWorkers, numPosters), events) == Some(s)
    ensures Inv(jobs, number, s)
    ensures Pool.After(Pool.Init(maximumSize, numWorkers, numPosters), PoolSteps(events)) == Some(s.pool)
  {
    hide After;
    var init := Init(jobs, maximumSize, numWorkers, numPosters);
    assert Inv(jobs, number, init);
    InvAfter(jobs, number, init, events);
    PoolAlone(jobs, number, init, events);
  }

  /** At any time of any run no promise has been set twice, and exactly the called ones are set. */
  lemma NeverSetTwice<R>(func: Func<R>, examples: seq<Example>, order: seq<nat>, jobs: seq<BatchJob>,
                         number: nat -> nat, maximumSize: nat, numWorkers: nat, numPosters: nat,
                         events: seq<Event>, s: State)
    requires IsPermutation(order, |examples|) && WellFormed(jobs, examples)
    requires Concat(Promises(jobs)) == order[..|Ready(Gather(examples, order))|]
    requires After(jobs, number, Init(jobs, maximumSize, numWorkers, numPosters), events) == Some(s)
    ensures forall c :: 0 <= c < |s.calls| ==> IsCall(jobs, s.calls[c])
    ensures var shared := Play(func, Pending(|examples|), jobs, s.calls);
            shared.Slots? && |shared.slots| == |examples| && Fulfilled(func, jobs, s.calls, shared.slots)
  {
    hide After, Fulfilled, Play, Ready, Gather, Concat;
    Reached(jobs, number, maximumSize, numWorkers, numPosters, events, s);
    CallsOfJobs(examples, jobs, number, s);
    PartialSchedule(func, |examples|, jobs, s.calls);
  }

  lemma CallsOfJobs(examples: seq<Example>, jobs: seq<BatchJob>, number: nat -> nat, s: State)
    requires WellFormed(jobs, examples) && Inv(jobs, number, s)
    ensures forall c :: 0 <= c < |s.calls| ==> IsCall(jobs, s.calls[c])
  {
    forall c | 0 <= c < |s.calls| ensures IsCall(jobs, s.calls[c]) {
      assert NamedBy(jobs[s.calls[c].0].batch, examples);
    }
  }

  /** Calls of a job are made only after a worker has taken it from the queue. */
  ghost predicate CallsTaken(jobs: seq<BatchJob>, number: nat -> nat, s: State) {
    && Pool.HeldWasTaken(s.pool) && |s.made| == |jobs|
    && forall j :: 0 <= j < |jobs| && s.made[j] > 0 ==> number(j) in s.pool.gotOrder
  }

  lemma {:induction false} TakenBeforeCalls(jobs: seq<BatchJob>, number: nat -> nat, maximumSize: nat,
                                            numWorkers: nat, numPosters: nat, events: seq<Event>)
    ensures var r := After(jobs, number, Init(jobs, maximumSize, numWorkers, numPosters), events);
            r.Some? ==> CallsTaken(jobs, number, r.value)
  {
    hide Enabled, Apply, CallsTaken;
    var init := Init(jobs, maximumSize, numWorkers, numPosters);
    if events == [] {
      NothingTaken(jobs, number, init);
    } else {
      var m := |events| - 1;
      TakenBeforeCalls(jobs, number, maximumSize, numWorkers, numPosters, events[..m]);
      var before := After(jobs, number, init, events[..m]);
      if before.Some? && Enabled(jobs, number, before.value, events[m]) {
        TakenEvent(jobs, number, before.value, events[m]);
      }
    }
  }

  lemma NothingTaken(jobs: seq<BatchJob>, number: nat -> nat, s: State)
    requires forall w :: 0 <= w < |s.pool.workers| ==> !Pool.IsHolding(s.pool.workers[w])
    requires s.pool.ran == [] && |s.made| == |jobs| && forall j :: 0 <= j < |jobs| ==> s.made[j] == 0
    ensures CallsTaken(jobs, number, s)
  {
  }

  lemma TakenEvent(jobs: seq<BatchJob>, number: nat -> nat, s: State, e: Event)
    requires CallsTaken(jobs, number, s) && Enabled(jobs, number, s, e)
    ensures CallsTaken(jobs, number, Apply(jobs, number, s, e))
  {
    hide Pool.Enabled, Pool.Apply;
    match e
    case PoolStep(step) => Pool.TakenStep(s.pool, step);
    case SetCall(w, j) => assert Pool.IsHolding(s.pool.workers[w]);
  }

  // ----- When all jobs have run -----

  /** Once the pool has run its jobs, the calls made are a complete schedule of them. */
  lemma RunIsSchedule(examples: seq<Example>, jobs: seq<BatchJob>, number: nat -> nat, s: State)
    requires WellFormed(jobs, examples) && Inv(jobs, number, s) && Pool.AllRanOnce(s.pool)
    requires forall j :: 0 <= j < |jobs| ==> number(j) < s.pool.posted
    ensures IsSchedule(jobs, s.calls)
  {
    hide IsCall;
    CallsOfJobs(examples, jobs, number, s);
    forall j, k | 0 <= j < |jobs| && 0 <= k < |jobs[j].promises| ensures (j, k) in s.calls {
      assert multiset(s.pool.ran)[number(j)] == 1;
      assert number(j) in s.pool.ran;
    }
  }

  /** The jobs of one `post_examples` call, all posted to the pool. */
  ghost predicate PostedTo(examples: seq<Example>, order: seq<nat>, jobs: seq<BatchJob>, number: nat -> nat,
                           pool: Pool.State) {
    && IsPermutation(order, |examples|) && WellFormed(jobs, examples)
    && Concat(Promises(jobs)) == order[..|Ready(Gather(examples, order))|]
    && forall j :: 0 <= j < |jobs| ==> number(j) < pool.posted
  }

  /** A pool that comes to rest has set all futures of every `post_examples` call (unless a job was put after a
      close). */
  lemma RestFulfils<R>(func: Func<R>, examples: seq<Example>, order: seq<nat>, jobs: seq<BatchJob>,
                       number: nat -> nat, maximumSize: nat, numWorkers: nat, numPosters: nat,
                       events: seq<Event>, s: State)
    requires After(jobs, number, Init(jobs, maximumSize, numWorkers, numPosters), events) == Some(s)
    requires PostedTo(examples, order, jobs, number, s.pool)
    requires maximumSize > 0 && numWorkers > 0 && Pool.Quiet(s.pool) && !s.pool.latePut
    ensures IsSchedule(jobs, s.calls) && AllSet(func, examples, order, jobs, s.calls)
  {
    hide After, AllSet, Ready, Gather, Concat, WellFormed, IsSchedule;
    Reached(jobs, number, maximumSize, numWorkers, numPosters, events, s);
    Pool.RestsOnlyWhenDone(maximumSize, numWorkers, numPosters, PoolSteps(events), s.pool);
    RunIsSchedule(examples, jobs, number, s);
    ScheduleCalls(jobs, s.calls);
    AnySchedule(func, examples, order, jobs, s.calls);
  }

  lemma ScheduleCalls(jobs: seq<BatchJob>, calls: seq<(nat, nat)>)
    requires IsSchedule(jobs, calls)
    ensures forall c :: 0 <= c < |calls| ==> IsCall(jobs, calls[c])
  {
  }

  /** A pool that is destroyed while nobody is inside `post` has set all of them when it has joined its workers:
      the calls that any such run makes are a complete schedule of the jobs. */
  lemma JoinedFulfils<R>(func: Func<R>, examples: seq<Example>, order: seq<nat>, jobs: seq<BatchJob>,
                         number: nat -> nat, maximumSize: nat, numWorkers: nat, numPosters: nat,
                         before: seq<Event>, s: State, after: seq<Event>, r: State)
    requires After(jobs, number, Init(jobs, maximumSize, numWorkers, numPosters), before) == Some(s) && numWorkers > 0
    requires Enabled(jobs, number, s, PoolStep(Pool.Close)) && Pool.NobodyWaits(s.pool)
    requires After(jobs, number, Apply(jobs, number, s, PoolStep(Pool.Close)), after) == Some(r)
    requires Pool.Without(PoolSteps(after), Pool.IsPost) && Pool.Joined(r.pool)
    requires PostedTo(examples, order, jobs, number, r.pool)
    ensures IsSchedule(jobs, r.calls) && AllSet(func, examples, order, jobs, r.calls)
  {
    hide After, AllSet, Ready, Gather, Concat, WellFormed, IsSchedule, Inv, Pool.After;
    Reached(jobs, number, maximumSize, numWorkers, numPosters, before, s);
    var closed := Apply(jobs, number, s, PoolStep(Pool.Close));
    InvPoolStep(jobs, number, s, Pool.Close);
    InvAfter(jobs, number, closed, after);
    PoolAlone(jobs, number, closed, after);
    Pool.JoinedAllRan(maximumSize, numWorkers, numPosters, PoolSteps(before), s.pool, PoolSteps(after), r.pool);
    RunIsSchedule(examples, jobs, number, r);
    ScheduleCalls(jobs, r.calls);
    AnySchedule(func, examples, order, jobs, r.calls);
  }

  // ----- Progress -----

  /** Short of rest, a set call or a step of the pool's own is possible. */
  lemma ProceedsUntilQuiet(jobs: seq<BatchJob>, number: nat -> nat, s: State)
    requires Inv(jobs, number, s) && !Pool.Quiet(s.pool)
    ensures exists e ::
      && Enabled(jobs, number, s, e)
      && (e.SetCall? || (!e.step.StartPost? && !e.step.Close? && !e.step.SpuriousGet? && !e.step.SpuriousPut?))
  {
    Pool.ProceedsUntilQuiet(s.pool);
    var step :| Pool.Enabled(s.pool, step) && !step.StartPost? && !step.Close? && !step.SpuriousGet?
                && !step.SpuriousPut?;
    if step.RunJob? && !LoopsDone(jobs, number, s, s.pool.workers[step.w].job) {
      var j :| 0 <= j < |jobs| && number(j) == s.pool.workers[step.w].job && s.made[j] != |jobs[j].promises|;
      assert Enabled(jobs, number, s, SetCall(step.w, j));
    } else {
      assert Enabled(jobs, number, s, PoolStep(step));
    }
  }

  function Total(made: seq<nat>): nat {
    if made == [] then 0 else Total(made[..|made| - 1]) + made[|made| - 1]
  }

  lemma {:induction false} TotalUpdate(made: seq<nat>, j: nat)
    requires j < |made|
    ensures Total(made[j := made[j] + 1]) == Total(made) + 1
  {
    var m := |made| - 1;
    if j == m {
      assert made[j := made[j] + 1][..m] == made[..m];
    } else {
      TotalUpdate(made[..m], j);
      assert made[j := made[j] + 1][..m] == made[..m][j := made[j] + 1];
    }
  }

  lemma {:induction false} TotalWithin(jobs: seq<BatchJob>, made: seq<nat>)
    requires |made| == |jobs| && forall j :: 0 <= j < |jobs| ==> made[j] <= |jobs[j].promises|
    ensures Total(made) <= |Concat(Promises(jobs))|
  {
    if jobs != [] {
      var m := |jobs| - 1;
      TotalWithin(jobs[..m], made[..m]);
      assert Promises(jobs)[..m] == Promises(jobs[..m]);
    }
  }

  /** Every event is a step of the pool or a set call of its own. */
  lemma {:induction false} EventsCounted(jobs: seq<BatchJob>, number: nat -> nat, s: State, events: seq<Event>)
    requires |s.made| == |jobs| && After(jobs, number, s, events).Some?
    ensures var r := After(jobs, number, s, events).value;
            |r.made| == |jobs| && |events| + Total(s.made) == |PoolSteps(events)| + Total(r.made)
  {
    hide Pool.Enabled, Pool.Apply, Total;
    if events != [] {
      var m := |events| - 1;
      EventsCounted(jobs, number, s, events[..m]);
      if events[m].SetCall? {
        TotalUpdate(After(jobs, number, s, events[..m]).value.made, events[m].j);
      }
    }
  }

  /** No run goes on for ever: its events are the pool's steps, which `RunsAreBounded` bounds, and at most one
      set call per promise. */
  lemma RunsAreBounded(jobs: seq<BatchJob>, number: nat -> nat, maximumSize: nat, numWorkers: nat, numPosters: nat,
                       events: seq<Event>, s: State)
    requires After(jobs, number, Init(jobs, maximumSize, numWorkers, numPosters), events) == Some(s)
    ensures |events| + Pool.Work(s.pool) <= Pool.Work(Pool.Init(maximumSize, numWorkers, numPosters))
              + Pool.Allowance(PoolSteps(events)) + |Concat(Promises(jobs))|
  {
    hide After, Pool.Work, Pool.Allowance, Concat;
    var init := Init(jobs, maximumSize, numWorkers, numPosters);
    Reached(jobs, number, maximumSize, numWorkers, numPosters, events, s);
    EventsCounted(jobs, number, init, events);
    TotalWithin(jobs, s.made);
    NothingMade(init.made);
    Pool.RunsAreBounded(init.pool, PoolSteps(events));
  }

  lemma {:induction false} NothingMade(made: seq<nat>)
    requires forall j :: 0 <= j < |made| ==> made[j] == 0
    ensures Total(made) == 0
  {
    if made != [] { NothingMade(made[..|made| - 1]); }
  }
}
