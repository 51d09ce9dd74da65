/** The worker pool as a state machine over its atomic steps: src/thread_pool.cc.

    A step is what one thread does between two points where another thread can interleave: a critical
    section of the queue mutex, a notification sent after the unlock, or the run or destruction of a
    job. Condition variables wake at most the notified sleepers, lose notifications that find nobody
    asleep, and may wake spuriously. */
module ThreadPool {
  import opened Options

  datatype WorkerPC =
    | Calling           // in `get`, about to test `can_get_job` with the lock held
    | Asleep            // waiting on `_can_get_job`
    | Fetched(job: nat) // has unlocked with a job, has not yet notified `_can_put_job`
    | Running(job: nat)
    | Ran(job: nat)     // `run` has returned, the job is not yet destroyed
    | Exited

  datatype PosterPC =
    | Idle
    | Posting(job: nat)   // in `put`, about to test for a free slot with the lock held
    | Blocked(job: nat)   // waiting on `_can_put_job`
    | Notifying           // has unlocked after the emplace, has not yet notified `_can_get_job`

  datatype CloserPC = Open | FlagSet | AllNotified

  datatype State = State(
    maximumSize: nat, queue: seq<nat>, requestEnd: bool, numActiveJobs: int,
    workers: seq<WorkerPC>, posters: seq<PosterPC>, closer: CloserPC,
    posted: nat,           // jobs are numbered in the order of `post`
    putOrder: seq<nat>, gotOrder: seq<nat>, ran: seq<nat>, destroyed: seq<nat>,
    latePut: bool)         // a job was put after `close` had set its flag

  datatype Step =
    | StartPost(p: nat) | Put(p: nat) | Block(p: nat) | NotifyGet(p: nat, woken: Option<nat>) | SpuriousPut(p: nat)
    | Take(w: nat) | Sleep(w: nat) | Exit(w: nat) | NotifyPut(w: nat, woken: Option<nat>) | SpuriousGet(w: nat)
    | RunJob(w: nat) | Destroy(w: nat)
    | Close | NotifyAll

  function Init(maximumSize: nat, numWorkers: nat, numPosters: nat): State {
    State(maximumSize, [], false, 0, seq(numWorkers, _ => Calling), seq(numPosters, _ => Idle), Open,
          0, [], [], [], [], false)
  }

  /** `notify_one` wakes a sleeper if there is one. */
  ghost predicate WakesOne<T>(pcs: seq<T>, asleep: T -> bool, woken: Option<nat>) {
    match woken
    case Some(t) => t < |pcs| && asleep(pcs[t])
    case None => forall t :: 0 <= t < |pcs| ==> !asleep(pcs[t])
  }

  ghost predicate Enabled(s: State, step: Step) {
    match step
    case StartPost(p) => p < |s.posters| && s.posters[p].Idle?
    case Put(p) => p < |s.posters| && s.posters[p].Posting? && |s.queue| < s.maximumSize
    case Block(p) => p < |s.posters| && s.posters[p].Posting? && |s.queue| >= s.maximumSize
    case NotifyGet(p, woken) =>
      p < |s.posters| && s.posters[p].Notifying? && WakesOne(s.workers, (pc: WorkerPC) => pc.Asleep?, woken)
    case SpuriousPut(p) => p < |s.posters| && s.posters[p].Blocked?
    case Take(w) => w < |s.workers| && s.workers[w].Calling? && s.queue != []
    case Sleep(w) => w < |s.workers| && s.workers[w].Calling? && s.queue == [] && !s.requestEnd
    case Exit(w) => w < |s.workers| && s.workers[w].Calling? && s.queue == [] && s.requestEnd
    case NotifyPut(w, woken) =>
      w < |s.workers| && s.workers[w].Fetched? && WakesOne(s.posters, (pc: PosterPC) => pc.Blocked?, woken)
    case SpuriousGet(w) => w < |s.workers| && s.workers[w].Asleep?
    case RunJob(w) => w < |s.workers| && s.workers[w].Running?
    case Destroy(w) => w < |s.workers| && s.workers[w].Ran?
    case Close => s.closer.Open?
    case NotifyAll => s.closer.FlagSet?
  }

  function Wake(pc: WorkerPC): WorkerPC { if pc.Asleep? then Calling else pc }

  function WakeAll(pcs: seq<WorkerPC>): (r: seq<WorkerPC>)
    ensures |r| == |pcs| && forall k :: 0 <= k < |r| ==> r[k] == Wake(pcs[k])
  {
    seq(|pcs|, k requires 0 <= k < |pcs| => Wake(pcs[k]))
  }

  ghost function Apply(s: State, step: Step): State
    requires Enabled(s, step)
  {
    match step
    case StartPost(p) =>
      s.(posters := s.posters[p := Posting(s.posted)], posted := s.posted + 1, numActiveJobs := s.numActiveJobs + 1)
    case Put(p) =>
      var job := s.posters[p].job;
      s.(queue := s.queue + [job], posters := s.posters[p := Notifying], putOrder := s.putOrder + [job],
         latePut := s.latePut || s.requestEnd)
    case Block(p) => s.(posters := s.posters[p := Blocked(s.posters[p].job)])
    case NotifyGet(p, woken) =>
      s.(posters := s.posters[p := Idle],
         workers := if woken.Some? then s.workers[woken.value := Calling] else s.workers)
    case SpuriousPut(p) => s.(posters := s.posters[p := Posting(s.posters[p].job)])
    case Take(w) =>
      s.(queue := s.queue[1..], workers := s.workers[w := Fetched(s.queue[0])], gotOrder := s.gotOrder + [s.queue[0]])
    case Sleep(w) => s.(workers := s.workers[w := Asleep])
    case Exit(w) => s.(workers := s.workers[w := Exited])
    case NotifyPut(w, woken) =>
      s.(workers := s.workers[w := Running(s.workers[w].job)],
         posters := if woken.Some? then s.posters[woken.value := Posting(s.posters[woken.value].job)] else s.posters)
    case SpuriousGet(w) => s.(workers := s.workers[w := Calling])
    case RunJob(w) => s.(workers := s.workers[w := Ran(s.workers[w].job)], ran := s.ran + [s.workers[w].job])
    case Destroy(w) =>
      s.(workers := s.workers[w := Calling], destroyed := s.destroyed + [s.workers[w].job],
         numActiveJobs := s.numActiveJobs - 1)
    case Close => s.(closer := FlagSet, requestEnd := true)
    case NotifyAll => s.(closer := AllNotified, workers := WakeAll(s.workers))
  }

  /** The state after any interleaving, or None if a step was not enabled. */
  ghost function After(s: State, steps: seq<Step>): Option<State> {
    if steps == [] then Some(s)
    else
      var before := After(s, steps[..|steps| - 1]);
      var step := steps[|steps| - 1];
      if before.Some? && Enabled(before.value, step) then Some(Apply(before.value, step)) else None
  }

  // ----- Counting threads and collecting their jobs -----

  ghost function Count<T>(pcs: seq<T>, f: T -> bool): nat {
    if pcs == [] then 0 else Count(pcs[..|pcs| - 1], f) + if f(pcs[|pcs| - 1]) then 1 else 0
  }

  lemma {:induction false} CountUpdate<T>(pcs: seq<T>, i: nat, x: T, f: T -> bool)
    requires i < |pcs|
    ensures Count(pcs[i := x], f) == Count(pcs, f) - (if f(pcs[i]) then 1 else 0) + if f(x) then 1 else 0
  {
    var m := |pcs| - 1;
    if i == m {
      assert pcs[i := x][..m] == pcs[..m];
    } else {
      CountUpdate(pcs[..m], i, x, f);
      assert pcs[i := x][..m] == pcs[..m][i := x];
    }
  }

  lemma {:induction false} CountZero<T>(pcs: seq<T>, f: T -> bool)
    ensures Count(pcs, f) == 0 <==> forall k :: 0 <= k < |pcs| ==> !f(pcs[k])
  {
    if pcs != [] { CountZero(pcs[..|pcs| - 1], f); }
  }

  lemma {:induction false} CountWake(pcs: seq<WorkerPC>, f: WorkerPC -> bool)
    requires f(Asleep) == f(Calling)
    ensures Count(WakeAll(pcs), f) == Count(pcs, f)
  {
    if pcs != [] {
      var m := |pcs| - 1;
      CountWake(pcs[..m], f);
      assert WakeAll(pcs)[..m] == WakeAll(pcs[..m]);
    }
  }

  function IsCalling(pc: WorkerPC): bool { pc.Calling? }
  function IsAsleep(pc: WorkerPC): bool { pc.Asleep? }
  function IsFetched(pc: WorkerPC): bool { pc.Fetched? }
  function IsPosting(pc: PosterPC): bool { pc.Posting? }
  function IsBlocked(pc: PosterPC): bool { pc.Blocked? }
  function IsNotifying(pc: PosterPC): bool { pc.Notifying? }

  function IsHolding(pc: WorkerPC): bool { pc.Fetched? || pc.Running? || pc.Ran? }
  function IsWaiting(pc: PosterPC): bool { pc.Posting? || pc.Blocked? }
  function Holds(j: nat): WorkerPC -> bool { (pc: WorkerPC) => IsHolding(pc) && pc.job == j }
  function HasRun(j: nat): WorkerPC -> bool { (pc: WorkerPC) => pc.Ran? && pc.job == j }
  function Waits(j: nat): PosterPC -> bool { (pc: PosterPC) => IsWaiting(pc) && pc.job == j }

  // ----- No lost wake-ups -----

  /** A sleeping worker leaves no more queued jobs than workers about to look and notifications on the way. */
  ghost predicate NoLostGet(s: State) {
    Count(s.workers, IsAsleep) > 0 ==>
      |s.queue| <= Count(s.workers, IsCalling) + Count(s.posters, IsNotifying)
  }

  /** The mirror: free slots against posters about to look and notifications on the way. */
  ghost predicate NoLostPut(s: State) {
    Count(s.posters, IsBlocked) > 0 ==>
      s.maximumSize - |s.queue| <= Count(s.posters, IsPosting) + Count(s.workers, IsFetched)
  }

  /** Once `close` has notified all, no worker sleeps. */
  ghost predicate CloseWakes(s: State) {
    && (s.requestEnd <==> !s.closer.Open?)
    && (s.closer.AllNotified? ==> Count(s.workers, IsAsleep) == 0)
  }

  function One(b: bool): nat { if b then 1 else 0 }

  lemma WorkerCounts(s: State, w: nat, pc: WorkerPC)
    requires w < |s.workers|
    ensures var r := s.workers[w := pc];
            && Count(r, IsAsleep) + One(IsAsleep(s.workers[w])) == Count(s.workers, IsAsleep) + One(IsAsleep(pc))
            && Count(r, IsCalling) + One(IsCalling(s.workers[w])) == Count(s.workers, IsCalling) + One(IsCalling(pc))
            && Count(r, IsFetched) + One(IsFetched(s.workers[w])) == Count(s.workers, IsFetched) + One(IsFetched(pc))
  {
    CountUpdate(s.workers, w, pc, IsAsleep);
    CountUpdate(s.workers, w, pc, IsCalling);
    CountUpdate(s.workers, w, pc, IsFetched);
  }

  lemma PosterCounts(s: State, p: nat, pc: PosterPC)
    requires p < |s.posters|
    ensures var r := s.posters[p := pc];
            && Count(r, IsBlocked) + One(IsBlocked(s.posters[p])) == Count(s.posters, IsBlocked) + One(IsBlocked(pc))
            && Count(r, IsPosting) + One(IsPosting(s.posters[p])) == Count(s.posters, IsPosting) + One(IsPosting(pc))
            && Count(r, IsNotifying) + One(IsNotifying(s.posters[p]))
               == Count(s.posters, IsNotifying) + One(IsNotifying(pc))
  {
    CountUpdate(s.posters, p, pc, IsBlocked);
    CountUpdate(s.posters, p, pc, IsPosting);
    CountUpdate(s.posters, p, pc, IsNotifying);
  }

  lemma PosterStepCounts(s: State, step: Step)
    requires Enabled(s, step)
    requires step.StartPost? || step.Put? || step.Block? || step.NotifyGet? || step.SpuriousPut?
    ensures NoLostGet(s) ==> NoLostGet(Apply(s, step))
    ensures NoLostPut(s) ==> NoLostPut(Apply(s, step))
  {
    hide Count;
    match step
    case StartPost(p) => PosterCounts(s, p, Posting(s.posted));
    case Put(p) => PosterCounts(s, p, Notifying);
    case Block(p) => PosterCounts(s, p, Blocked(s.posters[p].job));
    case NotifyGet(p, woken) =>
      PosterCounts(s, p, Idle);
      if woken.Some? {
        WorkerCounts(s, woken.value, Calling);
      } else {
        CountZero(s.workers, IsAsleep);
      }
    case SpuriousPut(p) => PosterCounts(s, p, Posting(s.posters[p].job));
  }

  lemma WorkerStepCounts(s: State, step: Step)
    requires Enabled(s, step)
    requires step.Take? || step.Sleep? || step.Exit? || step.SpuriousGet? || step.RunJob? || step.Destroy?
    ensures NoLostGet(s) ==> NoLostGet(Apply(s, step))
    ensures NoLostPut(s) ==> NoLostPut(Apply(s, step))
  {
    hide Count;
    match step
    case Take(w) => WorkerCounts(s, w, Fetched(s.queue[0]));
    case Sleep(w) => WorkerCounts(s, w, Asleep);
    case Exit(w) => WorkerCounts(s, w, Exited);
    case SpuriousGet(w) => WorkerCounts(s, w, Calling);
    case RunJob(w) => WorkerCounts(s, w, Ran(s.workers[w].job));
    case Destroy(w) => WorkerCounts(s, w, Calling);
  }

  /** The updates a step makes to the thread counts. */
  lemma StepCounts(s: State, step: Step)
    requires Enabled(s, step)
    ensures NoLostGet(s) ==> NoLostGet(Apply(s, step))
    ensures NoLostPut(s) ==> NoLostPut(Apply(s, step))
  {
    hide Count;
    if step.StartPost? || step.Put? || step.Block? || step.NotifyGet? || step.SpuriousPut? {
      PosterStepCounts(s, step);
    } else if step.Take? || step.Sleep? || step.Exit? || step.SpuriousGet? || step.RunJob? || step.Destroy? {
      WorkerStepCounts(s, step);
    } else if step.NotifyPut? {
      WorkerCounts(s, step.w, Running(s.workers[step.w].job));
      if step.woken.Some? {
        PosterCounts(s, step.woken.value, Posting(s.posters[step.woken.value].job));
      } else {
        CountZero(s.posters, IsBlocked);
      }
    } else if step.NotifyAll? {
      CountZero(Apply(s, step).workers, IsAsleep);
      CountWake(s.workers, IsFetched);
    }
  }

  lemma CloseWakesStep(s: State, step: Step)
    requires Enabled(s, step) && CloseWakes(s)
    ensures CloseWakes(Apply(s, step))
  {
    match step
    case Take(w) => WorkerCounts(s, w, Fetched(s.queue[0]));
    case Sleep(w) => WorkerCounts(s, w, Asleep);
    case Exit(w) => WorkerCounts(s, w, Exited);
    case NotifyGet(p, woken) => if woken.Some? { WorkerCounts(s, woken.value, Calling); }
    case NotifyPut(w, woken) => WorkerCounts(s, w, Running(s.workers[w].job));
    case SpuriousGet(w) => WorkerCounts(s, w, Calling);
    case RunJob(w) => WorkerCounts(s, w, Ran(s.workers[w].job));
    case Destroy(w) => WorkerCounts(s, w, Calling);
    case NotifyAll => CountZero(Apply(s, step).workers, IsAsleep);
    case _ =>
  }

  // ----- Accounting of jobs -----

  /** A posted job is in exactly one of waiting, queued, held and destroyed; it has run if it is destroyed
      or about to be. */
  ghost predicate AccountedFor(s: State, j: nat) {
    && Count(s.posters, Waits(j)) + multiset(s.queue)[j] + Count(s.workers, Holds(j)) + multiset(s.destroyed)[j]
       == (if j < s.posted then 1 else 0)
    && multiset(s.ran)[j] == multiset(s.destroyed)[j] + Count(s.workers, HasRun(j))
  }

  ghost predicate Accounted(s: State) {
    forall j: nat :: AccountedFor(s, j)
  }

  /** The counter counts the waiting, queued and held jobs. */
  ghost predicate Counted(s: State) {
    s.numActiveJobs == Count(s.posters, IsWaiting) + |s.queue| + Count(s.workers, IsHolding)
  }

  ghost predicate QueueInOrder(s: State) {
    |s.queue| <= s.maximumSize && s.putOrder == s.gotOrder + s.queue
  }

  /** Without late puts, a worker that has exited leaves an empty queue behind. */
  ghost predicate Drained(s: State) {
    forall w :: 0 <= w < |s.workers| && s.workers[w].Exited? ==> s.requestEnd && (!s.latePut ==> s.queue == [])
  }

  lemma WorkerJobs(s: State, w: nat, pc: WorkerPC, j: nat)
    requires w < |s.workers|
    ensures var r := s.workers[w := pc];
            && Count(r, Holds(j)) + One(Holds(j)(s.workers[w])) == Count(s.workers, Holds(j)) + One(Holds(j)(pc))
            && Count(r, HasRun(j)) + One(HasRun(j)(s.workers[w])) == Count(s.workers, HasRun(j)) + One(HasRun(j)(pc))
            && Count(r, IsHolding) + One(IsHolding(s.workers[w])) == Count(s.workers, IsHolding) + One(IsHolding(pc))
  {
    CountUpdate(s.workers, w, pc, Holds(j));
    CountUpdate(s.workers, w, pc, HasRun(j));
    CountUpdate(s.workers, w, pc, IsHolding);
  }

  lemma PosterJobs(s: State, p: nat, pc: PosterPC, j: nat)
    requires p < |s.posters|
    ensures var r := s.posters[p := pc];
            && Count(r, Waits(j)) + One(Waits(j)(s.posters[p])) == Count(s.posters, Waits(j)) + One(Waits(j)(pc))
            && Count(r, IsWaiting) + One(IsWaiting(s.posters[p])) == Count(s.posters, IsWaiting) + One(IsWaiting(pc))
  {
    CountUpdate(s.posters, p, pc, Waits(j));
    CountUpdate(s.posters, p, pc, IsWaiting);
  }

  lemma AccountedPost(s: State, step: Step, j: nat)
    requires Enabled(s, step) && (step.StartPost? || step.Put? || step.Block? || step.SpuriousPut?)
    ensures AccountedFor(s, j) ==> AccountedFor(Apply(s, step), j)
    ensures Counted(s) ==> Counted(Apply(s, step))
  {
    hide Count;
    PosterJobs(s, step.p, Apply(s, step).posters[step.p], j);
  }

  lemma AccountedTake(s: State, step: Step, j: nat)
    requires Enabled(s, step) && step.Take?
    ensures AccountedFor(s, j) ==> AccountedFor(Apply(s, step), j)
    ensures Counted(s) ==> Counted(Apply(s, step))
  {
    hide Count;
    var job := s.queue[0];
    assert s.queue == [job] + s.queue[1..];
    assert multiset(s.queue)[j] == multiset(s.queue[1..])[j] + if job == j then 1 else 0;
    WorkerJobs(s, step.w, Fetched(job), j);
  }

  lemma AccountedRun(s: State, step: Step, j: nat)
    requires Enabled(s, step) && (step.RunJob? || step.Destroy?)
    ensures AccountedFor(s, j) ==> AccountedFor(Apply(s, step), j)
    ensures Counted(s) ==> Counted(Apply(s, step))
  {
    hide Count;
    WorkerJobs(s, step.w, Apply(s, step).workers[step.w], j);
  }

  lemma AccountedWait(s: State, step: Step, j: nat)
    requires Enabled(s, step) && (step.Sleep? || step.Exit? || step.SpuriousGet?)
    ensures AccountedFor(s, j) ==> AccountedFor(Apply(s, step), j)
    ensures Counted(s) ==> Counted(Apply(s, step))
  {
    hide Count;
    WorkerJobs(s, step.w, Apply(s, step).workers[step.w], j);
  }

  lemma AccountedNotify(s: State, step: Step, j: nat)
    requires Enabled(s, step) && (step.NotifyGet? || step.NotifyPut?)
    ensures AccountedFor(s, j) ==> AccountedFor(Apply(s, step), j)
    ensures Counted(s) ==> Counted(Apply(s, step))
  {
    hide Count;
    if step.NotifyGet? {
      PosterJobs(s, step.p, Idle, j);
      if step.woken.Some? { WorkerJobs(s, step.woken.value, Calling, j); }
    } else {
      WorkerJobs(s, step.w, Running(s.workers[step.w].job), j);
      if step.woken.Some? { PosterJobs(s, step.woken.value, Posting(s.posters[step.woken.value].job), j); }
    }
  }

  lemma AccountedStep(s: State, step: Step, j: nat)
    requires Enabled(s, step)
    ensures AccountedFor(s, j) ==> AccountedFor(Apply(s, step), j)
    ensures Counted(s) ==> Counted(Apply(s, step))
  {
    if step.StartPost? || step.Put? || step.Block? || step.SpuriousPut? {
      AccountedPost(s, step, j);
    } else if step.Take? {
      AccountedTake(s, step, j);
    } else if step.NotifyGet? || step.NotifyPut? {
      AccountedNotify(s, step, j);
    } else if step.NotifyAll? {
      CountWake(s.workers, Holds(j));
      CountWake(s.workers, HasRun(j));
      CountWake(s.workers, IsHolding);
    } else if step.RunJob? || step.Destroy? {
      AccountedRun(s, step, j);
    } else if !step.Close? {
      AccountedWait(s, step, j);
    }
  }

  lemma OrderStep(s: State, step: Step)
    requires Enabled(s, step) && QueueInOrder(s) && Drained(s)
    ensures QueueInOrder(Apply(s, step)) && Drained(Apply(s, step))
  {
  }

  // ----- Whole runs -----

  ghost predicate Inv(s: State) {
    NoLostGet(s) && NoLostPut(s) && CloseWakes(s) && Accounted(s) && Counted(s) && QueueInOrder(s) && Drained(s)
  }

  lemma InvStep(s: State, step: Step)
    requires Enabled(s, step) && Inv(s)
    ensures Inv(Apply(s, step))
  {
    StepCounts(s, step);
    CloseWakesStep(s, step);
    OrderStep(s, step);
    AccountedStep(s, step, 0);
    forall j: nat ensures AccountedFor(Apply(s, step), j) {
      AccountedStep(s, step, j);
    }
  }

  lemma InvInit(s: State)
    requires s == Init(s.maximumSize, |s.workers|, |s.posters|)
    ensures Inv(s)
  {
    CountZero(s.workers, IsAsleep);
    CountZero(s.posters, IsBlocked);
    NothingHeld(s);
  }

  lemma NothingHeld(s: State)
    requires forall w :: 0 <= w < |s.workers| ==> !IsHolding(s.workers[w])
    requires forall p :: 0 <= p < |s.posters| ==> !IsWaiting(s.posters[p])
    ensures Count(s.workers, IsHolding) == Count(s.posters, IsWaiting) == 0
    ensures forall j: nat ::
      Count(s.workers, Holds(j)) == Count(s.workers, HasRun(j)) == Count(s.posters, Waits(j)) == 0
  {
    CountZero(s.workers, IsHolding);
    CountZero(s.posters, IsWaiting);
    forall j: nat ensures Count(s.workers, Holds(j)) == Count(s.workers, HasRun(j)) == Count(s.posters, Waits(j)) == 0 {
      CountZero(s.workers, Holds(j));
      CountZero(s.workers, HasRun(j));
      CountZero(s.posters, Waits(j));
    }
  }

  /** Every state that any interleaving reaches keeps all the invariants. */
  lemma {:induction false} Safety(maximumSize: nat, numWorkers: nat, numPosters: nat, steps: seq<Step>)
    ensures var r := After(Init(maximumSize, numWorkers, numPosters), steps);
            r.Some? ==> Inv(r.value) && |r.value.workers| == numWorkers && r.value.maximumSize == maximumSize
  {
    var init := Init(maximumSize, numWorkers, numPosters);
    if steps == [] {
      InvInit(init);
    } else {
      var before := After(init, steps[..|steps| - 1]);
      var step := steps[|steps| - 1];
      Safety(maximumSize, numWorkers, numPosters, steps[..|steps| - 1]);
      if before.Some? && Enabled(before.value, step) {
        InvStep(before.value, step);
      }
    }
  }

  /** A queued job never sits with every live worker asleep and no notification on the way; a free slot
      never sits with a blocked poster and nobody about to look. */
  lemma NoStall(maximumSize: nat, numWorkers: nat, numPosters: nat, steps: seq<Step>, s: State)
    requires After(Init(maximumSize, numWorkers, numPosters), steps) == Some(s)
    ensures s.queue != [] && (exists w :: 0 <= w < |s.workers| && s.workers[w].Asleep?) ==>
              || (exists w :: 0 <= w < |s.workers| && s.workers[w].Calling?)
              || (exists p :: 0 <= p < |s.posters| && s.posters[p].Notifying?)
    ensures |s.queue| < maximumSize && (exists p :: 0 <= p < |s.posters| && s.posters[p].Blocked?) ==>
              || (exists p :: 0 <= p < |s.posters| && s.posters[p].Posting?)
              || (exists w :: 0 <= w < |s.workers| && s.workers[w].Fetched?)
  {
    Safety(maximumSize, numWorkers, numPosters, steps);
    CountZero(s.workers, IsAsleep);
    CountZero(s.workers, IsCalling);
    CountZero(s.workers, IsFetched);
    CountZero(s.posters, IsNotifying);
    CountZero(s.posters, IsPosting);
    CountZero(s.posters, IsBlocked);
  }

  /** A state in which only a new post, a close or a spurious wake-up can happen. */
  ghost predicate Quiet(s: State) {
    && (forall w :: 0 <= w < |s.workers| ==> s.workers[w].Asleep? || s.workers[w].Exited?)
    && (forall p :: 0 <= p < |s.posters| ==> s.posters[p].Idle? || s.posters[p].Blocked?)
    && !s.closer.FlagSet?
  }

  /** The jobs that ran are exactly the posted ones, each once. */
  ghost predicate AllRanOnce(s: State) {
    forall j: nat :: multiset(s.ran)[j] == if j < s.posted then 1 else 0
  }

  lemma AllAccounted(s: State)
    requires Accounted(s) && s.queue == []
    requires forall j: nat ::
      Count(s.workers, Holds(j)) == Count(s.workers, HasRun(j)) == Count(s.posters, Waits(j)) == 0
    ensures AllRanOnce(s) && multiset(s.ran) == multiset(s.destroyed)
  {
    forall j: nat ensures multiset(s.ran)[j] == multiset(s.destroyed)[j] == if j < s.posted then 1 else 0 {
      assert AccountedFor(s, j);
    }
  }

  /** The destructor has joined every worker. */
  ghost predicate Joined(s: State) {
    forall w :: 0 <= w < |s.workers| ==> s.workers[w].Exited?
  }

  ghost predicate NobodyWaits(s: State) {
    forall p :: 0 <= p < |s.posters| ==> !IsWaiting(s.posters[p])
  }

  /** Nothing is left to do: no job queued, active or unrun, and no poster waiting. */
  ghost predicate AllDone(s: State) {
    s.queue == [] && s.numActiveJobs == 0 && AllRanOnce(s) && NobodyWaits(s)
  }

  /** A pool with a worker and a slot comes to rest only with nothing left to do, unless a job was put after
      the close; after a close all its workers have exited. */
  lemma RestsOnlyWhenDone(maximumSize: nat, numWorkers: nat, numPosters: nat, steps: seq<Step>, s: State)
    requires After(Init(maximumSize, numWorkers, numPosters), steps) == Some(s) && Quiet(s)
    requires maximumSize > 0 && numWorkers > 0
    ensures s.requestEnd ==> Joined(s)
    ensures !s.latePut ==> AllDone(s)
  {
    Safety(maximumSize, numWorkers, numPosters, steps);
    LatePutClosed(maximumSize, numWorkers, numPosters, steps);
    CountZero(s.workers, IsAsleep);
    CountZero(s.workers, IsCalling);
    CountZero(s.workers, IsFetched);
    CountZero(s.posters, IsNotifying);
    CountZero(s.posters, IsPosting);
    CountZero(s.posters, IsBlocked);
    assert s.workers[0].Asleep? || s.workers[0].Exited?;
    if !s.latePut {
      NothingHeld(s);
      AllAccounted(s);
    }
  }

  /** A late put is one after the close. */
  lemma {:induction false} LatePutClosed(maximumSize: nat, numWorkers: nat, numPosters: nat, steps: seq<Step>)
    ensures var r := After(Init(maximumSize, numWorkers, numPosters), steps);
            r.Some? && r.value.latePut ==> r.value.requestEnd
  {
    if steps != [] {
      LatePutClosed(maximumSize, numWorkers, numPosters, steps[..|steps| - 1]);
    }
  }

  // ----- The destructor -----

  ghost predicate Without(steps: seq<Step>, excluded: Step -> bool) {
    forall k :: 0 <= k < |steps| ==> !excluded(steps[k])
  }

  function IsPost(step: Step): bool { step.StartPost? }
  function IsPut(step: Step): bool { step.Put? }

  lemma {:induction false} AfterFrom(s: State, a: seq<Step>, b: seq<Step>)
    requires After(s, a).Some?
    ensures After(s, a + b) == After(After(s, a).value, b)
  {
    if b == [] {
      assert a + b == a;
    } else {
      var m := |b| - 1;
      AfterFrom(s, a, b[..m]);
      assert (a + b)[..|a + b| - 1] == a + b[..m];
    }
  }

  lemma {:induction false} AfterEarlier(s: State, steps: seq<Step>, k: nat)
    requires After(s, steps).Some? && k <= |steps|
    ensures After(s, steps[..k]).Some?
  {
    if k == |steps| {
      assert steps[..k] == steps;
    } else {
      var m := |steps| - 1;
      AfterEarlier(s, steps[..m], k);
      assert steps[..m][..k] == steps[..k];
    }
  }

  /** In a joined pool all jobs have run exactly if none is queued and nobody waits to put one. */
  lemma JoinedState(s: State)
    requires Inv(s) && Joined(s)
    ensures AllRanOnce(s) <==> s.queue == [] && NobodyWaits(s)
    ensures AllRanOnce(s) ==> AllDone(s) && multiset(s.ran) == multiset(s.destroyed)
  {
    if s.queue == [] && NobodyWaits(s) {
      NothingHeld(s);
      AllAccounted(s);
    }
    if s.queue != [] {
      NotRun(s, s.queue[0]);
    }
    if p :| 0 <= p < |s.posters| && IsWaiting(s.posters[p]) {
      CountZero(s.posters, Waits(s.posters[p].job));
      assert Waits(s.posters[p].job)(s.posters[p]);
      NotRun(s, s.posters[p].job);
    }
  }

  /** A job that is queued or waits to be put has been posted and has not run. */
  lemma NotRun(s: State, j: nat)
    requires Accounted(s) && (j in s.queue || Count(s.posters, Waits(j)) > 0)
    ensures j < s.posted && multiset(s.ran)[j] == 0
  {
    assert AccountedFor(s, j);
    RanWithinHeld(s.workers, j);
    assert j in s.queue ==> multiset(s.queue)[j] > 0;
  }

  /** After the last exit the pool stays joined, and its queue holds the jobs put since then. */
  lemma {:induction false} JoinedStays(s: State, steps: seq<Step>)
    requires Joined(s) && After(s, steps).Some?
    ensures var r := After(s, steps).value;
            Joined(r) && |r.workers| == |s.workers| && |s.queue| <= |r.queue|
            && (|r.queue| == |s.queue| <==> Without(steps, IsPut))
  {
    if steps != [] {
      var m := |steps| - 1;
      JoinedStays(s, steps[..m]);
      JoinedStep(After(s, steps[..m]).value, steps[m]);
      assert steps == steps[..m] + [steps[m]];
      assert forall k :: 0 <= k < m ==> steps[..m][k] == steps[k];
      assert Without(steps, IsPut) <==> Without(steps[..m], IsPut) && !IsPut(steps[m]);
    }
  }

  lemma JoinedStep(s: State, step: Step)
    requires Joined(s) && Enabled(s, step)
    ensures var r := Apply(s, step);
            Joined(r) && |r.workers| == |s.workers| && |r.queue| == |s.queue| + if IsPut(step) then 1 else 0
  {
  }

  /** In a pool whose last worker exits after `before`, all posted jobs have run in the end exactly if no
      job is put after that exit and no poster is left waiting to put one. */
  lemma JoinedRunIff(maximumSize: nat, numWorkers: nat, numPosters: nat, before: seq<Step>, w: nat, after: seq<Step>,
                     s: State)
    requires var init := Init(maximumSize, numWorkers, numPosters);
             && After(init, before + [Exit(w)]).Some? && Joined(After(init, before + [Exit(w)]).value)
             && After(init, before + [Exit(w)] + after) == Some(s)
    ensures AllRanOnce(s) <==> Without(after, IsPut) && NobodyWaits(s)
  {
    var init := Init(maximumSize, numWorkers, numPosters);
    var exited := before + [Exit(w)];
    assert exited[..|exited| - 1] == before;
    Safety(maximumSize, numWorkers, numPosters, exited + after);
    AfterFrom(init, exited, after);
    JoinedStays(After(init, exited).value, after);
    JoinedState(s);
  }

  /** `after` continues the close of s, without new posts, until every worker is joined. */
  ghost predicate ClosesTo(s: State, after: seq<Step>, r: State)
    requires Enabled(s, Close)
  {
    Without(after, IsPost) && After(Apply(s, Close), after) == Some(r) && Joined(r)
  }

  lemma {:induction false} NobodyComes(s: State, steps: seq<Step>)
    requires NobodyWaits(s) && !s.latePut && Without(steps, IsPost) && After(s, steps).Some?
    ensures NobodyWaits(After(s, steps).value) && !After(s, steps).value.latePut
  {
    hide NobodyWaits, Apply;
    if steps != [] {
      var m := |steps| - 1;
      assert forall k :: 0 <= k < m ==> steps[..m][k] == steps[k];
      NobodyComes(s, steps[..m]);
      assert !IsPost(steps[m]);
      NobodyComesIn(After(s, steps[..m]).value, steps[m]);
    }
  }

  lemma NobodyComesIn(s: State, step: Step)
    requires NobodyWaits(s) && !s.latePut && !IsPost(step) && Enabled(s, step)
    ensures NobodyWaits(Apply(s, step)) && !Apply(s, step).latePut
  {
  }

  /** When the pool is closed while no poster is inside `put` and nothing is posted afterwards, every posted
      job has run exactly once and been destroyed when the destructor has joined. */
  lemma JoinedAllRan(maximumSize: nat, numWorkers: nat, numPosters: nat, before: seq<Step>, s: State,
                     after: seq<Step>, r: State)
    requires After(Init(maximumSize, numWorkers, numPosters), before) == Some(s) && numWorkers > 0
    requires Enabled(s, Close) && NobodyWaits(s) && ClosesTo(s, after, r)
    ensures AllDone(r) && r.putOrder == r.gotOrder && multiset(r.ran) == multiset(r.destroyed)
  {
    InvClosed(maximumSize, numWorkers, numPosters, before, s, after);
    LatePutClosed(maximumSize, numWorkers, numPosters, before);
    NobodyComes(Apply(s, Close), after);
    assert r.workers[0].Exited?;
    JoinedState(r);
  }

  lemma InvClosed(maximumSize: nat, numWorkers: nat, numPosters: nat, before: seq<Step>, s: State, after: seq<Step>)
    requires After(Init(maximumSize, numWorkers, numPosters), before) == Some(s) && Enabled(s, Close)
    requires After(Apply(s, Close), after).Some?
    ensures var r := After(Apply(s, Close), after).value;
            Inv(s) && Inv(r) && |s.workers| == |r.workers| == numWorkers
  {
    var init := Init(maximumSize, numWorkers, numPosters);
    var closed := before + [Close];
    assert closed[..|closed| - 1] == before;
    AfterFrom(init, closed, after);
    Safety(maximumSize, numWorkers, numPosters, before);
    Safety(maximumSize, numWorkers, numPosters, closed + after);
  }

  /** A worker's next step once everybody is awake and the end is requested. */
  ghost function NextStep(s: State, w: nat): (r: Step)
    requires w < |s.workers| && !s.workers[w].Exited? && !s.workers[w].Asleep? && s.requestEnd
    ensures Enabled(s, r) && !r.StartPost? && Allowance([r]) == 0
    ensures r.Take? || r.Exit? || r.NotifyPut? || r.RunJob? || r.Destroy?
  {
    assert [Exit(w)][..0] == [];
    match s.workers[w]
    case Calling => if s.queue == [] then Exit(w) else Take(w)
    case Fetched(_) =>
      (var woken := if t: nat :| t < |s.posters| && s.posters[t].Blocked? then Some(t) else None;
       NotifyPut(w, woken))
    case Running(_) => RunJob(w)
    case Ran(_) => Destroy(w)
  }

  /** One step of a worker that nobody can put to sleep any more. */
  lemma WorkerStep(s: State, w: nat, j: nat)
    requires s.requestEnd && Count(s.workers, IsAsleep) == 0 && w < |s.workers| && !s.workers[w].Exited?
    ensures !s.workers[w].Asleep?
    ensures var step := NextStep(s, w);
            var r := Apply(s, step);
            && r.requestEnd && Count(r.workers, IsAsleep) == 0 && |r.workers| == |s.workers| && Work(r) < Work(s)
            && Count(r.posters, Waits(j)) == Count(s.posters, Waits(j))
  {
    hide Count, Work, NextStep;
    CountZero(s.workers, IsAsleep);
    var step := NextStep(s, w);
    var r := Apply(s, step);
    CountZero(r.workers, IsAsleep);
    WorkStep(s, step);
    if step.NotifyPut? && step.woken.Some? {
      PosterJobs(s, step.woken.value, Posting(s.posters[step.woken.value].job), j);
    }
  }

  /** After the close the workers alone can run to their ends, whoever waits to put a job. */
  lemma {:induction false} Drain(s: State, j: nat) returns (steps: seq<Step>)
    requires s.requestEnd && Count(s.workers, IsAsleep) == 0
    ensures After(s, steps).Some? && Without(steps, IsPost) && Joined(After(s, steps).value)
    ensures Count(After(s, steps).value.posters, Waits(j)) == Count(s.posters, Waits(j))
    decreases Work(s)
  {
    hide Apply, Work, Count, NextStep, Enabled;
    steps := [];
    if w: nat :| w < |s.workers| && !s.workers[w].Exited? {
      WorkerStep(s, w, j);
      var step := NextStep(s, w);
      var rest := Drain(Apply(s, step), j);
      OneStep(s, step);
      AfterFrom(s, [step], rest);
      steps := [step] + rest;
    }
  }

  lemma OneStep(s: State, step: Step)
    requires Enabled(s, step)
    ensures After(s, [step]) == Some(Apply(s, step))
  {
    assert [step][..0] == [];
  }

  /** Exactly when a pool is closed safely: every way the close can go on, without further posts, to the join
      of all workers has run all jobs, if and only if no poster is inside `put` at the close. */
  lemma ClosesSafelyIff(maximumSize: nat, numWorkers: nat, numPosters: nat, before: seq<Step>, s: State)
    requires After(Init(maximumSize, numWorkers, numPosters), before) == Some(s) && numWorkers > 0 && Enabled(s, Close)
    ensures (forall after, r :: ClosesTo(s, after, r) ==> AllRanOnce(r)) <==> NobodyWaits(s)
  {
    if NobodyWaits(s) {
      forall after, r | ClosesTo(s, after, r) ensures AllRanOnce(r) {
        JoinedAllRan(maximumSize, numWorkers, numPosters, before, s, after, r);
      }
    } else {
      var p :| 0 <= p < |s.posters| && IsWaiting(s.posters[p]);
      var after, r := LosesJob(maximumSize, numWorkers, numPosters, before, s, p);
      assert ClosesTo(s, after, r) && !AllRanOnce(r);
    }
  }

  /** If a poster is inside `put`, the workers may all leave before its job is in the queue. */
  lemma LosesJob(maximumSize: nat, numWorkers: nat, numPosters: nat, before: seq<Step>, s: State, p: nat)
    returns (after: seq<Step>, r: State)
    requires After(Init(maximumSize, numWorkers, numPosters), before) == Some(s) && Enabled(s, Close)
    requires p < |s.posters| && IsWaiting(s.posters[p])
    ensures ClosesTo(s, after, r) && !AllRanOnce(r)
  {
    hide Work, Count;
    var j := s.posters[p].job;
    CountZero(s.posters, Waits(j));
    assert Waits(j)(s.posters[p]);
    var closed := Apply(s, Close);
    OneStep(closed, NotifyAll);
    var awake := Apply(closed, NotifyAll);
    CountZero(awake.workers, IsAsleep);
    var rest := Drain(awake, j);
    AfterFrom(closed, [NotifyAll], rest);
    after := [NotifyAll] + rest;
    r := After(closed, after).value;
    InvClosed(maximumSize, numWorkers, numPosters, before, s, after);
    NotRun(r, j);
  }

  ghost predicate Leads(s: State, step: Step, r: State) {
    Enabled(s, step) && Apply(s, step) == r
  }

  /** A run given with its states. */
  lemma {:induction false} RunThrough(s: State, steps: seq<Step>, states: seq<State>)
    requires |states| == |steps| + 1 && states[0] == s
    requires forall k :: 0 <= k < |steps| ==> Leads(states[k], steps[k], states[k + 1])
    ensures After(s, steps) == Some(states[|steps|])
  {
    if steps != [] {
      var m := |steps| - 1;
      RunThrough(s, steps[..m], states[..m + 1]);
      assert Leads(states[m], steps[m], states[m + 1]);
    }
  }

  /** One slot, one worker, two posters: the second post blocks on the full queue before the close. */
  const LOST_BEFORE: seq<Step> := [StartPost(0), Put(0), NotifyGet(0, None), StartPost(1), Block(1)]

  const BEFORE_STATES: seq<State> := [
    State(1, [], false, 0, [Calling], [Idle, Idle], Open, 0, [], [], [], [], false),
    State(1, [], false, 1, [Calling], [Posting(0), Idle], Open, 1, [], [], [], [], false),
    State(1, [0], false, 1, [Calling], [Notifying, Idle], Open, 1, [0], [], [], [], false),
    State(1, [0], false, 1, [Calling], [Idle, Idle], Open, 1, [0], [], [], [], false),
    State(1, [0], false, 2, [Calling], [Idle, Posting(1)], Open, 2, [0], [], [], [], false),
    State(1, [0], false, 2, [Calling], [Idle, Blocked(1)], Open, 2, [0], [], [], [], false)
  ]

  /** The worker takes the first job, wakes the poster and leaves; only then is the second job put. */
  const LOST_AFTER: seq<Step> :=
    [NotifyAll, Take(0), NotifyPut(0, Some(1)), RunJob(0), Destroy(0), Exit(0), Put(1), NotifyGet(1, None)]

  const AFTER_STATES: seq<State> := [
    State(1, [0], true, 2, [Calling], [Idle, Blocked(1)], FlagSet, 2, [0], [], [], [], false),
    State(1, [0], true, 2, [Calling], [Idle, Blocked(1)], AllNotified, 2, [0], [], [], [], false),
    State(1, [], true, 2, [Fetched(0)], [Idle, Blocked(1)], AllNotified, 2, [0], [0], [], [], false),
    State(1, [], true, 2, [Running(0)], [Idle, Posting(1)], AllNotified, 2, [0], [0], [], [], false),
    State(1, [], true, 2, [Ran(0)], [Idle, Posting(1)], AllNotified, 2, [0], [0], [0], [], false),
    State(1, [], true, 1, [Calling], [Idle, Posting(1)], AllNotified, 2, [0], [0], [0], [0], false),
    State(1, [], true, 1, [Exited], [Idle, Posting(1)], AllNotified, 2, [0], [0], [0], [0], false),
    State(1, [1], true, 1, [Exited], [Idle, Notifying], AllNotified, 2, [0, 1], [0], [0], [0], true),
    State(1, [1], true, 1, [Exited], [Idle, Idle], AllNotified, 2, [0, 1], [0], [0], [0], true)
  ]

  lemma LostBefore()
    ensures After(Init(1, 1, 2), LOST_BEFORE) == Some(BEFORE_STATES[5])
  {
    hide After;
    assert Init(1, 1, 2) == BEFORE_STATES[0];
    forall k | 0 <= k < |LOST_BEFORE| ensures Leads(BEFORE_STATES[k], LOST_BEFORE[k], BEFORE_STATES[k + 1]) {
      BeforeStep(k);
    }
    RunThrough(Init(1, 1, 2), LOST_BEFORE, BEFORE_STATES);
  }

  lemma BeforeStep(k: nat)
    requires k < |LOST_BEFORE|
    ensures Leads(BEFORE_STATES[k], LOST_BEFORE[k], BEFORE_STATES[k + 1])
  {
  }

  lemma LostAfter()
    ensures After(AFTER_STATES[0], LOST_AFTER) == Some(AFTER_STATES[8])
  {
    hide After, Leads;
    forall k | 0 <= k < |LOST_AFTER| ensures Leads(AFTER_STATES[k], LOST_AFTER[k], AFTER_STATES[k + 1]) {
      if k < 3 { FirstAfterStep(k); } else if k < 6 { MiddleAfterStep(k); } else { LastAfterStep(k); }
    }
    RunThrough(AFTER_STATES[0], LOST_AFTER, AFTER_STATES);
  }

  lemma FirstAfterStep(k: nat)
    requires k < 3
    ensures Leads(AFTER_STATES[k], LOST_AFTER[k], AFTER_STATES[k + 1])
  {
    assert WakeAll([Calling]) == [Calling];
  }

  lemma MiddleAfterStep(k: nat)
    requires 3 <= k < 6
    ensures Leads(AFTER_STATES[k], LOST_AFTER[k], AFTER_STATES[k + 1])
  {
  }

  lemma LastAfterStep(k: nat)
    requires 6 <= k < 8
    ensures Leads(AFTER_STATES[k], LOST_AFTER[k], AFTER_STATES[k + 1])
  {
  }

  /** A job posted before the close is lost: both posts begin before it and have returned in the end, nothing
      is posted afterwards, the worker is joined, and job 1 sits in the queue. */
  lemma BlockedPostLost()
    ensures var before := After(Init(1, 1, 2), LOST_BEFORE);
            && before.Some? && Enabled(before.value, Close) && before.value.posted == 2
            && var after := After(Apply(before.value, Close), LOST_AFTER);
            && after.Some? && ClosesTo(before.value, LOST_AFTER, after.value)
            && after.value.posters == [Idle, Idle]
            && after.value.queue == [1] && after.value.ran == [0] && !AllRanOnce(after.value)
  {
    hide After;
    LostBefore();
    LostAfter();
    assert Apply(BEFORE_STATES[5], Close) == AFTER_STATES[0];
    assert multiset(AFTER_STATES[8].ran)[1] == 0;
  }

  /** In every reachable state each posted job is in exactly one place, and has run at most once. */
  lemma ExactlyOnePlace(maximumSize: nat, numWorkers: nat, numPosters: nat, steps: seq<Step>, s: State, j: nat)
    requires After(Init(maximumSize, numWorkers, numPosters), steps) == Some(s) && j < s.posted
    ensures Count(s.posters, Waits(j)) + multiset(s.queue)[j] + Count(s.workers, Holds(j))
            + multiset(s.destroyed)[j] == 1
    ensures multiset(s.ran)[j] <= 1
  {
    Safety(maximumSize, numWorkers, numPosters, steps);
    assert AccountedFor(s, j);
    RanWithinHeld(s.workers, j);
  }

  lemma {:induction false} RanWithinHeld(pcs: seq<WorkerPC>, j: nat)
    ensures Count(pcs, HasRun(j)) <= Count(pcs, Holds(j))
  {
    if pcs != [] { RanWithinHeld(pcs[..|pcs| - 1], j); }
  }

  /** Who wakes up is open: a notification may go to any sleeper, goes to nobody only if nobody sleeps, and every
      sleeper may also wake by itself. Whoever wakes looks again. */
  lemma AnyoneMayWake(s: State, p: nat, w: nat)
    requires p < |s.posters| && w < |s.workers|
    ensures s.posters[p].Notifying? && s.workers[w].Asleep? ==>
              && Enabled(s, NotifyGet(p, Some(w))) && !Enabled(s, NotifyGet(p, None))
              && Apply(s, NotifyGet(p, Some(w))).workers[w] == Calling
    ensures s.workers[w].Fetched? && s.posters[p].Blocked? ==>
              && Enabled(s, NotifyPut(w, Some(p))) && !Enabled(s, NotifyPut(w, None))
              && Apply(s, NotifyPut(w, Some(p))).posters[p] == Posting(s.posters[p].job)
    ensures s.workers[w].Asleep? ==>
              Enabled(s, SpuriousGet(w)) && Apply(s, SpuriousGet(w)) == s.(workers := s.workers[w := Calling])
    ensures s.posters[p].Blocked? ==>
              && Enabled(s, SpuriousPut(p))
              && Apply(s, SpuriousPut(p)) == s.(posters := s.posters[p := Posting(s.posters[p].job)])
  {
  }

  /** A job that a worker holds or has run was taken from the queue. */
  ghost predicate HeldWasTaken(s: State) {
    && (forall w :: 0 <= w < |s.workers| && IsHolding(s.workers[w]) ==> s.workers[w].job in s.gotOrder)
    && forall j :: j in s.ran ==> j in s.gotOrder
  }

  lemma TakenStep(s: State, step: Step)
    requires Enabled(s, step) && HeldWasTaken(s)
    ensures HeldWasTaken(Apply(s, step)) && s.gotOrder <= Apply(s, step).gotOrder
  {
  }

  // ----- Progress -----

  ghost function Sum<T>(pcs: seq<T>, weight: T -> nat): nat {
    if pcs == [] then 0 else Sum(pcs[..|pcs| - 1], weight) + weight(pcs[|pcs| - 1])
  }

  lemma {:induction false} SumUpdate<T>(pcs: seq<T>, i: nat, x: T, weight: T -> nat)
    requires i < |pcs|
    ensures Sum(pcs[i := x], weight) + weight(pcs[i]) == Sum(pcs, weight) + weight(x)
  {
    var m := |pcs| - 1;
    if i == m {
      assert pcs[i := x][..m] == pcs[..m];
    } else {
      SumUpdate(pcs[..m], i, x, weight);
      assert pcs[i := x][..m] == pcs[..m][i := x];
    }
  }

  lemma {:induction false} SumWake(pcs: seq<WorkerPC>)
    ensures Sum(WakeAll(pcs), WorkerWork) <= Sum(pcs, WorkerWork) + |pcs|
  {
    if pcs != [] {
      var m := |pcs| - 1;
      SumWake(pcs[..m]);
      assert WakeAll(pcs)[..m] == WakeAll(pcs[..m]);
    }
  }

  function WorkerWork(pc: WorkerPC): nat {
    match pc
    case Calling => 1
    case Asleep => 0
    case Fetched(_) => 5
    case Running(_) => 3
    case Ran(_) => 2
    case Exited => 0
  }

  function PosterWork(pc: PosterPC): nat {
    match pc
    case Idle => 0
    case Posting(_) => 8
    case Blocked(_) => 7
    case Notifying => 2
  }

  /** An upper bound on the steps still possible without new posts and spurious wake-ups. */
  ghost function Work(s: State): nat {
    Sum(s.workers, WorkerWork) + Sum(s.posters, PosterWork) + 5 * |s.queue|
    + match s.closer
      case Open => |s.workers| + 2
      case FlagSet => |s.workers| + 1
      case AllNotified => 0
  }

  /** What an interleaving may spend: each new post buys 8 further steps, each spurious wake-up one. */
  ghost function Allowance(steps: seq<Step>): nat {
    if steps == [] then 0
    else
      var step := steps[|steps| - 1];
      Allowance(steps[..|steps| - 1])
      + (if step.StartPost? then 9 else if step.SpuriousGet? || step.SpuriousPut? then 2 else 0)
  }

  lemma PosterWorkStep(s: State, step: Step)
    requires Enabled(s, step)
    requires step.StartPost? || step.Put? || step.Block? || step.NotifyGet? || step.SpuriousPut?
    ensures Work(Apply(s, step)) + 1 <= Work(s) + Allowance([step])
  {
    hide Sum;
    assert [step][..0] == [];
    SumUpdate(s.posters, step.p, Apply(s, step).posters[step.p], PosterWork);
    if step.NotifyGet? && step.woken.Some? {
      SumUpdate(s.workers, step.woken.value, Calling, WorkerWork);
    }
  }

  lemma WorkerWorkStep(s: State, step: Step)
    requires Enabled(s, step)
    requires step.Take? || step.Sleep? || step.Exit? || step.SpuriousGet? || step.RunJob? || step.Destroy?
    ensures Work(Apply(s, step)) + 1 <= Work(s) + Allowance([step])
  {
    hide Sum;
    assert [step][..0] == [];
    SumUpdate(s.workers, step.w, Apply(s, step).workers[step.w], WorkerWork);
  }

  lemma WorkStep(s: State, step: Step)
    requires Enabled(s, step)
    ensures Work(Apply(s, step)) + 1 <= Work(s) + Allowance([step])
  {
    hide Sum;
    assert [step][..0] == [];
    if step.StartPost? || step.Put? || step.Block? || step.NotifyGet? || step.SpuriousPut? {
      PosterWorkStep(s, step);
    } else if step.Take? || step.Sleep? || step.Exit? || step.SpuriousGet? || step.RunJob? || step.Destroy? {
      WorkerWorkStep(s, step);
    } else if step.NotifyPut? {
      SumUpdate(s.workers, step.w, Apply(s, step).workers[step.w], WorkerWork);
      if step.woken.Some? {
        SumUpdate(s.posters, step.woken.value, Apply(s, step).posters[step.woken.value], PosterWork);
      }
    } else if step.NotifyAll? {
      SumWake(s.workers);
    }
  }

  /** No interleaving with finitely many posts and spurious wake-ups goes on for ever. */
  lemma {:induction false} RunsAreBounded(s: State, steps: seq<Step>)
    requires After(s, steps).Some?
    ensures |steps| + Work(After(s, steps).value) <= Work(s) + Allowance(steps)
  {
    if steps != [] {
      var m := |steps| - 1;
      RunsAreBounded(s, steps[..m]);
      WorkStep(After(s, steps[..m]).value, steps[m]);
      assert [steps[m]][..0] == [];
    }
  }

  /** Short of rest, the pool can take a step of its own: no post, no close, no spurious wake-up. */
  lemma ProceedsUntilQuiet(s: State)
    requires !Quiet(s)
    ensures exists step ::
      Enabled(s, step) && !step.StartPost? && !step.Close? && !step.SpuriousGet? && !step.SpuriousPut?
  {
    if s.closer.FlagSet? {
      assert Enabled(s, NotifyAll);
    } else if w :| 0 <= w < |s.workers| && !s.workers[w].Asleep? && !s.workers[w].Exited? {
      match s.workers[w]
      case Calling => assert Enabled(s, Take(w)) || Enabled(s, Sleep(w)) || Enabled(s, Exit(w));
      case Fetched(_) =>
        var woken := if t: nat :| t < |s.posters| && s.posters[t].Blocked? then Some(t) else None;
        assert Enabled(s, NotifyPut(w, woken));
      case Running(_) => assert Enabled(s, RunJob(w));
      case Ran(_) => assert Enabled(s, Destroy(w));
      case _ => assert false;
    } else {
      var p :| 0 <= p < |s.posters| && !s.posters[p].Idle? && !s.posters[p].Blocked?;
      if s.posters[p].Posting? {
        assert Enabled(s, Put(p)) || Enabled(s, Block(p));
      } else {
        var woken := if t: nat :| t < |s.workers| && s.workers[t].Asleep? then Some(t) else None;
        assert Enabled(s, NotifyGet(p, woken));
      }
    }
  }
}
