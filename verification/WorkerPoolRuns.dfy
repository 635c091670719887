/** The worker pool over every interleaving: jobs are not lost, run in order, and shutdown completes. */
module WorkerPoolRuns {
  import opened Texts
  import opened WorkerPool
  import opened WorkerPoolSafety

  /** Any interleaving of the pool's threads, starting with a pool of `n` workers used by `m` threads. */
  ghost predicate Reaches(n: nat, m: nat, steps: seq<Step>, s: Pool) {
    Legal(Init(n, m), steps) && Run(Init(n, m), steps) == s
  }

  lemma ReachedInv(n: nat, m: nat, steps: seq<Step>, s: Pool)
    requires Reaches(n, m, steps, s)
    ensures Inv(s)
  {
    hide Inv;
    InitInv(n, m);
    RunKeeps(Init(n, m), steps);
  }

  // ---------------------------------------------------------------- what the steps say and what the state says

  /** The jobs that callers came with, in the order in which they locked the mutex. */
  function Enqueued(steps: seq<Step>): seq<Job>
    decreases |steps|
  {
    if steps == [] then []
    else (if steps[0].EnqueueLock? then [steps[0].job] else []) + Enqueued(steps[1..])
  }

  /** How often a worker finished a job. */
  function Finishes(steps: seq<Step>): nat
    decreases |steps|
  {
    if steps == [] then 0 else (if steps[0].WorkerFinish? then 1 else 0) + Finishes(steps[1..])
  }

  /** The job of the caller that holds the mutex and has not pushed it yet. */
  function InHand(s: Pool): seq<Job> {
    if s.owner.Enqueuer? && s.owner.p < |s.producers| && s.producers[s.owner.p].Holding? then [s.producers[s.owner.p].job] else []
  }

  lemma StepRecorded(s: Pool, step: Step)
    requires Mutex(s) && Enabled(s, step)
    ensures var s' := Apply(s, step);
            && s'.log + InHand(s') == s.log + InHand(s) + (if step.EnqueueLock? then [step.job] else [])
            && |s'.done| == |s.done| + (if step.WorkerFinish? then 1 else 0)
            && |s'.workers| == |s.workers| && |s'.producers| == |s.producers|
  {
    var s' := Apply(s, step);
    if step.EnqueueLock? { assert InHand(s') == [step.job] && InHand(s) == []; }
    if step.EnqueuePush? { assert InHand(s') == [] && s.owner == Enqueuer(step.p); }
    if step.EnqueueNotify? { assert InHand(s') == InHand(s) == []; }
  }

  lemma {:induction false} RunRecorded(s: Pool, steps: seq<Step>)
    requires Inv(s) && Legal(s, steps)
    ensures var t := Run(s, steps);
            && t.log + InHand(t) == s.log + InHand(s) + Enqueued(steps)
            && |t.done| == |s.done| + Finishes(steps)
            && |t.workers| == |s.workers| && |t.producers| == |s.producers|
    decreases |steps|
  {
    hide *;
    LegalRun(s, steps);
    if steps == [] {
      assert s.log + InHand(s) + [] == s.log + InHand(s);
    } else {
      var s', first := Apply(s, steps[0]), if steps[0].EnqueueLock? then [steps[0].job] else [];
      InvMutex(s);
      StepRecorded(s, steps[0]);
      StepKeeps(s, steps[0]);
      RunRecorded(s', steps[1..]);
      assert s.log + InHand(s) + first + Enqueued(steps[1..]) == s.log + InHand(s) + (first + Enqueued(steps[1..]));
    }
  }

  lemma LegalRun(s: Pool, steps: seq<Step>)
    requires Legal(s, steps)
    ensures steps == [] ==> Run(s, steps) == s && Enqueued(steps) == [] && Finishes(steps) == 0
    ensures steps != [] ==>
              && Enabled(s, steps[0]) && Legal(Apply(s, steps[0]), steps[1..])
              && Run(s, steps) == Run(Apply(s, steps[0]), steps[1..])
              && Enqueued(steps) == (if steps[0].EnqueueLock? then [steps[0].job] else []) + Enqueued(steps[1..])
              && Finishes(steps) == (if steps[0].WorkerFinish? then 1 else 0) + Finishes(steps[1..])
  {
    hide Enabled, Apply;
  }

  lemma InvMutex(s: Pool)
    requires Inv(s)
    ensures Mutex(s)
  {
  }

  /**
   In every reachable state there are as many workers as the pool was made with, the queue has
   been given exactly the jobs that callers came with, in their order, and as many jobs are done as
   workers have finished.
   */
  lemma StateOfSteps(n: nat, m: nat, steps: seq<Step>, s: Pool)
    requires Reaches(n, m, steps, s)
    ensures |s.workers| == n && |s.producers| == m
    ensures s.log + InHand(s) == Enqueued(steps)
    ensures |s.done| == Finishes(steps)
  {
    hide Inv;
    InitInv(n, m);
    RunRecorded(Init(n, m), steps);
    assert Init(n, m).log + InHand(Init(n, m)) + Enqueued(steps) == Enqueued(steps);
  }

  // ---------------------------------------------------------------- safety

  /** Jobs start in the order they were enqueued, and each is in exactly one of queued, running and done. */
  lemma JobsInOnePlace(n: nat, m: nat, steps: seq<Step>, s: Pool, job: Job)
    requires Reaches(n, m, steps, s)
    ensures s.log == s.started + s.jobs
    ensures multiset(s.log)[job] == multiset(s.jobs)[job] + Total(s.workers, RunningThe(job)) + multiset(s.done)[job]
  {
    hide Total, Reaches;
    ReachedInv(n, m, steps, s);
    assert multiset(s.log) == multiset(s.started) + multiset(s.jobs);
  }

  /**
   No lost wake-up: the workers that are not blocked are enough for the queue, as soon as the
   thread that pushed has notified.
   */
  lemma EnoughUnblocked(n: nat, m: nat, steps: seq<Step>, s: Pool)
    requires Reaches(n, m, steps, s) && !s.owner.Enqueuer?
    ensures Total(s.workers, Unblocked) >= Lesser(|s.jobs|, Total(s.workers, Live))
  {
    ReachedInv(n, m, steps, s);
  }

  // ---------------------------------------------------------------- every interleaving

  /** The scheduler is free: who can go on may do so at any time, and a waiting worker may wake up without reason. */
  lemma AnyoneMayMove(s: Pool, w: nat, p: nat, job: Job)
    requires w < |s.workers| && p < |s.producers|
    ensures Enabled(s, SpuriousWake(w)) <==> s.workers[w] == Waiting
    ensures Enabled(s, WorkerFinish(w)) <==> s.workers[w].Running?
    ensures Enabled(s, WorkerLock(w)) <==> s.workers[w] == Start && s.owner == Nobody
    ensures Enabled(s, EnqueueLock(p, job)) <==> s.producers[p] == Idle && s.owner == Nobody
    ensures Enabled(s, ShutdownCall) <==> s.closer == Open
    ensures s.producers[p].Pushed? ==> (Enabled(s, EnqueueNotify(p, Some(w))) <==> s.workers[w] == Waiting)
  {
  }

  // ---------------------------------------------------------------- no step is missing, and work ends

  /** Steps that neither bring in new work, nor call shutdown, nor are spurious. */
  predicate Internal(step: Step) {
    !step.EnqueueLock? && !step.ShutdownCall? && !step.SpuriousWake?
  }

  function Rank(x: Phase): nat {
    match x
    case Exited => 0
    case Waiting => 0
    case Sleepy => 1
    case Awake => 1
    case Locked => 2
    case Start => 3
    case Running(_) => 4
  }

  function OwnerRank(s: Pool): nat {
    if s.owner.Enqueuer? && s.owner.p < |s.producers| then
      match s.producers[s.owner.p]
      case Idle => 0
      case Holding(_) => 9
      case Pushed => 4
    else 0
  }

  function CloserRank(s: Pool): nat {
    var n := |s.workers|;
    match s.closer
    case Open => 0
    case Called => 4 * n + 4
    case Closing => 4 * n + 3
    case Flagged => 4 * n + 2
    case Joining(k) => if k <= n then n - k + 1 else 0
    case Joined => 0
  }

  function Measure(s: Pool): nat {
    Total(s.workers, Rank) + 4 * |s.jobs| + OwnerRank(s) + CloserRank(s)
  }

  lemma {:induction false} WokenRank(ws: seq<Phase>)
    ensures Total(Woken(ws), Rank) <= Total(ws, Rank) + 3 * |ws|
  {
    if ws != [] {
      assert Woken(ws)[1..] == Woken(ws[1..]);
      WokenRank(ws[1..]);
    }
  }

  lemma WorkerShrinks(s: Pool, step: Step)
    requires Mutex(s) && Tested(s) && Enabled(s, step)
    requires step.WorkerLock? || step.WorkerTest? || step.WorkerWait? || step.WorkerTake? || step.WorkerFinish?
    ensures Measure(Apply(s, step)) < Measure(s)
  {
    hide Total;
    MovesTotal(s, step, Rank);
  }

  lemma OthersShrink(s: Pool, step: Step)
    requires Mutex(s) && Closes(s) && Enabled(s, step)
    requires step.EnqueuePush? || step.EnqueueNotify? || step.ShutdownLock? || step.ShutdownSet? || step.NotifyAll? || step.Join?
    ensures Measure(Apply(s, step)) < Measure(s)
  {
    hide Total;
    MovesTotal(s, step, Rank);
    if step.NotifyAll? { WokenRank(s.workers); }
  }

  lemma Shrinks(s: Pool, step: Step)
    requires Inv(s) && Enabled(s, step) && Internal(step)
    ensures Measure(Apply(s, step)) < Measure(s)
  {
    hide Measure, Enabled, Apply, Mutex, Tested, Closes, Accounted, Left, EnoughAwake;
    if step.WorkerLock? || step.WorkerTest? || step.WorkerWait? || step.WorkerTake? || step.WorkerFinish? {
      WorkerShrinks(s, step);
    } else {
      OthersShrink(s, step);
    }
  }

  /** Without new work, the pool can only take so many steps. */
  lemma {:induction false} WorkIsBounded(s: Pool, steps: seq<Step>)
    requires Inv(s) && Legal(s, steps) && forall i :: 0 <= i < |steps| ==> Internal(steps[i])
    ensures |steps| + Measure(Run(s, steps)) <= Measure(s)
    decreases |steps|
  {
    hide Inv, Enabled, Apply, Measure;
    if steps != [] {
      Shrinks(s, steps[0]);
      StepKeeps(s, steps[0]);
      WorkIsBounded(Apply(s, steps[0]), steps[1..]);
    }
  }

  ghost predicate Stable(s: Pool) {
    forall step :: Internal(step) ==> !Enabled(s, step)
  }

  /** If somebody holds the mutex, that thread can take a step. */
  lemma OwnerMoves(s: Pool) returns (step: Step)
    requires Mutex(s) && !s.owner.Nobody?
    ensures Internal(step) && Enabled(s, step)
  {
    match s.owner
    case Shutdown => step := ShutdownSet;
    case Enqueuer(p) =>
      if s.producers[p].Holding? {
        step := EnqueuePush(p);
      } else if w :| 0 <= w < |s.workers| && s.workers[w].Waiting? {
        step := EnqueueNotify(p, Some(w));
      } else {
        step := EnqueueNotify(p, None);
      }
    case Worker(w) =>
      match s.workers[w]
      case Locked => step := WorkerTest(w);
      case Sleepy => step := WorkerWait(w);
      case Awake => step := WorkerTake(w);
  }

  /** If nobody does, a worker that neither waits nor has exited can take one. */
  lemma WorkerMoves(s: Pool, w: nat) returns (step: Step)
    requires Mutex(s) && s.owner.Nobody? && w < |s.workers| && !s.workers[w].Waiting? && !s.workers[w].Exited?
    ensures Internal(step) && Enabled(s, step)
  {
    step := if s.workers[w].Start? then WorkerLock(w) else WorkerFinish(w);
  }

  /** If all of them do, a call of shutdown goes on until its joins are complete. */
  lemma CloserMoves(s: Pool) returns (step: Step)
    requires Mutex(s) && Closes(s) && s.owner.Nobody? && !s.closer.Open? && !s.closer.Joined?
    requires forall w :: 0 <= w < |s.workers| ==> s.workers[w].Waiting? || s.workers[w].Exited?
    ensures Internal(step) && Enabled(s, step)
  {
    step := if s.closer.Called? then ShutdownLock else if s.closer.Flagged? then NotifyAll else Join;
  }

  lemma {:induction false} NoneUnblocked(ws: seq<Phase>, f: Phase -> nat)
    requires forall i :: 0 <= i < |ws| ==> f(ws[i]) == 0
    ensures Total(ws, f) == 0
  {
    if ws != [] {
      assert f(ws[0]) == 0;
      forall i | 0 <= i < |ws[1..]| ensures f(ws[1..][i]) == 0 { assert ws[1..][i] == ws[i + 1]; }
      NoneUnblocked(ws[1..], f);
    }
  }

  /**
   Deadlock freedom. Where nothing but new work could happen, no job is running and the mutex is
   free; either the pool is idle, with all workers waiting on an empty queue, or shutdown has
   joined all workers and the queue holds just what was pushed after the last of them exited.
   */
  lemma Quiescent(s: Pool)
    requires Inv(s) && Stable(s) && |s.workers| >= 1
    ensures s.owner.Nobody? && forall w :: 0 <= w < |s.workers| ==> !s.workers[w].Running?
    ensures if s.closer.Open? then s.jobs == [] && forall w :: 0 <= w < |s.workers| ==> s.workers[w].Waiting?
            else s.closer.Joined? && AllExited(s) && s.jobs == s.late
  {
    hide Enabled, Total;
    if !s.owner.Nobody? { var step := OwnerMoves(s); }
    forall w | 0 <= w < |s.workers| ensures s.workers[w].Waiting? || s.workers[w].Exited? {
      if !s.workers[w].Waiting? && !s.workers[w].Exited? { var step := WorkerMoves(s, w); }
    }
    if !s.closer.Open? && !s.closer.Joined? { var step := CloserMoves(s); }
    if s.closer.Open? {
      NoneUnblocked(s.workers, Unblocked);
      LiveFirst(s.workers);
    }
  }

  lemma LiveFirst(ws: seq<Phase>)
    requires ws != [] && !ws[0].Exited?
    ensures Total(ws, Live) >= 1
  {
  }

  // ---------------------------------------------------------------- shutdown

  /** The steps of a program that enqueues nothing once shutdown has been called. */
  ghost predicate Orderly(s: Pool, steps: seq<Step>)
    requires Legal(s, steps)
    decreases |steps|
  {
    steps == [] || ((steps[0].EnqueueLock? ==> s.closer.Open?) && Orderly(Apply(s, steps[0]), steps[1..]))
  }

  ghost predicate OnTime(s: Pool) {
    |s.workers| >= 1 && (s.owner.Enqueuer? ==> !s.shutdown) && s.late == []
  }

  lemma OnTimeKept(s: Pool, step: Step)
    requires Inv(s) && OnTime(s) && Enabled(s, step) && (step.EnqueueLock? ==> s.closer.Open?)
    ensures OnTime(Apply(s, step))
  {
    hide Total, Accounted, Left, EnoughAwake;
    if step.EnqueuePush? {
      assert s.owner == Enqueuer(step.p);
      assert !s.workers[0].Exited?;
    }
  }

  lemma {:induction false} OnTimeRun(s: Pool, steps: seq<Step>)
    requires Inv(s) && OnTime(s) && Legal(s, steps) && Orderly(s, steps)
    ensures OnTime(Run(s, steps))
    decreases |steps|
  {
    hide Inv, OnTime, Enabled, Apply;
    if steps != [] {
      OnTimeKept(s, steps[0]);
      StepKeeps(s, steps[0]);
      OnTimeRun(Apply(s, steps[0]), steps[1..]);
    }
  }

  lemma {:induction false} NoneRunning(ws: seq<Phase>, job: Job)
    requires forall i :: 0 <= i < |ws| ==> !ws[i].Running?
    ensures Total(ws, RunningThe(job)) == 0
  {
    NoneUnblocked(ws, RunningThe(job));
  }

  /** With nothing running, exactly the jobs still queued have not been done. */
  lemma DoneAllBut(s: Pool)
    requires Inv(s) && forall i :: 0 <= i < |s.workers| ==> !s.workers[i].Running?
    ensures multiset(s.done) + multiset(s.jobs) == multiset(s.log)
  {
    hide Total;
    forall j: Job ensures multiset(s.started)[j] == multiset(s.done)[j] { NoneRunning(s.workers, j); }
    assert multiset(s.started) == multiset(s.done);
  }

  /**
   When shutdown's joins complete, every job has run exactly as often as it was enqueued if and
   only if none was pushed after the last worker exited.
   */
  lemma ShutdownExactly(n: nat, m: nat, steps: seq<Step>, s: Pool)
    requires Reaches(n, m, steps, s) && s.closer.Joined?
    ensures AllExited(s)
    ensures (s.jobs == [] && multiset(s.done) == multiset(s.log)) <==> s.late == []
  {
    ReachedInv(n, m, steps, s);
    DoneAllBut(s);
  }

  /** With a worker, and nothing enqueued after the call of shutdown, every job has run. */
  lemma ShutdownDrains(n: nat, m: nat, steps: seq<Step>, s: Pool)
    requires Reaches(n, m, steps, s) && n >= 1 && Orderly(Init(n, m), steps) && s.closer.Joined?
    ensures AllExited(s) && s.jobs == [] && multiset(s.done) == multiset(s.log)
  {
    InitInv(n, m);
    OnTimeRun(Init(n, m), steps);
    ShutdownExactly(n, m, steps, s);
  }

  /** Such a program's pool only ever comes to rest with every job done. */
  lemma EveryJobRuns(n: nat, m: nat, steps: seq<Step>, s: Pool)
    requires Reaches(n, m, steps, s) && n >= 1 && Orderly(Init(n, m), steps) && Stable(s)
    ensures multiset(s.done) == multiset(s.log) && (s.closer.Open? || s.closer.Joined?)
  {
    hide Inv, Stable, Total;
    InitInv(n, m);
    OnTimeRun(Init(n, m), steps);
    ReachedInv(n, m, steps, s);
    Quiescent(s);
    DoneAllBut(s);
  }

  /** What is pushed after the last worker exited never starts. */
  lemma {:induction false} NeverStarts(s: Pool, steps: seq<Step>)
    requires AllExited(s) && Legal(s, steps)
    ensures AllExited(Run(s, steps)) && Run(s, steps).started == s.started
    decreases |steps|
  {
    if steps != [] {
      assert AllExited(Apply(s, steps[0]));
      NeverStarts(Apply(s, steps[0]), steps[1..]);
    }
  }

  // ---------------------------------------------------------------- enqueueing after shutdown was called

  lemma {:induction false} RunOn(s: Pool, first: seq<Step>, more: seq<Step>)
    requires Legal(s, first) && Legal(Run(s, first), more)
    ensures Legal(s, first + more) && Run(s, first + more) == Run(Run(s, first), more)
    decreases |first|
  {
    hide Enabled, Apply;
    if first == [] {
      assert first + more == more;
    } else {
      RunOn(Apply(s, first[0]), first[1..], more);
      assert (first + more)[1..] == first[1..] + more;
    }
  }

  lemma InternalStays(s: Pool, step: Step)
    requires Enabled(s, step) && Internal(step)
    ensures var s' := Apply(s, step);
            |s'.workers| == |s.workers| && |s'.producers| == |s.producers| && (s.closer.Open? <==> s'.closer.Open?)
  {
  }

  /** From any state the pool's own steps lead to rest. */
  lemma {:induction false} ToRest(s: Pool) returns (steps: seq<Step>)
    requires Inv(s)
    ensures Legal(s, steps) && (forall i :: 0 <= i < |steps| ==> Internal(steps[i]))
    ensures var t := Run(s, steps);
            && Inv(t) && Stable(t) && |t.workers| == |s.workers| && |t.producers| == |s.producers|
            && (s.closer.Open? <==> t.closer.Open?)
    decreases Measure(s)
  {
    hide Inv, Enabled, Apply, Measure;
    if Stable(s) {
      steps := [];
    } else {
      var step :| Internal(step) && Enabled(s, step);
      Shrinks(s, step);
      StepKeeps(s, step);
      InternalStays(s, step);
      var more := ToRest(Apply(s, step));
      steps := [step] + more;
      assert steps[1..] == more;
    }
  }

  /** The three steps of an enqueue. */
  function Enqueue(p: nat, job: Job): seq<Step> { [EnqueueLock(p, job), EnqueuePush(p), EnqueueNotify(p, None)] }

  lemma EnqueueTooLate(s: Pool, p: nat, job: Job)
    requires Inv(s) && AllExited(s) && s.owner.Nobody? && p < |s.producers|
    ensures Legal(s, Enqueue(p, job))
    ensures Run(s, Enqueue(p, job)) == s.(jobs := s.jobs + [job], log := s.log + [job], late := s.late + [job])
  {
    hide Accounted, EnoughAwake, Left;
    assert s.producers[p].Idle?;
    var steps := Enqueue(p, job);
    var s1 := Apply(s, steps[0]);
    var s2 := Apply(s1, steps[1]);
    var s3 := Apply(s2, steps[2]);
    assert AllExited(s1);
    assert s3.producers == s.producers;
    assert steps[1..][1..][1..] == [];
    assert Legal(s2, steps[1..][1..]) && Run(s2, steps[1..][1..]) == s3;
    assert Legal(s1, steps[1..]) && Run(s1, steps[1..]) == s3;
  }

  /**
   Once shutdown has been called, whatever the state, an enqueue can come too late: the pool's own
   steps lead to where the joins are complete, and a job enqueued then is queued and never done.
   */
  lemma LateEnqueueLost(s: Pool, p: nat, job: Job) returns (before: seq<Step>)
    requires Inv(s) && !s.closer.Open? && |s.workers| >= 1 && p < |s.producers|
    ensures forall i :: 0 <= i < |before| ==> Internal(before[i])
    ensures Legal(s, before + Enqueue(p, job))
    ensures var t := Run(s, before + Enqueue(p, job));
            && t.closer.Joined? && AllExited(t) && job in t.jobs
            && multiset(t.done)[job] < multiset(t.log)[job]
  {
    hide Inv, Stable, Total, Legal, Run;
    before := ToRest(s);
    var u := Run(s, before);
    Quiescent(u);
    EnqueueTooLate(u, p, job);
    RunOn(s, before, Enqueue(p, job));
    DoneAllBut(u);
    var t := Run(s, before + Enqueue(p, job));
    assert t.jobs[|u.jobs|] == job;
    assert multiset(t.log) == multiset(u.log) + multiset{job};
  }

  // ---------------------------------------------------------------- enqueueing before

  lemma EnqueueInTime(s: Pool, p: nat, job: Job)
    requires Inv(s) && s.owner.Nobody? && s.closer.Open? && p < |s.producers| && IsAt(s, 0, Waiting)
    ensures var steps := [EnqueueLock(p, job), EnqueuePush(p), EnqueueNotify(p, Some(0))];
            && Legal(s, steps) && Inv(Run(s, steps)) && Run(s, steps).closer.Open?
            && Run(s, steps).log == s.log + [job] && |Run(s, steps).workers| == |s.workers|
  {
    hide Tested, Closes, Accounted, EnoughAwake, Left;
    assert s.producers[p].Idle?;
    var steps := [EnqueueLock(p, job), EnqueuePush(p), EnqueueNotify(p, Some(0))];
    var s1 := Apply(s, steps[0]);
    StepKeeps(s, steps[0]);
    var s2 := Apply(s1, steps[1]);
    StepKeeps(s1, steps[1]);
    var s3 := Apply(s2, steps[2]);
    StepKeeps(s2, steps[2]);
    assert steps[1..][1..][1..] == [];
    assert Legal(s2, steps[1..][1..]) && Run(s2, steps[1..][1..]) == s3;
    assert Legal(s1, steps[1..]) && Run(s1, steps[1..]) == s3;
  }

  /**
   Before shutdown every job can be served: from any state some interleaving lets a caller enqueue
   its job and leads to a state at rest in which all jobs, this one too, have been done.
   */
  lemma JobServed(s: Pool, p: nat, job: Job) returns (before: seq<Step>, after: seq<Step>)
    requires Inv(s) && s.closer.Open? && |s.workers| >= 1 && p < |s.producers|
    ensures Legal(s, before) && forall i :: 0 <= i < |before| ==> Internal(before[i])
    ensures forall i :: 0 <= i < |after| ==> Internal(after[i])
    ensures var steps := before + [EnqueueLock(p, job), EnqueuePush(p), EnqueueNotify(p, Some(0))] + after;
            && Legal(s, steps)
            && var t := Run(s, steps);
               && t.closer.Open? && Stable(t) && multiset(t.done) == multiset(t.log)
               && multiset(t.done)[job] > multiset(Run(s, before).done)[job]
  {
    hide Inv, Stable, Total, Legal, Run;
    before := ToRest(s);
    var u := Run(s, before);
    Quiescent(u);
    DoneAllBut(u);
    var steps := [EnqueueLock(p, job), EnqueuePush(p), EnqueueNotify(p, Some(0))];
    EnqueueInTime(u, p, job);
    var v := Run(u, steps);
    after := ToRest(v);
    var t := Run(v, after);
    Quiescent(t);
    DoneAllBut(t);
    RunOn(s, before, steps);
    RunOn(s, before + steps, after);
    LogGrows(v, after);
    assert t.log == u.log + [job] + t.log[|u.log| + 1..];
    assert multiset(t.log) == multiset(u.log) + multiset{job} + multiset(t.log[|u.log| + 1..]);
  }

  lemma {:induction false} LogGrows(s: Pool, steps: seq<Step>)
    requires Legal(s, steps)
    ensures s.log <= Run(s, steps).log
    decreases |steps|
  {
    hide Enabled;
    LegalRun(s, steps);
    if steps != [] { LogGrows(Apply(s, steps[0]), steps[1..]); }
  }

  /** A pool with one worker: shutdown is called, and job 7 enqueued afterwards is lost. */
  lemma LateJobLost() returns (steps: seq<Step>)
    ensures var all := [ShutdownCall] + steps + Enqueue(0, 7);
            && Legal(Init(1, 1), all) && (forall i :: 0 <= i < |steps| ==> Internal(steps[i]))
            && var t := Run(Init(1, 1), all);
               t.closer.Joined? && 7 in t.jobs && multiset(t.done)[7] < multiset(t.log)[7]
  {
    hide Inv;
    InitInv(1, 1);
    StepKeeps(Init(1, 1), ShutdownCall);
    var s := Apply(Init(1, 1), ShutdownCall);
    steps := LateEnqueueLost(s, 0, 7);
    assert [ShutdownCall][1..] == [];
    assert Run(Init(1, 1), [ShutdownCall]) == s;
    RunOn(Init(1, 1), [ShutdownCall], steps + Enqueue(0, 7));
    assert [ShutdownCall] + (steps + Enqueue(0, 7)) == [ShutdownCall] + steps + Enqueue(0, 7);
  }
}
