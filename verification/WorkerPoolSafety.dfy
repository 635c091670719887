/** What every step of the worker pool keeps. */
module WorkerPoolSafety {
  import opened Texts
  import opened WorkerPool

  // ---------------------------------------------------------------- counting workers

  function Total(ws: seq<Phase>, f: Phase -> nat): nat {
    if ws == [] then 0 else f(ws[0]) + Total(ws[1..], f)
  }

  lemma {:induction false} TotalMove(ws: seq<Phase>, i: nat, phase: Phase, f: Phase -> nat)
    requires i < |ws|
    ensures Total(ws[i := phase], f) + f(ws[i]) == Total(ws, f) + f(phase)
    decreases |ws|
  {
    if i == 0 {
      assert ws[i := phase][1..] == ws[1..];
    } else {
      TotalMove(ws[1..], i - 1, phase, f);
      assert ws[i := phase][1..] == ws[1..][i - 1 := phase];
    }
  }

  lemma {:induction false} TotalBelow(ws: seq<Phase>, f: Phase -> nat, g: Phase -> nat)
    requires forall i :: 0 <= i < |ws| ==> f(ws[i]) <= g(ws[i])
    ensures Total(ws, f) <= Total(ws, g)
    decreases |ws|
  {
    if ws != [] {
      assert f(ws[0]) <= g(ws[0]);
      forall i | 0 <= i < |ws[1..]| ensures f(ws[1..][i]) <= g(ws[1..][i]) {
        assert ws[1..][i] == ws[i + 1];
      }
      TotalBelow(ws[1..], f, g);
    }
  }

  // One for a worker that is not blocked on the condition variable, and one for a worker still going.

  function Unblocked(x: Phase): nat { if x.Waiting? || x.Exited? then 0 else 1 }

  function Live(x: Phase): nat { if x.Exited? then 0 else 1 }

  function RunningThe(job: Job): Phase -> nat {
    (x: Phase) => if x == Running(job) then 1 else 0
  }

  // ---------------------------------------------------------------- what every step keeps

  /** A thread is in a critical section exactly when it owns the mutex. */
  ghost predicate Mutex(s: Pool) {
    && (forall i :: 0 <= i < |s.workers| ==>
          ((s.workers[i].Locked? || s.workers[i].Sleepy? || s.workers[i].Awake?) <==> s.owner == Worker(i)))
    && (forall p :: 0 <= p < |s.producers| ==>
          ((s.producers[p].Holding? || s.producers[p].Pushed?) <==> s.owner == Enqueuer(p)))
    && (s.closer.Closing? <==> s.owner.Shutdown?)
    && (s.owner.Worker? ==> s.owner.w < |s.workers|)
    && (s.owner.Enqueuer? ==> s.owner.p < |s.producers|)
  }

  ghost predicate Closes(s: Pool) {
    && (s.shutdown <==> s.closer.Flagged? || s.closer.Joining? || s.closer.Joined?)
    && (s.closer.Joining? || s.closer.Joined? ==> forall i :: 0 <= i < |s.workers| ==> !s.workers[i].Waiting?)
    && (s.closer.Joining? ==> s.closer.next <= |s.workers| && forall i :: 0 <= i < s.closer.next ==> s.workers[i].Exited?)
    && (s.closer.Joined? ==> AllExited(s))
  }

  /** First in, first out; a job is queued, running or done, as often as it was enqueued. */
  ghost predicate Accounted(s: Pool) {
    && s.log == s.started + s.jobs
    && (forall j: Job :: multiset(s.started)[j] == Total(s.workers, RunningThe(j)) + multiset(s.done)[j])
  }

  /** Once all workers have exited the queue holds just the jobs pushed since. */
  ghost predicate Left(s: Pool) {
    if AllExited(s) then s.jobs == s.late else s.late == []
  }

  function Lesser(a: nat, b: nat): nat { if a <= b then a else b }

  /** Between a push and its notification one wake-up is still owed. */
  function Owed(s: Pool): nat {
    if s.owner.Enqueuer? && s.owner.p < |s.producers| && s.producers[s.owner.p].Pushed? then 1 else 0
  }

  /** Enough workers are unblocked for the jobs in the queue. */
  ghost predicate EnoughAwake(s: Pool) {
    Total(s.workers, Unblocked) + Owed(s) >= Lesser(|s.jobs|, Total(s.workers, Live))
  }

  ghost predicate Inv(s: Pool) {
    Mutex(s) && Tested(s) && Closes(s) && Accounted(s) && Left(s) && EnoughAwake(s)
  }

  lemma {:induction false} TotalOfStart(ws: seq<Phase>, f: Phase -> nat)
    requires f(Start) == 0 && forall i :: 0 <= i < |ws| ==> ws[i] == Start
    ensures Total(ws, f) == 0
  {
    if ws != [] { TotalOfStart(ws[1..], f); }
  }

  lemma InitInv(workers: nat, producers: nat)
    ensures Inv(Init(workers, producers))
  {
    forall j: Job ensures Total(Init(workers, producers).workers, RunningThe(j)) == 0 {
      TotalOfStart(AllStart(workers), RunningThe(j));
    }
  }

  lemma MutexKept(s: Pool, step: Step)
    requires Mutex(s) && Tested(s) && Enabled(s, step)
    ensures Mutex(Apply(s, step))
  {
  }

  lemma TestedKept(s: Pool, step: Step)
    requires Mutex(s) && Tested(s) && Closes(s) && Enabled(s, step)
    ensures Tested(Apply(s, step))
  {
  }

  lemma ClosesKept(s: Pool, step: Step)
    requires Mutex(s) && Tested(s) && Closes(s) && Enabled(s, step)
    ensures Closes(Apply(s, step))
  {
  }

  /** A worker that is still going goes on, unless it exits on an empty queue. */
  lemma StaysLive(s: Pool, step: Step, i: nat)
    requires Mutex(s) && Tested(s) && Enabled(s, step) && i < |s.workers|
    ensures i < |Apply(s, step).workers|
    ensures s.workers[i].Exited? ==> Apply(s, step).workers[i].Exited?
    ensures !s.workers[i].Exited? && Apply(s, step).workers[i].Exited? ==> Apply(s, step).jobs == s.jobs == []
  {
  }

  lemma LeftKept(s: Pool, step: Step)
    requires Mutex(s) && Tested(s) && Left(s) && Enabled(s, step)
    ensures Left(Apply(s, step))
  {
    var s' := Apply(s, step);
    assert |s'.workers| == |s.workers|;
    if AllExited(s) {
      forall i | 0 <= i < |s'.workers| ensures s'.workers[i].Exited? { StaysLive(s, step, i); }
    } else {
      var i :| 0 <= i < |s.workers| && !s.workers[i].Exited?;
      StaysLive(s, step, i);
    }
  }

  lemma QueueKept(s: Pool, step: Step)
    requires s.log == s.started + s.jobs && Enabled(s, step)
    ensures Apply(s, step).log == Apply(s, step).started + Apply(s, step).jobs
  {
  }

  lemma JobKept(s: Pool, step: Step, j: Job)
    requires multiset(s.started)[j] == Total(s.workers, RunningThe(j)) + multiset(s.done)[j]
    requires Enabled(s, step) && Tested(s)
    ensures var s' := Apply(s, step);
            multiset(s'.started)[j] == Total(s'.workers, RunningThe(j)) + multiset(s'.done)[j]
  {
    hide Total, AllExited, Woken;
    MovesTotal(s, step, RunningThe(j));
  }

  lemma AccountedKept(s: Pool, step: Step)
    requires Tested(s) && Accounted(s) && Enabled(s, step)
    ensures Accounted(Apply(s, step))
  {
    hide Enabled, Apply, Tested, Total;
    QueueKept(s, step);
    forall j: Job { JobKept(s, step, j); }
  }

  /** The worker a step moves, if it moves just one. */
  function Mover(step: Step): Option<nat> {
    match step
    case EnqueueNotify(_, woken) => woken
    case WorkerLock(w) => Some(w)
    case WorkerTest(w) => Some(w)
    case WorkerWait(w) => Some(w)
    case WorkerTake(w) => Some(w)
    case WorkerFinish(w) => Some(w)
    case SpuriousWake(w) => Some(w)
    case _ => None
  }

  lemma MovesTotal(s: Pool, step: Step, f: Phase -> nat)
    requires Enabled(s, step)
    ensures var s' := Apply(s, step);
            && |s'.workers| == |s.workers|
            && (match Mover(step)
                case Some(w) => w < |s.workers| && Total(s'.workers, f) + f(s.workers[w]) == Total(s.workers, f) + f(s'.workers[w])
                case None => !step.NotifyAll? ==> s'.workers == s.workers)
            && (step.NotifyAll? && f(Waiting) == f(Start) ==> Total(s'.workers, f) == Total(s.workers, f))
  {
    var s' := Apply(s, step);
    if Mover(step).Some? {
      var w := Mover(step).value;
      TotalMove(s.workers, w, s'.workers[w], f);
      assert s'.workers == s.workers[w := s'.workers[w]];
    }
    if step.NotifyAll? && f(Waiting) == f(Start) { TotalWoken(s.workers, f); }
  }

  lemma {:induction false} TotalWoken(ws: seq<Phase>, f: Phase -> nat)
    requires f(Waiting) == f(Start)
    ensures Total(Woken(ws), f) == Total(ws, f)
  {
    if ws != [] {
      assert Woken(ws)[1..] == Woken(ws[1..]);
      TotalWoken(ws[1..], f);
    }
  }

  lemma {:induction false} AllUnblocked(ws: seq<Phase>)
    requires forall i :: 0 <= i < |ws| ==> !ws[i].Waiting?
    ensures Total(ws, Unblocked) == Total(ws, Live)
  {
    TotalBelow(ws, Unblocked, Live);
    TotalBelow(ws, Live, Unblocked);
  }

  lemma EnoughAwakeKept(s: Pool, step: Step)
    requires Mutex(s) && Tested(s) && EnoughAwake(s) && Enabled(s, step)
    ensures EnoughAwake(Apply(s, step))
  {
    hide Total;
    var s' := Apply(s, step);
    MovesTotal(s, step, Unblocked);
    MovesTotal(s, step, Live);
    if step.NotifyAll? || (step.EnqueueNotify? && step.woken.None?) { AllUnblocked(s'.workers); }
    if step.NotifyAll? || step.EnqueueLock? { assert Owed(s') >= 0; }
  }

  lemma StepKeeps(s: Pool, step: Step)
    requires Inv(s) && Enabled(s, step)
    ensures Inv(Apply(s, step))
  {
    hide *;
    InvMeans(s);
    MutexKept(s, step);
    TestedKept(s, step);
    ClosesKept(s, step);
    LeftKept(s, step);
    AccountedKept(s, step);
    EnoughAwakeKept(s, step);
    InvMeans(Apply(s, step));
  }

  lemma InvMeans(s: Pool)
    ensures Inv(s) <==> Mutex(s) && Tested(s) && Closes(s) && Accounted(s) && Left(s) && EnoughAwake(s)
  {
  }

  lemma {:induction false} RunKeeps(s: Pool, steps: seq<Step>)
    requires Inv(s) && Legal(s, steps)
    ensures Inv(Run(s, steps))
    decreases |steps|
  {
    hide Inv, Enabled, Apply;
    if steps != [] {
      StepKeeps(s, steps[0]);
      RunKeeps(Apply(s, steps[0]), steps[1..]);
    }
  }
}
