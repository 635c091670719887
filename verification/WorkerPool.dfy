/**
 The worker pool of the HTTP server: a job queue and a shutdown flag under one mutex, and a
 condition variable that workers wait on.

 Every step that another thread can interleave with is a step of its own, and who holds the mutex
 is part of the state, so what the mutex protects is proved and not assumed.
 */
module WorkerPool {
  import opened Texts

  type Job = nat

  /** Where a worker's loop is. */
  datatype Phase =
    | Start            // about to lock the mutex: at the top of the loop, or woken up
    | Locked           // holds the mutex, about to test whether there is something to do
    | Sleepy           // holds the mutex, there was nothing to do
    | Awake            // holds the mutex, there was something to do
    | Waiting          // blocked on the condition variable
    | Running(job: Job)
    | Exited

  datatype Producer = Idle | Holding(job: Job) | Pushed

  datatype Closer = Open | Called | Closing | Flagged | Joining(next: nat) | Joined

  datatype Owner = Nobody | Worker(w: nat) | Enqueuer(p: nat) | Shutdown

  /** The pool, with a record of jobs: `log` all enqueued, `started`, `done`, and `late` those pushed when no worker was left. */
  datatype Pool = Pool(
    workers: seq<Phase>,
    producers: seq<Producer>,
    closer: Closer,
    owner: Owner,
    jobs: seq<Job>,
    shutdown: bool,
    log: seq<Job>,
    started: seq<Job>,
    done: seq<Job>,
    late: seq<Job>)

  datatype Step =
    | EnqueueLock(p: nat, job: Job)
    | EnqueuePush(p: nat)
    | EnqueueNotify(p: nat, woken: Option<nat>)
    | WorkerLock(w: nat)
    | WorkerTest(w: nat)
    | WorkerWait(w: nat)
    | WorkerTake(w: nat)
    | WorkerFinish(w: nat)
    | SpuriousWake(w: nat)
    | ShutdownCall
    | ShutdownLock
    | ShutdownSet
    | NotifyAll
    | Join

  function AllStart(n: nat): (r: seq<Phase>)
    ensures |r| == n && forall i :: 0 <= i < n ==> r[i] == Start
  {
    seq(n, _ => Start)
  }

  function Init(workers: nat, producers: nat): Pool {
    Pool(AllStart(workers), seq(producers, _ => Idle), Open, Nobody, [], false, [], [], [], [])
  }

  predicate AllExited(s: Pool) {
    forall i :: 0 <= i < |s.workers| ==> s.workers[i].Exited?
  }

  predicate IsAt(s: Pool, w: nat, phase: Phase) { w < |s.workers| && s.workers[w] == phase }

  predicate Enabled(s: Pool, step: Step) {
    match step
    case EnqueueLock(p, _) => p < |s.producers| && s.producers[p].Idle? && s.owner.Nobody?
    case EnqueuePush(p) => p < |s.producers| && s.producers[p].Holding?
    case EnqueueNotify(p, woken) =>
      && p < |s.producers| && s.producers[p].Pushed?
      && (match woken
          case Some(w) => IsAt(s, w, Waiting)
          case None => forall i :: 0 <= i < |s.workers| ==> !s.workers[i].Waiting?)
    case WorkerLock(w) => IsAt(s, w, Start) && s.owner.Nobody?
    case WorkerTest(w) => IsAt(s, w, Locked)
    case WorkerWait(w) => IsAt(s, w, Sleepy)
    case WorkerTake(w) => IsAt(s, w, Awake)
    case WorkerFinish(w) => w < |s.workers| && s.workers[w].Running?
    case SpuriousWake(w) => IsAt(s, w, Waiting)
    case ShutdownCall => s.closer.Open?
    case ShutdownLock => s.closer.Called? && s.owner.Nobody?
    case ShutdownSet => s.closer.Closing?
    case NotifyAll => s.closer.Flagged?
    case Join => s.closer.Joining? && (s.closer.next < |s.workers| ==> s.workers[s.closer.next].Exited?)
  }

  function Move(s: Pool, w: nat, phase: Phase): Pool
    requires w < |s.workers|
  {
    s.(workers := s.workers[w := phase])
  }

  function Woken(ws: seq<Phase>): (r: seq<Phase>)
    ensures |r| == |ws|
    ensures forall i :: 0 <= i < |ws| ==> r[i] == if ws[i].Waiting? then Start else ws[i]
  {
    seq(|ws|, i requires 0 <= i < |ws| => if ws[i].Waiting? then Start else ws[i])
  }

  function Apply(s: Pool, step: Step): Pool
    requires Enabled(s, step)
  {
    match step
    case EnqueueLock(p, job) => s.(producers := s.producers[p := Holding(job)], owner := Enqueuer(p))
    case EnqueuePush(p) =>
      var job := s.producers[p].job;
      s.(producers := s.producers[p := Pushed], jobs := s.jobs + [job], log := s.log + [job],
         late := if AllExited(s) then s.late + [job] else s.late)
    case EnqueueNotify(p, woken) =>
      var s' := s.(producers := s.producers[p := Idle], owner := Nobody);
      if woken.Some? then Move(s', woken.value, Start) else s'
    case WorkerLock(w) => Move(s, w, Locked).(owner := Worker(w))
    case WorkerTest(w) => Move(s, w, if s.jobs != [] || s.shutdown then Awake else Sleepy)
    case WorkerWait(w) => Move(s, w, Waiting).(owner := Nobody)
    case WorkerTake(w) =>
      if s.shutdown && s.jobs == [] then Move(s, w, Exited).(owner := Nobody)
      else if s.jobs == [] then s
      else Move(s, w, Running(s.jobs[0])).(owner := Nobody, jobs := s.jobs[1..], started := s.started + [s.jobs[0]])
    case WorkerFinish(w) => Move(s, w, Start).(done := s.done + [s.workers[w].job])
    case SpuriousWake(w) => Move(s, w, Start)
    case ShutdownCall => s.(closer := Called)
    case ShutdownLock => s.(closer := Closing, owner := Shutdown)
    case ShutdownSet => s.(closer := Flagged, owner := Nobody, shutdown := true)
    case NotifyAll => s.(closer := Joining(0), workers := Woken(s.workers))
    case Join => s.(closer := if s.closer.next < |s.workers| then Joining(s.closer.next + 1) else Joined)
  }

  ghost predicate Legal(s: Pool, steps: seq<Step>)
    decreases |steps|
  {
    steps == [] || (Enabled(s, steps[0]) && Legal(Apply(s, steps[0]), steps[1..]))
  }

  ghost function Run(s: Pool, steps: seq<Step>): Pool
    requires Legal(s, steps)
    decreases |steps|
  {
    if steps == [] then s else Run(Apply(s, steps[0]), steps[1..])
  }

  /** What a worker found when it tested is still so when it acts on it. */
  ghost predicate Tested(s: Pool) {
    forall i :: 0 <= i < |s.workers| ==>
      && (s.workers[i].Sleepy? ==> s.jobs == [] && !s.shutdown)
      && (s.workers[i].Awake? ==> s.jobs != [] || s.shutdown)
      && (s.workers[i].Exited? ==> s.shutdown)
  }

  // ---------------------------------------------------------------- the pool as its methods update it

  /** One method for each block that runs without another thread in between. */
  class ThreadPool {
    var workers: seq<Phase>
    var producers: seq<Producer>
    var closer: Closer
    var owner: Owner
    var jobs: seq<Job>
    var shutdown: bool
    ghost var log: seq<Job>
    ghost var started: seq<Job>
    ghost var done: seq<Job>
    ghost var late: seq<Job>

    ghost function Now(): Pool
      reads this
    {
      Pool(workers, producers, closer, owner, jobs, shutdown, log, started, done, late)
    }

    constructor (n: nat, callers: nat)
      ensures |workers| == n && forall i :: 0 <= i < n ==> workers[i] == Start
      ensures |producers| == callers && forall p :: 0 <= p < callers ==> producers[p] == Idle
      ensures closer == Open && owner == Nobody && jobs == [] && !shutdown
      ensures Now() == Init(n, callers)
    {
      producers, closer, owner := seq(callers, _ => Idle), Open, Nobody;
      jobs, shutdown, log, started, done, late := [], false, [], [], [], [];
      workers := [];
      new;
      var left := n;
      while left > 0
        invariant 0 <= left <= n && |workers| == n - left && forall k :: 0 <= k < |workers| ==> workers[k] == Start
        invariant Now() == Init(n, callers).(workers := workers)
      {
        workers := workers + [Start];
        left := left - 1;
      }
      assert workers == AllStart(n);
    }

    method PushJob(p: nat)
      requires Enabled(Now(), EnqueuePush(p))
      modifies this
      ensures Now() == Apply(old(Now()), EnqueuePush(p))
    {
      var job := producers[p].job;
      if AllExited(Now()) { late := late + [job]; }
      log := log + [job];
      jobs := jobs + [job];
      producers := producers[p := Pushed];
    }

    /** `notify_one` wakes some waiting worker, if there is one; which one is not specified. */
    method NotifyOne(p: nat, preferred: nat) returns (woken: Option<nat>)
      requires p < |producers| && producers[p].Pushed?
      modifies this
      ensures preferred < |old(workers)| && old(workers)[preferred].Waiting? ==> woken == Some(preferred)
      ensures Enabled(old(Now()), EnqueueNotify(p, woken))
      ensures Now() == Apply(old(Now()), EnqueueNotify(p, woken))
    {
      woken := None;
      if preferred < |workers| && workers[preferred].Waiting? {
        woken := Some(preferred);
      } else {
        for i := 0 to |workers|
          invariant woken.None? ==> forall k :: 0 <= k < i ==> !workers[k].Waiting?
          invariant woken.Some? ==> IsAt(Now(), woken.value, Waiting)
        {
          if woken.None? && workers[i].Waiting? { woken := Some(i); }
        }
      }
      if woken.Some? { workers := workers[woken.value := Start]; }
      producers, owner := producers[p := Idle], Nobody;
    }

    method TestPredicate(w: nat)
      requires Enabled(Now(), WorkerTest(w))
      modifies this
      ensures Now() == Apply(old(Now()), WorkerTest(w))
    {
      if jobs != [] || shutdown { workers := workers[w := Awake]; } else { workers := workers[w := Sleepy]; }
    }

    method TakeOrExit(w: nat) returns (fn: Option<Job>)
      requires Tested(Now()) && Enabled(Now(), WorkerTake(w))
      modifies this
      ensures Now() == Apply(old(Now()), WorkerTake(w))
      ensures fn == if old(jobs) == [] then None else Some(old(jobs)[0])
    {
      if shutdown && jobs == [] {
        workers, owner := workers[w := Exited], Nobody;
        return None;
      }
      fn := Some(jobs[0]);
      started := started + [jobs[0]];
      workers, owner := workers[w := Running(jobs[0])], Nobody;
      jobs := jobs[1..];
    }

    method SetShutdown()
      requires Enabled(Now(), ShutdownSet)
      modifies this
      ensures Now() == Apply(old(Now()), ShutdownSet)
    {
      closer, owner, shutdown := Flagged, Nobody, true;
    }

    method NotifyAllWorkers()
      requires Enabled(Now(), NotifyAll)
      modifies this`workers, this`closer
      ensures Now() == Apply(old(Now()), NotifyAll)
    {
      ghost var was := workers;
      for i := 0 to |workers|
        invariant |workers| == |was|
        invariant forall k :: 0 <= k < i ==> workers[k] == if was[k].Waiting? then Start else was[k]
        invariant forall k :: i <= k < |was| ==> workers[k] == was[k]
        invariant unchanged(this`closer)
      {
        if workers[i].Waiting? { workers := workers[i := Start]; }
      }
      assert workers == Woken(was);
      closer := Joining(0);
    }
  }
}
