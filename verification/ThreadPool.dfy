/** What the step-by-step model of the pool guarantees in every reachable state, and the
    pool in its imperative form. */
module ThreadPool {
  import opened Common
  import opened PoolProtocol

  // ------------------------------------------------------------------ every schedule

  lemma {:induction false} RunKeeps(s: State, steps: seq<Step>)
    requires Inv(s) && Runs(s, steps)
    ensures Inv(Exec(s, steps))
    decreases |steps|
  {
    if steps != [] {
      StepKeeps(s, steps[0]);
      RunKeeps(Next(s, steps[0]), steps[1..]);
    }
  }

  /** Some schedule leads from a new pool of some size to `s`. */
  ghost predicate Reachable(s: State) {
    exists threads, steps :: Runs(Init(threads), steps) && Exec(Init(threads), steps) == s
  }

  lemma ReachableInv(s: State)
    requires Reachable(s)
    ensures Inv(s)
  {
    var threads, steps :| Runs(Init(threads), steps) && Exec(Init(threads), steps) == s;
    InitKeeps(threads);
    RunKeeps(Init(threads), steps);
  }

  lemma {:induction false} RunAppend(s: State, steps: seq<Step>, step: Step)
    requires Runs(s, steps) && Enabled(Exec(s, steps), step)
    ensures Runs(s, steps + [step]) && Exec(s, steps + [step]) == Next(Exec(s, steps), step)
    decreases |steps|
  {
    if steps == [] {
      assert [step][1..] == [];
    } else {
      RunAppend(Next(s, steps[0]), steps[1..], step);
      assert (steps + [step])[1..] == steps[1..] + [step];
    }
  }

  lemma ReachableInit(threads: nat)
    ensures Reachable(Init(threads))
  {
    assert Runs(Init(threads), []) && Exec(Init(threads), []) == Init(threads);
  }

  lemma ReachableNext(s: State, step: Step)
    requires Reachable(s) && Enabled(s, step)
    ensures Reachable(Next(s, step))
  {
    var threads, steps :| Runs(Init(threads), steps) && Exec(Init(threads), steps) == s;
    RunAppend(Init(threads), steps, step);
  }

  // ------------------------------------------------------------------ the workers

  lemma {:induction false} SizeIsKept(s: State, steps: seq<Step>)
    requires Runs(s, steps)
    ensures |Exec(s, steps).workers| == |s.workers|
    decreases |steps|
  {
    if steps != [] { SizeIsKept(Next(s, steps[0]), steps[1..]); }
  }

  /** A pool of `threads` workers starts that many and has that many in every run, whatever
      happens to it. */
  lemma PoolHasItsWorkers(threads: nat, steps: seq<Step>)
    requires Runs(Init(threads), steps)
    ensures |Init(threads).workers| == threads == |Exec(Init(threads), steps).workers|
  {
    SizeIsKept(Init(threads), steps);
  }

  /** A worker under the mutex: with a task queued it takes the first one; with none it sleeps in
      an open pool and exits from a stopped one.  Nobody else is affected. */
  lemma WorkerTakesTheFirstOrRests(s: State, w: nat, v: nat)
    requires Enabled(s, Lock(w)) && v < |s.workers|
    ensures w < |Next(s, Lock(w)).workers| == |s.workers|
    ensures var x := Next(s, Lock(w)).workers[w];
            && (x.Working? <==> s.tasks != [])
            && (x.Working? ==> x.task == s.tasks[0] && s.tasks == [x.task] + Next(s, Lock(w)).tasks)
            && (x.Sleeping? <==> s.tasks == [] && !s.stop)
            && (x.Exited? <==> s.tasks == [] && s.stop)
    ensures v != w ==> Next(s, Lock(w)).workers[v] == s.workers[v]
  {
  }

  // ------------------------------------------------------------------ no lost wakeup

  lemma {:induction false} SomeAtLock(workers: seq<Worker>) returns (w: nat)
    requires Sum(workers, (x: Worker) => if x.AtLock? then 1 else 0) > 0
    ensures w < |workers| && workers[w].AtLock?
  {
    if workers[|workers| - 1].AtLock? {
      w := |workers| - 1;
    } else {
      w := SomeAtLock(workers[..|workers| - 1]);
    }
  }

  /** Whenever a task is queued, somebody is going to look at the queue: a notification is
      on its way or some worker is awake. */
  lemma NoLostWakeup(s: State)
    requires Reachable(s) && |s.workers| >= 1 && s.tasks != []
    ensures s.notifies > 0
         || exists w :: 0 <= w < |s.workers| && (s.workers[w].AtLock? || s.workers[w].Working?)
  {
    ReachableInv(s);
    if SomeSleeper(s) && s.notifies == 0 {
      var w := SomeAtLock(s.workers);
    } else {
      assert !s.workers[0].Exited?;
    }
  }

  /** A worker never sleeps while there is work without its own wakeup, so queued tasks do
      not wait for one worker while others sleep. */
  lemma EveryQueuedTaskHasItsWakeup(s: State)
    requires Reachable(s) && SomeSleeper(s)
    ensures |s.tasks| <= s.notifies + AtLockCount(s)
  {
    ReachableInv(s);
  }

  /** Stopping reaches every sleeper: the notification to all is pending or nobody sleeps. */
  lemma StopReachesSleepers(s: State)
    requires Reachable(s) && s.stop
    ensures s.teardown.Stopped? || !SomeSleeper(s)
  {
    ReachableInv(s);
  }

  // ------------------------------------------------------------------ every task once, in order

  /** Tasks are taken in the order in which they were accepted; a task a worker runs has not
      completed and no other worker runs it; every accepted task is queued, running or completed. */
  lemma TasksRunOnceInOrder(s: State, w: nat, v: nat, t: nat)
    requires Reachable(s)
    ensures |s.started| + |s.tasks| == s.accepted
    ensures t < |s.started| ==> s.started[t] == t
    ensures w < |s.workers| && s.workers[w].Working? ==> s.workers[w].task !in s.completed
    ensures v < w < |s.workers| && s.workers[w].Working? && s.workers[v].Working? ==>
              s.workers[w].task != s.workers[v].task
    ensures |s.completed| + WorkingCount(s) + |s.tasks| == s.accepted
    ensures t in s.completed ==> t < |s.started|
  {
    ReachableInv(s);
  }

  /** Nothing is accepted after `stop_`, and what completed stays completed. */
  lemma {:induction false} NothingAcceptedAfterStop(s: State, steps: seq<Step>)
    requires s.stop && Runs(s, steps)
    requires Inv(s)
    ensures Exec(s, steps).stop && Exec(s, steps).accepted == s.accepted
    ensures s.completed <= Exec(s, steps).completed
    decreases |steps|
  {
    if steps != [] {
      StepKeeps(s, steps[0]);
      NothingAcceptedAfterStop(Next(s, steps[0]), steps[1..]);
    }
  }

  // ------------------------------------------------------------------ shutdown

  ghost predicate Joined(s: State) {
    s.teardown == Joining(|s.workers|)
  }

  ghost function Effort(x: Worker): nat {
    match x
    case AtLock => 1
    case Sleeping => 2
    case Working(_) => 2
    case Exited => 0
  }

  /** Bounds the steps that are left once the pool is stopped. */
  ghost function Measure(s: State): nat {
    3 * |s.tasks| + Sum(s.workers, Effort) + s.notifies +
    match s.teardown {
      case Open => 0
      case Stopped => |s.workers| + 1
      case Joining(k) => if k <= |s.workers| then |s.workers| - k else 0
    }
  }

  /** Once the pool is stopped every step makes progress, except submissions, which are refused. */
  lemma StepMakesProgress(s: State, step: Step)
    requires Inv(s) && s.stop && Enabled(s, step)
    ensures step.Submit? ==> Next(s, step) == s
    ensures !step.Submit? ==> Measure(Next(s, step)) < Measure(s)
  {
    match step
    case NotifyOne(w) => if SomeSleeper(s) { SumUpdate(s.workers, Effort, w, AtLock); }
    case Spurious(w) => SumUpdate(s.workers, Effort, w, AtLock);
    case Lock(w) => SumUpdate(s.workers, Effort, w, Next(s, step).workers[w]);
    case Finish(w) => SumUpdate(s.workers, Effort, w, AtLock);
    case NotifyAll =>
      var woken := (x: Worker) => if x.Sleeping? then Effort(AtLock) else Effort(x);
      SumWakeAll(s.workers, Effort, woken);
      SumMonotone(s.workers, woken, Effort);
    case _ =>
  }

  /** Taking a task and completing it make progress in an open pool too. */
  lemma WorkMakesProgress(s: State, step: Step)
    requires Enabled(s, step) && (step.Finish? || (step.Lock? && s.tasks != []))
    ensures Measure(Next(s, step)) < Measure(s)
  {
    SumUpdate(s.workers, Effort, step.w, Next(s, step).workers[step.w]);
  }

  lemma {:induction false} NoneWorking(workers: seq<Worker>)
    requires forall w :: 0 <= w < |workers| ==> !workers[w].Working?
    ensures Sum(workers, (x: Worker) => if x.Working? then 1 else 0) == 0
  {
    if workers != [] { NoneWorking(workers[..|workers| - 1]); }
  }

  /** With nothing queued and nobody working, everything accepted has completed. */
  lemma IdleMeansCompleted(s: State)
    requires Reachable(s) && s.tasks == [] && forall w :: 0 <= w < |s.workers| ==> !s.workers[w].Working?
    ensures s.completed == UpTo(s.accepted)
  {
    ReachableInv(s);
    NoneWorking(s.workers);
    SameSize(s.completed, UpTo(s.accepted));
  }

  ghost function Productive(steps: seq<Step>): nat {
    if steps == [] then 0 else (if steps[0].Submit? then 0 else 1) + Productive(steps[1..])
  }

  /** No run goes on forever after the stop: whatever the interleaving, the number of steps
      that are not refused submissions is bounded in advance. */
  lemma {:induction false} ShutdownIsBounded(s: State, steps: seq<Step>)
    requires Inv(s) && s.stop && Runs(s, steps)
    ensures Productive(steps) + Measure(Exec(s, steps)) <= Measure(s)
    decreases |steps|
  {
    if steps != [] {
      StepKeeps(s, steps[0]);
      StepMakesProgress(s, steps[0]);
      ShutdownIsBounded(Next(s, steps[0]), steps[1..]);
    }
  }

  /** No run gets stuck after the stop before all workers are joined, given that running
      tasks finish. */
  lemma ShutdownIsNeverStuck(s: State) returns (step: Step)
    requires Reachable(s) && s.stop && !Joined(s)
    ensures Enabled(s, step) && !step.Submit?
  {
    ReachableInv(s);
    if s.teardown.Stopped? {
      step := NotifyAll;
    } else {
      var k := s.teardown.next;
      match s.workers[k]
      case Exited => step := Join;
      case AtLock => step := Lock(k);
      case Working(_) => step := Finish(k);
    }
  }

  ghost function AllAccepted(s: State): set<nat> { UpTo(s.accepted) }

  lemma {:induction false} StartedNeedsWorker(s: State, steps: seq<Step>)
    requires Runs(s, steps) && (|s.workers| == 0 ==> s.started == [])
    ensures |s.workers| == 0 ==> Exec(s, steps).started == []
    decreases |steps|
  {
    if steps != [] { StartedNeedsWorker(Next(s, steps[0]), steps[1..]); }
  }

  /** A pool without workers never takes a task. */
  lemma ZeroWorkersStartNothing(s: State)
    requires Reachable(s) && |s.workers| == 0
    ensures s.started == []
  {
    var threads, steps :| Runs(Init(threads), steps) && Exec(Init(threads), steps) == s;
    SizeIsKept(Init(threads), steps);
    StartedNeedsWorker(Init(threads), steps);
  }

  /** A run that cannot go on has joined all workers.  When the destructor has joined the
      workers, all have exited, and every accepted task has completed exactly when the pool
      has a worker or nothing was ever accepted. */
  lemma JoinedMeansAllCompleted(s: State)
    requires Reachable(s) && Joined(s)
    ensures forall w :: 0 <= w < |s.workers| ==> s.workers[w].Exited?
    ensures s.completed == AllAccepted(s) <==> |s.workers| > 0 || s.accepted == 0
  {
    ReachableInv(s);
    if |s.workers| > 0 {
      assert s.workers[0].Exited?;
      NoneWorking(s.workers);
      SameSize(s.completed, AllAccepted(s));
    } else {
      ZeroWorkersStartNothing(s);
      assert s.completed == {} && (s.accepted > 0 ==> 0 in AllAccepted(s));
    }
  }

  /** Constructed with zero threads, the pool accepts a task and the destructor drops it. */
  lemma ZeroWorkersDropTask()
    ensures exists s :: Reachable(s) && Joined(s) && s.accepted == 1 && s.completed == {}
  {
    ReachableInit(0);
    ReachableNext(Init(0), Submit);
    var a := Next(Init(0), Submit);
    ReachableNext(a, Stop);
    var b := Next(a, Stop);
    ReachableNext(b, NotifyAll);
    var c := Next(b, NotifyAll);
    assert Reachable(c) && Joined(c);
  }

  // ------------------------------------------------------------------ the class

  class ThreadPool {
    var tasks: seq<nat>
    var stop: bool
    var workers: seq<Worker>
    var accepted: nat
    var completed: set<nat>        // the futures that are ready
    ghost var trace: State

    /** Every pool object is in a state that some schedule of the protocol reaches, with no
        submission between its unlock and its notification. */
    ghost predicate Valid() reads this {
      && Reachable(trace)
      && trace.tasks == tasks && trace.stop == stop && trace.workers == workers && trace.accepted == accepted
      && trace.completed == completed && trace.notifies == 0
    }

    /** Starts the workers: exactly `threads` of them, all on their way to the mutex. */
    constructor (threads: nat)
      ensures Valid() && trace == Init(threads)
      ensures |workers| == threads && forall w :: 0 <= w < threads ==> workers[w] == AtLock
      ensures tasks == [] && !stop && accepted == 0 && completed == {}
    {
      tasks, stop, accepted, completed := [], false, 0, {};
      workers := seq(threads, _ => AtLock);
      trace := Init(threads);
      ReachableInit(threads);
    }

    ghost method Record(step: Step)
      requires Reachable(trace) && Enabled(trace, step)
      modifies this`trace
      ensures trace == Next(old(trace), step) && Reachable(trace)
    {
      ReachableNext(trace, step);
      trace := Next(trace, step);
    }

    method FindSleeper() returns (w: nat)
      ensures w <= |workers| && (w < |workers| ==> workers[w].Sleeping?)
      ensures w == |workers| ==> forall v :: 0 <= v < |workers| ==> !workers[v].Sleeping?
    {
      w := 0;
      while w < |workers| && !workers[w].Sleeping?
        invariant w <= |workers|
        invariant forall v :: 0 <= v < w ==> !workers[v].Sleeping?
      {
        w := w + 1;
      }
    }

    /** Accepts a task under the mutex and then notifies; `None` stands for the exception. */
    method Submit() returns (future: Option<nat>)
      requires Valid()
      modifies this
      ensures Valid() && stop == old(stop) && completed == old(completed)
      ensures old(stop) ==> future.None? && trace == old(trace)
      ensures !old(stop) ==> future == Some(old(accepted)) && accepted == old(accepted) + 1
                             && tasks == old(tasks) + [old(accepted)] && |workers| == |old(workers)|
      ensures !old(stop) ==>
                if old(SomeSleeper(trace))
                then exists w :: 0 <= w < |old(workers)| && old(workers)[w].Sleeping?
                                 && workers == old(workers)[w := AtLock]
                else workers == old(workers)
    {
      Record(PoolProtocol.Submit);
      if stop { return None; }
      tasks := tasks + [accepted];
      future := Some(accepted);
      accepted := accepted + 1;
      var w := FindSleeper();
      if w < |workers| { workers := workers[w := AtLock]; }
      Record(NotifyOne(w));
    }

    /** `valid() && wait_for(0) != ready`, negated. */
    method Ready(future: Option<nat>) returns (ready: bool)
      requires Valid()
      ensures ready <==> future.None? || future.value in trace.completed
    {
      ready := future.None? || future.value in completed;
    }

    /** The region of `worker_loop` under the mutex: the first task is taken if there is one; with
        nothing queued the worker exits if the pool is stopped and otherwise goes to sleep. */
    method LockRegion(w: nat)
      requires Valid() && w < |workers| && workers[w].AtLock?
      modifies this
      ensures Valid() && trace == Next(old(trace), Lock(w))
      ensures stop == old(stop) && accepted == old(accepted) && completed == old(completed)
      ensures old(tasks) != [] ==> workers == old(workers)[w := Working(old(tasks)[0])] && tasks == old(tasks)[1..]
      ensures old(tasks) == [] ==> workers == old(workers)[w := if stop then Exited else Sleeping] && tasks == []
    {
      if tasks != [] {
        workers := workers[w := Working(tasks[0])];
        tasks := tasks[1..];
      } else if stop {
        workers := workers[w := Exited];
      } else {
        workers := workers[w := Sleeping];
      }
      Record(Lock(w));
    }

    /** `task()` outside the mutex. */
    method RunTask(w: nat) returns (task: nat)
      requires Valid() && w < |workers| && workers[w].Working?
      modifies this
      ensures Valid() && trace == Next(old(trace), Finish(w))
      ensures workers == old(workers)[w := AtLock] && completed == old(completed) + {task}
      ensures tasks == old(tasks) && stop == old(stop) && accepted == old(accepted)
      ensures task == old(workers)[w].task && task !in old(trace.completed) && task in trace.completed
    {
      ReachableInv(trace);
      task := workers[w].task;
      workers := workers[w := AtLock];
      completed := completed + {task};
      Record(Finish(w));
    }

    method FindWorking() returns (w: nat)
      ensures w <= |workers| && (w < |workers| ==> workers[w].Working?)
      ensures w == |workers| ==> forall v :: 0 <= v < |workers| ==> !workers[v].Working?
    {
      w := 0;
      while w < |workers| && !workers[w].Working?
        invariant w <= |workers|
        invariant forall v :: 0 <= v < w ==> !workers[v].Working?
      {
        w := w + 1;
      }
    }

    method FindAtLock() returns (w: nat)
      ensures w <= |workers| && (w < |workers| ==> workers[w].AtLock?)
      ensures w == |workers| ==> forall v :: 0 <= v < |workers| ==> !workers[v].AtLock?
    {
      w := 0;
      while w < |workers| && !workers[w].AtLock?
        invariant w <= |workers|
        invariant forall v :: 0 <= v < w ==> !workers[v].AtLock?
      {
        w := w + 1;
      }
    }

    /** The workers of an open pool at work until nothing is queued or running.  A worker to take
        a queued task is always awake, since no wakeup is lost. */
    method Settle()
      requires Valid() && !stop && |workers| >= 1
      modifies this
      ensures Valid() && !stop && |workers| == |old(workers)| && accepted == old(accepted)
      ensures tasks == [] && completed == UpTo(accepted)
    {
      var w: nat := FindWorking();
      while tasks != [] || w < |workers|
        invariant Valid() && !stop && |workers| == |old(workers)| && accepted == old(accepted)
        invariant w <= |workers| && (w < |workers| ==> workers[w].Working?)
        invariant w == |workers| ==> forall v :: 0 <= v < |workers| ==> !workers[v].Working?
        decreases Measure(trace)
      {
        if w < |workers| {
          WorkMakesProgress(trace, Finish(w));
          var _ := RunTask(w);
        } else {
          NoLostWakeup(trace);
          var v := FindAtLock();
          WorkMakesProgress(trace, Lock(v));
          LockRegion(v);
        }
        w := FindWorking();
      }
      IdleMeansCompleted(trace);
    }

    predicate CanStep(w: nat)
      reads this
    {
      w < |workers| && (workers[w].AtLock? || workers[w].Working?)
    }

    /** The next step of a worker that is not asleep and has not exited. */
    method StepWorker(w: nat)
      requires Valid() && stop && CanStep(w)
      modifies this
      ensures Valid() && stop && trace.teardown == old(trace.teardown) && |workers| == old(|workers|)
      ensures accepted == old(accepted) && trace.completed >= old(trace.completed)
      ensures Measure(trace) < old(Measure(trace))
    {
      ReachableInv(trace);
      if workers[w].AtLock? {
        StepMakesProgress(trace, Lock(w));
        LockRegion(w);
      } else {
        StepMakesProgress(trace, Finish(w));
        var _ := RunTask(w);
      }
    }

    /** Steps of the workers in the order of the schedule, as far as they can take them. */
    method RunWorkers(schedule: seq<nat>)
      requires Valid() && stop
      modifies this
      ensures Valid() && stop && trace.teardown == old(trace.teardown) && |workers| == old(|workers|)
      ensures accepted == old(accepted) && trace.completed >= old(trace.completed)
    {
      for i := 0 to |schedule|
        invariant Valid() && stop && trace.teardown == old(trace.teardown) && |workers| == old(|workers|)
        invariant accepted == old(accepted) && trace.completed >= old(trace.completed)
      {
        if CanStep(schedule[i]) { StepWorker(schedule[i]); }
      }
    }

    /** `t.join()` for one worker: all workers go on, in the order of the schedule and after its
        end only this one, until it has exited.  It returns what is left of the schedule. */
    method JoinWorker(k: nat, schedule: seq<nat>) returns (rest: seq<nat>)
      requires Valid() && stop && trace.teardown == Joining(k) && k < |workers|
      modifies this
      ensures Valid() && stop && trace.teardown == Joining(k + 1) && |workers| == old(|workers|)
      ensures accepted == old(accepted) && trace.completed >= old(trace.completed)
    {
      rest := schedule;
      while !workers[k].Exited?
        invariant Valid() && stop && trace.teardown == Joining(k) && |workers| == old(|workers|)
        invariant accepted == old(accepted) && trace.completed >= old(trace.completed)
        decreases Measure(trace)
      {
        var w := k;
        if rest != [] {
          if CanStep(rest[0]) { w := rest[0]; }
          rest := rest[1..];
        }
        ReachableInv(trace);
        StepWorker(w);
      }
      Record(Join);
    }

    /** The destructor: stop, notify all, join every worker in turn, while the workers go on in
        the order of the schedules: `early` before the notification, `late` during the joins.
        Whatever the order, with at least one worker every task ever accepted has then completed. */
    method Destroy(early: seq<nat>, late: seq<nat>)
      requires Valid() && !stop
      modifies this
      ensures Valid() && Joined(trace) && accepted == old(accepted)
      ensures forall w :: 0 <= w < |workers| ==> workers[w].Exited?
      ensures |workers| == old(|workers|)
      ensures trace.completed == AllAccepted(trace) <==> |workers| > 0 || accepted == 0
    {
      ReachableInv(trace);
      stop := true;
      Record(Stop);
      RunWorkers(early);
      workers := WakeAll(workers);
      Record(NotifyAll);
      var schedule := late;
      var k := 0;
      while k < |workers|
        invariant Valid() && stop && |workers| == old(|workers|) && accepted == old(accepted)
        invariant k <= |workers| && trace.teardown == Joining(k)
      {
        schedule := JoinWorker(k, schedule);
        k := k + 1;
      }
      JoinedMeansAllCompleted(trace);
    }
  }
}
