/** The thread pool, one step per region under the mutex, per notification and per task.

    A worker that holds the mutex tests the wait predicate: with a task queued it takes the
    first one and leaves, with the pool stopped and nothing queued it exits, otherwise it
    releases the mutex and sleeps in one step.  `submit` appends under the mutex and
    notifies after releasing it, as a separate step; the destructor sets `stop_` under the
    mutex, notifies all, and joins the workers in order.  Sleepers may also wake up for no
    reason.  Tasks are numbered in the order in which they are accepted. */
module PoolProtocol {
  /** `AtLock`: about to take the mutex, newly started, woken up, or back from a task. */
  datatype Worker = AtLock | Sleeping | Working(task: nat) | Exited

  datatype Teardown = Open | Stopped | Joining(next: nat)

  /** `notifies` counts the submissions that have released the mutex and not notified yet.
      The last three fields are history. */
  datatype State = State(
    tasks: seq<nat>,
    stop: bool,
    workers: seq<Worker>,
    notifies: nat,
    teardown: Teardown,
    accepted: nat,
    started: seq<nat>,
    completed: set<nat>)

  datatype Step =
    | Submit
    | NotifyOne(w: nat)
    | Spurious(w: nat)
    | Lock(w: nat)
    | Finish(w: nat)
    | Stop
    | NotifyAll
    | Join

  ghost function Init(threads: nat): State {
    State([], false, seq(threads, _ => AtLock), 0, Open, 0, [], {})
  }

  ghost predicate SomeSleeper(s: State) {
    exists w :: 0 <= w < |s.workers| && s.workers[w].Sleeping?
  }

  /** A notification wakes some sleeper when there is one, and is lost otherwise. */
  ghost predicate Enabled(s: State, step: Step) {
    match step
    case Submit => true
    case NotifyOne(w) =>
      s.notifies > 0 && (SomeSleeper(s) ==> w < |s.workers| && s.workers[w].Sleeping?)
    case Spurious(w) => w < |s.workers| && s.workers[w].Sleeping?
    case Lock(w) => w < |s.workers| && s.workers[w].AtLock?
    case Finish(w) => w < |s.workers| && s.workers[w].Working?
    case Stop => s.teardown.Open?
    case NotifyAll => s.teardown.Stopped?
    case Join =>
      s.teardown.Joining? && s.teardown.next < |s.workers| && s.workers[s.teardown.next].Exited?
  }

  function WakeAll(workers: seq<Worker>): seq<Worker> {
    seq(|workers|, i requires 0 <= i < |workers| => if workers[i].Sleeping? then AtLock else workers[i])
  }

  ghost function Next(s: State, step: Step): State
    requires Enabled(s, step)
  {
    match step
    case Submit =>
      if s.stop then s   // throws
      else s.(tasks := s.tasks + [s.accepted], notifies := s.notifies + 1, accepted := s.accepted + 1)
    case NotifyOne(w) =>
      s.(notifies := s.notifies - 1,
         workers := if SomeSleeper(s) then s.workers[w := AtLock] else s.workers)
    case Spurious(w) => s.(workers := s.workers[w := AtLock])
    case Lock(w) =>
      if s.tasks != [] then
        s.(workers := s.workers[w := Working(s.tasks[0])], tasks := s.tasks[1..],
           started := s.started + [s.tasks[0]])
      else
        s.(workers := s.workers[w := if s.stop then Exited else Sleeping])
    case Finish(w) =>
      s.(workers := s.workers[w := AtLock], completed := s.completed + {s.workers[w].task})
    case Stop => s.(stop := true, teardown := Stopped)
    case NotifyAll => s.(workers := WakeAll(s.workers), teardown := Joining(0))
    case Join => s.(teardown := Joining(s.teardown.next + 1))
  }

  /** The schedule can be run from `s`. */
  ghost predicate Runs(s: State, steps: seq<Step>)
    decreases |steps|
  {
    steps == [] || (Enabled(s, steps[0]) && Runs(Next(s, steps[0]), steps[1..]))
  }

  ghost function Exec(s: State, steps: seq<Step>): State
    requires Runs(s, steps)
    decreases |steps|
  {
    if steps == [] then s else Exec(Next(s, steps[0]), steps[1..])
  }

  // ------------------------------------------------------------------ counting workers

  ghost function Sum(workers: seq<Worker>, weight: Worker -> nat): nat {
    if workers == [] then 0 else Sum(workers[..|workers| - 1], weight) + weight(workers[|workers| - 1])
  }

  lemma {:induction false} SumUpdate(workers: seq<Worker>, weight: Worker -> nat, w: nat, x: Worker)
    requires w < |workers|
    ensures Sum(workers[w := x], weight) == Sum(workers, weight) - weight(workers[w]) + weight(x)
    ensures Sum(workers, weight) >= weight(workers[w])
  {
    var front := workers[..|workers| - 1];
    if w == |workers| - 1 {
      assert workers[w := x][..|workers| - 1] == front;
    } else {
      assert workers[w := x][..|workers| - 1] == front[w := x];
      SumUpdate(front, weight, w, x);
    }
  }

  lemma {:induction false} SumWakeAll(workers: seq<Worker>, weight: Worker -> nat, woken: Worker -> nat)
    requires forall x: Worker :: woken(x) == if x.Sleeping? then weight(AtLock) else weight(x)
    ensures Sum(WakeAll(workers), weight) == Sum(workers, woken)
  {
    if workers != [] {
      var front := workers[..|workers| - 1];
      assert WakeAll(workers)[..|workers| - 1] == WakeAll(front);
      SumWakeAll(front, weight, woken);
    }
  }

  lemma {:induction false} SumMonotone(workers: seq<Worker>, low: Worker -> nat, high: Worker -> nat)
    requires forall x :: low(x) <= high(x)
    ensures Sum(workers, low) <= Sum(workers, high)
  {
    if workers != [] { SumMonotone(workers[..|workers| - 1], low, high); }
  }

  ghost function AtLockCount(s: State): nat { Sum(s.workers, (x: Worker) => if x.AtLock? then 1 else 0) }

  ghost function WorkingCount(s: State): nat { Sum(s.workers, (x: Worker) => if x.Working? then 1 else 0) }

  // ------------------------------------------------------------------ invariant

  /** Tasks are taken in the order in which they were accepted, each once. */
  ghost predicate FifoOk(s: State) {
    && |s.started| + |s.tasks| == s.accepted
    && (forall i :: 0 <= i < |s.started| ==> s.started[i] == i)
    && (forall i :: 0 <= i < |s.tasks| ==> s.tasks[i] == |s.started| + i)
  }

  /** A task that was taken is with one worker or completed, never both. */
  ghost predicate RunOk(s: State) {
    && (forall t :: t in s.completed ==> t < |s.started|)
    && (forall w :: 0 <= w < |s.workers| && s.workers[w].Working? ==>
          s.workers[w].task < |s.started| && s.workers[w].task !in s.completed)
    && (forall v, w :: 0 <= v < w < |s.workers| && s.workers[v].Working? && s.workers[w].Working? ==>
          s.workers[v].task != s.workers[w].task)
    && |s.completed| + WorkingCount(s) == |s.started|
  }

  /** While anyone sleeps, every queued task has its own notification on the way or its own
      worker on the way to the mutex. */
  ghost predicate WakeOk(s: State) {
    SomeSleeper(s) ==> |s.tasks| <= s.notifies + AtLockCount(s)
  }

  ghost predicate StopOk(s: State) {
    && (s.stop <==> !s.teardown.Open?)
    && (s.teardown.Joining? ==>
          (!SomeSleeper(s) && s.teardown.next <= |s.workers|
           && forall w :: 0 <= w < s.teardown.next ==> s.workers[w].Exited?))
    && (forall w :: 0 <= w < |s.workers| && s.workers[w].Exited? ==> s.stop && s.tasks == [])
  }

  ghost predicate Inv(s: State) { FifoOk(s) && RunOk(s) && WakeOk(s) && StopOk(s) }

  lemma {:induction false} SumConstant(n: nat, x: Worker, weight: Worker -> nat)
    ensures Sum(seq(n, _ => x), weight) == n * weight(x)
  {
    if n > 0 {
      assert seq(n, _ => x)[..n - 1] == seq(n - 1, _ => x);
      SumConstant(n - 1, x, weight);
    }
  }

  lemma InitKeeps(threads: nat)
    ensures Inv(Init(threads))
  {
    SumConstant(threads, AtLock, (x: Worker) => if x.Working? then 1 else 0);
  }

  lemma CountsAfterUpdate(s: State, t: State, w: nat, x: Worker)
    requires w < |s.workers| && t.workers == s.workers[w := x]
    ensures AtLockCount(t) == AtLockCount(s) - (if s.workers[w].AtLock? then 1 else 0) + if x.AtLock? then 1 else 0
    ensures WorkingCount(t) == WorkingCount(s) - (if s.workers[w].Working? then 1 else 0) + if x.Working? then 1 else 0
  {
    SumUpdate(s.workers, (x: Worker) => if x.AtLock? then 1 else 0, w, x);
    SumUpdate(s.workers, (x: Worker) => if x.Working? then 1 else 0, w, x);
  }

  lemma LockKeeps(s: State, w: nat)
    requires Inv(s) && Enabled(s, Lock(w))
    ensures Inv(Next(s, Lock(w)))
  {
    var t := Next(s, Lock(w));
    CountsAfterUpdate(s, t, w, t.workers[w]);
    assert SomeSleeper(t) && t.tasks != [] ==> SomeSleeper(s) by {
      if v :| 0 <= v < |t.workers| && t.workers[v].Sleeping? {
        if t.tasks != [] { assert s.workers[v].Sleeping?; }
      }
    }
    assert !SomeSleeper(s) && s.stop ==> !SomeSleeper(t);
  }

  lemma FinishKeeps(s: State, w: nat)
    requires Inv(s) && Enabled(s, Finish(w))
    ensures Inv(Next(s, Finish(w)))
  {
    var t := Next(s, Finish(w));
    CountsAfterUpdate(s, t, w, t.workers[w]);
    assert SomeSleeper(t) ==> SomeSleeper(s);
    assert |t.completed| == |s.completed| + 1;
  }

  lemma WakeOneKeeps(s: State, t: State, w: nat)
    requires Inv(s) && w < |s.workers| && s.workers[w].Sleeping?
    requires t == s.(workers := s.workers[w := AtLock])
          || (s.notifies > 0 && t == s.(workers := s.workers[w := AtLock], notifies := s.notifies - 1))
    ensures Inv(t)
  {
    CountsAfterUpdate(s, t, w, AtLock);
    assert SomeSleeper(s);
  }

  lemma NotifyAllKeeps(s: State)
    requires Inv(s) && Enabled(s, NotifyAll)
    ensures Inv(Next(s, NotifyAll))
  {
    var working := (x: Worker) => if x.Working? then 1 else 0;
    SumWakeAll(s.workers, working, working);
  }

  lemma StepKeeps(s: State, step: Step)
    requires Inv(s) && Enabled(s, step)
    ensures Inv(Next(s, step))
  {
    var t := Next(s, step);
    match step
    case Submit => assert SomeSleeper(t) ==> SomeSleeper(s);
    case NotifyOne(w) => if SomeSleeper(s) { WakeOneKeeps(s, t, w); }
    case Spurious(w) => WakeOneKeeps(s, t, w);
    case Lock(w) => LockKeeps(s, w);
    case Finish(w) => FinishKeeps(s, w);
    case Stop => assert SomeSleeper(t) ==> SomeSleeper(s);
    case NotifyAll => NotifyAllKeeps(s);
    case Join => assert SomeSleeper(t) ==> SomeSleeper(s);
  }
}
