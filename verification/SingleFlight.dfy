/** The job guard of the tick callback, on top of the pool protocol.

    On every ninth tick the callback submits a track-limits job, and on every tick a
    weather job, each only if the future of the previous job of its kind is unset or ready.
    A future is ready when its task has completed.  The callback's reads and submissions
    interleave with all steps of the workers; the pool is torn down only after the generator
    thread, which runs the callback, has been stopped. */
module SingleFlight {
  import opened Common
  import Pool = PoolProtocol
  import ThreadPool

  datatype Job = TrackLimits | Weather

  /** Where the callback stands. */
  datatype Callback =
    | Between
    | CheckTrack | SubmitTrack | NotifyTrack
    | CheckWeather | SubmitWeather | NotifyWeather

  datatype State = State(
    pool: Pool.State,
    jobs: seq<Job>,                // what each accepted task runs
    ticks: nat,
    trackFuture: Option<nat>,
    weatherFuture: Option<nat>,
    at: Callback,
    retired: bool)                 // the generator thread was joined

  datatype Step =
    | TickBegins
    | Callback(w: nat)             // the callback's next step; `w` is the worker a notification wakes
    | Retire
    | Pool(step: Pool.Step)

  ghost function Init(threads: nat): State {
    State(Pool.Init(threads), [], 0, None, None, Between, false)
  }

  ghost predicate Ready(s: State, future: Option<nat>) {
    future.None? || future.value in s.pool.completed
  }

  ghost predicate Enabled(s: State, step: Step) {
    match step
    case TickBegins => s.at.Between? && !s.retired
    case Callback(w) =>
      && !s.at.Between?
      && (s.at.NotifyTrack? || s.at.NotifyWeather? ==> Pool.Enabled(s.pool, Pool.NotifyOne(w)))
    case Retire => s.at.Between?
    case Pool(p) =>
      && Pool.Enabled(s.pool, p) && !p.Submit? && !p.NotifyOne?
      && (p.Stop? || p.NotifyAll? || p.Join? ==> s.retired)
  }

  ghost function Submitted(s: State, job: Job): State {
    s.(pool := Pool.Next(s.pool, Pool.Submit), jobs := if s.pool.stop then s.jobs else s.jobs + [job])
  }

  ghost function Next(s: State, step: Step): State
    requires Enabled(s, step)
  {
    match step
    case TickBegins =>
      s.(ticks := s.ticks + 1, at := if (s.ticks + 1) % 9 == 0 then CheckTrack else CheckWeather)
    case Callback(w) =>
      (match s.at
       case CheckTrack => s.(at := if Ready(s, s.trackFuture) then SubmitTrack else CheckWeather)
       case SubmitTrack =>
         Submitted(s, TrackLimits).(trackFuture := Some(s.pool.accepted), at := NotifyTrack)
       case NotifyTrack => s.(pool := Pool.Next(s.pool, Pool.NotifyOne(w)), at := CheckWeather)
       case CheckWeather => s.(at := if Ready(s, s.weatherFuture) then SubmitWeather else Between)
       case SubmitWeather =>
         Submitted(s, Weather).(weatherFuture := Some(s.pool.accepted), at := NotifyWeather)
       case NotifyWeather => s.(pool := Pool.Next(s.pool, Pool.NotifyOne(w)), at := Between)
       case Between => s)
    case Retire => s.(retired := true)
    case Pool(p) => s.(pool := Pool.Next(s.pool, p))
  }

  ghost predicate Runs(s: State, steps: seq<Step>)
    decreases |steps|
  {
    steps == [] || (Enabled(s, steps[0]) && Runs(Next(s, steps[0]), steps[1..]))
  }

  ghost function Exec(s: State, steps: seq<Step>): State
    requires Runs(s, steps)
    decreases |steps|
  {
    if steps == [] then s else Exec(Next(s, steps[0]), steps[1..])
  }

  // ------------------------------------------------------------------ invariant

  /** Accepted and not completed: queued or running. */
  ghost predicate Outstanding(s: State, t: nat) {
    t < s.pool.accepted && t !in s.pool.completed
  }

  ghost function FutureOf(s: State, job: Job): Option<nat> {
    if job.TrackLimits? then s.trackFuture else s.weatherFuture
  }

  /** Every outstanding task is the one its system's future stands for. */
  ghost predicate GuardOk(s: State) {
    && |s.jobs| == s.pool.accepted
    && (forall t :: 0 <= t < |s.jobs| && t !in s.pool.completed ==> FutureOf(s, s.jobs[t]) == Some(t))
    && (s.at.SubmitTrack? ==> Ready(s, s.trackFuture))
    && (s.at.SubmitWeather? ==> Ready(s, s.weatherFuture))
    && (s.at.CheckTrack? || s.at.SubmitTrack? || s.at.NotifyTrack? ==> s.ticks % 9 == 0)
  }

  ghost predicate TeardownOk(s: State) {
    && (s.pool.stop ==> s.retired) && (s.retired ==> s.at.Between?)
    && s.pool.notifies == (if s.at.NotifyTrack? || s.at.NotifyWeather? then 1 else 0)
  }

  ghost predicate Inv(s: State) {
    Pool.Inv(s.pool) && GuardOk(s) && TeardownOk(s)
  }

  lemma CallbackKeeps(s: State, w: nat)
    requires Inv(s) && Enabled(s, Callback(w))
    ensures Inv(Next(s, Callback(w)))
  {
    if s.at.SubmitTrack? || s.at.SubmitWeather? {
      Pool.StepKeeps(s.pool, Pool.Submit);
    } else if s.at.NotifyTrack? || s.at.NotifyWeather? {
      Pool.StepKeeps(s.pool, Pool.NotifyOne(w));
    }
  }

  lemma StepKeeps(s: State, step: Step)
    requires Inv(s) && Enabled(s, step)
    ensures Inv(Next(s, step))
  {
    match step
    case Callback(w) => CallbackKeeps(s, w);
    case Pool(p) => Pool.StepKeeps(s.pool, p);
    case _ =>
  }

  lemma {:induction false} RunKeeps(s: State, steps: seq<Step>)
    requires Inv(s) && Runs(s, steps)
    ensures Inv(Exec(s, steps))
    decreases |steps|
  {
    if steps != [] {
      StepKeeps(s, steps[0]);
      RunKeeps(Next(s, steps[0]), steps[1..]);
    }
  }

  ghost predicate Reachable(s: State) {
    exists threads, steps :: Runs(Init(threads), steps) && Exec(Init(threads), steps) == s
  }

  lemma ReachableInv(s: State)
    requires Reachable(s)
    ensures Inv(s)
  {
    var threads, steps :| Runs(Init(threads), steps) && Exec(Init(threads), steps) == s;
    Pool.InitKeeps(threads);
    RunKeeps(Init(threads), steps);
  }

  // ------------------------------------------------------------------ guarantees

  /** At any moment at most one job of each system is queued or running. */
  lemma OneJobPerSystem(s: State, t: nat, u: nat)
    requires Reachable(s) && t != u && Outstanding(s, t) && Outstanding(s, u)
    ensures |s.jobs| == s.pool.accepted && s.jobs[t] != s.jobs[u]
  {
    ReachableInv(s);
  }

  /** No two workers are inside the same system, so its unsynchronised state is never
      entered twice at once. */
  lemma NoSystemEnteredTwice(s: State, v: nat, w: nat)
    requires Reachable(s) && v != w && v < |s.pool.workers| && w < |s.pool.workers|
    requires s.pool.workers[v].Working? && s.pool.workers[w].Working?
    ensures s.pool.workers[v].task < |s.jobs| && s.pool.workers[w].task < |s.jobs|
    ensures s.jobs[s.pool.workers[v].task] != s.jobs[s.pool.workers[w].task]
  {
    ReachableInv(s);
    OneJobPerSystem(s, s.pool.workers[v].task, s.pool.workers[w].task);
  }

  lemma Smaller(a: set<nat>, b: set<nat>)
    requires a <= b
    ensures |a| <= |b|
  {
    assert |b - a| == |b| - |a|;
  }

  /** The pool never holds more than two jobs, queued and running together. */
  lemma AtMostTwoJobs(s: State)
    requires Reachable(s)
    ensures |s.pool.tasks| + Pool.WorkingCount(s.pool) <= 2
  {
    ReachableInv(s);
    var all := UpTo(s.pool.accepted);
    var open := all - s.pool.completed;
    var futures := (if s.trackFuture.Some? then {s.trackFuture.value} else {})
                   + (if s.weatherFuture.Some? then {s.weatherFuture.value} else {});
    forall t | t in open ensures t in futures {
      assert FutureOf(s, s.jobs[t]) == Some(t);
    }
    Smaller(open, futures);
    assert s.pool.completed <= all;
    assert |all - s.pool.completed| == |all| - |s.pool.completed|;
  }

  /** No submission of the callback is ever refused, and track-limits jobs are submitted
      on ninth ticks only. */
  lemma SubmissionsAreAccepted(s: State)
    requires Reachable(s)
    ensures s.at.SubmitTrack? || s.at.SubmitWeather? ==> !s.pool.stop
    ensures s.at.SubmitTrack? ==> s.ticks % 9 == 0
  {
    ReachableInv(s);
  }

  // ------------------------------------------------------------------ teardown

  lemma PoolStep(s: State, step: Step)
    requires ThreadPool.Reachable(s.pool) && Enabled(s, step)
    ensures ThreadPool.Reachable(Next(s, step).pool)
  {
    match step
    case Callback(w) =>
      if s.at.SubmitTrack? || s.at.SubmitWeather? {
        ThreadPool.ReachableNext(s.pool, Pool.Submit);
      } else if s.at.NotifyTrack? || s.at.NotifyWeather? {
        ThreadPool.ReachableNext(s.pool, Pool.NotifyOne(w));
      }
    case Pool(p) => ThreadPool.ReachableNext(s.pool, p);
    case _ =>
  }

  lemma {:induction false} PoolRuns(s: State, steps: seq<Step>)
    requires ThreadPool.Reachable(s.pool) && Runs(s, steps)
    ensures ThreadPool.Reachable(Exec(s, steps).pool)
    decreases |steps|
  {
    if steps != [] {
      PoolStep(s, steps[0]);
      PoolRuns(Next(s, steps[0]), steps[1..]);
    }
  }

  /** Whatever the callback does, the pool goes through states it can reach on its own. */
  lemma PoolIsReachable(s: State)
    requires Reachable(s)
    ensures ThreadPool.Reachable(s.pool)
  {
    var threads, steps :| Runs(Init(threads), steps) && Exec(Init(threads), steps) == s;
    ThreadPool.ReachableInit(threads);
    PoolRuns(Init(threads), steps);
  }

  /** Once the pool's destructor has joined its workers no job is queued or running, so none
      touches a system that is destroyed after the pool. */
  lemma NoJobOutlivesThePool(s: State, t: nat)
    requires Reachable(s) && ThreadPool.Joined(s.pool) && |s.pool.workers| > 0
    ensures !Outstanding(s, t)
  {
    PoolIsReachable(s);
    ThreadPool.JoinedMeansAllCompleted(s.pool);
    assert t < s.pool.accepted ==> t in ThreadPool.AllAccepted(s.pool);
  }
}
