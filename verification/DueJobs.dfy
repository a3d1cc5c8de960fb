/** When the callback submits its jobs, tick by tick and over whole runs, and what the program's
    pool of two workers does with them. */
module DueJobs {
  import opened Common
  import Pool = PoolProtocol
  import ThreadPool
  import opened SingleFlight

  // ------------------------------------------------------------------ one tick

  /** A tick looks at the track-limits job exactly when it is a ninth tick, and at the weather job
      in any case; a look leads to a submission exactly when the job's previous future is unset
      or its task has completed; and a submission adds that job and no other. */
  lemma EachStepOfATick(s: State, step: Step)
    requires Reachable(s) && Enabled(s, step)
    ensures var t := Next(s, step);
            && (step.TickBegins? ==>
                  t.ticks == s.ticks + 1 && (t.at.CheckTrack? <==> t.ticks % 9 == 0)
                  && (t.at.CheckTrack? || t.at.CheckWeather?))
            && (s.at.CheckTrack? && step.Callback? ==>
                  ((t.at.SubmitTrack? <==> s.trackFuture.None? || s.trackFuture.value in s.pool.completed)
                   && (t.at.SubmitTrack? || t.at.CheckWeather?)))
            && (s.at.SubmitTrack? && step.Callback? ==>
                  t.jobs == s.jobs + [TrackLimits] && t.trackFuture == Some(|s.jobs|) && t.at.NotifyTrack?)
            && (s.at.NotifyTrack? && step.Callback? ==> t.at.CheckWeather?)
            && (s.at.CheckWeather? && step.Callback? ==>
                  ((t.at.SubmitWeather? <==> s.weatherFuture.None? || s.weatherFuture.value in s.pool.completed)
                   && (t.at.SubmitWeather? || t.at.Between?)))
            && (s.at.SubmitWeather? && step.Callback? ==>
                  t.jobs == s.jobs + [Weather] && t.weatherFuture == Some(|s.jobs|) && t.at.NotifyWeather?)
            && (t.jobs != s.jobs ==> step.Callback? && (s.at.SubmitTrack? || s.at.SubmitWeather?))
  {
    ReachableInv(s);
  }

  // ------------------------------------------------------------------ any number of ticks

  function Count(jobs: seq<Job>, job: Job): nat {
    if jobs == [] then 0 else Count(jobs[..|jobs| - 1], job) + if jobs[|jobs| - 1] == job then 1 else 0
  }

  lemma CountLast(jobs: seq<Job>, last: Job, job: Job)
    ensures Count(jobs + [last], job) == Count(jobs, job) + if last == job then 1 else 0
  {
    assert (jobs + [last])[..|jobs|] == jobs;
  }

  ghost predicate AllDone(s: State) {
    forall t :: 0 <= t < s.pool.accepted ==> t in s.pool.completed
  }

  /** Every tick finds all earlier jobs completed. */
  ghost predicate Prompt(s: State, steps: seq<Step>)
    requires Runs(s, steps)
    decreases |steps|
  {
    steps != [] ==> (steps[0].TickBegins? ==> AllDone(s)) && Prompt(Next(s, steps[0]), steps[1..])
  }

  ghost predicate BeforeTrack(s: State) { s.at.CheckTrack? || s.at.SubmitTrack? }

  ghost predicate BeforeWeather(s: State) {
    BeforeTrack(s) || s.at.NotifyTrack? || s.at.CheckWeather? || s.at.SubmitWeather?
  }

  /** Where the counts stand in the middle of a tick. */
  ghost predicate OnTime(s: State) {
    && Count(s.jobs, TrackLimits) == s.ticks / 9 - (if BeforeTrack(s) then 1 else 0)
    && Count(s.jobs, Weather) == s.ticks - (if BeforeWeather(s) then 1 else 0)
    && (s.trackFuture.Some? ==> s.trackFuture.value < s.pool.accepted)
    && (s.weatherFuture.Some? ==> s.weatherFuture.value < s.pool.accepted)
    && (s.at.CheckTrack? ==> Ready(s, s.trackFuture))
    && (BeforeWeather(s) ==> Ready(s, s.weatherFuture))
  }

  lemma TickOnTime(s: State)
    requires OnTime(s) && Enabled(s, TickBegins) && AllDone(s)
    ensures OnTime(Next(s, TickBegins))
  {
  }

  lemma CallbackOnTime(s: State, w: nat)
    requires GuardOk(s) && TeardownOk(s) && OnTime(s) && Enabled(s, Callback(w))
    ensures OnTime(Next(s, Callback(w)))
  {
    if s.at.SubmitTrack? {
      CountLast(s.jobs, TrackLimits, TrackLimits);
      CountLast(s.jobs, TrackLimits, Weather);
    }
    if s.at.SubmitWeather? {
      CountLast(s.jobs, Weather, TrackLimits);
      CountLast(s.jobs, Weather, Weather);
    }
  }

  lemma PoolOnTime(s: State, p: Pool.Step)
    requires OnTime(s) && Enabled(s, SingleFlight.Pool(p))
    ensures OnTime(Next(s, SingleFlight.Pool(p)))
  {
    var t := Next(s, SingleFlight.Pool(p));
    assert t.pool.accepted == s.pool.accepted && t.pool.completed >= s.pool.completed;
  }

  lemma OnTimeKeeps(s: State, step: Step)
    requires Inv(s) && OnTime(s) && Enabled(s, step) && (step.TickBegins? ==> AllDone(s))
    ensures OnTime(Next(s, step))
  {
    match step
    case TickBegins => TickOnTime(s);
    case Callback(w) => CallbackOnTime(s, w);
    case Retire =>
    case Pool(p) => PoolOnTime(s, p);
  }

  lemma {:induction false} StaysOnTime(s: State, steps: seq<Step>)
    requires Inv(s) && OnTime(s) && Runs(s, steps) && Prompt(s, steps)
    ensures OnTime(Exec(s, steps))
    decreases |steps|
  {
    if steps != [] {
      OnTimeKeeps(s, steps[0]);
      StepKeeps(s, steps[0]);
      StaysOnTime(Next(s, steps[0]), steps[1..]);
    }
  }

  /** In every run in which each tick finds the earlier jobs completed, n ticks submit exactly
      n / 9 track-limits jobs and n weather jobs. */
  lemma JobsOfManyTicks(threads: nat, steps: seq<Step>)
    requires Runs(Init(threads), steps) && Prompt(Init(threads), steps) && Exec(Init(threads), steps).at.Between?
    ensures var s := Exec(Init(threads), steps);
            Count(s.jobs, TrackLimits) == s.ticks / 9 && Count(s.jobs, Weather) == s.ticks
  {
    Pool.InitKeeps(threads);
    StaysOnTime(Init(threads), steps);
  }

  // ------------------------------------------------------------------ the pool of two

  lemma {:induction false} PoolSizeIsKept(s: State, steps: seq<Step>)
    requires Runs(s, steps)
    ensures |Exec(s, steps).pool.workers| == |s.pool.workers|
    decreases |steps|
  {
    if steps != [] { PoolSizeIsKept(Next(s, steps[0]), steps[1..]); }
  }

  /** The program's pool has two workers in every run. */
  lemma TwoWorkers(steps: seq<Step>)
    requires Runs(Init(2), steps)
    ensures |Exec(Init(2), steps).pool.workers| == 2
  {
    PoolSizeIsKept(Init(2), steps);
  }

  lemma {:induction false} RunAppend(s: State, steps: seq<Step>, step: Step)
    requires Runs(s, steps) && Enabled(Exec(s, steps), step)
    ensures Runs(s, steps + [step]) && Exec(s, steps + [step]) == Next(Exec(s, steps), step)
    decreases |steps|
  {
    if steps == [] {
      assert [step][1..] == [];
    } else {
      RunAppend(Next(s, steps[0]), steps[1..], step);
      assert (steps + [step])[1..] == steps[1..] + [step];
    }
  }

  /** The state is reached with two workers. */
  ghost predicate ReachedByTwo(s: State) {
    exists steps :: Runs(Init(2), steps) && Exec(Init(2), steps) == s
  }

  lemma Go(s: State, step: Step) returns (t: State)
    requires ReachedByTwo(s) && Enabled(s, step)
    ensures t == Next(s, step) && ReachedByTwo(t)
  {
    var steps :| Runs(Init(2), steps) && Exec(Init(2), steps) == s;
    RunAppend(Init(2), steps, step);
    t := Next(s, step);
  }

  /** Between two ticks, both workers on their way to the mutex, everything accepted is completed
      or queued. */
  ghost predicate Settled(s: State) {
    && ReachedByTwo(s) && s.at.Between? && !s.retired
    && s.pool.workers == [Pool.AtLock, Pool.AtLock] && s.pool.notifies == 0 && !s.pool.stop
    && |s.jobs| == s.pool.accepted
    && (s.trackFuture.Some? ==> s.trackFuture.value < s.pool.accepted)
    && (s.weatherFuture.Some? ==> s.weatherFuture.value < s.pool.accepted)
    && forall t :: 0 <= t < s.pool.accepted ==> t in s.pool.completed || t in s.pool.tasks
  }

  lemma NobodySleeps(s: State)
    requires s.pool.workers == [Pool.AtLock, Pool.AtLock]
    ensures !Pool.SomeSleeper(s.pool)
  {
  }

  /** The track-limits part of a ninth tick. */
  lemma TrackPart(s: State) returns (t: State)
    requires ReachedByTwo(s) && s.at.CheckTrack? && Ready(s, s.trackFuture) && !s.pool.stop && s.pool.notifies == 0
    requires s.pool.workers == [Pool.AtLock, Pool.AtLock]
    ensures ReachedByTwo(t) && t.at.CheckWeather?
    ensures t == s.(at := CheckWeather, jobs := s.jobs + [TrackLimits], trackFuture := Some(s.pool.accepted), pool :=
                    s.pool.(tasks := s.pool.tasks + [s.pool.accepted], accepted := s.pool.accepted + 1))
  {
    var a := Go(s, SingleFlight.Callback(0));
    var b := Go(a, SingleFlight.Callback(0));
    NobodySleeps(b);
    t := Go(b, SingleFlight.Callback(0));
  }

  lemma WeatherPart(s: State) returns (t: State)
    requires ReachedByTwo(s) && s.at.CheckWeather? && Ready(s, s.weatherFuture) && !s.pool.stop && s.pool.notifies == 0
    requires s.pool.workers == [Pool.AtLock, Pool.AtLock]
    ensures ReachedByTwo(t) && t.at.Between?
    ensures t == s.(at := Between, jobs := s.jobs + [Weather], weatherFuture := Some(s.pool.accepted), pool :=
                    s.pool.(tasks := s.pool.tasks + [s.pool.accepted], accepted := s.pool.accepted + 1))
  {
    var a := Go(s, SingleFlight.Callback(0));
    var b := Go(a, SingleFlight.Callback(0));
    NobodySleeps(b);
    t := Go(b, SingleFlight.Callback(0));
  }

  /** One tick of the callback, with the workers standing still. */
  lemma OneTick(s: State) returns (t: State)
    requires Settled(s) && s.pool.tasks == []
    ensures Settled(t) && t.ticks == s.ticks + 1
    ensures if t.ticks % 9 == 0
            then t.jobs == s.jobs + [TrackLimits, Weather] && t.pool.tasks == [|s.jobs|, |s.jobs| + 1]
            else t.jobs == s.jobs + [Weather] && t.pool.tasks == [|s.jobs|]
  {
    var a := Go(s, TickBegins);
    if a.at.CheckTrack? { a := TrackPart(a); }
    t := WeatherPart(a);
  }

  /** The first worker takes and completes everything that is queued. */
  lemma {:induction false} WorkOff(s: State) returns (t: State)
    requires Settled(s)
    ensures Settled(t) && t.pool.tasks == [] && t.ticks == s.ticks && t.jobs == s.jobs
    decreases |s.pool.tasks|
  {
    if s.pool.tasks == [] {
      t := s;
    } else {
      var a := Go(s, SingleFlight.Pool(Pool.Lock(0)));
      var b := Go(a, SingleFlight.Pool(Pool.Finish(0)));
      t := WorkOff(b);
    }
  }

  /** Some run of the program's pool goes through any number of ticks. */
  lemma {:induction false} ManyTicks(n: nat) returns (s: State)
    ensures Settled(s) && s.pool.tasks == [] && s.ticks == n
  {
    if n == 0 {
      s := Init(2);
      assert Runs(Init(2), []) && Exec(Init(2), []) == s;
    } else {
      var a := ManyTicks(n - 1);
      var b := OneTick(a);
      s := WorkOff(b);
    }
  }

  /** Two due jobs can run at once: on every ninth tick the two workers can be inside the two
      systems at the same time. */
  lemma BothJobsCanRunAtOnce(n: nat) returns (s: State)
    requires n > 0 && n % 9 == 0
    ensures ReachedByTwo(s) && s.ticks == n && |s.pool.workers| == 2
    ensures s.pool.workers[0].Working? && s.pool.workers[0].task < |s.jobs|
    ensures s.pool.workers[1].Working? && s.pool.workers[1].task < |s.jobs|
    ensures s.jobs[s.pool.workers[0].task] == TrackLimits && s.jobs[s.pool.workers[1].task] == Weather
  {
    var a := ManyTicks(n - 1);
    var b := OneTick(a);
    var c := Go(b, SingleFlight.Pool(Pool.Lock(0)));
    s := Go(c, SingleFlight.Pool(Pool.Lock(1)));
  }
}
