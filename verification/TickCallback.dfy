/** The callback at the end of each tick: sort by position, publish, submit the two race-control
    jobs unless the previous one is still outstanding, and process the events. */
module TickCallback {
  import opened Common
  import opened RaceTypes
  import opened Ranking
  import opened SingleFlight
  import opened DueJobs
  import Leaderboard
  import PenaltyBatches
  import PenaltyEnforcer
  import ThreadPool

  lemma InsertRearranges(perm: seq<nat>, n: nat, k: nat)
    requires Rearranges(perm, n) && k <= n
    ensures Rearranges(perm[..k] + [n] + perm[k..], n + 1)
  {
  }

  ghost predicate Ascending(s: seq<DriverState>) {
    forall j, k :: 0 <= j < k < |s| ==> s[j].position <= s[k].position
  }

  lemma InsertAscends(sorted: seq<DriverState>, s: DriverState, k: nat)
    requires Ascending(sorted) && k <= |sorted|
    requires forall j :: 0 <= j < k ==> sorted[j].position <= s.position
    requires k < |sorted| ==> s.position <= sorted[k].position
    ensures Ascending(sorted[..k] + [s] + sorted[k..])
  {
  }

  lemma InsertSorted(states: seq<DriverState>, n: nat, sorted: seq<DriverState>, perm: seq<nat>, k: nat)
    requires n < |states| && SortedByPosition(states[..n], sorted, perm) && k <= n
    requires forall j :: 0 <= j < k ==> sorted[j].position <= states[n].position
    requires k < n ==> states[n].position <= sorted[k].position
    ensures SortedByPosition(states[..n + 1], sorted[..k] + [states[n]] + sorted[k..], perm[..k] + [n] + perm[k..])
  {
    InsertRearranges(perm, n, k);
    InsertAscends(sorted, states[n], k);
    var out, to := sorted[..k] + [states[n]] + sorted[k..], perm[..k] + [n] + perm[k..];
    forall j | 0 <= j < n + 1 ensures out[j] == states[..n + 1][to[j]] {
      var i := if j < k then j else j - 1;
      assert j != k ==> to[j] == perm[i] && out[j] == sorted[i] && sorted[i] == states[..n][perm[i]];
    }
    assert Ascending(out);
  }

  /** `std::sort` by position; equal positions may come out in any order. */
  method SortByPosition(states: seq<DriverState>) returns (sorted: seq<DriverState>)
    ensures exists perm :: SortedByPosition(states, sorted, perm)
  {
    sorted := [];
    ghost var perm: seq<nat> := [];
    var n := 0;
    while n < |states|
      invariant n <= |states| && SortedByPosition(states[..n], sorted, perm)
    {
      var k := 0;
      while k < n && sorted[k].position < states[n].position
        invariant k <= n
        invariant forall j :: 0 <= j < k ==> sorted[j].position <= states[n].position
      {
        k := k + 1;
      }
      InsertSorted(states, n, sorted, perm, k);
      sorted, perm := sorted[..k] + [states[n]] + sorted[k..], perm[..k] + [n] + perm[k..];
      n := n + 1;
    }
    assert states[..n] == states;
  }

  /** What a tick adds to the submitted jobs: track limits if and only if it is a ninth tick and
      the previous one is done, weather if and only if the previous one is done, each once at
      most and track limits first, and nothing else. */
  ghost predicate AddsDueJobs(before: seq<Job>, after: seq<Job>, tick: nat, trackDone: bool, weatherDone: bool) {
    before <= after
    && var added := after[|before|..];
       && (TrackLimits in added <==> tick % 9 == 0 && trackDone)
       && (Weather in added <==> weatherDone)
       && |added| <= 2 && (|added| == 2 ==> added == [TrackLimits, Weather])
  }

  lemma AddsBoth(before: seq<Job>, middle: seq<Job>, after: seq<Job>, tick: nat, trackDone: bool, weatherDone: bool)
    requires middle == before + (if tick % 9 == 0 && trackDone then [TrackLimits] else [])
    requires after == middle + (if weatherDone then [Weather] else [])
    ensures AddsDueJobs(before, after, tick, trackDone, weatherDone)
  {
    var added := (if tick % 9 == 0 && trackDone then [TrackLimits] else []) + (if weatherDone then [Weather] else []);
    assert after == before + added && after[|before|..] == added;
  }

  /** One tick that finds both jobs done keeps the counts at n / 9 and n. */
  lemma CountsAfterTick(before: seq<Job>, after: seq<Job>, n: nat)
    requires AddsDueJobs(before, after, n + 1, true, true)
    requires Count(before, TrackLimits) == n / 9 && Count(before, Weather) == n
    ensures Count(after, TrackLimits) == (n + 1) / 9 && Count(after, Weather) == n + 1
  {
    var added := after[|before|..];
    assert after == before + added;
    if |added| == 2 {
      assert after == before + [TrackLimits] + [Weather];
      CountLast(before, TrackLimits, TrackLimits);
      CountLast(before, TrackLimits, Weather);
      CountLast(before + [TrackLimits], Weather, TrackLimits);
      CountLast(before + [TrackLimits], Weather, Weather);
    } else {
      assert added == [Weather];
      CountLast(before, Weather, TrackLimits);
      CountLast(before, Weather, Weather);
    }
  }

  class TickCallback {
    const board: Leaderboard.Leaderboard
    const pool: ThreadPool.ThreadPool
    const enforcer: PenaltyEnforcer.PenaltyEnforcer
    var tickCounter: nat
    var lap: int
    var trackFuture: Option<nat>
    var weatherFuture: Option<nat>
    ghost var jobs: seq<Job>       // what each accepted task runs

    function FutureFor(job: Job): Option<nat>
      reads this
    {
      if job.TrackLimits? then trackFuture else weatherFuture
    }

    /** Every task that is queued or running is the one its system's future stands for. */
    ghost predicate Guarded()
      reads this, pool
    {
      && |jobs| == pool.accepted
      && (trackFuture.Some? ==> trackFuture.value < |jobs|) && (weatherFuture.Some? ==> weatherFuture.value < |jobs|)
      && forall t :: 0 <= t < |jobs| && t !in pool.completed ==> FutureFor(jobs[t]) == Some(t)
    }

    ghost predicate Valid()
      reads this, pool, enforcer, enforcer.events
      reads enforcer.warnings, enforcer.penalties, enforcer.extraPitTime
    {
      pool.Valid() && enforcer.Valid() && Guarded()
    }

    ghost predicate Idle(job: Job)
      reads this, pool
    {
      FutureFor(job).None? || FutureFor(job).value in pool.completed
    }

    constructor (board: Leaderboard.Leaderboard, pool: ThreadPool.ThreadPool, enforcer: PenaltyEnforcer.PenaltyEnforcer)
      requires pool.Valid() && pool.accepted == 0 && enforcer.Valid()
      ensures Valid() && this.board == board && this.pool == pool && this.enforcer == enforcer
      ensures tickCounter == 0 && trackFuture == weatherFuture == None && jobs == []
    {
      this.board, this.pool, this.enforcer := board, pool, enforcer;
      tickCounter, lap, trackFuture, weatherFuture, jobs := 0, 0, None, None, [];
    }

    /** Submits the job unless its previous one is outstanding; fails only on a stopped pool.
        Afterwards still no system has two jobs queued or running. */
    method SubmitWhenIdle(job: Job) returns (ok: bool)
      requires Valid()
      modifies this`trackFuture, this`weatherFuture, this`jobs, pool
      ensures Valid() && pool.completed == old(pool.completed) && pool.stop == old(pool.stop)
      ensures |pool.workers| == old(|pool.workers|)
      ensures ok <==> !old(Idle(job)) || !old(pool.stop)
      ensures if old(Idle(job)) && ok
              then jobs == old(jobs) + [job] && FutureFor(job) == Some(old(pool.accepted))
              else jobs == old(jobs) && FutureFor(job) == old(FutureFor(job))
      ensures if job.TrackLimits? then weatherFuture == old(weatherFuture) else trackFuture == old(trackFuture)
    {
      var idle := pool.Ready(FutureFor(job));
      if !idle { return true; }
      var future := pool.Submit();
      if future.None? { return false; }
      if job.TrackLimits? { trackFuture := future; } else { weatherFuture := future; }
      jobs := jobs + [job];
      ok := true;
    }

    /** Track limits on every ninth tick. */
    method SubmitTrackLimits() returns (ok: bool)
      requires Valid() && !pool.stop
      modifies this`trackFuture, this`weatherFuture, this`jobs, pool
      ensures Valid() && ok && !pool.stop && pool.completed == old(pool.completed)
      ensures |pool.workers| == old(|pool.workers|)
      ensures jobs == old(jobs) + if tickCounter % 9 == 0 && old(Idle(TrackLimits)) then [TrackLimits] else []
      ensures weatherFuture == old(weatherFuture)
    {
      ok := true;
      if tickCounter % 9 == 0 {
        ok := SubmitWhenIdle(TrackLimits);
      }
    }

    /** The two submissions of a tick. */
    method SubmitJobs() returns (ok: bool)
      requires Valid() && !pool.stop
      modifies this`trackFuture, this`weatherFuture, this`jobs, this`tickCounter, pool
      ensures Valid() && ok && !pool.stop && tickCounter == old(tickCounter) + 1
      ensures |pool.workers| == old(|pool.workers|)
      ensures AddsDueJobs(old(jobs), jobs, tickCounter, old(Idle(TrackLimits)), old(Idle(Weather)))
    {
      ghost var before, trackIdle, weatherIdle := jobs, Idle(TrackLimits), Idle(Weather);
      tickCounter := tickCounter + 1;
      ok := SubmitTrackLimits();
      ghost var middle := jobs;
      ok := SubmitWhenIdle(Weather);
      AddsBoth(before, middle, jobs, tickCounter, trackIdle, weatherIdle);
    }

    /** Sorts and publishes. */
    method Publish(thread: nat, states: seq<DriverState>) returns (ok: bool, ghost perm: seq<nat>)
      modifies board
      ensures ok <==> old(board.writer) == None || old(board.writer) == Some(thread)
      ensures !ok ==> board.standings == old(board.standings)
      ensures ok ==> SortedByPosition(states, board.standings, perm) && board.writer == Some(thread)
    {
      var sorted := SortByPosition(states);
      perm :| SortedByPosition(states, sorted, perm);
      ok := board.Update(thread, sorted);
    }

    /** The race-control part of the callback: the jobs, then the events that were waiting. */
    method RaceControl(ghost me: nat) returns (batch: seq<PenaltyBatches.Event>)
      requires Valid() && !pool.stop && me !in enforcer.events.trace.pushing
      modifies this`trackFuture, this`weatherFuture, this`jobs, this`tickCounter, pool
      modifies enforcer`trace, enforcer.events, enforcer.warnings, enforcer.penalties, enforcer.extraPitTime
      ensures Valid() && !pool.stop && |pool.workers| == old(|pool.workers|) && tickCounter == old(tickCounter) + 1
      ensures AddsDueJobs(old(jobs), jobs, tickCounter, old(Idle(TrackLimits)), old(Idle(Weather)))
      ensures batch <= old(enforcer.events.Contents())
      ensures enforcer.Held() == PenaltyBatches.HandleAll(enforcer.roster, old(enforcer.Held()), batch).0
      ensures enforcer.events.Contents()
              == old(enforcer.events.Contents())[|batch|..]
                 + PenaltyBatches.HandleAll(enforcer.roster, old(enforcer.Held()), batch).1
      ensures enforcer.events.trace.pushing == old(enforcer.events.trace.pushing)
      ensures old(enforcer.events.trace.pushing) == map[] ==> batch == old(enforcer.events.Contents())
    {
      var _ := SubmitJobs();
      batch := enforcer.ProcessEvents(me);
    }

    /** The whole callback while the pool is open; `false` stands for the exception the
        leaderboard throws at a second writing thread.  The standings are published in the
        order of their positions, and the events that were waiting are handled. */
    method OnTick(thread: nat, states: seq<DriverState>, raceLap: int, ghost me: nat)
      returns (ok: bool, ghost perm: seq<nat>, batch: seq<PenaltyBatches.Event>)
      requires Valid() && !pool.stop && me !in enforcer.events.trace.pushing
      modifies this, board, pool, enforcer`trace, enforcer.events
      modifies enforcer.warnings, enforcer.penalties, enforcer.extraPitTime
      ensures Valid() && !pool.stop
      ensures ok <==> old(board.writer) == None || old(board.writer) == Some(thread)
      ensures !ok ==> board.standings == old(board.standings) && jobs == old(jobs) && tickCounter == old(tickCounter)
      ensures ok ==> SortedByPosition(states, board.standings, perm) && board.writer == Some(thread)
      ensures ok ==> lap == raceLap && tickCounter == old(tickCounter) + 1
      ensures ok ==> AddsDueJobs(old(jobs), jobs, tickCounter, old(Idle(TrackLimits)), old(Idle(Weather)))
      ensures |pool.workers| == old(|pool.workers|)
      ensures ok ==> batch <= old(enforcer.events.Contents())
      ensures ok ==> enforcer.Held() == PenaltyBatches.HandleAll(enforcer.roster, old(enforcer.Held()), batch).0
      ensures ok ==>
                enforcer.events.Contents()
                == old(enforcer.events.Contents())[|batch|..]
                   + PenaltyBatches.HandleAll(enforcer.roster, old(enforcer.Held()), batch).1
      ensures enforcer.events.trace.pushing == old(enforcer.events.trace.pushing)
      ensures ok && old(enforcer.events.trace.pushing) == map[] ==> batch == old(enforcer.events.Contents())
    {
      batch := [];
      ok, perm := Publish(thread, states);
      if !ok { return; }
      lap := raceLap;
      batch := RaceControl(me);
    }

    /** n ticks of one thread have submitted n / 9 track-limits jobs and n weather jobs. */
    ghost predicate OnTime()
      reads this
    {
      Count(jobs, TrackLimits) == tickCounter / 9 && Count(jobs, Weather) == tickCounter
    }

    /** The workers complete what is queued or running. */
    method SettleJobs()
      requires Valid() && !pool.stop && |pool.workers| >= 1
      modifies pool
      ensures Valid() && !pool.stop && |pool.workers| == old(|pool.workers|)
      ensures Idle(TrackLimits) && Idle(Weather)
    {
      pool.Settle();
    }

    /** One tick, after which the workers complete what it submitted. */
    method TickAndSettle(thread: nat, states: seq<DriverState>, raceLap: int, ghost me: nat)
      requires Valid() && !pool.stop && |pool.workers| >= 1 && me !in enforcer.events.trace.pushing
      requires board.writer == None || board.writer == Some(thread)
      requires OnTime() && Idle(TrackLimits) && Idle(Weather)
      modifies this, board, pool, enforcer`trace, enforcer.events
      modifies enforcer.warnings, enforcer.penalties, enforcer.extraPitTime
      ensures Valid() && !pool.stop && |pool.workers| == old(|pool.workers|)
      ensures enforcer.events.trace.pushing == old(enforcer.events.trace.pushing)
      ensures board.writer == Some(thread) && tickCounter == old(tickCounter) + 1 && lap == raceLap
      ensures OnTime() && Idle(TrackLimits) && Idle(Weather)
    {
      ghost var before, n := jobs, tickCounter;
      var _, _, _ := OnTick(thread, states, raceLap, me);
      CountsAfterTick(before, jobs, n);
      SettleJobs();
    }

    /** Many ticks, each of which finds the earlier jobs completed. */
    method ManyTicks(thread: nat, standings: seq<seq<DriverState>>, laps: seq<int>, ghost me: nat)
      requires Valid() && !pool.stop && |pool.workers| >= 1 && me !in enforcer.events.trace.pushing
      requires board.writer == None || board.writer == Some(thread)
      requires tickCounter == 0 && jobs == [] && Idle(TrackLimits) && Idle(Weather)
      requires |laps| == |standings|
      modifies this, board, pool, enforcer`trace, enforcer.events
      modifies enforcer.warnings, enforcer.penalties, enforcer.extraPitTime
      ensures Valid() && tickCounter == |standings|
      ensures Count(jobs, TrackLimits) == |standings| / 9 && Count(jobs, Weather) == |standings|
    {
      for i := 0 to |standings|
        invariant Valid() && !pool.stop && |pool.workers| >= 1 && me !in enforcer.events.trace.pushing
        invariant board.writer == None || board.writer == Some(thread)
        invariant tickCounter == i && OnTime() && Idle(TrackLimits) && Idle(Weather)
      {
        TickAndSettle(thread, standings[i], laps[i], me);
      }
    }
  }
}
