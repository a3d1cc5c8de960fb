/** The whole race, from the cars to the two records of the fastest lap: the race state's, which
    went through the telemetry ring and the consumer thread, and the leaderboard's, a scan over
    the published standings. */
module RaceResult {
  import opened RaceTypes
  import opened Simulation
  import opened Records
  import opened Ranking
  import opened RaceBooks
  import opened Roster
  import BitMask
  import LapPipeline
  import Leaderboard
  import PipelineRuns
  import TelemetryGenerator

  /** The consumer thread has exited in a run in which the ring took its frames from those the
      cars of the race offered. */
  ghost predicate Finished(track: Track, race: Race, capacity: nat, initial: real, steps: seq<LapPipeline.Step>) {
    && Reached(track, race) && BitMask.PowerOfTwo(capacity) && capacity >= 2
    && (forall f :: f in race.offered && f.lapTimeMs > 0.0 ==> f.lapTimeMs < initial)
    && var run := LapPipeline.Exec(Ids(race.states), LapPipeline.Init(capacity, initial), steps);
       run.Running? && run.state.mode.Exited? && TelemetryGenerator.TakenFrom(run.state.ring.sent, race.offered)
  }

  /** What the race state shows, and the frames the ring took. */
  ghost function Final(race: Race, capacity: nat, initial: real, steps: seq<LapPipeline.Step>): LapPipeline.State
    requires LapPipeline.Exec(Ids(race.states), LapPipeline.Init(capacity, initial), steps).Running?
  {
    LapPipeline.Exec(Ids(race.states), LapPipeline.Init(capacity, initial), steps).state
  }

  lemma FinalSetting(track: Track, race: Race, capacity: nat, initial: real, steps: seq<LapPipeline.Step>)
    requires Finished(track, race, capacity, initial, steps)
    ensures Books(race.states, race.offered, race.raceLap)
    ensures var s := Final(race, capacity, initial, steps);
            && Setting(Ids(race.states), initial, race.offered, s.ring.sent)
            && LapPipeline.IsRecordOf(Ids(race.states), initial, s.ring.sent, s.record)
  {
    EveryRaceKeepsBooks(track, race);
    LapPipeline.ExitedMeansRecordOfAll(Ids(race.states), capacity, initial, steps);
    var s := Final(race, capacity, initial, steps);
    forall f | f in s.ring.sent ensures f in race.offered {
      TelemetryGenerator.TakenIsOffered(s.ring.sent, race.offered, f);
    }
  }

  /** Whatever frames the ring dropped: if laps last at least a millisecond, the driver the race
      state names has a best lap on the standings that is at most the race state's time. */
  lemma RaceStateNeverBelowStandings(track: Track, race: Race, capacity: nat, initial: real,
                                     steps: seq<LapPipeline.Step>)
    requires Finished(track, race, capacity, initial, steps)
    requires Final(race, capacity, initial, steps).record.holder >= 0
    requires forall f :: f in race.offered && f.lapTimeMs > 0.0 ==> f.lapTimeMs >= 1.0
    ensures var r := Final(race, capacity, initial, steps).record;
            r.holder < |race.states| && 0.0 < race.states[r.holder].bestLapMs <= r.best
  {
    FinalSetting(track, race, capacity, initial, steps);
    var s := Final(race, capacity, initial, steps);
    RaceNotBelowBoard(Ids(race.states), initial, race.offered, s.ring.sent, s.record);
    assert CarBooks(race.states[s.record.holder], race.offered);
  }

  /** If the ring dropped no lap: no best lap on the standings is below the race state's time, and
      one equals it exactly when the time is at least a millisecond or is some driver's latest
      lap; from a millisecond on it is the best lap of the driver the race state names. */
  lemma RecordsAgreeAfterTheRace(track: Track, race: Race, capacity: nat, initial: real, steps: seq<LapPipeline.Step>)
    requires Finished(track, race, capacity, initial, steps)
    requires Final(race, capacity, initial, steps).record.holder >= 0
    requires NoLapDropped(race.offered, Final(race, capacity, initial, steps).ring.sent)
    ensures var r := Final(race, capacity, initial, steps).record;
            && r.holder < |race.states|
            && (forall i :: 0 <= i < |race.states| && race.states[i].bestLapMs > 0.0 ==>
                  r.best <= race.states[i].bestLapMs)
            && ((exists i :: 0 <= i < |race.states| && race.states[i].bestLapMs == r.best) <==>
                  r.best >= 1.0
                  || exists i :: 0 <= i < |race.states| && LatestOf(race.offered, race.states[i].profile.id) == r.best)
            && (r.best >= 1.0 ==> race.states[r.holder].bestLapMs == r.best)
  {
    FinalSetting(track, race, capacity, initial, steps);
    var ids := Ids(race.states);
    var s := Final(race, capacity, initial, steps);
    RecordsAgreeIff(ids, initial, race.offered, s.ring.sent, s.record);
    forall i | 0 <= i < |race.states|
      ensures ids[i] in ids && race.states[i].bestLapMs == BestOf(race.offered, ids[i])
    {
      assert CarBooks(race.states[i], race.offered);
    }
    assert race.states[s.record.holder].bestLapMs == BestOf(race.offered, ids[s.record.holder]);
  }

  lemma RecordIsBelowInitial(roster: seq<string>, initial: real, frames: seq<Frame>, r: LapPipeline.Record)
    requires LapPipeline.IsRecordOf(roster, initial, frames, r) && r.holder >= 0
    ensures r.best < initial
  {
  }

  lemma IdIsUnique(states: seq<DriverState>, i: nat)
    requires DistinctIds(states) && i < |states|
    ensures IndexOf(Ids(states), states[i].profile.id) == i
  {
    assert Ids(states)[i] == states[i].profile.id;
    var j := IndexOf(Ids(states), states[i].profile.id);
    assert Ids(states)[j] == states[j].profile.id;
  }

  /** The leaderboard's own scan of the published standings, from the same initial time, then
      names a driver whose best lap is the race state's time. */
  lemma LeaderboardFindsTheRecord(track: Track, race: Race, capacity: nat, initial: real,
                                  steps: seq<LapPipeline.Step>, standings: seq<DriverState>, perm: seq<nat>,
                                  holder: string)
    requires Finished(track, race, capacity, initial, steps)
    requires Final(race, capacity, initial, steps).record.holder >= 0
    requires Final(race, capacity, initial, steps).record.best >= 1.0
    requires NoLapDropped(race.offered, Final(race, capacity, initial, steps).ring.sent)
    requires SortedByPosition(race.states, standings, perm) && Leaderboard.IsScan(standings, initial, holder)
    ensures var i := IndexOf(Ids(race.states), holder);
            i >= 0 && race.states[i].bestLapMs == Final(race, capacity, initial, steps).record.best
  {
    RecordsAgreeAfterTheRace(track, race, capacity, initial, steps);
    FinalSetting(track, race, capacity, initial, steps);
    var r := Final(race, capacity, initial, steps).record;
    var j := PlaceIn(perm, |race.states|, r.holder);
    assert standings[j] == race.states[r.holder];
    RecordIsBelowInitial(Ids(race.states), initial, Final(race, capacity, initial, steps).ring.sent, r);
    var k: nat :| Leaderboard.FirstBest(standings, initial, k) && holder == standings[k].profile.id;
    assert standings[k] == race.states[perm[k]] && Ids(race.states)[perm[k]] == holder;
    IdIsUnique(race.states, perm[k]);
  }

  // ------------------------------------------------------------------ such races exist

  lemma {:induction false} AllTaken(frames: seq<Frame>)
    ensures TelemetryGenerator.TakenFrom(frames, frames)
  {
    if frames != [] {
      AllTaken(frames[..|frames| - 1]);
    }
  }

  /** Every race can finish without a dropped frame. */
  lemma NothingNeedBeDropped(track: Track, race: Race, capacity: nat, initial: real)
    returns (steps: seq<LapPipeline.Step>)
    requires Reached(track, race) && BitMask.PowerOfTwo(capacity) && capacity >= 2
    requires forall f :: f in race.offered && f.lapTimeMs > 0.0 ==> f.lapTimeMs < initial
    ensures Finished(track, race, capacity, initial, steps)
    ensures Final(race, capacity, initial, steps).ring.sent == race.offered
    ensures LapPipeline.IsRecordOf(Ids(race.states), initial, race.offered,
                                   Final(race, capacity, initial, steps).record)
  {
    steps := PipelineRuns.EveryFrameCanArrive(Ids(race.states), capacity, initial, race.offered);
    AllTaken(race.offered);
    FinalSetting(track, race, capacity, initial, steps);
  }

  /** On 50 m every driving tick completes a lap. */
  lemma LapEachTick(track: Track, s: DriverState, draw: real, now: real)
    requires track.lengthKm == 0.05 && !s.inPit && s.distanceInLap >= 0.0 && s.frame.lap < 4
    ensures var t := StepCar(track, s, draw, now);
            && t.frame.lapTimeMs == now - s.lapStart && t.lapStart == now && t.frame.lap == s.frame.lap + 1
            && !t.inPit && t.distanceInLap >= 0.0 && t.bestLapMs == NextBest(s.bestLapMs, now - s.lapStart)
            && t.profile == s.profile && t.frame.driverId == s.frame.driverId
  {
    assert TickKm(MIN_SPEED) == 4.0 / 75.0;
    assert TickKm(Speed(s, draw)) >= 4.0 / 75.0;
  }

  ghost predicate HalfAndFive(frames: seq<Frame>) {
    && |frames| == 2 && frames[0].driverId == frames[1].driverId == "VER"
    && frames[0].lapTimeMs == 0.5 && frames[1].lapTimeMs == 5.0
  }

  /** A race of one car and two laps, of half a millisecond and of five. */
  lemma TwoLaps() returns (track: Track, race: Race)
    ensures Reached(track, race) && Ids(race.states) == ["VER"] && race.states[0].bestLapMs == 5.0
    ensures |race.states| == 1 && HalfAndFive(race.offered)
  {
    track := Track(0.05, 1.0, 1.0);
    var car := NO_DRIVER.(profile := NO_DRIVER.profile.(id := "VER"),
                          frame := NO_DRIVER.frame.(driverId := "VER", lap := 1));
    var r0 := Race([car], 1, []);
    ReachedStart(track, r0);
    ReachedAfter(track, r0, MoveCar(0, 0.0, 0.5));
    LapEachTick(track, car, 0.0, 0.5);
    var r1 := After(track, r0, MoveCar(0, 0.0, 0.5));
    ReachedAfter(track, r1, MoveCar(0, 0.0, 5.5));
    LapEachTick(track, r1.states[0], 0.0, 5.5);
    race := After(track, r1, MoveCar(0, 0.0, 5.5));
  }

  lemma HalfIsTheRecord(roster: seq<string>, initial: real, frames: seq<Frame>, r: LapPipeline.Record)
    requires roster == ["VER"] && HalfAndFive(frames) && initial > 5.0
    requires LapPipeline.IsRecordOf(roster, initial, frames, r)
    ensures r == LapPipeline.Record(0.5, 0)
  {
    assert LapPipeline.Counts(roster, initial, frames[0]);
  }

  lemma BelowFive(frames: seq<Frame>, initial: real)
    requires HalfAndFive(frames) && initial > 5.0
    ensures forall f :: f in frames && f.lapTimeMs > 0.0 ==> f.lapTimeMs < initial
  {
  }

  /** Below a millisecond the two records can part, for every ring and initial time: after this
      race the standings show five milliseconds and the race state a half, although no frame
      was dropped. */
  lemma ShortLapIsForgotten(capacity: nat, initial: real)
    returns (track: Track, race: Race, steps: seq<LapPipeline.Step>)
    requires BitMask.PowerOfTwo(capacity) && capacity >= 2 && initial > 5.0
    ensures Finished(track, race, capacity, initial, steps)
    ensures Final(race, capacity, initial, steps).ring.sent == race.offered
    ensures |race.states| == 1 && race.states[0].bestLapMs == 5.0
    ensures Final(race, capacity, initial, steps).record == LapPipeline.Record(0.5, 0)
  {
    track, race := TwoLaps();
    BelowFive(race.offered, initial);
    steps := NothingNeedBeDropped(track, race, capacity, initial);
    HalfIsTheRecord(Ids(race.states), initial, race.offered, Final(race, capacity, initial, steps).record);
  }
}
