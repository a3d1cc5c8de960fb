/** What holds in every state a race can reach: each car's lap and best lap are what its
    offered frames say, and the race lap is the greatest lap of all. */
module RaceBooks {
  import opened RaceTypes
  import opened Simulation
  import opened Records
  import opened Ranking

  /** The frames that mark a completed lap of the driver. */
  function LapCount(offered: seq<Frame>, id: string): nat {
    if offered == [] then 0
    else
      var f := offered[|offered| - 1];
      LapCount(offered[..|offered| - 1], id) + if f.driverId == id && f.lapTimeMs > 0.0 then 1 else 0
  }

  /** What a car shows is what its offered frames say. */
  ghost predicate CarBooks(s: DriverState, offered: seq<Frame>) {
    && s.frame.driverId == s.profile.id
    && s.frame.lap == 1 + LapCount(offered, s.profile.id)
    && s.bestLapMs == BestOf(offered, s.profile.id)
  }

  ghost predicate DistinctIds(states: seq<DriverState>) {
    forall i, j :: 0 <= i < j < |states| ==> states[i].profile.id != states[j].profile.id
  }

  /** `lap` is the greatest lap any car is on. */
  ghost predicate IsRaceLap(states: seq<DriverState>, lap: int) {
    && (forall i :: 0 <= i < |states| ==> states[i].frame.lap <= lap)
    && exists i :: 0 <= i < |states| && states[i].frame.lap == lap
  }

  function Ids(states: seq<DriverState>): (ids: seq<string>)
    ensures |ids| == |states|
  {
    seq(|states|, i requires 0 <= i < |states| => states[i].profile.id)
  }

  /** Every offered frame is of one of the cars. */
  ghost predicate FramesAreOf(ids: seq<string>, offered: seq<Frame>) {
    forall f :: f in offered ==> f.driverId in ids
  }

  ghost predicate Books(states: seq<DriverState>, offered: seq<Frame>, raceLap: int) {
    && DistinctIds(states) && IsRaceLap(states, raceLap) && FramesAreOf(Ids(states), offered)
    && forall i :: 0 <= i < |states| ==> CarBooks(states[i], offered)
  }

  lemma OwnFrameKeepsBooks(track: Track, s: DriverState, offered: seq<Frame>, draw: real, now: real)
    requires track.lengthKm > 0.0 && CarBooks(s, offered) && now > s.lapStart
    ensures var t := StepCar(track, s, draw, now); CarBooks(t, offered + [t.frame])
  {
  }

  lemma OtherFrameKeepsBooks(s: DriverState, offered: seq<Frame>, f: Frame)
    requires CarBooks(s, offered) && f.driverId != s.profile.id
    ensures CarBooks(s, offered + [f])
  {
  }

  lemma UpdateKeepsRaceLap(states: seq<DriverState>, raceLap: int, i: nat, t: DriverState)
    requires i < |states| && IsRaceLap(states, raceLap) && t.frame.lap >= states[i].frame.lap
    ensures IsRaceLap(states[i := t], if t.frame.lap > raceLap then t.frame.lap else raceLap)
  {
    var next := states[i := t];
    var m :| 0 <= m < |states| && states[m].frame.lap == raceLap;
    assert next[i].frame.lap == t.frame.lap;
    assert m != i ==> next[m].frame.lap == raceLap;
  }

  lemma StepKeepsBooks(track: Track, states: seq<DriverState>, offered: seq<Frame>, raceLap: int, i: nat,
                       draw: real, now: real)
    requires track.lengthKm > 0.0 && i < |states| && Books(states, offered, raceLap)
    requires now > states[i].lapStart
    ensures var t := StepCar(track, states[i], draw, now);
            Books(states[i := t], offered + [t.frame], if t.frame.lap > raceLap then t.frame.lap else raceLap)
  {
    var t := StepCar(track, states[i], draw, now);
    StepConserves(track, states[i], draw, now);
    UpdateKeepsRaceLap(states, raceLap, i, t);
    assert CarBooks(states[i], offered);
    var next := states[i := t];
    assert Ids(next) == Ids(states) && t.frame.driverId == Ids(states)[i];
    forall j | 0 <= j < |next| ensures CarBooks(next[j], offered + [t.frame]) {
      if j == i {
        OwnFrameKeepsBooks(track, states[i], offered, draw, now);
      } else {
        OtherFrameKeepsBooks(states[j], offered, t.frame);
      }
    }
  }

  lemma RankingKeepsBooks(before: seq<DriverState>, after: seq<DriverState>, length: real, order: seq<nat>,
                          offered: seq<Frame>, raceLap: int)
    requires Ranked(before, after, length, order) && Books(before, offered, raceLap)
    ensures Books(after, offered, raceLap)
  {
    forall i | 0 <= i < |before|
      ensures after[i].profile == before[i].profile && after[i].bestLapMs == before[i].bestLapMs
      ensures after[i].frame.lap == before[i].frame.lap && after[i].frame.driverId == before[i].frame.driverId
    {
      var p := PlaceOf(Distances(before, length), order, i);
      assert after[order[p]] == Placed(before, order, length, p);
    }
    assert Ids(after) == Ids(before);
    forall i | 0 <= i < |after| ensures CarBooks(after[i], offered) { assert CarBooks(before[i], offered); }
    var m :| 0 <= m < |before| && before[m].frame.lap == raceLap;
    assert after[m].frame.lap == raceLap;
  }

  // ------------------------------------------------------------------ every race

  datatype Race = Race(states: seq<DriverState>, raceLap: int, offered: seq<Frame>)

  /** A race goes on by moving one car, whatever its draw, or by ranking the cars. */
  datatype Act =
    | MoveCar(i: nat, draw: real, now: real)
    | Rank(after: seq<DriverState>, order: seq<nat>)

  /** The clock has moved since the car's lap was started. */
  ghost predicate Possible(track: Track, r: Race, act: Act) {
    match act
    case MoveCar(i, _, now) => track.lengthKm > 0.0 && i < |r.states| && now > r.states[i].lapStart
    case Rank(after, order) => Ranked(r.states, after, track.lengthKm, order)
  }

  ghost function After(track: Track, r: Race, act: Act): Race
    requires Possible(track, r, act)
  {
    match act
    case MoveCar(i, draw, now) =>
      var t := StepCar(track, r.states[i], draw, now);
      Race(r.states[i := t], if t.frame.lap > r.raceLap then t.frame.lap else r.raceLap, r.offered + [t.frame])
    case Rank(after, _) => r.(states := after)
  }

  ghost predicate AtStart(r: Race) {
    && r.states != [] && DistinctIds(r.states) && r.raceLap == 1 && r.offered == []
    && forall i :: 0 <= i < |r.states| ==>
         r.states[i].frame.lap == 1 && r.states[i].bestLapMs == 0.0
         && r.states[i].frame.driverId == r.states[i].profile.id
  }

  ghost predicate Leads(track: Track, r: Race, t: Race) {
    exists act :: Possible(track, r, act) && After(track, r, act) == t
  }

  /** A race as the sequence of its states. */
  ghost predicate IsRace(track: Track, races: seq<Race>)
    decreases |races|
  {
    && races != []
    && if |races| == 1 then AtStart(races[0])
       else IsRace(track, races[..|races| - 1]) && Leads(track, races[|races| - 2], races[|races| - 1])
  }

  ghost predicate Reached(track: Track, r: Race) {
    exists races :: IsRace(track, races) && races[|races| - 1] == r
  }

  lemma ReachedStart(track: Track, r: Race)
    requires AtStart(r)
    ensures Reached(track, r)
  {
    assert IsRace(track, [r]);
  }

  lemma ReachedAfter(track: Track, r: Race, act: Act)
    requires Reached(track, r) && Possible(track, r, act)
    ensures Reached(track, After(track, r, act))
  {
    var races :| IsRace(track, races) && races[|races| - 1] == r;
    var more := races + [After(track, r, act)];
    assert more[..|more| - 1] == races;
    assert IsRace(track, more);
  }

  lemma LeadsKeepsBooks(track: Track, r: Race, t: Race)
    requires r.states != [] && Books(r.states, r.offered, r.raceLap) && Leads(track, r, t)
    ensures t.states != [] && Books(t.states, t.offered, t.raceLap)
  {
    var act :| Possible(track, r, act) && After(track, r, act) == t;
    match act
    case MoveCar(i, draw, now) => StepKeepsBooks(track, r.states, r.offered, r.raceLap, i, draw, now);
    case Rank(after, order) => RankingKeepsBooks(r.states, after, track.lengthKm, order, r.offered, r.raceLap);
  }

  lemma {:induction false} RaceKeepsBooks(track: Track, races: seq<Race>)
    requires IsRace(track, races)
    ensures var r := races[|races| - 1]; r.states != [] && Books(r.states, r.offered, r.raceLap)
    decreases |races|
  {
    if |races| == 1 {
      assert races[0].states[0].frame.lap == 1;
    } else {
      RaceKeepsBooks(track, races[..|races| - 1]);
      LeadsKeepsBooks(track, races[|races| - 2], races[|races| - 1]);
    }
  }

  /** In every state of every race: ids stay distinct, the race lap is the greatest lap of all
      cars, every offered frame is of some car, and each car's lap and best lap are those of its offered frames. */
  lemma EveryRaceKeepsBooks(track: Track, r: Race)
    requires Reached(track, r)
    ensures r.states != [] && Books(r.states, r.offered, r.raceLap)
  {
    var races :| IsRace(track, races) && races[|races| - 1] == r;
    RaceKeepsBooks(track, races);
  }
}
