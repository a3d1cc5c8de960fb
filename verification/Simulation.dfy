/** One tick of one car, and what any number of ticks do to it whatever the random draws. */
module Simulation {
  import opened RaceTypes

  datatype Track = Track(lengthKm: real, tireDegFactor: real, fuelConsumption: real)

  const DEFAULT_TRACK := Track(5.4, 1.0, 2.3)
  const SIM_S_PER_TICK := 2.4
  const TIRE_WEAR_BASE := 0.00130
  const PIT_STOP_TICKS := 11
  const TOTAL_LAPS := 50
  const MIN_SPEED := 80.0
  const MAX_SPEED := 370.0

  function Clamp(x: real, low: real, high: real): real {
    if x < low then low else if x > high then high else x
  }

  /** What engine, fuel load and tyres allow. */
  function Pace(enginePower: real, fuelKg: real, tireWear: real): real {
    (280.0 + enginePower * 90.0) * (1.0 - fuelKg / 100.0 * 0.08) * (1.0 - tireWear * 0.25)
  }

  function Speed(s: DriverState, draw: real): (v: real)
    ensures 80.0 <= v <= 370.0
  {
    Clamp(Pace(s.profile.enginePower, s.frame.fuelKg, s.frame.tireWear)
          + draw * (1.0 - s.profile.consistency) * 8.0
          + (if s.frame.drsActive then 12.0 else 0.0),
          MIN_SPEED, MAX_SPEED)
  }

  function TickKm(speed: real): real { speed / 3600.0 * SIM_S_PER_TICK }

  /** What a car in the pits does in a tick. */
  function PitStep(s: DriverState): DriverState {
    var out := s.pitTimerTicks - 1 <= 0;
    s.(pitTimerTicks := s.pitTimerTicks - 1,
       inPit := s.inPit && !out,
       pitStops := if out then s.pitStops + 1 else s.pitStops,
       frame := s.frame.(inPit := !out, speedKph := 60.0, throttle := 0.2, brake := 0.1, lapTimeMs := 0.0,
                         tireWear := if out then 0.02 else s.frame.tireWear,
                         fuelKg := if out then 100.0 else s.frame.fuelKg))
  }

  /** Speed, distance, wear and fuel of a driving car, before the lap is looked at. */
  function Move(track: Track, s: DriverState, draw: real): DriverState
    requires track.lengthKm > 0.0
  {
    var v := Speed(s, draw);
    var d := s.distanceInLap + TickKm(v);
    var sector := (d / (track.lengthKm / 3.0)).Floor + 1;
    s.(distanceInLap := d,
       frame := s.frame.(
         lapTimeMs := 0.0, speedKph := v,
         throttle := MinReal(1.0, v / 310.0),
         brake := if v < 150.0 then Clamp((150.0 - v) / 150.0, 0.0, 1.0) else 0.0,
         sector := if sector < 3 then sector else 3,
         tireWear := MinReal(1.0, s.frame.tireWear
                             + TIRE_WEAR_BASE * s.profile.aggression * track.tireDegFactor * (v / 280.0)),
         fuelKg := MaxReal(0.0, s.frame.fuelKg - track.fuelConsumption * TickKm(v))))
  }

  function ShouldPit(s: DriverState): bool {
    !s.hasCompletedPit && s.frame.lap >= 5 && s.frame.tireWear >= 0.60 + s.profile.tireMgmt * 0.25
  }

  /** The update of a driver's best lap: anything below a millisecond counts as unset. */
  function NextBest(best: real, lapMs: real): real {
    if best < 1.0 || lapMs < best then lapMs else best
  }

  /** What completing a lap does. */
  function CompleteLap(track: Track, s: DriverState, now: real): DriverState {
    var lapMs := now - s.lapStart;
    var t := s.(distanceInLap := s.distanceInLap - track.lengthKm,
                frame := s.frame.(lap := s.frame.lap + 1, lapTimeMs := lapMs),
                lapStart := now,
                bestLapMs := NextBest(s.bestLapMs, lapMs));
    if ShouldPit(t)
    then t.(inPit := true, pitTimerTicks := PIT_STOP_TICKS, hasCompletedPit := true,
            frame := t.frame.(inPit := true))
    else t
  }

  function Drive(track: Track, s: DriverState, draw: real, now: real): DriverState
    requires track.lengthKm > 0.0
  {
    var m := Move(track, s, draw);
    if m.distanceInLap >= track.lengthKm then CompleteLap(track, m, now) else m
  }

  /** One tick of one car, with the random draw and the clock reading of the tick. */
  function StepCar(track: Track, s: DriverState, draw: real, now: real): DriverState
    requires track.lengthKm > 0.0
  {
    if s.inPit then PitStep(s) else Drive(track, s, draw, now)
  }

  /** The distance a car drives in a tick. */
  function Driven(s: DriverState, draw: real): real {
    if s.inPit then 0.0 else TickKm(Speed(s, draw))
  }

  // ------------------------------------------------------------------ one tick

  /** A tick adds exactly the distance driven to the total distance and at most one lap,
      and a frame carries a lap time only if it completes a lap. */
  lemma StepConserves(track: Track, s: DriverState, draw: real, now: real)
    requires track.lengthKm > 0.0
    ensures var t := StepCar(track, s, draw, now);
            && Total(t, track.lengthKm) == Total(s, track.lengthKm) + Driven(s, draw)
            && s.frame.lap <= t.frame.lap <= s.frame.lap + 1
            && (now > s.lapStart ==> (t.frame.lapTimeMs > 0.0 <==> t.frame.lap == s.frame.lap + 1))
            && (t.frame.lap == s.frame.lap ==> t.bestLapMs == s.bestLapMs && t.frame.lapTimeMs == 0.0)
            && (t.frame.lap > s.frame.lap ==> t.bestLapMs == NextBest(s.bestLapMs, t.frame.lapTimeMs))
            && t.profile == s.profile && t.frame.driverId == s.frame.driverId
  {
  }

  lemma FlatOut(s: DriverState)
    requires s.profile == NO_DRIVER.profile && s.frame == NO_DRIVER.frame
    ensures Speed(s, 1000.0) == MAX_SPEED
  {
  }

  lemma StepStaysInLap(track: Track, s: DriverState, draw: real, now: real)
    requires track.lengthKm >= 37.0 / 150.0 && 0.0 <= s.distanceInLap < track.lengthKm
    ensures 0.0 <= StepCar(track, s, draw, now).distanceInLap < track.lengthKm
  {
  }

  /** A car that is inside its lap stays inside it for every draw exactly when the lap is
      at least as long as the furthest a tick can go, 37/150 km. */
  lemma StaysInLapIff(track: Track)
    requires track.lengthKm > 0.0
    ensures (forall s: DriverState, draw, now :: !s.inPit && 0.0 <= s.distanceInLap < track.lengthKm ==>
               0.0 <= StepCar(track, s, draw, now).distanceInLap < track.lengthKm)
            <==> track.lengthKm >= 37.0 / 150.0
  {
    assert TickKm(MAX_SPEED) == 37.0 / 150.0;
    var L := track.lengthKm;
    if L < TickKm(MAX_SPEED) {
      var near := L - (TickKm(MAX_SPEED) - L) / 2.0;
      var s := NO_DRIVER.(distanceInLap := MaxReal(0.0, near));
      FlatOut(s);
      assert Speed(s, 1000.0) == MAX_SPEED;
      var t := StepCar(track, s, 1000.0, 0.0);
      assert t.distanceInLap >= L;
    }
    forall s: DriverState, draw, now | L >= TickKm(MAX_SPEED) && !s.inPit && 0.0 <= s.distanceInLap < L
      ensures 0.0 <= StepCar(track, s, draw, now).distanceInLap < L
    {
      StepStaysInLap(track, s, draw, now);
    }
  }

  /** What is on the dashboard stays in its range. */
  ghost predicate InRange(s: DriverState) {
    && 0.0 <= s.frame.fuelKg <= 100.0 && 0.0 <= s.frame.tireWear <= 1.0
    && 0.0 <= s.frame.throttle <= 1.0 && 0.0 <= s.frame.brake <= 1.0 && 1 <= s.frame.sector <= 3
  }

  lemma ProductsNonNegative(a: real, b: real)
    requires a >= 0.0 && b >= 0.0
    ensures a * b >= 0.0
  {
  }

  lemma QuotientNonNegative(a: real, b: real)
    requires a >= 0.0 && b > 0.0
    ensures (a / b).Floor >= 0
  {
  }

  lemma StepStaysInRange(track: Track, s: DriverState, draw: real, now: real)
    requires track.lengthKm > 0.0 && track.tireDegFactor >= 0.0 && track.fuelConsumption >= 0.0
    requires InRange(s) && s.distanceInLap >= 0.0 && s.profile.aggression >= 0.0
    ensures InRange(StepCar(track, s, draw, now))
  {
    var v := Speed(s, draw);
    assert TIRE_WEAR_BASE * s.profile.aggression * track.tireDegFactor * (v / 280.0) >= 0.0 by {
      ProductsNonNegative(TIRE_WEAR_BASE * s.profile.aggression, track.tireDegFactor);
      ProductsNonNegative(TIRE_WEAR_BASE * s.profile.aggression * track.tireDegFactor, v / 280.0);
    }
    ProductsNonNegative(track.fuelConsumption, TickKm(v));
    var d := s.distanceInLap + TickKm(v);
    QuotientNonNegative(d, track.lengthKm / 3.0);
  }

  // ------------------------------------------------------------------ any number of ticks

  /** What one tick brings from outside: the draw, the clock, and what the ranking writes. */
  datatype Input = Input(draw: real, now: real, position: int, gap: real, drs: bool)

  function Reranked(s: DriverState, position: int, gap: real, drs: bool): DriverState {
    s.(position := position, frame := s.frame.(gapToLeader := gap, drsActive := drs))
  }

  /** A car after the ticks. */
  function CarAfter(track: Track, s: DriverState, inputs: seq<Input>): DriverState
    requires track.lengthKm > 0.0
  {
    if inputs == [] then s
    else
      var x := inputs[|inputs| - 1];
      Reranked(StepCar(track, CarAfter(track, s, inputs[..|inputs| - 1]), x.draw, x.now), x.position, x.gap, x.drs)
  }

  /** The distance driven in the ticks. */
  function TotalDriven(track: Track, s: DriverState, inputs: seq<Input>): real
    requires track.lengthKm > 0.0
  {
    if inputs == [] then 0.0
    else
      var front := inputs[..|inputs| - 1];
      TotalDriven(track, s, front) + Driven(CarAfter(track, s, front), inputs[|inputs| - 1].draw)
  }

  /** The ticks spent in the pits. */
  function PitTicks(track: Track, s: DriverState, inputs: seq<Input>): nat
    requires track.lengthKm > 0.0
  {
    if inputs == [] then 0
    else
      var front := inputs[..|inputs| - 1];
      PitTicks(track, s, front) + if CarAfter(track, s, front).inPit then 1 else 0
  }

  /** The frames offered to the telemetry ring that mark a completed lap. */
  function LapMarkers(track: Track, s: DriverState, inputs: seq<Input>): nat
    requires track.lengthKm > 0.0
  {
    if inputs == [] then 0
    else
      var front, x := inputs[..|inputs| - 1], inputs[|inputs| - 1];
      LapMarkers(track, s, front)
      + if StepCar(track, CarAfter(track, s, front), x.draw, x.now).frame.lapTimeMs > 0.0 then 1 else 0
  }

  /** How a car is put on the grid. */
  ghost predicate OnGrid(track: Track, s: DriverState) {
    && s.frame.lap == 1 && 0.0 <= s.distanceInLap < track.lengthKm
    && !s.inPit && !s.hasCompletedPit
  }

  lemma RankingKeepsTotal(s: DriverState, x: Input, length: real)
    ensures Total(Reranked(s, x.position, x.gap, x.drs), length) == Total(s, length)
  {
  }

  /** Over any run the total distance grows by exactly the distance driven. */
  lemma {:induction false} RunConserves(track: Track, s: DriverState, inputs: seq<Input>)
    requires track.lengthKm > 0.0
    ensures Total(CarAfter(track, s, inputs), track.lengthKm)
            == Total(s, track.lengthKm) + TotalDriven(track, s, inputs)
  {
    if inputs != [] {
      var front, x := inputs[..|inputs| - 1], inputs[|inputs| - 1];
      RunConserves(track, s, front);
      var m := CarAfter(track, s, front);
      StepConserves(track, m, x.draw, x.now);
      RankingKeepsTotal(StepCar(track, m, x.draw, x.now), x, track.lengthKm);
    }
  }

  /** Over any run a car stays inside its lap. */
  lemma {:induction false} RunStaysInLap(track: Track, s: DriverState, inputs: seq<Input>)
    requires track.lengthKm >= 37.0 / 150.0 && 0.0 <= s.distanceInLap < track.lengthKm
    ensures 0.0 <= CarAfter(track, s, inputs).distanceInLap < track.lengthKm
  {
    if inputs != [] {
      var front, x := inputs[..|inputs| - 1], inputs[|inputs| - 1];
      RunStaysInLap(track, s, front);
      StepStaysInLap(track, CarAfter(track, s, front), x.draw, x.now);
    }
  }

  /** The clock never repeats a reading and has moved since the lap was started. */
  ghost predicate Advancing(s: DriverState, inputs: seq<Input>) {
    && (forall k :: 0 <= k < |inputs| ==> inputs[k].now > s.lapStart)
    && (forall j, k :: 0 <= j < k < |inputs| ==> inputs[j].now < inputs[k].now)
  }

  lemma {:induction false} LapStartIsOld(track: Track, s: DriverState, inputs: seq<Input>)
    requires track.lengthKm > 0.0 && Advancing(s, inputs)
    ensures var start := CarAfter(track, s, inputs).lapStart;
            start == s.lapStart || exists k :: 0 <= k < |inputs| && inputs[k].now == start
  {
    if inputs != [] {
      var front, x := inputs[..|inputs| - 1], inputs[|inputs| - 1];
      assert forall k :: 0 <= k < |front| ==> front[k] == inputs[k];
      LapStartIsOld(track, s, front);
      assert inputs[|inputs| - 1].now == x.now;
    }
  }

  /** Each lap is marked by exactly one offered frame, also through a pit stop. */
  lemma {:induction false} LapsAreMarkedOnce(track: Track, s: DriverState, inputs: seq<Input>)
    requires track.lengthKm > 0.0 && Advancing(s, inputs)
    ensures CarAfter(track, s, inputs).frame.lap == s.frame.lap + LapMarkers(track, s, inputs)
  {
    if inputs != [] {
      var front, x := inputs[..|inputs| - 1], inputs[|inputs| - 1];
      assert forall k :: 0 <= k < |front| ==> front[k] == inputs[k];
      LapsAreMarkedOnce(track, s, front);
      LapStartIsOld(track, s, front);
      var m := CarAfter(track, s, front);
      StepConserves(track, m, x.draw, x.now);
    }
  }

  /** The pit ticks a car has used so far. */
  ghost function PitUsed(s: DriverState): int {
    if !s.hasCompletedPit then 0 else if s.inPit then PIT_STOP_TICKS - s.pitTimerTicks else PIT_STOP_TICKS
  }

  ghost predicate PitOk(s: DriverState) {
    s.inPit ==> s.hasCompletedPit && 1 <= s.pitTimerTicks <= PIT_STOP_TICKS
  }

  lemma {:induction false} PitTicksAre(track: Track, s: DriverState, inputs: seq<Input>)
    requires track.lengthKm > 0.0 && OnGrid(track, s)
    ensures PitOk(CarAfter(track, s, inputs))
    ensures PitTicks(track, s, inputs) == PitUsed(CarAfter(track, s, inputs)) <= 11
  {
    if inputs != [] {
      PitTicksAre(track, s, inputs[..|inputs| - 1]);
    }
  }

  /** Every tick outside the pits covers at least 4/75 km. */
  lemma {:induction false} DrivenAtLeast(track: Track, s: DriverState, inputs: seq<Input>)
    requires track.lengthKm > 0.0
    ensures TotalDriven(track, s, inputs) >= (|inputs| - PitTicks(track, s, inputs)) as real * (4.0 / 75.0)
  {
    if inputs != [] {
      var front, x := inputs[..|inputs| - 1], inputs[|inputs| - 1];
      DrivenAtLeast(track, s, front);
      var m := CarAfter(track, s, front);
      assert TickKm(MIN_SPEED) == 4.0 / 75.0;
      assert !m.inPit ==> Driven(m, x.draw) >= 4.0 / 75.0;
      var n := |front| - PitTicks(track, s, front);
      assert (n + 1) as real * (4.0 / 75.0) == n as real * (4.0 / 75.0) + 4.0 / 75.0;
    }
  }

  /** Whatever the draws, a car that started on the grid of the default track has completed 50
      laps after 5063 driving ticks and at most 11 in the pits. */
  lemma EveryCarFinishes(s: DriverState, inputs: seq<Input>)
    requires OnGrid(DEFAULT_TRACK, s) && |inputs| >= 5063 + 11
    ensures CarAfter(DEFAULT_TRACK, s, inputs).frame.lap > 50
  {
    var track := DEFAULT_TRACK;
    RunConserves(track, s, inputs);
    DrivenAtLeast(track, s, inputs);
    PitTicksAre(track, s, inputs);
    assert TickKm(MAX_SPEED) == 37.0 / 150.0;
    RunStaysInLap(track, s, inputs);
    var t := CarAfter(track, s, inputs);
    var n := |inputs| - PitTicks(track, s, inputs);
    assert n as real * (4.0 / 75.0) >= 5063.0 * (4.0 / 75.0);
    assert t.frame.lap as real * 5.4 > 5.4 + 5063.0 * (4.0 / 75.0) - 5.4;
  }
}
