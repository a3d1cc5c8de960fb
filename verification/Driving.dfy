/** What the formulas of a car's tick mean: how fuel, wear, DRS and the draw move the speed, how
    fuel and tyres go down with the distance, how laps are timed, and when and how long a car pits. */
module Driving {
  import opened RaceTypes
  import opened Simulation

  // ------------------------------------------------------------------ speed

  ghost predicate Inside(v: real) { 80.0 < v < 370.0 }

  function WithFuel(s: DriverState, fuel: real): DriverState { s.(frame := s.frame.(fuelKg := fuel)) }

  function WithWear(s: DriverState, wear: real): DriverState { s.(frame := s.frame.(tireWear := wear)) }

  function WithDrs(s: DriverState, drs: bool): DriverState { s.(frame := s.frame.(drsActive := drs)) }

  /** Without a draw or DRS, an empty car on new tyres runs 280 to 370 km/h, by its engine. */
  lemma TopSpeed(s: DriverState)
    requires s.frame.fuelKg == 0.0 && s.frame.tireWear == 0.0 && !s.frame.drsActive
    requires 0.0 <= s.profile.enginePower <= 1.0
    ensures Speed(s, 0.0) == 280.0 + 90.0 * s.profile.enginePower
  {
  }

  lemma FuelFactor(power: real, fuel: real, wear: real)
    ensures Pace(power, fuel, wear) == Pace(power, 0.0, wear) * (1.0 - 0.0008 * fuel)
  {
    var top, load, tires := 280.0 + power * 90.0, 1.0 - fuel / 100.0 * 0.08, 1.0 - wear * 0.25;
    assert load == 1.0 - 0.0008 * fuel;
    assert top * load * tires == top * tires * load;
  }

  lemma WearFactor(power: real, fuel: real, wear: real)
    ensures Pace(power, fuel, wear) == Pace(power, fuel, 0.0) * (1.0 - 0.25 * wear)
  {
  }

  /** Inside the limits the speed is what engine, fuel and tyres allow. */
  lemma SpeedIsPace(s: DriverState)
    requires !s.frame.drsActive && Inside(Speed(s, 0.0))
    ensures Speed(s, 0.0) == Pace(s.profile.enginePower, s.frame.fuelKg, s.frame.tireWear)
  {
  }

  /** Each kilogram of fuel costs 0.08 % of the speed of the empty car. */
  lemma FuelCosts(s: DriverState, fuel: real)
    requires !s.frame.drsActive
    requires Inside(Speed(WithFuel(s, 0.0), 0.0)) && Inside(Speed(WithFuel(s, fuel), 0.0))
    ensures Speed(WithFuel(s, fuel), 0.0) == Speed(WithFuel(s, 0.0), 0.0) * (1.0 - 0.0008 * fuel)
  {
    SpeedIsPace(WithFuel(s, fuel));
    SpeedIsPace(WithFuel(s, 0.0));
    FuelFactor(s.profile.enginePower, fuel, s.frame.tireWear);
  }

  /** Tyres worn out cost a quarter of the speed on new ones, and any wear its share of that. */
  lemma WearCosts(s: DriverState, wear: real)
    requires !s.frame.drsActive
    requires Inside(Speed(WithWear(s, 0.0), 0.0)) && Inside(Speed(WithWear(s, wear), 0.0))
    ensures Speed(WithWear(s, wear), 0.0) == Speed(WithWear(s, 0.0), 0.0) * (1.0 - 0.25 * wear)
  {
    SpeedIsPace(WithWear(s, wear));
    SpeedIsPace(WithWear(s, 0.0));
    WearFactor(s.profile.enginePower, s.frame.fuelKg, wear);
  }

  /** DRS adds 12 km/h, up to the limit. */
  lemma DrsAdds(s: DriverState, draw: real)
    requires Speed(WithDrs(s, false), draw) > 80.0
    ensures var v := Speed(WithDrs(s, false), draw);
            Speed(WithDrs(s, true), draw) == if v + 12.0 <= 370.0 then v + 12.0 else 370.0
  {
  }

  /** The draw moves the speed by 8 km/h for each unit and each share the driver lacks in consistency. */
  lemma DrawMoves(s: DriverState, a: real, b: real)
    requires Inside(Speed(s, a)) && Inside(Speed(s, b))
    ensures Speed(s, b) - Speed(s, a) == 8.0 * (1.0 - s.profile.consistency) * (b - a)
  {
    var c := 1.0 - s.profile.consistency;
    assert b * c * 8.0 - a * c * 8.0 == 8.0 * c * (b - a);
  }

  // ------------------------------------------------------------------ the dashboard

  /** In 2.4 s a car at `v` km/h drives v / 1500 km. */
  lemma DistanceOfATick(v: real)
    ensures 1500.0 * TickKm(v) == v
  {
  }

  lemma FloorIs(q: real)
    requires q >= 0.0
    ensures q.Floor >= 0 && (q.Floor == 0 <==> q < 1.0) && (q.Floor <= 1 <==> q < 2.0)
  {
  }

  lemma Steeper(a: real, b: real, c: real)
    requires a < b && c > 0.0
    ensures a * c < b * c
  {
  }

  lemma Flatter(a: real, b: real, c: real)
    requires a <= b && c > 0.0
    ensures a * c <= b * c
  {
  }

  lemma Compare(d: real, third: real, n: real)
    requires third > 0.0
    ensures d / third < n <==> d < n * third
  {
    var q := d / third;
    assert q * third == d;
    if q < n { Steeper(q, n, third); } else { Flatter(n, q, third); }
  }

  lemma ThirdsOf(d: real, third: real)
    requires d >= 0.0 && third > 0.0
    ensures (d / third).Floor >= 0
    ensures (d / third).Floor == 0 <==> d < third
    ensures (d / third).Floor <= 1 <==> d < 2.0 * third
  {
    Compare(d, third, 0.0);
    Compare(d, third, 1.0);
    Compare(d, third, 2.0);
    FloorIs(d / third);
  }

  /** A driving car shows which third of the track it is in. */
  lemma SectorMeans(track: Track, s: DriverState, draw: real)
    requires track.lengthKm > 0.0 && s.distanceInLap >= 0.0
    ensures var t := Move(track, s, draw);
            && t.distanceInLap == s.distanceInLap + TickKm(Speed(s, draw))
            && (t.frame.sector == 1 <==> t.distanceInLap < track.lengthKm / 3.0)
            && (t.frame.sector == 2 <==>
                  track.lengthKm / 3.0 <= t.distanceInLap < 2.0 * (track.lengthKm / 3.0))
            && (t.frame.sector == 3 <==> 2.0 * (track.lengthKm / 3.0) <= t.distanceInLap)
  {
    ThirdsOf(s.distanceInLap + TickKm(Speed(s, draw)), track.lengthKm / 3.0);
  }

  /** Throttle grows with the speed up to full at 310 km/h; the brake is used below 150 km/h only. */
  lemma PedalsMean(track: Track, s: DriverState, draw: real)
    requires track.lengthKm > 0.0
    ensures var f := Move(track, s, draw).frame;
            && f.speedKph == Speed(s, draw)
            && (f.speedKph >= 310.0 ==> f.throttle == 1.0)
            && (f.speedKph < 310.0 ==> 310.0 * f.throttle == f.speedKph)
            && (f.speedKph >= 150.0 ==> f.brake == 0.0)
            && (f.speedKph < 150.0 ==> 150.0 * f.brake == 150.0 - f.speedKph)
  {
  }

  // ------------------------------------------------------------------ fuel and tyres

  /** Wear per kilometre. */
  function WearPerKm(track: Track, s: DriverState): real {
    0.00130 * s.profile.aggression * track.tireDegFactor * (1500.0 / 280.0)
  }

  lemma WearOfDistance(x: real, v: real)
    ensures x * (v / 280.0) == x * (1500.0 / 280.0) * TickKm(v)
  {
    assert v == 1500.0 * TickKm(v);
    assert v / 280.0 == 1500.0 / 280.0 * TickKm(v);
  }

  /** A driving tick burns fuel and wears the tyres in proportion to the distance, down to an
      empty tank and up to tyres worn out. */
  lemma TickBurnsAndWears(track: Track, s: DriverState, draw: real, now: real)
    requires track.lengthKm > 0.0 && !s.inPit
    ensures var t := StepCar(track, s, draw, now);
            var fuel := s.frame.fuelKg - track.fuelConsumption * Driven(s, draw);
            var wear := s.frame.tireWear + WearPerKm(track, s) * Driven(s, draw);
            && t.frame.fuelKg == (if fuel < 0.0 then 0.0 else fuel)
            && t.frame.tireWear == (if wear > 1.0 then 1.0 else wear)
  {
    WearOfDistance(TIRE_WEAR_BASE * s.profile.aggression * track.tireDegFactor, Speed(s, draw));
  }

  // ------------------------------------------------------------------ lap times

  /** A completed lap is timed from the completion of the one before it; no other tick has a time. */
  lemma LapIsTimed(track: Track, s: DriverState, draw: real, now: real)
    requires track.lengthKm > 0.0
    ensures var t := StepCar(track, s, draw, now);
            if t.frame.lap == s.frame.lap then t.frame.lapTimeMs == 0.0 && t.lapStart == s.lapStart
            else t.frame.lap == s.frame.lap + 1 && t.frame.lapTimeMs == now - s.lapStart && t.lapStart == now
  {
  }

  /** The lap times a car's frames show in a run. */
  function LapTimes(track: Track, s: DriverState, inputs: seq<Input>): real
    requires track.lengthKm > 0.0
  {
    if inputs == [] then 0.0
    else
      var front, x := inputs[..|inputs| - 1], inputs[|inputs| - 1];
      LapTimes(track, s, front) + StepCar(track, CarAfter(track, s, front), x.draw, x.now).frame.lapTimeMs
  }

  /** Over any run the lap times add up to the time from the start to the last completed lap. */
  lemma {:induction false} LapTimesAddUp(track: Track, s: DriverState, inputs: seq<Input>)
    requires track.lengthKm > 0.0
    ensures LapTimes(track, s, inputs) == CarAfter(track, s, inputs).lapStart - s.lapStart
  {
    if inputs != [] {
      var front, x := inputs[..|inputs| - 1], inputs[|inputs| - 1];
      LapTimesAddUp(track, s, front);
      LapIsTimed(track, CarAfter(track, s, front), x.draw, x.now);
    }
  }

  // ------------------------------------------------------------------ pit stops

  /** A car pits exactly when it completes a lap with the fifth lap or a later one before it, has not
      stopped yet, and its tyres are worn beyond 0.60 and a quarter of its care for them. */
  lemma PitsIff(track: Track, s: DriverState, draw: real, now: real)
    requires track.lengthKm > 0.0 && !s.inPit
    ensures var t := StepCar(track, s, draw, now);
            && (t.inPit <==>
                  t.frame.lap > s.frame.lap && t.frame.lap >= 5 && !s.hasCompletedPit
                  && t.frame.tireWear >= 0.60 + 0.25 * s.profile.tireMgmt)
            && (t.inPit ==> t.pitTimerTicks == 11 && t.hasCompletedPit && t.frame.inPit)
            && (!t.inPit ==> t.hasCompletedPit == s.hasCompletedPit && t.pitTimerTicks == s.pitTimerTicks)
            && t.pitStops == s.pitStops
  {
  }

  /** A stop takes exactly 11 ticks, in which the car neither moves nor does anything else; at
      their end it leaves with tyres at 0.02, a full tank and one stop more. */
  lemma {:induction false} StopTakesElevenTicks(track: Track, s: DriverState, inputs: seq<Input>)
    requires track.lengthKm > 0.0 && s.inPit && s.pitTimerTicks == 11 && |inputs| <= 11
    ensures var t := CarAfter(track, s, inputs);
            && t.inPit == (|inputs| < 11)
            && t.pitTimerTicks == 11 - |inputs|
            && t.pitStops == s.pitStops + (if |inputs| == 11 then 1 else 0)
            && t.frame.tireWear == (if |inputs| == 11 then 0.02 else s.frame.tireWear)
            && t.frame.fuelKg == (if |inputs| == 11 then 100.0 else s.frame.fuelKg)
            && t.distanceInLap == s.distanceInLap && t.frame.lap == s.frame.lap
            && t.hasCompletedPit == s.hasCompletedPit && t.bestLapMs == s.bestLapMs && t.lapStart == s.lapStart
            && (inputs != [] ==>
                  && t.frame.inPit == t.inPit && t.frame.speedKph == 60.0
                  && t.frame.throttle == 0.2 && t.frame.brake == 0.1 && t.frame.lapTimeMs == 0.0)
  {
    if inputs != [] { StopTakesElevenTicks(track, s, inputs[..|inputs| - 1]); }
  }

  /** Over any run from the grid a car stops at most once, and has stopped exactly when it pitted
      and has left again. */
  lemma {:induction false} OneStop(track: Track, s: DriverState, inputs: seq<Input>)
    requires track.lengthKm > 0.0 && OnGrid(track, s) && s.pitStops == 0
    ensures var t := CarAfter(track, s, inputs);
            && (t.inPit ==> t.hasCompletedPit)
            && t.pitStops == if t.hasCompletedPit && !t.inPit then 1 else 0
  {
    if inputs != [] { OneStop(track, s, inputs[..|inputs| - 1]); }
  }
}
