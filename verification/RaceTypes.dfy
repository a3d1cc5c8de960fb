/** The records the simulation, the ranking and the leaderboard share. Floats are reals. */
module RaceTypes {
  datatype Profile = Profile(
    id: string, aggression: real, consistency: real, tireMgmt: real,
    enginePower: real)            // of the driver's car

  datatype Frame = Frame(
    driverId: string, lap: int, sector: int,
    speedKph: real, throttle: real, brake: real, tireWear: real, fuelKg: real,
    drsActive: bool, inPit: bool, gapToLeader: real,
    lapTimeMs: real)              // positive only on the tick that completes a lap

  datatype DriverState = DriverState(
    profile: Profile, frame: Frame,
    position: int, pitStops: int, bestLapMs: real,
    distanceInLap: real, inPit: bool, pitTimerTicks: int, hasCompletedPit: bool,
    lapStart: real)

  /** A default-constructed state. */
  const NO_DRIVER := DriverState(
    Profile("", 0.0, 0.0, 0.0, 0.0),
    Frame("", 0, 1, 0.0, 0.0, 0.0, 0.0, 100.0, false, false, 0.0, 0.0),
    0, 0, 0.0, 0.0, false, 0, false, 0.0)

  function MinReal(a: real, b: real): real { if b < a then b else a }

  function MaxReal(a: real, b: real): real { if a < b then b else a }

  /** Distance raced: completed laps, counted from 1, and the part of the current one. */
  function Total(s: DriverState, length: real): real {
    s.frame.lap as real * length + s.distanceInLap
  }
}
