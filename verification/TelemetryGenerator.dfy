/** The generator object: one tick moves every car, offers every frame to the telemetry
    ring and ranks the cars. */
module TelemetryGenerator {
  import opened Common
  import opened RaceTypes
  import opened Simulation
  import opened Ranking
  import opened RaceBooks
  import Ring = SpscProtocol
  import opened LapPipeline
  import SpscQueue

  // ------------------------------------------------------------------ one tick

  /** The frames the cars show, in the order of the cars. */
  function FramesOf(states: seq<DriverState>): (frames: seq<Frame>)
    ensures |frames| == |states|
  {
    seq(|states|, i requires 0 <= i < |states| => states[i].frame)
  }

  /** All cars after their part of a tick. */
  function Moved(track: Track, states: seq<DriverState>, draws: seq<real>, nows: seq<real>): (moved: seq<DriverState>)
    requires track.lengthKm > 0.0 && |draws| == |nows| == |states|
    ensures |moved| == |states|
  {
    seq(|states|, i requires 0 <= i < |states| => StepCar(track, states[i], draws[i], nows[i]))
  }

  /** The cars in the middle of a tick: the first `i` have moved. */
  function HalfMoved(was: seq<DriverState>, moved: seq<DriverState>, i: nat): (r: seq<DriverState>)
    requires i <= |was| == |moved|
    ensures |r| == |was|
  {
    moved[..i] + was[i..]
  }

  /** Car `i` completes the last lap this tick, from the first position. */
  ghost predicate Wins(before: seq<DriverState>, after: seq<DriverState>, i: nat)
    requires |before| == |after|
  {
    && i < |after| && after[i].frame.lap > before[i].frame.lap
    && after[i].frame.lap > 50 && before[i].position == 1
  }

  lemma MoveNext(was: seq<DriverState>, moved: seq<DriverState>, i: nat)
    requires i < |was| == |moved|
    ensures HalfMoved(was, moved, i)[i] == was[i]
    ensures HalfMoved(was, moved, i)[i := moved[i]] == HalfMoved(was, moved, i + 1)
    ensures Wins(HalfMoved(was, moved, i), HalfMoved(was, moved, i + 1), i) <==> Wins(was, moved, i)
  {
  }

  /** The state at place `p` of the order, with its new position and gap. */
  function Gapped(states: seq<DriverState>, order: seq<nat>, length: real, p: nat): DriverState
    requires p < |order| && forall q :: 0 <= q < |order| ==> order[q] < |states|
  {
    var s := states[order[p]];
    s.(position := p + 1, frame := s.frame.(gapToLeader := Gap(states[order[0]], s, length)))
  }

  /** Gaps look only at laps, distances and speeds. */
  lemma GapFromGapped(states: seq<DriverState>, order: seq<nat>, length: real, p: nat)
    requires p < |order| && forall q :: 0 <= q < |order| ==> order[q] < |states|
    ensures Gap(Gapped(states, order, length, 0), states[order[p]], length)
            == Gap(states[order[0]], states[order[p]], length)
    ensures Gap(states[order[0]], states[order[0]], length) == 0.0
  {
  }

  lemma NoneYet(was: seq<DriverState>, moved: seq<DriverState>)
    requires |was| == |moved|
    ensures HalfMoved(was, moved, 0) == was
  {
  }

  lemma AllMoved(was: seq<DriverState>, moved: seq<DriverState>)
    requires |was| == |moved|
    ensures HalfMoved(was, moved, |was|) == moved
  {
  }

  lemma NoneTaken(a: seq<Frame>, frames: seq<Frame>)
    ensures a + frames[..0] == a
  {
  }

  lemma OneMore(a: seq<Frame>, frames: seq<Frame>, i: nat)
    ensures i < |frames| ==> (a + frames[..i]) + [frames[i]] == a + frames[..i + 1]
  {
  }

  /** The ring took `accepted`, in order, from the frames offered. */
  ghost predicate TakenFrom(accepted: seq<Frame>, offered: seq<Frame>)
    decreases |offered|
  {
    if offered == [] then accepted == []
    else
      var front := offered[..|offered| - 1];
      || TakenFrom(accepted, front)
      || (accepted != [] && accepted[|accepted| - 1] == offered[|offered| - 1]
          && TakenFrom(accepted[..|accepted| - 1], front))
  }

  lemma OfferTo(accepted: seq<Frame>, offered: seq<Frame>, f: Frame)
    requires TakenFrom(accepted, offered)
    ensures TakenFrom(accepted, offered + [f]) && TakenFrom(accepted + [f], offered + [f])
  {
  }

  /** A frame the ring took was offered. */
  lemma {:induction false} TakenIsOffered(accepted: seq<Frame>, offered: seq<Frame>, f: Frame)
    requires TakenFrom(accepted, offered) && f in accepted
    ensures f in offered
    decreases |offered|
  {
    var front := offered[..|offered| - 1];
    assert offered == front + [offered[|offered| - 1]];
    assert accepted == accepted[..|accepted| - 1] + [accepted[|accepted| - 1]];
    if TakenFrom(accepted, front) {
      TakenIsOffered(accepted, front, f);
    } else if f in accepted[..|accepted| - 1] {
      TakenIsOffered(accepted[..|accepted| - 1], front, f);
    }
  }

  /** One of the first `n` cars wins this tick. */
  ghost predicate SomeWins(before: seq<DriverState>, after: seq<DriverState>, n: nat)
    requires n <= |before| == |after|
  {
    n > 0 && (SomeWins(before, after, n - 1) || Wins(before, after, n - 1))
  }

  lemma {:induction false} SomeWinsIff(before: seq<DriverState>, after: seq<DriverState>, n: nat)
    requires n <= |before| == |after|
    ensures SomeWins(before, after, n) <==>
              exists i :: 0 <= i < n && after[i].frame.lap > before[i].frame.lap
                          && after[i].frame.lap > 50 && before[i].position == 1
  {
    if n > 0 { SomeWinsIff(before, after, n - 1); }
  }

  // ------------------------------------------------------------------ any number of ticks

  /** After `done` ticks car `i` is what its own inputs make of it. */
  ghost predicate Traced(track: Track, start: seq<DriverState>, states: seq<DriverState>, inputs: seq<seq<Input>>,
                         done: nat)
    requires track.lengthKm > 0.0
  {
    && |inputs| == |start| == |states|
    && forall i :: 0 <= i < |start| ==> |inputs[i]| == done && states[i] == CarAfter(track, start[i], inputs[i])
  }

  /** The inputs with those of one more tick. */
  ghost function Extended(inputs: seq<seq<Input>>, draws: seq<real>, nows: seq<real>,
                          after: seq<DriverState>): (r: seq<seq<Input>>)
    requires |inputs| == |draws| == |nows| == |after|
    ensures |r| == |inputs|
  {
    seq(|inputs|, i requires 0 <= i < |inputs| =>
      inputs[i] + [Input(draws[i], nows[i], after[i].position, after[i].frame.gapToLeader, after[i].frame.drsActive)])
  }

  lemma TickTraces(track: Track, start: seq<DriverState>, was: seq<DriverState>, inputs: seq<seq<Input>>, done: nat,
                   draws: seq<real>, nows: seq<real>, after: seq<DriverState>, order: seq<nat>)
    requires track.lengthKm > 0.0 && Traced(track, start, was, inputs, done) && |draws| == |nows| == |was|
    requires Ranked(Moved(track, was, draws, nows), after, track.lengthKm, order)
    ensures Traced(track, start, after, Extended(inputs, draws, nows, after), done + 1)
  {
    var next := Extended(inputs, draws, nows, after);
    forall i | 0 <= i < |start| ensures |next[i]| == done + 1 && after[i] == CarAfter(track, start[i], next[i]) {
      OnlyRankChanges(Moved(track, was, draws, nows), after, track.lengthKm, order, i);
      assert next[i][..done] == inputs[i];
    }
  }

  /** The readings of each car's clock grow strictly, and from tick `k` on they are later than
      the start of its lap. */
  ghost predicate ClockAdvances(states: seq<DriverState>, nows: seq<seq<real>>, k: nat) {
    && (forall j :: 0 <= j < |nows| ==> |nows[j]| == |states|)
    && (forall i, j :: k <= j < |nows| && 0 <= i < |states| ==> nows[j][i] > states[i].lapStart)
    && (forall i, j, l :: 0 <= j < l < |nows| && 0 <= i < |states| ==> nows[j][i] < nows[l][i])
  }

  lemma TickKeepsClock(track: Track, was: seq<DriverState>, draws: seq<real>, nows: seq<seq<real>>, k: nat,
                       after: seq<DriverState>, order: seq<nat>)
    requires track.lengthKm > 0.0 && k < |nows| && ClockAdvances(was, nows, k) && |draws| == |was|
    requires Ranked(Moved(track, was, draws, nows[k]), after, track.lengthKm, order)
    ensures ClockAdvances(after, nows, k + 1)
  {
    forall i | 0 <= i < |after| ensures after[i].lapStart == was[i].lapStart || after[i].lapStart == nows[k][i] {
      OnlyRankChanges(Moved(track, was, draws, nows[k]), after, track.lengthKm, order, i);
    }
  }

  /** Every car that started on the grid of the default track is past its last lap. */
  ghost predicate AllFinished(track: Track, start: seq<DriverState>, states: seq<DriverState>) {
    |states| == |start|
    && forall i :: 0 <= i < |start| && OnGrid(track, start[i]) ==> states[i].frame.lap > 50
  }

  /** Whatever the draws, 5074 ticks take every car of the default track past its last lap. */
  lemma AllCarsFinish(start: seq<DriverState>, states: seq<DriverState>, inputs: seq<seq<Input>>, done: nat)
    requires Traced(DEFAULT_TRACK, start, states, inputs, done) && done >= 5063 + 11
    ensures AllFinished(DEFAULT_TRACK, start, states)
  {
    forall i | 0 <= i < |start| && OnGrid(DEFAULT_TRACK, start[i]) ensures states[i].frame.lap > 50 {
      EveryCarFinishes(start[i], inputs[i]);
    }
  }

  // ------------------------------------------------------------------ what the ring takes

  /** The frames of each tick, how many of them the ring took, and how many it held before each
      tick and after the last. */
  datatype Deliveries = Deliveries(frames: seq<seq<Frame>>, taken: seq<nat>, held: seq<nat>)

  function Joined(batches: seq<seq<Frame>>): seq<Frame> {
    if batches == [] then [] else Joined(batches[..|batches| - 1]) + batches[|batches| - 1]
  }

  /** Tick `k` offers one frame for each car; before it the consumer pops as often as it does, and
      then the ring takes as many of the frames as it has room for. */
  ghost predicate DeliveryOk(capacity: nat, cars: nat, pops: seq<nat>, d: Deliveries, k: nat)
    requires k < |d.frames| && k < |d.taken| && k < |pops| && |d.held| == |d.taken| + 1
  {
    var left := if pops[k] < d.held[k] then d.held[k] - pops[k] else 0;
    var room := capacity - 1 - left;
    && |d.frames[k]| == cars
    && d.taken[k] == (if cars <= room then cars else room)
    && d.held[k + 1] == left + d.taken[k]
  }

  ghost predicate DeliveriesOk(capacity: nat, cars: nat, pops: seq<nat>, d: Deliveries) {
    && |d.held| == |d.taken| + 1 && |d.taken| <= |pops|
    && TakesPrefixes(d.frames, d.taken)
    && forall k :: 0 <= k < |d.taken| ==> DeliveryOk(capacity, cars, pops, d, k)
  }

  lemma DeliverMore(capacity: nat, cars: nat, pops: seq<nat>, d: Deliveries, frames: seq<Frame>, taken: nat, held: nat)
    returns (more: Deliveries)
    requires DeliveriesOk(capacity, cars, pops, d) && |d.taken| < |pops| && |frames| == cars && taken <= cars
    requires var k := |d.taken|;
             var left := if pops[k] < d.held[k] then d.held[k] - pops[k] else 0;
             var room := capacity - 1 - left;
             taken == (if cars <= room then cars else room) && held == left + taken
    ensures DeliveriesOk(capacity, cars, pops, more)
    ensures |more.taken| == |d.taken| + 1 && more.held[|more.taken|] == held && more.held[0] == d.held[0]
    ensures Joined(more.frames) == Joined(d.frames) + frames
    ensures Taken(more.frames, more.taken) == Taken(d.frames, d.taken) + frames[..taken]
  {
    more := Deliveries(d.frames + [frames], d.taken + [taken], d.held + [held]);
    assert more.frames[..|d.frames|] == d.frames;
    forall k | 0 <= k < |more.taken| ensures DeliveryOk(capacity, cars, pops, more, k) {
      if k < |d.taken| { assert DeliveryOk(capacity, cars, pops, d, k); }
    }
    TakenLast(d.frames, d.taken, frames, taken);
  }

  /** A consumer that pops at least as often between two ticks as there are cars loses nothing, if
      the ring has room for one frame of each car. */
  lemma {:induction false} KeepingUpDropsNothing(capacity: nat, cars: nat, pops: seq<nat>, d: Deliveries, n: nat)
    requires DeliveriesOk(capacity, cars, pops, d) && cars <= capacity - 1 && d.held[0] <= cars
    requires forall k :: 0 <= k < |pops| ==> pops[k] >= cars
    requires n <= |d.taken|
    ensures d.held[n] <= cars && Taken(d.frames[..n], d.taken[..n]) == Joined(d.frames[..n])
  {
    if n > 0 {
      KeepingUpDropsNothing(capacity, cars, pops, d, n - 1);
      var m := n - 1;
      assert d.frames[..n][..m] == d.frames[..m] && d.taken[..n][..m] == d.taken[..m];
      assert DeliveryOk(capacity, cars, pops, d, m) && pops[m] >= cars;
      assert d.taken[m] == cars && d.frames[m][..cars] == d.frames[m];
    }
  }

  // ------------------------------------------------------------------ the class

  class TelemetryGenerator {
    const track: Track
    const queue: SpscQueue.SpscQueue<Frame>
    var states: seq<DriverState>
    var raceLap: int
    var raceFinished: bool
    ghost var offered: seq<Frame>   // every frame pushed, accepted by the ring or not

    ghost predicate Valid()
      reads this, queue, queue.buffer
    {
      && track.lengthKm > 0.0 && Reached(track, Race(states, raceLap, offered))
      && queue.Valid() && queue.trace.producer.Idle?
      && TakenFrom(queue.trace.sent, offered)
    }

    /** Cars start 10 m apart, the first of the roster in front. */
    constructor (track: Track, queue: SpscQueue.SpscQueue<Frame>, roster: seq<Profile>, now: real)
      requires track.lengthKm > 0.0 && roster != []
      requires forall i, j :: 0 <= i < j < |roster| ==> roster[i].id != roster[j].id
      requires queue.Valid() && queue.trace.producer.Idle? && queue.trace.sent == []
      ensures Valid() && this.track == track && this.queue == queue
      ensures |states| == |roster| && raceLap == 1 && !raceFinished && offered == []
      ensures forall i :: 0 <= i < |states| ==>
                && states[i].profile == roster[i] && states[i].position == i + 1 && states[i].lapStart == now
                && (states[i].distanceInLap < track.lengthKm ==> OnGrid(track, states[i]))
                && states[i].distanceInLap == (|roster| - i - 1) as real * 0.010
                && states[i].frame.driverId == roster[i].id && states[i].frame.lap == 1
                && states[i].frame.fuelKg == 100.0 && states[i].frame.tireWear == 0.0
                && states[i].frame.lapTimeMs == 0.0
                && !states[i].inPit && !states[i].hasCompletedPit
                && states[i].pitStops == 0 && states[i].bestLapMs == 0.0
    {
      this.track, this.queue := track, queue;
      raceLap, raceFinished, offered := 1, false, [];
      states := seq(|roster|, i requires 0 <= i < |roster| =>
        NO_DRIVER.(profile := roster[i], position := i + 1, lapStart := now,
                   distanceInLap := (|roster| - i - 1) as real * 0.010,
                   frame := NO_DRIVER.frame.(driverId := roster[i].id, lap := 1, fuelKg := 100.0)));
      new;
      ReachedStart(track, Race(states, raceLap, offered));
    }

    /** `handle_pit` */
    method HandlePit(i: nat)
      requires i < |states| && states[i].inPit
      modifies this`states
      ensures states == old(states)[i := PitStep(old(states)[i])]
    {
      var s := states[i];
      s := s.(pitTimerTicks := s.pitTimerTicks - 1,
              frame := s.frame.(inPit := true, speedKph := 60.0, throttle := 0.2, brake := 0.1, lapTimeMs := 0.0));
      if s.pitTimerTicks <= 0 {
        s := s.(inPit := false, pitStops := s.pitStops + 1,
                frame := s.frame.(inPit := false, tireWear := 0.02, fuelKg := 100.0));
      }
      states := states[i := s];
    }

    /** The rest of the loop body of `tick`, for a car that is not in the pits. */
    method DriveCar(i: nat, draw: real, now: real)
      requires track.lengthKm > 0.0 && i < |states| && !states[i].inPit
      modifies this`states, this`raceLap, this`raceFinished
      ensures states == old(states)[i := Drive(track, old(states)[i], draw, now)]
      ensures raceLap == if states[i].frame.lap > old(states)[i].frame.lap && states[i].frame.lap > old(raceLap)
                         then states[i].frame.lap else old(raceLap)
      ensures raceFinished <==>
                old(raceFinished)
                || (states[i].frame.lap > old(states)[i].frame.lap
                    && states[i].frame.lap > 50 && old(states)[i].position == 1)
    {
      var s := Move(track, states[i], draw);
      if s.distanceInLap >= track.lengthKm {
        s := s.(distanceInLap := s.distanceInLap - track.lengthKm, frame := s.frame.(lap := s.frame.lap + 1));
        var lapMs := now - s.lapStart;
        s := s.(lapStart := now, frame := s.frame.(lapTimeMs := lapMs));
        if s.bestLapMs < 1.0 || lapMs < s.bestLapMs { s := s.(bestLapMs := lapMs); }
        if ShouldPit(s) {
          s := s.(inPit := true, pitTimerTicks := PIT_STOP_TICKS, hasCompletedPit := true,
                  frame := s.frame.(inPit := true));
        }
        if s.frame.lap > raceLap { raceLap := s.frame.lap; }
        if s.frame.lap > TOTAL_LAPS && s.position == 1 { raceFinished := true; }
      }
      states := states[i := s];
    }

    /** `queue_.push(frame)` */
    method Offer(frame: Frame)
      requires queue.Valid() && queue.trace.producer.Idle? && TakenFrom(queue.trace.sent, offered)
      modifies this`offered, queue, queue.buffer
      ensures queue.Valid() && queue.trace.producer.Idle? && TakenFrom(queue.trace.sent, offered)
      ensures offered == old(offered) + [frame]
      ensures var taken := if |old(queue.Contents())| < queue.capacity - 1 then [frame] else [];
              && queue.trace.sent == old(queue.trace.sent) + taken
              && queue.Contents() == old(queue.Contents()) + taken
      ensures queue.trace.popped == old(queue.trace.popped) && queue.trace.consumer == old(queue.trace.consumer)
    {
      OfferTo(queue.trace.sent, offered, frame);
      var _ := queue.Push(frame);
      offered := offered + [frame];
    }

    /** Moves one car and pushes its frame to the ring, which takes it exactly when it is not full. */
    method MoveCar(i: nat, draw: real, now: real)
      requires Valid() && i < |states| && now > states[i].lapStart
      modifies this, queue, queue.buffer
      ensures Valid() && states == old(states)[i := StepCar(track, old(states)[i], draw, now)]
      ensures offered == old(offered) + [states[i].frame]
      ensures var taken := if |old(queue.Contents())| < queue.capacity - 1 then [states[i].frame] else [];
              && queue.trace.sent == old(queue.trace.sent) + taken
              && queue.Contents() == old(queue.Contents()) + taken
      ensures queue.trace.popped == old(queue.trace.popped) && queue.trace.consumer == old(queue.trace.consumer)
      ensures raceFinished <==> old(raceFinished) || Wins(old(states), states, i)
    {
      ghost var race := Race(states, raceLap, offered);
      EveryRaceKeepsBooks(track, race);
      ReachedAfter(track, race, RaceBooks.MoveCar(i, draw, now));
      StepConserves(track, states[i], draw, now);
      assert states[i].frame.lap <= raceLap;
      if states[i].inPit {
        HandlePit(i);
      } else {
        DriveCar(i, draw, now);
      }
      Offer(states[i].frame);
    }

    /** In the middle of a tick: the first `i` cars have moved, and of their frames, all of them
        pushed, the ring took the first `k`; the others found it full.  `ring` is the ring at the
        start of the tick. */
    ghost predicate MidTick(was: seq<DriverState>, moved: seq<DriverState>, i: nat, k: nat,
                            offers: seq<Frame>, ring: Ring.State<Frame>)
      reads this, queue, queue.buffer
    {
      && Valid() && k <= i <= |was| == |moved|
      && states == HalfMoved(was, moved, i)
      && offered == offers + FramesOf(moved)[..i]
      && queue.trace.sent == ring.sent + FramesOf(moved)[..k]
      && queue.Contents() == SpscQueue.Queue(ring) + FramesOf(moved)[..k]
      && (k < i ==> |queue.Contents()| >= queue.capacity - 1)
      && queue.trace.popped == ring.popped && queue.trace.consumer == ring.consumer
    }

    /** One round of the loop of `tick`. */
    method MoveNextCar(ghost was: seq<DriverState>, ghost moved: seq<DriverState>, draw: real, now: real, i: nat,
                       ghost k: nat, ghost offers: seq<Frame>, ghost ring: Ring.State<Frame>)
      returns (ghost next: nat)
      requires MidTick(was, moved, i, k, offers, ring)
      requires i < |was| && now > was[i].lapStart && moved[i] == StepCar(track, was[i], draw, now)
      modifies this, queue, queue.buffer
      ensures MidTick(was, moved, i + 1, next, offers, ring)
      ensures raceFinished <==> old(raceFinished) || Wins(was, moved, i)
    {
      ghost var frames := FramesOf(moved);
      MoveNext(was, moved, i);
      next := if |queue.Contents()| < queue.capacity - 1 then k + 1 else k;
      MoveCar(i, draw, now);
      OneMore(offers, frames, i);
      OneMore(ring.sent, frames, k);
      OneMore(SpscQueue.Queue(ring), frames, k);
      assert queue.trace.sent + [] == queue.trace.sent && queue.Contents() + [] == queue.Contents();
    }

    lemma StartOfTick(moved: seq<DriverState>)
      requires Valid() && |moved| == |states|
      ensures MidTick(states, moved, 0, 0, offered, queue.trace)
    {
      NoneYet(states, moved);
      NoneTaken(offered, FramesOf(moved));
      NoneTaken(queue.trace.sent, FramesOf(moved));
      NoneTaken(queue.Contents(), FramesOf(moved));
    }

    lemma EndOfTick(was: seq<DriverState>, moved: seq<DriverState>, k: nat, offers: seq<Frame>, ring: Ring.State<Frame>)
      requires MidTick(was, moved, |was|, k, offers, ring)
      ensures states == moved && offered == offers + FramesOf(moved)
      ensures var room := queue.capacity - 1 - |SpscQueue.Queue(ring)|;
              k == if |moved| <= room then |moved| else room
    {
      AllMoved(was, moved);
      assert FramesOf(moved)[..|moved|] == FramesOf(moved);
      SpscQueue.IndicesAre(queue.trace);
    }

    /** The loop of `tick` over the cars, with the consumer standing still: the ring takes the
        frames from the first on until it is full. */
    method MoveCars(draws: seq<real>, nows: seq<real>) returns (ghost taken: nat)
      requires Valid() && |draws| == |nows| == |states|
      requires forall i :: 0 <= i < |states| ==> nows[i] > states[i].lapStart
      modifies this, queue, queue.buffer
      ensures MidTick(old(states), Moved(track, old(states), draws, nows), |old(states)|, taken,
                      old(offered), old(queue.trace))
      ensures raceFinished <==>
                old(raceFinished)
                || SomeWins(old(states), Moved(track, old(states), draws, nows), |old(states)|)
    {
      ghost var was, offers, ring := states, offered, queue.trace;
      ghost var moved := Moved(track, states, draws, nows);
      taken := 0;
      StartOfTick(moved);
      for i := 0 to |draws|
        invariant MidTick(was, moved, i, taken, offers, ring)
        invariant raceFinished <==> old(raceFinished) || SomeWins(was, moved, i)
      {
        taken := MoveNextCar(was, moved, draws[i], nows[i], i, taken, offers, ring);
      }
    }

    method AssignPositions(idx: seq<nat>)
      requires states != [] && IsOrder(Distances(states, track.lengthKm), |states|, idx)
      requires forall p, q :: 0 <= p < |idx| && 0 <= q < |idx| && p != q ==> idx[p] != idx[q]
      modifies this`states
      ensures |states| == |old(states)|
      ensures forall q :: 0 <= q < |idx| ==> states[idx[q]] == Gapped(old(states), idx, track.lengthKm, q)
    {
      ghost var before := states;
      for p := 0 to |idx|
        invariant |states| == |before|
        invariant forall q :: 0 <= q < p ==> states[idx[q]] == Gapped(before, idx, track.lengthKm, q)
        invariant forall q :: p <= q < |idx| ==> states[idx[q]] == before[idx[q]]
      {
        GapFromGapped(before, idx, track.lengthKm, p);
        var s := states[idx[p]];
        var gap := if p == 0 then 0.0 else Gap(states[idx[0]], s, track.lengthKm);
        states := states[idx[p] := s.(position := p + 1, frame := s.frame.(gapToLeader := gap))];
      }
    }

    method SetDrs(idx: seq<nat>, ghost before: seq<DriverState>)
      requires |states| == |before| > 0 && IsOrder(Distances(before, track.lengthKm), |before|, idx)
      requires forall p, q :: 0 <= p < |idx| && 0 <= q < |idx| && p != q ==> idx[p] != idx[q]
      requires forall q :: 0 <= q < |idx| ==> states[idx[q]] == Gapped(before, idx, track.lengthKm, q)
      modifies this`states
      ensures |states| == |before|
      ensures forall q :: 0 <= q < |idx| ==> states[idx[q]] == Placed(before, idx, track.lengthKm, q)
    {
      var first := states[idx[0]];
      states := states[idx[0] := first.(frame := first.frame.(drsActive := false))];
      for p := 1 to |idx|
        invariant |states| == |before|
        invariant forall q :: 0 <= q < p ==> states[idx[q]] == Placed(before, idx, track.lengthKm, q)
        invariant forall q :: p <= q < |idx| ==> states[idx[q]] == Gapped(before, idx, track.lengthKm, q)
      {
        var s := states[idx[p]];
        var gap := s.frame.gapToLeader - states[idx[p - 1]].frame.gapToLeader;
        states := states[idx[p] := s.(frame := s.frame.(drsActive := gap < 1.0))];
      }
    }

    /** Ranks the cars. */
    method UpdatePositionsAndDrs() returns (ghost order: seq<nat>)
      requires states != []
      modifies this`states
      ensures Ranked(old(states), states, track.lengthKm, order)
    {
      var idx := StableSort(Distances(states, track.lengthKm));
      AssignPositions(idx);
      SetDrs(idx, old(states));
      order := idx;
    }

    /** `update_positions_and_drs()` at the end of a tick. */
    method RankCars() returns (ghost order: seq<nat>)
      requires Valid()
      modifies this`states
      ensures Valid() && Ranked(old(states), states, track.lengthKm, order)
    {
      ghost var race := Race(states, raceLap, offered);
      EveryRaceKeepsBooks(track, race);
      order := UpdatePositionsAndDrs();
      ReachedAfter(track, race, Rank(states, order));
    }

    /** One tick, given a random draw and a clock reading for every car: every car takes one step,
        one frame of each is pushed, in order, and the ring takes the first of them until it is
        full; the cars are ranked, and the race is finished when a car that was first before the
        tick completes the last lap. */
    method Tick(draws: seq<real>, nows: seq<real>) returns (ghost order: seq<nat>, ghost taken: nat)
      requires Valid() && |draws| == |nows| == |states|
      requires forall i :: 0 <= i < |states| ==> nows[i] > states[i].lapStart
      modifies this, queue, queue.buffer
      ensures Valid()
      ensures var moved := Moved(track, old(states), draws, nows);
              && offered == old(offered) + FramesOf(moved)
              && Ranked(moved, states, track.lengthKm, order)
              && (raceFinished <==>
                    old(raceFinished)
                    || exists i :: 0 <= i < |moved| && moved[i].frame.lap > old(states)[i].frame.lap
                                   && moved[i].frame.lap > 50 && old(states)[i].position == 1)
      ensures var room := queue.capacity - 1 - |old(queue.Contents())|;
              taken == if |old(states)| <= room then |old(states)| else room
      ensures var frames := FramesOf(Moved(track, old(states), draws, nows))[..taken];
              queue.trace.sent == old(queue.trace.sent) + frames && queue.Contents() == old(queue.Contents()) + frames
      ensures queue.trace.popped == old(queue.trace.popped) && queue.trace.consumer == old(queue.trace.consumer)
    {
      ghost var was, offers, ring := states, offered, queue.trace;
      ghost var moved := Moved(track, states, draws, nows);
      taken := MoveCars(draws, nows);
      SomeWinsIff(was, moved, |was|);
      EndOfTick(was, moved, taken, offers, ring);
      order := RankCars();
    }

    /** A tick of `run`, and what it is in the runs of the single cars. */
    method TracedTick(ghost start: seq<DriverState>, ghost inputs: seq<seq<Input>>, draws: seq<real>,
                      nows: seq<seq<real>>, k: nat)
      returns (ghost after: seq<seq<Input>>, ghost frames: seq<Frame>, ghost taken: nat)
      requires Valid() && k < |nows| && ClockAdvances(states, nows, k) && |draws| == |states|
      requires Traced(track, start, states, inputs, k)
      modifies this, queue, queue.buffer
      ensures Valid() && |states| == |start| && Traced(track, start, states, after, k + 1)
      ensures ClockAdvances(states, nows, k + 1)
      ensures |frames| == |states| && offered == old(offered) + frames
      ensures var room := queue.capacity - 1 - |old(queue.Contents())|;
              taken == if |frames| <= room then |frames| else room
      ensures taken <= |frames| && queue.trace.sent == old(queue.trace.sent) + frames[..taken]
      ensures |queue.Contents()| == |old(queue.Contents())| + taken
      ensures queue.trace.consumer == old(queue.trace.consumer)
    {
      ghost var was := states;
      frames := FramesOf(Moved(track, states, draws, nows[k]));
      ghost var order;
      order, taken := Tick(draws, nows[k]);
      TickTraces(track, start, was, inputs, k, draws, nows[k], states, order);
      TickKeepsClock(track, was, draws, nows, k, states, order);
      after := Extended(inputs, draws, nows[k], states);
    }

    /** The consumer between two ticks. */
    method ConsumerPops(n: nat)
      requires Valid() && queue.trace.consumer.Resting?
      modifies queue
      ensures Valid() && queue.trace.consumer.Resting? && queue.trace.sent == old(queue.trace.sent)
      ensures |queue.Contents()| == if n < |old(queue.Contents())| then |old(queue.Contents())| - n else 0
    {
      for i := 0 to n
        invariant Valid() && queue.trace.consumer.Resting? && queue.trace.sent == old(queue.trace.sent)
        invariant |queue.Contents()| == if i < |old(queue.Contents())| then |old(queue.Contents())| - i else 0
      {
        var _ := queue.Pop();
      }
    }

    /** The frames of each tick have been offered, and the ring took of each tick what it had room
        for, the consumer having popped so many before it. */
    ghost predicate Delivered(offers: seq<Frame>, sent: seq<Frame>, cars: nat, pops: seq<nat>, d: Deliveries)
      reads this, queue
    {
      && DeliveriesOk(queue.capacity, cars, pops, d)
      && offered == offers + Joined(d.frames)
      && queue.trace.sent == sent + Taken(d.frames, d.taken)
      && |queue.Contents()| == d.held[|d.taken|]
    }

    /** After `k` ticks of `run`. */
    ghost predicate MidRun(start: seq<DriverState>, inputs: seq<seq<Input>>, nows: seq<seq<real>>, k: nat,
                           pops: seq<nat>, offers: seq<Frame>, sent: seq<Frame>, d: Deliveries)
      reads this, queue, queue.buffer
    {
      && Valid() && queue.trace.consumer.Resting?
      && Traced(track, start, states, inputs, k) && ClockAdvances(states, nows, k)
      && Delivered(offers, sent, |start|, pops, d) && |d.taken| == k
    }

    /** One round of the loop of `run`, after some pops of the consumer. */
    method Round(ghost start: seq<DriverState>, ghost inputs: seq<seq<Input>>, draws: seq<real>,
                 nows: seq<seq<real>>, k: nat, pops: seq<nat>,
                 ghost offers: seq<Frame>, ghost sent: seq<Frame>, ghost d: Deliveries)
      returns (ghost after: seq<seq<Input>>, ghost more: Deliveries)
      requires MidRun(start, inputs, nows, k, pops, offers, sent, d)
      requires k < |nows| == |pops| && |draws| == |start|
      modifies this, queue, queue.buffer
      ensures MidRun(start, after, nows, k + 1, pops, offers, sent, more) && more.held[0] == d.held[0]
    {
      ConsumerPops(pops[k]);
      ghost var frames, taken;
      after, frames, taken := TracedTick(start, inputs, draws, nows, k);
      more := DeliverMore(queue.capacity, |start|, pops, d, frames, taken, |queue.Contents()|);
      Associative(offers, Joined(d.frames), frames);
      Associative(sent, Taken(d.frames, d.taken), frames[..taken]);
    }

    /** `run`, for at most as many ticks as there are draws before the stop request; it ends
        earlier only when the race is finished.  What it did to each car is what the car's
        inputs do to it, and 5074 ticks take every car of the default track past its last lap.
        Before tick `k` the consumer pops `pops[k]` times; of each tick the ring takes the frames
        from the first on until it is full. */
    method Run(draws: seq<seq<real>>, nows: seq<seq<real>>, pops: seq<nat>)
      returns (done: nat, ghost inputs: seq<seq<Input>>, ghost d: Deliveries)
      requires Valid() && |draws| == |nows| == |pops| && ClockAdvances(states, nows, 0)
      requires forall k :: 0 <= k < |draws| ==> |draws[k]| == |states|
      requires queue.trace.consumer.Resting?
      modifies this, queue, queue.buffer
      ensures Valid() && done <= |draws| && (done < |draws| ==> raceFinished)
      ensures Traced(track, old(states), states, inputs, done)
      ensures Delivered(old(offered), old(queue.trace.sent), |old(states)|, pops, d)
      ensures |d.taken| == done && d.held[0] == |old(queue.Contents())|
      ensures track == DEFAULT_TRACK && done >= 5063 + 11 ==> AllFinished(track, old(states), states)
    {
      done := 0;
      ghost var start, offers, sent := states, offered, queue.trace.sent;
      inputs := seq(|states|, _ => []);
      d := Deliveries([], [], [|queue.Contents()|]);
      assert offers + [] == offers && sent + [] == sent;
      while done < |draws| && !raceFinished
        invariant done <= |draws| && MidRun(start, inputs, nows, done, pops, offers, sent, d)
        invariant d.held[0] == |old(queue.Contents())|
        decreases |draws| - done
      {
        inputs, d := Round(start, inputs, draws[done], nows, done, pops, offers, sent, d);
        done := done + 1;
      }
      if track == DEFAULT_TRACK && done >= 5063 + 11 { AllCarsFinish(start, states, inputs, done); }
    }
  }
}
