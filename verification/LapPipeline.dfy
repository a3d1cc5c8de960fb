/** From the telemetry ring to the fastest lap: the consumer thread with its live loop and
    its drain loop, on top of the ring protocol, with the shutdown order of the program. */
module LapPipeline {
  import opened Common
  import opened RaceTypes
  import opened Roster
  import opened BitMask
  import Ring = SpscProtocol
  import SpscQueue
  import FastestLap

  // ------------------------------------------------------------------ what one frame does

  /** The fastest time and its holder, an index into the roster or -1. */
  datatype Record = Record(best: real, holder: int)

  /** Handling a frame: a completed lap of a known driver claims the fastest lap. */
  function Claim(roster: seq<string>, r: Record, f: Frame): Record {
    if f.lapTimeMs > 0.0 && IndexOf(roster, f.driverId) >= 0 && f.lapTimeMs < r.best
    then Record(f.lapTimeMs, IndexOf(roster, f.driverId))
    else r
  }

  function ClaimAll(roster: seq<string>, r: Record, frames: seq<Frame>): Record {
    if frames == [] then r
    else Claim(roster, ClaimAll(roster, r, frames[..|frames| - 1]), frames[|frames| - 1])
  }

  /** A frame that can hold the fastest lap. */
  ghost predicate Counts(roster: seq<string>, initial: real, f: Frame) {
    0.0 < f.lapTimeMs < initial && f.driverId in roster
  }

  /** Frame `k` has the smallest time of all frames that count, and is the first with it. */
  ghost predicate FirstFastest(roster: seq<string>, initial: real, frames: seq<Frame>, k: nat) {
    && k < |frames| && Counts(roster, initial, frames[k])
    && (forall j :: 0 <= j < |frames| && Counts(roster, initial, frames[j]) ==>
          frames[k].lapTimeMs <= frames[j].lapTimeMs)
    && (forall j :: 0 <= j < k && Counts(roster, initial, frames[j]) ==>
          frames[k].lapTimeMs < frames[j].lapTimeMs)
  }

  ghost predicate NoneCounts(roster: seq<string>, initial: real, frames: seq<Frame>) {
    forall j :: 0 <= j < |frames| ==> !Counts(roster, initial, frames[j])
  }

  /** The record a race must end with, said without the order of the claims. */
  ghost predicate IsRecordOf(roster: seq<string>, initial: real, frames: seq<Frame>, r: Record) {
    if NoneCounts(roster, initial, frames) then r == Record(initial, -1)
    else exists k: nat :: FirstFastest(roster, initial, frames, k)
                          && r == Record(frames[k].lapTimeMs, IndexOf(roster, frames[k].driverId))
  }

  lemma KeepsFirst(roster: seq<string>, initial: real, front: seq<Frame>, f: Frame, k: nat)
    requires FirstFastest(roster, initial, front, k)
    requires Counts(roster, initial, f) ==> front[k].lapTimeMs <= f.lapTimeMs
    ensures FirstFastest(roster, initial, front + [f], k) && !NoneCounts(roster, initial, front + [f])
  {
  }

  lemma NewFirst(roster: seq<string>, initial: real, front: seq<Frame>, f: Frame)
    requires Counts(roster, initial, f)
    requires forall j :: 0 <= j < |front| && Counts(roster, initial, front[j]) ==> f.lapTimeMs < front[j].lapTimeMs
    ensures FirstFastest(roster, initial, front + [f], |front|) && !NoneCounts(roster, initial, front + [f])
  {
  }

  lemma ClaimExtendsRecord(roster: seq<string>, initial: real, front: seq<Frame>, f: Frame, r: Record)
    requires IsRecordOf(roster, initial, front, r)
    ensures IsRecordOf(roster, initial, front + [f], Claim(roster, r, f))
  {
    var frames := front + [f];
    if NoneCounts(roster, initial, front) {
      if Counts(roster, initial, f) { NewFirst(roster, initial, front, f); }
    } else {
      var k: nat :| FirstFastest(roster, initial, front, k)
                 && r == Record(front[k].lapTimeMs, IndexOf(roster, front[k].driverId));
      if Counts(roster, initial, f) && f.lapTimeMs < r.best {
        NewFirst(roster, initial, front, f);
      } else {
        KeepsFirst(roster, initial, front, f, k);
        assert frames[k] == front[k];
      }
    }
  }

  /** Claiming frame by frame ends with the minimum time, held by the first driver to reach it. */
  lemma {:induction false} ClaimAllIsRecord(roster: seq<string>, initial: real, frames: seq<Frame>)
    ensures IsRecordOf(roster, initial, frames, ClaimAll(roster, Record(initial, -1), frames))
  {
    if frames != [] {
      var front, f := frames[..|frames| - 1], frames[|frames| - 1];
      ClaimAllIsRecord(roster, initial, front);
      ClaimExtendsRecord(roster, initial, front, f, ClaimAll(roster, Record(initial, -1), front));
      assert frames == front + [f];
    }
  }

  lemma {:induction false} ClaimFirst(roster: seq<string>, r: Record, f: Frame, rest: seq<Frame>)
    ensures ClaimAll(roster, r, [f] + rest) == ClaimAll(roster, Claim(roster, r, f), rest)
  {
    var frames := [f] + rest;
    if rest == [] {
      assert frames == [f] && [f][..0] == [];
    } else {
      var front := rest[..|rest| - 1];
      ClaimFirst(roster, r, f, front);
      assert frames[..|frames| - 1] == [f] + front;
    }
  }

  lemma {:induction false} ClaimAppend(roster: seq<string>, r: Record, a: seq<Frame>, b: seq<Frame>)
    ensures ClaimAll(roster, r, a + b) == ClaimAll(roster, ClaimAll(roster, r, a), b)
  {
    if b == [] {
      assert a + b == a;
    } else {
      assert (a + b)[..|a + b| - 1] == a + b[..|b| - 1];
      ClaimAppend(roster, r, a, b[..|b| - 1]);
    }
  }

  // ------------------------------------------------------------------ the threads

  datatype Mode = Live | Draining | Exited

  datatype Position = LoopHead | InPop | Handling

  datatype State = State(
    ring: Ring.State<Frame>,
    mode: Mode,
    at: Position,
    record: Record,
    handled: nat,                 // frames handled so far
    generatorStopped: bool,
    stopRequested: bool)

  datatype Step =
    | Producer(p: Ring.Step<Frame>)
    | StopGenerator               // joins the generator thread: it is between two pushes for good
    | RequestStop                 // asks the consumer to stop
    | SeeStop                     // the live loop's test fails
    | Poll                        // a loop calls `pop`
    | Pop(p: Ring.Step<Frame>)    // a step inside `pop`
    | Handle                      // the body of the loop

  ghost function Init(capacity: nat, initial: real): State {
    State(Ring.Init(capacity), Live, LoopHead, Record(initial, -1), 0, false, false)
  }

  ghost predicate IsProducerStep(p: Ring.Step<Frame>) {
    p.PushCall? || p.PushRefresh? || p.PushWrite? || p.PushPublish?
  }

  /** The generator is stopped before the consumer is asked to stop.  The live loop may see
      the request late; once it has seen it, what the generator published before it was joined
      is visible to its loads, which until then may lag behind. */
  ghost predicate Enabled(s: State, step: Step) {
    match step
    case Producer(p) =>
      IsProducerStep(p) && Ring.Enabled(s.ring, p) && (p.PushCall? ==> !s.generatorStopped)
    case StopGenerator => s.ring.producer.Idle?
    case RequestStop => s.generatorStopped
    case SeeStop => s.mode.Live? && s.at.LoopHead? && s.stopRequested
    case Poll => !s.mode.Exited? && s.at.LoopHead? && Ring.Enabled(s.ring, Ring.PopCall)
    case Pop(p) =>
      && s.at.InPop? && !IsProducerStep(p) && !p.PopCall? && Ring.Enabled(s.ring, p)
      && (s.mode.Draining? ==> Ring.Exact(s.ring, p))
    case Handle => s.at.Handling?
  }

  ghost function OnRing(s: State, p: Ring.Step<Frame>): Outcome<State>
    requires Ring.Enabled(s.ring, p)
  {
    match Ring.Next(s.ring, p)
    case Running(r) => Running(s.(ring := r))
    case Fault => Fault
    case Stuck => Stuck
  }

  /** Where the consumer goes on after a step inside `pop`: a failed pop makes the live loop
      sleep and go round, and ends the drain loop. */
  ghost function AfterPop(s: State, p: Ring.Step<Frame>): State {
    if !s.ring.consumer.Resting? then s
    else if p.PopAdvance? then s.(at := Handling)
    else s.(at := LoopHead, mode := if s.mode.Draining? then Exited else s.mode)
  }

  ghost function Next(roster: seq<string>, s: State, step: Step): Outcome<State>
    requires Enabled(s, step)
  {
    match step
    case Producer(p) => OnRing(s, p)
    case StopGenerator => Running(s.(generatorStopped := true))
    case RequestStop => Running(s.(stopRequested := true))
    case SeeStop => Running(s.(mode := Draining))
    case Poll => OnRing(s.(at := InPop), Ring.PopCall)
    case Pop(p) =>
      (match OnRing(s, p)
       case Running(t) => Running(AfterPop(t, p))
       case Fault => Fault
       case Stuck => Stuck)
    case Handle =>
      if s.ring.popped == [] then Fault
      else Running(s.(record := Claim(roster, s.record, s.ring.popped[|s.ring.popped| - 1]),
                      handled := s.handled + 1, at := LoopHead))
  }

  ghost function Exec(roster: seq<string>, s: State, steps: seq<Step>): Outcome<State> {
    if steps == [] then Running(s)
    else
      match Exec(roster, s, steps[..|steps| - 1])
      case Fault => Fault
      case Stuck => Stuck
      case Running(m) =>
        if Enabled(m, steps[|steps| - 1]) then Next(roster, m, steps[|steps| - 1]) else Stuck
  }

  // ------------------------------------------------------------------ invariant

  ghost predicate RecordOk(roster: seq<string>, initial: real, s: State) {
    && s.handled == |s.ring.popped| - (if s.at.Handling? then 1 else 0)
    && s.handled >= 0
    && s.record == ClaimAll(roster, Record(initial, -1), s.ring.popped[..s.handled])
  }

  ghost predicate ThreadsOk(s: State) {
    && (s.at.InPop? <==> !s.ring.consumer.Resting?)
    && (s.generatorStopped ==> s.ring.producer.Idle?)
    && (s.stopRequested ==> s.generatorStopped)
    && (!s.mode.Live? ==> s.stopRequested)
    && (s.mode.Exited? ==> s.at.LoopHead? && |s.ring.popped| == |s.ring.sent|)
  }

  ghost predicate Inv(roster: seq<string>, initial: real, s: State) {
    Ring.Inv(s.ring) && RecordOk(roster, initial, s) && ThreadsOk(s)
  }

  lemma ClaimAllStep(roster: seq<string>, r: Record, frames: seq<Frame>, n: nat)
    requires n < |frames|
    ensures ClaimAll(roster, r, frames[..n + 1]) == Claim(roster, ClaimAll(roster, r, frames[..n]), frames[n])
  {
    assert frames[..n + 1][..n] == frames[..n];
  }

  lemma PopKeeps(roster: seq<string>, initial: real, s: State, p: Ring.Step<Frame>)
    requires Inv(roster, initial, s) && Enabled(s, Pop(p))
    ensures Next(roster, s, Pop(p)).Running? && Inv(roster, initial, Next(roster, s, Pop(p)).state)
  {
    Ring.StepKeeps(s.ring, p);
    var t := Next(roster, s, Pop(p)).state;
    if p.PopAdvance? {
      assert t.ring.popped[..s.handled] == s.ring.popped[..s.handled];
    }
    if p.PopRefresh? {
      Ring.EmptyTest(s.ring, p.tailView);
    }
  }

  lemma StepKeeps(roster: seq<string>, initial: real, s: State, step: Step)
    requires Inv(roster, initial, s) && Enabled(s, step)
    ensures Next(roster, s, step).Running? && Inv(roster, initial, Next(roster, s, step).state)
  {
    match step
    case Producer(p) => Ring.StepKeeps(s.ring, p);
    case Poll => Ring.StepKeeps(s.ring, Ring.PopCall);
    case Pop(p) => PopKeeps(roster, initial, s, p);
    case Handle => ClaimAllStep(roster, Record(initial, -1), s.ring.popped, s.handled);
    case _ =>
  }

  lemma {:induction false} RunKeeps(roster: seq<string>, initial: real, s: State, steps: seq<Step>)
    requires Inv(roster, initial, s)
    ensures !Exec(roster, s, steps).Fault?
    ensures Exec(roster, s, steps).Running? ==> Inv(roster, initial, Exec(roster, s, steps).state)
  {
    if steps != [] {
      RunKeeps(roster, initial, s, steps[..|steps| - 1]);
      match Exec(roster, s, steps[..|steps| - 1])
      case Running(m) =>
        if Enabled(m, steps[|steps| - 1]) { StepKeeps(roster, initial, m, steps[|steps| - 1]); }
      case _ =>
    }
  }

  /** End to end: in every run in which the consumer thread has exited, every frame the ring
      accepted was handled, once and in order, and the fastest lap is the smallest positive
      time of a known driver among them, held by the first driver to reach it. */
  lemma ExitedMeansRecordOfAll(roster: seq<string>, capacity: nat, initial: real, steps: seq<Step>)
    requires PowerOfTwo(capacity) && capacity >= 2
    requires Exec(roster, Init(capacity, initial), steps).Running?
    requires Exec(roster, Init(capacity, initial), steps).state.mode.Exited?
    ensures var s := Exec(roster, Init(capacity, initial), steps).state;
            && s.ring.popped == s.ring.sent && s.handled == |s.ring.sent|
            && IsRecordOf(roster, initial, s.ring.sent, s.record)
  {
    Ring.InitKeeps<Frame>(capacity);
    RunKeeps(roster, initial, Init(capacity, initial), steps);
    var s := Exec(roster, Init(capacity, initial), steps).state;
    assert s.ring.popped[..s.handled] == s.ring.sent;
    ClaimAllIsRecord(roster, initial, s.ring.sent);
  }

  /** While the race runs, the record is that of the frames handled so far. */
  lemma RecordFollowsFrames(roster: seq<string>, capacity: nat, initial: real, steps: seq<Step>)
    requires PowerOfTwo(capacity) && capacity >= 2
    requires Exec(roster, Init(capacity, initial), steps).Running?
    ensures var s := Exec(roster, Init(capacity, initial), steps).state;
            && s.handled <= |s.ring.popped| <= |s.ring.sent|
            && s.ring.popped <= s.ring.sent
            && IsRecordOf(roster, initial, s.ring.sent[..s.handled], s.record)
  {
    Ring.InitKeeps<Frame>(capacity);
    RunKeeps(roster, initial, Init(capacity, initial), steps);
    var s := Exec(roster, Init(capacity, initial), steps).state;
    assert s.ring.popped[..s.handled] == s.ring.sent[..s.handled];
    ClaimAllIsRecord(roster, initial, s.ring.sent[..s.handled]);
  }

  // ------------------------------------------------------------------ frames that arrive in batches

  ghost predicate TakesPrefixes(arrivals: seq<seq<Frame>>, taken: seq<nat>) {
    |taken| == |arrivals| && forall i :: 0 <= i < |taken| ==> taken[i] <= |arrivals[i]|
  }

  /** The first `taken[i]` frames of each batch. */
  ghost function Taken(arrivals: seq<seq<Frame>>, taken: seq<nat>): seq<Frame>
    requires TakesPrefixes(arrivals, taken)
  {
    if arrivals == [] then []
    else
      var n := |arrivals| - 1;
      Taken(arrivals[..n], taken[..n]) + arrivals[n][..taken[n]]
  }

  lemma TakenLast(arrivals: seq<seq<Frame>>, taken: seq<nat>, batch: seq<Frame>, k: nat)
    requires TakesPrefixes(arrivals, taken) && k <= |batch|
    ensures TakesPrefixes(arrivals + [batch], taken + [k])
    ensures Taken(arrivals + [batch], taken + [k]) == Taken(arrivals, taken) + batch[..k]
  {
    assert (arrivals + [batch])[..|arrivals|] == arrivals && (taken + [k])[..|taken|] == taken;
  }

  // ------------------------------------------------------------------ the class

  class LapTimeConsumer {
    const roster: seq<string>
    const queue: SpscQueue.SpscQueue<Frame>
    const raceState: FastestLap.RaceState

    constructor (roster: seq<string>, queue: SpscQueue.SpscQueue<Frame>, raceState: FastestLap.RaceState)
      ensures this.roster == roster && this.queue == queue && this.raceState == raceState
    {
      this.roster, this.queue, this.raceState := roster, queue, raceState;
    }

    ghost function Held(): Record
      reads this, raceState
    {
      Record(raceState.fastestLapMs, raceState.fastestLapHolder)
    }

    /** The body shared by the two loops. */
    method Handle(frame: Frame)
      modifies raceState
      ensures Held() == Claim(roster, old(Held()), frame)
    {
      if frame.lapTimeMs > 0.0 {
        var idx := DriverIndex(roster, frame.driverId);
        if idx >= 0 {
          var _, _ := raceState.TryClaimFastestLap(idx, frame.lapTimeMs, [], []);
        }
      }
    }

    /** One round of either loop: pops a frame and handles it. */
    method Round() returns (more: bool)
      requires queue.Valid() && queue.trace.consumer.Resting?
      modifies queue, raceState
      ensures queue.Valid() && queue.trace.consumer.Resting? && queue.trace.producer == old(queue.trace.producer)
      ensures more <==> old(queue.Contents()) != []
      ensures !more ==> queue.Contents() == [] && Held() == old(Held()) && queue.trace.popped == old(queue.trace.popped)
      ensures more ==> queue.Contents() == old(queue.Contents())[1..]
      ensures more ==> queue.trace.popped == old(queue.trace.popped) + [old(queue.Contents())[0]]
      ensures more ==> Held() == Claim(roster, old(Held()), old(queue.Contents())[0])
    {
      var frame := queue.Pop();
      more := frame.Some?;
      if more { Handle(frame.value); }
    }

    /** Handling everything that is left ends in the record of `frames` on top of `start`, and
        popping it completes `frames` after what had been popped at the start. */
    ghost predicate OnTheWay(start: Record, popped: seq<Frame>, frames: seq<Frame>)
      reads this, queue, queue.buffer, raceState
    {
      && queue.Valid() && queue.trace.consumer.Resting? && queue.trace.producer.Idle?
      && ClaimAll(roster, Held(), queue.Contents()) == ClaimAll(roster, start, frames)
      && queue.trace.popped + queue.Contents() == popped + frames
    }

    /** A round stays on the way. */
    method RoundKeeps(ghost start: Record, ghost popped: seq<Frame>, ghost frames: seq<Frame>) returns (more: bool)
      requires OnTheWay(start, popped, frames)
      modifies queue, raceState
      ensures OnTheWay(start, popped, frames)
      ensures if more then |queue.Contents()| < |old(queue.Contents())| else queue.Contents() == []
    {
      ghost var held, done, waiting := Held(), queue.trace.popped, queue.Contents();
      more := Round();
      if more {
        FrontMoves(done, waiting);
        assert waiting == [waiting[0]] + waiting[1..];
        ClaimFirst(roster, held, waiting[0], waiting[1..]);
      }
    }

    /** Of the generator's pushes since the ring held `waiting` the first `k` were accepted, the
        others found it full. */
    ghost predicate Arrived(waiting: seq<Frame>, arrivals: seq<Frame>, k: nat, popped: seq<Frame>)
      reads this, queue, queue.buffer
    {
      && queue.Valid() && queue.trace.consumer.Resting? && queue.trace.producer.Idle?
      && k <= |arrivals| && queue.Contents() == waiting + arrivals[..k]
      && (k < |arrivals| ==> |queue.Contents()| >= queue.capacity - 1)
      && queue.trace.popped == popped
    }

    /** One push of the generator. */
    method Arrive(ghost waiting: seq<Frame>, ghost arrivals: seq<Frame>, ghost k: nat, frame: Frame)
      returns (ghost more: nat)
      requires Arrived(waiting, arrivals, k, queue.trace.popped)
      modifies queue, queue.buffer
      ensures Arrived(waiting, arrivals + [frame], more, old(queue.trace.popped))
    {
      var ok := queue.Push(frame);
      more := if ok then k + 1 else k;
      assert ok ==> (arrivals + [frame])[..k + 1] == arrivals[..k] + [frame];
      assert (arrivals + [frame])[..k] == arrivals[..k];
      Associative(waiting, arrivals[..k], [frame]);
    }

    /** The generator's pushes between two rounds. */
    method ArriveAll(arrivals: seq<Frame>) returns (ghost k: nat)
      requires queue.Valid() && queue.trace.consumer.Resting? && queue.trace.producer.Idle?
      modifies queue, queue.buffer
      ensures Arrived(old(queue.Contents()), arrivals, k, old(queue.trace.popped))
    {
      k := 0;
      ghost var waiting := queue.Contents();
      assert waiting + [] == waiting;
      for i := 0 to |arrivals|
        invariant Arrived(waiting, arrivals[..i], k, old(queue.trace.popped))
      {
        assert arrivals[..i + 1] == arrivals[..i] + [arrivals[i]];
        k := Arrive(waiting, arrivals[..i], k, arrivals[i]);
      }
      assert arrivals[..|arrivals|] == arrivals;
    }

    /** A round of the live loop, after some pushes of the generator. */
    method LiveRound(arrivals: seq<Frame>, ghost start: Record, ghost popped: seq<Frame>, ghost frames: seq<Frame>)
      returns (ghost k: nat)
      requires OnTheWay(start, popped, frames)
      modifies queue, queue.buffer, raceState
      ensures k <= |arrivals| && OnTheWay(start, popped, frames + arrivals[..k])
    {
      ghost var waiting, done := queue.Contents(), queue.trace.popped;
      k := ArriveAll(arrivals);
      ClaimAppend(roster, Held(), waiting, arrivals[..k]);
      ClaimAppend(roster, start, frames, arrivals[..k]);
      Associative(done, waiting, arrivals[..k]);
      Associative(popped, frames, arrivals[..k]);
      var _ := RoundKeeps(start, popped, frames + arrivals[..k]);
    }

    /** The second loop of `run`. */
    method DrainRing(ghost start: Record, ghost popped: seq<Frame>, ghost frames: seq<Frame>)
      requires OnTheWay(start, popped, frames)
      modifies queue, raceState
      ensures queue.Valid() && queue.Contents() == []
      ensures queue.trace.popped == popped + frames && Held() == ClaimAll(roster, start, frames)
    {
      var more := RoundKeeps(start, popped, frames);
      while more
        invariant OnTheWay(start, popped, frames)
        invariant !more ==> queue.Contents() == []
        decreases |queue.Contents()|, more
      {
        more := RoundKeeps(start, popped, frames);
      }
      assert queue.trace.popped + [] == queue.trace.popped;
    }

    /** `run`: the live loop goes round once for each batch of frames the generator pushes
        meanwhile, before it sees the stop request; then everything left is drained.  Of batch
        `i` the ring accepts the first `taken[i]` frames.  All that was in the ring or accepted
        is popped once, in order, and the record is that of all of it. */
    method Run(arrivals: seq<seq<Frame>>) returns (ghost taken: seq<nat>)
      requires queue.Valid() && queue.trace.consumer.Resting? && queue.trace.producer.Idle?
      modifies queue, queue.buffer, raceState
      ensures queue.Valid() && queue.Contents() == []
      ensures TakesPrefixes(arrivals, taken)
      ensures var all := old(queue.Contents()) + Taken(arrivals, taken);
              && queue.trace.popped == old(queue.trace.popped) + all
              && Held() == ClaimAll(roster, old(Held()), all)
    {
      ghost var start, popped, waiting := Held(), queue.trace.popped, queue.Contents();
      taken := [];
      assert waiting + Taken([], []) == waiting;
      for i := 0 to |arrivals|
        invariant TakesPrefixes(arrivals[..i], taken)
        invariant OnTheWay(start, popped, waiting + Taken(arrivals[..i], taken))
      {
        ghost var k := LiveRound(arrivals[i], start, popped, waiting + Taken(arrivals[..i], taken));
        TakenLast(arrivals[..i], taken, arrivals[i], k);
        Associative(waiting, Taken(arrivals[..i], taken), arrivals[i][..k]);
        assert arrivals[..i + 1] == arrivals[..i] + [arrivals[i]];
        taken := taken + [k];
      }
      assert arrivals[..|arrivals|] == arrivals;
      DrainRing(start, popped, waiting + Taken(arrivals, taken));
    }
  }
}
