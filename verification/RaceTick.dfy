/** A whole tick: the generator moves and ranks the cars and then runs its callback on them. */
module RaceTick {
  import opened Common
  import opened RaceTypes
  import opened Ranking
  import TelemetryGenerator
  import TickCallback

  /** Entry `k` is the driver ranked at place `k`, at position `k + 1`. */
  ghost predicate Published(states: seq<DriverState>, order: seq<nat>, standings: seq<DriverState>) {
    && |standings| == |states| == |order|
    && forall k :: 0 <= k < |standings| ==>
         order[k] < |states| && standings[k] == states[order[k]] && standings[k].position == k + 1
  }

  lemma AllPublished(before: seq<DriverState>, after: seq<DriverState>, length: real, order: seq<nat>,
                     standings: seq<DriverState>, perm: seq<nat>)
    requires Ranked(before, after, length, order) && SortedByPosition(after, standings, perm)
    ensures Published(after, order, standings)
  {
    forall k | 0 <= k < |after| ensures standings[k] == after[order[k]] && standings[k].position == k + 1 {
      ResortIsUnique(before, after, length, order, standings, perm, k);
    }
  }

  class RaceTick {
    const generator: TelemetryGenerator.TelemetryGenerator
    const callback: TickCallback.TickCallback

    constructor (generator: TelemetryGenerator.TelemetryGenerator, callback: TickCallback.TickCallback)
      ensures this.generator == generator && this.callback == callback
    {
      this.generator, this.callback := generator, callback;
    }

    ghost predicate Valid()
      reads this, generator, generator.queue, generator.queue.buffer
      reads callback, callback.pool, callback.enforcer, callback.enforcer.events
      reads callback.enforcer.warnings, callback.enforcer.penalties, callback.enforcer.extraPitTime
    {
      generator.Valid() && callback.Valid() && !callback.pool.stop
    }

    /** The callback on the cars as they are ranked. */
    method RunCallback(thread: nat, ghost before: seq<DriverState>, ghost order: seq<nat>, ghost me: nat)
      returns (ok: bool)
      requires Valid() && me !in callback.enforcer.events.trace.pushing
      requires Ranked(before, generator.states, generator.track.lengthKm, order)
      modifies callback, callback.board, callback.pool, callback.enforcer`trace, callback.enforcer.events
      modifies callback.enforcer.warnings, callback.enforcer.penalties, callback.enforcer.extraPitTime
      ensures Valid()
      ensures ok <==> old(callback.board.writer).None? || old(callback.board.writer) == Some(thread)
      ensures !ok ==> callback.board.standings == old(callback.board.standings)
      ensures ok ==> Published(generator.states, order, callback.board.standings) && callback.lap == generator.raceLap
    {
      ghost var perm;
      var batch;
      ok, perm, batch := callback.OnTick(thread, generator.states, generator.raceLap, me);
      if ok {
        AllPublished(before, generator.states, generator.track.lengthKm, order, callback.board.standings, perm);
      }
    }

    /** After a tick entry `k` of the published standings is the driver ranked at place `k`, with
        position `k + 1`, and the published lap is the race lap; `false` stands for the exception
        of a leaderboard that another thread owns, which changes nothing on it. */
    method Tick(thread: nat, draws: seq<real>, nows: seq<real>, ghost me: nat) returns (ok: bool, ghost order: seq<nat>)
      requires Valid() && me !in callback.enforcer.events.trace.pushing
      requires |draws| == |nows| == |generator.states|
      requires forall i :: 0 <= i < |generator.states| ==> nows[i] > generator.states[i].lapStart
      modifies generator, generator.queue, generator.queue.buffer
      modifies callback, callback.board, callback.pool, callback.enforcer`trace, callback.enforcer.events
      modifies callback.enforcer.warnings, callback.enforcer.penalties, callback.enforcer.extraPitTime
      ensures Valid()
      ensures ok <==> old(callback.board.writer).None? || old(callback.board.writer) == Some(thread)
      ensures !ok ==> callback.board.standings == old(callback.board.standings)
      ensures Ranked(TelemetryGenerator.Moved(generator.track, old(generator.states), draws, nows),
                     generator.states, generator.track.lengthKm, order)
      ensures ok ==> Published(generator.states, order, callback.board.standings) && callback.lap == generator.raceLap
    {
      ghost var moved := TelemetryGenerator.Moved(generator.track, generator.states, draws, nows);
      ghost var taken;
      order, taken := generator.Tick(draws, nows);
      ok := RunCallback(thread, moved, order, me);
    }
  }
}
