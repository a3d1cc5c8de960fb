/** The enforcer object on top of the linked queue. */
module PenaltyEnforcer {
  import opened Common
  import opened Roster
  import opened PenaltyProtocol
  import opened PenaltyBatches
  import MpscQueue

  class PenaltyEnforcer {
    const roster: seq<string>
    const events: MpscQueue.MpscQueue<Event>
    const warnings: array<int>
    const penalties: array<Penalty>
    const extraPitTime: array<int>

    ghost var trace: State

    ghost function Held(): Book
      reads this, warnings, penalties, extraPitTime
    {
      Book(warnings[..], penalties[..], extraPitTime[..])
    }

    /** The arrays are what some schedule of the protocol, with pit calls between any two accesses
        and nobody processing now, leaves in them. */
    ghost predicate Valid()
      reads this, events, warnings, penalties, extraPitTime
    {
      && events.Valid() && warnings != extraPitTime && Fits(roster, Held())
      && Reachable(trace) && trace.at.Idle? && BookOf(trace) == Held() && |trace.total| == |roster|
    }

    constructor (roster: seq<string>, events: MpscQueue.MpscQueue<Event>)
      requires events.Valid()
      ensures Valid() && this.roster == roster && this.events == events
      ensures fresh(warnings) && fresh(penalties) && fresh(extraPitTime)
      ensures Held() == Blank(roster) && trace == Init(|roster|)
    {
      this.roster, this.events := roster, events;
      warnings := new int[|roster|](_ => 0);
      penalties := new Penalty[|roster|](_ => NONE);
      extraPitTime := new int[|roster|](_ => 0);
      trace := Init(|roster|);
      new;
      ReachableInit(|roster|);
    }

    /** The first loop: pops until `pop` finds nothing. */
    method TakeBatch() returns (batch: seq<Event>)
      requires Valid()
      modifies events
      ensures Valid() && events.trace.pushing == old(events.trace.pushing)
      ensures trace == old(trace)
      ensures batch + events.Contents() == old(events.Contents())
      ensures events.Contents() == [] || MpscQueue.FirstIsPaused(events.trace)
    {
      batch := [];
      ghost var goal := events.Contents();
      ghost var pushing := events.trace.pushing;
      var ev := events.Pop();
      while ev.Some?
        invariant Valid() && events.trace.pushing == pushing
        invariant (if ev.Some? then batch + [ev.value] else batch) + events.Contents() == goal
        invariant ev.None? ==> events.Contents() == [] || MpscQueue.FirstIsPaused(events.trace)
        decreases |events.Contents()|, ev.Some?
      {
        batch := batch + [ev.value];
        ghost var rest := events.Contents();
        ev := events.Pop();
        if ev.Some? { FrontMoves(batch, rest); }
      }
    }

    /** Lets the protocol handle the event in the background of the arrays. */
    ghost method Record(e: Event)
      requires Reachable(trace) && trace.at.Idle? && |trace.total| == |roster| && Fits(roster, BookOf(trace))
      modifies this`trace
      ensures Reachable(trace) && trace.at.Idle? && |trace.total| == |roster|
      ensures BookOf(trace) == Handle(roster, old(BookOf(trace)), e).0
      ensures trace.total == Counted(roster, old(trace.total), e)
    {
      ReachableInv(trace);
      var steps := HandleIsARun(roster, trace, e);
      ReachableRun(trace, steps);
      trace := Exec(trace, steps);
    }

    /** The compare-and-swap at the third warning and what follows it. */
    method Issue(ghost me: nat, idx: nat, e: Event)
      requires events.Valid() && me !in events.trace.pushing
      requires idx < penalties.Length && idx < extraPitTime.Length
      modifies events, penalties, extraPitTime
      ensures events.Valid() && events.trace.pushing == old(events.trace.pushing)
      ensures if old(penalties[idx]) == NONE
              then penalties[..] == old(penalties[..])[idx := PENDING]
                   && extraPitTime[..] == old(extraPitTime[..])[idx := 3]
                   && events.Contents() == old(events.Contents()) + [Event(PENALTY_ISSUED, e.driverId, e.lap)]
              else penalties[..] == old(penalties[..]) && extraPitTime[..] == old(extraPitTime[..])
                   && events.Contents() == old(events.Contents())
    {
      if penalties[idx] == NONE {
        penalties[idx] := PENDING;
        var a := events.FreeAddress();
        events.Push(me, Event(PENALTY_ISSUED, e.driverId, e.lap), a);
        extraPitTime[idx] := 3;
      }
    }

    /** The body of the second loop. */
    method HandleOne(ghost me: nat, e: Event)
      requires Valid() && me !in events.trace.pushing
      modifies this`trace, events, warnings, penalties, extraPitTime
      ensures Valid() && events.trace.pushing == old(events.trace.pushing)
      ensures Held() == Handle(roster, old(Held()), e).0
      ensures events.Contents() == old(events.Contents()) + Handle(roster, old(Held()), e).1
      ensures trace.total == Counted(roster, old(trace.total), e)
    {
      Record(e);
      if e.kind != TRACK_LIMITS { return; }
      var idx := DriverIndex(roster, e.driverId);
      if idx < 0 { return; }
      warnings[idx] := Wrap32(warnings[idx] + 1);
      if warnings[idx] == 3 { Issue(me, idx, e); }
    }

    /** From what the book, the queue and the counts were at the start the events `done` were handled. */
    ghost predicate HasHandled(done: seq<Event>, start: Book, rest: seq<Event>, total: seq<nat>)
      reads this, events, warnings, penalties, extraPitTime
    {
      && Valid() && Fits(roster, start) && |total| == |roster|
      && Held() == HandleAll(roster, start, done).0
      && events.Contents() == rest + HandleAll(roster, start, done).1
      && trace.total == CountedAll(roster, total, done)
    }

    /** One round of the second loop. */
    method HandleNextOne(ghost me: nat, batch: seq<Event>, i: nat,
                         ghost start: Book, ghost rest: seq<Event>, ghost total: seq<nat>)
      requires me !in events.trace.pushing && i < |batch| && HasHandled(batch[..i], start, rest, total)
      modifies this`trace, events, warnings, penalties, extraPitTime
      ensures events.trace.pushing == old(events.trace.pushing)
      ensures HasHandled(batch[..i + 1], start, rest, total)
    {
      HandleAllOneMore(roster, start, batch, i, rest);
      CountedOneMore(roster, total, batch, i);
      HandleOne(me, batch[i]);
    }

    /** The second loop. */
    method HandleBatch(ghost me: nat, batch: seq<Event>)
      requires Valid() && me !in events.trace.pushing
      modifies this`trace, events, warnings, penalties, extraPitTime
      ensures Valid() && events.trace.pushing == old(events.trace.pushing)
      ensures HasHandled(batch, old(Held()), old(events.Contents()), old(trace.total))
    {
      ghost var start, rest, total := Held(), events.Contents(), trace.total;
      assert CountedAll(roster, total, batch[..0]) == total;
      for i := 0 to |batch|
        invariant events.trace.pushing == old(events.trace.pushing)
        invariant HasHandled(batch[..i], start, rest, total)
      {
        HandleNextOne(me, batch, i, start, rest, total);
      }
      assert batch[..|batch|] == batch;
    }

    /** Handles what was queued when it was called, up to the first event whose producer is
        still pushing it, and leaves its own announcements behind whatever else is queued. */
    method ProcessEvents(ghost me: nat) returns (batch: seq<Event>)
      requires Valid() && me !in events.trace.pushing
      modifies this`trace, events, warnings, penalties, extraPitTime
      ensures Valid() && events.trace.pushing == old(events.trace.pushing)
      ensures batch <= old(events.Contents())
      ensures Held() == HandleAll(roster, old(Held()), batch).0
      ensures events.Contents() == old(events.Contents())[|batch|..] + HandleAll(roster, old(Held()), batch).1
      ensures old(events.trace.pushing) == map[] ==> batch == old(events.Contents())
      ensures trace.total == CountedAll(roster, old(trace.total), batch)
    {
      ghost var before := events.Contents();
      batch := TakeBatch();
      assert events.Contents() == before[|batch|..];
      HandleBatch(me, batch);
    }

    /** `driver_entered_pits`: a pending penalty of the driver is being served from now on, every
        other penalty and everything else stays as it is. */
    method DriverEnteredPits(id: string)
      requires Valid()
      modifies this`trace, penalties
      ensures Valid() && trace.total == old(trace.total) && Held() == Pit(roster, old(Held()), Enters(id))
      ensures forall j :: 0 <= j < penalties.Length ==>
                penalties[j] == if IndexOf(roster, id) == j && old(penalties[j]) == PENDING then SERVING
                                else old(penalties[j])
    {
      var idx := DriverIndex(roster, id);
      if idx < 0 { return; }
      ReachableStep(trace, EnterPits(idx));
      trace := Next(trace, EnterPits(idx));
      if penalties[idx] == PENDING { penalties[idx] := SERVING; }
    }

    /** `driver_exited_pits`: a penalty of the driver that is being served is served from now on,
        every other penalty and everything else stays as it is. */
    method DriverExitedPits(id: string)
      requires Valid()
      modifies this`trace, penalties
      ensures Valid() && trace.total == old(trace.total) && Held() == Pit(roster, old(Held()), Leaves(id))
      ensures forall j :: 0 <= j < penalties.Length ==>
                penalties[j] == if IndexOf(roster, id) == j && old(penalties[j]) == SERVING then SERVED
                                else old(penalties[j])
    {
      var idx := DriverIndex(roster, id);
      if idx < 0 { return; }
      ReachableStep(trace, ExitPits(idx));
      trace := Next(trace, ExitPits(idx));
      if penalties[idx] == SERVING { penalties[idx] := SERVED; }
    }

    /** `penalty_state`: not NONE exactly when at least three warnings of the driver were counted. */
    method PenaltyState(id: string) returns (p: Penalty)
      requires Valid()
      ensures p == if id in roster then Held().penalties[IndexOf(roster, id)] else NONE
      ensures p != NONE <==> id in roster && trace.total[IndexOf(roster, id)] >= 3
    {
      var idx := DriverIndex(roster, id);
      p := if idx < 0 then NONE else penalties[idx];
      if idx >= 0 { PenalisedIffThreeWarnings(trace, idx); }
    }

    /** `warning_count`: the warnings counted for the driver, exactly when there were fewer than 2^31. */
    method WarningCount(id: string) returns (n: int)
      requires Valid()
      ensures n == if id in roster then Held().warnings[IndexOf(roster, id)] else 0
      ensures id in roster ==>
                (n == trace.total[IndexOf(roster, id)] <==> trace.total[IndexOf(roster, id)] < 0x8000_0000)
    {
      var idx := DriverIndex(roster, id);
      n := if idx < 0 then 0 else warnings[idx];
      if idx >= 0 { CounterIsExactIff(trace, idx); }
    }
  }
}
