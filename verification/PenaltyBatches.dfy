/** What handling track-limits events does, event by event and in batches, for every driver, and
    why it does not matter how the stream of events is cut into calls. */
module PenaltyBatches {
  import opened Common
  import opened Roster
  import opened PenaltyProtocol

  datatype Kind =
    | TRACK_LIMITS | PENALTY_ISSUED | PIT_ENTRY | PIT_EXIT
    | WEATHER_CHANGE | SAFETY_CAR | FASTEST_LAP | RADIO_MESSAGE

  datatype Event = Event(kind: Kind, driverId: string, lap: int)

  /** The three per-driver arrays. */
  datatype Book = Book(warnings: seq<int>, penalties: seq<Penalty>, extraPitTime: seq<int>)

  predicate Fits(roster: seq<string>, b: Book) {
    |b.warnings| == |b.penalties| == |b.extraPitTime| == |roster|
  }

  function Blank(roster: seq<string>): (b: Book)
    ensures Fits(roster, b)
  {
    Book(seq(|roster|, _ => 0), seq(|roster|, _ => NONE), seq(|roster|, _ => 0))
  }

  /** One event: the new book and the announcements it pushes. */
  function Handle(roster: seq<string>, b: Book, e: Event): (r: (Book, seq<Event>))
    requires Fits(roster, b)
    ensures Fits(roster, r.0) && forall a :: a in r.1 ==> a.kind == PENALTY_ISSUED
  {
    var i := IndexOf(roster, e.driverId);
    if e.kind != TRACK_LIMITS || i < 0 then (b, [])
    else
      var count := Wrap32(b.warnings[i] + 1);
      var c := b.(warnings := b.warnings[i := count]);
      if count == 3 && b.penalties[i] == NONE
      then (c.(penalties := c.penalties[i := PENDING], extraPitTime := c.extraPitTime[i := 3]),
            [Event(PENALTY_ISSUED, e.driverId, e.lap)])
      else (c, [])
  }

  function HandleAll(roster: seq<string>, b: Book, batch: seq<Event>): (r: (Book, seq<Event>))
    requires Fits(roster, b)
    ensures Fits(roster, r.0) && forall a :: a in r.1 ==> a.kind == PENALTY_ISSUED
  {
    if batch == [] then (b, [])
    else
      var front := HandleAll(roster, b, batch[..|batch| - 1]);
      var last := Handle(roster, front.0, batch[|batch| - 1]);
      (last.0, front.1 + last.1)
  }

  // ------------------------------------------------------------------ what it does to one driver

  /** The track-limits events of driver `i`. */
  function Warnings(roster: seq<string>, events: seq<Event>, i: nat): nat {
    if events == [] then 0
    else
      var e := events[|events| - 1];
      Warnings(roster, events[..|events| - 1], i)
      + if e.kind == TRACK_LIMITS && IndexOf(roster, e.driverId) == i then 1 else 0
  }

  /** The announcements for driver `i`. */
  function Announced(roster: seq<string>, events: seq<Event>, i: nat): nat {
    if events == [] then 0
    else
      var e := events[|events| - 1];
      Announced(roster, events[..|events| - 1], i)
      + if e.kind == PENALTY_ISSUED && IndexOf(roster, e.driverId) == i then 1 else 0
  }

  lemma {:induction false} AnnouncedAppend(roster: seq<string>, a: seq<Event>, b: seq<Event>, i: nat)
    ensures Announced(roster, a + b, i) == Announced(roster, a, i) + Announced(roster, b, i)
  {
    if b == [] {
      assert a + b == a;
    } else {
      assert (a + b)[..|a + b| - 1] == a + b[..|b| - 1];
      AnnouncedAppend(roster, a, b[..|b| - 1], i);
    }
  }

  ghost function BookOf(s: State): Book {
    Book(s.warnings, s.penalties, s.extraPitTime)
  }

  /** The counts of warnings after an event. */
  ghost function Counted(roster: seq<string>, total: seq<nat>, e: Event): seq<nat>
    requires |total| == |roster|
  {
    var i := IndexOf(roster, e.driverId);
    if e.kind != TRACK_LIMITS || i < 0 then total else total[i := total[i] + 1]
  }

  /** Handling one event is a run of the atomic accesses, undisturbed from idle to idle. */
  lemma HandleIsARun(roster: seq<string>, s: State, e: Event) returns (steps: seq<Step>)
    requires Inv(s) && s.at.Idle? && |s.warnings| == |roster|
    ensures Runs(s, steps) && Exec(s, steps).at.Idle?
    ensures Fits(roster, BookOf(s)) && BookOf(Exec(s, steps)) == Handle(roster, BookOf(s), e).0
    ensures Exec(s, steps).total == Counted(roster, s.total, e)
    ensures var announced := Handle(roster, BookOf(s), e).1;
            if announced == [] then Exec(s, steps).issued == s.issued
            else e.driverId in roster && announced == [Event(PENALTY_ISSUED, e.driverId, e.lap)]
                 && Exec(s, steps).issued == s.issued + [IndexOf(roster, e.driverId)]
  {
    var i := IndexOf(roster, e.driverId);
    if e.kind != TRACK_LIMITS || i < 0 {
      return [];
    }
    var a := Next(s, Warn(i));
    StepKeeps(s, Warn(i));
    if a.at.Idle? {
      steps := [Warn(i)];
      assert steps[1..] == [];
      return;
    }
    var b := Next(a, Cas);
    StepKeeps(a, Cas);
    if b.at.Idle? {
      steps := [Warn(i), Cas];
      assert steps[1..] == [Cas] && [Cas][1..] == [];
      return;
    }
    steps := [Warn(i), Cas, Push, Store];
    assert steps[1..] == [Cas, Push, Store] && [Cas, Push, Store][1..] == [Push, Store];
    assert [Push, Store][1..] == [Store] && [Store][1..] == [];
  }

  /** Some run of the atomic accesses handled exactly these events and pushed these announcements. */
  ghost predicate Handled(roster: seq<string>, s: State, events: seq<Event>, announcements: seq<Event>) {
    && Reachable(s) && s.at.Idle? && |s.warnings| == |s.total| == |roster|
    && forall i :: 0 <= i < |roster| ==>
         s.total[i] == Warnings(roster, events, i) && Times(s.issued, i) == Announced(roster, announcements, i)
  }

  lemma HandledOne(roster: seq<string>, s: State, events: seq<Event>, announcements: seq<Event>, e: Event)
    returns (t: State)
    requires Handled(roster, s, events, announcements)
    ensures Fits(roster, BookOf(s)) && BookOf(t) == Handle(roster, BookOf(s), e).0
    ensures Handled(roster, t, events + [e], announcements + Handle(roster, BookOf(s), e).1)
  {
    ReachableInv(s);
    var steps := HandleIsARun(roster, s, e);
    ReachableRun(s, steps);
    t := Exec(s, steps);
    var announced := Handle(roster, BookOf(s), e).1;
    forall i | 0 <= i < |roster|
      ensures t.total[i] == Warnings(roster, events + [e], i)
      ensures Times(t.issued, i) == Announced(roster, announcements + announced, i)
    {
      assert (events + [e])[..|events|] == events;
      AnnouncedAppend(roster, announcements, announced, i);
      if announced != [] {
        TimesAppend(s.issued, IndexOf(roster, e.driverId), i);
        assert announced[..0] == [];
      }
    }
  }

  /** Handling any events, one after the other, from the blank book is a run of the atomic accesses. */
  lemma {:induction false} HandleAllIsARun(roster: seq<string>, events: seq<Event>) returns (s: State)
    ensures var r := HandleAll(roster, Blank(roster), events);
            BookOf(s) == r.0 && Handled(roster, s, events, r.1)
  {
    if events == [] {
      s := Init(|roster|);
      ReachableInit(|roster|);
    } else {
      var front := events[..|events| - 1];
      var m := HandleAllIsARun(roster, front);
      s := HandledOne(roster, m, front, HandleAll(roster, Blank(roster), front).1, events[|events| - 1]);
      assert events == front + [events[|events| - 1]];
    }
  }

  /** What handling any events does to driver `i`: penalised, announced once and given extra
      time exactly from the third track-limits event on. */
  lemma PenalisedFromTheThird(roster: seq<string>, events: seq<Event>, i: nat)
    requires i < |roster|
    ensures var r := HandleAll(roster, Blank(roster), events);
            var n := Warnings(roster, events, i);
            && (r.0.penalties[i] != NONE <==> n >= 3)
            && Announced(roster, r.1, i) == (if n >= 3 then 1 else 0)
            && r.0.extraPitTime[i] == (if n >= 3 then 3 else 0)
            && (r.0.warnings[i] == n <==> n < 0x8000_0000)
  {
    var s := HandleAllIsARun(roster, events);
    PenalisedIffThreeWarnings(s, i);
    CounterIsExactIff(s, i);
  }

  // ------------------------------------------------------------------ batches

  /** The track-limits events, in order. */
  function Track(events: seq<Event>): seq<Event> {
    if events == [] then []
    else
      Track(events[..|events| - 1])
      + if events[|events| - 1].kind == TRACK_LIMITS then [events[|events| - 1]] else []
  }

  lemma {:induction false} TrackAppend(a: seq<Event>, b: seq<Event>)
    ensures Track(a + b) == Track(a) + Track(b)
  {
    if b == [] {
      assert a + b == a;
    } else {
      assert (a + b)[..|a + b| - 1] == a + b[..|b| - 1];
      TrackAppend(a, b[..|b| - 1]);
    }
  }

  lemma TrackOne(e: Event)
    ensures Track([e]) == if e.kind == TRACK_LIMITS then [e] else []
  {
    assert [e][..0] == [];
  }

  lemma {:induction false} WarningsOfTrack(roster: seq<string>, events: seq<Event>, i: nat)
    ensures Warnings(roster, Track(events), i) == Warnings(roster, events, i)
  {
    if events != [] {
      var front, e := events[..|events| - 1], events[|events| - 1];
      WarningsOfTrack(roster, front, i);
      if e.kind == TRACK_LIMITS {
        assert Track(events)[..|Track(events)| - 1] == Track(front);
      } else {
        assert Track(events) == Track(front);
      }
    }
  }

  lemma {:induction false} HandleAllAppend(roster: seq<string>, b: Book, x: seq<Event>, y: seq<Event>)
    requires Fits(roster, b)
    ensures var first := HandleAll(roster, b, x);
            var second := HandleAll(roster, first.0, y);
            HandleAll(roster, b, x + y) == (second.0, first.1 + second.1)
  {
    if y == [] {
      var first := HandleAll(roster, b, x);
      assert x + y == x && first.1 + [] == first.1;
    } else {
      var z := y[..|y| - 1];
      assert (x + y)[..|x + y| - 1] == x + z && (x + y)[|x + y| - 1] == y[|y| - 1];
      HandleAllAppend(roster, b, x, z);
      var first := HandleAll(roster, b, x);
      var second := HandleAll(roster, first.0, z);
      Associative(first.1, second.1, Handle(roster, second.0, y[|y| - 1]).1);
    }
  }

  /** Only track-limits events matter. */
  lemma {:induction false} HandleAllIsOfTrack(roster: seq<string>, b: Book, batch: seq<Event>)
    requires Fits(roster, b)
    ensures HandleAll(roster, b, batch) == HandleAll(roster, b, Track(batch))
  {
    if batch != [] {
      var front, e := batch[..|batch| - 1], batch[|batch| - 1];
      HandleAllIsOfTrack(roster, b, front);
      if e.kind == TRACK_LIMITS {
        assert Track(batch)[..|Track(batch)| - 1] == Track(front);
      } else {
        assert Track(batch) == Track(front);
        var done := HandleAll(roster, b, front);
        assert Handle(roster, done.0, e).1 == [] && done.1 + [] == done.1;
      }
    }
  }

  lemma HandleAllOneMore(roster: seq<string>, b: Book, batch: seq<Event>, i: nat, rest: seq<Event>)
    requires Fits(roster, b) && i < |batch|
    ensures var done := HandleAll(roster, b, batch[..i]);
            var one := Handle(roster, done.0, batch[i]);
            && HandleAll(roster, b, batch[..i + 1]) == (one.0, done.1 + one.1)
            && (rest + done.1) + one.1 == rest + (done.1 + one.1)
  {
    assert batch[..i + 1][..i] == batch[..i];
  }

  /** The counts of warnings after a batch: each driver's grows by the driver's track-limits events. */
  ghost function CountedAll(roster: seq<string>, total: seq<nat>, batch: seq<Event>): (r: seq<nat>)
    requires |total| == |roster|
    ensures |r| == |roster|
  {
    seq(|roster|, i requires 0 <= i < |roster| => total[i] + Warnings(roster, batch, i))
  }

  lemma CountedOneMore(roster: seq<string>, total: seq<nat>, batch: seq<Event>, i: nat)
    requires |total| == |roster| && i < |batch|
    ensures CountedAll(roster, total, batch[..i + 1])
            == Counted(roster, CountedAll(roster, total, batch[..i]), batch[i])
  {
    assert batch[..i + 1][..i] == batch[..i];
  }

  // ------------------------------------------------------------------ pit calls

  datatype PitCall = Enters(driverId: string) | Leaves(driverId: string)

  /** `driver_entered_pits` and `driver_exited_pits` */
  function Pit(roster: seq<string>, b: Book, call: PitCall): (r: Book)
    requires Fits(roster, b)
    ensures Fits(roster, r)
  {
    var i := IndexOf(roster, call.driverId);
    if i < 0 then b
    else if call.Enters? && b.penalties[i] == PENDING then b.(penalties := b.penalties[i := SERVING])
    else if call.Leaves? && b.penalties[i] == SERVING then b.(penalties := b.penalties[i := SERVED])
    else b
  }

  /** Entering turns a pending penalty of the driver into one being served, leaving turns that
      into a served one; nothing else changes, and nothing at all for an unknown driver. */
  lemma PitMeans(roster: seq<string>, b: Book, id: string, j: nat)
    requires Fits(roster, b) && j < |roster|
    ensures Pit(roster, b, Enters(id)).penalties[j]
            == if IndexOf(roster, id) == j && b.penalties[j] == PENDING then SERVING else b.penalties[j]
    ensures Pit(roster, b, Leaves(id)).penalties[j]
            == if IndexOf(roster, id) == j && b.penalties[j] == SERVING then SERVED else b.penalties[j]
    ensures Pit(roster, b, Enters(id)) == b.(penalties := Pit(roster, b, Enters(id)).penalties)
    ensures Pit(roster, b, Leaves(id)) == b.(penalties := Pit(roster, b, Leaves(id)).penalties)
  {
  }

  /** The same except for how far the penalties have been served. */
  ghost predicate SameButServed(b: Book, c: Book) {
    && b.warnings == c.warnings && b.extraPitTime == c.extraPitTime && |b.penalties| == |c.penalties|
    && forall i :: 0 <= i < |b.penalties| ==> (b.penalties[i] == NONE <==> c.penalties[i] == NONE)
  }

  /** Handling does not look at how far penalties have been served. */
  lemma HandleSame(roster: seq<string>, b: Book, c: Book, e: Event)
    requires Fits(roster, b) && Fits(roster, c) && SameButServed(b, c)
    ensures SameButServed(Handle(roster, b, e).0, Handle(roster, c, e).0)
    ensures Handle(roster, b, e).1 == Handle(roster, c, e).1
  {
  }

  // ------------------------------------------------------------------ the stream

  datatype Phase = Outside | Popping | Handling

  /** A stream of events being processed, and where the processing thread stands: `queue` waits,
      `batch` was popped by the current call and waits to be handled, `outbox` was announced and
      is not pushed yet.  The last four fields are history. */
  datatype Stream = Stream(
    phase: Phase,
    book: Book, queue: seq<Event>, batch: seq<Event>, outbox: seq<Event>,
    pushed: seq<Event>, handled: seq<Event>, issued: seq<Event>, pitCalls: nat)

  datatype Act =
    | External(e: Event)  // another thread pushes
    | PitStop(p: PitCall) // another thread calls
    | Begin               // `process_events` is called
    | PopOne
    | PopNothing          // the end of the queue, or a producer that is still pushing
    | HandleNext
    | Announce            // pushes the announcement of the event just handled
    | Return

  ghost function Start(roster: seq<string>): Stream {
    Stream(Outside, Blank(roster), [], [], [], [], [], [], 0)
  }

  ghost predicate Possible(s: Stream, act: Act) {
    match act
    case External(_) => true
    case PitStop(_) => true
    case Begin => s.phase.Outside?
    case PopOne => s.phase.Popping? && s.queue != []
    case PopNothing => s.phase.Popping?
    case HandleNext => s.phase.Handling? && s.outbox == [] && s.batch != []
    case Announce => s.outbox != []
    case Return => s.phase.Handling? && s.outbox == [] && s.batch == []
  }

  ghost function After(roster: seq<string>, s: Stream, act: Act): Stream
    requires Fits(roster, s.book) && Possible(s, act)
  {
    match act
    case External(e) => s.(queue := s.queue + [e], pushed := s.pushed + [e])
    case PitStop(p) => s.(book := Pit(roster, s.book, p), pitCalls := s.pitCalls + 1)
    case Begin => s.(phase := Popping)
    case PopOne => s.(queue := s.queue[1..], batch := s.batch + [s.queue[0]])
    case PopNothing => s.(phase := Handling)
    case HandleNext =>
      var r := Handle(roster, s.book, s.batch[0]);
      s.(book := r.0, batch := s.batch[1..], outbox := r.1,
         handled := s.handled + [s.batch[0]], issued := s.issued + r.1)
    case Announce => s.(queue := s.queue + [s.outbox[0]], outbox := s.outbox[1..])
    case Return => s.(phase := Outside)
  }

  /** The track-limits events handled, popped and waiting, one after the other. */
  ghost function InOrder(s: Stream): seq<Event> {
    Track(s.handled) + (Track(s.batch) + Track(s.queue))
  }

  ghost predicate BookIsOf(roster: seq<string>, s: Stream) {
    var r := HandleAll(roster, Blank(roster), s.handled);
    && Fits(roster, s.book) && SameButServed(s.book, r.0) && s.issued == r.1
    && (s.pitCalls == 0 ==> s.book == r.0)
  }

  ghost predicate StreamOk(roster: seq<string>, s: Stream) {
    && BookIsOf(roster, s) && InOrder(s) == Track(s.pushed)
    && (forall a :: a in s.outbox ==> a.kind == PENALTY_ISSUED)
  }

  lemma BookKeeps(roster: seq<string>, s: Stream, act: Act)
    requires BookIsOf(roster, s) && Possible(s, act)
    ensures BookIsOf(roster, After(roster, s, act))
  {
    if act.HandleNext? {
      var e := s.batch[0];
      assert (s.handled + [e])[..|s.handled|] == s.handled;
      HandleSame(roster, s.book, HandleAll(roster, Blank(roster), s.handled).0, e);
    }
  }

  lemma ExternalKeepsOrder(roster: seq<string>, s: Stream, e: Event)
    requires Fits(roster, s.book) && InOrder(s) == Track(s.pushed)
    ensures InOrder(After(roster, s, External(e))) == Track(s.pushed + [e])
  {
    TrackAppend(s.queue, [e]);
    TrackAppend(s.pushed, [e]);
    Associative(Track(s.batch), Track(s.queue), Track([e]));
    Associative(Track(s.handled), Track(s.batch) + Track(s.queue), Track([e]));
  }

  lemma PopKeepsOrder(roster: seq<string>, s: Stream)
    requires Fits(roster, s.book) && Possible(s, PopOne)
    ensures InOrder(After(roster, s, PopOne)) == InOrder(s)
  {
    var e := s.queue[0];
    assert s.queue == [e] + s.queue[1..];
    TrackAppend([e], s.queue[1..]);
    TrackAppend(s.batch, [e]);
    Associative(Track(s.batch), Track([e]), Track(s.queue[1..]));
  }

  lemma HandleKeepsOrder(roster: seq<string>, s: Stream)
    requires Fits(roster, s.book) && Possible(s, HandleNext)
    ensures InOrder(After(roster, s, HandleNext)) == InOrder(s)
  {
    var e := s.batch[0];
    assert s.batch == [e] + s.batch[1..];
    TrackAppend([e], s.batch[1..]);
    TrackAppend(s.handled, [e]);
    Associative(Track([e]), Track(s.batch[1..]), Track(s.queue));
    Associative(Track(s.handled), Track([e]), Track(s.batch[1..]) + Track(s.queue));
  }

  lemma AnnounceKeepsOrder(roster: seq<string>, s: Stream)
    requires Fits(roster, s.book) && Possible(s, Announce) && s.outbox[0].kind == PENALTY_ISSUED
    ensures InOrder(After(roster, s, Announce)) == InOrder(s)
  {
    TrackAppend(s.queue, [s.outbox[0]]);
    TrackOne(s.outbox[0]);
    assert Track(s.queue) + [] == Track(s.queue);
  }

  lemma ActKeeps(roster: seq<string>, s: Stream, act: Act)
    requires StreamOk(roster, s) && Possible(s, act)
    ensures StreamOk(roster, After(roster, s, act))
  {
    BookKeeps(roster, s, act);
    match act
    case External(e) => ExternalKeepsOrder(roster, s, e);
    case PopOne => PopKeepsOrder(roster, s);
    case HandleNext => HandleKeepsOrder(roster, s);
    case Announce => AnnounceKeepsOrder(roster, s);
    case _ =>
  }

  /** The stream follows from the start by the acts. */
  ghost function Play(roster: seq<string>, acts: seq<Act>): Outcome<Stream>
    ensures Play(roster, acts).Running? ==> Fits(roster, Play(roster, acts).state.book)
  {
    if acts == [] then Running(Start(roster))
    else
      match Play(roster, acts[..|acts| - 1])
      case Running(s) =>
        if Possible(s, acts[|acts| - 1]) then Running(After(roster, s, acts[|acts| - 1])) else Stuck
      case _ => Stuck
  }

  lemma {:induction false} PlayKeeps(roster: seq<string>, acts: seq<Act>)
    requires Play(roster, acts).Running?
    ensures StreamOk(roster, Play(roster, acts).state)
  {
    if acts != [] {
      PlayKeeps(roster, acts[..|acts| - 1]);
      ActKeeps(roster, Play(roster, acts[..|acts| - 1]).state, acts[|acts| - 1]);
    }
  }

  /** Every track-limits event that was pushed has been handled. */
  ghost predicate NoneWaits(s: Stream) { Track(s.batch) == [] && Track(s.queue) == [] }

  lemma HandledIsPushed(roster: seq<string>, s: Stream)
    requires StreamOk(roster, s) && NoneWaits(s)
    ensures Track(s.handled) == Track(s.pushed)
  {
    assert Track(s.handled) + ([] + []) == Track(s.handled);
  }

  /** However the stream was cut into calls, and whatever other threads pushed or called between
      any two steps: once no track-limits event is waiting, warnings, extra times, announcements
      and who is penalised are those of handling the pushed track-limits events in one go, and
      without pit calls so are the penalties. */
  lemma BatchesDoNotMatter(roster: seq<string>, acts: seq<Act>)
    requires Play(roster, acts).Running? && NoneWaits(Play(roster, acts).state)
    ensures var s := Play(roster, acts).state;
            var r := HandleAll(roster, Blank(roster), Track(s.pushed));
            && SameButServed(s.book, r.0) && s.issued == r.1
            && (s.pitCalls == 0 ==> s.book == r.0)
  {
    PlayKeeps(roster, acts);
    var s := Play(roster, acts).state;
    HandledIsPushed(roster, s);
    HandleAllIsOfTrack(roster, Blank(roster), s.handled);
  }

  /** Two ways of processing the same track-limits events, in whatever batches and among
      whatever other events and calls, end alike. */
  lemma SameTrackEventsEndAlike(roster: seq<string>, acts: seq<Act>, others: seq<Act>)
    requires Play(roster, acts).Running? && NoneWaits(Play(roster, acts).state)
    requires Play(roster, others).Running? && NoneWaits(Play(roster, others).state)
    requires Track(Play(roster, acts).state.pushed) == Track(Play(roster, others).state.pushed)
    ensures SameButServed(Play(roster, acts).state.book, Play(roster, others).state.book)
    ensures Play(roster, acts).state.issued == Play(roster, others).state.issued
    ensures Play(roster, acts).state.pitCalls == 0 && Play(roster, others).state.pitCalls == 0 ==>
              Play(roster, acts).state.book == Play(roster, others).state.book
  {
    BatchesDoNotMatter(roster, acts);
    BatchesDoNotMatter(roster, others);
  }

  /** So in every stream, once none waits, a driver is penalised, announced once and given extra
      time exactly if at least three track-limits events of the driver were pushed. */
  lemma EveryStreamPenalisesOnce(roster: seq<string>, acts: seq<Act>, i: nat)
    requires Play(roster, acts).Running? && NoneWaits(Play(roster, acts).state) && i < |roster|
    ensures var s := Play(roster, acts).state;
            var n := Warnings(roster, s.pushed, i);
            && Fits(roster, s.book)
            && (s.book.penalties[i] != NONE <==> n >= 3)
            && Announced(roster, s.issued, i) == (if n >= 3 then 1 else 0)
            && s.book.extraPitTime[i] == (if n >= 3 then 3 else 0)
  {
    BatchesDoNotMatter(roster, acts);
    var s := Play(roster, acts).state;
    PenalisedFromTheThird(roster, Track(s.pushed), i);
    WarningsOfTrack(roster, s.pushed, i);
  }
}
