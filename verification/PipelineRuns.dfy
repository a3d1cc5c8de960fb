/** Runs of the pipeline: whatever frames the generator pushes, there is a run in which the ring
    accepts all of them and the consumer exits. */
module PipelineRuns {
  import opened Common
  import opened RaceTypes
  import opened BitMask
  import Ring = SpscProtocol
  import opened LapPipeline

  lemma {:induction false} ExecAppend(roster: seq<string>, s: State, a: seq<Step>, b: seq<Step>)
    requires Exec(roster, s, a).Running?
    ensures Exec(roster, s, a + b) == Exec(roster, Exec(roster, s, a).state, b)
  {
    if b == [] {
      assert a + b == a;
    } else {
      assert (a + b)[..|a + b| - 1] == a + b[..|b| - 1];
      ExecAppend(roster, s, a, b[..|b| - 1]);
    }
  }

  /** Some run leads from one state to the other. */
  ghost predicate Leads(roster: seq<string>, s: State, t: State) {
    exists steps :: Exec(roster, s, steps) == Running(t)
  }

  lemma Stay(roster: seq<string>, s: State)
    ensures Leads(roster, s, s)
  {
    assert Exec(roster, s, []) == Running(s);
  }

  lemma Join(roster: seq<string>, s: State, m: State, t: State)
    requires Leads(roster, s, m) && Leads(roster, m, t)
    ensures Leads(roster, s, t)
  {
    var a :| Exec(roster, s, a) == Running(m);
    var b :| Exec(roster, m, b) == Running(t);
    ExecAppend(roster, s, a, b);
  }

  lemma Go(roster: seq<string>, initial: real, s: State, m: State, step: Step) returns (t: State)
    requires Leads(roster, s, m) && Inv(roster, initial, m) && Enabled(m, step)
    ensures Leads(roster, s, t) && Inv(roster, initial, t) && Running(t) == Next(roster, m, step)
  {
    StepKeeps(roster, initial, m, step);
    t := Next(roster, m, step).state;
    var steps :| Exec(roster, s, steps) == Running(m);
    assert (steps + [step])[..|steps|] == steps;
    assert Exec(roster, s, steps + [step]) == Running(t);
  }

  /** The live loop is about to poll an empty ring and the generator is between two pushes. */
  ghost predicate Settled(roster: seq<string>, initial: real, s: State) {
    && Inv(roster, initial, s) && s.mode.Live? && s.at.LoopHead?
    && !s.generatorStopped && !s.stopRequested && s.ring.producer.Idle?
    && s.ring.popped == s.ring.sent
  }

  /** The test of a push on an empty ring. */
  lemma BeginPush(roster: seq<string>, initial: real, s: State, f: Frame) returns (t: State)
    requires Settled(roster, initial, s)
    ensures Leads(roster, s, t) && Inv(roster, initial, t)
    ensures t == s.(ring := s.ring.(producer := Ring.Writing(f),
                                         headCache := t.ring.headCache, headSeen := t.ring.headSeen))
  {
    Stay(roster, s);
    Ring.FullTest(s.ring, s.ring.headSeen);
    t := Go(roster, initial, s, s, Producer(Ring.PushCall(f)));
    if t.ring.producer.Refreshing? {
      Ring.FullTest(t.ring, |t.ring.popped|);
      t := Go(roster, initial, s, t, Producer(Ring.PushRefresh(|t.ring.popped|)));
    }
  }

  /** One push. */
  lemma PushFrame(roster: seq<string>, initial: real, s: State, f: Frame) returns (t: State)
    requires Settled(roster, initial, s)
    ensures Leads(roster, s, t) && Inv(roster, initial, t)
    ensures t == s.(ring := t.ring) && t.ring.producer.Idle? && t.ring.consumer == s.ring.consumer
    ensures t.ring.sent == s.ring.sent + [f] && t.ring.popped == s.ring.popped
  {
    var a := BeginPush(roster, initial, s, f);
    var b := Go(roster, initial, s, a, Producer(Ring.PushWrite));
    t := Go(roster, initial, s, b, Producer(Ring.PushPublish));
  }

  /** The test of a pop. */
  lemma BeginPop(roster: seq<string>, initial: real, s: State) returns (t: State)
    requires Inv(roster, initial, s) && s.mode.Live? && s.at.LoopHead? && |s.ring.popped| < |s.ring.sent|
    ensures Leads(roster, s, t) && Inv(roster, initial, t)
    ensures t == s.(at := InPop, ring := s.ring.(consumer := Ring.Reading,
                                                   tailCache := t.ring.tailCache, tailSeen := t.ring.tailSeen))
  {
    Stay(roster, s);
    Ring.EmptyTest(s.ring, s.ring.tailSeen);
    t := Go(roster, initial, s, s, Poll);
    if t.ring.consumer.Reloading? {
      Ring.EmptyTest(t.ring, |t.ring.sent|);
      t := Go(roster, initial, s, t, Pop(Ring.PopRefresh(|t.ring.sent|)));
    }
  }

  /** The rest of a pop. */
  lemma FinishPop(roster: seq<string>, initial: real, s: State) returns (t: State)
    requires Inv(roster, initial, s) && s.mode.Live? && s.at.InPop? && s.ring.consumer.Reading?
    ensures Leads(roster, s, t) && Inv(roster, initial, t)
    ensures t == s.(at := Handling, ring := t.ring)
    ensures t.ring.producer == s.ring.producer && t.ring.sent == s.ring.sent
    ensures |t.ring.popped| == |s.ring.popped| + 1
  {
    Stay(roster, s);
    var a := Go(roster, initial, s, s, Pop(Ring.PopRead));
    t := Go(roster, initial, s, a, Pop(Ring.PopAdvance));
  }

  /** One round of the live loop that finds a frame. */
  lemma PopFrame(roster: seq<string>, initial: real, s: State) returns (t: State)
    requires Inv(roster, initial, s) && s.mode.Live? && s.at.LoopHead? && |s.ring.popped| < |s.ring.sent|
    ensures Leads(roster, s, t) && Inv(roster, initial, t)
    ensures t == s.(ring := t.ring, record := t.record, handled := t.handled)
    ensures t.ring.producer == s.ring.producer && t.ring.sent == s.ring.sent
    ensures |t.ring.popped| == |s.ring.popped| + 1
  {
    var a := BeginPop(roster, initial, s);
    var b := FinishPop(roster, initial, a);
    Join(roster, s, a, b);
    t := Go(roster, initial, s, b, Handle);
  }

  lemma AllPopped(roster: seq<string>, initial: real, s: State)
    requires Inv(roster, initial, s) && |s.ring.popped| == |s.ring.sent|
    ensures s.ring.popped == s.ring.sent
  {
    assert s.ring.sent[..|s.ring.popped|] == s.ring.sent;
  }

  lemma Deliver(roster: seq<string>, initial: real, s: State, f: Frame) returns (t: State)
    requires Settled(roster, initial, s)
    ensures Leads(roster, s, t) && Settled(roster, initial, t) && t.ring.sent == s.ring.sent + [f]
  {
    var m := PushFrame(roster, initial, s, f);
    t := PopFrame(roster, initial, m);
    AllPopped(roster, initial, t);
    Join(roster, s, m, t);
  }

  lemma {:induction false} DeliverAll(roster: seq<string>, initial: real, s: State, frames: seq<Frame>)
    returns (t: State)
    requires Settled(roster, initial, s)
    ensures Leads(roster, s, t) && Settled(roster, initial, t) && t.ring.sent == s.ring.sent + frames
  {
    if frames == [] {
      t := s;
      Stay(roster, s);
    } else {
      var n := |frames| - 1;
      var m := DeliverAll(roster, initial, s, frames[..n]);
      t := Deliver(roster, initial, m, frames[n]);
      Join(roster, s, m, t);
      assert frames == frames[..n] + [frames[n]];
      Associative(s.ring.sent, frames[..n], [frames[n]]);
    }
  }

  /** The generator is stopped, then the consumer, which sees it. */
  lemma Stop(roster: seq<string>, initial: real, s: State) returns (t: State)
    requires Settled(roster, initial, s)
    ensures Leads(roster, s, t) && Inv(roster, initial, t)
    ensures t == s.(generatorStopped := true, stopRequested := true, mode := Draining)
  {
    Stay(roster, s);
    var a := Go(roster, initial, s, s, StopGenerator);
    var b := Go(roster, initial, s, a, RequestStop);
    t := Go(roster, initial, s, b, SeeStop);
  }

  /** The drain loop finds the ring empty. */
  lemma Leave(roster: seq<string>, initial: real, s: State) returns (t: State)
    requires Inv(roster, initial, s) && s.mode.Draining? && s.at.LoopHead? && s.ring.popped == s.ring.sent
    ensures Leads(roster, s, t) && t.mode.Exited? && t.ring.sent == s.ring.sent
  {
    Stay(roster, s);
    Ring.EmptyTest(s.ring, s.ring.tailSeen);
    var a := Go(roster, initial, s, s, Poll);
    Ring.EmptyTest(a.ring, |a.ring.sent|);
    t := Go(roster, initial, s, a, Pop(Ring.PopRefresh(|a.ring.sent|)));
  }

  lemma InitSettled(roster: seq<string>, capacity: nat, initial: real)
    requires PowerOfTwo(capacity) && capacity >= 2
    ensures Settled(roster, initial, Init(capacity, initial))
  {
    Ring.InitKeeps<Frame>(capacity);
  }

  /** For any frames, ring and initial time some run accepts exactly these frames and ends. */
  lemma EveryFrameCanArrive(roster: seq<string>, capacity: nat, initial: real, frames: seq<Frame>)
    returns (steps: seq<Step>)
    requires PowerOfTwo(capacity) && capacity >= 2
    ensures Exec(roster, Init(capacity, initial), steps).Running?
    ensures var s := Exec(roster, Init(capacity, initial), steps).state;
            s.mode.Exited? && s.ring.sent == frames
  {
    InitSettled(roster, capacity, initial);
    var s := Init(capacity, initial);
    var m := DeliverAll(roster, initial, s, frames);
    var n := Stop(roster, initial, m);
    var t := Leave(roster, initial, n);
    Join(roster, s, m, n);
    Join(roster, s, n, t);
    steps :| Exec(roster, s, steps) == Running(t);
    assert [] + frames == frames;
  }
}
