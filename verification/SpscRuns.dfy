/** Runs of the ring: whole pushes and pops as schedules, and what a thread sees that loads the
    two indices one after the other while both sides go on. */
module SpscRuns {
  import opened Common
  import opened BitMask
  import opened SpscProtocol
  import opened SpscQueue

  lemma {:induction false} ExecAppend<T>(s: State<T>, a: seq<Step<T>>, b: seq<Step<T>>)
    requires Exec(s, a).Running?
    ensures Exec(s, a + b) == Exec(Exec(s, a).state, b)
  {
    if b == [] {
      assert a + b == a;
    } else {
      assert (a + b)[..|a + b| - 1] == a + b[..|b| - 1];
      ExecAppend(s, a, b[..|b| - 1]);
    }
  }

  lemma Extend<T(!new)>(s: State<T>, steps: seq<Step<T>>, m: State<T>, step: Step<T>) returns (t: State<T>)
    requires Exec(s, steps) == Running(m) && Reachable(m) && Enabled(m, step)
    ensures Exec(s, steps + [step]) == Running(t) && Reachable(t) && Running(t) == Next(m, step)
  {
    ReachableNext(m, step);
    t := Next(m, step).state;
    assert (steps + [step])[..|steps|] == steps;
  }

  /** Wherever the consumer stands, a push that finds room runs to its end on its own. */
  lemma PushRun<T(!new)>(s: State<T>, x: T) returns (steps: seq<Step<T>>, t: State<T>)
    requires Reachable(s) && s.producer.Idle? && |Queue(s)| < s.capacity - 1
    ensures Exec(s, steps) == Running(t) && Reachable(t) && t.capacity == s.capacity
    ensures t.producer.Idle? && t.consumer == s.consumer
    ensures t.sent == s.sent + [x] && t.popped == s.popped
  {
    steps := [PushCall(x)];
    var a := Extend(s, [], s, PushCall(x));
    if a.producer.Refreshing? {
      LatestIndices(a);
      PushRefusedIff(a, |a.popped|);
      var refreshed := Extend(s, steps, a, PushRefresh(|a.popped|));
      a, steps := refreshed, steps + [PushRefresh(|a.popped|)];
    }
    var b := Extend(s, steps, a, PushWrite);
    t := Extend(s, steps + [PushWrite], b, PushPublish);
    steps := steps + [PushWrite] + [PushPublish];
  }

  /** Wherever the producer stands, a pop that finds an item runs to its end on its own. */
  lemma PopRun<T(!new)>(s: State<T>) returns (steps: seq<Step<T>>, t: State<T>)
    requires Reachable(s) && s.consumer.Resting? && Queue(s) != []
    ensures Exec(s, steps) == Running(t) && Reachable(t) && t.capacity == s.capacity
    ensures t.consumer.Resting? && t.producer == s.producer
    ensures t.popped == s.popped + [Queue(s)[0]] && t.sent == s.sent
  {
    steps := [PopCall];
    var a := Extend(s, [], s, PopCall);
    if a.consumer.Reloading? {
      LatestIndices(a);
      PopRefusedIff(a, |a.sent|);
      var reloaded := Extend(s, steps, a, PopRefresh(|a.sent|));
      a, steps := reloaded, steps + [PopRefresh(|a.sent|)];
    }
    ReaderSeesPublished(a);
    var b := Extend(s, steps, a, PopRead);
    t := Extend(s, steps + [PopRead], b, PopAdvance);
    steps := steps + [PopRead] + [PopAdvance];
  }

  // ------------------------------------------------------------------ two loads

  /** An item passes through an empty ring. */
  lemma PassThrough<T(!new)>(s: State<T>, x: T) returns (steps: seq<Step<T>>, t: State<T>)
    requires Reachable(s) && s.producer.Idle? && s.consumer.Resting? && Queue(s) == [] && s.capacity >= 2
    ensures Exec(s, steps) == Running(t) && Reachable(t) && t.capacity == s.capacity
    ensures |t.sent| == |s.sent| + 1 && |t.popped| == |s.popped| + 1
  {
    var a, m := PushRun(s, x);
    assert Queue(m) == [x] by { LatestIndices(s); }
    var b, u := PopRun(m);
    ExecAppend(s, a, b);
    steps, t := a + b, u;
  }

  lemma SizeIsATurnOff(n: nat, c: nat)
    requires PowerOfTwo(c) && c >= 2
    ensures SizeOf(n % c, (n + 1) % c, c) == c - 1
  {
    MaskedDifference(n % c, (n + 1) % c, c);
    DifferenceOfRemainders(n, n + 1, c);
    ModIs(-1, c, -1, c - 1);
  }

  /** A thread that is neither side loads an empty ring's tail; an item passes through before it
      loads the head: `size_approx` then reports a full ring. */
  lemma SizeAfterOvertaking<T(!new)>(s: State<T>, x: T) returns (steps: seq<Step<T>>, t: State<T>)
    requires Reachable(s) && s.producer.Idle? && s.consumer.Resting? && Queue(s) == [] && s.capacity >= 2
    ensures Exec(s, steps) == Running(t) && Reachable(t) && t.capacity == s.capacity
    ensures Queue(t) == [] && |t.popped| > |s.sent|
    ensures SizeOf(s.tail, t.head, s.capacity) == s.capacity - 1
  {
    steps, t := PassThrough(s, x);
    IndicesAre(s);
    IndicesAre(t);
    SizeIsATurnOff(|s.sent|, s.capacity);
  }

  lemma HeadAndTail<T(!new)>(s: State<T>, t: State<T>)
    requires Reachable(s) && Reachable(t) && t.capacity == s.capacity
    ensures s.capacity >= 2
    ensures s.head == t.tail <==> (|t.sent| - |s.popped|) % s.capacity == 0
  {
    HeadIs(s);
    TailIs(t);
    SameRemainder(|t.sent|, |s.popped|, s.capacity);
  }

  /** `empty` loads the head in `s` and the tail after any further steps of both sides: it
      answers true exactly when what was published before the second load and not popped before
      the first is a whole number of turns, none included. */
  lemma EmptyOfTwoLoads<T(!new)>(s: State<T>, steps: seq<Step<T>>)
    requires Reachable(s) && Exec(s, steps).Running? && Reachable(Exec(s, steps).state)
    ensures s.capacity >= 2
    ensures var t := Exec(s, steps).state;
            && |s.popped| <= |t.sent|
            && (s.head == t.tail <==> (|t.sent| - |s.popped|) % s.capacity == 0)
  {
    CountsAre(s);
    CountsGrow(s, steps);
    HeadAndTail(s, Exec(s, steps).state);
  }

  lemma WholeTurns(d: int, c: nat)
    requires 0 <= d < c
    ensures d % c == 0 <==> d == 0
  {
    ModIs(d, c, 0, d);
  }

  /** The producer asks: it does not move meanwhile, and the answer is exact as of its first load. */
  lemma EmptyForTheProducer<T(!new)>(s: State<T>, steps: seq<Step<T>>)
    requires Reachable(s) && Exec(s, steps).Running? && Reachable(Exec(s, steps).state)
    requires Exec(s, steps).state.sent == s.sent
    ensures s.head == Exec(s, steps).state.tail <==> Queue(s) == []
  {
    EmptyOfTwoLoads(s, steps);
    CountsAre(s);
    WholeTurns(|s.sent| - |s.popped|, s.capacity);
  }

  /** The consumer asks: it does not move meanwhile, and the answer is exact as of its second load. */
  lemma EmptyForTheConsumer<T(!new)>(s: State<T>, steps: seq<Step<T>>)
    requires Reachable(s) && Exec(s, steps).Running? && Reachable(Exec(s, steps).state)
    requires Exec(s, steps).state.popped == s.popped
    ensures s.head == Exec(s, steps).state.tail <==> Queue(Exec(s, steps).state) == []
  {
    EmptyOfTwoLoads(s, steps);
    CountsGrow(s, steps);
    var t := Exec(s, steps).state;
    CountsAre(t);
    WholeTurns(|t.sent| - |t.popped|, t.capacity);
  }

  lemma {:induction false} PrefixRuns<T>(s: State<T>, steps: seq<Step<T>>, n: nat)
    requires n <= |steps| && Exec(s, steps).Running?
    ensures Exec(s, steps[..n]).Running?
  {
    if n == |steps| {
      assert steps[..n] == steps;
    } else {
      PrefixRuns(s, steps[..|steps| - 1], n);
      assert steps[..|steps| - 1][..n] == steps[..n];
    }
  }

  /** At every moment of a run the counts lie between those at its ends. */
  lemma CountsBetween<T>(s: State<T>, steps: seq<Step<T>>, n: nat)
    requires n <= |steps| && Exec(s, steps).Running?
    ensures Exec(s, steps[..n]).Running?
    ensures var m, t := Exec(s, steps[..n]).state, Exec(s, steps).state;
            |s.sent| <= |m.sent| && |m.popped| <= |t.popped|
  {
    PrefixRuns(s, steps, n);
    assert steps[..n] + steps[n..] == steps;
    ExecAppend(s, steps[..n], steps[n..]);
    CountsGrow(s, steps[..n]);
    CountsGrow(Exec(s, steps[..n]).state, steps[n..]);
  }

  lemma PushPopPush<T(!new)>(s: State<T>, x: T, y: T) returns (steps: seq<Step<T>>, t: State<T>)
    requires Reachable(s) && s.producer.Idle? && s.consumer.Resting?
    requires 2 <= |Queue(s)| == s.capacity - 2
    ensures Exec(s, steps) == Running(t) && Reachable(t) && t.capacity == s.capacity
    ensures |t.sent| == |s.popped| + s.capacity && |t.popped| < |s.sent|
  {
    IndicesAre(s);
    var a, u := PushRun(s, x);
    var b, v := PopRun(u);
    ExecAppend(s, a, b);
    var c, w := PushRun(v, y);
    ExecAppend(s, a + b, c);
    steps, t := a + b + c, w;
  }

  /** At no moment of the run is the ring empty. */
  ghost predicate NeverEmpty<T>(s: State<T>, steps: seq<Step<T>>) {
    forall n :: 0 <= n <= |steps| ==> Exec(s, steps[..n]).Running? && Queue(Exec(s, steps[..n]).state) != []
  }

  lemma NotDrained<T>(s: State<T>, steps: seq<Step<T>>)
    requires Exec(s, steps).Running? && |Exec(s, steps).state.popped| < |s.sent|
    ensures NeverEmpty(s, steps)
  {
    forall n | 0 <= n <= |steps|
      ensures Exec(s, steps[..n]).Running? && Queue(Exec(s, steps[..n]).state) != []
    {
      CountsBetween(s, steps, n);
    }
  }

  lemma TurnedOnce<T(!new)>(s: State<T>, t: State<T>)
    requires Reachable(s) && Reachable(t) && t.capacity == s.capacity == |t.sent| - |s.popped|
    ensures s.head == t.tail && |t.sent| >= |s.popped|
  {
    HeadAndTail(s, t);
    ModIs(s.capacity, s.capacity, 1, 0);
  }

  /** A thread that is neither side can be told that the ring is empty although it never is:
      all but two places are used when it loads the head, and it loads the tail after a push, a
      pop and a push. */
  lemma EmptyMisleadsAThird<T(!new)>(s: State<T>, x: T, y: T) returns (steps: seq<Step<T>>)
    requires Reachable(s) && s.producer.Idle? && s.consumer.Resting?
    requires 2 <= |Queue(s)| == s.capacity - 2
    ensures Exec(s, steps).Running? && s.head == Exec(s, steps).state.tail
    ensures NeverEmpty(s, steps)
  {
    var t;
    steps, t := PushPopPush(s, x, y);
    TurnedOnce(s, t);
    NotDrained(s, steps);
  }

  /** Such a state is reached with four slots and two pushes. */
  lemma TwoOfFour() returns (s: State<int>)
    ensures Reachable(s) && s.producer.Idle? && s.consumer.Resting?
    ensures s.capacity == 4 && |Queue(s)| == 2
  {
    assert Pow2(2) == 4;
    ReachableInit<int>(4);
    var _, one := PushRun(Init<int>(4), 1);
    var _, two := PushRun(one, 2);
    s := two;
  }
}
