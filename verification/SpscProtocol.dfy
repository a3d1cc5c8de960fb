/** The bounded single-producer single-consumer ring, one step per shared access.

    A push is: compare the next index with the private copy of the consumer's index;
    only when they meet, refresh that copy with a load of `head_`; write the slot;
    publish the new tail.  A pop is the mirror image.  The two sides interleave freely.

    A refresh is allowed to return any value the other index had since the previous
    refresh, not only the latest one, so everything proved here also holds for loads
    that lag behind.  `Exact` picks out the refreshes that return the latest value. */
module SpscProtocol {
  import opened Common
  import opened BitMask

  datatype Producer<T> = Idle | Refreshing(item: T) | Writing(item: T) | Publishing(item: T)

  datatype Consumer<T> = Resting | Reloading | Reading | Advancing(out: T)

  /** The first five fields and the two phases are the queue; a slot is `None` until it is
      written for the first time.  The rest counts without wrapping: `sent` and `popped`
      are all published and all popped items, `headSeen` and `tailSeen` the number of items
      popped and published according to the two private copies. */
  datatype State<T> = State(
    capacity: nat,
    tail: nat, headCache: nat,
    head: nat, tailCache: nat,
    buffer: seq<Option<T>>,
    producer: Producer<T>, consumer: Consumer<T>,
    sent: seq<T>, popped: seq<T>,
    headSeen: nat, tailSeen: nat)

  datatype Step<T> =
    | PushCall(item: T)
    | PushRefresh(headView: nat)
    | PushWrite
    | PushPublish
    | PopCall
    | PopRefresh(tailView: nat)
    | PopRead
    | PopAdvance

  ghost function Init<T>(capacity: nat): State<T> {
    State(capacity, 0, 0, 0, 0, seq(capacity, _ => None), Idle, Resting, [], [], 0, 0)
  }

  /** Program order of the two threads; what a refresh may return. */
  ghost predicate Enabled<T>(s: State<T>, step: Step<T>) {
    match step
    case PushCall(_) => s.producer.Idle?
    case PushRefresh(h) => s.producer.Refreshing? && s.headSeen <= h <= |s.popped|
    case PushWrite => s.producer.Writing?
    case PushPublish => s.producer.Publishing?
    case PopCall => s.consumer.Resting?
    case PopRefresh(t) => s.consumer.Reloading? && s.tailSeen <= t <= |s.sent|
    case PopRead => s.consumer.Reading?
    case PopAdvance => s.consumer.Advancing?
  }

  /** The refresh returns the index as it is now. */
  ghost predicate Exact<T>(s: State<T>, step: Step<T>) {
    match step
    case PushRefresh(h) => h == |s.popped|
    case PopRefresh(t) => t == |s.sent|
    case _ => true
  }

  ghost function Mask<T>(s: State<T>): nat {
    if s.capacity == 0 then 0 else s.capacity - 1
  }

  ghost function After<T>(s: State<T>, i: nat): nat {
    And(i + 1, Mask(s))
  }

  /** The value an index has after it moved `count` times. */
  ghost function IndexAfter<T>(s: State<T>, count: nat): nat {
    And(count, Mask(s))
  }

  ghost function Next<T>(s: State<T>, step: Step<T>): Outcome<State<T>>
    requires Enabled(s, step)
  {
    match step
    case PushCall(item) =>
      Running(s.(producer := if After(s, s.tail) == s.headCache then Refreshing(item) else Writing(item)))
    case PushRefresh(h) =>
      var cache := IndexAfter(s, h);
      Running(s.(headCache := cache, headSeen := h,
                 producer := if After(s, s.tail) == cache then Idle else Writing(s.producer.item)))
    case PushWrite =>
      if s.tail >= |s.buffer| then Fault
      else Running(s.(buffer := s.buffer[s.tail := Some(s.producer.item)],
                      producer := Publishing(s.producer.item)))
    case PushPublish =>
      Running(s.(tail := After(s, s.tail), producer := Idle, sent := s.sent + [s.producer.item]))
    case PopCall =>
      Running(s.(consumer := if s.head == s.tailCache then Reloading else Reading))
    case PopRefresh(t) =>
      var cache := IndexAfter(s, t);
      Running(s.(tailCache := cache, tailSeen := t,
                 consumer := if s.head == cache then Resting else Reading))
    case PopRead =>
      if s.head >= |s.buffer| || s.buffer[s.head].None? then Fault
      else Running(s.(consumer := Advancing(s.buffer[s.head].value)))
    case PopAdvance =>
      Running(s.(head := After(s, s.head), consumer := Resting, popped := s.popped + [s.consumer.out]))
  }

  /** Runs a whole schedule. */
  ghost function Exec<T>(s: State<T>, steps: seq<Step<T>>): Outcome<State<T>> {
    if steps == [] then Running(s)
    else
      match Exec(s, steps[..|steps| - 1])
      case Fault => Fault
      case Stuck => Stuck
      case Running(m) =>
        if Enabled(m, steps[|steps| - 1]) then Next(m, steps[|steps| - 1]) else Stuck
  }

  // ------------------------------------------------------------------ invariant

  /** `headSeen <= popped <= tailSeen <= sent`, and even the producer's stale view of the
      consumer leaves one slot free. */
  ghost predicate CountsOk<T>(s: State<T>) {
    && PowerOfTwo(s.capacity) && s.capacity >= 2
    && s.headSeen <= |s.popped| <= s.tailSeen <= |s.sent|
    && |s.sent| - s.headSeen <= s.capacity - 1
  }

  /** The four indices are the four counts modulo the capacity. */
  ghost predicate IndicesOk<T>(s: State<T>)
    requires s.capacity > 0
  {
    && s.tail == |s.sent| % s.capacity
    && s.head == |s.popped| % s.capacity
    && s.headCache == s.headSeen % s.capacity
    && s.tailCache == s.tailSeen % s.capacity
    && |s.buffer| == s.capacity
  }

  /** Unread items sit in their slots, untouched, and what was popped is what was sent. */
  ghost predicate ItemsOk<T>(s: State<T>)
    requires s.capacity > 0 && |s.buffer| == s.capacity && |s.popped| <= |s.sent|
  {
    && s.popped == s.sent[..|s.popped|]
    && forall i {:trigger s.sent[i]} :: |s.popped| <= i < |s.sent| ==>
         s.buffer[i % s.capacity] == Some(s.sent[i])
  }

  /** A side that passed its test really has room, or an item. */
  ghost predicate PhasesOk<T>(s: State<T>)
    requires s.capacity > 0 && |s.buffer| == s.capacity && s.tailSeen <= |s.sent|
  {
    && (s.producer.Writing? || s.producer.Publishing? ==> |s.sent| - s.headSeen < s.capacity - 1)
    && (s.producer.Publishing? ==> s.buffer[|s.sent| % s.capacity] == Some(s.producer.item))
    && (s.producer.Refreshing? ==> |s.sent| - s.headSeen == s.capacity - 1)
    && (s.consumer.Reloading? ==> |s.popped| == s.tailSeen)
    && (s.consumer.Reading? || s.consumer.Advancing? ==> |s.popped| < s.tailSeen)
    && (s.consumer.Advancing? ==> s.consumer.out == s.sent[|s.popped|])
  }

  ghost predicate Inv<T>(s: State<T>) {
    CountsOk(s) && IndicesOk(s) && ItemsOk(s) && PhasesOk(s)
  }

  lemma InitKeeps<T>(capacity: nat)
    requires PowerOfTwo(capacity) && capacity >= 2
    ensures Inv(Init<T>(capacity))
  {
  }

  /** `next == head_cache_` says that the producer's view of the queue is full. */
  lemma FullTest<T>(s: State<T>, h: nat)
    requires CountsOk(s) && IndicesOk(s) && h <= |s.sent| && |s.sent| - h <= s.capacity - 1
    ensures After(s, s.tail) == (|s.sent| + 1) % s.capacity && IndexAfter(s, h) == h % s.capacity
    ensures After(s, s.tail) == h % s.capacity <==> |s.sent| - h == s.capacity - 1
  {
    CapacityMask(s.tail + 1, s.capacity);
    CapacityMask(h, s.capacity);
    ModShift(|s.sent|, 1, s.capacity);
    SameSlot(h, |s.sent| + 1 - h, s.capacity);
  }

  /** `head == tail_cache_` says that the consumer's view of the queue is empty. */
  lemma EmptyTest<T>(s: State<T>, t: nat)
    requires CountsOk(s) && IndicesOk(s) && |s.popped| <= t <= |s.sent|
    ensures After(s, s.head) == (|s.popped| + 1) % s.capacity && IndexAfter(s, t) == t % s.capacity
    ensures s.head == t % s.capacity <==> |s.popped| == t
  {
    CapacityMask(s.head + 1, s.capacity);
    CapacityMask(t, s.capacity);
    ModShift(|s.popped|, 1, s.capacity);
    SameSlot(|s.popped|, t - |s.popped|, s.capacity);
  }

  /** The slot the producer is about to write holds no unread item. */
  lemma WriteSlotIsFree<T>(s: State<T>, i: nat)
    requires CountsOk(s) && |s.sent| - s.headSeen < s.capacity - 1
    requires |s.popped| <= i < |s.sent|
    ensures i % s.capacity != |s.sent| % s.capacity
  {
    SameSlot(i, |s.sent| - i, s.capacity);
  }

  lemma WriteKeeps<T>(s: State<T>)
    requires Inv(s) && s.producer.Writing?
    ensures Next(s, PushWrite).Running? && Inv(Next(s, PushWrite).state)
  {
    var t := Next(s, PushWrite).state;
    forall i {:trigger t.sent[i]} | |t.popped| <= i < |t.sent|
      ensures t.buffer[i % t.capacity] == Some(t.sent[i])
    {
      WriteSlotIsFree(s, i);
      assert s.buffer[i % s.capacity] == Some(s.sent[i]);
    }
  }

  lemma PublishKeeps<T>(s: State<T>)
    requires Inv(s) && s.producer.Publishing?
    ensures Next(s, PushPublish).Running? && Inv(Next(s, PushPublish).state)
  {
    FullTest(s, s.headSeen);
    var t := Next(s, PushPublish).state;
    forall i {:trigger t.sent[i]} | |t.popped| <= i < |t.sent|
      ensures t.buffer[i % t.capacity] == Some(t.sent[i])
    {
      if i < |s.sent| { assert t.sent[i] == s.sent[i]; }
    }
    assert t.popped == t.sent[..|t.popped|];
  }

  lemma AdvanceKeeps<T>(s: State<T>)
    requires Inv(s) && s.consumer.Advancing?
    ensures Next(s, PopAdvance).Running? && Inv(Next(s, PopAdvance).state)
  {
    EmptyTest(s, s.tailSeen);
    var t := Next(s, PopAdvance).state;
    assert t.popped == t.sent[..|t.popped|];
  }

  lemma StepKeeps<T>(s: State<T>, step: Step<T>)
    requires Inv(s) && Enabled(s, step)
    ensures Next(s, step).Running? && Inv(Next(s, step).state)
  {
    match step
    case PushCall(_) => FullTest(s, s.headSeen);
    case PushRefresh(h) => FullTest(s, h);
    case PushWrite => WriteKeeps(s);
    case PushPublish => PublishKeeps(s);
    case PopCall => EmptyTest(s, s.tailSeen);
    case PopRefresh(t) => EmptyTest(s, t);
    case PopRead => assert s.buffer[|s.popped| % s.capacity] == Some(s.sent[|s.popped|]);
    case PopAdvance => AdvanceKeeps(s);
  }
}
