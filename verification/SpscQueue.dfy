/** What the step-by-step model of the ring guarantees in every reachable state, and the
    ring in its imperative form. */
module SpscQueue {
  import opened Common
  import opened BitMask
  import opened SpscProtocol

  // ------------------------------------------------------------------ every schedule

  /** For every capacity the class accepts and every interleaving, also with stale refreshes:
      no step leaves the buffer or reads a slot that was never written, and the invariant holds. */
  lemma {:induction false} EveryScheduleIsSafe<T>(capacity: nat, steps: seq<Step<T>>)
    requires PowerOfTwo(capacity) && capacity >= 2
    ensures !Exec(Init(capacity), steps).Fault?
    ensures Exec(Init(capacity), steps).Running? ==> Inv(Exec(Init(capacity), steps).state)
  {
    InitKeeps<T>(capacity);
    if steps != [] {
      EveryScheduleIsSafe(capacity, steps[..|steps| - 1]);
      match Exec(Init(capacity), steps[..|steps| - 1])
      case Running(m) =>
        if Enabled(m, steps[|steps| - 1]) { StepKeeps(m, steps[|steps| - 1]); }
      case _ =>
    }
  }

  /** Some schedule leads from some freshly constructed ring to `s`. */
  ghost predicate Reachable<T(!new)>(s: State<T>) {
    exists capacity, steps ::
      PowerOfTwo(capacity) && capacity >= 2 && Exec(Init(capacity), steps) == Running(s)
  }

  lemma ReachableInv<T(!new)>(s: State<T>)
    requires Reachable(s)
    ensures Inv(s)
  {
    var capacity, steps :| PowerOfTwo(capacity) && capacity >= 2 && Exec(Init(capacity), steps) == Running(s);
    EveryScheduleIsSafe(capacity, steps);
  }

  lemma ReachableInit<T(!new)>(capacity: nat)
    requires PowerOfTwo(capacity) && capacity >= 2
    ensures Reachable(Init<T>(capacity))
  {
    assert Exec(Init<T>(capacity), []) == Running(Init<T>(capacity));
  }

  lemma ReachableNext<T(!new)>(s: State<T>, step: Step<T>)
    requires Reachable(s) && Enabled(s, step)
    ensures Next(s, step).Running? && Reachable(Next(s, step).state)
  {
    ReachableInv(s);
    StepKeeps(s, step);
    var capacity, steps :| PowerOfTwo(capacity) && capacity >= 2 && Exec(Init(capacity), steps) == Running(s);
    assert (steps + [step])[..|steps|] == steps;
    assert Exec(Init(capacity), steps + [step]) == Next(s, step);
  }

  // ------------------------------------------------------------------ slots

  /** The slot the producer is about to write is not the slot the consumer is about to read,
      and it holds no item that is still to be read. */
  lemma WriterAndReaderApart<T(!new)>(s: State<T>, i: nat)
    requires Reachable(s) && s.producer.Writing?
    ensures s.consumer.Reading? ==> s.tail != s.head
    ensures s.capacity >= 2
    ensures |s.popped| <= i < |s.sent| ==> s.tail != i % s.capacity
  {
    ReachableInv(s);
    if s.consumer.Reading? { WriteSlotIsFree(s, |s.popped|); }
    if |s.popped| <= i < |s.sent| { WriteSlotIsFree(s, i); }
  }

  /** The slot the consumer is about to read holds the oldest published item. */
  lemma ReaderSeesPublished<T(!new)>(s: State<T>)
    requires Reachable(s) && s.consumer.Reading?
    ensures |s.popped| < |s.sent| && s.head < |s.buffer|
    ensures s.buffer[s.head] == Some(s.sent[|s.popped|])
  {
    ReachableInv(s);
    assert s.buffer[|s.popped| % s.capacity] == Some(s.sent[|s.popped|]);
  }

  // ------------------------------------------------------------------ refinement of a bounded FIFO

  /** The abstract queue: what was published and not popped yet. */
  ghost function Queue<T>(s: State<T>): seq<T> {
    if |s.popped| <= |s.sent| then s.sent[|s.popped|..] else []
  }

  /** What an atomic step of a FIFO with room for `capacity - 1` items would do. */
  ghost predicate BoundedFifoStep<T>(s: State<T>, step: Step<T>, t: State<T>)
    requires Enabled(s, step)
  {
    match step
    case PushPublish =>
      && |Queue(s)| < s.capacity - 1
      && Queue(t) == Queue(s) + [s.producer.item] && t.popped == s.popped
    case PopAdvance =>
      && Queue(s) != []
      && Queue(t) == Queue(s)[1..] && t.popped == s.popped + [Queue(s)[0]]
    case _ => Queue(t) == Queue(s) && t.popped == s.popped
  }

  /** Publishing enqueues and never beyond the bound, advancing dequeues the front, every
      other step changes nothing. */
  lemma StepRefinesBoundedFifo<T(!new)>(s: State<T>, step: Step<T>)
    requires Reachable(s) && Enabled(s, step)
    ensures Next(s, step).Running? && Reachable(Next(s, step).state)
    ensures BoundedFifoStep(s, step, Next(s, step).state)
    ensures |Queue(s)| <= s.capacity - 1
  {
    ReachableNext(s, step);
    ReachableInv(s);
  }

  /** The private copies never admit a wrong success: a producer that is about to write
      has room and a consumer that is about to read has an item. */
  lemma CachesAdmitNoWrongSuccess<T(!new)>(s: State<T>)
    requires Reachable(s)
    ensures s.producer.Writing? || s.producer.Publishing? ==> |Queue(s)| < s.capacity - 1
    ensures s.consumer.Reading? || s.consumer.Advancing? ==> Queue(s) != []
  {
    ReachableInv(s);
  }

  /** A refresh refuses the push exactly when the queue was full as of the index it loaded;
      for an up-to-date load, exactly when it holds `capacity - 1` items now. */
  lemma PushRefusedIff<T(!new)>(s: State<T>, h: nat)
    requires Reachable(s) && Enabled(s, PushRefresh(h))
    ensures Next(s, PushRefresh(h)).Running?
    ensures Next(s, PushRefresh(h)).state.producer.Idle? <==> |s.sent| - h == s.capacity - 1
    ensures Exact(s, PushRefresh(h)) ==>
              (Next(s, PushRefresh(h)).state.producer.Idle? <==> |Queue(s)| == s.capacity - 1)
  {
    ReachableInv(s);
    FullTest(s, h);
  }

  /** A refresh refuses the pop exactly when everything was popped as of the index it loaded;
      for an up-to-date load, exactly when the queue is empty now. */
  lemma PopRefusedIff<T(!new)>(s: State<T>, t: nat)
    requires Reachable(s) && Enabled(s, PopRefresh(t))
    ensures Next(s, PopRefresh(t)).Running?
    ensures Next(s, PopRefresh(t)).state.consumer.Resting? <==> t == |s.popped|
    ensures Exact(s, PopRefresh(t)) ==>
              (Next(s, PopRefresh(t)).state.consumer.Resting? <==> Queue(s) == [])
  {
    ReachableInv(s);
    EmptyTest(s, t);
  }

  /** An up-to-date load is always possible, and returns the index by count. */
  lemma LatestIndices<T(!new)>(s: State<T>)
    requires Reachable(s)
    ensures s.headSeen <= |s.popped| <= s.tailSeen <= |s.sent|
    ensures s.head == IndexAfter(s, |s.popped|) && s.tail == IndexAfter(s, |s.sent|)
  {
    ReachableInv(s);
    CapacityMask(|s.popped|, s.capacity);
    CapacityMask(|s.sent|, s.capacity);
  }

  /** The indices are the counts modulo the capacity. */
  lemma IndicesAre<T(!new)>(s: State<T>)
    requires Reachable(s)
    ensures PowerOfTwo(s.capacity) && s.capacity >= 2
    ensures s.tail == |s.sent| % s.capacity && s.head == |s.popped| % s.capacity
    ensures |s.popped| <= |s.sent| < |s.popped| + s.capacity && |Queue(s)| == |s.sent| - |s.popped|
  {
    ReachableInv(s);
  }

  lemma CountsAre<T(!new)>(s: State<T>)
    requires Reachable(s)
    ensures s.capacity >= 2
    ensures |s.popped| <= |s.sent| < |s.popped| + s.capacity && |Queue(s)| == |s.sent| - |s.popped|
  {
    ReachableInv(s);
  }

  lemma HeadIs<T(!new)>(s: State<T>)
    requires Reachable(s)
    ensures s.capacity >= 2 && s.head == |s.popped| % s.capacity
  {
    ReachableInv(s);
  }

  lemma TailIs<T(!new)>(s: State<T>)
    requires Reachable(s)
    ensures s.capacity >= 2 && s.tail == |s.sent| % s.capacity
  {
    ReachableInv(s);
  }

  // ------------------------------------------------------------------ size

  /** `size_approx`, given what its two loads returned. */
  function SizeOf(t: nat, h: nat, capacity: nat): nat
    requires capacity >= 1
  {
    And(Sub64(t, h), capacity - 1)
  }

  lemma {:induction false} CountsGrow<T>(s: State<T>, steps: seq<Step<T>>)
    requires Exec(s, steps).Running?
    ensures var t := Exec(s, steps).state;
            t.capacity == s.capacity && |s.popped| <= |t.popped| && |s.sent| <= |t.sent|
  {
    if steps != [] { CountsGrow(s, steps[..|steps| - 1]); }
  }

  lemma Distribute(p: int, q: int, r: int, c: int)
    ensures (p - q + r) * c == p * c - q * c + r * c
  {
  }

  lemma DifferenceOfRemainders(a: nat, b: nat, c: nat)
    requires c > 0
    ensures (a % c - b % c) % c == (a - b) % c
  {
    var x := a % c - b % c;
    Distribute(a / c, b / c, x / c, c);
    assert a == (a / c) * c + a % c && b == (b / c) * c + b % c && x == (x / c) * c + x % c;
    ModIs(a - b, c, a / c - b / c + x / c, x % c);
  }

  /** The masked difference of two indices, in terms of the counts behind them. */
  lemma SizeByCount(published: nat, popped: nat, capacity: nat)
    requires PowerOfTwo(capacity) && capacity >= 2 && published - popped < capacity
    ensures var size := SizeOf(published % capacity, popped % capacity, capacity);
            size < capacity && (size == published - popped <==> popped <= published)
  {
    MaskedDifference(published % capacity, popped % capacity, capacity);
    DifferenceOfRemainders(published, popped, capacity);
    if popped <= published { ModIs(published - popped, capacity, 0, published - popped); }
  }

  /** The tail is loaded in `s` and the head after any further steps of both sides.  The
      result is below the capacity, and it counts the items published before the first load
      and not popped before the second exactly when the consumer has not overtaken the
      loaded tail in between. */
  lemma SizeOfTwoLoads<T(!new)>(s: State<T>, steps: seq<Step<T>>)
    requires Reachable(s) && Exec(s, steps).Running? && Reachable(Exec(s, steps).state)
    ensures s.capacity >= 2
    ensures var t := Exec(s, steps).state;
            var size := SizeOf(s.tail, t.head, s.capacity);
            && size < s.capacity
            && (size == |s.sent| - |t.popped| <==> |t.popped| <= |s.sent|)
  {
    ReachableInv(s);
    var t := Exec(s, steps).state;
    ReachableInv(t);
    CountsGrow(s, steps);
    SizeByCount(|s.sent|, |t.popped|, s.capacity);
  }

  lemma SameRemainder(a: nat, b: nat, c: nat)
    requires c > 0
    ensures a % c == b % c <==> (a - b) % c == 0
  {
    DifferenceOfRemainders(a, b, c);
    var x := a % c - b % c;
    if x >= 0 { ModIs(x, c, 0, x); } else { ModIs(x, c, -1, x + c); }
  }

  /** With both loads in one state the result is the number of stored items. */
  lemma SizeIsExact<T(!new)>(s: State<T>)
    requires Reachable(s)
    ensures s.capacity >= 2 && SizeOf(s.tail, s.head, s.capacity) == |Queue(s)|
  {
    ReachableInv(s);
    SizeOfTwoLoads(s, []);
  }

  // ------------------------------------------------------------------ the class

  /** A whole call of one of the two sides. */
  datatype Call<T> = CallPush(item: T) | CallPop

  /** What has been published and popped after the call. */
  ghost function Performed<T>(capacity: nat, sent: seq<T>, popped: seq<T>, call: Call<T>): (seq<T>, seq<T>) {
    match call
    case CallPush(x) => if |sent| - |popped| < capacity - 1 then (sent + [x], popped) else (sent, popped)
    case CallPop => if |popped| < |sent| then (sent, popped + [sent[|popped|]]) else (sent, popped)
  }

  ghost function PerformedAll<T>(capacity: nat, sent: seq<T>, popped: seq<T>, calls: seq<Call<T>>): (seq<T>, seq<T>) {
    if calls == [] then (sent, popped)
    else
      var (s, p) := PerformedAll(capacity, sent, popped, calls[..|calls| - 1]);
      Performed(capacity, s, p, calls[|calls| - 1])
  }

  lemma {:induction false} CallsOnlyAdd<T>(capacity: nat, sent: seq<T>, popped: seq<T>, calls: seq<Call<T>>)
    ensures sent <= PerformedAll(capacity, sent, popped, calls).0
    ensures popped <= PerformedAll(capacity, sent, popped, calls).1
  {
    if calls != [] { CallsOnlyAdd(capacity, sent, popped, calls[..|calls| - 1]); }
  }

  class SpscQueue<T(0,!new)> {
    const capacity: nat
    var tail: nat
    var headCache: nat
    var head: nat
    var tailCache: nat
    const buffer: array<T>
    ghost var trace: State<T>

    /** Every ring object is in a state that some schedule of the protocol reaches. */
    ghost predicate Valid() reads this, buffer {
      && Reachable(trace) && trace.capacity == capacity == buffer.Length && capacity >= 2
      && trace.tail == tail && trace.headCache == headCache
      && trace.head == head && trace.tailCache == tailCache
      && |trace.buffer| == buffer.Length
      && forall i :: 0 <= i < buffer.Length && trace.buffer[i].Some? ==> trace.buffer[i].value == buffer[i]
    }

    ghost function Contents(): seq<T> reads this { Queue(trace) }

    constructor (c: nat)
      requires 2 <= c < 0x1_0000_0000_0000_0000 && And(c, c - 1) == 0
      ensures Valid() && capacity == c && trace == Init(c) && fresh(buffer)
      ensures Contents() == []
    {
      capacity := c;
      tail, headCache, head, tailCache := 0, 0, 0, 0;
      buffer := new T[c];
      trace := Init(c);
      new;
      StaticAssertIff(c);
      ReachableInit<T>(c);
    }

    ghost method Record(step: Step<T>)
      requires Reachable(trace) && Enabled(trace, step)
      modifies this`trace
      ensures Next(old(trace), step) == Running(trace) && Reachable(trace)
      ensures BoundedFifoStep(old(trace), step, trace) && |old(Contents())| <= old(trace.capacity) - 1
    {
      StepRefinesBoundedFifo(trace, step);
      trace := Next(trace, step).state;
    }

    /** `next = (tail + 1) & MASK`, compared with the private copy. */
    method NextTail(item: T) returns (next: nat)
      requires Valid() && trace.producer.Idle?
      modifies this`trace
      ensures Valid() && trace.consumer == old(trace.consumer) && next == After(trace, tail)
      ensures Contents() == old(Contents()) && trace.popped == old(trace.popped) && trace.sent == old(trace.sent)
      ensures trace.producer == if next == headCache then Refreshing(item) else Writing(item)
    {
      next := And(tail + 1, capacity - 1);
      Record(PushCall(item));
    }

    /** `head_cache_ = head_.load(acquire)` */
    method RefreshHead(item: T, next: nat)
      requires Valid() && trace.producer == Refreshing(item) && next == After(trace, tail)
      modifies this
      ensures Valid() && trace.consumer == old(trace.consumer) && tail == old(tail)
      ensures Contents() == old(Contents()) && trace.popped == old(trace.popped) && trace.sent == old(trace.sent)
      ensures next == headCache <==> |Contents()| >= capacity - 1
      ensures trace.producer == if next == headCache then Idle else Writing(item)
    {
      LatestIndices(trace);
      PushRefusedIff(trace, |trace.popped|);
      headCache := head;
      Record(PushRefresh(|trace.popped|));
    }

    /** The fast path, and the refresh when the private copy says that the queue is full. */
    method HasRoom(item: T) returns (ok: bool)
      requires Valid() && trace.producer.Idle?
      modifies this
      ensures Valid() && trace.consumer == old(trace.consumer)
      ensures ok <==> |Contents()| < capacity - 1
      ensures Contents() == old(Contents()) && trace.popped == old(trace.popped) && trace.sent == old(trace.sent)
      ensures trace.producer == if ok then Writing(item) else Idle
    {
      var next := NextTail(item);
      if next == headCache {
        RefreshHead(item, next);
        ok := next != headCache;
      } else {
        CachesAdmitNoWrongSuccess(trace);
        ok := true;
      }
    }

    /** `tail_.store(next)` */
    method Publish(item: T)
      requires Valid() && trace.producer == Publishing(item)
      modifies this
      ensures Valid() && trace.producer.Idle? && trace.consumer == old(trace.consumer)
      ensures Contents() == old(Contents()) + [item] && trace.popped == old(trace.popped)
      ensures trace.sent == old(trace.sent) + [item]
    {
      tail := And(tail + 1, capacity - 1);
      Record(PushPublish);
    }

    /** `buffer_[tail] = item` */
    method WriteSlot(item: T)
      requires Valid() && trace.producer == Writing(item)
      modifies this, buffer
      ensures Valid() && Next(old(trace), PushWrite) == Running(trace)
      ensures BoundedFifoStep(old(trace), PushWrite, trace)
      ensures tail == old(tail)
    {
      ReachableNext(trace, PushWrite);
      buffer[tail] := item;
      Record(PushWrite);
    }

    /** Runs a whole push while the consumer stands still wherever it is: it succeeds
        exactly when fewer than `capacity - 1` items are stored. */
    method Push(item: T) returns (ok: bool)
      requires Valid() && trace.producer.Idle?
      modifies this, buffer
      ensures Valid() && trace.producer.Idle? && trace.consumer == old(trace.consumer)
      ensures ok <==> |old(Contents())| < capacity - 1
      ensures Contents() == if ok then old(Contents()) + [item] else old(Contents())
      ensures trace.popped == old(trace.popped)
      ensures trace.sent == if ok then old(trace.sent) + [item] else old(trace.sent)
    {
      ok := HasRoom(item);
      if ok {
        WriteSlot(item);
        Publish(item);
      }
    }

    /** `tail_cache_ = tail_.load(acquire)` */
    method RefreshTail()
      requires Valid() && trace.consumer.Reloading?
      modifies this
      ensures Valid() && trace.producer == old(trace.producer) && head == old(head)
      ensures Contents() == old(Contents()) && trace.popped == old(trace.popped) && trace.sent == old(trace.sent)
      ensures head == tailCache <==> Contents() == []
      ensures trace.consumer == if head == tailCache then Resting else Reading
    {
      LatestIndices(trace);
      PopRefusedIff(trace, |trace.sent|);
      tailCache := tail;
      Record(PopRefresh(|trace.sent|));
    }

    /** The fast path, and the refresh when the private copy says that the queue is empty. */
    method HasItem() returns (ok: bool)
      requires Valid() && trace.consumer.Resting?
      modifies this
      ensures Valid() && trace.producer == old(trace.producer)
      ensures ok <==> Contents() != []
      ensures Contents() == old(Contents()) && trace.popped == old(trace.popped) && trace.sent == old(trace.sent)
      ensures trace.consumer == if ok then Reading else Resting
    {
      Record(PopCall);
      if head == tailCache {
        RefreshTail();
        ok := head != tailCache;
      } else {
        CachesAdmitNoWrongSuccess(trace);
        ok := true;
      }
    }

    /** `head_.store((head + 1) & MASK)` */
    method Advance(ghost out: T)
      requires Valid() && trace.consumer == Advancing(out)
      modifies this
      ensures Valid() && trace.consumer.Resting? && trace.producer == old(trace.producer)
      ensures old(Contents()) != [] && out == old(Contents())[0] && Contents() == old(Contents())[1..]
      ensures trace.popped == old(trace.popped) + [out] && trace.sent == old(trace.sent)
    {
      head := And(head + 1, capacity - 1);
      Record(PopAdvance);
      assert trace.popped[|old(trace.popped)|] == out;
    }

    /** `out = buffer_[head]` */
    method ReadSlot() returns (data: T)
      requires Valid() && trace.consumer.Reading?
      modifies this`trace
      ensures Valid() && Next(old(trace), PopRead) == Running(trace)
      ensures BoundedFifoStep(old(trace), PopRead, trace)
      ensures trace.consumer == Advancing(data)
    {
      ReaderSeesPublished(trace);
      data := buffer[head];
      Record(PopRead);
    }

    /** Runs a whole pop while the producer stands still wherever it is: it succeeds exactly
        when an item is stored. */
    method Pop() returns (out: Option<T>)
      requires Valid() && trace.consumer.Resting?
      modifies this
      ensures Valid() && trace.consumer.Resting? && trace.producer == old(trace.producer)
      ensures trace.sent == old(trace.sent)
      ensures out.Some? <==> old(Contents()) != []
      ensures out.None? ==> Contents() == old(Contents()) && trace.popped == old(trace.popped)
      ensures out.Some? ==> out.value == old(Contents())[0] && Contents() == old(Contents())[1..]
                            && trace.popped == old(trace.popped) + [out.value]
    {
      var ok := HasItem();
      if !ok { return None; }
      var data := ReadSlot();
      Advance(data);
      out := Some(data);
    }

    method Do(call: Call<T>)
      requires Valid() && trace.producer.Idle? && trace.consumer.Resting?
      modifies this, buffer
      ensures Valid() && trace.producer.Idle? && trace.consumer.Resting?
      ensures (trace.sent, trace.popped) == Performed(capacity, old(trace.sent), old(trace.popped), call)
    {
      IndicesAre(trace);
      if call.CallPop? {
        var _ := Pop();
      } else {
        var _ := Push(call.item);
      }
    }

    /** What the two sides do while a third thread is between its two loads. */
    method Meanwhile(calls: seq<Call<T>>)
      requires Valid() && trace.producer.Idle? && trace.consumer.Resting?
      modifies this, buffer
      ensures Valid() && trace.producer.Idle? && trace.consumer.Resting?
      ensures (trace.sent, trace.popped) == PerformedAll(capacity, old(trace.sent), old(trace.popped), calls)
      ensures calls == [] ==> trace == old(trace)
    {
      for i := 0 to |calls|
        invariant Valid() && trace.producer.Idle? && trace.consumer.Resting?
        invariant (trace.sent, trace.popped) == PerformedAll(capacity, old(trace.sent), old(trace.popped), calls[..i])
        invariant calls == [] ==> trace == old(trace)
      {
        assert calls[..i + 1][..i] == calls[..i];
        Do(calls[i]);
      }
      assert calls[..|calls|] == calls;
    }

    /** Loads the tail and, after the calls, the head.  The result is below the capacity, and it
        counts what was published before the first load and not popped before the second exactly
        when the consumer has not overtaken the loaded tail; undisturbed it is the number of
        stored items. */
    method SizeApprox(calls: seq<Call<T>>) returns (n: nat)
      requires Valid() && trace.producer.Idle? && trace.consumer.Resting?
      modifies this, buffer
      ensures Valid() && n < capacity
      ensures (trace.sent, trace.popped) == PerformedAll(capacity, old(trace.sent), old(trace.popped), calls)
      ensures n == |old(trace.sent)| - |trace.popped| <==> |trace.popped| <= |old(trace.sent)|
      ensures calls == [] ==> trace == old(trace) && n == |Contents()|
    {
      IndicesAre(trace);
      ghost var published := |trace.sent|;
      CallsOnlyAdd(capacity, trace.sent, trace.popped, calls);
      var t := tail;
      Meanwhile(calls);
      IndicesAre(trace);
      SizeByCount(published, |trace.popped|, capacity);
      n := And(Sub64(t, head), capacity - 1);
    }

    /** Loads the head and, after the calls, the tail: true exactly when what was published
        before the second load and not popped before the first is a whole number of turns;
        undisturbed, exactly when nothing is stored. */
    method Empty(calls: seq<Call<T>>) returns (r: bool)
      requires Valid() && trace.producer.Idle? && trace.consumer.Resting?
      modifies this, buffer
      ensures Valid()
      ensures (trace.sent, trace.popped) == PerformedAll(capacity, old(trace.sent), old(trace.popped), calls)
      ensures r <==> (|trace.sent| - |old(trace.popped)|) % capacity == 0
      ensures calls == [] ==> trace == old(trace) && (r <==> Contents() == [])
    {
      IndicesAre(trace);
      ghost var popped := |trace.popped|;
      CallsOnlyAdd(capacity, trace.sent, trace.popped, calls);
      var h := head;
      Meanwhile(calls);
      IndicesAre(trace);
      SameRemainder(|trace.sent|, popped, capacity);
      if calls == [] { ModIs(|Contents()|, capacity, 0, |Contents()|); }
      r := h == tail;
    }
  }
}
