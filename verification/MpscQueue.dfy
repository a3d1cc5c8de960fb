/** What the step-by-step model of the linked queue guarantees in every reachable state,
    and the queue in its imperative form. */
module MpscQueue {
  import opened Common
  import opened MpscProtocol

  // ------------------------------------------------------------------ every schedule

  /** Whatever the interleaving, the number of producers and the addresses the allocator
      hands out: no step touches a node that is not live, frees a node twice or moves
      data twice, and the invariant holds. */
  lemma {:induction false} EveryScheduleIsSafe<T>(sentinel: Addr, steps: seq<Step<T>>)
    ensures !Exec(Init(sentinel), steps).Fault?
    ensures Exec(Init(sentinel), steps).Running? ==> Inv(Exec(Init(sentinel), steps).state)
  {
    InitKeeps<T>(sentinel);
    if steps != [] {
      EveryScheduleIsSafe(sentinel, steps[..|steps| - 1]);
      match Exec(Init(sentinel), steps[..|steps| - 1])
      case Running(m) =>
        if Enabled(m, steps[|steps| - 1]) { StepKeeps(m, steps[|steps| - 1]); }
      case _ =>
    }
  }

  /** Some schedule leads from some freshly constructed queue to `s`. */
  ghost predicate Reachable<T(!new)>(s: State<T>) {
    exists sentinel, steps :: Exec(Init(sentinel), steps) == Running(s)
  }

  lemma ReachableInv<T(!new)>(s: State<T>)
    requires Reachable(s)
    ensures Inv(s)
  {
    var sentinel, steps :| Exec(Init(sentinel), steps) == Running(s);
    EveryScheduleIsSafe(sentinel, steps);
  }

  lemma ReachableInit<T(!new)>(sentinel: Addr)
    ensures Reachable(Init<T>(sentinel))
  {
    assert Exec(Init<T>(sentinel), []) == Running(Init<T>(sentinel));
  }

  lemma ReachableNext<T(!new)>(s: State<T>, step: Step<T>)
    requires Reachable(s) && Enabled(s, step)
    ensures Next(s, step).Running? && Reachable(Next(s, step).state)
  {
    ReachableInv(s);
    NoFault(s, step);
    var sentinel, steps :| Exec(Init(sentinel), steps) == Running(s);
    assert (steps + [step])[..|steps|] == steps;
    assert Exec(Init(sentinel), steps + [step]) == Next(s, step);
  }

  // ------------------------------------------------------------------ memory

  /** Each address was handed out exactly as often as it was freed, plus once if it is live. */
  lemma EveryAllocationFreedOnce<T(!new)>(s: State<T>, a: Addr)
    requires Reachable(s)
    ensures s.allocs[a] == s.frees[a] + if a in s.heap then 1 else 0
  {
    ReachableInv(s);
    assert multiset(s.heap.Keys)[a] == if a in s.heap then 1 else 0;
  }

  /** The node the consumer is about to free is not the head or the tail, and no producer
      that is still inside `push` will write it. */
  lemma FreedNodeIsUnneeded<T(!new)>(s: State<T>, p: Pid)
    requires Reachable(s) && s.popping.Advanced?
    ensures s.popping.spent in s.heap
    ensures s.popping.spent != s.tail && s.popping.spent != s.head
    ensures p in s.pushing ==> s.pushing[p].node in s.heap && s.pushing[p].node != s.popping.spent
    ensures p in s.pushing && s.pushing[p].Exchanged? ==>
              s.pushing[p].prev in s.heap && s.pushing[p].prev != s.popping.spent
  {
    ReachableInv(s);
    assert p in s.pushing ==> PushOk(s, s.pushing[p], p);
  }

  // ------------------------------------------------------------------ order

  /** The items popped so far, with their producers. */
  ghost function PoppedItems<T>(s: State<T>): seq<Item<T>>
    requires |s.popped| <= |s.exchanged|
  {
    s.exchanged[..|s.popped|]
  }

  lemma {:induction false} ByPidPrefix<T>(items: seq<Item<T>>, n: nat, pid: Pid)
    requires n <= |items|
    ensures ByPid(items[..n], pid) <= ByPid(items, pid)
  {
    if n == |items| {
      assert items[..n] == items;
    } else {
      var front := items[..|items| - 1];
      ByPidPrefix(front, n, pid);
      assert front[..n] == items[..n];
    }
  }

  /** Nothing is lost, duplicated or reordered: the popped values are the first exchanged
      values, and what was popped from one producer is a prefix of what it pushed, in its order. */
  lemma PoppedIsPrefix<T(!new)>(s: State<T>, pid: Pid)
    requires Reachable(s)
    ensures |s.popped| <= |s.exchanged|
    ensures forall i :: 0 <= i < |s.popped| ==> s.popped[i] == PoppedItems(s)[i].value
    ensures ByPid(PoppedItems(s), pid) <= ByPid(s.exchanged, pid) <= ByPid(s.calls, pid)
  {
    ReachableInv(s);
    ByPidPrefix(s.exchanged, |s.popped|, pid);
  }

  // ------------------------------------------------------------------ refinement of a FIFO

  ghost function Values<T>(items: seq<Item<T>>): seq<T> {
    seq(|items|, i requires 0 <= i < |items| => items[i].value)
  }

  /** The abstract queue: what was exchanged and not popped yet. */
  ghost function Queue<T>(s: State<T>): seq<T> {
    if |s.popped| <= |s.exchanged| then Values(s.exchanged[|s.popped|..]) else []
  }

  /** What an atomic step of an unbounded FIFO would do to its contents and its output. */
  ghost predicate FifoStep<T>(s: State<T>, step: Step<T>, t: State<T>)
    requires Enabled(s, step)
  {
    match step
    case Exchange(pid) => Queue(t) == Queue(s) + [s.pushing[pid].value] && t.popped == s.popped
    case PopTake => Queue(s) != [] && Queue(t) == Queue(s)[1..] && t.popped == s.popped + [Queue(s)[0]]
    case _ => Queue(t) == Queue(s) && t.popped == s.popped
  }

  lemma ValuesAppend<T>(items: seq<Item<T>>, n: nat, x: Item<T>)
    requires n <= |items|
    ensures Values((items + [x])[n..]) == Values(items[n..]) + [x.value]
  {
  }

  lemma ValuesDrop<T>(items: seq<Item<T>>, n: nat)
    requires n < |items|
    ensures Values(items[n..])[0] == items[n].value && Values(items[n + 1..]) == Values(items[n..])[1..]
  {
  }

  lemma QueueStep<T>(s: State<T>, step: Step<T>)
    requires ChainOk(s) && PoppedOk(s) && DataOk(s) && PopOk(s)
    requires Enabled(s, step) && Next(s, step).Running?
    ensures FifoStep(s, step, Next(s, step).state)
  {
    var n := |s.popped|;
    match step
    case Exchange(pid) => ValuesAppend(s.exchanged, n, Item(pid, s.pushing[pid].value));
    case PopTake => ValuesDrop(s.exchanged, n);
    case _ =>
  }

  /** Each step is one atomic step of an unbounded FIFO: the exchange enqueues, taking
      dequeues the front, every other step changes nothing. */
  lemma StepRefinesFifo<T(!new)>(s: State<T>, step: Step<T>)
    requires Reachable(s) && Enabled(s, step)
    ensures Next(s, step).Running? && Reachable(Next(s, step).state)
    ensures FifoStep(s, step, Next(s, step).state)
  {
    ReachableNext(s, step);
    ReachableInv(s);
    QueueStep(s, step);
  }

  /** The producer of the first item that is not popped has not linked it yet. */
  ghost predicate FirstIsPaused<T>(s: State<T>) {
    |s.popped| < |s.exchanged| && Paused(s, |s.popped| + 1)
  }

  /** `pop` finds nothing exactly when everything exchanged was popped or the producer that
      has to link the head's successor is still between its exchange and its link. */
  lemma PopFindsNothingIff<T(!new)>(s: State<T>)
    requires Reachable(s) && s.popping.Ready?
    ensures s.head in s.heap
    ensures s.heap[s.head].next == None <==> Queue(s) == [] || FirstIsPaused(s)
    ensures (forall p :: p in s.pushing ==> s.pushing[p].Allocated?) ==> !FirstIsPaused(s)
  {
    ReachableInv(s);
    if |s.chain| > 1 { assert LinkAt(s, 0); }
  }

  lemma OnlyTheHeadIsLeft<T(!new)>(s: State<T>)
    requires Reachable(s) && NoneInProgress(s) && s.popping.Ready? && Queue(s) == []
    ensures s.heap.Keys == {s.head} && s.allocs == s.frees + multiset{s.head}
  {
    ReachableInv(s);
    assert s.chain == [s.head];
    assert forall a :: a in s.heap ==> Owned(s, a);
    assert s.heap.Keys == {s.head};
  }

  // ------------------------------------------------------------------ the class

  class MpscQueue<T(!new)> {
    var heap: map<Addr, Node<T>>
    var tail: Addr
    var head: Addr
    ghost var trace: State<T>

    /** Every queue object is in a state that some schedule of the protocol reaches. */
    ghost predicate Valid() reads this {
      && Reachable(trace) && trace.popping.Ready?
      && trace.heap == heap && trace.tail == tail && trace.head == head
    }

    ghost function Contents(): seq<T> reads this { Queue(trace) }

    constructor (sentinel: Addr)
      ensures Valid() && trace == Init(sentinel)
      ensures Contents() == [] && NoneInProgress(trace)
    {
      heap := map[sentinel := Node(None, None)];
      tail := sentinel;
      head := sentinel;
      trace := Init(sentinel);
      ReachableInit<T>(sentinel);
    }

    ghost method Record(step: Step<T>)
      requires Reachable(trace) && Enabled(trace, step)
      modifies this`trace
      ensures Next(old(trace), step) == Running(trace) && Reachable(trace)
      ensures FifoStep(old(trace), step, trace)
    {
      StepRefinesFifo(trace, step);
      trace := Next(trace, step).state;
    }

    /** Some address the allocator can hand out: here the lowest one that is not live. */
    method FreeAddress() returns (a: Addr)
      ensures a !in heap && forall b: Addr :: b < a ==> b in heap
    {
      a := 0;
      ghost var below: set<Addr> := {};
      while a in heap
        invariant forall b: Addr :: b < a ==> b in heap
        invariant forall b: Addr :: b in below <==> b < a
        decreases heap.Keys - below
      {
        assert a in heap.Keys - below;
        below := below + {a};
        a := a + 1;
      }
    }

    /** `new Node{value}`, at whatever address that is not live. */
    method NewNode(ghost pid: Pid, value: T, newNode: Addr)
      requires Valid() && pid !in trace.pushing && newNode !in heap
      modifies this
      ensures Valid() && Contents() == old(Contents()) && trace.popped == old(trace.popped)
      ensures trace.pushing == old(trace.pushing)[pid := Allocated(newNode, value)]
    {
      heap := heap[newNode := Node(Some(value), None)];
      Record(Alloc(pid, value, newNode));
    }

    /** The exchange of the tail; the producer is paused when it returns. */
    method ExchangeTail(ghost pid: Pid, ghost value: T, newNode: Addr) returns (prevTail: Addr)
      requires Valid() && pid in trace.pushing && trace.pushing[pid] == Allocated(newNode, value)
      modifies this
      ensures Valid() && Contents() == old(Contents()) + [value] && trace.popped == old(trace.popped)
      ensures trace.pushing ==
                old(trace.pushing)[pid := Exchanged(prevTail, newNode, |old(trace.exchanged)| + 1)]
    {
      prevTail := tail;
      tail := newNode;
      Record(Exchange(pid));
    }

    /** The last step of `push`. */
    method LinkNode(ghost pid: Pid, prevTail: Addr, newNode: Addr)
      requires Valid() && pid in trace.pushing && trace.pushing[pid].Exchanged?
      requires trace.pushing[pid].prev == prevTail && trace.pushing[pid].node == newNode
      modifies this
      ensures Valid() && Contents() == old(Contents()) && trace.popped == old(trace.popped)
      ensures trace.pushing == old(trace.pushing) - {pid}
    {
      ReachableNext(trace, Link(pid));
      heap := heap[prevTail := heap[prevTail].(next := Some(newNode))];
      Record(Link(pid));
    }

    method Push(ghost pid: Pid, value: T, newNode: Addr)
      requires Valid() && pid !in trace.pushing && newNode !in heap
      modifies this
      ensures Valid() && Contents() == old(Contents()) + [value] && trace.popped == old(trace.popped)
      ensures trace.pushing == old(trace.pushing)
    {
      NewNode(pid, value, newNode);
      var prevTail := ExchangeTail(pid, value, newNode);
      LinkNode(pid, prevTail, newNode);
    }

    /** `out = move(next->data)` and the advance of the head. */
    method Take(next: Addr) returns (out: T)
      requires Reachable(trace) && trace.heap == heap && trace.tail == tail && trace.head == head
      requires trace.popping == Loaded(next)
      modifies this
      ensures Next(old(trace), PopTake) == Running(trace) && Reachable(trace)
      ensures trace.heap == heap && trace.tail == tail && trace.head == head
      ensures FifoStep(old(trace), PopTake, trace) && out == old(Contents())[0]
    {
      ReachableNext(trace, PopTake);
      out := heap[next].data.value;
      heap := heap[next := heap[next].(data := None)];
      head := next;
      Record(PopTake);
      assert trace.popped[|old(trace.popped)|] == out;
    }

    /** `delete old_head` */
    method Free(oldHead: Addr)
      requires Reachable(trace) && trace.heap == heap && trace.tail == tail && trace.head == head
      requires trace.popping == Advanced(oldHead)
      modifies this
      ensures Next(old(trace), PopFree) == Running(trace) && Valid()
      ensures FifoStep(old(trace), PopFree, trace)
    {
      ReachableNext(trace, PopFree);
      heap := heap - {oldHead};
      Record(PopFree);
    }

    method Pop() returns (out: Option<T>)
      requires Valid()
      modifies this
      ensures Valid() && trace.pushing == old(trace.pushing) && trace.allocs == old(trace.allocs)
      ensures out.None? <==> old(Contents()) == [] || old(FirstIsPaused(trace))
      ensures out.None? ==> trace == old(trace)
      ensures out.Some? ==> old(Contents()) != [] && out.value == old(Contents())[0]
                            && Contents() == old(Contents())[1..]
                            && trace.popped == old(trace.popped) + [out.value]
      ensures NoneInProgress(trace) ==> (out.None? <==> old(Contents()) == [])
    {
      PopFindsNothingIff(trace);
      var next := heap[head].next;
      Record(PopLoad);
      if next.None? { return None; }
      var oldHead := head;
      var data := Take(next.value);
      Free(oldHead);
      out := Some(data);
    }

    method Empty() returns (r: bool)
      requires Valid()
      ensures r <==> Contents() == [] || FirstIsPaused(trace)
    {
      PopFindsNothingIff(trace);
      r := heap[head].next.None?;
    }

    /** One `pop` of the destructor's loop: it moves the front item to the popped ones. */
    method PopRound(ghost goal: seq<T>) returns (out: Option<T>)
      requires Valid() && NoneInProgress(trace) && trace.popped + Contents() == goal
      modifies this
      ensures Valid() && NoneInProgress(trace) && trace.popped + Contents() == goal
      ensures trace.allocs == old(trace.allocs)
      ensures if out.None? then Contents() == [] else |Contents()| < |old(Contents())|
    {
      out := Pop();
      if out.Some? { FrontMoves(old(trace.popped), old(Contents())); }
    }

    /** The destructor's loop. */
    method Drain()
      requires Valid() && NoneInProgress(trace)
      modifies this
      ensures Valid() && NoneInProgress(trace) && Contents() == []
      ensures trace.allocs == old(trace.allocs)
      ensures trace.popped == old(trace.popped) + old(Contents())
    {
      ghost var goal := trace.popped + Contents();
      var ignored := PopRound(goal);
      while ignored.Some?
        invariant Valid() && NoneInProgress(trace)
        invariant ignored.None? ==> Contents() == []
        invariant trace.allocs == old(trace.allocs)
        invariant trace.popped + Contents() == goal
        decreases |Contents()|, ignored.Some?
      {
        ignored := PopRound(goal);
      }
    }

    /** The destructor: drains what is left and frees the last node. Every node ever
        allocated has then been freed, once per allocation. */
    method Destroy()
      requires Valid() && NoneInProgress(trace)
      modifies this
      ensures heap == map[] && trace.heap == heap
      ensures trace.frees == trace.allocs == old(trace.allocs)
      ensures trace.popped == old(trace.popped) + old(Contents())
    {
      Drain();
      OnlyTheHeadIsLeft(trace);
      trace := trace.(heap := map[], frees := trace.frees + multiset{head});
      heap := heap - {head};
    }
  }
}
