/** The linked multi-producer single-consumer queue, one step per shared access.

    A push is three steps of its producer: allocate the node, exchange the tail,
    link the previous node.  A pop is three steps of the consumer: load the head's
    successor, take its data and advance, free the old head.  Steps of any number of
    producers and of the consumer interleave freely, and the allocator may hand out
    any address that is not live, so an address freed by the consumer can come back
    as the node of a later push.  A step that touches memory that is not live, or
    data that was already moved out, is a `Fault`. */
module MpscProtocol {
  import opened Common

  type Addr = nat
  type Pid = nat

  datatype Node<T> = Node(data: Option<T>, next: Option<Addr>)

  datatype Item<T> = Item(pid: Pid, value: T)

  /** Where a producer stands inside `push`. `ticket` numbers the exchanges from 1. */
  datatype PushPhase<T> =
    | Allocated(node: Addr, value: T)
    | Exchanged(prev: Addr, node: Addr, ticket: nat)

  /** Where the consumer stands inside `pop`. */
  datatype PopPhase = Ready | Loaded(next: Addr) | Advanced(spent: Addr)

  /** `heap` holds the live nodes. The last five fields are history: no step looks at
      them to decide what it does to the others. */
  datatype State<T> = State(
    heap: map<Addr, Node<T>>,
    tail: Addr,
    head: Addr,
    pushing: map<Pid, PushPhase<T>>,
    popping: PopPhase,
    calls: seq<Item<T>>,
    exchanged: seq<Item<T>>,
    popped: seq<T>,
    chain: seq<Addr>,
    frees: multiset<Addr>,
    allocs: multiset<Addr>)

  datatype Step<T> =
    | Alloc(pid: Pid, value: T, addr: Addr)
    | Exchange(pid: Pid)
    | Link(pid: Pid)
    | PopLoad
    | PopTake
    | PopFree

  /** The constructor: one sentinel, which is both head and tail. */
  ghost function Init<T>(sentinel: Addr): State<T> {
    State(map[sentinel := Node(None, None)], sentinel, sentinel, map[], Ready,
          [], [], [], [sentinel], multiset{}, multiset{sentinel})
  }

  /** Program order of each thread, and the allocator's only promise. */
  ghost predicate Enabled<T>(s: State<T>, step: Step<T>) {
    match step
    case Alloc(pid, _, addr) => pid !in s.pushing && addr !in s.heap
    case Exchange(pid) => pid in s.pushing && s.pushing[pid].Allocated?
    case Link(pid) => pid in s.pushing && s.pushing[pid].Exchanged?
    case PopLoad => s.popping.Ready?
    case PopTake => s.popping.Loaded?
    case PopFree => s.popping.Advanced?
  }

  ghost function Next<T>(s: State<T>, step: Step<T>): Outcome<State<T>>
    requires Enabled(s, step)
  {
    match step
    case Alloc(pid, value, addr) =>
      Running(s.(heap := s.heap[addr := Node(Some(value), None)],
                 pushing := s.pushing[pid := Allocated(addr, value)],
                 calls := s.calls + [Item(pid, value)],
                 allocs := s.allocs + multiset{addr}))
    case Exchange(pid) =>
      var p := s.pushing[pid];
      Running(s.(tail := p.node,
                 pushing := s.pushing[pid := Exchanged(s.tail, p.node, |s.exchanged| + 1)],
                 exchanged := s.exchanged + [Item(pid, p.value)],
                 chain := s.chain + [p.node]))
    case Link(pid) =>
      var p := s.pushing[pid];
      if p.prev !in s.heap then Fault
      else Running(s.(heap := s.heap[p.prev := s.heap[p.prev].(next := Some(p.node))],
                      pushing := s.pushing - {pid}))
    case PopLoad =>
      if s.head !in s.heap then Fault
      else match s.heap[s.head].next {
        case None => Running(s)
        case Some(n) => Running(s.(popping := Loaded(n)))
      }
    case PopTake =>
      var n := s.popping.next;
      if n !in s.heap || s.heap[n].data.None? then Fault
      else Running(s.(heap := s.heap[n := s.heap[n].(data := None)],
                      head := n,
                      popping := Advanced(s.head),
                      popped := s.popped + [s.heap[n].data.value],
                      chain := if s.chain == [] then [] else s.chain[1..]))
    case PopFree =>
      if s.popping.spent !in s.heap then Fault
      else Running(s.(heap := s.heap - {s.popping.spent},
                      popping := Ready,
                      frees := s.frees + multiset{s.popping.spent}))
  }

  /** Runs a whole schedule. */
  ghost function Exec<T>(s: State<T>, steps: seq<Step<T>>): Outcome<State<T>> {
    if steps == [] then Running(s)
    else
      match Exec(s, steps[..|steps| - 1])
      case Fault => Fault
      case Stuck => Stuck
      case Running(m) =>
        if Enabled(m, steps[|steps| - 1]) then Next(m, steps[|steps| - 1]) else Stuck
  }

  // ------------------------------------------------------------------ invariant

  /** The producer of exchange number `ticket` has not linked its node yet. */
  ghost predicate Paused<T>(s: State<T>, ticket: nat)
    requires 1 <= ticket <= |s.exchanged|
  {
    var pid := s.exchanged[ticket - 1].pid;
    pid in s.pushing && s.pushing[pid].Exchanged? && s.pushing[pid].ticket == ticket
  }

  ghost predicate NoneInProgress<T>(s: State<T>) { s.pushing == map[] }

  /** `chain` lists the live exchanged nodes in exchange order, from head to tail. */
  ghost predicate ChainOk<T>(s: State<T>) {
    && |s.popped| <= |s.exchanged|
    && |s.chain| == |s.exchanged| - |s.popped| + 1
    && s.chain[0] == s.head
    && s.chain[|s.chain| - 1] == s.tail
    && (forall i, j :: 0 <= i < j < |s.chain| ==> s.chain[i] != s.chain[j])
    && (forall i :: 0 <= i < |s.chain| ==> s.chain[i] in s.heap)
  }

  /** What was popped is what was exchanged first. */
  ghost predicate PoppedOk<T>(s: State<T>) {
    && |s.popped| <= |s.exchanged|
    && forall i :: 0 <= i < |s.popped| ==> s.popped[i] == s.exchanged[i].value
  }

  /** The nodes behind the head still hold what was exchanged after that. */
  ghost predicate DataOk<T>(s: State<T>)
    requires ChainOk(s)
  {
    forall i :: 1 <= i < |s.chain| ==>
      s.heap[s.chain[i]].data == Some(s.exchanged[|s.popped| + i - 1].value)
  }

  /** A chain node points to its successor exactly when the pusher of the successor is not paused. */
  ghost predicate LinkAt<T>(s: State<T>, i: nat)
    requires ChainOk(s) && i < |s.chain| - 1
  {
    s.heap[s.chain[i]].next == if Paused(s, |s.popped| + i + 1) then None else Some(s.chain[i + 1])
  }

  ghost predicate LinkOk<T>(s: State<T>)
    requires ChainOk(s)
  {
    s.heap[s.tail].next == None && forall i: nat :: i < |s.chain| - 1 ==> LinkAt(s, i)
  }

  ghost predicate PushOk<T>(s: State<T>, p: PushPhase<T>, pid: Pid)
    requires ChainOk(s)
  {
    match p
    case Allocated(node, value) =>
      node in s.heap && s.heap[node] == Node(Some(value), None) && node !in s.chain
    case Exchanged(prev, node, ticket) =>
      && |s.popped| < ticket <= |s.exchanged|
      && s.exchanged[ticket - 1].pid == pid
      && s.chain[ticket - 1 - |s.popped|] == prev
      && s.chain[ticket - |s.popped|] == node
  }

  ghost predicate PushersOk<T>(s: State<T>)
    requires ChainOk(s)
  {
    && (forall p :: p in s.pushing ==> PushOk(s, s.pushing[p], p))
    && (forall p, q :: p in s.pushing && q in s.pushing && p != q
          && s.pushing[p].Allocated? && s.pushing[q].Allocated?
          ==> s.pushing[p].node != s.pushing[q].node)
  }

  ghost predicate PopOk<T>(s: State<T>)
    requires ChainOk(s)
  {
    match s.popping
    case Ready => true
    case Loaded(next) => |s.chain| >= 2 && next == s.chain[1] && s.heap[s.head].next == Some(next)
    case Advanced(spent) =>
      && spent in s.heap && spent !in s.chain
      && (forall p :: p in s.pushing && s.pushing[p].Allocated? ==> s.pushing[p].node != spent)
  }

  /** Nothing leaks: every live node is on the chain, in the hands of a pusher, or about to be freed. */
  ghost predicate Owned<T>(s: State<T>, a: Addr) {
    || a in s.chain
    || (exists p :: p in s.pushing && s.pushing[p].Allocated? && s.pushing[p].node == a)
    || s.popping == Advanced(a)
  }

  ghost predicate NoLeak<T>(s: State<T>) {
    forall a :: a in s.heap ==> Owned(s, a)
  }

  /** Every allocation is live or was freed, and was freed once. */
  ghost predicate CountOk<T>(s: State<T>) {
    s.allocs == s.frees + multiset(s.heap.Keys)
  }

  ghost function ByPid<T>(items: seq<Item<T>>, pid: Pid): seq<T> {
    if items == [] then []
    else
      var last := items[|items| - 1];
      ByPid(items[..|items| - 1], pid) + if last.pid == pid then [last.value] else []
  }

  /** The value a producer has allocated but not exchanged yet. */
  ghost function InHand<T>(s: State<T>, pid: Pid): seq<T> {
    if pid in s.pushing && s.pushing[pid].Allocated? then [s.pushing[pid].value] else []
  }

  ghost predicate CallsOk<T>(s: State<T>) {
    forall pid: Pid :: ByPid(s.calls, pid) == ByPid(s.exchanged, pid) + InHand(s, pid)
  }

  ghost predicate ShapeOk<T>(s: State<T>) {
    ChainOk(s) && PoppedOk(s) && DataOk(s) && LinkOk(s) && PushersOk(s) && PopOk(s)
  }

  ghost predicate Inv<T>(s: State<T>) {
    ShapeOk(s) && NoLeak(s) && CountOk(s) && CallsOk(s)
  }

  // ------------------------------------------------------------------ each step keeps it

  lemma InitKeeps<T>(sentinel: Addr)
    ensures Inv(Init<T>(sentinel))
  {
  }

  /** No step faults: every node a step touches is live, and every datum it moves is there. */
  lemma NoFault<T>(s: State<T>, step: Step<T>)
    requires ShapeOk(s) && Enabled(s, step)
    ensures Next(s, step).Running?
  {
  }

  lemma StepKeepsChain<T>(s: State<T>, step: Step<T>)
    requires ShapeOk(s) && Enabled(s, step) && Next(s, step).Running?
    ensures ChainOk(Next(s, step).state)
  {
  }

  lemma StepKeepsData<T>(s: State<T>, step: Step<T>)
    requires ChainOk(s) && DataOk(s) && PopOk(s) && Enabled(s, step) && Next(s, step).Running?
    requires step.Exchange? ==> PushOk(s, s.pushing[step.pid], step.pid)
    requires ChainOk(Next(s, step).state)
    ensures DataOk(Next(s, step).state)
  {
  }

  lemma StepKeepsPopped<T>(s: State<T>, step: Step<T>)
    requires ChainOk(s) && PoppedOk(s) && DataOk(s) && PopOk(s) && Enabled(s, step) && Next(s, step).Running?
    requires ChainOk(Next(s, step).state)
    ensures PoppedOk(Next(s, step).state)
  {
  }

  /** The first exchange that is not popped cannot be taken while its producer is paused. */
  lemma PushAtAfterTake<T>(s: State<T>, step: Step<T>, p: Pid)
    requires ChainOk(s) && PopOk(s) && step.PopTake? && Enabled(s, step) && LinkAt(s, 0)
    requires p in s.pushing && PushOk(s, s.pushing[p], p)
    requires Next(s, step).Running? && ChainOk(Next(s, step).state)
    ensures PushOk(Next(s, step).state, s.pushing[p], p)
  {
  }

  lemma PushAtAfterPush<T>(s: State<T>, step: Step<T>, p: Pid)
    requires ChainOk(s) && (step.Exchange? || step.Link?) && Enabled(s, step)
    requires PushOk(s, s.pushing[step.pid], step.pid)
    requires p in s.pushing && PushOk(s, s.pushing[p], p)
    requires p != step.pid && s.pushing[p].Allocated? && s.pushing[step.pid].Allocated?
             ==> s.pushing[p].node != s.pushing[step.pid].node
    requires Next(s, step).Running? && ChainOk(Next(s, step).state)
    ensures p in Next(s, step).state.pushing ==>
              PushOk(Next(s, step).state, Next(s, step).state.pushing[p], p)
  {
  }

  lemma PushAtAfterOther<T>(s: State<T>, step: Step<T>, p: Pid)
    requires ChainOk(s) && (step.Alloc? || step.PopLoad? || step.PopFree?) && Enabled(s, step)
    requires p in s.pushing ==> PushOk(s, s.pushing[p], p)
    requires step.PopFree? && p in s.pushing && s.pushing[p].Allocated? ==> s.pushing[p].node != s.popping.spent
    requires Next(s, step).Running? && ChainOk(Next(s, step).state) && p in Next(s, step).state.pushing
    ensures PushOk(Next(s, step).state, Next(s, step).state.pushing[p], p)
  {
  }

  lemma PushAtKeeps<T>(s: State<T>, step: Step<T>, p: Pid)
    requires ShapeOk(s) && Enabled(s, step) && Next(s, step).Running?
    requires ChainOk(Next(s, step).state) && p in Next(s, step).state.pushing
    ensures PushOk(Next(s, step).state, Next(s, step).state.pushing[p], p)
  {
    match step
    case Link(pid) => PushAtAfterPush(s, step, p);
    case Exchange(pid) => PushAtAfterPush(s, step, p);
    case PopTake => PushAtAfterTake(s, step, p);
    case _ => PushAtAfterOther(s, step, p);
  }

  lemma StepKeepsPush<T>(s: State<T>, step: Step<T>)
    requires ShapeOk(s) && Enabled(s, step) && Next(s, step).Running?
    requires ChainOk(Next(s, step).state)
    ensures PushersOk(Next(s, step).state)
  {
    var t := Next(s, step).state;
    forall p | p in t.pushing ensures PushOk(t, t.pushing[p], p) {
      PushAtKeeps(s, step, p);
    }
    forall p, q | p in t.pushing && q in t.pushing && p != q
      && t.pushing[p].Allocated? && t.pushing[q].Allocated?
      ensures t.pushing[p].node != t.pushing[q].node
    {
      if p in s.pushing { assert PushOk(s, s.pushing[p], p); }
      if q in s.pushing { assert PushOk(s, s.pushing[q], q); }
    }
  }

  lemma LinkAtAfterExchange<T>(s: State<T>, step: Step<T>, i: nat)
    requires ShapeOk(s) && step.Exchange? && Enabled(s, step)
    requires ChainOk(Next(s, step).state) && i < |s.chain|
    ensures LinkAt(Next(s, step).state, i)
  {
    var t := Next(s, step).state;
    assert PushOk(s, s.pushing[step.pid], step.pid);
    if i == |s.chain| - 1 {
      assert Paused(t, |t.exchanged|);
    } else {
      assert LinkAt(s, i);
    }
  }

  lemma LinkAtAfterLink<T>(s: State<T>, step: Step<T>, i: nat)
    requires step.Link? && Enabled(s, step) && Next(s, step).Running?
    requires ChainOk(s) && PushOk(s, s.pushing[step.pid], step.pid)
    requires ChainOk(Next(s, step).state) && i < |s.chain| - 1 && LinkAt(s, i)
    ensures LinkAt(Next(s, step).state, i)
  {
  }

  lemma LinkAtAfterOther<T>(s: State<T>, step: Step<T>, i: nat)
    requires !step.Link? && !step.Exchange? && Enabled(s, step) && Next(s, step).Running?
    requires ChainOk(s) && ChainOk(Next(s, step).state) && i < |Next(s, step).state.chain| - 1
    requires var j := if step.PopTake? then i + 1 else i; LinkAt(s, j)
    requires step.PopFree? ==> s.popping.spent !in s.chain
    ensures LinkAt(Next(s, step).state, i)
  {
  }

  lemma LinkAtKeeps<T>(s: State<T>, step: Step<T>, i: nat)
    requires ShapeOk(s) && Enabled(s, step) && Next(s, step).Running?
    requires ChainOk(Next(s, step).state)
    requires i < |Next(s, step).state.chain| - 1
    ensures LinkAt(Next(s, step).state, i)
  {
    match step
    case Exchange(_) => LinkAtAfterExchange(s, step, i);
    case Link(pid) =>
      assert PushOk(s, s.pushing[pid], pid);
      LinkAtAfterLink(s, step, i);
    case _ => LinkAtAfterOther(s, step, i);
  }

  lemma StepKeepsLink<T>(s: State<T>, step: Step<T>)
    requires ShapeOk(s) && Enabled(s, step) && Next(s, step).Running?
    requires ChainOk(Next(s, step).state)
    ensures LinkOk(Next(s, step).state)
  {
    var t := Next(s, step).state;
    if step.Exchange? || step.Link? {
      assert PushOk(s, s.pushing[step.pid], step.pid);
    }
    forall i: nat | i < |t.chain| - 1 ensures LinkAt(t, i) {
      LinkAtKeeps(s, step, i);
    }
  }

  lemma StepKeepsPop<T>(s: State<T>, step: Step<T>)
    requires ShapeOk(s) && Enabled(s, step) && Next(s, step).Running?
    requires ChainOk(Next(s, step).state)
    ensures PopOk(Next(s, step).state)
  {
    match step
    case Exchange(pid) => assert PushOk(s, s.pushing[pid], pid);
    case Link(pid) =>
      assert PushOk(s, s.pushing[pid], pid);
      assert Paused(s, s.pushing[pid].ticket);
      if |s.chain| > 1 { assert LinkAt(s, 0); }
    case PopLoad => if |s.chain| > 1 { assert LinkAt(s, 0); }
    case PopTake =>
      forall p | p in s.pushing && s.pushing[p].Allocated? ensures s.pushing[p].node != s.head {
        assert PushOk(s, s.pushing[p], p);
      }
    case _ =>
  }

  lemma StepKeepsShape<T>(s: State<T>, step: Step<T>)
    requires ShapeOk(s) && Enabled(s, step)
    ensures Next(s, step).Running? && ShapeOk(Next(s, step).state)
  {
    NoFault(s, step);
    StepKeepsChain(s, step);
    assert step.Exchange? ==> PushOk(s, s.pushing[step.pid], step.pid);
    StepKeepsPopped(s, step);
    StepKeepsData(s, step);
    StepKeepsPush(s, step);
    StepKeepsLink(s, step);
    StepKeepsPop(s, step);
  }

  /** An owned node stays owned unless the step frees it. */
  lemma OwnerKeeps<T>(s: State<T>, step: Step<T>, a: Addr)
    requires ShapeOk(s) && Enabled(s, step) && Next(s, step).Running?
    requires Owned(s, a) && a in Next(s, step).state.heap
    ensures Owned(Next(s, step).state, a)
  {
    var t := Next(s, step).state;
    if i :| 0 <= i < |s.chain| && s.chain[i] == a {
      if step.PopTake? && i > 0 {
        assert t.chain[i - 1] == a;
      } else if step.Exchange? {
        assert t.chain[i] == a;
      }
    } else if p :| p in s.pushing && s.pushing[p].Allocated? && s.pushing[p].node == a {
      if step == Exchange(p) {
        assert t.chain[|s.chain|] == a;
      } else {
        assert t.pushing[p] == s.pushing[p];
      }
    }
  }

  lemma StepKeepsNoLeak<T>(s: State<T>, step: Step<T>)
    requires ShapeOk(s) && NoLeak(s) && Enabled(s, step) && Next(s, step).Running?
    ensures NoLeak(Next(s, step).state)
  {
    var t := Next(s, step).state;
    forall a | a in t.heap ensures Owned(t, a) {
      if a in s.heap {
        OwnerKeeps(s, step, a);
      } else {
        assert t.pushing[step.pid].node == a;
      }
    }
  }

  lemma StepKeepsCount<T>(s: State<T>, step: Step<T>)
    requires ShapeOk(s) && CountOk(s) && Enabled(s, step) && Next(s, step).Running?
    ensures CountOk(Next(s, step).state)
  {
  }

  lemma ByPidAppend<T>(items: seq<Item<T>>, x: Item<T>, pid: Pid)
    ensures ByPid(items + [x], pid) == ByPid(items, pid) + if x.pid == pid then [x.value] else []
  {
  }

  lemma StepKeepsCalls<T>(s: State<T>, step: Step<T>)
    requires CallsOk(s) && Enabled(s, step) && Next(s, step).Running?
    ensures CallsOk(Next(s, step).state)
  {
    var t := Next(s, step).state;
    forall pid: Pid ensures ByPid(t.calls, pid) == ByPid(t.exchanged, pid) + InHand(t, pid) {
      if step.Alloc? {
        ByPidAppend(s.calls, Item(step.pid, step.value), pid);
      } else if step.Exchange? {
        ByPidAppend(s.exchanged, Item(step.pid, s.pushing[step.pid].value), pid);
      }
    }
  }

  lemma StepKeeps<T>(s: State<T>, step: Step<T>)
    requires Inv(s) && Enabled(s, step)
    ensures Next(s, step).Running? && Inv(Next(s, step).state)
  {
    StepKeepsShape(s, step);
    StepKeepsNoLeak(s, step);
    StepKeepsCount(s, step);
    StepKeepsCalls(s, step);
  }
}
