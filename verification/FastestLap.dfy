/** `RaceState::try_claim_fastest_lap`: a compare-and-swap retry loop on the fastest time,
    followed by a separate store of the holder, run by any number of claimants at once.

    One step per atomic access: the load, each compare-and-swap (which may fail for no
    reason) and the store of the holder; the comparison in the loop head is a step too.
    Lap times are reals. */
module FastestLap {
  datatype Phase =
    | AtTest(seen: real)          // about to compare its lap with what it saw
    | AtCas(seen: real)           // about to compare and swap
    | AtStore                     // has swapped, about to store the holder
    | Returned(won: bool)

  /** `losses` counts the failures of the compare-and-swap because of a changed value;
      `winsAtCall` and `winsAtLoad` how many claims had won when this one started and when it
      last saw the fastest time. */
  datatype Claim = Claim(driver: int, lap: real, phase: Phase, losses: nat, winsAtCall: nat, winsAtLoad: nat)

  datatype State = State(
    initial: real,
    best: real,
    holder: int,
    claims: map<nat, Claim>,
    wins: seq<nat>)               // the claims whose swap succeeded, in order

  datatype Step =
    | Call(id: nat, driver: int, lap: real)
    | Test(id: nat)
    | Cas(id: nat, spurious: bool)
    | Store(id: nat)

  ghost function Init(initial: real): State { State(initial, initial, -1, map[], []) }

  ghost predicate Enabled(s: State, step: Step) {
    match step
    case Call(id, _, _) => id !in s.claims
    case Test(id) => id in s.claims && s.claims[id].phase.AtTest?
    case Cas(id, _) => id in s.claims && s.claims[id].phase.AtCas?
    case Store(id) => id in s.claims && s.claims[id].phase.AtStore?
  }

  ghost function Next(s: State, step: Step): State
    requires Enabled(s, step)
  {
    match step
    case Call(id, driver, lap) =>
      s.(claims := s.claims[id := Claim(driver, lap, AtTest(s.best), 0, |s.wins|, |s.wins|)])
    case Test(id) =>
      var c := s.claims[id];
      s.(claims := s.claims[id := c.(phase := if c.lap < c.phase.seen then AtCas(c.phase.seen) else Returned(false))])
    case Cas(id, spurious) =>
      var c := s.claims[id];
      if s.best == c.phase.seen && !spurious then
        s.(best := c.lap, wins := s.wins + [id], claims := s.claims[id := c.(phase := AtStore)])
      else
        s.(claims := s.claims[id := c.(phase := AtTest(s.best), winsAtLoad := |s.wins|,
                                       losses := c.losses + if s.best == c.phase.seen then 0 else 1)])
    case Store(id) =>
      s.(holder := s.claims[id].driver, claims := s.claims[id := s.claims[id].(phase := Returned(true))])
  }

  ghost predicate Runs(s: State, steps: seq<Step>)
    decreases |steps|
  {
    steps == [] || (Enabled(s, steps[0]) && Runs(Next(s, steps[0]), steps[1..]))
  }

  ghost function Exec(s: State, steps: seq<Step>): State
    requires Runs(s, steps)
    decreases |steps|
  {
    if steps == [] then s else Exec(Next(s, steps[0]), steps[1..])
  }

  // ------------------------------------------------------------------ invariant

  /** The fastest time after the first `k` wins. */
  ghost function BestAfter(s: State, k: nat): real
    requires k <= |s.wins| && forall j :: 0 <= j < |s.wins| ==> s.wins[j] in s.claims
  {
    if k == 0 then s.initial else s.claims[s.wins[k - 1]].lap
  }

  ghost predicate WinsOk(s: State) {
    && (forall k :: 0 <= k < |s.wins| ==> s.wins[k] in s.claims)
    && s.best == BestAfter(s, |s.wins|)
  }

  ghost predicate Decreasing(s: State)
    requires WinsOk(s)
  {
    forall j: nat, k: nat :: j < k <= |s.wins| ==> BestAfter(s, k) < BestAfter(s, j)
  }

  ghost predicate ClaimOk(s: State, id: nat)
    requires WinsOk(s) && id in s.claims
  {
    var c := s.claims[id];
    && c.losses + c.winsAtCall <= c.winsAtLoad <= |s.wins|
    && (forall k :: 0 <= k < c.winsAtLoad ==> s.wins[k] != id)
    && (c.phase.AtTest? || c.phase.AtCas? ==> c.phase.seen == BestAfter(s, c.winsAtLoad))
    && (c.phase.AtCas? ==> c.lap < c.phase.seen)
    && (if c.phase.AtStore? || c.phase == Returned(true)
        then c.winsAtLoad < |s.wins| && s.wins[c.winsAtLoad] == id && s.best <= c.lap
        else id !in s.wins)
    && (c.phase.Returned? ==> s.best <= c.lap)
  }

  ghost predicate HolderOk(s: State) {
    if s.holder == -1 && (forall id :: id in s.claims ==> s.claims[id].phase != Returned(true)) then true
    else exists id :: id in s.wins && id in s.claims && s.claims[id].phase == Returned(true)
                      && s.claims[id].driver == s.holder
  }

  ghost predicate Inv(s: State) {
    WinsOk(s) && Decreasing(s) && (forall id :: id in s.claims ==> ClaimOk(s, id)) && HolderOk(s)
  }

  lemma WinKeeps(s: State, id: nat)
    requires Inv(s) && Enabled(s, Cas(id, false)) && s.best == s.claims[id].phase.seen
    ensures WinsOk(Next(s, Cas(id, false))) && Decreasing(Next(s, Cas(id, false)))
    ensures forall c :: c in s.claims ==> ClaimOk(Next(s, Cas(id, false)), c)
  {
    var t := Next(s, Cas(id, false));
    assert ClaimOk(s, id);
    forall j: nat | j <= |s.wins| ensures BestAfter(t, j) == BestAfter(s, j) {}
    forall j: nat, k: nat | j < k <= |t.wins| ensures BestAfter(t, k) < BestAfter(t, j) {
      assert j < |s.wins| ==> BestAfter(s, |s.wins|) < BestAfter(s, j);
    }
    assert s.claims[id].winsAtLoad == |s.wins|;
    forall c | c in s.claims ensures ClaimOk(t, c) { assert ClaimOk(s, c); }
  }

  lemma LossKeeps(s: State, step: Step)
    requires Inv(s) && step.Cas? && Enabled(s, step) && Next(s, step).wins == s.wins
    ensures WinsOk(Next(s, step)) && Decreasing(Next(s, step))
    ensures forall c :: c in s.claims ==> ClaimOk(Next(s, step), c)
  {
    var t := Next(s, step);
    assert ClaimOk(s, step.id);
    forall j: nat | j <= |s.wins| ensures BestAfter(t, j) == BestAfter(s, j) {}
    forall c | c in s.claims ensures ClaimOk(t, c) { assert ClaimOk(s, c); }
  }

  /** A returned winner stays a returned winner. */
  lemma HolderSurvives(s: State, step: Step)
    requires Inv(s) && Enabled(s, step) && !step.Store?
    ensures HolderOk(Next(s, step))
  {
    var t := Next(s, step);
    if !(s.holder == -1 && forall id :: id in s.claims ==> s.claims[id].phase != Returned(true)) {
      var id :| id in s.wins && id in s.claims && s.claims[id].phase == Returned(true)
                && s.claims[id].driver == s.holder;
      assert id in t.wins && t.claims[id] == s.claims[id];
    }
  }

  lemma CasKeeps(s: State, step: Step)
    requires Inv(s) && step.Cas? && Enabled(s, step)
    ensures Inv(Next(s, step))
  {
    if s.best == s.claims[step.id].phase.seen && !step.spurious {
      WinKeeps(s, step.id);
    } else {
      LossKeeps(s, step);
    }
    HolderSurvives(s, step);
  }

  /** A step that leaves the fastest time and the wins alone keeps the other claims. */
  lemma ClaimSurvives(s: State, step: Step, id: nat)
    requires WinsOk(s) && !step.Cas? && Enabled(s, step) && WinsOk(Next(s, step))
    requires id in s.claims && ClaimOk(s, id) && step.id != id
    ensures ClaimOk(Next(s, step), id)
  {
  }

  lemma OwnClaimKeeps(s: State, step: Step)
    requires Inv(s) && !step.Cas? && Enabled(s, step) && WinsOk(Next(s, step))
    ensures ClaimOk(Next(s, step), step.id)
  {
  }

  lemma OtherKeepsWins(s: State, step: Step)
    requires WinsOk(s) && Decreasing(s) && !step.Cas? && Enabled(s, step)
    requires !step.Call? ==> step.id in s.claims
    ensures WinsOk(Next(s, step)) && Decreasing(Next(s, step))
  {
    forall j: nat | j <= |s.wins| ensures BestAfter(Next(s, step), j) == BestAfter(s, j) {}
  }

  lemma StoredHolder(s: State, id: nat)
    requires WinsOk(s) && Enabled(s, Store(id)) && ClaimOk(s, id)
    ensures HolderOk(Next(s, Store(id)))
  {
    assert id in Next(s, Store(id)).wins && Next(s, Store(id)).claims[id].phase == Returned(true);
  }

  lemma OtherKeeps(s: State, step: Step)
    requires Inv(s) && !step.Cas? && Enabled(s, step)
    ensures Inv(Next(s, step))
  {
    var t := Next(s, step);
    OtherKeepsWins(s, step);
    forall id | id in t.claims ensures ClaimOk(t, id) {
      if id == step.id { OwnClaimKeeps(s, step); } else { ClaimSurvives(s, step, id); }
    }
    if step.Store? {
      StoredHolder(s, step.id);
    } else {
      HolderSurvives(s, step);
    }
  }

  lemma StepKeeps(s: State, step: Step)
    requires Inv(s) && Enabled(s, step)
    ensures Inv(Next(s, step))
  {
    if step.Cas? { CasKeeps(s, step); } else { OtherKeeps(s, step); }
  }

  lemma {:induction false} RunKeeps(s: State, steps: seq<Step>)
    requires Inv(s) && Runs(s, steps)
    ensures Inv(Exec(s, steps))
    decreases |steps|
  {
    if steps != [] {
      StepKeeps(s, steps[0]);
      RunKeeps(Next(s, steps[0]), steps[1..]);
    }
  }

  ghost predicate Reachable(s: State) {
    exists initial, steps :: Runs(Init(initial), steps) && Exec(Init(initial), steps) == s
  }

  lemma ReachableInv(s: State)
    requires Reachable(s)
    ensures Inv(s)
  {
    var initial, steps :| Runs(Init(initial), steps) && Exec(Init(initial), steps) == s;
    RunKeeps(Init(initial), steps);
  }

  lemma {:induction false} RunAppend(s: State, steps: seq<Step>, step: Step)
    requires Runs(s, steps) && Enabled(Exec(s, steps), step)
    ensures Runs(s, steps + [step]) && Exec(s, steps + [step]) == Next(Exec(s, steps), step)
    decreases |steps|
  {
    if steps == [] {
      assert [step][1..] == [];
    } else {
      RunAppend(Next(s, steps[0]), steps[1..], step);
      assert (steps + [step])[1..] == steps[1..] + [step];
    }
  }

  lemma ReachableNext(s: State, step: Step)
    requires Reachable(s) && Enabled(s, step)
    ensures Reachable(Next(s, step))
  {
    var initial, steps :| Runs(Init(initial), steps) && Exec(Init(initial), steps) == s;
    RunAppend(Init(initial), steps, step);
  }

  // ------------------------------------------------------------------ any number of claimants

  /** A claim that wins lowers the fastest time strictly; no other step changes it. */
  lemma WinsLowerTheTime(s: State, step: Step)
    requires Reachable(s) && Enabled(s, step)
    ensures if Next(s, step).wins == s.wins then Next(s, step).best == s.best
            else Next(s, step).best < s.best && step.Cas? && Next(s, step).wins == s.wins + [step.id]
  {
    ReachableInv(s);
    assert step.Cas? ==> ClaimOk(s, step.id);
  }

  ghost predicate AllReturned(s: State) {
    forall id :: id in s.claims ==> s.claims[id].phase.Returned?
  }

  /** Once all claims have returned, the fastest time is the minimum of its initial value
      and of all the submitted times. */
  lemma TimeIsTheMinimum(s: State)
    requires Reachable(s) && AllReturned(s)
    ensures s.best <= s.initial && forall id :: id in s.claims ==> s.best <= s.claims[id].lap
    ensures s.best == s.initial || exists id :: id in s.claims && s.claims[id].lap == s.best
  {
    ReachableInv(s);
    assert forall id :: id in s.claims ==> ClaimOk(s, id);
    if |s.wins| > 0 {
      assert BestAfter(s, |s.wins|) < BestAfter(s, 0);
      assert s.wins[|s.wins| - 1] in s.claims;
    }
  }

  lemma WinsDiffer(s: State, a: nat, b: nat)
    requires WinsOk(s) && Decreasing(s) && a in s.wins && b in s.wins && a != b
    ensures a in s.claims && b in s.claims && s.claims[a].lap != s.claims[b].lap
  {
    var j: nat :| j < |s.wins| && s.wins[j] == a;
    var k: nat :| k < |s.wins| && s.wins[k] == b;
    assert BestAfter(s, j + 1) == s.claims[a].lap && BestAfter(s, k + 1) == s.claims[b].lap;
  }

  /** A claim returns true exactly when its swap succeeded; of equal times at most one does. */
  lemma EqualTimesHaveOneWinner(s: State, a: nat, b: nat)
    requires Reachable(s) && a in s.claims && b in s.claims && a != b
    ensures s.claims[a].phase.Returned? ==> (s.claims[a].phase.won <==> a in s.wins)
    ensures s.claims[a].lap == s.claims[b].lap ==> !(a in s.wins && b in s.wins)
  {
    ReachableInv(s);
    assert ClaimOk(s, a);
    if a in s.wins && b in s.wins { WinsDiffer(s, a, b); }
  }

  /** Once all claims have returned, the holder is the driver of some claim that won, and
      still unset when none did. */
  lemma HolderIsAWinner(s: State)
    requires Reachable(s) && AllReturned(s)
    ensures if s.wins == [] then s.holder == -1
            else exists id :: id in s.wins && id in s.claims && s.claims[id].driver == s.holder
  {
    ReachableInv(s);
    if s.wins != [] {
      var id := s.wins[0];
      assert ClaimOk(s, id);
      assert s.claims[id].phase == Returned(true);
    }
    forall id | id in s.claims ensures s.claims[id].phase == Returned(true) ==> id in s.wins {
      assert ClaimOk(s, id);
    }
  }

  /** A claim loses its compare-and-swap to a changed value at most once for each claim of
      another that won during it. */
  lemma LossesAreOthersWins(s: State, id: nat)
    requires Reachable(s) && id in s.claims
    ensures var c := s.claims[id];
            && c.winsAtCall <= c.winsAtLoad <= |s.wins|
            && c.losses <= |s.wins[c.winsAtCall..c.winsAtLoad]|
            && id !in s.wins[c.winsAtCall..c.winsAtLoad]
  {
    ReachableInv(s);
    assert ClaimOk(s, id);
  }

  // ------------------------------------------------------------------ holder and time

  /** Call, test and swap of one claim that beats the current time. */
  lemma Thrice(s: State, id: nat, driver: int, lap: real) returns (t: State)
    requires Reachable(s) && id !in s.claims && lap < s.best
    ensures Reachable(t) && t.best == lap && t.wins == s.wins + [id] && t.holder == s.holder
    ensures t.initial == s.initial
    ensures t.claims == s.claims[id := Claim(driver, lap, AtStore, 0, |s.wins|, |s.wins|)]
  {
    ReachableNext(s, Call(id, driver, lap));
    var a := Next(s, Call(id, driver, lap));
    ReachableNext(a, Test(id));
    var b := Next(a, Test(id));
    ReachableNext(b, Cas(id, false));
    t := Next(b, Cas(id, false));
  }

  /** With overlapping claims the two stores can be the other way round: the time ends at
      4 with the driver of the claim of 5 as its holder. */
  lemma HolderCanDisagree()
    ensures exists s :: Reachable(s) && AllReturned(s) && |s.wins| == 2 && s.wins[1] in s.claims
                        && s.claims[s.wins[1]].lap == s.best == 4.0
                        && s.claims[s.wins[1]].driver != s.holder
  {
    var s0 := Init(9.0);
    assert Runs(s0, []) && Exec(s0, []) == s0;
    var s1 := Thrice(s0, 1, 10, 5.0);
    var s2 := Thrice(s1, 2, 20, 4.0);
    ReachableNext(s2, Store(2));
    var s3 := Next(s2, Store(2));
    ReachableNext(s3, Store(1));
    var s4 := Next(s3, Store(1));
    assert AllReturned(s4) && s4.wins == [1, 2];
  }

  /** At most one claim is in progress, as with the one consumer thread of the program. */
  ghost predicate Alone(s: State) {
    forall a, b :: (a in s.claims && b in s.claims
                    && !s.claims[a].phase.Returned? && !s.claims[b].phase.Returned?) ==> a == b
  }

  ghost predicate AlwaysAlone(s: State, steps: seq<Step>)
    requires Runs(s, steps)
    decreases |steps|
  {
    Alone(s) && (steps != [] ==> AlwaysAlone(Next(s, steps[0]), steps[1..]))
  }

  /** The holder is the driver of the latest win, unless that claim is about to store it. */
  ghost predicate HolderAgrees(s: State) {
    s.wins != [] ==>
      var last := s.wins[|s.wins| - 1];
      last in s.claims && (s.claims[last].phase.AtStore? || s.claims[last].driver == s.holder)
  }

  ghost predicate OnlyLastAtStore(s: State) {
    forall id :: id in s.claims && s.claims[id].phase.AtStore? ==> s.wins != [] && s.wins[|s.wins| - 1] == id
  }

  lemma AloneStepAgrees(s: State, step: Step)
    requires WinsOk(s) && HolderAgrees(s) && OnlyLastAtStore(s) && Alone(s) && Enabled(s, step)
    requires step.Cas? ==> ClaimOk(s, step.id)
    ensures HolderAgrees(Next(s, step)) && OnlyLastAtStore(Next(s, step))
  {
  }

  /** With one claim at a time the holder and the time always belong to the same lap. */
  lemma {:induction false} OneClaimantAgrees(s: State, steps: seq<Step>)
    requires Inv(s) && HolderAgrees(s) && OnlyLastAtStore(s) && Runs(s, steps) && AlwaysAlone(s, steps)
    ensures HolderAgrees(Exec(s, steps)) && OnlyLastAtStore(Exec(s, steps))
    decreases |steps|
  {
    if steps != [] {
      StepKeeps(s, steps[0]);
      AloneStepAgrees(s, steps[0]);
      OneClaimantAgrees(Next(s, steps[0]), steps[1..]);
    }
  }

  lemma {:induction false} InitialKept(s: State, steps: seq<Step>)
    requires Runs(s, steps)
    ensures Exec(s, steps).initial == s.initial
    decreases |steps|
  {
    if steps != [] { InitialKept(Next(s, steps[0]), steps[1..]); }
  }

  lemma OneClaimantHoldsTheTime(initial: real, steps: seq<Step>)
    requires Runs(Init(initial), steps) && AlwaysAlone(Init(initial), steps)
    requires AllReturned(Exec(Init(initial), steps))
    ensures var s := Exec(Init(initial), steps);
            if s.wins == [] then s.holder == -1 && s.best == initial
            else exists id :: id in s.claims && s.claims[id].lap == s.best && s.claims[id].driver == s.holder
  {
    OneClaimantAgrees(Init(initial), steps);
    var s := Exec(Init(initial), steps);
    RunKeeps(Init(initial), steps);
    InitialKept(Init(initial), steps);
    assert Reachable(s);
    HolderIsAWinner(s);
    if s.wins != [] {
      var last := s.wins[|s.wins| - 1];
      assert last in s.claims && s.claims[last].lap == s.best;
    }
  }

  // ------------------------------------------------------------------ the method

  /** What can happen to a claim just before one of its compare-and-swaps. */
  datatype Interference = Spurious | Rival(driver: int, lap: real)

  /** Time and holder after the rivals among the interferences have claimed in turn. */
  function AfterRivals(best: real, holder: int, events: seq<Interference>): (real, int) {
    if events == [] then (best, holder)
    else
      var (b, h) := AfterRivals(best, holder, events[..|events| - 1]);
      match events[|events| - 1]
      case Spurious => (b, h)
      case Rival(driver, lap) => if lap < b then (lap, driver) else (b, h)
  }

  /** The rivals leave the smallest of the time before them and their own, with the first driver to
      reach it. */
  lemma {:induction false} RivalsLeaveTheMinimum(best: real, holder: int, events: seq<Interference>)
    ensures var (b, h) := AfterRivals(best, holder, events);
            && b <= best && (forall e :: e in events && e.Rival? ==> b <= e.lap)
            && ((b == best && h == holder)
                || exists k :: 0 <= k < |events| && events[k] == Rival(h, b) && b < best
                               && forall j :: 0 <= j < k && events[j].Rival? ==> events[j].lap > b)
  {
    if events != [] {
      var front := events[..|events| - 1];
      RivalsLeaveTheMinimum(best, holder, front);
      var (b, h) := AfterRivals(best, holder, front);
      assert events == front + [events[|events| - 1]];
      assert forall j :: 0 <= j < |front| ==> events[j] == front[j] && front[j] in front;
      if !(b == best && h == holder) {
        var k :| 0 <= k < |front| && front[k] == Rival(h, b) && b < best
                 && forall j :: 0 <= j < k && front[j].Rival? ==> front[j].lap > b;
        assert events[k] == Rival(h, b);
      }
      assert events[|front|] == events[|events| - 1];
    }
  }

  class RaceState {
    var fastestLapMs: real
    var fastestLapHolder: int

    constructor (initial: real)
      ensures fastestLapMs == initial && fastestLapHolder == -1
    {
      fastestLapMs, fastestLapHolder := initial, -1;
    }

    method CompareExchangeWeak(expected: real, desired: real, spurious: bool) returns (ok: bool, seen: real)
      modifies this`fastestLapMs
      ensures seen == old(fastestLapMs) && (ok <==> seen == expected && !spurious)
      ensures fastestLapMs == if ok then desired else seen
    {
      seen := fastestLapMs;
      ok := seen == expected && !spurious;
      if ok { fastestLapMs := desired; }
    }

    /** One rival claim, all at once, or a failure for no reason, which changes nothing. */
    method Suffer(event: Interference)
      modifies this
      ensures (fastestLapMs, fastestLapHolder) ==
                match event
                case Spurious => (old(fastestLapMs), old(fastestLapHolder))
                case Rival(d, l) =>
                  if l < old(fastestLapMs) then (l, d) else (old(fastestLapMs), old(fastestLapHolder))
    {
      if event.Rival? && event.lap < fastestLapMs {
        fastestLapMs, fastestLapHolder := event.lap, event.driver;
      }
    }

    /** The store of the holder, after the rivals that come between it and the swap. */
    method StoreHolder(driver: int, late: seq<Interference>)
      modifies this
      ensures fastestLapMs == AfterRivals(old(fastestLapMs), old(fastestLapHolder), late).0
      ensures fastestLapHolder == driver
    {
      for i := 0 to |late|
        invariant (fastestLapMs, fastestLapHolder) ==
                    AfterRivals(old(fastestLapMs), old(fastestLapHolder), late[..i])
      {
        assert late[..i + 1][..i] == late[..i];
        Suffer(late[i]);
      }
      assert late[..|late|] == late;
      fastestLapHolder := driver;
    }

    /** Claims against the interferences in turn; after the last one its loop is undisturbed, and
        `late` are those between its swap and its store of the holder.  `consumed` tells how many
        happened before it returned or swapped: the claim wins exactly when it beats the time they
        left; then the time is what the late rivals make of its lap, and the holder is its driver
        all the same.  Otherwise it changes nothing. */
    method TryClaimFastestLap(driver: int, lap: real, events: seq<Interference>, late: seq<Interference>)
      returns (won: bool, consumed: nat)
      modifies this
      ensures consumed <= |events|
      ensures var (b, h) := AfterRivals(old(fastestLapMs), old(fastestLapHolder), events[..consumed]);
              && (won <==> lap < b)
              && fastestLapMs == (if won then AfterRivals(lap, h, late).0 else b)
              && fastestLapHolder == (if won then driver else h)
    {
      consumed := 0;
      var currentBest := fastestLapMs;
      while lap < currentBest
        invariant consumed <= |events|
        invariant (fastestLapMs, fastestLapHolder) ==
                    AfterRivals(old(fastestLapMs), old(fastestLapHolder), events[..consumed])
        invariant currentBest == fastestLapMs
        decreases |events| - consumed
      {
        var spurious := false;
        if consumed < |events| {
          assert events[..consumed + 1][..consumed] == events[..consumed];
          Suffer(events[consumed]);
          spurious := events[consumed].Spurious?;
          consumed := consumed + 1;
        }
        var ok;
        ok, currentBest := CompareExchangeWeak(currentBest, lap, spurious);
        if ok {
          StoreHolder(driver, late);
          return true, consumed;
        }
      }
      won := false;
    }
  }
}
