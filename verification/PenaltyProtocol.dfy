/** Warnings and penalties at the granularity of single atomic accesses.

    The one thread that processes events does, for a track-limits event of a known driver:
    add to the warning counter; if the counter now reads 3, compare-and-swap the penalty
    state from NONE to PENDING; if that succeeds, push the announcement and store the extra
    pit time.  Calls for drivers entering and leaving the pits come from any thread, between
    any two of these accesses.  The counters are 32-bit and wrap around. */
module PenaltyProtocol {
  datatype Penalty = NONE | PENDING | SERVING | SERVED

  /** Where the processing thread stands. */
  datatype Processing = Idle | AtCas(driver: nat) | AtPush(driver: nat) | AtStore(driver: nat)

  /** `total` counts the warnings without wrapping and `issued` logs the announcements; both
      are history. */
  datatype State = State(
    warnings: seq<int>,
    penalties: seq<Penalty>,
    extraPitTime: seq<int>,
    at: Processing,
    total: seq<nat>,
    issued: seq<nat>)

  datatype Step =
    | Warn(driver: nat)
    | Cas
    | Push
    | Store
    | EnterPits(driver: nat)
    | ExitPits(driver: nat)

  /** The value of a 32-bit signed counter after `n` increments from 0. */
  function Wrap32(n: int): int { (n + 0x8000_0000) % 0x1_0000_0000 - 0x8000_0000 }

  ghost function Init(drivers: nat): State {
    State(seq(drivers, _ => 0), seq(drivers, _ => NONE), seq(drivers, _ => 0), Idle, seq(drivers, _ => 0), [])
  }

  ghost predicate SizesOk(s: State) {
    && |s.penalties| == |s.warnings| && |s.extraPitTime| == |s.warnings| && |s.total| == |s.warnings|
    && (!s.at.Idle? ==> s.at.driver < |s.warnings|)
  }

  ghost predicate Enabled(s: State, step: Step)
    requires SizesOk(s)
  {
    match step
    case Warn(i) => s.at.Idle? && i < |s.warnings|
    case Cas => s.at.AtCas?
    case Push => s.at.AtPush?
    case Store => s.at.AtStore?
    case EnterPits(i) => i < |s.warnings|
    case ExitPits(i) => i < |s.warnings|
  }

  ghost function Next(s: State, step: Step): State
    requires SizesOk(s) && Enabled(s, step)
  {
    match step
    case Warn(i) =>
      var count := Wrap32(s.warnings[i] + 1);
      s.(warnings := s.warnings[i := count], total := s.total[i := s.total[i] + 1],
         at := if count == 3 then AtCas(i) else Idle)
    case Cas =>
      if s.penalties[s.at.driver] == NONE then
        s.(penalties := s.penalties[s.at.driver := PENDING], at := AtPush(s.at.driver))
      else s.(at := Idle)
    case Push => s.(issued := s.issued + [s.at.driver], at := AtStore(s.at.driver))
    case Store => s.(extraPitTime := s.extraPitTime[s.at.driver := 3], at := Idle)
    case EnterPits(i) =>
      if s.penalties[i] == PENDING then s.(penalties := s.penalties[i := SERVING]) else s
    case ExitPits(i) =>
      if s.penalties[i] == SERVING then s.(penalties := s.penalties[i := SERVED]) else s
  }

  // ------------------------------------------------------------------ invariant

  function Times(log: seq<nat>, i: nat): nat {
    if log == [] then 0 else Times(log[..|log| - 1], i) + if log[|log| - 1] == i then 1 else 0
  }

  /** The third warning was counted and its compare-and-swap is done. */
  ghost predicate Penalised(s: State, i: nat)
    requires SizesOk(s) && i < |s.warnings|
  {
    s.total[i] >= 3 && !(s.total[i] == 3 && s.at == AtCas(i))
  }

  ghost predicate DriverOk(s: State, i: nat)
    requires SizesOk(s) && i < |s.warnings|
  {
    && s.warnings[i] == Wrap32(s.total[i])
    && (s.penalties[i] != NONE <==> Penalised(s, i))
    && Times(s.issued, i) == (if Penalised(s, i) && s.at != AtPush(i) then 1 else 0)
    && s.extraPitTime[i] == (if Penalised(s, i) && s.at != AtPush(i) && s.at != AtStore(i) then 3 else 0)
    && (s.at == AtCas(i) ==> s.warnings[i] == 3)
    && (s.at == AtPush(i) || s.at == AtStore(i) ==> Penalised(s, i))
  }

  ghost predicate Inv(s: State) {
    && SizesOk(s)
    && forall i :: 0 <= i < |s.warnings| ==> DriverOk(s, i)
  }

  lemma WrapStep(n: nat)
    ensures Wrap32(Wrap32(n) + 1) == Wrap32(n + 1)
    ensures Wrap32(n) == 3 ==> n >= 3
    ensures n < 0x8000_0000 ==> Wrap32(n) == n
  {
  }

  lemma TimesAppend(log: seq<nat>, x: nat, i: nat)
    ensures Times(log + [x], i) == Times(log, i) + if x == i then 1 else 0
  {
  }

  lemma WarnKeeps(s: State, j: nat, i: nat)
    requires SizesOk(s) && Enabled(s, Warn(j)) && i < |s.warnings| && DriverOk(s, i)
    ensures SizesOk(Next(s, Warn(j))) && DriverOk(Next(s, Warn(j)), i)
  {
  }

  lemma CasKeeps(s: State, i: nat)
    requires SizesOk(s) && Enabled(s, Cas) && i < |s.warnings| && DriverOk(s, i)
    ensures SizesOk(Next(s, Cas)) && DriverOk(Next(s, Cas), i)
  {
  }

  lemma DriverKeeps(s: State, step: Step, i: nat)
    requires Inv(s) && Enabled(s, step) && i < |s.warnings|
    ensures SizesOk(Next(s, step)) && DriverOk(Next(s, step), i)
  {
    assert DriverOk(s, i);
    match step
    case Warn(j) => WarnKeeps(s, j, i);
    case Cas => CasKeeps(s, i);
    case Push => TimesAppend(s.issued, s.at.driver, i);
    case _ =>
  }

  lemma StepKeeps(s: State, step: Step)
    requires Inv(s) && Enabled(s, step)
    ensures Inv(Next(s, step))
  {
    forall i | 0 <= i < |s.warnings| ensures SizesOk(Next(s, step)) && DriverOk(Next(s, step), i) {
      DriverKeeps(s, step, i);
    }
  }

  ghost predicate Runs(s: State, steps: seq<Step>)
    decreases |steps|
  {
    steps == [] || (SizesOk(s) && Enabled(s, steps[0]) && Runs(Next(s, steps[0]), steps[1..]))
  }

  ghost function Exec(s: State, steps: seq<Step>): State
    requires Runs(s, steps)
    decreases |steps|
  {
    if steps == [] then s else Exec(Next(s, steps[0]), steps[1..])
  }

  lemma {:induction false} RunKeeps(s: State, steps: seq<Step>)
    requires Inv(s) && Runs(s, steps)
    ensures Inv(Exec(s, steps))
    decreases |steps|
  {
    if steps != [] {
      StepKeeps(s, steps[0]);
      RunKeeps(Next(s, steps[0]), steps[1..]);
    }
  }

  ghost predicate Reachable(s: State) {
    exists drivers, steps :: Runs(Init(drivers), steps) && Exec(Init(drivers), steps) == s
  }

  lemma ReachableInit(drivers: nat)
    ensures Reachable(Init(drivers))
  {
    assert Runs(Init(drivers), []) && Exec(Init(drivers), []) == Init(drivers);
  }

  lemma {:induction false} RunsAppend(s: State, a: seq<Step>, b: seq<Step>)
    requires Runs(s, a) && Runs(Exec(s, a), b)
    ensures Runs(s, a + b) && Exec(s, a + b) == Exec(Exec(s, a), b)
    decreases |a|
  {
    if a == [] {
      assert a + b == b;
    } else {
      RunsAppend(Next(s, a[0]), a[1..], b);
      assert (a + b)[1..] == a[1..] + b;
    }
  }

  lemma ReachableRun(s: State, steps: seq<Step>)
    requires Reachable(s) && Runs(s, steps)
    ensures Reachable(Exec(s, steps))
  {
    var drivers, before :| Runs(Init(drivers), before) && Exec(Init(drivers), before) == s;
    RunsAppend(Init(drivers), before, steps);
  }

  lemma ReachableStep(s: State, step: Step)
    requires Reachable(s) && SizesOk(s) && Enabled(s, step)
    ensures Reachable(Next(s, step))
  {
    var one := [step];
    assert one[0] == step && one[1..] == [];
    assert Exec(s, one) == Next(s, step);
    ReachableRun(s, one);
  }

  lemma ReachableInv(s: State)
    requires Reachable(s)
    ensures Inv(s)
  {
    var drivers, steps :| Runs(Init(drivers), steps) && Exec(Init(drivers), steps) == s;
    assert Inv(Init(drivers));
    RunKeeps(Init(drivers), steps);
  }

  // ------------------------------------------------------------------ guarantees

  function Rank(p: Penalty): nat {
    match p
    case NONE => 0
    case PENDING => 1
    case SERVING => 2
    case SERVED => 3
  }

  /** No step takes a driver's penalty back or skips a stage, and each stage is entered by its
      own event only. */
  lemma PenaltiesMoveOneStage(s: State, step: Step, i: nat)
    requires Inv(s) && Enabled(s, step) && i < |s.warnings|
    ensures i < |Next(s, step).penalties|
    ensures var p, q := s.penalties[i], Next(s, step).penalties[i];
            && Rank(p) <= Rank(q) <= Rank(p) + 1
            && (p != q && q == PENDING ==> step == Cas && s.at == AtCas(i))
            && (p != q && q == SERVING ==> step == EnterPits(i))
            && (p != q && q == SERVED ==> step == ExitPits(i))
  {
  }

  /** Entering the pits turns a pending penalty into one being served and leaving turns that into a
      served one; neither does anything to any other penalty, driver or array. */
  lemma PitCallsAdvance(s: State, i: nat, j: nat)
    requires SizesOk(s) && i < |s.warnings| && j < |s.warnings|
    ensures var t := Next(s, EnterPits(i));
            && t == s.(penalties := t.penalties) && |t.penalties| == |s.penalties|
            && t.penalties[j] == if j == i && s.penalties[j] == PENDING then SERVING else s.penalties[j]
    ensures var t := Next(s, ExitPits(i));
            && t == s.(penalties := t.penalties) && |t.penalties| == |s.penalties|
            && t.penalties[j] == if j == i && s.penalties[j] == SERVING then SERVED else s.penalties[j]
  {
  }

  /** Over a whole run a penalty never goes back. */
  lemma {:induction false} PenaltiesNeverGoBack(s: State, steps: seq<Step>, i: nat)
    requires Inv(s) && Runs(s, steps) && i < |s.warnings|
    ensures i < |Exec(s, steps).penalties| && Rank(s.penalties[i]) <= Rank(Exec(s, steps).penalties[i])
    decreases |steps|
  {
    if steps != [] {
      StepKeeps(s, steps[0]);
      PenaltiesMoveOneStage(s, steps[0], i);
      PenaltiesNeverGoBack(Next(s, steps[0]), steps[1..], i);
    }
  }

  /** Between events a driver is penalised exactly when at least three warnings were counted;
      exactly one announcement was then pushed for the driver, and none otherwise. */
  lemma PenalisedIffThreeWarnings(s: State, i: nat)
    requires Reachable(s) && s.at.Idle? && i < |s.warnings|
    ensures SizesOk(s)
    ensures s.penalties[i] != NONE <==> s.total[i] >= 3
    ensures Times(s.issued, i) == if s.total[i] >= 3 then 1 else 0
    ensures s.extraPitTime[i] == if s.total[i] >= 3 then 3 else 0
  {
    ReachableInv(s);
    assert DriverOk(s, i);
  }

  /** The compare-and-swap succeeds exactly at the third warning: whenever it is reached again,
      because the counter wrapped around to 3, the penalty was issued long ago. */
  lemma CasSucceedsIffThird(s: State)
    requires Reachable(s) && s.at.AtCas?
    ensures SizesOk(s)
    ensures s.penalties[s.at.driver] == NONE <==> s.total[s.at.driver] == 3
  {
    ReachableInv(s);
    assert DriverOk(s, s.at.driver);
    WrapStep(s.total[s.at.driver]);
  }

  /** The counter shows the number of warnings exactly as long as there were fewer than 2^31. */
  lemma CounterIsExactIff(s: State, i: nat)
    requires Reachable(s) && i < |s.warnings|
    ensures SizesOk(s)
    ensures s.warnings[i] == s.total[i] <==> s.total[i] < 0x8000_0000
  {
    ReachableInv(s);
    assert DriverOk(s, i);
    WrapStep(s.total[i]);
  }
}
