/** How far a penalty has got after any run, told from the steps of the run alone. */
module PenaltyStages {
  import opened PenaltyProtocol

  /** The state after the first `k` steps. */
  ghost function At(drivers: nat, steps: seq<Step>, k: nat): State
    requires k <= |steps| && Runs(Init(drivers), steps[..k])
  {
    Exec(Init(drivers), steps[..k])
  }

  /** The last step of a run. */
  lemma {:induction false} LastStep(s: State, front: seq<Step>, x: Step)
    requires Runs(s, front + [x])
    ensures Runs(s, front) && SizesOk(Exec(s, front)) && Enabled(Exec(s, front), x)
    ensures Exec(s, front + [x]) == Next(Exec(s, front), x)
    decreases |front|
  {
    if front == [] {
      var one := [x];
      assert front + [x] == one && one[0] == x && one[1..] == [];
    } else {
      assert (front + [x])[1..] == front[1..] + [x];
      LastStep(Next(s, front[0]), front[1..], x);
    }
  }

  /** Step `a` is the compare-and-swap for driver `i` and succeeds. */
  ghost predicate Issues(drivers: nat, steps: seq<Step>, a: nat, i: nat)
    requires a < |steps| && Runs(Init(drivers), steps[..a])
  {
    var s := At(drivers, steps, a);
    steps[a] == Cas && s.at == AtCas(i) && i < |s.penalties| && s.penalties[i] == NONE
  }

  /** The penalty of driver `i` was issued at step `a`. */
  ghost predicate IssuedAt(drivers: nat, steps: seq<Step>, i: nat, a: nat) {
    a < |steps| && Runs(Init(drivers), steps[..a]) && Issues(drivers, steps, a, i)
  }

  ghost predicate WasIssued(drivers: nat, steps: seq<Step>, i: nat) {
    exists a: nat :: IssuedAt(drivers, steps, i, a)
  }

  /** ... and afterwards the driver entered the pits, at step `b`. */
  ghost predicate EnteredAt(drivers: nat, steps: seq<Step>, i: nat, a: nat, b: nat) {
    IssuedAt(drivers, steps, i, a) && a < b < |steps| && steps[b] == EnterPits(i)
  }

  ghost predicate ThenEntered(drivers: nat, steps: seq<Step>, i: nat) {
    exists a: nat, b: nat :: EnteredAt(drivers, steps, i, a, b)
  }

  /** ... and after that the driver left the pits, at step `c`. */
  ghost predicate LeftAt(drivers: nat, steps: seq<Step>, i: nat, a: nat, b: nat, c: nat) {
    EnteredAt(drivers, steps, i, a, b) && b < c < |steps| && steps[c] == ExitPits(i)
  }

  ghost predicate ThenLeft(drivers: nat, steps: seq<Step>, i: nat) {
    exists a: nat, b: nat, c: nat :: LeftAt(drivers, steps, i, a, b, c)
  }

  lemma IssuedAppend(drivers: nat, front: seq<Step>, x: Step, i: nat, a: nat)
    requires a < |front|
    ensures IssuedAt(drivers, front + [x], i, a) <==> IssuedAt(drivers, front, i, a)
  {
    assert (front + [x])[..a] == front[..a];
  }

  lemma WasIssuedAppend(drivers: nat, front: seq<Step>, x: Step, i: nat)
    requires Runs(Init(drivers), front)
    ensures var s := Exec(Init(drivers), front);
            WasIssued(drivers, front + [x], i) <==>
              WasIssued(drivers, front, i)
              || (x == Cas && s.at == AtCas(i) && i < |s.penalties| && s.penalties[i] == NONE)
  {
    var steps := front + [x];
    assert steps[..|front|] == front;
    if a: nat :| IssuedAt(drivers, steps, i, a) && a < |front| { IssuedAppend(drivers, front, x, i, a); }
    if a: nat :| IssuedAt(drivers, front, i, a) { IssuedAppend(drivers, front, x, i, a); }
    if IssuedAt(drivers, steps, i, |front|) {}
  }

  lemma ThenEnteredAppend(drivers: nat, front: seq<Step>, x: Step, i: nat)
    ensures ThenEntered(drivers, front + [x], i) <==>
              ThenEntered(drivers, front, i) || (WasIssued(drivers, front, i) && x == EnterPits(i))
  {
    var steps := front + [x];
    if a: nat, b: nat :| EnteredAt(drivers, steps, i, a, b) {
      IssuedAppend(drivers, front, x, i, a);
      if b < |front| { assert EnteredAt(drivers, front, i, a, b); }
    }
    if a: nat, b: nat :| EnteredAt(drivers, front, i, a, b) {
      IssuedAppend(drivers, front, x, i, a);
      assert EnteredAt(drivers, steps, i, a, b);
    }
    if a: nat :| IssuedAt(drivers, front, i, a) {
      IssuedAppend(drivers, front, x, i, a);
      assert x == EnterPits(i) ==> EnteredAt(drivers, steps, i, a, |front|);
    }
  }

  lemma ThenLeftAppend(drivers: nat, front: seq<Step>, x: Step, i: nat)
    ensures ThenLeft(drivers, front + [x], i) <==>
              ThenLeft(drivers, front, i) || (ThenEntered(drivers, front, i) && x == ExitPits(i))
  {
    var steps := front + [x];
    if a: nat, b: nat, c: nat :| LeftAt(drivers, steps, i, a, b, c) {
      IssuedAppend(drivers, front, x, i, a);
      assert EnteredAt(drivers, front, i, a, b);
      if c < |front| { assert LeftAt(drivers, front, i, a, b, c); }
    }
    if a: nat, b: nat, c: nat :| LeftAt(drivers, front, i, a, b, c) {
      IssuedAppend(drivers, front, x, i, a);
      assert LeftAt(drivers, steps, i, a, b, c);
    }
    if a: nat, b: nat :| EnteredAt(drivers, front, i, a, b) {
      IssuedAppend(drivers, front, x, i, a);
      assert x == ExitPits(i) ==> LeftAt(drivers, steps, i, a, b, |front|);
    }
  }

  lemma StageStep(s: State, x: Step, i: nat)
    requires SizesOk(s) && Enabled(s, x) && i < |s.penalties|
    ensures i < |Next(s, x).penalties|
    ensures var p, q := s.penalties[i], Next(s, x).penalties[i];
            && (q != NONE <==> p != NONE || (x == Cas && s.at == AtCas(i)))
            && (q == SERVING || q == SERVED <==> p == SERVING || p == SERVED || (p == PENDING && x == EnterPits(i)))
            && (q == SERVED <==> p == SERVED || (p == SERVING && x == ExitPits(i)))
  {
  }

  /** After any run: a driver's penalty is issued if and only if the run contains a successful
      compare-and-swap for the driver; it is being served or served if and only if the driver
      entered the pits after that; and it is served if and only if the driver left them after that. */
  lemma {:induction false} StageIff(drivers: nat, steps: seq<Step>, i: nat)
    requires Runs(Init(drivers), steps) && i < drivers
    ensures i < |Exec(Init(drivers), steps).penalties|
    ensures var p := Exec(Init(drivers), steps).penalties[i];
            && (p != NONE <==> WasIssued(drivers, steps, i))
            && (p == SERVING || p == SERVED <==> ThenEntered(drivers, steps, i))
            && (p == SERVED <==> ThenLeft(drivers, steps, i))
  {
    if steps != [] {
      var front, x := steps[..|steps| - 1], steps[|steps| - 1];
      assert steps == front + [x];
      LastStep(Init(drivers), front, x);
      StageIff(drivers, front, i);
      StageStep(Exec(Init(drivers), front), x, i);
      WasIssuedAppend(drivers, front, x, i);
      ThenEnteredAppend(drivers, front, x, i);
      ThenLeftAppend(drivers, front, x, i);
    }
  }
}
