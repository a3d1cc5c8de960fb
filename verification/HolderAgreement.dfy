/** Whether the holder and the time of the fastest lap can come from different claims, decided
    from the submitted claims alone. */
module HolderAgreement {
  import opened FastestLap

  /** What a claim submits. */
  datatype Plan = Plan(driver: int, lap: real)

  function PlanOf(c: Claim): Plan { Plan(c.driver, c.lap) }

  /** All claims of the plans have been made and have returned, in whatever interleaving. */
  ghost predicate Ends(initial: real, plans: map<nat, Plan>, s: State) {
    && Reachable(s) && s.initial == initial && AllReturned(s)
    && s.claims.Keys == plans.Keys
    && forall id :: id in plans ==> PlanOf(s.claims[id]) == plans[id]
  }

  /** Time and holder are those of one claim, or both are still what they were at first. */
  ghost predicate Agrees(s: State) {
    || (s.best == s.initial && s.holder == -1)
    || exists id :: id in s.claims && s.claims[id].lap == s.best && s.claims[id].driver == s.holder
  }

  /** No plan beats the lap of plan `b`. */
  ghost predicate Fastest(plans: map<nat, Plan>, b: nat) {
    b in plans && forall id :: id in plans ==> plans[b].lap <= plans[id].lap
  }

  /** Claim `a` can win before the fastest claim `b` and store its driver after it, and that
      driver has no claim with the fastest lap. */
  ghost predicate CanOvertake(initial: real, plans: map<nat, Plan>, a: nat, b: nat) {
    && Fastest(plans, b) && a in plans && plans[b].lap < plans[a].lap < initial
    && forall id :: id in plans && plans[id].lap == plans[b].lap ==> plans[id].driver != plans[a].driver
  }

  /** The claims made so far have their plans; all have returned. */
  ghost predicate Part(plans: map<nat, Plan>, s: State) {
    && Reachable(s) && AllReturned(s)
    && forall id :: id in s.claims ==> id in plans && PlanOf(s.claims[id]) == plans[id]
  }

  /** A claim that does not beat the time returns at once and changes nothing. */
  lemma LoseOne(plans: map<nat, Plan>, s: State, id: nat) returns (t: State)
    requires Part(plans, s) && id in plans && id !in s.claims && plans[id].lap >= s.best
    ensures Part(plans, t) && t.claims.Keys == s.claims.Keys + {id}
    ensures t.initial == s.initial && t.best == s.best && t.holder == s.holder
  {
    var p := plans[id];
    ReachableNext(s, Call(id, p.driver, p.lap));
    var a := Next(s, Call(id, p.driver, p.lap));
    ReachableNext(a, Test(id));
    t := Next(a, Test(id));
  }

  lemma {:induction false} LoseAll(plans: map<nat, Plan>, s: State, rest: set<nat>) returns (t: State)
    requires Part(plans, s) && rest == plans.Keys - s.claims.Keys
    requires forall id :: id in rest ==> plans[id].lap >= s.best
    ensures Part(plans, t) && t.claims.Keys == plans.Keys
    ensures t.initial == s.initial && t.best == s.best && t.holder == s.holder
    decreases rest
  {
    if rest == {} {
      t := s;
      assert forall id :: id in s.claims.Keys ==> id in plans.Keys;
    } else {
      var id :| id in rest;
      var u := LoseOne(plans, s, id);
      t := LoseAll(plans, u, rest - {id});
    }
  }

  /** The swap of `a`, all of `b`, and then the store of `a`. */
  lemma TwoWins(initial: real, a: nat, p: Plan, b: nat, q: Plan) returns (s: State)
    requires a != b && q.lap < p.lap < initial
    ensures Reachable(s) && AllReturned(s) && s.initial == initial
    ensures s.claims.Keys == {a, b} && PlanOf(s.claims[a]) == p && PlanOf(s.claims[b]) == q
    ensures s.best == q.lap && s.holder == p.driver
  {
    var s0 := Init(initial);
    assert Runs(s0, []) && Exec(s0, []) == s0;
    var s1 := Thrice(s0, a, p.driver, p.lap);
    var s2 := Thrice(s1, b, q.driver, q.lap);
    ReachableNext(s2, Store(b));
    var s3 := Next(s2, Store(b));
    ReachableNext(s3, Store(a));
    s := Next(s3, Store(a));
  }

  /** ... and everybody else in vain. */
  lemma Overtaking(initial: real, plans: map<nat, Plan>, a: nat, b: nat) returns (s: State)
    requires CanOvertake(initial, plans, a, b)
    ensures Ends(initial, plans, s) && !Agrees(s)
  {
    var t := TwoWins(initial, a, plans[a], b, plans[b]);
    assert forall id :: id in t.claims ==> id in t.claims.Keys;
    s := LoseAll(plans, t, plans.Keys - t.claims.Keys);
    assert forall id :: id in plans ==> id in s.claims.Keys;
  }

  lemma WinnersBeatInitial(s: State, id: nat)
    requires Reachable(s) && id in s.wins
    ensures id in s.claims && s.claims[id].lap < s.initial
    ensures s.wins[|s.wins| - 1] in s.claims && s.claims[s.wins[|s.wins| - 1]].lap == s.best
  {
    ReachableInv(s);
    var k: nat :| k < |s.wins| && s.wins[k] == id;
    assert BestAfter(s, k + 1) < BestAfter(s, 0);
  }

  lemma NoWinsNoChange(s: State)
    requires Reachable(s) && s.wins == []
    ensures s.best == s.initial
  {
    ReachableInv(s);
  }

  /** An end in which holder and time part shows two claims one of which can overtake the other. */
  lemma PartedMeansOvertaken(initial: real, plans: map<nat, Plan>, s: State) returns (a: nat, b: nat)
    requires Ends(initial, plans, s) && !Agrees(s)
    ensures CanOvertake(initial, plans, a, b)
  {
    HolderIsAWinner(s);
    TimeIsTheMinimum(s);
    if s.wins == [] { NoWinsNoChange(s); }
    a :| a in s.wins && a in s.claims && s.claims[a].driver == s.holder;
    b := s.wins[|s.wins| - 1];
    WinnersBeatInitial(s, a);
    assert forall id :: id in plans ==> id in s.claims && PlanOf(s.claims[id]) == plans[id];
    assert a in plans.Keys && b in plans.Keys;
  }

  /** For any claims, submitted by any number of threads: every interleaving ends with holder and
      time of one claim exactly when no claim that beats the initial time can overtake the fastest
      one, that is, every such claim has the fastest lap or a driver who also has a claim with it. */
  lemma AlwaysAgreesIff(initial: real, plans: map<nat, Plan>)
    ensures (forall s :: Ends(initial, plans, s) ==> Agrees(s))
            <==> !exists a, b :: CanOvertake(initial, plans, a, b)
  {
    if a, b :| CanOvertake(initial, plans, a, b) {
      var s := Overtaking(initial, plans, a, b);
    }
    if s :| Ends(initial, plans, s) && !Agrees(s) {
      var a, b := PartedMeansOvertaken(initial, plans, s);
    }
  }
}
