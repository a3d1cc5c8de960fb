/** Positions, gaps and DRS after a tick, and the re-sorting by position before publication. */
module Ranking {
  import opened Common
  import opened RaceTypes

  // ------------------------------------------------------------------ the stable order

  /** `a` is ranked ahead of `b`: further, or level with a lower index. */
  predicate Ahead(d: seq<real>, a: nat, b: nat)
    requires a < |d| && b < |d|
  {
    d[a] > d[b] || (d[a] == d[b] && a < b)
  }

  /** `order` lists the indices below `n` from first to last. */
  ghost predicate IsOrder(d: seq<real>, n: nat, order: seq<nat>)
    requires n <= |d|
  {
    && |order| == n
    && (forall p :: 0 <= p < n ==> order[p] < n)
    && (forall p, q :: 0 <= p < q < n ==> Ahead(d, order[p], order[q]))
    && (forall i: nat :: i < n ==> i in order)
  }

  lemma InsertKeeps(d: seq<real>, n: nat, order: seq<nat>, k: nat)
    requires n < |d| && IsOrder(d, n, order) && k <= n
    requires forall p :: 0 <= p < k ==> d[order[p]] >= d[n]
    requires k < n ==> d[order[k]] < d[n]
    ensures IsOrder(d, n + 1, order[..k] + [n] + order[k..])
  {
    var out := order[..k] + [n] + order[k..];
    assert forall p :: k <= p < n ==> d[order[p]] < d[n] by {
      assert forall p :: k < p < n ==> Ahead(d, order[k], order[p]);
    }
    assert forall p :: 0 <= p < k ==> out[p] == order[p];
    assert forall p :: k < p < n + 1 ==> out[p] == order[p - 1];
    forall i: nat | i < n + 1 ensures i in out {
      if i < n {
        assert i in order;
        var p :| 0 <= p < n && order[p] == i;
        assert out[if p < k then p else p + 1] == i;
      } else {
        assert out[k] == n;
      }
    }
  }

  /** What `std::stable_sort` with "greater distance first" returns on the indices 0, 1, ...:
      equal elements stay in index order. */
  method StableSort(d: seq<real>) returns (order: seq<nat>)
    ensures IsOrder(d, |d|, order)
    ensures forall p, q :: 0 <= p < |d| && 0 <= q < |d| && p != q ==> order[p] != order[q]
  {
    order := [];
    var n := 0;
    while n < |d|
      invariant n <= |d| && IsOrder(d, n, order)
    {
      var k := 0;
      while k < n && d[order[k]] >= d[n]
        invariant k <= n
        invariant forall p :: 0 <= p < k ==> d[order[p]] >= d[n]
      {
        k := k + 1;
      }
      InsertKeeps(d, n, order, k);
      order := order[..k] + [n] + order[k..];
      n := n + 1;
    }
  }

  // ------------------------------------------------------------------ what a position means

  ghost function AheadOf(d: seq<real>, i: nat): set<nat>
    requires i < |d|
  {
    set j: nat | j < |d| && Ahead(d, j, i)
  }

  ghost function Further(d: seq<real>, i: nat): set<nat>
    requires i < |d|
  {
    set j: nat | j < |d| && d[j] > d[i]
  }

  ghost function LevelBefore(d: seq<real>, i: nat): set<nat>
    requires i < |d|
  {
    set j: nat | j < |d| && d[j] == d[i] && j < i
  }

  ghost function Elements(s: seq<nat>): set<nat> { set x | x in s }

  lemma {:induction false} DistinctSize(s: seq<nat>)
    requires forall p, q :: 0 <= p < q < |s| ==> s[p] != s[q]
    ensures |Elements(s)| == |s|
  {
    if s != [] {
      var front := s[..|s| - 1];
      DistinctSize(front);
      assert Elements(s) == Elements(front) + {s[|s| - 1]};
    }
  }

  /** The index ranked at place `p` (from 0) has exactly `p` ahead of it: those further, and
      those level with a lower index. */
  lemma PlaceCounts(d: seq<real>, order: seq<nat>, p: nat)
    requires IsOrder(d, |d|, order) && p < |d|
    ensures p == |Further(d, order[p])| + |LevelBefore(d, order[p])|
  {
    var i := order[p];
    var front := order[..p];
    forall j: nat ensures j in AheadOf(d, i) <==> j in Elements(front) {
      if j < |d| && Ahead(d, j, i) {
        assert j in order;
        var q :| 0 <= q < |order| && order[q] == j;
        assert q < p;
        assert front[q] == j;
      }
    }
    assert AheadOf(d, i) == Elements(front);
    DistinctSize(front);
    assert AheadOf(d, i) == Further(d, i) + LevelBefore(d, i);
  }

  // ------------------------------------------------------------------ ranking the states

  function Distances(states: seq<DriverState>, length: real): (d: seq<real>)
    ensures |d| == |states|
  {
    seq(|states|, i requires 0 <= i < |states| => Total(states[i], length))
  }

  /** Seconds behind the leader at the average of the two speeds, taken as at least 1. */
  function Gap(leader: DriverState, s: DriverState, length: real): real {
    (Total(leader, length) - Total(s, length))
    / MaxReal((leader.frame.speedKph + s.frame.speedKph) / 2.0, 1.0) * 3600.0
  }

  /** The state at place `p` of the order, with its new position, gap and DRS flag. */
  function Placed(states: seq<DriverState>, order: seq<nat>, length: real, p: nat): DriverState
    requires p < |order| && forall q :: 0 <= q < |order| ==> order[q] < |states|
  {
    var leader, s := states[order[0]], states[order[p]];
    s.(position := p + 1,
       frame := s.frame.(gapToLeader := Gap(leader, s, length),
                         drsActive := p > 0
                                      && Gap(leader, s, length) - Gap(leader, states[order[p - 1]], length) < 1.0))
  }

  /** `after` is `before` ranked: nothing but positions, gaps and DRS flags has changed. */
  ghost predicate Ranked(before: seq<DriverState>, after: seq<DriverState>, length: real, order: seq<nat>) {
    && |after| == |before|
    && IsOrder(Distances(before, length), |before|, order)
    && forall p :: 0 <= p < |before| ==> after[order[p]] == Placed(before, order, length, p)
  }

  lemma PlaceOf(d: seq<real>, order: seq<nat>, i: nat) returns (p: nat)
    requires IsOrder(d, |d|, order) && i < |d|
    ensures p < |d| && order[p] == i
  {
    assert i in order;
    p :| 0 <= p < |order| && order[p] == i;
  }

  lemma GapSign(leader: DriverState, s: DriverState, length: real)
    requires Total(leader, length) >= Total(s, length)
    ensures Gap(leader, s, length) >= 0.0
  {
  }

  /** After a ranking a driver's position is one more than the number of drivers with a greater
      total distance plus the number of lower-indexed drivers level with it, and gaps are not negative. */
  lemma PositionMeans(before: seq<DriverState>, after: seq<DriverState>, length: real, order: seq<nat>, i: nat)
    requires Ranked(before, after, length, order) && i < |before|
    ensures var d := Distances(before, length);
            after[i].position == 1 + |Further(d, i)| + |LevelBefore(d, i)|
    ensures after[i].frame.gapToLeader >= 0.0
    ensures after[i].position == 1 ==> after[i].frame.gapToLeader == 0.0 && !after[i].frame.drsActive
  {
    var d := Distances(before, length);
    var p := PlaceOf(d, order, i);
    PlaceCounts(d, order, p);
    assert after[order[p]] == Placed(before, order, length, p);
    if p > 0 { assert Ahead(d, order[0], order[p]); }
    GapSign(before[order[0]], before[i], length);
  }

  lemma Quotient(d: real, avg: real)
    requires avg >= 1.0
    ensures d / avg * 3600.0 * avg == 3600.0 * d
  {
    assert d / avg * avg == d;
  }

  lemma GapTimesSpeed(leader: DriverState, s: DriverState, length: real)
    ensures var mean := (leader.frame.speedKph + s.frame.speedKph) / 2.0;
            Gap(leader, s, length) * (if mean < 1.0 then 1.0 else mean)
            == 3600.0 * (Total(leader, length) - Total(s, length))
  {
    var mean := (leader.frame.speedKph + s.frame.speedKph) / 2.0;
    Quotient(Total(leader, length) - Total(s, length), if mean < 1.0 then 1.0 else mean);
  }

  lemma GapIsToLeader(before: seq<DriverState>, after: seq<DriverState>, length: real, order: seq<nat>, l: nat, i: nat)
    requires Ranked(before, after, length, order) && l < |before| && i < |before| && after[l].position == 1
    ensures after[i].frame.gapToLeader == Gap(before[l], before[i], length)
  {
    var d := Distances(before, length);
    var p := PlaceOf(d, order, i);
    var q := PlaceOf(d, order, l);
    assert after[order[p]] == Placed(before, order, length, p);
    assert after[order[q]] == Placed(before, order, length, q);
  }

  /** With `l` the leader: a car's gap is the time in seconds that the way between the two takes at
      the mean of their speeds, taken as at least 1. */
  lemma GapMeans(before: seq<DriverState>, after: seq<DriverState>, length: real, order: seq<nat>, l: nat, i: nat)
    requires Ranked(before, after, length, order) && l < |before| && i < |before| && after[l].position == 1
    ensures var mean := (before[l].frame.speedKph + before[i].frame.speedKph) / 2.0;
            var ahead := (before[l].frame.lap as real * length + before[l].distanceInLap)
                         - (before[i].frame.lap as real * length + before[i].distanceInLap);
            after[i].frame.gapToLeader * (if mean < 1.0 then 1.0 else mean) == 3600.0 * ahead
  {
    GapIsToLeader(before, after, length, order, l, i);
    GapTimesSpeed(before[l], before[i], length);
  }

  /** With `j` the car directly ahead of `i`: `i` has DRS exactly when it is less than a second
      behind `j`, and the leader never has it. */
  lemma DrsMeans(before: seq<DriverState>, after: seq<DriverState>, length: real, order: seq<nat>, i: nat, j: nat)
    requires Ranked(before, after, length, order) && i < |before| && j < |before|
    ensures after[j].position == after[i].position - 1 ==>
              (after[i].frame.drsActive <==> after[i].frame.gapToLeader - after[j].frame.gapToLeader < 1.0)
    ensures after[i].position == 1 ==> !after[i].frame.drsActive
    ensures after[i].position > 1 ==> exists k :: 0 <= k < |after| && after[k].position == after[i].position - 1
  {
    var d := Distances(before, length);
    var p := PlaceOf(d, order, i);
    var q := PlaceOf(d, order, j);
    assert after[order[p]] == Placed(before, order, length, p);
    assert after[order[q]] == Placed(before, order, length, q);
    if p > 0 { assert after[order[p - 1]] == Placed(before, order, length, p - 1); }
  }

  /** Ranking changes nothing of a car but its position, gap and DRS flag. */
  lemma OnlyRankChanges(before: seq<DriverState>, after: seq<DriverState>, length: real, order: seq<nat>, i: nat)
    requires Ranked(before, after, length, order) && i < |before|
    ensures after[i] == before[i].(position := after[i].position,
                                   frame := before[i].frame.(gapToLeader := after[i].frame.gapToLeader,
                                                             drsActive := after[i].frame.drsActive))
  {
    var p := PlaceOf(Distances(before, length), order, i);
    assert after[order[p]] == Placed(before, order, length, p);
  }

  /** Positions are a permutation of 1, ..., n: every position is taken by exactly one driver. */
  lemma PositionsArePermutation(before: seq<DriverState>, after: seq<DriverState>, length: real, order: seq<nat>,
                                i: nat, j: nat)
    requires Ranked(before, after, length, order) && i < |before| && j < |before|
    ensures 1 <= after[i].position <= |after|
    ensures after[i].position == after[j].position <==> i == j
    ensures i < |before| ==> after[order[i]].position == i + 1
  {
    var d := Distances(before, length);
    var p := PlaceOf(d, order, i);
    var q := PlaceOf(d, order, j);
    assert after[order[p]] == Placed(before, order, length, p);
    assert after[order[q]] == Placed(before, order, length, q);
    assert after[order[i]] == Placed(before, order, length, i);
  }

  // ------------------------------------------------------------------ sorting by position

  /** `perm` rearranges the indices below `n`. */
  ghost predicate Rearranges(perm: seq<nat>, n: nat) {
    && |perm| == n
    && (forall k :: 0 <= k < n ==> perm[k] < n)
    && (forall j, k :: 0 <= j < k < n ==> perm[j] != perm[k])
  }

  /** A rearrangement of the indices below `n` reaches each of them. */
  lemma PlaceIn(perm: seq<nat>, n: nat, i: nat) returns (k: nat)
    requires Rearranges(perm, n) && i < n
    ensures k < n && perm[k] == i
  {
    DistinctSize(perm);
    assert Elements(perm) <= UpTo(n);
    SameSize(Elements(perm), UpTo(n));
    assert i in UpTo(n);
    k :| 0 <= k < |perm| && perm[k] == i;
  }

  /** `sorted` is some result of an unstable sort of `states` by position. */
  ghost predicate SortedByPosition(states: seq<DriverState>, sorted: seq<DriverState>, perm: seq<nat>) {
    && Rearranges(perm, |states|) && |sorted| == |states|
    && (forall k :: 0 <= k < |states| ==> sorted[k] == states[perm[k]])
    && (forall j, k :: 0 <= j < k < |states| ==> sorted[j].position <= sorted[k].position)
  }

  lemma {:induction false} AtLeastItsPlace(f: seq<int>, k: nat)
    requires k < |f| && f[0] >= 1 && forall j, k :: 0 <= j < k < |f| ==> f[j] < f[k]
    ensures f[k] >= k + 1
  {
    if k > 0 { AtLeastItsPlace(f, k - 1); }
  }

  lemma {:induction false} AtMostItsPlace(f: seq<int>, k: nat)
    requires k < |f| && f[|f| - 1] <= |f| && forall j, k :: 0 <= j < k < |f| ==> f[j] < f[k]
    ensures f[k] <= k + 1
    decreases |f| - k
  {
    if k < |f| - 1 { AtMostItsPlace(f, k + 1); }
  }

  lemma SortedPlaces(before: seq<DriverState>, after: seq<DriverState>, length: real, order: seq<nat>,
                     sorted: seq<DriverState>, perm: seq<nat>, f: seq<int>)
    requires Ranked(before, after, length, order) && SortedByPosition(after, sorted, perm) && after != []
    requires |f| == |sorted| && forall k :: 0 <= k < |f| ==> f[k] == sorted[k].position
    ensures f[0] >= 1 && f[|f| - 1] <= |f| && forall j, k :: 0 <= j < k < |f| ==> f[j] < f[k]
  {
    forall j, k | 0 <= j < k < |f| ensures f[j] < f[k] {
      PositionsArePermutation(before, after, length, order, perm[j], perm[k]);
    }
    PositionsArePermutation(before, after, length, order, perm[0], perm[|f| - 1]);
    PositionsArePermutation(before, after, length, order, perm[|f| - 1], perm[0]);
  }

  /** Although the sort need not be stable its result is unique: entry `k` is the driver ranked
      at place `k`, with position `k + 1`. */
  lemma ResortIsUnique(before: seq<DriverState>, after: seq<DriverState>, length: real, order: seq<nat>,
                       sorted: seq<DriverState>, perm: seq<nat>, k: nat)
    requires Ranked(before, after, length, order) && SortedByPosition(after, sorted, perm) && k < |after|
    ensures sorted[k] == after[order[k]] && sorted[k].position == k + 1
  {
    var f := seq(|after|, i requires 0 <= i < |after| => sorted[i].position);
    SortedPlaces(before, after, length, order, sorted, perm, f);
    AtLeastItsPlace(f, k);
    AtMostItsPlace(f, k);
    PositionsArePermutation(before, after, length, order, k, k);
    PositionsArePermutation(before, after, length, order, perm[k], order[k]);
  }
}
