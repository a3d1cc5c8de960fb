/** The published standings and the two scans over them. Each locked region is one step. */
module Leaderboard {
  import opened Common
  import opened RaceTypes
  import Ranking

  /** Entry `k` has the smallest positive best lap below `limit`, and is the first with it. */
  ghost predicate FirstBest(standings: seq<DriverState>, limit: real, k: nat) {
    && k < |standings| && 0.0 < standings[k].bestLapMs < limit
    && (forall j :: 0 <= j < |standings| && standings[j].bestLapMs > 0.0 ==>
          standings[k].bestLapMs <= standings[j].bestLapMs)
    && (forall j :: 0 <= j < k && standings[j].bestLapMs > 0.0 ==>
          standings[k].bestLapMs < standings[j].bestLapMs)
  }

  /** What the scan for the fastest lap returns: the driver of that entry, or nothing when there
      is none. */
  ghost predicate IsScan(standings: seq<DriverState>, limit: real, holder: string) {
    if exists j :: 0 <= j < |standings| && 0.0 < standings[j].bestLapMs < limit
    then exists k: nat :: FirstBest(standings, limit, k) && holder == standings[k].profile.id
    else holder == ""
  }

  class Leaderboard {
    var standings: seq<DriverState>
    var writer: Option<nat>

    constructor ()
      ensures standings == [] && writer == None
    {
      standings, writer := [], None;
    }

    /** The first thread to update owns the board; another one gets an exception, here `false`. */
    method Update(thread: nat, sorted: seq<DriverState>) returns (ok: bool)
      modifies this
      ensures ok <==> old(writer) == None || old(writer) == Some(thread)
      ensures standings == if ok then sorted else old(standings)
      ensures writer == if ok then Some(thread) else old(writer)
    {
      if writer == None {
        writer := Some(thread);
      } else if writer != Some(thread) {
        return false;
      }
      standings := sorted;
      ok := true;
    }

    /** The first entry with the position, or a default-constructed state. */
    method AtPosition(pos: int) returns (r: DriverState)
      ensures (exists k :: 0 <= k < |standings| && standings[k].position == pos && r == standings[k]
                           && forall j :: 0 <= j < k ==> standings[j].position != pos)
           || (r == NO_DRIVER && forall j :: 0 <= j < |standings| ==> standings[j].position != pos)
    {
      for i := 0 to |standings|
        invariant forall j :: 0 <= j < i ==> standings[j].position != pos
      {
        if standings[i].position == pos { return standings[i]; }
      }
      r := NO_DRIVER;
    }

    /** `limit` is the largest float, where the scan starts. */
    method FastestLapHolder(limit: real) returns (holder: string)
      ensures IsScan(standings, limit, holder)
    {
      var best := limit;
      holder := "";
      ghost var found: int := -1;
      for i := 0 to |standings|
        invariant best <= limit && -1 <= found < i
        invariant found == -1 ==> best == limit && holder == ""
        invariant found >= 0 ==> best == standings[found].bestLapMs > 0.0 && best < limit
                                 && holder == standings[found].profile.id
        invariant forall j :: 0 <= j < i && standings[j].bestLapMs > 0.0 ==> best <= standings[j].bestLapMs
        invariant forall j :: 0 <= j < found && standings[j].bestLapMs > 0.0 ==> best < standings[j].bestLapMs
      {
        if standings[i].bestLapMs > 0.0 && standings[i].bestLapMs < best {
          best := standings[i].bestLapMs;
          holder := standings[i].profile.id;
          found := i;
        }
      }
      if found >= 0 { assert FirstBest(standings, limit, found); }
    }
  }

  /** On published standings the lookup of a position finds exactly the driver ranked there. */
  lemma PublishedPosition(before: seq<DriverState>, after: seq<DriverState>, length: real, order: seq<nat>,
                          sorted: seq<DriverState>, perm: seq<nat>, j: nat, k: nat)
    requires Ranking.Ranked(before, after, length, order) && Ranking.SortedByPosition(after, sorted, perm)
    requires j < |sorted| && k < |sorted|
    ensures sorted[j].position == k + 1 <==> j == k
    ensures sorted[k] == after[order[k]]
  {
    Ranking.ResortIsUnique(before, after, length, order, sorted, perm, j);
    Ranking.ResortIsUnique(before, after, length, order, sorted, perm, k);
  }
}
