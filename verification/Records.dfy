/** Two records of the fastest lap, kept apart: the race state's, fed by the frames the
    telemetry ring accepted, and the leaderboard's, a minimum over the drivers' own best laps,
    fed by every lap driven. */
module Records {
  import opened RaceTypes
  import opened Roster
  import opened Simulation
  import LapPipeline

  /** A driver's best lap after the frames, in the order they were offered to the ring. */
  function BestOf(offered: seq<Frame>, id: string): real {
    if offered == [] then 0.0
    else
      var before, f := BestOf(offered[..|offered| - 1], id), offered[|offered| - 1];
      if f.driverId == id && f.lapTimeMs > 0.0 then NextBest(before, f.lapTimeMs) else before
  }

  /** A driver's most recent lap time, 0 if there is none. */
  function LatestOf(offered: seq<Frame>, id: string): real {
    if offered == [] then 0.0
    else
      var f := offered[|offered| - 1];
      if f.driverId == id && f.lapTimeMs > 0.0 then f.lapTimeMs else LatestOf(offered[..|offered| - 1], id)
  }

  ghost predicate IsLapOf(f: Frame, id: string) { f.driverId == id && f.lapTimeMs > 0.0 }

  /** `m` is not above any lap of the driver. */
  ghost predicate LowerBound(offered: seq<Frame>, id: string, m: real) {
    forall f :: f in offered && IsLapOf(f, id) ==> m <= f.lapTimeMs
  }

  ghost predicate HasLap(offered: seq<Frame>, id: string) {
    exists f :: f in offered && IsLapOf(f, id)
  }

  lemma {:induction false} BestIsSomeLap(offered: seq<Frame>, id: string)
    ensures BestOf(offered, id) > 0.0 <==> HasLap(offered, id)
    ensures BestOf(offered, id) >= 0.0
    ensures HasLap(offered, id) ==>
              exists f :: f in offered && IsLapOf(f, id) && f.lapTimeMs == BestOf(offered, id)
  {
    if offered != [] {
      var front, f := offered[..|offered| - 1], offered[|offered| - 1];
      BestIsSomeLap(front, id);
      assert offered == front + [f];
      assert f in offered;
      if HasLap(front, id) {
        var g :| g in front && IsLapOf(g, id) && g.lapTimeMs == BestOf(front, id);
        assert g in offered;
      }
    }
  }

  lemma {:induction false} LatestIsSomeLap(offered: seq<Frame>, id: string)
    ensures LatestOf(offered, id) > 0.0 ==>
              exists f :: f in offered && IsLapOf(f, id) && f.lapTimeMs == LatestOf(offered, id)
  {
    if offered != [] {
      var front, f := offered[..|offered| - 1], offered[|offered| - 1];
      assert offered == front + [f] && f in offered;
      LatestIsSomeLap(front, id);
      if g :| g in front && IsLapOf(g, id) && g.lapTimeMs == LatestOf(front, id) { assert g in offered; }
    }
  }

  /** If `m` bounds the driver's laps from below, the driver's recorded best is `m` exactly when
      some lap took `m` and either no lap can be mistaken for unset or that is the latest lap. */
  lemma {:induction false} BestIsMinimumIff(offered: seq<Frame>, id: string, m: real)
    requires m > 0.0 && LowerBound(offered, id, m)
    ensures BestOf(offered, id) == m <==>
              (exists f :: f in offered && IsLapOf(f, id) && f.lapTimeMs == m)
              && (m >= 1.0 || LatestOf(offered, id) == m)
  {
    if offered != [] {
      var front, f := offered[..|offered| - 1], offered[|offered| - 1];
      assert offered == front + [f];
      assert f in offered;
      assert LowerBound(front, id, m) by {
        forall g | g in front && IsLapOf(g, id) ensures m <= g.lapTimeMs { assert g in offered; }
      }
      BestIsMinimumIff(front, id, m);
      BestIsSomeLap(front, id);
      if g :| g in front && IsLapOf(g, id) && g.lapTimeMs == m { assert g in offered; }
      if g :| g in front && IsLapOf(g, id) && g.lapTimeMs == BestOf(front, id) { assert m <= BestOf(front, id); }
      LatestIsSomeLap(front, id);
    }
  }

  // ------------------------------------------------------------------ the two records

  /** `accepted` are frames the ring took of those offered; every driver is on the roster and
      every lap is below the initial time. */
  ghost predicate Setting(roster: seq<string>, initial: real, offered: seq<Frame>, accepted: seq<Frame>) {
    && (forall f :: f in accepted ==> f in offered)
    && (forall f :: f in offered && f.lapTimeMs > 0.0 ==> f.driverId in roster && f.lapTimeMs < initial)
  }

  ghost predicate NoLapDropped(offered: seq<Frame>, accepted: seq<Frame>) {
    forall f :: f in offered && f.lapTimeMs > 0.0 ==> f in accepted
  }

  lemma {:induction false} BestIsBelowEveryLap(offered: seq<Frame>, id: string, f: Frame)
    requires f in offered && IsLapOf(f, id)
    requires forall g :: g in offered && g.lapTimeMs > 0.0 ==> g.lapTimeMs >= 1.0
    ensures BestOf(offered, id) <= f.lapTimeMs
  {
    var front, g := offered[..|offered| - 1], offered[|offered| - 1];
    assert offered == front + [g];
    assert forall h :: h in front ==> h in offered;
    assert g in offered;
    if f in front { BestIsBelowEveryLap(front, id, f); }
    BestIsSomeLap(front, id);
  }

  /** If laps last at least a millisecond, the race state never shows a time below the
      leaderboard's: its holder's own best lap is at most that time. */
  lemma RaceNotBelowBoard(roster: seq<string>, initial: real, offered: seq<Frame>, accepted: seq<Frame>,
                          r: LapPipeline.Record)
    requires Setting(roster, initial, offered, accepted)
    requires LapPipeline.IsRecordOf(roster, initial, accepted, r) && r.holder >= 0
    requires forall f :: f in offered && f.lapTimeMs > 0.0 ==> f.lapTimeMs >= 1.0
    ensures r.holder < |roster| && 0.0 < BestOf(offered, roster[r.holder]) <= r.best
  {
    var k: nat :| LapPipeline.FirstFastest(roster, initial, accepted, k)
               && r == LapPipeline.Record(accepted[k].lapTimeMs, IndexOf(roster, accepted[k].driverId));
    var f := accepted[k];
    assert f in offered && IsLapOf(f, f.driverId);
    BestIsBelowEveryLap(offered, f.driverId, f);
    BestIsSomeLap(offered, f.driverId);
  }

  lemma AcceptedMinimumBounds(roster: seq<string>, initial: real, offered: seq<Frame>, accepted: seq<Frame>,
                              k: nat, id: string)
    requires Setting(roster, initial, offered, accepted) && NoLapDropped(offered, accepted)
    requires LapPipeline.FirstFastest(roster, initial, accepted, k)
    ensures LowerBound(offered, id, accepted[k].lapTimeMs)
  {
  }

  /** No lap was dropped: then the race state's time is a lower bound of all laps, so the
      leaderboard agrees exactly when some driver's own best equals it, and the drivers' records
      allow that exactly when the time is at least a millisecond or is some driver's latest lap. */
  lemma RecordsAgreeIff(roster: seq<string>, initial: real, offered: seq<Frame>, accepted: seq<Frame>,
                        r: LapPipeline.Record)
    requires Setting(roster, initial, offered, accepted) && NoLapDropped(offered, accepted)
    requires LapPipeline.IsRecordOf(roster, initial, accepted, r) && r.holder >= 0
    ensures r.holder < |roster| && r.best > 0.0
    ensures forall id :: id in roster && BestOf(offered, id) > 0.0 ==> r.best <= BestOf(offered, id)
    ensures (exists id :: id in roster && BestOf(offered, id) == r.best) <==>
              r.best >= 1.0 || exists id :: id in roster && LatestOf(offered, id) == r.best
    ensures r.best >= 1.0 ==> BestOf(offered, roster[r.holder]) == r.best
  {
    var k: nat :| LapPipeline.FirstFastest(roster, initial, accepted, k)
               && r == LapPipeline.Record(accepted[k].lapTimeMs, IndexOf(roster, accepted[k].driverId));
    var winner := accepted[k];
    assert winner in offered && IsLapOf(winner, winner.driverId);
    forall id | id in roster
      ensures LowerBound(offered, id, r.best)
      ensures BestOf(offered, id) > 0.0 ==> r.best <= BestOf(offered, id)
      ensures BestOf(offered, id) == r.best ==> r.best >= 1.0 || LatestOf(offered, id) == r.best
      ensures LatestOf(offered, id) == r.best ==> BestOf(offered, id) == r.best
    {
      AcceptedMinimumBounds(roster, initial, offered, accepted, k, id);
      BestIsMinimumIff(offered, id, r.best);
      BestIsSomeLap(offered, id);
      LatestIsSomeLap(offered, id);
    }
    BestIsMinimumIff(offered, winner.driverId, r.best);
  }

  /** `r` is what the race state shows when the ring took the frames `accepted`. */
  ghost predicate Shows(roster: seq<string>, initial: real, offered: seq<Frame>, accepted: seq<Frame>,
                        r: LapPipeline.Record) {
    Setting(roster, initial, offered, accepted) && LapPipeline.IsRecordOf(roster, initial, accepted, r) && r.holder >= 0
  }

  ghost predicate BoardAtMost(roster: seq<string>, offered: seq<Frame>, t: real) {
    exists id :: id in roster && 0.0 < BestOf(offered, id) <= t
  }

  lemma AllIsLowest(roster: seq<string>, initial: real, offered: seq<Frame>, accepted: seq<Frame>,
                    r: LapPipeline.Record, all: LapPipeline.Record)
    requires Shows(roster, initial, offered, offered, all) && Shows(roster, initial, offered, accepted, r)
    ensures all.best <= r.best
  {
    var k: nat :| LapPipeline.FirstFastest(roster, initial, accepted, k)
               && r == LapPipeline.Record(accepted[k].lapTimeMs, IndexOf(roster, accepted[k].driverId));
    var n: nat :| LapPipeline.FirstFastest(roster, initial, offered, n)
               && all == LapPipeline.Record(offered[n].lapTimeMs, IndexOf(roster, offered[n].driverId));
    assert accepted[k] in offered;
    var j :| 0 <= j < |offered| && offered[j] == accepted[k];
    assert LapPipeline.Counts(roster, initial, offered[j]);
  }

  /** Whatever the ring drops, the race state is never below the leaderboard exactly when the
      fastest lap of all took at least a millisecond or is some driver's latest lap. */
  lemma RaceNeverBelowBoardIff(roster: seq<string>, initial: real, offered: seq<Frame>, all: LapPipeline.Record)
    requires Shows(roster, initial, offered, offered, all)
    ensures (forall accepted, r :: Shows(roster, initial, offered, accepted, r) ==>
               BoardAtMost(roster, offered, r.best))
            <==> all.best >= 1.0 || exists id :: id in roster && LatestOf(offered, id) == all.best
  {
    RecordsAgreeIff(roster, initial, offered, offered, all);
    if exists id :: id in roster && BestOf(offered, id) == all.best {
      var id :| id in roster && BestOf(offered, id) == all.best;
      forall accepted, r | Shows(roster, initial, offered, accepted, r) ensures BoardAtMost(roster, offered, r.best) {
        AllIsLowest(roster, initial, offered, accepted, r, all);
        assert 0.0 < BestOf(offered, id) <= r.best;
      }
    } else {
      assert !BoardAtMost(roster, offered, all.best);
    }
  }
}
