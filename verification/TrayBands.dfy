/**
 What the distance of a match says about the two spools, and which spool a filament prefers.

 Everything is stated over the ids the spools carry: a spool of the wanted preset comes before one
 of the wanted class, and that before another spool of the material.
 */
module TrayBands {
  import opened Wrappers
  import opened TrayMatching

  predicate IsPreset(wanted: Wanted, tray: Tray) {
    wanted.settingId != "" && tray.settingId == wanted.settingId
  }

  predicate IsClass(wanted: Wanted, tray: Tray) {
    wanted.filamentId != "" && tray.filamentId == wanted.filamentId
  }

  /** How well a spool of the right material fits: 0 by its preset, 1 by its class, 2 otherwise. */
  function Band(wanted: Wanted, tray: Tray): nat {
    if IsPreset(wanted, tray) then 0 else if IsClass(wanted, tray) then 1 else 2
  }

  /** What a distance between two spools of one material has to be. */
  ghost predicate IsDistance(metric: Metric, wanted: Wanted, tray: Tray, d: real) {
    var color := metric.colorDistance(wanted.color, tray.color);
    && (0.0 <= d <= 1000.0 <==> IsPreset(wanted, tray))
    && (10000.0 <= d <= 11000.0 <==> !IsPreset(wanted, tray) && IsClass(wanted, tray))
    && (20000.0 <= d <= 21000.0 <==> !IsPreset(wanted, tray) && !IsClass(wanted, tray))
    && (d == color || d == metric.plus(color, 10000.0) || d == metric.plus(color, 20000.0))
  }

  lemma PairDistanceIs(metric: Metric, wanted: Wanted, tray: Tray)
    requires metric.Valid() && wanted.filamentType == tray.filamentType
    ensures var d := PairDistance(metric, wanted, tray);
            && d.Some? && IsDistance(metric, wanted, tray, d.value)
            && (Band(wanted, tray) == 0 ==> d.value == metric.colorDistance(wanted.color, tray.color))
  {
    var color := metric.colorDistance(wanted.color, tray.color);
    assert 0.0 <= color <= COLOR_DISTANCE_MAX;
    assert 10000.0 <= metric.plus(color, 10000.0) <= 11000.0;
    assert 20000.0 <= metric.plus(color, 20000.0) <= 21000.0;
  }

  lemma {:induction false} AssignedRound(p: Problem, h: History, i: nat) returns (r: nat)
    requires Mapped(h, i)
    ensures r < |h| && h[r].filament == i && Assigned(h, i) == Some((h[r].tray, h[r].distance))
  {
    r := |h| - 1;
    if h[r].filament != i {
      var k :| 0 <= k < |h| && h[k].filament == i;
      assert h[..|h| - 1][k] == h[k];
      r := AssignedRound(p, h[..|h| - 1], i);
    }
  }

  /**
   A filament is matched only with a tray of its material, and its distance tells why: under 1000
   for its preset, 10000 to 11000 for its class, and 20000 to 21000 for another class.
   */
  lemma MatchedDistanceTells(p: Problem, h: History, i: nat)
    requires p.metric.Valid() && Run(p, h) && Assigned(h, i).Some?
    ensures var (j, d) := Assigned(h, i).value;
            && i < |p.wanted| && j < |p.trays| && p.wanted[i].filamentType == p.trays[j].filamentType
            && IsDistance(p.metric, p.wanted[i], p.trays[j], d)
  {
    hide Metric.Valid, IsDistance;
    var r := AssignedRound(p, h, i);
    assert Round(p, h[..r], h[r]);
    PairDistanceIs(p.metric, p.wanted[i], p.trays[h[r].tray]);
  }

  lemma BandsApart(metric: Metric, wanted: Wanted, tray: Tray, other: Tray)
    requires metric.Valid()
    requires wanted.filamentType == tray.filamentType == other.filamentType && Band(wanted, tray) < Band(wanted, other)
    ensures PairDistance(metric, wanted, tray).value < PairDistance(metric, wanted, other).value
  {
    hide Metric.Valid, PairDistance;
    PairDistanceIs(metric, wanted, tray);
    PairDistanceIs(metric, wanted, other);
  }

  /**
   A filament gets a tray that fits worse than some tray of its material only when that one had
   gone to another filament. So it prints from another class only when every tray of its own class
   and material was taken.
   */
  lemma WorseBandOnlyWhenTaken(p: Problem, h: History, r: nat, j: nat)
    requires p.metric.Valid() && Run(p, h) && r < |h| && j < |p.trays|
    requires var i := h[r].filament;
             i < |p.wanted| && h[r].tray < |p.trays|
             && p.trays[j].filamentType == p.wanted[i].filamentType
             && Band(p.wanted[i], p.trays[j]) < Band(p.wanted[i], p.trays[h[r].tray])
    ensures exists q | 0 <= q < r :: h[q].tray == j && h[q].filament != h[r].filament
  {
    hide Metric.Valid, PairDistance, Band, Best;
    var w := p.wanted[h[r].filament];
    assert Round(p, h[..r], h[r]);
    assert p.Compatible(h[r].filament, h[r].tray) by { BestIsCompatible(p, h[..r], h[r]); }
    PairDistanceIs(p.metric, w, p.trays[j]);
    BandsApart(p.metric, w, p.trays[j], p.trays[h[r].tray]);
    GreedyIsStable(p, h, r, j);
  }

  lemma BestIsCompatible(p: Problem, h: History, pick: Pick)
    requires Best(p, h, pick.reusing, pick.filament, pick.tray)
    ensures p.Compatible(pick.filament, pick.tray)
  {
  }

  /**
   Among unused trays at one distance a filament takes one of its class, of those one with filament
   left, of those the one with the least left, and of equal ones the first.
   */
  lemma TieGoesToLeastLeft(p: Problem, h: History, r: nat, j: nat)
    requires Run(p, h) && r < |h| && p.Compatible(h[r].filament, j) && !Used(h[..r], j)
    requires p.Distance(h[r].filament, j) == Some(h[r].distance)
    ensures h[r].filament < |p.wanted| && h[r].tray < |p.trays|
    ensures var w, tray, other := p.wanted[h[r].filament], p.trays[h[r].tray], p.trays[j];
            && (IsClass(w, other) ==> IsClass(w, tray))
            && (IsClass(w, other) && other.remain > 0 ==> 0 < tray.remain <= other.remain)
            && (tray == other ==> h[r].tray <= j)
  {
    assert Round(p, h[..r], h[r]);
    assert Eligible(p, h[..r], h[r].filament, j, h[r].reusing);
  }

  /** A tray closer than 0.0001 stays open to every filament, however often it was used. */
  lemma ExactMatchIsShared(p: Problem, h: History, r: nat, j: nat)
    requires Run(p, h) && r < |h| && p.Compatible(h[r].filament, j)
    requires p.Distance(h[r].filament, j).value < 0.0001
    ensures !h[r].reusing && h[r].distance <= p.Distance(h[r].filament, j).value
  {
    assert Round(p, h[..r], h[r]);
    assert Eligible(p, h[..r], h[r].filament, j, false);
  }
}
