/**
 What a derived mapping means on the printer, stated over the plate's file and the telemetry alone:
 which trays and spools can feed a filament, and what the array says of each.
 */
module DerivationMeaning {
  import opened Wrappers
  import opened AmsAddresses
  import opened AmsMapping
  import opened TrayMatching
  import opened TrayBands
  import opened AmsDerivation

  // ----- what feeds an extruder -----

  /** The unit feeds the extruder: it is wired to it, or unfixed with a switch inlet, or says nothing. */
  predicate Feeds(unit: Unit, extruder: nat) {
    if unit.info.None? then extruder == 0
    else
      var bits, inlet := unit.info.value / 256 % 16, unit.info.value / 16_777_216 % 16;
      bits == extruder || (bits == 14 && (inlet == 0 || inlet == 1))
  }

  /** A loaded tray in this slot of this unit is that feed location. */
  predicate IsAt(amsId: int, slot: int, t: ReportedTray, source: MaterialSource) {
    || (0 <= amsId <= 3 && 0 <= slot <= 3 && t.loaded && source == StandardAms(amsId, slot))
    || (128 <= amsId <= 135 && slot == 0 && t.loadedInHt && source == AmsHt(amsId))
    || ((amsId == 6 || amsId == 16) && 0 <= slot <= 3 && t.loaded && source == AmsLite(slot))
  }

  /** One of the unit's trays is loaded with `tray`, at the feed location. */
  predicate HoldsTray(unit: Unit, source: MaterialSource, tray: Tray) {
    unit.amsId.Some? && exists t <- unit.trays ::
      t.slot.Some? && t.named == Some(tray) && IsAt(unit.amsId.value, t.slot.value, t, source)
  }

  /** The extruder's external spool: the left one under id 254, the right one under 255. */
  predicate HoldsSpool(spools: seq<Spool>, extruder: nat, source: MaterialSource, tray: Tray) {
    exists s <- spools :: s.named == Some(tray)
      && if extruder == 1 then s.id == Some(254) && source == ExternalSpoolLeft
         else s.id == Some(255) && source == ExternalSpoolRight
  }

  /** What an extruder prints from: a tray of a unit that feeds it, or its spool when no unit does. */
  predicate IsFedFrom(units: seq<Unit>, spools: seq<Spool>, extruder: nat, source: MaterialSource, tray: Tray) {
    || (exists u <- units :: Feeds(u, extruder) && HoldsTray(u, source, tray))
    || ((forall u <- units :: !Feeds(u, extruder)) && HoldsSpool(spools, extruder, source, tray))
  }

  /**
   A filament can print from a tray: with one nozzle from any loaded tray of the units, with two
   from what feeds the extruder its map value names, 1 the left one and 2 the right one.
   */
  predicate CanPrintFrom(dualNozzle: bool, maps: Option<seq<nat>>, units: seq<Unit>, spools: seq<Spool>,
                         wanted: Wanted, source: MaterialSource, tray: Tray)
  {
    && 1 <= wanted.id <= 32
    && if !dualNozzle then exists u <- units :: HoldsTray(u, source, tray)
       else
         && maps.Some? && wanted.id <= |maps.value|
         && (|| (maps.value[wanted.id - 1] == 1 && IsFedFrom(units, spools, 1, source, tray))
             || (maps.value[wanted.id - 1] == 2 && IsFedFrom(units, spools, 0, source, tray)))
  }

  lemma FeedsIsReaches(unit: Unit, extruder: nat)
    requires extruder <= 1
    ensures Feeds(unit, extruder) <==> Reaches(extruder, unit)
  {
  }

  lemma IsAtIsCandidate(unit: Unit, t: ReportedTray, source: MaterialSource, tray: Tray)
    ensures (exists c :: TrayCandidate(unit, t) == Some(c) && c.source == source && c.tray == tray)
            <==> unit.amsId.Some? && t.slot.Some? && t.named == Some(tray)
                 && IsAt(unit.amsId.value, t.slot.value, t, source)
  {
    var c := TrayCandidate(unit, t);
    assert c.Some? ==> TrayCandidate(unit, t) == Some(c.value);
  }

  /** Every candidate off the bus is a tray that a unit holds, and the other way around. */
  lemma BusCandidateIsHeld(units: seq<Unit>, accept: Unit -> bool, source: MaterialSource, tray: Tray)
    ensures (exists c :: IsBusCandidate(units, accept, c) && c.source == source && c.tray == tray)
            <==> exists u <- units :: accept(u) && HoldsTray(u, source, tray)
  {
    hide IsAt, TrayCandidate;
    if c :| IsBusCandidate(units, accept, c) && c.source == source && c.tray == tray {
      var u :| u in units && accept(u) && exists t <- u.trays :: TrayCandidate(u, t) == Some(c);
      var t :| t in u.trays && TrayCandidate(u, t) == Some(c);
      IsAtIsCandidate(u, t, source, tray);
      assert HoldsTray(u, source, tray);
    }
    if u :| u in units && accept(u) && HoldsTray(u, source, tray) {
      var t :| t in u.trays && t.slot.Some? && t.named == Some(tray)
               && IsAt(u.amsId.value, t.slot.value, t, source);
      IsAtIsCandidate(u, t, source, tray);
      var c :| TrayCandidate(u, t) == Some(c) && c.source == source && c.tray == tray;
      assert IsBusCandidate(units, accept, c);
    }
  }

  lemma SpoolCandidateIsHeld(spools: seq<Spool>, extruder: nat, source: MaterialSource, tray: Tray)
    requires extruder <= 1
    ensures (exists c :: IsSpoolCandidate(spools, extruder, c) && c.source == source && c.tray == tray)
            <==> HoldsSpool(spools, extruder, source, tray)
  {
    if HoldsSpool(spools, extruder, source, tray) {
      assert IsSpoolCandidate(spools, extruder, Candidate(SpoolId(extruder), source, tray));
    }
  }

  lemma SideCandidateIsFed(units: seq<Unit>, spools: seq<Spool>, extruder: nat, source: MaterialSource, tray: Tray)
    requires extruder <= 1
    ensures (exists c :: IsSideCandidate(units, spools, extruder, c) && c.source == source && c.tray == tray)
            <==> IsFedFrom(units, spools, extruder, source, tray)
  {
    hide IsBusCandidate, IsSpoolCandidate, HoldsTray, HoldsSpool, Feeds, Reaches;
    BusCandidateIsHeld(units, ReachedBy(extruder), source, tray);
    SpoolCandidateIsHeld(spools, extruder, source, tray);
    forall u | u in units
      ensures Feeds(u, extruder) <==> ReachedBy(extruder)(u)
    {
      FeedsIsReaches(u, extruder);
    }
  }

  lemma CandidateIsPrintable(dualNozzle: bool, maps: Option<seq<nat>>, units: seq<Unit>, spools: seq<Spool>,
                             wanted: Wanted, source: MaterialSource, tray: Tray)
    ensures (exists c <- CandidatesFor(dualNozzle, maps, units, spools, wanted) :: c.source == source && c.tray == tray)
            <==> CanPrintFrom(dualNozzle, maps, units, spools, wanted, source, tray)
  {
    hide IsBusCandidate, IsSideCandidate, HoldsTray, IsFedFrom;
    BusCandidateIsHeld(units, AnyUnit, source, tray);
    SideCandidateIsFed(units, spools, 0, source, tray);
    SideCandidateIsFed(units, spools, 1, source, tray);
  }

  /**
   A derivation matches a filament exactly when it can print from some tray of its material. The
   match is such a tray, and its distance tells how well the tray fits.
   */
  lemma DerivedIsPrintable(wanted: seq<Wanted>, maps: Option<seq<nat>>, units: seq<Unit>, spools: seq<Spool>,
                           dualNozzle: bool, metric: Metric, matches: seq<Match>, i: nat)
    requires Derived(wanted, maps, units, spools, dualNozzle, metric, matches) && i < |wanted| && metric.Valid()
    ensures matches[i].Some? <==> exists source, tray ::
              CanPrintFrom(dualNozzle, maps, units, spools, wanted[i], source, tray)
              && tray.filamentType == wanted[i].filamentType
    ensures matches[i].Some? ==> exists tray ::
              CanPrintFrom(dualNozzle, maps, units, spools, wanted[i], matches[i].value.0, tray)
              && tray.filamentType == wanted[i].filamentType
              && IsDistance(metric, wanted[i], tray, matches[i].value.1)
  {
    assert |matches| == |wanted|;
    hide Derived, CandidatesFor, CanPrintFrom, Metric.Valid, IsDistance, PairDistance;
    DerivedWithinReach(wanted, maps, units, spools, dualNozzle, metric, matches, i);
    var candidates := CandidatesFor(dualNozzle, maps, units, spools, wanted[i]);
    if matches[i].Some? {
      var c :| c in candidates && c.source == matches[i].value.0
               && PairDistance(metric, wanted[i], c.tray) == Some(matches[i].value.1);
      CandidateIsPrintable(dualNozzle, maps, units, spools, wanted[i], c.source, c.tray);
      PairDistanceIs(metric, wanted[i], c.tray);
    }
    if source, tray :|
      CanPrintFrom(dualNozzle, maps, units, spools, wanted[i], source, tray)
      && tray.filamentType == wanted[i].filamentType
    {
      CandidateIsPrintable(dualNozzle, maps, units, spools, wanted[i], source, tray);
    }
  }

  /** With two nozzles a filament whose map value is neither 1 nor 2 is left unmatched. */
  lemma OtherMapValuesAreUnmatched(wanted: seq<Wanted>, maps: Option<seq<nat>>, units: seq<Unit>, spools: seq<Spool>,
                                   metric: Metric, matches: seq<Match>, i: nat)
    requires Derived(wanted, maps, units, spools, true, metric, matches) && i < |wanted| && metric.Valid()
    requires maps.None? || wanted[i].id == 0 || wanted[i].id > |maps.value|
             || (maps.value[wanted[i].id - 1] != 1 && maps.value[wanted[i].id - 1] != 2)
    ensures matches[i].None?
  {
    assert |matches| == |wanted|;
    hide Derived, Metric.Valid, IsDistance, IsFedFrom;
    DerivedIsPrintable(wanted, maps, units, spools, true, metric, matches, i);
  }

  // ----- what the array says -----

  /** The entry on the wire for what a filament matched. */
  predicate IsEntryOf(m: Match, e: MappingEntry) {
    if m.None? then e == MappingEntry(255, 255)
    else
      match m.value.0
      case StandardAms(amsId, slot) => e == MappingEntry(amsId, slot)
      case AmsHt(amsId) => e == MappingEntry(amsId, 0)
      case AmsLite(slot) => e == MappingEntry(16, slot)
      case ExternalSpoolLeft => e == MappingEntry(254, 0)
      case ExternalSpoolRight => e == MappingEntry(255, 0)
      case _ => false
  }

  /** The `k`-th filament is the last of the plate under its id. */
  predicate IsLastOfId(wanted: seq<Wanted>, k: nat) {
    k < |wanted| && forall j | k < j < |wanted| :: wanted[j].id != wanted[k].id
  }

  predicate Wants(wanted: seq<Wanted>, id: nat) {
    exists w <- wanted :: w.id == id
  }

  predicate Names(allocations: seq<Allocation>, id: nat) {
    exists a <- allocations :: a.filament == id
  }

  /** The allocations name the usable ids of the plate. */
  ghost predicate IdsAgree(wanted: seq<Wanted>, allocations: seq<Allocation>) {
    forall id: nat :: Names(allocations, id) <==> 1 <= id <= 32 && Wants(wanted, id)
  }

  function SourceOf(m: Match): MaterialSource {
    if m.None? then Unmapped else m.value.0
  }

  ghost predicate LastsAgree(wanted: seq<Wanted>, matches: seq<Match>, allocations: seq<Allocation>)
    requires |wanted| == |matches|
  {
    forall k: nat | IsLastOfId(wanted, k) && 1 <= wanted[k].id <= 32 ::
      LastAllocation(allocations, wanted[k].id) == Some(SourceOf(matches[k]))
  }

  lemma {:induction false} AllocationsAre(wanted: seq<Wanted>, matches: seq<Match>)
    requires |wanted| == |matches|
    ensures IdsAgree(wanted, Allocations(wanted, matches))
    ensures LastsAgree(wanted, matches, Allocations(wanted, matches))
  {
    if wanted != [] {
      var n := |wanted| - 1;
      var before := Allocations(wanted[..n], matches[..n]);
      AllocationsAre(wanted[..n], matches[..n]);
      assert wanted == wanted[..n] + [wanted[n]] && matches == matches[..n] + [matches[n]];
      OneMoreId(wanted[..n], before, wanted[n], SourceOf(matches[n]));
      OneMoreLast(wanted[..n], matches[..n], before, wanted[n], matches[n]);
    }
  }

  lemma OneMoreId(wanted: seq<Wanted>, allocations: seq<Allocation>, w: Wanted, source: MaterialSource)
    requires IdsAgree(wanted, allocations)
    ensures IdsAgree(wanted + [w], if Usable(w) then allocations + [Allocation(w.id, source)] else allocations)
  {
    hide Wants, Names;
    forall id: nat
      ensures Wants(wanted + [w], id) <==> Wants(wanted, id) || w.id == id
      ensures Names(allocations + [Allocation(w.id, source)], id) <==> Names(allocations, id) || w.id == id
    {
      WantsSnoc(wanted, w, id);
      NamesSnoc(allocations, Allocation(w.id, source), id);
    }
  }

  lemma WantsSnoc(wanted: seq<Wanted>, w: Wanted, id: nat)
    ensures Wants(wanted + [w], id) <==> Wants(wanted, id) || w.id == id
  {
    assert forall x :: x in wanted + [w] <==> x in wanted || x == w;
  }

  lemma NamesSnoc(allocations: seq<Allocation>, a: Allocation, id: nat)
    ensures Names(allocations + [a], id) <==> Names(allocations, id) || a.filament == id
  {
    assert forall x :: x in allocations + [a] <==> x in allocations || x == a;
  }

  lemma OneMoreLast(wanted: seq<Wanted>, matches: seq<Match>, allocations: seq<Allocation>, w: Wanted, m: Match)
    requires |wanted| == |matches| && LastsAgree(wanted, matches, allocations)
    ensures LastsAgree(wanted + [w], matches + [m],
                       if Usable(w) then allocations + [Allocation(w.id, SourceOf(m))] else allocations)
  {
    hide LastAllocation;
    var all := wanted + [w];
    var longer := if Usable(w) then allocations + [Allocation(w.id, SourceOf(m))] else allocations;
    forall k: nat | IsLastOfId(all, k) && 1 <= all[k].id <= 32
      ensures LastAllocation(longer, all[k].id) == Some(SourceOf((matches + [m])[k]))
    {
      LastSnoc(allocations, Allocation(w.id, SourceOf(m)), all[k].id);
      if k < |wanted| {
        assert all[|wanted|] == w;
        assert forall j | k < j < |wanted| :: all[j] == wanted[j];
        assert IsLastOfId(wanted, k);
      }
    }
  }

  lemma LastSnoc(allocations: seq<Allocation>, a: Allocation, id: nat)
    ensures LastAllocation(allocations + [a], id)
         == if a.filament == id then Some(a.source) else LastAllocation(allocations, id)
  {
    assert (allocations + [a])[..|allocations|] == allocations;
  }

  /** The array goes up to the highest id in use. */
  lemma ArrayReaches(wanted: seq<Wanted>, allocations: seq<Allocation>)
    requires IdsAgree(wanted, allocations)
    ensures var n := MappingLength(allocations);
            && n <= 32 && (n > 0 ==> Wants(wanted, n))
            && forall id: nat | Wants(wanted, id) && 1 <= id <= 32 :: id <= n
  {
    hide HighestFilament, Wants;
    var highest := HighestFilament(allocations);
    NoneIsZero(allocations);
    if allocations != [] {
      var a :| a in allocations && a.filament == highest;
      assert Names(allocations, highest);
    }
    forall id: nat | Wants(wanted, id) && 1 <= id <= 32
      ensures id <= highest
    {
      assert Names(allocations, id);
      var a :| a in allocations && a.filament == id;
    }
  }

  lemma NoneIsZero(allocations: seq<Allocation>)
    ensures allocations == [] ==> HighestFilament(allocations) == 0
  {
  }

  /** What a filament can print from has an entry of its own. */
  lemma PrintableHasEntry(dualNozzle: bool, maps: Option<seq<nat>>, units: seq<Unit>, spools: seq<Spool>,
                          wanted: Wanted, m: (MaterialSource, real), tray: Tray)
    requires CanPrintFrom(dualNozzle, maps, units, spools, wanted, m.0, tray)
    ensures IsEntryOf(Some(m), ToEntry(m.0))
  {
  }

  /**
   The array of a derivation: it ends at the highest id in use, each id names the feed location that
   its last filament matched, and an id that no filament has, or whose filament matched nothing, is
   unmapped.
   */
  lemma DerivedArrayTells(wanted: seq<Wanted>, maps: Option<seq<nat>>, units: seq<Unit>, spools: seq<Spool>,
                          dualNozzle: bool, metric: Metric, matches: seq<Match>, mapping: seq<MappingEntry>)
    requires Derived(wanted, maps, units, spools, dualNozzle, metric, matches) && metric.Valid()
    requires |mapping| == MappingLength(Allocations(wanted, matches))
    requires forall i | 0 <= i < |mapping| ::
               mapping[i] == Cell(Allocations(wanted, matches), UNMAPPED_ENTRY, ToEntry, i + 1)
    ensures |mapping| <= 32 && (mapping != [] ==> Wants(wanted, |mapping|))
    ensures |matches| == |wanted|
    ensures forall k: nat | IsLastOfId(wanted, k) && 1 <= wanted[k].id <= 32 ::
              wanted[k].id <= |mapping| && IsEntryOf(matches[k], mapping[wanted[k].id - 1])
    ensures forall n: nat | n < |mapping| && !Wants(wanted, n + 1) :: mapping[n] == MappingEntry(255, 255)
  {
    assert |matches| == |wanted|;
    hide Derived, Metric.Valid, Allocations, MappingLength, ToEntry, IsEntryOf, LastAllocation, Wants, Names;
    var allocations := Allocations(wanted, matches);
    AllocationsAre(wanted, matches);
    ArrayReaches(wanted, allocations);
    forall k: nat | IsLastOfId(wanted, k) && 1 <= wanted[k].id <= 32
      ensures wanted[k].id <= |mapping| && IsEntryOf(matches[k], mapping[wanted[k].id - 1])
    {
      IdIsWanted(wanted, k);
      MatchHasEntry(wanted, maps, units, spools, dualNozzle, metric, matches, k);
    }
    forall n: nat | n < |mapping| && !Wants(wanted, n + 1)
      ensures mapping[n] == MappingEntry(255, 255)
    {
      UnnamedHasNone(allocations, n + 1);
    }
  }

  lemma IdIsWanted(wanted: seq<Wanted>, k: nat)
    requires k < |wanted|
    ensures Wants(wanted, wanted[k].id)
  {
  }

  lemma UnnamedHasNone(allocations: seq<Allocation>, id: nat)
    ensures LastAllocation(allocations, id).None? <==> !Names(allocations, id)
  {
  }

  lemma MatchHasEntry(wanted: seq<Wanted>, maps: Option<seq<nat>>, units: seq<Unit>, spools: seq<Spool>,
                      dualNozzle: bool, metric: Metric, matches: seq<Match>, k: nat)
    requires Derived(wanted, maps, units, spools, dualNozzle, metric, matches) && metric.Valid() && k < |wanted|
    ensures IsEntryOf(matches[k], ToEntry(SourceOf(matches[k])))
  {
    assert |matches| == |wanted|;
    hide Derived, Metric.Valid, IsDistance, CanPrintFrom, ToEntry, IsEntryOf;
    DerivedIsPrintable(wanted, maps, units, spools, dualNozzle, metric, matches, k);
    if matches[k].Some? {
      var tray :| CanPrintFrom(dualNozzle, maps, units, spools, wanted[k], matches[k].value.0, tray);
      PrintableHasEntry(dualNozzle, maps, units, spools, wanted[k], matches[k].value, tray);
    } else {
      UnmatchedHasEntry();
    }
  }

  lemma UnmatchedHasEntry()
    ensures IsEntryOf(None, ToEntry(Unmapped))
  {
  }

  /** The flat array's value for an entry: unit and slot of a standard unit as quotient and remainder by 4. */
  lemma FlatChannelIs(e: MappingEntry)
    ensures var v := FlatChannel(e);
            && (e.amsId <= 3 && e.slot <= 3 ==> 0 <= v < 16 && v / 4 == e.amsId && v % 4 == e.slot)
            && (128 <= e.amsId <= 135 ==> v == e.amsId)
            && (e.amsId == 16 && e.slot <= 3 ==> v == e.slot)
            && (v == -1 <==> !(e.amsId <= 3 && e.slot <= 3) && !(128 <= e.amsId <= 135)
                             && !(e.amsId == 16 && e.slot <= 3))
  {
  }

  /** The AMS is used on a printer with more nozzles, or when some entry is a slot of a unit. */
  lemma UseAmsIs(singleNozzle: bool, mapping: seq<MappingEntry>)
    ensures UseAms(singleNozzle, mapping) <==>
            !singleNozzle || exists e <- mapping ::
              (e.amsId <= 3 && e.slot <= 3) || 128 <= e.amsId <= 135 || (e.amsId == 16 && e.slot <= 3)
  {
  }

  /** Each feed location has its entry, and one out of range has the entry of none. */
  lemma EntryOfLocation(source: MaterialSource)
    ensures var e := ToEntry(source);
            match source
            case StandardAms(amsId, slot) =>
              e == if amsId <= 3 && slot <= 3 then MappingEntry(amsId, slot) else MappingEntry(255, 255)
            case AmsHt(amsId) => e == if 128 <= amsId <= 135 then MappingEntry(amsId, 0) else MappingEntry(255, 255)
            case AmsLite(slot) => e == if slot <= 3 then MappingEntry(16, slot) else MappingEntry(255, 255)
            case ExternalSpool => e == MappingEntry(255, 0)
            case ExternalSpoolLeft => e == MappingEntry(254, 0)
            case ExternalSpoolRight => e == MappingEntry(255, 0)
            case Unmapped => e == MappingEntry(255, 255)
  {
  }

  /** The last allocation that names a filament is the one its cell is made from. */
  lemma {:induction false} LastAllocationWins(allocations: seq<Allocation>, k: nat)
    requires k < |allocations|
    requires forall j | k < j < |allocations| :: allocations[j].filament != allocations[k].filament
    ensures LastAllocation(allocations, allocations[k].filament) == Some(allocations[k].source)
  {
    if k < |allocations| - 1 {
      LastAllocationWins(allocations[..|allocations| - 1], k);
    }
  }

  function UnitsBetween(mapping: seq<MappingEntry>, low: nat, high: nat): set<int> {
    set e | e in mapping && low <= e.amsId <= high :: e.amsId
  }

  /** The entry is a slot of a unit, an external spool or no location at all. */
  predicate IsKnown(e: MappingEntry) {
    (e.amsId <= 3 && e.slot <= 3) || 128 <= e.amsId <= 135 || (e.amsId == 16 && e.slot <= 3) || e.amsId >= 254
  }

  /**
   A pool serves a mapping of known entries that uses no more distinct units than it has, and the
   AMS Lite only where it comes on top of the others.
   */
  lemma PoolServes(mapping: seq<MappingEntry>, pool: PoolComposition)
    ensures FitsPool(mapping, pool) <==>
              && (forall e <- mapping :: IsKnown(e))
              && var lite := exists e <- mapping :: e.amsId == 16;
                 var standard, ht := |UnitsBetween(mapping, 0, 3)|, |UnitsBetween(mapping, 128, 135)|;
                 match pool
                 case Shared(maxUnits, slot) => (lite ==> slot == Additive) && standard + ht <= maxUnits
                 case Independent(maxStandard, maxHt) => !lite && standard <= maxStandard && ht <= maxHt
  {
    if forall e <- mapping :: IsKnown(e) {
      assert forall e <- mapping :: !Classify(e).Invalid?;
      KnownUnits(mapping);
      assert (exists e <- mapping :: Classify(e).Lite?) <==> exists e <- mapping :: e.amsId == 16;
    } else {
      var e :| e in mapping && !IsKnown(e);
      assert Classify(e).Invalid?;
    }
  }

  lemma KnownUnits(mapping: seq<MappingEntry>)
    requires forall e <- mapping :: IsKnown(e)
    ensures |StandardIds(mapping)| == |UnitsBetween(mapping, 0, 3)|
    ensures |HtIds(mapping)| == |UnitsBetween(mapping, 128, 135)|
  {
    SameSize(StandardIds(mapping), UnitsBetween(mapping, 0, 3));
    SameSize(HtIds(mapping), UnitsBetween(mapping, 128, 135));
  }

  lemma {:induction false} SameSize(ids: set<U8>, units: set<int>)
    requires forall id: int :: id in units <==> 0 <= id < 256 && id in ids
    ensures |ids| == |units|
    decreases |ids|
  {
    if ids != {} {
      var id :| id in ids;
      SameSize(ids - {id}, units - {id});
    } else {
      assert forall id :: id !in units;
    }
  }

  /** Trays are scanned unit by unit and slot by slot, an AMS Lite after the standard units and an AMS-HT last. */
  lemma TrayOrderTells(amsId: U8, slot: U8)
    requires IsBusUnitId(amsId) && IsUnitSlot(amsId, slot)
    ensures var order := TrayOrder(amsId, slot);
            && (amsId <= 3 ==> order < 16 && order / 4 == amsId && order % 4 == slot)
            && (amsId == 6 || amsId == 16 ==> 24 <= order < 28 && order - 24 == slot)
            && (128 <= amsId <= 135 ==> order == amsId)
  {
  }
}
