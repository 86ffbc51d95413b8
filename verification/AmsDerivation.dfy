/** Deriving a mapping from a plate's filaments and the AMS units a printer reports. */
module AmsDerivation {
  import opened Wrappers
  import opened Sequences
  import opened AmsAddresses
  import opened AmsMapping
  import opened TrayMatching

  const LITE_ORDER_BASE: nat := 24
  const EXTRUDER_MAIN: nat := 0
  const EXTRUDER_DEPUTY: nat := 1
  const FILAMENT_MAP_DEPUTY: nat := 1
  const FILAMENT_MAP_MAIN: nat := 2
  const UNFIXED_EXTRUDER: nat := 0xE

  /**
   A tray as telemetry reports it: its slot, whether it is loaded, which has a rule of its own on
   an AMS-HT, and its fields when it names a material.
   */
  datatype ReportedTray = ReportedTray(slot: Option<U8>, loaded: bool, loadedInHt: bool, named: Option<Tray>)

  datatype Unit = Unit(amsId: Option<U8>, info: Option<nat>, trays: seq<ReportedTray>)

  /** An external spool holder, by the id it reports. */
  datatype Spool = Spool(id: Option<U8>, named: Option<Tray>)

  /** What a filament can be fed from; candidates are scanned in ascending `order`, their flat index. */
  datatype Candidate = Candidate(order: nat, source: MaterialSource, tray: Tray)

  /** The extruders a unit feeds: bits 8 to 11 of its `info`, and bits 24 to 27 for an unfixed one. */
  function UnitExtruders(unit: Unit): set<nat> {
    if unit.info.None? then {EXTRUDER_MAIN}
    else
      var extruder, inlet := unit.info.value / 0x100 % 16, unit.info.value / 0x100_0000 % 16;
      if extruder != UNFIXED_EXTRUDER then {extruder}
      else if inlet <= 1 then {EXTRUDER_MAIN, EXTRUDER_DEPUTY}
      else {}
  }

  /** The flat index of a bus unit's tray, by the kind of unit. */
  function TrayOrder(amsId: U8, slot: U8): (order: nat)
    requires IsBusUnitId(amsId)
  {
    if IsStandardId(amsId) then
      var unit: int := amsId;
      unit * 4 + slot
    else if IsHtId(amsId) then amsId
    else LITE_ORDER_BASE + slot
  }

  function TraySource(amsId: U8, slot: U8): MaterialSource
    requires IsBusUnitId(amsId)
  {
    if IsStandardId(amsId) then StandardAms(amsId, slot)
    else if IsHtId(amsId) then AmsHt(amsId)
    else AmsLite(slot)
  }

  /** Distinct trays have distinct flat indices, where the two spellings of the AMS Lite are one unit. */
  lemma TrayOrderIsInjective(amsId: U8, slot: U8, amsId': U8, slot': U8)
    requires IsBusUnitId(amsId) && IsUnitSlot(amsId, slot) && IsBusUnitId(amsId') && IsUnitSlot(amsId', slot')
    ensures TrayOrder(amsId, slot) == TrayOrder(amsId', slot') <==> TraySource(amsId, slot) == TraySource(amsId', slot')
  {
  }

  /** The candidate of one tray of one unit, when the unit is on the bus and the tray is loaded. */
  function TrayCandidate(unit: Unit, tray: ReportedTray): Option<Candidate> {
    if unit.amsId.None? || !IsBusUnitId(unit.amsId.value) || tray.slot.None? then None
    else
      var amsId, slot := unit.amsId.value, tray.slot.value;
      var loaded := if IsHtId(amsId) then tray.loadedInHt else tray.loaded;
      if !IsUnitSlot(amsId, slot) || !loaded || tray.named.None? then None
      else Some(Candidate(TrayOrder(amsId, slot), TraySource(amsId, slot), tray.named.value))
  }

  /** The candidates of a unit's trays, in the order the unit lists them. */
  function UnitCandidates(unit: Unit, trays: seq<ReportedTray>): (list: seq<Candidate>)
    ensures forall c :: c in list <==> exists t <- trays :: TrayCandidate(unit, t) == Some(c)
  {
    if trays == [] then []
    else
      var n := |trays| - 1;
      var before := UnitCandidates(unit, trays[..n]);
      assert trays == trays[..n] + [trays[n]];
      if TrayCandidate(unit, trays[n]).None? then before else before + [TrayCandidate(unit, trays[n]).value]
  }

  /** The candidates of every unit `accept` takes, in the order the units are reported. */
  function BusList(units: seq<Unit>, accept: Unit -> bool): seq<Candidate> {
    if units == [] then []
    else
      var n := |units| - 1;
      BusList(units[..n], accept) + if accept(units[n]) then UnitCandidates(units[n], units[n].trays) else []
  }

  /** `c` is the candidate of a loaded tray of a unit `accept` takes. */
  predicate IsBusCandidate(units: seq<Unit>, accept: Unit -> bool, c: Candidate) {
    exists u <- units :: accept(u) && exists t <- u.trays :: TrayCandidate(u, t) == Some(c)
  }

  lemma {:induction false} BusListHolds(units: seq<Unit>, accept: Unit -> bool)
    ensures forall c :: c in BusList(units, accept) <==> IsBusCandidate(units, accept, c)
  {
    if units != [] {
      var n := |units| - 1;
      BusListHolds(units[..n], accept);
      assert units == units[..n] + [units[n]];
      OneMoreUnit(units[..n], units[n], accept);
    }
  }

  /** Collects the candidates of the loaded trays of every unit `accept` takes. */
  method BusCandidates(units: seq<Unit>, accept: Unit -> bool) returns (out: seq<Candidate>)
    ensures out == BusList(units, accept)
  {
    out := [];
    for i := 0 to |units|
      invariant out == BusList(units[..i], accept)
    {
      var u := units[i];
      ghost var before := out;
      assert units[..i + 1][..i] == units[..i];
      if accept(u) {
        for k := 0 to |u.trays|
          invariant out == before + UnitCandidates(u, u.trays[..k])
        {
          assert u.trays[..k + 1][..k] == u.trays[..k];
          var candidate := TrayCandidate(u, u.trays[k]);
          if candidate.Some? {
            out := out + [candidate.value];
          }
        }
        assert u.trays[..|u.trays|] == u.trays;
      }
    }
    assert units[..|units|] == units;
  }

  lemma OneMoreUnit(units: seq<Unit>, u: Unit, accept: Unit -> bool)
    ensures forall c ::
              IsBusCandidate(units + [u], accept, c) <==>
              IsBusCandidate(units, accept, c) || (accept(u) && exists t <- u.trays :: TrayCandidate(u, t) == Some(c))
  {
    assert forall v :: v in units + [u] <==> v in units || v == u;
  }

  // ----- in tray order -----

  predicate InTrayOrder(s: seq<Candidate>) {
    forall i, j | 0 <= i < j < |s| :: s[i].order <= s[j].order
  }

  /** Puts `c` after every candidate of the same or a lower order. */
  function Insert(s: seq<Candidate>, c: Candidate): (r: seq<Candidate>) {
    if s == [] || s[|s| - 1].order <= c.order then s + [c]
    else Insert(s[..|s| - 1], c) + [s[|s| - 1]]
  }

  predicate UpTo(s: seq<Candidate>, order: nat) {
    forall k | 0 <= k < |s| :: s[k].order <= order
  }

  lemma OrderSnoc(s: seq<Candidate>, c: Candidate)
    requires InTrayOrder(s) && UpTo(s, c.order)
    ensures InTrayOrder(s + [c])
    ensures forall order: nat | c.order <= order :: UpTo(s + [c], order)
  {
  }

  lemma {:induction false} InsertKeepsOrder(s: seq<Candidate>, c: Candidate)
    requires InTrayOrder(s)
    ensures InTrayOrder(Insert(s, c)) && multiset(Insert(s, c)) == multiset(s) + multiset{c}
    ensures forall order: nat | UpTo(s, order) && c.order <= order :: UpTo(Insert(s, c), order)
  {
    if s == [] || s[|s| - 1].order <= c.order {
      OrderSnoc(s, c);
    } else {
      var init, last := s[..|s| - 1], s[|s| - 1];
      InsertKeepsOrder(init, c);
      assert s == init + [last] && UpTo(init, last.order);
      OrderSnoc(Insert(init, c), last);
    }
  }

  /** The stable sort by flat index. */
  function SortByOrder(s: seq<Candidate>): (r: seq<Candidate>) {
    if s == [] then [] else Insert(SortByOrder(s[..|s| - 1]), s[|s| - 1])
  }

  lemma {:induction false} SortedInTrayOrder(s: seq<Candidate>)
    ensures InTrayOrder(SortByOrder(s)) && multiset(SortByOrder(s)) == multiset(s)
    ensures forall c :: c in SortByOrder(s) <==> c in s
  {
    hide InTrayOrder, Insert;
    if s == [] {
      assert InTrayOrder([]) by {
        EmptyIsInOrder();
      }
    } else {
      var init := s[..|s| - 1];
      SortedInTrayOrder(init);
      InsertKeepsOrder(SortByOrder(init), s[|s| - 1]);
      assert s == init + [s[|s| - 1]];
    }
    SameMembers(SortByOrder(s), s);
  }

  /** The sort is stable: candidates of one order keep their relative order. */
  lemma {:induction false} SortIsStable(s: seq<Candidate>, order: nat)
    ensures Keep(SortByOrder(s), (c: Candidate) => c.order == order) == Keep(s, (c: Candidate) => c.order == order)
  {
    if s != [] {
      var init, c := s[..|s| - 1], s[|s| - 1];
      SortIsStable(init, order);
      SortedInTrayOrder(init);
      InsertIsStable(SortByOrder(init), c, order);
    }
  }

  lemma {:induction false} InsertIsStable(s: seq<Candidate>, c: Candidate, order: nat)
    ensures var same := (x: Candidate) => x.order == order;
            Keep(Insert(s, c), same) == Keep(s, same) + if c.order == order then [c] else []
  {
    var same := (x: Candidate) => x.order == order;
    if s == [] || s[|s| - 1].order <= c.order {
      assert (s + [c])[..|s|] == s;
    } else {
      var init, last := s[..|s| - 1], s[|s| - 1];
      InsertIsStable(init, c, order);
      var r := Insert(init, c);
      assert (r + [last])[..|r|] == r;
    }
  }

  lemma EmptyIsInOrder()
    ensures InTrayOrder([])
  {
  }

  lemma SameMembers<T>(s: seq<T>, t: seq<T>)
    requires multiset(s) == multiset(t)
    ensures forall x :: x in s <==> x in t
  {
    assert forall x :: x in s <==> x in multiset(s);
    assert forall x :: x in t <==> x in multiset(t);
  }

  // ----- the candidates of a side -----

  /** The id and the location of an extruder's external spool. */
  function SpoolId(extruder: nat): U8 {
    if extruder == EXTRUDER_DEPUTY then EXTERNAL_DEPUTY_ID else EXTERNAL_MAIN_ID
  }

  function SpoolSource(extruder: nat): MaterialSource {
    if extruder == EXTRUDER_DEPUTY then ExternalSpoolLeft else ExternalSpoolRight
  }

  predicate AnyUnit(unit: Unit) { true }

  predicate Reaches(extruder: nat, unit: Unit) {
    extruder in UnitExtruders(unit)
  }

  /** `c` is a spool that names a material on the extruder's holder. */
  predicate IsSpoolCandidate(spools: seq<Spool>, extruder: nat, c: Candidate) {
    exists s <- spools ::
      && s.id == Some(SpoolId(extruder)) && s.named.Some?
      && c == Candidate(SpoolId(extruder), SpoolSource(extruder), s.named.value)
  }

  /** What one extruder can be fed from: the units bound to it, or else its external spool. */
  predicate IsSideCandidate(units: seq<Unit>, spools: seq<Spool>, extruder: nat, c: Candidate) {
    || IsBusCandidate(units, ReachedBy(extruder), c)
    || (&& (forall u <- units :: !Reaches(extruder, u))
        && IsSpoolCandidate(spools, extruder, c))
  }

  /** The spools an extruder's holder names, in order. */
  function SpoolList(spools: seq<Spool>, extruder: nat): (list: seq<Candidate>)
    ensures forall c :: c in list <==> IsSpoolCandidate(spools, extruder, c)
  {
    if spools == [] then []
    else
      var n := |spools| - 1;
      var before, s := SpoolList(spools[..n], extruder), spools[n];
      assert spools == spools[..n] + [s];
      if s.id == Some(SpoolId(extruder)) && s.named.Some?
      then before + [Candidate(SpoolId(extruder), SpoolSource(extruder), s.named.value)]
      else before
  }

  function ReachedBy(extruder: nat): Unit -> bool {
    (u: Unit) => Reaches(extruder, u)
  }

  /** The candidates of a side in the order they are scanned. A single nozzle has every unit and no spool. */
  function SideCandidates(dualNozzle: bool, units: seq<Unit>, spools: seq<Spool>, extruder: nat): seq<Candidate> {
    if !dualNozzle then SortByOrder(BusList(units, AnyUnit))
    else
      var bus := BusList(units, ReachedBy(extruder));
      SortByOrder(if exists u <- units :: Reaches(extruder, u) then bus else bus + SpoolList(spools, extruder))
  }

  /** They are scanned in tray order, and they are the trays and spools the side can be fed from. */
  lemma SideCandidatesHold(dualNozzle: bool, units: seq<Unit>, spools: seq<Spool>, extruder: nat)
    ensures var candidates := SideCandidates(dualNozzle, units, spools, extruder);
            && InTrayOrder(candidates)
            && forall c ::
                 c in candidates <==>
                 if dualNozzle then IsSideCandidate(units, spools, extruder, c) else IsBusCandidate(units, AnyUnit, c)
  {
    hide SortByOrder, InTrayOrder, IsBusCandidate, IsSpoolCandidate, BusList, SpoolList;
    var bus := BusList(units, if dualNozzle then ReachedBy(extruder) else AnyUnit);
    BusListHolds(units, if dualNozzle then ReachedBy(extruder) else AnyUnit);
    SortedInTrayOrder(bus);
    SortedInTrayOrder(bus + SpoolList(spools, extruder));
  }

  method ExtruderCandidates(units: seq<Unit>, spools: seq<Spool>, extruder: nat) returns (out: seq<Candidate>)
    ensures out == SideCandidates(true, units, spools, extruder)
  {
    out := BusCandidates(units, ReachedBy(extruder));
    if forall u <- units :: !Reaches(extruder, u) {
      ghost var before := out;
      for k := 0 to |spools|
        invariant out == before + SpoolList(spools[..k], extruder)
      {
        var s := spools[k];
        assert spools[..k + 1][..k] == spools[..k];
        if s.id == Some(SpoolId(extruder)) && s.named.Some? {
          out := out + [Candidate(SpoolId(extruder), SpoolSource(extruder), s.named.value)];
        }
      }
      assert spools[..|spools|] == spools;
    }
    out := SortByOrder(out);
  }

  method SingleNozzleCandidates(units: seq<Unit>) returns (out: seq<Candidate>)
    ensures out == SideCandidates(false, units, [], EXTRUDER_MAIN)
  {
    out := BusCandidates(units, AnyUnit);
    out := SortByOrder(out);
  }

  // ----- the derivation -----

  /** The tray a filament matched and their distance. */
  type Match = Option<(MaterialSource, real)>

  /** A match is with a candidate of the filament's material, and there is one when there can be. */
  ghost predicate MatchedAmong(metric: Metric, wanted: Wanted, candidates: iset<Candidate>, m: Match) {
    && (m.Some? <==> exists c <- candidates :: c.tray.filamentType == wanted.filamentType)
    && (m.Some? ==>
          exists c <- candidates ::
            c.source == m.value.0 && PairDistance(metric, wanted, c.tray) == Some(m.value.1))
  }

  ghost function Among(candidates: seq<Candidate>): iset<Candidate> {
    iset c | c in candidates
  }

  predicate Usable(wanted: Wanted) {
    1 <= wanted.id <= MAX_PROJECT_FILAMENTS
  }

  /** The `filament_maps` value of a filament, when the file records one. */
  function ExtruderOf(maps: Option<seq<nat>>, id: nat): Option<nat> {
    if id == 0 || maps.None? || id > |maps.value| then None else Some(maps.value[id - 1])
  }

  /** The extruder a filament is matched for; none when it is left unmatched. */
  function SideOf(dualNozzle: bool, maps: Option<seq<nat>>, wanted: Wanted): Option<nat> {
    if !Usable(wanted) then None
    else if !dualNozzle then Some(EXTRUDER_MAIN)
    else if ExtruderOf(maps, wanted.id) == Some(FILAMENT_MAP_DEPUTY) then Some(EXTRUDER_DEPUTY)
    else if ExtruderOf(maps, wanted.id) == Some(FILAMENT_MAP_MAIN) then Some(EXTRUDER_MAIN)
    else None
  }

  /** What a filament could be matched with. */
  ghost function CandidatesFor(dualNozzle: bool, maps: Option<seq<nat>>, units: seq<Unit>, spools: seq<Spool>,
                               wanted: Wanted)
    : iset<Candidate>
  {
    var side := SideOf(dualNozzle, maps, wanted);
    if side.None? then iset{}
    else if dualNozzle then iset c | IsSideCandidate(units, spools, side.value, c)
    else iset c | IsBusCandidate(units, AnyUnit, c)
  }

  function TrayOf(c: Candidate): Tray { c.tray }

  /** The matching problem of one side. */
  function SideProblem(wanted: seq<Wanted>, side: seq<nat>, candidates: seq<Candidate>, metric: Metric): Problem
    requires forall k | 0 <= k < |side| :: side[k] < |wanted|
  {
    Problem(seq(|side|, k requires 0 <= k < |side| => wanted[side[k]]), Map(TrayOf, candidates), metric)
  }

  /** What a run leaves for its `k`-th filament, by the source of the tray. */
  function MatchOf(candidates: seq<Candidate>, a: Option<(nat, real)>): Match {
    if a.None? || a.value.0 >= |candidates| then None else Some((candidates[a.value.0].source, a.value.1))
  }

  /** The matches of one side are what the run leaves. */
  ghost predicate MatchesRun(side: seq<nat>, candidates: seq<Candidate>, matches: seq<Match>, h: History)
    requires forall k | 0 <= k < |side| :: side[k] < |matches|
  {
    forall k | 0 <= k < |side| :: matches[side[k]] == MatchOf(candidates, Assigned(h, k))
  }

  /** The matches of one side are those of a finished greedy run. */
  ghost predicate SideIsGreedy(wanted: seq<Wanted>, side: seq<nat>, candidates: seq<Candidate>, metric: Metric,
                               matches: seq<Match>)
    requires |matches| == |wanted| && forall k | 0 <= k < |side| :: side[k] < |wanted|
  {
    var p := SideProblem(wanted, side, candidates, metric);
    exists h :: Run(p, h) && Finished(p, h) && MatchesRun(side, candidates, matches, h)
  }

  /** Matches the filaments of one side, writing each one's match to its own place. */
  method RunSide(wanted: seq<Wanted>, side: seq<nat>, candidates: seq<Candidate>, metric: Metric, picks: array<Match>)
    requires picks.Length == |wanted| && Distinct(side) && forall k | 0 <= k < |side| :: side[k] < |wanted|
    modifies picks
    ensures forall i | 0 <= i < picks.Length && i !in side :: picks[i] == old(picks[i])
    ensures SideIsGreedy(wanted, side, candidates, metric, picks[..])
  {
    hide Run, Finished;
    var p := SideProblem(wanted, side, candidates, metric);
    var matches, h := MatchGroup(p);
    for k := 0 to |side|
      invariant forall i | 0 <= i < picks.Length && i !in side[..k] :: picks[i] == old(picks[i])
      invariant forall q | 0 <= q < k :: picks[side[q]] == MatchOf(candidates, Assigned(h, q))
    {
      assert side[k] in side && side[..k + 1] == side[..k] + [side[k]];
      GroupMatch(p, h, k, candidates);
      picks[side[k]] := if matches[k].None? then None
                        else Some((candidates[matches[k].value.0].source, matches[k].value.1));
    }
    assert side[..|side|] == side;
  }

  /** What a finished run says of one filament of its group. */
  lemma GroupMatch(p: Problem, h: History, k: nat, candidates: seq<Candidate>)
    requires Run(p, h) && Finished(p, h) && k < |p.wanted| && p.trays == Map(TrayOf, candidates)
    ensures var a := Assigned(h, k);
            && (a.Some? ==> a.value.0 < |candidates|)
            && MatchedAmong(p.metric, p.wanted[k], Among(candidates), MatchOf(candidates, a))
  {
    MatchedIffCompatible(p, h, k);
    var a := Assigned(h, k);
    if a.Some? {
      AssignedWasPicked(p, h, k);
      assert candidates[a.value.0] in candidates;
    }
    if c :| c in candidates && c.tray.filamentType == p.wanted[k].filamentType {
      var j :| 0 <= j < |candidates| && candidates[j] == c;
      assert p.Compatible(k, j);
    }
  }

  lemma {:induction false} AssignedWasPicked(p: Problem, h: History, i: nat)
    requires Run(p, h) && Assigned(h, i).Some?
    ensures p.Compatible(i, Assigned(h, i).value.0)
    ensures p.Distance(i, Assigned(h, i).value.0) == Some(Assigned(h, i).value.1)
  {
    var n := |h| - 1;
    if h[n].filament == i {
      assert Round(p, h[..n], h[n]);
    } else {
      PrefixIsRun(p, h, n);
      AssignedWasPicked(p, h[..n], i);
    }
  }

  /** The filaments of one side, in order. */
  function SideIndices(dualNozzle: bool, maps: Option<seq<nat>>, wanted: seq<Wanted>, extruder: nat): (side: seq<nat>)
    ensures Distinct(side) && forall k | 0 <= k < |side| :: side[k] < |wanted|
    ensures forall i: nat :: i in side <==> i < |wanted| && SideOf(dualNozzle, maps, wanted[i]) == Some(extruder)
  {
    if wanted == [] then []
    else
      var n := |wanted| - 1;
      var side := SideIndices(dualNozzle, maps, wanted[..n], extruder);
      assert forall k | 0 <= k < |side| :: side[k] in side;
      if SideOf(dualNozzle, maps, wanted[n]) == Some(extruder) then side + [n] else side
  }

  /** The allocations of a derivation: every filament with a usable id, unmatched ones unmapped. */
  function Allocations(wanted: seq<Wanted>, matches: seq<Match>): seq<Allocation>
    requires |wanted| == |matches|
  {
    if wanted == [] then []
    else
      var n := |wanted| - 1;
      var before := Allocations(wanted[..n], matches[..n]);
      if !Usable(wanted[n]) then before
      else before + [Allocation(wanted[n].id, if matches[n].None? then Unmapped else matches[n].value.0)]
  }

  /** The matches of a derivation: a greedy run for each side, and nothing for the filaments on none. */
  ghost predicate Derived(wanted: seq<Wanted>, maps: Option<seq<nat>>, units: seq<Unit>, spools: seq<Spool>,
                          dualNozzle: bool, metric: Metric, matches: seq<Match>)
  {
    && |matches| == |wanted|
    && (forall i | 0 <= i < |wanted| && SideOf(dualNozzle, maps, wanted[i]).None? :: matches[i].None?)
    && (forall extruder: nat | extruder == EXTRUDER_MAIN || (dualNozzle && extruder == EXTRUDER_DEPUTY) ::
          SideIsGreedy(wanted, SideIndices(dualNozzle, maps, wanted, extruder),
                       SideCandidates(dualNozzle, units, spools, extruder), metric, matches))
  }

  /** Derives a mapping; the array has for each filament the entry of its match. */
  method DeriveAmsMapping(wanted: seq<Wanted>, maps: Option<seq<nat>>, units: seq<Unit>, spools: seq<Spool>,
                          dualNozzle: bool, metric: Metric)
    returns (matches: seq<Match>, mapping: seq<MappingEntry>)
    ensures Derived(wanted, maps, units, spools, dualNozzle, metric, matches)
    ensures |mapping| == MappingLength(Allocations(wanted, matches))
    ensures forall i | 0 <= i < |mapping| ::
              mapping[i] == Cell(Allocations(wanted, matches), UNMAPPED_ENTRY, ToEntry, i + 1)
  {
    hide SideIsGreedy, SideCandidates, SideOf, SideIndices;
    var picks := new Match[|wanted|](_ => None);
    var mainSide := SideIndices(dualNozzle, maps, wanted, EXTRUDER_MAIN);
    if dualNozzle {
      var deputySide := SideIndices(dualNozzle, maps, wanted, EXTRUDER_DEPUTY);
      var deputies := ExtruderCandidates(units, spools, EXTRUDER_DEPUTY);
      RunSide(wanted, deputySide, deputies, metric, picks);
      ghost var first := picks[..];
      var mains := ExtruderCandidates(units, spools, EXTRUDER_MAIN);
      RunSide(wanted, mainSide, mains, metric, picks);
      OtherSideStays(wanted, deputySide, deputies, metric, first, picks[..]);
    } else {
      var candidates := SingleNozzleCandidates(units);
      RunSide(wanted, mainSide, candidates, metric, picks);
      assert SideCandidates(false, units, [], EXTRUDER_MAIN) == SideCandidates(false, units, spools, EXTRUDER_MAIN) by {
        SpoolsAreNotCandidates(units, spools, EXTRUDER_MAIN);
      }
    }
    matches := picks[..];
    mapping := BuildByFilament(Allocations(wanted, matches), UNMAPPED_ENTRY, ToEntry);
  }

  lemma SpoolsAreNotCandidates(units: seq<Unit>, spools: seq<Spool>, extruder: nat)
    ensures SideCandidates(false, units, spools, extruder) == SideCandidates(false, units, [], extruder)
  {
  }

  lemma OtherSideStays(wanted: seq<Wanted>, side: seq<nat>, candidates: seq<Candidate>, metric: Metric,
                       matches: seq<Match>, later: seq<Match>)
    requires |matches| == |later| == |wanted| && forall k | 0 <= k < |side| :: side[k] < |wanted|
    requires forall k | 0 <= k < |side| :: later[side[k]] == matches[side[k]]
    requires SideIsGreedy(wanted, side, candidates, metric, matches)
    ensures SideIsGreedy(wanted, side, candidates, metric, later)
  {
    hide Run, Finished;
  }

  /** Every filament is matched within its own side, exactly when a tray of its material is in reach. */
  lemma DerivedWithinReach(wanted: seq<Wanted>, maps: Option<seq<nat>>, units: seq<Unit>, spools: seq<Spool>,
                           dualNozzle: bool, metric: Metric, matches: seq<Match>, i: nat)
    requires Derived(wanted, maps, units, spools, dualNozzle, metric, matches) && i < |wanted|
    ensures MatchedAmong(metric, wanted[i], CandidatesFor(dualNozzle, maps, units, spools, wanted[i]), matches[i])
  {
    hide SideCandidates, SideIndices, Run, Finished, InTrayOrder, IsSideCandidate, IsBusCandidate;
    var extruder := SideOf(dualNozzle, maps, wanted[i]);
    if extruder.Some? {
      var side := SideIndices(dualNozzle, maps, wanted, extruder.value);
      var candidates := SideCandidates(dualNozzle, units, spools, extruder.value);
      assert SideIsGreedy(wanted, side, candidates, metric, matches);
      var p := SideProblem(wanted, side, candidates, metric);
      var h :| Run(p, h) && Finished(p, h) && MatchesRun(side, candidates, matches, h);
      assert i in side;
      var k: nat :| k < |side| && side[k] == i;
      GroupMatch(p, h, k, candidates);
      SideCandidatesHold(dualNozzle, units, spools, extruder.value);
      assert Among(candidates) == CandidatesFor(dualNozzle, maps, units, spools, wanted[i]);
    }
  }

  /** The plate and the telemetry determine every match. */
  lemma DerivedIsUnique(wanted: seq<Wanted>, maps: Option<seq<nat>>, units: seq<Unit>, spools: seq<Spool>,
                        dualNozzle: bool, metric: Metric, matches: seq<Match>, others: seq<Match>)
    requires Derived(wanted, maps, units, spools, dualNozzle, metric, matches)
    requires Derived(wanted, maps, units, spools, dualNozzle, metric, others)
    ensures matches == others
  {
    hide SideCandidates, SideIndices;
    forall i | 0 <= i < |wanted|
      ensures matches[i] == others[i]
    {
      var extruder := SideOf(dualNozzle, maps, wanted[i]);
      if extruder.Some? {
        var side := SideIndices(dualNozzle, maps, wanted, extruder.value);
        var candidates := SideCandidates(dualNozzle, units, spools, extruder.value);
        assert i in side;
        SideIsUnique(wanted, side, candidates, metric, matches, others, i);
      }
    }
  }

  lemma SideIsUnique(wanted: seq<Wanted>, side: seq<nat>, candidates: seq<Candidate>, metric: Metric,
                     matches: seq<Match>, others: seq<Match>, i: nat)
    requires |matches| == |others| == |wanted| && forall k | 0 <= k < |side| :: side[k] < |wanted|
    requires SideIsGreedy(wanted, side, candidates, metric, matches)
    requires SideIsGreedy(wanted, side, candidates, metric, others)
    requires i in side
    ensures i < |wanted| && matches[i] == others[i]
  {
    hide Run, Finished;
    var p := SideProblem(wanted, side, candidates, metric);
    var h :| Run(p, h) && Finished(p, h) && MatchesRun(side, candidates, matches, h);
    var g :| Run(p, g) && Finished(p, g) && MatchesRun(side, candidates, others, g);
    if |h| <= |g| {
      RunIsDetermined(p, h, g);
    } else {
      RunIsDetermined(p, g, h);
    }
    var k :| 0 <= k < |side| && side[k] == i;
  }

  /** A derived mapping never holds an invalid entry. */
  lemma CellsAreValid(allocations: seq<Allocation>, filament: nat)
    ensures !Classify(Cell(allocations, UNMAPPED_ENTRY, ToEntry, filament)).Invalid?
  {
    var source := LastAllocation(allocations, filament);
    if source.Some? {
      ToEntryIsValid(source.value);
    }
  }
}
