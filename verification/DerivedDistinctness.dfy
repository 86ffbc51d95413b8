/** How many distinct feed locations a derived mapping uses. */
module DerivedDistinctness {
  import opened Wrappers
  import opened AmsAddresses
  import opened TrayMatching
  import opened TrayDistinctness
  import opened AmsDerivation

  /** Every candidate is a feed location of its own, as when each tray is reported once. */
  predicate OwnSources(candidates: seq<Candidate>) {
    forall i, j | 0 <= i < j < |candidates| :: candidates[i].source != candidates[j].source
  }

  /** The feed locations the filaments of one side and material matched. */
  function MatchedSources(wanted: seq<Wanted>, side: seq<nat>, matches: seq<Match>, material: string)
    : set<MaterialSource>
    requires |matches| == |wanted| && forall k | 0 <= k < |side| :: side[k] < |wanted|
  {
    set k | 0 <= k < |side| && wanted[side[k]].filamentType == material && matches[side[k]].Some? ::
      matches[side[k]].value.0
  }

  /** The trays of a material that a run used, by their feed locations. */
  ghost predicate SourcesOf(candidates: seq<Candidate>, trays: set<nat>, sources: set<MaterialSource>) {
    && (forall j <- trays :: j < |candidates| && candidates[j].source in sources)
    && (forall source <- sources :: exists j <- trays :: j < |candidates| && candidates[j].source == source)
  }

  /** Where the source of a candidate stands among the candidates. */
  function IndexOf(candidates: seq<Candidate>, source: MaterialSource): nat {
    if candidates == [] || candidates[0].source == source then 0 else 1 + IndexOf(candidates[1..], source)
  }

  lemma {:induction false} IndexIs(candidates: seq<Candidate>, j: nat)
    requires OwnSources(candidates) && j < |candidates|
    ensures IndexOf(candidates, candidates[j].source) == j
  {
    if j > 0 {
      assert candidates[0].source != candidates[j].source;
      IndexIs(candidates[1..], j - 1);
    }
  }

  function SourceAt(candidates: seq<Candidate>, j: nat): MaterialSource {
    if j < |candidates| then candidates[j].source else Unmapped
  }

  lemma AsManySources(candidates: seq<Candidate>, trays: set<nat>, sources: set<MaterialSource>)
    requires OwnSources(candidates) && SourcesOf(candidates, trays, sources)
    ensures |sources| == |trays|
  {
    hide SourceAt;
    var sourceAt := (j: nat) => SourceAt(candidates, j);
    forall j | j in trays
      ensures sourceAt(j) in sources
    {
      SourceOf(candidates, trays, sources, j, j);
    }
    forall j, k | j in trays && k in trays && j != k
      ensures sourceAt(j) != sourceAt(k)
    {
      SourceOf(candidates, trays, sources, j, k);
    }
    AsFewSources(candidates, trays, sources);
    hide OwnSources, SourcesOf;
    InjectionBound(trays, sources, sourceAt);
  }

  lemma SourceOf(candidates: seq<Candidate>, trays: set<nat>, sources: set<MaterialSource>, j: nat, k: nat)
    requires OwnSources(candidates) && SourcesOf(candidates, trays, sources) && j in trays && k in trays
    ensures SourceAt(candidates, j) in sources
    ensures j != k ==> SourceAt(candidates, j) != SourceAt(candidates, k)
  {
  }

  lemma AsFewSources(candidates: seq<Candidate>, trays: set<nat>, sources: set<MaterialSource>)
    requires OwnSources(candidates) && SourcesOf(candidates, trays, sources)
    ensures |sources| <= |trays|
  {
    hide IndexOf;
    var trayOf := (source: MaterialSource) => IndexOf(candidates, source);
    forall source | source in sources
      ensures trayOf(source) in trays && trayOf(source) < |candidates| && candidates[trayOf(source)].source == source
    {
      var j :| j in trays && j < |candidates| && candidates[j].source == source;
      IndexIs(candidates, j);
    }
    hide OwnSources, SourcesOf;
    InjectionBound(sources, trays, trayOf);
  }

  lemma MatchedSourcesAre(wanted: seq<Wanted>, side: seq<nat>, candidates: seq<Candidate>, metric: Metric,
                          matches: seq<Match>,
                          h: History, material: string)
    requires |matches| == |wanted| && forall k | 0 <= k < |side| :: side[k] < |wanted|
    requires var p := SideProblem(wanted, side, candidates, metric);
             Run(p, h) && Finished(p, h) && MatchesRun(side, candidates, matches, h)
    ensures var p := SideProblem(wanted, side, candidates, metric);
            SourcesOf(candidates, UsedTrays(h) * TraysOfMaterial(p, material),
                      MatchedSources(wanted, side, matches, material))
  {
    hide Run, Finished;
    var p := SideProblem(wanted, side, candidates, metric);
    var sources := MatchedSources(wanted, side, matches, material);
    forall j | j in UsedTrays(h) * TraysOfMaterial(p, material)
      ensures j < |candidates| && candidates[j].source in sources
    {
      var k := UserOf(h, j);
      UserIsCompatible(p, h, j);
      assert matches[side[k]] == MatchOf(candidates, Assigned(h, k));
    }
    forall source | source in sources
      ensures exists j <- UsedTrays(h) * TraysOfMaterial(p, material) ::
                j < |candidates| && candidates[j].source == source
    {
      var k :|
        && 0 <= k < |side| && wanted[side[k]].filamentType == material
        && matches[side[k]].Some? && matches[side[k]].value.0 == source;
      AssignedIsUsed(p, h, k);
      var j := Assigned(h, k).value.0;
      assert j in UsedTrays(h) * TraysOfMaterial(p, material);
    }
  }

  /**
   A side of a derived mapping uses, of each material, as many of its candidates as there can be:
   every one its extruder can be fed from, or one for every filament. The feed locations matched are
   those of the candidates used, and as many when each candidate is a location of its own.
   */
  lemma DerivedUsesMostSources(wanted: seq<Wanted>, maps: Option<seq<nat>>, units: seq<Unit>, spools: seq<Spool>,
                               dualNozzle: bool, metric: Metric, matches: seq<Match>, extruder: nat, material: string)
    returns (used: set<nat>)
    requires Derived(wanted, maps, units, spools, dualNozzle, metric, matches)
    requires metric.Valid() && forall w <- wanted :: w.settingId == ""
    requires extruder == EXTRUDER_MAIN || (dualNozzle && extruder == EXTRUDER_DEPUTY)
    ensures var side := SideIndices(dualNozzle, maps, wanted, extruder);
            var candidates := SideCandidates(dualNozzle, units, spools, extruder);
            var p := SideProblem(wanted, side, candidates, metric);
            var sources := MatchedSources(wanted, side, matches, material);
            && used <= TraysOfMaterial(p, material)
            && |used| == Min(|FilamentsOfMaterial(p, material)|, |TraysOfMaterial(p, material)|)
            && SourcesOf(candidates, used, sources)
            && (OwnSources(candidates) ==> |sources| == |used|)
  {
    hide SideIndices, SideCandidates, Run, Finished, MatchedSources, FilamentsOfMaterial, TraysOfMaterial, UsedTrays;
    hide OwnSources, SourcesOf;
    var side := SideIndices(dualNozzle, maps, wanted, extruder);
    var candidates := SideCandidates(dualNozzle, units, spools, extruder);
    assert SideIsGreedy(wanted, side, candidates, metric, matches);
    var p := SideProblem(wanted, side, candidates, metric);
    var h :| Run(p, h) && Finished(p, h) && MatchesRun(side, candidates, matches, h);
    used := UsedTrays(h) * TraysOfMaterial(p, material);
    MatchedSourcesAre(wanted, side, candidates, metric, matches, h, material);
    if OwnSources(candidates) {
      AsManySources(candidates, used, MatchedSources(wanted, side, matches, material));
    }
    assert p.FromFile();
    DistinctTraysOfMaterial(p, h, material);
  }
}
