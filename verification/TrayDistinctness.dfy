/** How many distinct trays the greedy matching reaches for the filaments of a file. */
module TrayDistinctness {
  import opened Wrappers
  import opened TrayMatching

  function UsedTrays(h: History): set<nat> {
    set k | 0 <= k < |h| :: h[k].tray
  }

  function FilamentsOfMaterial(p: Problem, material: string): set<nat> {
    set i: nat | i < |p.wanted| && p.wanted[i].filamentType == material
  }

  function TraysOfMaterial(p: Problem, material: string): set<nat> {
    set j: nat | j < |p.trays| && p.trays[j].filamentType == material
  }

  /** An injection bounds its domain. */
  lemma {:induction false} InjectionBound<A, B>(a: set<A>, b: set<B>, f: A -> B)
    requires forall x <- a :: f(x) in b
    requires forall x <- a, y <- a | x != y :: f(x) != f(y)
    ensures |a| <= |b|
  {
    if a != {} {
      var x :| x in a;
      InjectionBound(a - {x}, b - {f(x)}, f);
    }
  }

  /** Without presets every distance is at least the class offset, so no used tray is reopened. */
  lemma FirstPassIsFresh(p: Problem, h: History, r: nat)
    requires p.FromFile() && Run(p, h) && r < |h| && !h[r].reusing
    ensures !Used(h[..r], h[r].tray)
  {
    assert Round(p, h[..r], h[r]);
    assert h[r].distance >= CLASS_DISTANCE_OFFSET by {
      var w, t := p.wanted[h[r].filament], p.trays[h[r].tray];
      assert w.settingId == "";
      assert 0.0 <= p.metric.colorDistance(w.color, t.color) <= COLOR_DISTANCE_MAX;
    }
  }

  lemma {:induction false} AssignedIs(p: Problem, h: History, r: nat)
    requires Run(p, h) && r < |h|
    ensures Assigned(h, h[r].filament) == Some((h[r].tray, h[r].distance))
  {
    hide Round;
    var n := |h| - 1;
    if r < n {
      PrefixIsRun(p, h, n);
      FilamentsAreDistinct(p, h, r, n);
      assert h[..n][r] == h[r];
      AssignedIs(p, h[..n], r);
    }
  }

  /** While a tray stays unused, every filament of its material gets a tray in the first pass. */
  lemma UnusedTrayMeansFirstPass(p: Problem, h: History, i: nat, j: nat) returns (r: nat)
    requires Run(p, h) && Finished(p, h)
    requires p.Compatible(i, j) && !Used(h, j)
    ensures r < |h| && h[r].filament == i && !h[r].reusing
    ensures Assigned(h, i) == Some((h[r].tray, h[r].distance))
  {
    MatchedIffCompatible(p, h, i);
    r :| 0 <= r < |h| && h[r].filament == i;
    AssignedIs(p, h, r);
    assert Round(p, h[..r], h[r]);
    assert forall k | 0 <= k < r :: h[..r][k] == h[k];
    assert Eligible(p, h[..r], i, j, false);
  }

  /** Such filaments have trays of their own. */
  lemma UnusedTrayMeansOwnTrays(p: Problem, h: History, i: nat, i': nat, j: nat)
    requires p.FromFile() && Run(p, h) && Finished(p, h)
    requires p.Compatible(i, j) && p.Compatible(i', j) && !Used(h, j) && i != i'
    ensures Assigned(h, i).Some? && Assigned(h, i').Some?
    ensures Assigned(h, i).value.0 != Assigned(h, i').value.0
  {
    hide Run, Finished;
    var r := UnusedTrayMeansFirstPass(p, h, i, j);
    var r' := UnusedTrayMeansFirstPass(p, h, i', j);
    FirstPassIsFresh(p, h, r);
    FirstPassIsFresh(p, h, r');
    assert forall k | 0 <= k < r :: h[..r][k] == h[k];
    assert forall k | 0 <= k < r' :: h[..r'][k] == h[k];
  }

  lemma AssignedIsUsed(p: Problem, h: History, i: nat)
    requires Run(p, h) && Assigned(h, i).Some?
    ensures Assigned(h, i).value.0 in UsedTrays(h) && p.Compatible(i, Assigned(h, i).value.0)
  {
    var r :| 0 <= r < |h| && h[r].filament == i;
    AssignedIs(p, h, r);
    assert Round(p, h[..r], h[r]);
  }

  /** A filament that was given tray `j`. */
  ghost function UserOf(h: History, j: nat): (i: nat)
    ensures j in UsedTrays(h) ==> exists r | 0 <= r < |h| :: h[r].tray == j && h[r].filament == i
  {
    if j in UsedTrays(h) then
      var r :| 0 <= r < |h| && h[r].tray == j;
      h[r].filament
    else 0
  }

  lemma UserIsCompatible(p: Problem, h: History, j: nat)
    requires Run(p, h) && j in UsedTrays(h)
    ensures p.Compatible(UserOf(h, j), j) && Assigned(h, UserOf(h, j)).Some?
    ensures Assigned(h, UserOf(h, j)).value.0 == j
  {
    var r :| 0 <= r < |h| && h[r].tray == j && h[r].filament == UserOf(h, j);
    assert Round(p, h[..r], h[r]);
    AssignedIs(p, h, r);
  }

  function Min(a: nat, b: nat): nat { if a < b then a else b }

  lemma DistinctTraysAtMost(p: Problem, h: History, material: string)
    requires Run(p, h)
    ensures |UsedTrays(h) * TraysOfMaterial(p, material)| <= |FilamentsOfMaterial(p, material)|
  {
    hide Run;
    var filaments := FilamentsOfMaterial(p, material);
    var used := UsedTrays(h) * TraysOfMaterial(p, material);
    forall j | j in used
      ensures UserOf(h, j) in filaments && Assigned(h, UserOf(h, j)).Some? && Assigned(h, UserOf(h, j)).value.0 == j
    {
      UserIsCompatible(p, h, j);
    }
    InjectionBound(used, filaments, (j: nat) => UserOf(h, j));
  }

  lemma OwnTraysForAll(p: Problem, h: History, material: string, j: nat)
    requires p.FromFile() && Run(p, h) && Finished(p, h)
    requires j in TraysOfMaterial(p, material) && !Used(h, j)
    ensures |FilamentsOfMaterial(p, material)| <= |UsedTrays(h) * TraysOfMaterial(p, material)|
  {
    hide Run, Finished;
    var filaments := FilamentsOfMaterial(p, material);
    var used := UsedTrays(h) * TraysOfMaterial(p, material);
    var tray := (i: nat) => if Assigned(h, i).Some? then Assigned(h, i).value.0 else 0;
    forall i | i in filaments
      ensures Assigned(h, i).Some? && tray(i) in used
    {
      var _ := UnusedTrayMeansFirstPass(p, h, i, j);
      AssignedIsUsed(p, h, i);
    }
    forall i, i' | i in filaments && i' in filaments && i != i'
      ensures tray(i) != tray(i')
    {
      UnusedTrayMeansOwnTrays(p, h, i, i', j);
    }
    InjectionBound(filaments, used, tray);
  }

  /**
   Of each material the matching uses as many distinct trays as there can be: every tray, or one
   for every filament.
   */
  lemma DistinctTraysOfMaterial(p: Problem, h: History, material: string)
    requires p.FromFile() && Run(p, h) && Finished(p, h)
    ensures |UsedTrays(h) * TraysOfMaterial(p, material)|
         == Min(|FilamentsOfMaterial(p, material)|, |TraysOfMaterial(p, material)|)
  {
    hide Run, Finished;
    var trays := TraysOfMaterial(p, material);
    SubsetSize(UsedTrays(h) * trays, trays);
    DistinctTraysAtMost(p, h, material);
    if trays <= UsedTrays(h) {
      assert UsedTrays(h) * trays == trays;
    } else {
      var j :| j in trays && j !in UsedTrays(h);
      OwnTraysForAll(p, h, material, j);
    }
  }

  ghost predicate Saturated(p: Problem, h: History, material: string) {
    TraysOfMaterial(p, material) <= UsedTrays(h)
  }

  ghost function Preimage(a: map<nat, nat>, v: nat): (i: nat)
    requires v in a.Values
    ensures i in a && a[i] == v
  {
    var i :| i in a && a[i] == v;
    i
  }

  /** Where an assignment's tray `v` goes among the trays the run uses. */
  ghost function Counterpart(p: Problem, h: History, a: map<nat, nat>, v: nat): nat {
    if v !in a.Values || v >= |p.trays| || Saturated(p, h, p.trays[v].filamentType) then v
    else
      var given := Assigned(h, Preimage(a, v));
      if given.Some? then given.value.0 else v
  }

  lemma CounterpartIsUsed(p: Problem, h: History, a: map<nat, nat>, v: nat)
    requires Run(p, h) && Finished(p, h)
    requires v in a.Values && forall i <- a :: p.Compatible(i, a[i])
    ensures Counterpart(p, h, a, v) in UsedTrays(h)
    ensures Counterpart(p, h, a, v) < |p.trays|
    ensures p.trays[Counterpart(p, h, a, v)].filamentType == p.trays[v].filamentType
  {
    hide Run, Finished;
    var i, material := Preimage(a, v), p.trays[v].filamentType;
    assert p.Compatible(i, v);
    if Saturated(p, h, material) {
      assert v in TraysOfMaterial(p, material);
    } else {
      MatchedIffCompatible(p, h, i);
      AssignedIsUsed(p, h, i);
    }
  }

  lemma CounterpartsDiffer(p: Problem, h: History, a: map<nat, nat>, v: nat, w: nat)
    requires p.FromFile() && Run(p, h) && Finished(p, h)
    requires v in a.Values && w in a.Values && v != w && forall i <- a :: p.Compatible(i, a[i])
    ensures Counterpart(p, h, a, v) != Counterpart(p, h, a, w)
  {
    hide Run, Finished;
    CounterpartIsUsed(p, h, a, v);
    CounterpartIsUsed(p, h, a, w);
    var material := p.trays[v].filamentType;
    if p.trays[w].filamentType == material && !Saturated(p, h, material) {
      var j :| j in TraysOfMaterial(p, material) && j !in UsedTrays(h);
      UnusedTrayMeansOwnTrays(p, h, Preimage(a, v), Preimage(a, w), j);
    }
  }

  /** No assignment of compatible trays to the filaments of a file uses more distinct trays. */
  lemma DistinctTraysAreMaximal(p: Problem, h: History, a: map<nat, nat>)
    requires p.FromFile() && Run(p, h) && Finished(p, h)
    requires forall i <- a :: p.Compatible(i, a[i])
    ensures |a.Values| <= |UsedTrays(h)|
  {
    hide Run, Finished;
    forall v | v in a.Values
      ensures Counterpart(p, h, a, v) in UsedTrays(h)
    {
      CounterpartIsUsed(p, h, a, v);
    }
    forall v, w | v in a.Values && w in a.Values && v != w
      ensures Counterpart(p, h, a, v) != Counterpart(p, h, a, w)
    {
      CounterpartsDiffer(p, h, a, v, w);
    }
    InjectionBound(a.Values, UsedTrays(h), (v: nat) => Counterpart(p, h, a, v));
  }
}
