/**
 Greedy matching of a plate's filaments to the loaded trays.

 One round per filament picks the best pair of a filament not yet mapped and a tray, looking at
 used trays only when no unused one matches. A run is the sequence of its picks.
 */
module TrayMatching {
  import opened Wrappers

  const COLOR_DISTANCE_MAX: real := 1000.0
  const CLASS_DISTANCE_OFFSET: real := 10000.0
  const TYPE_DISTANCE_OFFSET: real := 20000.0
  const REUSE_DISTANCE: real := 0.0001

  datatype Color = Color(r: nat, g: nat, b: nat, a: nat)

  /** What is to be matched. A filament read from a file has an empty `settingId`. */
  datatype Wanted = Wanted(id: nat, filamentType: string, color: Color, filamentId: string, settingId: string)

  /** A loaded tray. `remain` is a percentage, negative when the firmware reports none. */
  datatype Tray = Tray(filamentType: string, color: Color, filamentId: string, settingId: string, remain: int)

  /** The colour distance, and the single-precision addition that puts an offset on it. */
  datatype Metric = Metric(colorDistance: (Color, Color) -> real, plus: (real, real) -> real)
  {
    /** Colour distances are clamped, and rounding does not leave the band an offset opens. */
    ghost predicate Valid() {
      && (forall x, y :: 0.0 <= colorDistance(x, y) <= COLOR_DISTANCE_MAX)
      && (forall x: real, offset: real |
            0.0 <= x <= COLOR_DISTANCE_MAX && offset in {CLASS_DISTANCE_OFFSET, TYPE_DISTANCE_OFFSET} ::
            offset <= plus(x, offset) <= offset + COLOR_DISTANCE_MAX)
    }
  }

  predicate SameClass(wanted: Wanted, tray: Tray) {
    wanted.filamentId != "" && wanted.filamentId == tray.filamentId
  }

  /** How far a tray is from what was wanted; only equal materials have a distance. */
  function PairDistance(metric: Metric, wanted: Wanted, tray: Tray): (d: Option<real>)
    ensures d.Some? <==> wanted.filamentType == tray.filamentType
  {
    if wanted.filamentType != tray.filamentType then None
    else
      var color := metric.colorDistance(wanted.color, tray.color);
      if wanted.settingId != "" && wanted.settingId == tray.settingId then Some(color)
      else if SameClass(wanted, tray) then Some(metric.plus(color, CLASS_DISTANCE_OFFSET))
      else Some(metric.plus(color, TYPE_DISTANCE_OFFSET))
  }

  /** Whether `candidate` replaces `picked` on an exact tie, by the filament left. */
  predicate PreferByRemain(wanted: Wanted, candidate: Tray, picked: Tray) {
    && SameClass(wanted, candidate) && candidate.remain > 0
    && (picked.remain <= 0 || candidate.remain < picked.remain)
  }

  datatype Problem = Problem(wanted: seq<Wanted>, trays: seq<Tray>, metric: Metric)
  {
    predicate IsPair(i: nat, j: nat) {
      i < |wanted| && j < |trays|
    }

    function Distance(i: nat, j: nat): Option<real>
      requires IsPair(i, j)
    {
      PairDistance(metric, wanted[i], trays[j])
    }

    predicate Compatible(i: nat, j: nat) {
      IsPair(i, j) && Distance(i, j).Some?
    }

    /** Every filament comes from a file, which carries no preset. */
    ghost predicate FromFile() {
      metric.Valid() && forall w <- wanted :: w.settingId == ""
    }
  }

  // ----- what a round picks -----

  /** One round's pick; `reusing` tells the fallback pass over used trays from the first one. */
  datatype Pick = Pick(filament: nat, tray: nat, distance: real, reusing: bool)

  type History = seq<Pick>

  predicate Mapped(h: History, i: nat) {
    exists k | 0 <= k < |h| :: h[k].filament == i
  }

  predicate Used(h: History, j: nat) {
    exists k | 0 <= k < |h| :: h[k].tray == j
  }

  /** What a run leaves for filament `i`. */
  function Assigned(h: History, i: nat): (a: Option<(nat, real)>)
    ensures a.Some? <==> Mapped(h, i)
  {
    if h == [] then None
    else
      var last := h[|h| - 1];
      if last.filament == i then Some((last.tray, last.distance))
      else
        assert forall k | 0 <= k < |h| - 1 :: h[..|h| - 1][k] == h[k];
        Assigned(h[..|h| - 1], i)
  }

  predicate Eligible(p: Problem, h: History, i: nat, j: nat, allowUsed: bool) {
    && p.Compatible(i, j)
    && !Mapped(h, i)
    && (Used(h, j) && !allowUsed ==> p.Distance(i, j).value < REUSE_DISTANCE)
  }

  /** What orders the pairs: the lexicographic order of the fields. */
  datatype Key = Key(distance: real, otherClass: bool, noRemain: bool, remain: int, filament: nat, tray: nat)
  {
    predicate Less(other: Key) {
      || distance < other.distance
      || (distance == other.distance &&
          (|| (!otherClass && other.otherClass)
           || (otherClass == other.otherClass &&
               (|| (!noRemain && other.noRemain)
                || (noRemain == other.noRemain &&
                    (|| remain < other.remain
                     || (remain == other.remain &&
                         (|| filament < other.filament
                          || (filament == other.filament && tray < other.tray)))))))))
    }
  }

  /** Only pairs of the same class compare by the filament left, and only when some is reported. */
  function KeyOf(p: Problem, i: nat, j: nat): (key: Key)
    requires p.Compatible(i, j)
  {
    var same := SameClass(p.wanted[i], p.trays[j]);
    var known := same && p.trays[j].remain > 0;
    Key(p.Distance(i, j).value, !same, same && !known, if known then p.trays[j].remain else 0, i, j)
  }

  /** `(i, j)` is the lexicographic minimum of the eligible pairs. */
  ghost predicate Best(p: Problem, h: History, allowUsed: bool, i: nat, j: nat) {
    && Eligible(p, h, i, j, allowUsed)
    && forall i': nat, j': nat | Eligible(p, h, i', j', allowUsed) && (i', j') != (i, j) ::
         KeyOf(p, i, j).Less(KeyOf(p, i', j'))
  }

  lemma BestIsUnique(p: Problem, h: History, allowUsed: bool, i: nat, j: nat, i': nat, j': nat)
    requires Best(p, h, allowUsed, i, j) && Best(p, h, allowUsed, i', j')
    ensures i == i' && j == j'
  {
    if (i, j) != (i', j') {
      assert false;
    }
  }

  ghost predicate NoneEligible(p: Problem, h: History, allowUsed: bool) {
    forall i: nat, j: nat :: !Eligible(p, h, i, j, allowUsed)
  }

  // ----- the scan of one round -----

  /** The replacement test of the scan. */
  predicate Replaces(p: Problem, i: nat, j: nat, bi: nat, bj: nat)
    requires p.Compatible(i, j) && p.Compatible(bi, bj)
  {
    var distance, best := p.Distance(i, j).value, p.Distance(bi, bj).value;
    || distance < best
    || (distance == best &&
        (|| (!SameClass(p.wanted[bi], p.trays[bj]) && SameClass(p.wanted[i], p.trays[j]))
         || PreferByRemain(p.wanted[i], p.trays[j], p.trays[bj])))
  }

  /** For a later pair of the scan, the mixed tie-break is the lexicographic order. */
  lemma ReplacesIsLess(p: Problem, i: nat, j: nat, bi: nat, bj: nat)
    requires p.Compatible(i, j) && p.Compatible(bi, bj)
    requires bi < i || (bi == i && bj < j)
    ensures Replaces(p, i, j, bi, bj) <==> KeyOf(p, i, j).Less(KeyOf(p, bi, bj))
    ensures !Replaces(p, i, j, bi, bj) <==> KeyOf(p, bi, bj).Less(KeyOf(p, i, j))
  {
  }

  lemma LessIsTransitive(a: Key, b: Key, c: Key)
    requires a.Less(b) && b.Less(c)
    ensures a.Less(c)
  {
  }

  predicate Scanned(i: nat, j: nat, i': nat, j': nat) {
    i' < i || (i' == i && j' < j)
  }

  /** `best` is the pick among the pairs the scan passed before reaching `(i, j)`. */
  ghost predicate BestSoFar(p: Problem, h: History, allowUsed: bool, i: nat, j: nat, best: Option<(nat, nat)>) {
    match best
    case None =>
      forall i': nat, j': nat | Scanned(i, j, i', j') :: !Eligible(p, h, i', j', allowUsed)
    case Some((bi, bj)) =>
      && Scanned(i, j, bi, bj) && Eligible(p, h, bi, bj, allowUsed)
      && forall i': nat, j': nat |
           Scanned(i, j, i', j') && Eligible(p, h, i', j', allowUsed) && (i', j') != (bi, bj) ::
           KeyOf(p, bi, bj).Less(KeyOf(p, i', j'))
  }

  /** The arrays the loop keeps are the history's. */
  ghost predicate Reflects(p: Problem, h: History, result: array<Option<(nat, real)>>, trayUsed: array<bool>)
    reads result, trayUsed
  {
    && result.Length == |p.wanted| && trayUsed.Length == |p.trays|
    && (forall i: nat | i < |p.wanted| :: result[i] == Assigned(h, i))
    && (forall j: nat | j < |p.trays| :: trayUsed[j] <==> Used(h, j))
  }

  /** Scans every pair for the best one that is eligible. */
  method BestPair(p: Problem, distances: seq<seq<Option<real>>>, result: array<Option<(nat, real)>>,
                  trayUsed: array<bool>, allowUsed: bool, ghost h: History)
    returns (best: Option<(nat, nat)>)
    requires |distances| == |p.wanted|
    requires forall i | 0 <= i < |p.wanted| :: |distances[i]| == |p.trays|
    requires forall i, j | 0 <= i < |p.wanted| && 0 <= j < |p.trays| :: distances[i][j] == p.Distance(i, j)
    requires Reflects(p, h, result, trayUsed)
    ensures best.None? <==> NoneEligible(p, h, allowUsed)
    ensures best.Some? ==> Best(p, h, allowUsed, best.value.0, best.value.1)
  {
    best := None;
    for i := 0 to |distances|
      invariant BestSoFar(p, h, allowUsed, i, 0, best)
    {
      if result[i].Some? {
        SkipRow(p, h, allowUsed, i, best);
        continue;
      }
      for j := 0 to |distances[i]|
        invariant BestSoFar(p, h, allowUsed, i, j, best)
      {
        var distance := distances[i][j];
        if distance.None? || (trayUsed[j] && !allowUsed && distance.value >= REUSE_DISTANCE) {
          assert !Eligible(p, h, i, j, allowUsed);
          continue;
        }
        assert Eligible(p, h, i, j, allowUsed);
        ScanStep(p, h, allowUsed, i, j, best);
        if best.None? || Replaces(p, i, j, best.value.0, best.value.1) {
          best := Some((i, j));
        }
      }
    }
  }

  lemma SkipRow(p: Problem, h: History, allowUsed: bool, i: nat, best: Option<(nat, nat)>)
    requires i < |p.wanted| && Mapped(h, i) && BestSoFar(p, h, allowUsed, i, 0, best)
    ensures BestSoFar(p, h, allowUsed, i + 1, 0, best)
  {
    assert forall i': nat, j': nat | Scanned(i + 1, 0, i', j') && Eligible(p, h, i', j', allowUsed) ::
        Scanned(i, 0, i', j');
  }

  lemma ScanStep(p: Problem, h: History, allowUsed: bool, i: nat, j: nat, best: Option<(nat, nat)>)
    requires Eligible(p, h, i, j, allowUsed) && BestSoFar(p, h, allowUsed, i, j, best)
    ensures best.None? || Replaces(p, i, j, best.value.0, best.value.1)
        ==> BestSoFar(p, h, allowUsed, i, j + 1, Some((i, j)))
    ensures best.Some? && !Replaces(p, i, j, best.value.0, best.value.1)
        ==> BestSoFar(p, h, allowUsed, i, j + 1, best)
  {
    if best.Some? {
      var (bi, bj) := best.value;
      ReplacesIsLess(p, i, j, bi, bj);
      if Replaces(p, i, j, bi, bj) {
        forall i': nat, j': nat |
          Scanned(i, j, i', j') && Eligible(p, h, i', j', allowUsed) && (i', j') != (bi, bj)
          ensures KeyOf(p, i, j).Less(KeyOf(p, i', j'))
        {
          LessIsTransitive(KeyOf(p, i, j), KeyOf(p, bi, bj), KeyOf(p, i', j'));
        }
      }
    }
  }

  // ----- a whole run -----

  /** A round takes the best pair of the first pass, and only when there is none that of the second. */
  ghost predicate Round(p: Problem, h: History, pick: Pick) {
    && Best(p, h, pick.reusing, pick.filament, pick.tray)
    && p.Distance(pick.filament, pick.tray) == Some(pick.distance)
    && (pick.reusing ==> NoneEligible(p, h, false))
  }

  ghost predicate Run(p: Problem, h: History) {
    forall r | 0 <= r < |h| :: Round(p, h[..r], h[r])
  }

  /** A run ends after one round per filament, or when no pair is left for either pass. */
  ghost predicate Finished(p: Problem, h: History) {
    |h| == |p.wanted| || NoneEligible(p, h, true)
  }

  /** The rounds, one for each filament; `h` is the run they make. */
  method MatchGroup(p: Problem) returns (matches: seq<Option<(nat, real)>>, ghost h: History)
    ensures Run(p, h) && Finished(p, h)
    ensures |matches| == |p.wanted|
    ensures forall i | 0 <= i < |matches| :: matches[i] == Assigned(h, i)
  {
    var distances := seq(|p.wanted|, i requires 0 <= i < |p.wanted| =>
                       seq(|p.trays|, j requires 0 <= j < |p.trays| => p.Distance(i, j)));
    var result := new Option<(nat, real)>[|p.wanted|](_ => None);
    var trayUsed := new bool[|p.trays|](_ => false);
    h := [];
    for round := 0 to |p.wanted|
      invariant |h| == round && Run(p, h)
      invariant Reflects(p, h, result, trayUsed)
    {
      var reusing := false;
      var pick := BestPair(p, distances, result, trayUsed, false, h);
      if pick.None? {
        reusing := true;
        pick := BestPair(p, distances, result, trayUsed, true, h);
      }
      if pick.None? {
        break;
      }
      var (i, j) := pick.value;
      var distance := distances[i][j].value;
      result[i] := Some((j, distance));
      trayUsed[j] := true;
      ghost var before := h;
      h := h + [Pick(i, j, distance, reusing)];
      Extend(p, before, h[|h| - 1]);
    }
    matches := result[..];
  }

  lemma Extend(p: Problem, h: History, pick: Pick)
    requires Run(p, h) && Round(p, h, pick)
    ensures Run(p, h + [pick])
    ensures forall j :: Used(h + [pick], j) <==> Used(h, j) || j == pick.tray
    ensures forall i ::
              Assigned(h + [pick], i)
              == if i == pick.filament then Some((pick.tray, pick.distance)) else Assigned(h, i)
  {
    var longer := h + [pick];
    forall r | 0 <= r < |longer|
      ensures Round(p, longer[..r], longer[r])
    {
      assert longer[..r] == h[..r];
      assert h[..|h|] == h;
    }
    assert longer[|h|] == pick && longer[..|h|] == h;
    forall j
      ensures Used(longer, j) <==> Used(h, j) || j == pick.tray
    {
      if Used(h, j) {
        var k :| 0 <= k < |h| && h[k].tray == j;
        assert longer[k].tray == j;
      }
    }
  }

  /** A pair that is open later in a run was open earlier too. */
  lemma EligibleBefore(p: Problem, h: History, r: nat, i: nat, j: nat, allowUsed: bool)
    requires r <= |h| && Eligible(p, h, i, j, allowUsed)
    ensures Eligible(p, h[..r], i, j, allowUsed)
  {
    assert forall k | 0 <= k < r :: h[..r][k] == h[k];
  }

  /** The same, for two points of one run. */
  lemma EligibleEarlier(p: Problem, h: History, q: nat, r: nat, i: nat, j: nat, allowUsed: bool)
    requires q <= r <= |h| && Eligible(p, h[..r], i, j, allowUsed)
    ensures Eligible(p, h[..q], i, j, allowUsed)
  {
    EligibleBefore(p, h[..r], q, i, j, allowUsed);
    assert h[..r][..q] == h[..q];
  }

  /** Once a round had to reuse a tray, every later one has to. */
  lemma ReusingIsFinal(p: Problem, h: History, q: nat, r: nat)
    requires Run(p, h) && q <= r < |h| && h[q].reusing
    ensures h[r].reusing
  {
    assert Round(p, h[..q], h[q]) && Round(p, h[..r], h[r]);
    if !h[r].reusing {
      EligibleEarlier(p, h, q, r, h[r].filament, h[r].tray, false);
    }
  }

  /** Within each pass the picked distances never decrease. */
  lemma PickedDistancesAscend(p: Problem, h: History, q: nat, r: nat)
    requires Run(p, h) && q < r < |h| && h[q].reusing == h[r].reusing
    ensures h[q].distance <= h[r].distance
  {
    assert Round(p, h[..q], h[q]) && Round(p, h[..r], h[r]);
    EligibleEarlier(p, h, q, r, h[r].filament, h[r].tray, h[q].reusing);
  }

  lemma {:induction false} FirstUse(h: History, j: nat) returns (q: nat)
    requires Used(h, j)
    ensures q < |h| && h[q].tray == j && !Used(h[..q], j)
  {
    var k :| 0 <= k < |h| && h[k].tray == j;
    if Used(h[..k], j) {
      q := FirstUse(h[..k], j);
      assert h[..k][..q] == h[..q];
    } else {
      q := k;
    }
  }

  /**
   Stability. When filament `i` got a tray farther away than a compatible tray `j`, then `j` had
   gone to another filament, in an earlier round and at a distance at most that of `i` to `j`.
   */
  lemma GreedyIsStable(p: Problem, h: History, r: nat, j: nat)
    requires Run(p, h) && r < |h| && p.Compatible(h[r].filament, j)
    ensures var d := p.Distance(h[r].filament, j).value;
            || h[r].distance <= d
            || exists q | 0 <= q < r :: h[q].tray == j && h[q].filament != h[r].filament && h[q].distance <= d
  {
    var i, d := h[r].filament, p.Distance(h[r].filament, j).value;
    assert Round(p, h[..r], h[r]);
    if d < h[r].distance {
      assert !Eligible(p, h[..r], i, j, h[r].reusing);
      var q := FirstUse(h[..r], j);
      assert h[..r][..q] == h[..q] && h[..r][q] == h[q];
      EligibleEarlier(p, h, q, r, i, h[r].tray, true);
      assert Round(p, h[..q], h[q]);
      assert Eligible(p, h[..q], i, j, h[q].reusing);
    }
  }

  /** No round shares a tray while a filament not yet mapped has an unused compatible one. */
  lemma SharedOnlyWhenNoneUnused(p: Problem, h: History, r: nat, i: nat, j: nat)
    requires Run(p, h) && r < |h| && Used(h[..r], h[r].tray) && h[r].distance >= 0.0001
    requires p.Compatible(i, j) && !Mapped(h[..r], i)
    ensures h[r].reusing && Used(h[..r], j)
  {
    assert Round(p, h[..r], h[r]);
    assert !Eligible(p, h[..r], i, j, false);
  }

  // ----- what a finished run reaches -----

  /** A run maps no filament twice. */
  lemma FilamentsAreDistinct(p: Problem, h: History, q: nat, r: nat)
    requires Run(p, h) && q < r < |h|
    ensures h[q].filament != h[r].filament
  {
    assert Round(p, h[..r], h[r]);
    assert h[..r][q] == h[q];
  }

  function FilamentsOf(h: History): set<nat> {
    set k | 0 <= k < |h| :: h[k].filament
  }

  lemma {:induction false} RunLength(p: Problem, h: History)
    requires Run(p, h)
    ensures |FilamentsOf(h)| == |h| <= |p.wanted|
  {
    RunFilaments(p, h);
    var all := Upto(|p.wanted|);
    forall i | i in FilamentsOf(h)
      ensures i in all
    {
      var k :| 0 <= k < |h| && h[k].filament == i;
      assert Round(p, h[..k], h[k]);
    }
    SubsetSize(FilamentsOf(h), all);
  }

  lemma {:induction false} RunFilaments(p: Problem, h: History)
    requires Run(p, h)
    ensures |FilamentsOf(h)| == |h|
  {
    if h != [] {
      var n := |h| - 1;
      PrefixIsRun(p, h, n);
      RunFilaments(p, h[..n]);
      FilamentsOfSnoc(h[..n], h[n]);
      assert h == h[..n] + [h[n]];
      assert Round(p, h[..n], h[n]);
    }
  }

  lemma FilamentsOfSnoc(h: History, pick: Pick)
    ensures FilamentsOf(h + [pick]) == FilamentsOf(h) + {pick.filament}
    ensures pick.filament in FilamentsOf(h) ==> Mapped(h, pick.filament)
  {
    var longer := h + [pick];
    assert longer[|h|] == pick;
    forall f | f in FilamentsOf(h)
      ensures f in FilamentsOf(longer)
    {
      var k :| 0 <= k < |h| && h[k].filament == f;
      assert longer[k].filament == f;
    }
  }

  lemma PrefixIsRun(p: Problem, h: History, n: nat)
    requires Run(p, h) && n <= |h|
    ensures Run(p, h[..n])
  {
    forall r | 0 <= r < n
      ensures Round(p, h[..n][..r], h[..n][r])
    {
      assert h[..n][..r] == h[..r];
    }
  }

  function Upto(n: nat): (s: set<nat>)
    ensures |s| == n && forall i :: i in s <==> 0 <= i < n
  {
    if n == 0 then {} else Upto(n - 1) + {n - 1}
  }

  lemma SubsetSize<T>(a: set<T>, b: set<T>)
    requires a <= b
    ensures |a| <= |b|
    ensures |a| == |b| ==> a == b
  {
    assert b == a + (b - a);
  }

  lemma FullRunMapsAll(p: Problem, h: History, i: nat)
    requires Run(p, h) && |h| == |p.wanted| && i < |p.wanted|
    ensures Mapped(h, i)
  {
    RunLength(p, h);
    var all := Upto(|p.wanted|);
    forall f | f in FilamentsOf(h)
      ensures f in all
    {
      var k :| 0 <= k < |h| && h[k].filament == f;
      assert Round(p, h[..k], h[k]);
    }
    SubsetSize(FilamentsOf(h), all);
    assert i in FilamentsOf(h);
  }

  /** A filament is left unmatched exactly when no tray has its material. */
  lemma MatchedIffCompatible(p: Problem, h: History, i: nat)
    requires Run(p, h) && Finished(p, h) && i < |p.wanted|
    ensures Mapped(h, i) <==> exists j: nat :: p.Compatible(i, j)
  {
    if Mapped(h, i) {
      var k :| 0 <= k < |h| && h[k].filament == i;
      assert Round(p, h[..k], h[k]);
      assert p.Compatible(i, h[k].tray);
    } else if |h| == |p.wanted| {
      FullRunMapsAll(p, h, i);
    } else {
      forall j: nat
        ensures !p.Compatible(i, j)
      {
        assert !Eligible(p, h, i, j, true);
      }
    }
  }

  /** The inputs determine the whole run, so its result does not depend on anything else. */
  lemma {:induction false} RunIsDetermined(p: Problem, h: History, g: History)
    requires Run(p, h) && Finished(p, h) && Run(p, g) && Finished(p, g) && |h| <= |g|
    ensures h == g
  {
    CommonPrefix(p, h, g, |h|);
    assert h[..|h|] == h;
    if |h| < |g| {
      RunLength(p, g);
      assert Round(p, g[..|h|], g[|h|]);
      assert Eligible(p, h, g[|h|].filament, g[|h|].tray, true);
      assert false;
    }
  }

  lemma SameRound(p: Problem, h: History, a: Pick, b: Pick)
    requires Round(p, h, a) && Round(p, h, b)
    ensures a == b
  {
    assert Eligible(p, h, a.filament, a.tray, a.reusing) && Eligible(p, h, b.filament, b.tray, b.reusing);
    assert a.reusing == b.reusing;
    BestIsUnique(p, h, a.reusing, a.filament, a.tray, b.filament, b.tray);
  }

  lemma {:induction false} CommonPrefix(p: Problem, h: History, g: History, n: nat)
    requires Run(p, h) && Run(p, g) && n <= |h| <= |g|
    ensures h[..n] == g[..n]
  {
    hide Round;
    if n > 0 {
      CommonPrefix(p, h, g, n - 1);
      assert Round(p, g[..n - 1], g[n - 1]) && Round(p, h[..n - 1], h[n - 1]);
      SameRound(p, h[..n - 1], h[n - 1], g[n - 1]);
      assert h[..n] == h[..n - 1] + [h[n - 1]] && g[..n] == g[..n - 1] + [g[n - 1]];
    }
  }
}
