/** The mapping arrays built from a project's allocations. */
module AmsMapping {
  import opened Wrappers
  import opened AmsAddresses

  const MAX_PROJECT_FILAMENTS: nat := 32

  /** A project filament, numbered from 1, and where it is fed from. */
  datatype Allocation = Allocation(filament: nat, source: MaterialSource)

  function Max(a: nat, b: nat): nat { if a < b then b else a }

  function HighestFilament(allocations: seq<Allocation>): (highest: nat)
    ensures forall a <- allocations :: a.filament <= highest
    ensures allocations != [] ==> exists a <- allocations :: a.filament == highest
  {
    var n := |allocations| - 1;
    if allocations == [] then 0
    else if n == 0 then allocations[0].filament
    else Max(HighestFilament(allocations[..n]), allocations[n].filament)
  }

  /** The array's length: the highest filament, up to the project limit. */
  function MappingLength(allocations: seq<Allocation>): nat {
    var highest := HighestFilament(allocations);
    if highest < MAX_PROJECT_FILAMENTS then highest else MAX_PROJECT_FILAMENTS
  }

  /** The last allocation that names `filament`, if any does. */
  function LastAllocation(allocations: seq<Allocation>, filament: nat): (source: Option<MaterialSource>)
    ensures source.None? <==> forall a <- allocations :: a.filament != filament
  {
    var n := |allocations| - 1;
    if allocations == [] then None
    else if allocations[n].filament == filament then Some(allocations[n].source)
    else LastAllocation(allocations[..n], filament)
  }

  /** A cell as the array has to have it: the last allocation naming it, or the filler. */
  function Cell<T>(allocations: seq<Allocation>, fill: T, convert: MaterialSource -> T, filament: nat): T {
    var source := LastAllocation(allocations, filament);
    if source.None? then fill else convert(source.value)
  }

  /** The array both builders share. */
  method BuildByFilament<T(0)>(allocations: seq<Allocation>, fill: T, convert: MaterialSource -> T)
    returns (mapping: seq<T>)
    ensures |mapping| == MappingLength(allocations)
    ensures forall i | 0 <= i < |mapping| :: mapping[i] == Cell(allocations, fill, convert, i + 1)
  {
    if allocations == [] {
      return [];
    }
    var highest := allocations[0].filament;
    for k := 1 to |allocations|
      invariant highest == HighestFilament(allocations[..k])
    {
      assert allocations[..k + 1][..k] == allocations[..k];
      highest := Max(highest, allocations[k].filament);
    }
    assert allocations[..|allocations|] == allocations;
    var maxId := if highest < MAX_PROJECT_FILAMENTS then highest else MAX_PROJECT_FILAMENTS;
    mapping := FillCells(allocations, fill, convert, maxId);
  }

  /** Writes every allocation within range to its cell, so that the last one naming a cell stays. */
  method FillCells<T(0)>(allocations: seq<Allocation>, fill: T, convert: MaterialSource -> T, maxId: nat)
    returns (mapping: seq<T>)
    ensures |mapping| == maxId
    ensures forall i | 0 <= i < maxId :: mapping[i] == Cell(allocations, fill, convert, i + 1)
  {
    var cells := new T[maxId](_ => fill);
    for k := 0 to |allocations|
      invariant forall i | 0 <= i < maxId :: cells[i] == Cell(allocations[..k], fill, convert, i + 1)
    {
      var Allocation(id, source) := allocations[k];
      assert allocations[..k + 1][..k] == allocations[..k];
      if 0 < id <= maxId {
        cells[id - 1] := convert(source);
      }
    }
    assert allocations[..|allocations|] == allocations;
    mapping := cells[..];
  }

  /** The flat and the structured array of one allocation list. */
  method BuildBoth(allocations: seq<Allocation>) returns (flat: seq<int>, structured: seq<MappingEntry>)
    ensures |flat| == |structured| == MappingLength(allocations)
    ensures forall i | 0 <= i < |flat| :: flat[i] == FlatChannel(structured[i])
    ensures forall i | 0 <= i < |structured| :: structured[i] == Cell(allocations, UNMAPPED_ENTRY, ToEntry, i + 1)
  {
    flat := BuildByFilament(allocations, -1, (s: MaterialSource) => FlatChannel(ToEntry(s)));
    structured := BuildByFilament(allocations, UNMAPPED_ENTRY, ToEntry);
  }

  // ----- the use_ams interlocks -----

  predicate UseAms(singleNozzle: bool, mapping: seq<MappingEntry>) {
    !singleNozzle || exists e <- mapping :: Classify(e).IsPhysical()
  }

  predicate UseAmsFlat(singleNozzle: bool, flat: seq<int>) {
    !singleNozzle || exists v <- flat :: IsPhysicalChannel(v)
  }

  /** On the two encodings of one mapping the interlocks give the same verdict. */
  lemma InterlocksAgree(singleNozzle: bool, mapping: seq<MappingEntry>, flat: seq<int>)
    requires |flat| == |mapping| && forall i | 0 <= i < |flat| :: flat[i] == FlatChannel(mapping[i])
    ensures UseAms(singleNozzle, mapping) <==> UseAmsFlat(singleNozzle, flat)
  {
    if e :| e in mapping && Classify(e).IsPhysical() {
      var i :| 0 <= i < |mapping| && mapping[i] == e;
      PhysicalAgree(e);
      assert flat[i] in flat;
    }
    if v :| v in flat && IsPhysicalChannel(v) {
      var i :| 0 <= i < |flat| && flat[i] == v;
      PhysicalAgree(mapping[i]);
      assert mapping[i] in mapping;
    }
  }

  // ----- pool validation -----

  datatype LiteSlot = NotSupported | Additive | Exclusive

  datatype PoolComposition =
    | Shared(maxUnits: U8, lite: LiteSlot)
    | Independent(maxStandard: U8, maxHt: U8)

  function StandardIds(mapping: seq<MappingEntry>): set<U8> {
    set e | e in mapping && Classify(e).Standard? :: e.amsId
  }

  function HtIds(mapping: seq<MappingEntry>): set<U8> {
    set e | e in mapping && Classify(e).Ht? :: e.amsId
  }

  /** What a valid mapping is, by the sets of distinct units it uses. */
  predicate FitsPool(mapping: seq<MappingEntry>, pool: PoolComposition) {
    && (forall e <- mapping :: !Classify(e).Invalid?)
    && match pool
       case Shared(maxUnits, lite) =>
         && ((exists e <- mapping :: Classify(e).Lite?) ==> lite == Additive)
         && |StandardIds(mapping)| + |HtIds(mapping)| <= maxUnits
       case Independent(maxStandard, maxHt) =>
         && (forall e <- mapping :: !Classify(e).Lite?)
         && |StandardIds(mapping)| <= maxStandard
         && |HtIds(mapping)| <= maxHt
  }

  /** Whether a mapping could be served by the model's AMS pool. */
  method IsPoolCompositionValid(mapping: seq<MappingEntry>, pool: PoolComposition) returns (valid: bool)
    ensures valid <==> FitsPool(mapping, pool)
  {
    hide MaskOf, StandardIds, HtIds, Bit, CountOnes, Classify;
    var standardIds: bv8, htIds: bv8, usesLite := 0, 0, false;
    NoIdsYet();
    for k := 0 to |mapping|
      invariant forall e <- mapping[..k] :: !Classify(e).Invalid?
      invariant usesLite <==> exists e <- mapping[..k] :: Classify(e).Lite?
      invariant MaskOf(standardIds, StandardIds(mapping[..k]), 0)
      invariant MaskOf(htIds, HtIds(mapping[..k]), HT_ID_MIN)
    {
      var e := mapping[k];
      assert mapping[..k + 1] == mapping[..k] + [e];
      IdsSnoc(mapping[..k], e);
      KindRanges(e);
      match Classify(e)
      case Standard =>
        AddBit(standardIds, StandardIds(mapping[..k]), 0, e.amsId);
        standardIds := standardIds | Bit(e.amsId);
      case Lite => usesLite := true;
      case Ht =>
        AddBit(htIds, HtIds(mapping[..k]), HT_ID_MIN, e.amsId);
        htIds := htIds | Bit(e.amsId - HT_ID_MIN);
      case External =>
      case Invalid =>
        assert e in mapping;
        return false;
    }
    assert mapping[..|mapping|] == mapping;
    MaskCount(standardIds, StandardIds(mapping), 0);
    MaskCount(htIds, HtIds(mapping), HT_ID_MIN);
    match pool
    case Shared(maxUnits, lite) =>
      valid := (!usesLite || lite == Additive) && CountOnes(standardIds) + CountOnes(htIds) <= maxUnits;
    case Independent(maxStandard, maxHt) =>
      valid := !usesLite && CountOnes(standardIds) <= maxStandard && CountOnes(htIds) <= maxHt;
  }

  lemma NoIdsYet()
    ensures MaskOf(0, StandardIds([]), 0) && MaskOf(0, HtIds([]), HT_ID_MIN)
  {
  }

  lemma KindRanges(e: MappingEntry)
    ensures Classify(e).Standard? ==> e.amsId < 8
    ensures Classify(e).Ht? ==> HT_ID_MIN <= e.amsId < HT_ID_MIN + 8
  {
  }

  lemma IdsSnoc(mapping: seq<MappingEntry>, e: MappingEntry)
    ensures StandardIds(mapping + [e])
         == if Classify(e).Standard? then StandardIds(mapping) + {e.amsId} else StandardIds(mapping)
    ensures HtIds(mapping + [e]) == if Classify(e).Ht? then HtIds(mapping) + {e.amsId} else HtIds(mapping)
  {
    assert forall x :: x in mapping + [e] <==> x in mapping || x == e;
  }

  /**
   The verdict depends only on which entries occur: reordering or repeating entries does not
   change it, and a mapping with fewer of them is accepted when the larger one is.
   */
  lemma PoolVerdictIsMonotone(fewer: seq<MappingEntry>, more: seq<MappingEntry>, pool: PoolComposition)
    requires forall e <- fewer :: e in more
    ensures FitsPool(more, pool) ==> FitsPool(fewer, pool)
    ensures (forall e <- more :: e in fewer) ==> (FitsPool(fewer, pool) <==> FitsPool(more, pool))
  {
    IdsShrink(fewer, more);
    if forall e <- more :: e in fewer {
      IdsShrink(more, fewer);
    }
  }

  lemma IdsShrink(fewer: seq<MappingEntry>, more: seq<MappingEntry>)
    requires forall e <- fewer :: e in more
    ensures StandardIds(fewer) <= StandardIds(more) && |StandardIds(fewer)| <= |StandardIds(more)|
    ensures HtIds(fewer) <= HtIds(more) && |HtIds(fewer)| <= |HtIds(more)|
  {
    assert StandardIds(more) == StandardIds(fewer) + (StandardIds(more) - StandardIds(fewer));
    assert HtIds(more) == HtIds(fewer) + (HtIds(more) - HtIds(fewer));
  }

  // ----- masks -----

  /** `1 << n` in a `u8`. */
  function Bit(n: nat): bv8
    requires n < 8
  {
    (1 as bv8) << n
  }

  predicate HasBit(mask: bv8, n: nat)
    requires n < 8
  {
    mask & Bit(n) != 0
  }

  function CountBits(mask: bv8, n: nat): (count: nat)
    requires n <= 8
  {
    if n == 0 then 0 else CountBits(mask, n - 1) + if HasBit(mask, n - 1) then 1 else 0
  }

  /** The number of one bits of a mask. */
  function CountOnes(mask: bv8): nat {
    CountBits(mask, 8)
  }

  /** The mask's bits are the ids of `ids`, counted from `base`. */
  ghost predicate MaskOf(mask: bv8, ids: set<U8>, base: U8) {
    && (forall id <- ids :: base <= id < base + 8)
    && forall n: nat | n < 8 && base + n < 256 :: HasBit(mask, n) <==> (base + n) in ids
  }

  lemma SetBit(mask: bv8, n: nat, k: nat)
    requires n < 8 && k < 8
    ensures HasBit(mask | Bit(n), k) <==> HasBit(mask, k) || k == n
  {
    BitsDiffer(mask, Bit(n), Bit(k));
    if n != k {
      DistinctBits(n, k);
    } else {
      BitIsNonzero(n);
      OrIsNonzero(mask & Bit(k), Bit(n) & Bit(k));
    }
  }

  lemma BitsDiffer(mask: bv8, a: bv8, b: bv8)
    ensures (mask | a) & b == (mask & b) | (a & b)
  {
  }

  lemma BitIsNonzero(n: nat)
    requires n < 8
    ensures Bit(n) & Bit(n) != 0
  {
    BitValues(n);
  }

  lemma OrIsNonzero(a: bv8, b: bv8)
    requires b != 0
    ensures a | b != 0
  {
  }

  lemma BitValues(n: nat)
    requires n < 8
    ensures Bit(n) == if n == 0 then 1 else if n == 1 then 2 else if n == 2 then 4 else if n == 3 then 8
                      else if n == 4 then 16 else if n == 5 then 32 else if n == 6 then 64 else 128
  {
  }

  lemma DistinctBits(n: nat, k: nat)
    requires n < 8 && k < 8 && n != k
    ensures Bit(n) & Bit(k) == 0
  {
    BitValues(n);
    BitValues(k);
  }

  /** Setting a bit adds its id. */
  lemma AddBit(mask: bv8, ids: set<U8>, base: U8, id: U8)
    requires MaskOf(mask, ids, base) && base <= id < base + 8 && base <= 248
    ensures MaskOf(mask | Bit(id - base), ids + {id}, base)
  {
    var longer := mask | Bit(id - base);
    forall n: nat | n < 8
      ensures HasBit(longer, n) <==> (base + n) in ids + {id}
    {
      SetBit(mask, id - base, n);
    }
  }

  /** Counting the ones of a mask counts its ids. */
  lemma MaskCount(mask: bv8, ids: set<U8>, base: U8)
    requires MaskOf(mask, ids, base) && base <= 248
    ensures CountOnes(mask) == |ids|
  {
    CountBelow(mask, ids, base, 8);
    assert ids == set id | id in ids && id < base + 8;
  }

  lemma {:induction false} CountBelow(mask: bv8, ids: set<U8>, base: U8, n: nat)
    requires MaskOf(mask, ids, base) && base <= 248 && n <= 8
    ensures CountBits(mask, n) == |set id | id in ids && id < base + n|
  {
    var below := set id | id in ids && id < base + n;
    if n == 0 {
      assert below == {};
    } else {
      CountBelow(mask, ids, base, n - 1);
      var before := set id | id in ids && id < base + (n - 1);
      var last: U8 := base + (n - 1);
      assert HasBit(mask, n - 1) <==> last in ids;
      assert below == before + if last in ids then {last} else {};
    }
  }
}
