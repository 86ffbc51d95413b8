/** The AMS address space and the two wire encodings of a feed location. */
module AmsAddresses {

  type U8 = x: int | 0 <= x < 256

  const SLOTS_PER_UNIT: U8 := 4
  const MAX_STANDARD_ID: U8 := 3
  const HT_ID_MIN: U8 := 128
  const HT_ID_MAX: U8 := 135
  const LITE_PHYSICAL_ID: U8 := 16
  const LITE_NORMALIZED_ID: U8 := 6
  const EXTERNAL_MAIN_ID: U8 := 255
  const EXTERNAL_DEPUTY_ID: U8 := 254

  predicate IsStandardId(amsId: U8) { amsId <= MAX_STANDARD_ID }

  predicate IsHtId(amsId: U8) { HT_ID_MIN <= amsId <= HT_ID_MAX }

  predicate IsLiteId(amsId: U8) { amsId == LITE_PHYSICAL_ID || amsId == LITE_NORMALIZED_ID }

  predicate IsExternalId(amsId: U8) { amsId == EXTERNAL_DEPUTY_ID || amsId == EXTERNAL_MAIN_ID }

  predicate IsBusUnitId(amsId: U8) { IsStandardId(amsId) || IsHtId(amsId) || IsLiteId(amsId) }

  predicate IsUnitSlot(amsId: U8, slot: U8) {
    if IsHtId(amsId) then slot == 0 else (IsStandardId(amsId) || IsLiteId(amsId)) && slot < SLOTS_PER_UNIT
  }

  /** Where a project filament can be fed from. */
  datatype MaterialSource =
    | StandardAms(amsId: U8, slot: U8)
    | AmsHt(amsId: U8)
    | AmsLite(slot: U8)
    | ExternalSpool
    | ExternalSpoolLeft
    | ExternalSpoolRight
    | Unmapped

  /** One entry of the structured array. */
  datatype MappingEntry = MappingEntry(amsId: U8, slot: U8)

  const UNMAPPED_ENTRY: MappingEntry := MappingEntry(EXTERNAL_MAIN_ID, EXTERNAL_MAIN_ID)

  /** An out-of-range location becomes the unmapped entry. */
  function ToEntry(source: MaterialSource): MappingEntry {
    match source
    case StandardAms(amsId, slot) =>
      if amsId <= MAX_STANDARD_ID && slot < SLOTS_PER_UNIT then MappingEntry(amsId, slot) else UNMAPPED_ENTRY
    case AmsHt(amsId) => if IsHtId(amsId) then MappingEntry(amsId, 0) else UNMAPPED_ENTRY
    case AmsLite(slot) => if slot < SLOTS_PER_UNIT then MappingEntry(LITE_PHYSICAL_ID, slot) else UNMAPPED_ENTRY
    case ExternalSpool => MappingEntry(EXTERNAL_MAIN_ID, 0)
    case ExternalSpoolLeft => MappingEntry(EXTERNAL_DEPUTY_ID, 0)
    case ExternalSpoolRight => MappingEntry(EXTERNAL_MAIN_ID, 0)
    case Unmapped => UNMAPPED_ENTRY
  }

  datatype EntryKind = Standard | Ht | Lite | External | Invalid
  {
    predicate IsPhysical() { Standard? || Ht? || Lite? }
  }

  function Classify(entry: MappingEntry): EntryKind {
    if IsExternalId(entry.amsId) then External
    else if entry.amsId <= MAX_STANDARD_ID && entry.slot < SLOTS_PER_UNIT then Standard
    else if IsHtId(entry.amsId) then Ht
    else if entry.amsId == LITE_PHYSICAL_ID && entry.slot < SLOTS_PER_UNIT then Lite
    else Invalid
  }

  /** The flat array's value for an entry; anything but a physical slot is -1. */
  function FlatChannel(entry: MappingEntry): int {
    match Classify(entry)
    case Standard =>
      var unit: int := entry.amsId;
      unit * 4 + entry.slot
    case Ht => entry.amsId
    case Lite => entry.slot
    case _ => -1
  }

  predicate IsPhysicalChannel(v: int) {
    0 <= v <= 15 || HT_ID_MIN <= v <= HT_ID_MAX
  }

  /** The flat range test and the classification agree on what is physical. */
  lemma PhysicalAgree(entry: MappingEntry)
    ensures IsPhysicalChannel(FlatChannel(entry)) <==> Classify(entry).IsPhysical()
  {
  }

  /** A source never encodes as an invalid entry. */
  lemma ToEntryIsValid(source: MaterialSource)
    ensures !Classify(ToEntry(source)).Invalid?
  {
  }
}
