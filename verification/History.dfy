/** The stored telemetry log: record decoding and the walk over sectors and slots. */
module History {
  import opened Domain
  import opened Bytes

  const FLASH_START_ADDRESS: nat := 0x0080_0000
  const FLASH_LENGTH: nat := 0x0080_0000
  const FLASH_READ_PAGE_SIZE: nat := 256
  const FLASH_SECTOR_SIZE: nat := 4096
  const ENTRY_SIZE: nat := 21
  const MAX_CHUNK_SIZE: nat := 64 * 1024
  const ENTRIES_PER_SECTOR: nat := 195
  const EMPTY_DATA: nat := U32_MAX
  const EMPTY_RUN_END: nat := 32

  type Record = r: seq<byte> | |r| == ENTRY_SIZE witness seq(ENTRY_SIZE, _ => 0)

  datatype HistoryEntryKind = Measurement | PowerOn

  datatype PinMetrics = PinMetrics(voltage: real, current: real, power: real)

  datatype Temperatures = Temperatures(input: int, output: int, external1: Option<int>, external2: Option<int>)

  datatype HistoryMetrics = HistoryMetrics(
    avgVoltage: real, totalCurrent: real, totalPower: real, cableCapability: nat,
    pins: seq<PinMetrics>, temperatures: Temperatures)

  datatype HistoryEntry = HistoryEntry(kind: HistoryEntryKind, deviceTime: nat, metrics: HistoryMetrics)

  function Signed(value: byte): int {
    if value < 128 then value else value - 256
  }

  function DecodeTemperature(value: byte): Option<int> {
    if Signed(value) != 0 && Signed(value) > -100 then Some(Signed(value)) else None
  }

  function Pin(voltage: byte, current: byte): PinMetrics {
    var v := voltage as real / 10.0;
    var c := current as real / 10.0;
    PinMetrics(v, c, v * c)
  }

  function SumOf(f: PinMetrics -> real, pins: seq<PinMetrics>): real {
    if pins == [] then 0.0 else SumOf(f, pins[..|pins| - 1]) + f(pins[|pins| - 1])
  }

  function PinsOf(record: Record): (pins: seq<PinMetrics>)
    ensures |pins| == 6
  {
    seq(6, i requires 0 <= i < 6 => Pin(record[8 + i], record[14 + i]))
  }

  /** Decoding is only defined for the four cable codes that the walk lets through. */
  function DecodeEntry(record: Record, encoded: nat, kind: HistoryEntryKind): HistoryEntry
    requires record[20] <= 3
  {
    var pins := PinsOf(record);
    HistoryEntry(kind, encoded / 4, HistoryMetrics(
      SumOf((p: PinMetrics) => p.voltage, pins) / 6.0,
      SumOf((p: PinMetrics) => p.current, pins),
      SumOf((p: PinMetrics) => p.power, pins),
      match record[20] { case 0 => 600 case 1 => 450 case 2 => 300 case _ => 150 },
      pins,
      Temperatures(Signed(record[4]), Signed(record[5]), DecodeTemperature(record[6]), DecodeTemperature(record[7]))))
  }

  // ---- What the walk means: a fold over the grid of slots -------------------------------------

  datatype Visit<S, E> = Visit(state: S, error: Option<E>)

  datatype Outcome<E> = Running | EndFound | Failed(error: E)

  datatype Progress<S, E> = Progress(foundFirst: bool, emptyRun: nat, outcome: Outcome<E>, state: S)

  datatype Class = Erased | Ignored | Boundary | Plausible

  function VoltageSum(record: Record): nat {
    record[8] as int + record[9] as int + record[10] as int
    + record[11] as int + record[12] as int + record[13] as int
  }

  function Classify(record: Record): Class {
    var encoded := ReadU32(record, 0);
    if encoded == EMPTY_DATA then Erased
    else if encoded % 4 == 0 then
      if record[20] > 3 then Ignored
      else if 60 < VoltageSum(record) < 900 then Plausible
      else Boundary
    else if encoded % 4 == 2 then Boundary
    else Ignored
  }

  function Measured(record: Record): HistoryEntry
    requires Classify(record) == Plausible
  {
    DecodeEntry(record, ReadU32(record, 0), Measurement)
  }

  function Slots(data: seq<byte>): nat {
    |data| / FLASH_SECTOR_SIZE * ENTRIES_PER_SECTOR
  }

  /** Slot `k` counts through the sectors in order; a sector's last byte belongs to no slot. */
  function Offset(k: nat): nat {
    k / ENTRIES_PER_SECTOR * FLASH_SECTOR_SIZE + k % ENTRIES_PER_SECTOR * ENTRY_SIZE
  }

  predicate CrossesPage(offset: nat) {
    offset % 256 > FLASH_READ_PAGE_SIZE - ENTRY_SIZE
  }

  /** The padded slots are those whose 21 bytes would lie in two pages of 256 bytes. */
  lemma CrossesPageIff(offset: nat)
    ensures CrossesPage(offset) <==> offset / 256 != (offset + 20) / 256
  {
  }

  lemma SlotInside(data: seq<byte>, k: nat)
    requires k < Slots(data)
    ensures Offset(k) + ENTRY_SIZE <= |data| / FLASH_SECTOR_SIZE * FLASH_SECTOR_SIZE <= |data|
  {
    var sectors := |data| / FLASH_SECTOR_SIZE;
    assert k / ENTRIES_PER_SECTOR < sectors;
    assert k / ENTRIES_PER_SECTOR * FLASH_SECTOR_SIZE <= (sectors - 1) * FLASH_SECTOR_SIZE;
  }

  function RecordAt(data: seq<byte>, k: nat): Record
    requires k < Slots(data)
  {
    SlotInside(data, k);
    data[Offset(k)..Offset(k) + ENTRY_SIZE]
  }

  function Advance<S, E>(p: Progress<S, E>, record: Record, crossesPage: bool,
                         visit: (S, HistoryEntry) -> Visit<S, E>): Progress<S, E>
  {
    if !p.outcome.Running? || (p.foundFirst && crossesPage) then p
    else
      match Classify(record)
      case Erased =>
        if !p.foundFirst then p
        else p.(emptyRun := p.emptyRun + 1,
                outcome := if p.emptyRun + 1 >= EMPTY_RUN_END then EndFound else Running)
      case Ignored => p.(emptyRun := 0)
      case Boundary => p.(emptyRun := 0, foundFirst := true)
      case Plausible =>
        var v := visit(p.state, Measured(record));
        Progress(true, 0, if v.error.Some? then Failed(v.error.value) else Running, v.state)
  }

  /** The walk's meaning: every slot of the grid from `from` up to `until`, in order. */
  function FoldSlots<S, E>(data: seq<byte>, from: nat, until: nat, p: Progress<S, E>,
                           visit: (S, HistoryEntry) -> Visit<S, E>): Progress<S, E>
    requires from <= until <= Slots(data)
    decreases until - from
  {
    if from == until then p
    else FoldSlots(data, from + 1, until, Advance(p, RecordAt(data, from), CrossesPage(Offset(from)), visit), visit)
  }

  function Start<S, E>(state: S): Progress<S, E> {
    Progress(false, 0, Running, state)
  }

  /** The end of the log is reported for an erased run, or because a whole log region was walked. */
  function Finish<S, E>(data: seq<byte>, p: Progress<S, E>): Visit<bool, E> {
    match p.outcome
    case Running => Visit(|data| / FLASH_SECTOR_SIZE * FLASH_SECTOR_SIZE == FLASH_LENGTH, None)
    case EndFound => Visit(true, None)
    case Failed(error) => Visit(false, Some(error))
  }

  function WalkOf<S, E>(data: seq<byte>, state: S, visit: (S, HistoryEntry) -> Visit<S, E>): Progress<S, E> {
    FoldSlots(data, 0, Slots(data), Start(state), visit)
  }

  // ---- Facts about the fold ---------------------------------------------------------------------

  lemma FoldStep<S, E>(data: seq<byte>, from: nat, until: nat, p: Progress<S, E>,
                       visit: (S, HistoryEntry) -> Visit<S, E>)
    requires from <= until <= Slots(data)
    ensures from == until ==> FoldSlots(data, from, until, p, visit) == p
    ensures from < until ==>
      FoldSlots(data, from, until, p, visit)
      == FoldSlots(data, from + 1, until, Advance(p, RecordAt(data, from), CrossesPage(Offset(from)), visit), visit)
  {
  }

  lemma {:induction false} FoldSplits<S, E>(data: seq<byte>, from: nat, mid: nat, until: nat, p: Progress<S, E>,
                                            visit: (S, HistoryEntry) -> Visit<S, E>)
    requires from <= mid <= until <= Slots(data)
    ensures FoldSlots(data, from, until, p, visit)
         == FoldSlots(data, mid, until, FoldSlots(data, from, mid, p, visit), visit)
    decreases mid - from
  {
    if from < mid {
      FoldSplits(data, from + 1, mid, until, Advance(p, RecordAt(data, from), CrossesPage(Offset(from)), visit), visit);
    }
  }

  lemma {:induction false} FoldOfEnded<S, E>(data: seq<byte>, from: nat, until: nat, p: Progress<S, E>,
                                             visit: (S, HistoryEntry) -> Visit<S, E>)
    requires from <= until <= Slots(data) && !p.outcome.Running?
    ensures FoldSlots(data, from, until, p, visit) == p
    decreases until - from
  {
    if from < until {
      FoldOfEnded(data, from + 1, until, p, visit);
    }
  }

  /** Slots come in the order of their bytes. */
  lemma OffsetsAscend(j: nat, k: nat)
    requires j <= k
    ensures Offset(j) <= Offset(k)
  {
    if j / ENTRIES_PER_SECTOR < k / ENTRIES_PER_SECTOR {
      assert j / ENTRIES_PER_SECTOR * FLASH_SECTOR_SIZE + FLASH_SECTOR_SIZE
        <= k / ENTRIES_PER_SECTOR * FLASH_SECTOR_SIZE;
      assert j % ENTRIES_PER_SECTOR * ENTRY_SIZE < FLASH_SECTOR_SIZE;
    } else {
      assert j / ENTRIES_PER_SECTOR == k / ENTRIES_PER_SECTOR;
    }
  }

  lemma SliceOfPrefix(data: seq<byte>, cut: nat, from: nat, until: nat)
    requires from <= until <= cut <= |data|
    ensures data[..cut][from..until] == data[from..until]
  {
  }

  lemma {:induction false} FoldSeesOnlyItsBytes<S, E>(
    data: seq<byte>, other: seq<byte>, from: nat, until: nat, cut: nat, p: Progress<S, E>,
    visit: (S, HistoryEntry) -> Visit<S, E>)
    requires from <= until <= Slots(data) && until <= Slots(other)
    requires cut <= |data| && cut <= |other| && data[..cut] == other[..cut]
    requires until > 0 ==> Offset(until - 1) + ENTRY_SIZE <= cut
    ensures FoldSlots(data, from, until, p, visit) == FoldSlots(other, from, until, p, visit)
    decreases until - from
  {
    if from < until {
      OffsetsAscend(from, until - 1);
      var o := Offset(from);
      SliceOfPrefix(data, cut, o, o + ENTRY_SIZE);
      SliceOfPrefix(other, cut, o, o + ENTRY_SIZE);
      assert RecordAt(data, from) == RecordAt(other, from);
      FoldSeesOnlyItsBytes(data, other, from + 1, until, cut,
                           Advance(p, RecordAt(data, from), CrossesPage(Offset(from)), visit), visit);
    }
  }

  /**
   Once the walk has stopped, later bytes cannot matter: any data with the same bytes up to the
   slot where it stopped has the same walk, and the same answer.
   */
  lemma BytesAfterTheEndDoNotMatter<S, E>(data: seq<byte>, other: seq<byte>, stop: nat, cut: nat, state: S,
                                          visit: (S, HistoryEntry) -> Visit<S, E>)
    requires 0 < stop <= Slots(data) && stop <= Slots(other)
    requires Offset(stop - 1) + ENTRY_SIZE <= cut <= |data| && cut <= |other| && data[..cut] == other[..cut]
    requires !FoldSlots(data, 0, stop, Start<S, E>(state), visit).outcome.Running?
    ensures WalkOf(other, state, visit) == WalkOf(data, state, visit)
    ensures Finish(other, WalkOf(other, state, visit)) == Finish(data, WalkOf(data, state, visit))
  {
    var p: Progress<S, E> := Start(state);
    FoldSeesOnlyItsBytes(data, other, 0, stop, cut, p, visit);
    FoldSplits(data, 0, stop, Slots(data), p, visit);
    FoldSplits(other, 0, stop, Slots(other), p, visit);
    FoldOfEnded(data, stop, Slots(data), FoldSlots(data, 0, stop, p, visit), visit);
    FoldOfEnded(other, stop, Slots(other), FoldSlots(data, 0, stop, p, visit), visit);
  }

  // ---- The walk itself ----------------------------------------------------------------------------

  /** Sector and slot number give the linear slot and its offset, which lies in a complete sector. */
  lemma GridSlot(data: seq<byte>, sector: nat, slot: nat)
    requires sector < |data| / FLASH_SECTOR_SIZE && slot < ENTRIES_PER_SECTOR
    ensures sector * ENTRIES_PER_SECTOR + slot < Slots(data)
    ensures Offset(sector * ENTRIES_PER_SECTOR + slot) == sector * FLASH_SECTOR_SIZE + slot * ENTRY_SIZE
    ensures sector * FLASH_SECTOR_SIZE + slot * ENTRY_SIZE + ENTRY_SIZE
         <= |data| / FLASH_SECTOR_SIZE * FLASH_SECTOR_SIZE
  {
    var k := sector * ENTRIES_PER_SECTOR + slot;
    assert k / ENTRIES_PER_SECTOR == sector && k % ENTRIES_PER_SECTOR == slot;
    assert (sector + 1) * ENTRIES_PER_SECTOR <= Slots(data);
    SlotInside(data, k);
  }

  /** Where the padding rule lands: the next page start, rounded up to a multiple of the entry size. */
  function PaddedOffset(offset: nat): nat {
    var page := offset + (FLASH_READ_PAGE_SIZE - offset % 256);
    if page % ENTRY_SIZE != 0 then page + (ENTRY_SIZE - page % ENTRY_SIZE) else page
  }

  /**
   The padding rule rounds the absolute offset, not the offset in the sector, and still it moves
   on by exactly one slot in every sector.
   */
  lemma PaddingAdvancesOneSlot(sectorStart: nat, slot: nat)
    requires CrossesPage(sectorStart + slot * ENTRY_SIZE)
    ensures Max((PaddedOffset(sectorStart + slot * ENTRY_SIZE) - sectorStart) / ENTRY_SIZE, slot + 1) == slot + 1
  {
    var offset := sectorStart + slot * ENTRY_SIZE;
    assert offset < PaddedOffset(offset) < offset + 2 * ENTRY_SIZE;
  }

  /** The nested loops compute the fold, for any visitor, and stop at once when the visitor fails. */
  method WalkHistory<S, E>(data: seq<byte>, state: S, visit: (S, HistoryEntry) -> Visit<S, E>)
    returns (visited: S, result: Visit<bool, E>)
    ensures visited == WalkOf(data, state, visit).state
    ensures result == Finish(data, WalkOf(data, state, visit))
  {
    hide DecodeEntry, Offset, PaddedOffset, FoldSlots;
    var sectors := |data| / FLASH_SECTOR_SIZE;
    var completeLength := sectors * FLASH_SECTOR_SIZE;
    var entriesPerSector := FLASH_SECTOR_SIZE / ENTRY_SIZE;
    var foundFirst := false;
    var emptyRun := 0;
    visited := state;
    ghost var slots := Slots(data);
    ghost var goal := WalkOf(data, state, visit);

    for sector := 0 to sectors
      invariant goal
             == FoldSlots(data, sector * ENTRIES_PER_SECTOR, slots,
                          Progress(foundFirst, emptyRun, Running, visited), visit)
    {
      var sectorStart := sector * FLASH_SECTOR_SIZE;
      var slot := 0;
      while slot < entriesPerSector
        invariant 0 <= slot <= entriesPerSector
        invariant goal
               == FoldSlots(data, sector * ENTRIES_PER_SECTOR + slot, slots,
                            Progress(foundFirst, emptyRun, Running, visited), visit)
      {
        ghost var k := sector * ENTRIES_PER_SECTOR + slot;
        var offset := sectorStart + slot * ENTRY_SIZE;
        GridSlot(data, sector, slot);
        ghost var next := Advance(Progress(foundFirst, emptyRun, Running, visited),
                                  RecordAt(data, k), CrossesPage(offset), visit);
        FoldStep(data, k, slots, Progress(foundFirst, emptyRun, Running, visited), visit);
        if offset + ENTRY_SIZE > completeLength {
          break;
        }

        if foundFirst && CrossesPage(offset) {
          PaddingAdvancesOneSlot(sectorStart, slot);
          slot := Max((PaddedOffset(offset) - sectorStart) / ENTRY_SIZE, slot + 1);
          continue;
        }

        var record: Record := data[offset..offset + ENTRY_SIZE];
        assert record == RecordAt(data, k);
        var encoded := ReadU32(record, 0);
        if encoded == EMPTY_DATA {
          if foundFirst {
            emptyRun := emptyRun + 1;
            if emptyRun >= EMPTY_RUN_END {
              FoldOfEnded(data, k + 1, slots, next, visit);
              return visited, Visit(true, None);
            }
          }
          slot := slot + 1;
          continue;
        }

        emptyRun := 0;
        if encoded % 4 == 0 {
          if record[20] > 3 {
            slot := slot + 1;
            continue;
          }
          foundFirst := true;
          var voltageSum := VoltageSum(record);
          if voltageSum > 60 && voltageSum < 900 {
            var v := visit(visited, DecodeEntry(record, encoded, Measurement));
            visited := v.state;
            if v.error.Some? {
              FoldOfEnded(data, k + 1, slots, next, visit);
              return visited, Visit(false, v.error);
            }
          }
          slot := slot + 1;
        } else if encoded % 4 == 2 {
          foundFirst := true;
          slot := slot + 1;
        } else {
          slot := slot + 1;
        }
      }
    }
    FoldStep(data, slots, slots, Progress(foundFirst, emptyRun, Running, visited), visit);
    return visited, Visit(completeLength == FLASH_LENGTH, None);
  }

  datatype ParsedHistory = ParsedHistory(entries: seq<HistoryEntry>, endFound: bool)

  function Collect(entries: seq<HistoryEntry>, entry: HistoryEntry): Visit<seq<HistoryEntry>, ()> {
    Visit(entries + [entry], None)
  }

  function CountVisit<S, E>(visit: (S, HistoryEntry) -> Visit<S, E>, state: (S, nat), entry: HistoryEntry)
    : Visit<(S, nat), E>
  {
    var v := visit(state.0, entry);
    Visit((v.state, if v.error.Some? then state.1 else state.1 + 1), v.error)
  }

  function Counted<S, E>(visit: (S, HistoryEntry) -> Visit<S, E>): ((S, nat), HistoryEntry) -> Visit<(S, nat), E> {
    (state: (S, nat), entry: HistoryEntry) => CountVisit(visit, state, entry)
  }

  /** Decodes one record at a time and counts the entries whose visit succeeded. */
  method VisitHistory<S, E>(data: seq<byte>, state: S, visit: (S, HistoryEntry) -> Visit<S, E>)
    returns (visited: S, entries: nat, result: Visit<bool, E>)
    ensures (visited, entries) == WalkOf(data, (state, 0), Counted(visit)).state
    ensures result == Finish(data, WalkOf(data, (state, 0), Counted(visit)))
  {
    var counted;
    counted, result := WalkHistory(data, (state, 0), Counted(visit));
    visited, entries := counted.0, counted.1;
  }

  function Parsed(data: seq<byte>): ParsedHistory {
    var walk := WalkOf(data, [], Collect);
    ParsedHistory(walk.state, Finish(data, walk).state)
  }

  method ParseHistory(data: seq<byte>) returns (parsed: ParsedHistory)
    ensures parsed == Parsed(data)
  {
    var entries, result := WalkHistory(data, [], Collect);
    parsed := ParsedHistory(entries, result.state);
  }
}
