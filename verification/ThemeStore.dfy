/** The slots as a map: what any sequence of slot writes and reads does to every slot's reading. */
module ThemeStore {
  import opened Domain
  import opened Bytes
  import opened Theme
  import opened Spi
  import opened ThemeTransaction
  import opened Backend
  import History

  /** The slots whose bytes are known. */
  type Known = map<ThemeAssetSlot, seq<byte>>

  datatype Operation =
    | ReadSlot(slot: ThemeAssetSlot, bytes: Result<seq<byte>>)
    | WriteSlot(slot: ThemeAssetSlot, data: seq<byte>, outcome: Result<()>)

  function SlotBytes(flash: seq<byte>, slot: ThemeAssetSlot): seq<byte>
    requires |flash| == SPI_FLASH_SIZE
  {
    assert slot.End() <= SPI_FLASH_SIZE;
    flash[slot.Address()..slot.End()]
  }

  /** What one operation, with the answer it gave, may do to the flash. */
  ghost predicate Step(before: seq<byte>, operation: Operation, after: seq<byte>)
    requires |before| == SPI_FLASH_SIZE
  {
    match operation
    case ReadSlot(slot, bytes) => after == before && (bytes.Ok? ==> bytes.value == SlotBytes(before, slot))
    case WriteSlot(slot, data, outcome) => ThemeWriteStep(before, slot, data, outcome, after)
  }

  /** Writing `writer` may leave bytes of `slot` unknown, because it rewrites a sector holding some of them. */
  predicate Endangers(writer: ThemeAssetSlot, slot: ThemeAssetSlot) {
    writer.SectorStart() < slot.End() && slot.Address() < writer.SectorEnd()
  }

  /** The abstract store: one map entry per operation, and forgetting only when an outcome is unknown. */
  function Apply(known: Known, operation: Operation): Known {
    match operation
    case ReadSlot(slot, bytes) => if bytes.Ok? then known[slot := bytes.value] else known
    case WriteSlot(slot, data, outcome) =>
      match outcome
      case Ok(_) => known[slot := data]
      case Err(ConnectionLost) => map s | s in known && !Endangers(slot, s) :: known[s]
      case Err(RollbackFailed(_, _)) => map s | s in known && !Endangers(slot, s) :: known[s]
      case Err(_) => known
  }

  function ApplyAll(known: Known, operations: seq<Operation>): Known {
    if operations == [] then known
    else Apply(ApplyAll(known, operations[..|operations| - 1]), operations[|operations| - 1])
  }

  ghost predicate Describes(known: Known, flash: seq<byte>)
    requires |flash| == SPI_FLASH_SIZE
  {
    forall s :: s in known ==> known[s] == SlotBytes(flash, s)
  }

  /** A successful write changes its own slot's reading and no other, shared sectors included. */
  lemma PatchChangesOneReading(before: seq<byte>, slot: ThemeAssetSlot, data: seq<byte>, other: ThemeAssetSlot)
    requires |before| == SPI_FLASH_SIZE && |data| == slot.ByteLen()
    ensures slot.End() <= SPI_FLASH_SIZE
    ensures SlotBytes(Patched(before, slot.Address(), data), other)
         == if other == slot then data else SlotBytes(before, other)
  {
    assert slot.End() <= SPI_FLASH_SIZE && other.End() <= SPI_FLASH_SIZE;
    if other != slot {
      SlotsAreDisjoint(slot, other);
      var after := Patched(before, slot.Address(), data);
      assert OnlyWithin(before, after, slot.Address(), slot.End());
      UnchangedRange(before, after, slot.Address(), slot.End(),
                     other.Address(), other.End());
    }
  }

  /** Bytes outside the rewritten sectors read as before. */
  lemma UntouchedReading(before: seq<byte>, after: seq<byte>, writer: ThemeAssetSlot, slot: ThemeAssetSlot)
    requires |before| == SPI_FLASH_SIZE && OnlyWithin(before, after, writer.SectorStart(), writer.SectorEnd())
    requires !Endangers(writer, slot)
    ensures SlotBytes(after, slot) == SlotBytes(before, slot)
  {
    CoveringSectors(writer);
    CoveringSectors(slot);
    UnchangedRange(before, after, writer.SectorStart(), writer.SectorEnd(), slot.Address(), slot.End());
  }

  lemma StepRefines(known: Known, before: seq<byte>, operation: Operation, after: seq<byte>)
    requires |before| == SPI_FLASH_SIZE && Step(before, operation, after)
    requires Describes(known, before)
    ensures |after| == SPI_FLASH_SIZE && Describes(Apply(known, operation), after)
    ensures after[History.FLASH_START_ADDRESS..] == before[History.FLASH_START_ADDRESS..]
  {
    if operation.WriteSlot? {
      var slot := operation.slot;
      CoveringSectors(slot);
      forall s | s in Apply(known, operation)
        ensures Apply(known, operation)[s] == SlotBytes(after, s)
      {
        if operation.outcome.Ok? {
          PatchChangesOneReading(before, slot, operation.data, s);
        } else if after != before {
          UntouchedReading(before, after, slot, s);
        }
      }
    }
  }

  /** `flashes[i]` is the flash before operation `i`, and the last entry is the flash at the end. */
  ghost predicate Run(flashes: seq<seq<byte>>, operations: seq<Operation>) {
    && |flashes| == |operations| + 1
    && (forall i :: 0 <= i < |flashes| ==> |flashes[i]| == SPI_FLASH_SIZE)
    && forall i :: 0 <= i < |operations| ==> Step(flashes[i], operations[i], flashes[i + 1])
  }

  /** Every run refines the map: at its end the known slots hold exactly what the map says. */
  lemma {:induction false} RunRefinesMap(known: Known, flashes: seq<seq<byte>>, operations: seq<Operation>)
    requires Run(flashes, operations) && Describes(known, flashes[0])
    ensures Describes(ApplyAll(known, operations), flashes[|operations|])
    ensures flashes[|operations|][History.FLASH_START_ADDRESS..] == flashes[0][History.FLASH_START_ADDRESS..]
  {
    if operations != [] {
      var n := |operations| - 1;
      assert Run(flashes[..n + 1], operations[..n]);
      RunRefinesMap(known, flashes[..n + 1], operations[..n]);
      StepRefines(ApplyAll(known, operations[..n]), flashes[n], operations[n], flashes[n + 1]);
    }
  }

  /** In every run, a successful read of a known slot returns what the map holds at that moment. */
  lemma ReadsAgreeWithMap(known: Known, flashes: seq<seq<byte>>, operations: seq<Operation>, i: nat)
    requires Run(flashes, operations) && Describes(known, flashes[0])
    requires i < |operations| && operations[i].ReadSlot? && operations[i].bytes.Ok?
    requires operations[i].slot in ApplyAll(known, operations[..i])
    ensures operations[i].bytes.value == ApplyAll(known, operations[..i])[operations[i].slot]
  {
    assert Run(flashes[..i + 1], operations[..i]);
    RunRefinesMap(known, flashes[..i + 1], operations[..i]);
    assert Step(flashes[i], operations[i], flashes[i + 1]);
  }

  /** What a client may ask of the slots. */
  datatype Request = Fetch(slot: ThemeAssetSlot) | Replace(slot: ThemeAssetSlot, data: seq<byte>)

  /**
   Performs requests one after the other. Whatever the device does, the recorded answers make the
   map describe the flash, every successful read of a known slot gave what the map held, and the
   log region is untouched.
   */
  method Perform(backend: SerialBackend, requests: seq<Request>, ghost known: Known)
    returns (operations: seq<Operation>)
    requires backend.Valid() && Describes(known, backend.port.flash)
    modifies backend`lost, backend.port
    ensures backend.Valid() && |operations| == |requests|
    ensures forall i :: 0 <= i < |requests| ==> Answers(requests[i], operations[i])
    ensures Describes(ApplyAll(known, operations), backend.port.flash)
    ensures forall i :: 0 <= i < |operations| ==> AgreesWith(ApplyAll(known, operations[..i]), operations[i])
    ensures backend.port.flash[History.FLASH_START_ADDRESS..] == old(backend.port.flash)[History.FLASH_START_ADDRESS..]
  {
    operations := [];
    ghost var flashes := [backend.port.flash];
    for n := 0 to |requests|
      invariant backend.Valid() && |operations| == n && Run(flashes, operations)
      invariant flashes[0] == old(backend.port.flash) && flashes[n] == backend.port.flash
      invariant forall i :: 0 <= i < n ==> Answers(requests[i], operations[i])
    {
      var operation := PerformOne(backend, requests[n]);
      operations, flashes := operations + [operation], flashes + [backend.port.flash];
    }
    RunRefinesMap(known, flashes, operations);
    forall i | 0 <= i < |operations| ensures AgreesWith(ApplyAll(known, operations[..i]), operations[i]) {
      if operations[i].ReadSlot? && operations[i].bytes.Ok? && operations[i].slot in ApplyAll(known, operations[..i]) {
        ReadsAgreeWithMap(known, flashes, operations, i);
      }
    }
  }

  /** A successful read of a known slot gave what the map holds. */
  predicate AgreesWith(known: Known, operation: Operation) {
    operation.ReadSlot? && operation.bytes.Ok? && operation.slot in known ==>
      operation.bytes.value == known[operation.slot]
  }

  /** The operation is the request with its answer. */
  predicate Answers(request: Request, operation: Operation) {
    match request
    case Fetch(slot) => operation.ReadSlot? && operation.slot == slot
    case Replace(slot, data) => operation.WriteSlot? && operation.slot == slot && operation.data == data
  }

  method PerformOne(backend: SerialBackend, request: Request) returns (operation: Operation)
    requires backend.Valid()
    modifies backend`lost, backend.port
    ensures backend.Valid() && Answers(request, operation)
    ensures Step(old(backend.port.flash), operation, backend.port.flash)
  {
    match request
    case Fetch(slot) =>
      var bytes := backend.ReadThemeAsset(slot);
      operation := ReadSlot(slot, bytes);
    case Replace(slot, data) =>
      var outcome := backend.WriteThemeAsset(slot, data);
      operation := WriteSlot(slot, data, outcome);
  }
}
