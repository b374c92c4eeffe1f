/** Replacing one theme slot: back up whole sectors, patch, erase, program, verify, restore on failure. */
module ThemeTransaction {
  import opened Domain
  import opened Bytes
  import opened Theme
  import opened Spi

  /**
   What the answer to a slot write says about the flash. Every outcome leaves the bytes outside
   the covering sectors alone; only a lost line and a failed rollback leave those sectors unknown.
   */
  ghost predicate ThemeWriteStep(before: seq<byte>, slot: ThemeAssetSlot, data: seq<byte>,
                                 result: Result<()>, after: seq<byte>)
  {
    && |before| == |after| == SPI_FLASH_SIZE
    && OnlyWithin(before, after, slot.SectorStart(), slot.SectorEnd())
    && match result
       case Ok(_) => |data| == slot.ByteLen() && after == Patched(before, slot.Address(), data)
       case Err(ConnectionLost) => true
       case Err(RollbackFailed(_, _)) => true
       case Err(_) => after == before
  }

  /** The error was found before the erase command, so nothing but reads was issued. */
  predicate BeforeErase(error: DeviceError) {
    error in {InvalidArgument, Transport, ConnectionLostBeforeMutation, OperationCancelled}
  }

  /** A range that is back to its bytes, with nothing changed elsewhere, is the whole flash back. */
  lemma RangeRestored(before: seq<byte>, after: seq<byte>, lo: nat, hi: nat)
    requires lo <= hi <= |before| && OnlyWithin(before, after, lo, hi)
    requires after[lo..hi] == before[lo..hi]
    ensures after == before
  {
    forall i | 0 <= i < |before| ensures after[i] == before[i] {
      if lo <= i < hi {
        assert after[i] == after[lo..hi][i - lo] && before[i] == before[lo..hi][i - lo];
      }
    }
  }

  /** Patching a copy of the covering sectors and putting the copy back patches the flash. */
  lemma PatchedSectors(before: seq<byte>, after: seq<byte>, lo: nat, hi: nat, address: nat, data: seq<byte>)
    requires lo <= address && address + |data| <= hi <= |before| && OnlyWithin(before, after, lo, hi)
    requires after[lo..hi] == Patched(before[lo..hi], address - lo, data)
    ensures after == Patched(before, address, data)
  {
    forall i | 0 <= i < |before| ensures after[i] == Patched(before, address, data)[i] {
      if lo <= i < hi {
        assert after[i] == after[lo..hi][i - lo];
      }
    }
  }

  lemma SectorsArePages(x: nat)
    requires Aligned(x, SPI_SECTOR_SIZE)
    ensures Aligned(x, SPI_WRITE_PAGE_SIZE)
  {
    assert x == SPI_WRITE_PAGE_SIZE * (16 * (x / SPI_SECTOR_SIZE));
  }

  /** Erases a range of sectors and programs it anew. */
  method EraseAndProgram(port: SerialPort, address: nat, requested: seq<byte>) returns (result: Result<()>)
    requires Aligned(address, SPI_SECTOR_SIZE) && Aligned(|requested|, SPI_SECTOR_SIZE) && |requested| > 0
    requires address + |requested| <= SPI_FLASH_SIZE
    requires port.Valid()
    modifies port
    ensures port.Valid()
    ensures OnlyWithin(old(port.flash), port.flash, address, address + |requested|)
    ensures old(port.trace) <= port.trace && MutatesOnly(port.trace, |old(port.trace)|, address, address + |requested|)
    ensures port.hungUp == (old(port.hungUp) || result == Err(ConnectionLost))
    ensures !old(port.hungUp) ==> port.quiet == old(port.quiet)
    ensures result.Err? ==> result.error in {ConnectionLost, Transport}
    ensures old(port.Reliable()) ==>
      port.Reliable() && result.Ok? && port.flash[address..address + |requested|] == requested
  {
    hide Aligned;
    var erased := EraseSpiSectors(port, address, |requested|);
    if erased.Err? {
      return erased;
    }
    SectorsArePages(address);
    SectorsArePages(|requested|);
    result := WriteSpiPages(port, address, requested);
  }

  /**
   Erase, program, read back, compare. The operation and its rollback are these same steps, one
   with the requested bytes and one with the backup.
   */
  method RewriteSectors(port: SerialPort, address: nat, requested: seq<byte>) returns (result: Result<()>)
    requires Aligned(address, SPI_SECTOR_SIZE) && Aligned(|requested|, SPI_SECTOR_SIZE) && |requested| > 0
    requires address + |requested| <= SPI_FLASH_SIZE
    requires port.Valid()
    modifies port
    ensures port.Valid()
    ensures OnlyWithin(old(port.flash), port.flash, address, address + |requested|)
    ensures result.Ok? ==> port.flash[address..address + |requested|] == requested
    ensures old(port.trace) <= port.trace && MutatesOnly(port.trace, |old(port.trace)|, address, address + |requested|)
    ensures port.hungUp == (old(port.hungUp) || result == Err(ConnectionLost))
    ensures !old(port.hungUp) ==> port.quiet == old(port.quiet)
    ensures result.Err? ==> result.error in {ConnectionLost, Transport, VerificationFailed}
    ensures old(port.Reliable()) ==> port.Reliable() && result.Ok?
  {
    var programmed := EraseAndProgram(port, address, requested);
    if programmed.Err? {
      return programmed;
    }
    var cancellation := new ReadCancellation.Default();
    var verified := ReadSpiBytes(port, address, |requested|, cancellation);
    if verified.Err? {
      return Err(verified.error);
    }
    if verified.value != requested {
      return Err(VerificationFailed);
    }
    return Ok(());
  }

  /**
   Replace the sectors and, unless the line was lost, put the backup back when that failed.
   `backup` is what the sectors hold.
   */
  method ReplaceOrRestore(port: SerialPort, address: nat, requested: seq<byte>, backup: seq<byte>)
    returns (result: Result<()>)
    requires Aligned(address, SPI_SECTOR_SIZE) && Aligned(|backup|, SPI_SECTOR_SIZE)
    requires |requested| == |backup| > 0 && address + |backup| <= SPI_FLASH_SIZE
    requires port.Valid() && port.flash[address..address + |backup|] == backup
    modifies port
    ensures port.Valid()
    ensures OnlyWithin(old(port.flash), port.flash, address, address + |backup|)
    ensures result.Ok? ==> port.flash[address..address + |backup|] == requested
    ensures result.Err? && result.error.FailedAndRolledBack? ==> port.flash == old(port.flash)
    ensures result.Err? ==>
      result.error == ConnectionLost || result.error.FailedAndRolledBack? || result.error.RollbackFailed?
    ensures old(port.trace) <= port.trace && MutatesOnly(port.trace, |old(port.trace)|, address, address + |backup|)
    ensures port.hungUp == (old(port.hungUp) || result == Err(ConnectionLost))
    ensures !old(port.hungUp) ==> port.quiet == old(port.quiet)
    ensures old(port.Reliable()) ==> port.Reliable() && result.Ok?
  {
    var operation := RewriteSectors(port, address, requested);
    if operation.Ok? || operation.error == ConnectionLost {
      return operation;
    }
    var restored := RewriteSectors(port, address, backup);
    match restored
    case Ok(_) =>
      RangeRestored(old(port.flash), port.flash, address, address + |backup|);
      return Err(FailedAndRolledBack(operation.error));
    case Err(ConnectionLost) =>
      return Err(ConnectionLost);
    case Err(rollback) =>
      return Err(RollbackFailed(operation.error, rollback));
  }

  /** Backs whole sectors up, and replaces them by a copy with the data patched in. */
  method PatchSectors(port: SerialPort, sectorStart: nat, sectorEnd: nat, assetStart: nat, data: seq<byte>)
    returns (result: Result<()>)
    requires sectorStart <= assetStart && assetStart + |data| <= sectorEnd <= SPI_FLASH_SIZE && sectorStart < sectorEnd
    requires Aligned(sectorStart, SPI_SECTOR_SIZE) && Aligned(sectorEnd - sectorStart, SPI_SECTOR_SIZE)
    requires port.Valid()
    modifies port
    ensures port.Valid() && OnlyWithin(old(port.flash), port.flash, sectorStart, sectorEnd)
    ensures result.Ok? ==> port.flash == Patched(old(port.flash), assetStart, data)
    ensures result.Err? && result.error != ConnectionLost && !result.error.RollbackFailed? ==>
      port.flash == old(port.flash)
    ensures old(port.trace) <= port.trace && MutatesOnly(port.trace, |old(port.trace)|, sectorStart, sectorEnd)
    ensures result.Err? ==>
      if result.error in {Transport, ConnectionLostBeforeMutation, OperationCancelled} then
        ReadsOnly(port.trace, |old(port.trace)|, sectorStart, sectorEnd)
      else result.error == ConnectionLost || result.error.FailedAndRolledBack? || result.error.RollbackFailed?
    ensures port.hungUp == (old(port.hungUp) || result in {Err(ConnectionLost), Err(ConnectionLostBeforeMutation)})
    ensures !old(port.hungUp) ==> port.quiet == old(port.quiet)
    ensures old(port.Reliable()) ==> result.Ok?
  {
    hide Aligned;
    var cancellation := new ReadCancellation.Default();
    var backup := ReadSpiBytes(port, sectorStart, sectorEnd - sectorStart, cancellation);
    if backup.Err? {
      return Err(if backup.error == ConnectionLost then ConnectionLostBeforeMutation else backup.error);
    }
    ghost var before := port.flash;
    var requested := Patched(backup.value, assetStart - sectorStart, data);
    result := ReplaceOrRestore(port, sectorStart, requested, backup.value);
    if result.Ok? {
      PatchedSectors(before, port.flash, sectorStart, sectorEnd, assetStart, data);
    }
  }

  /**
   The whole transaction, over every schedule. Its answer is true of the flash, no mutating
   command follows a lost line, and on a fault-free device it succeeds for every slot.
   */
  method WriteThemeAssetTransaction(port: SerialPort, slot: ThemeAssetSlot, data: seq<byte>)
    returns (result: Result<()>)
    requires port.Valid()
    modifies port
    ensures port.Valid()
    ensures ThemeWriteStep(old(port.flash), slot, data, result, port.flash)
    ensures old(port.trace) <= port.trace
    ensures MutatesOnly(port.trace, |old(port.trace)|, slot.SectorStart(), slot.SectorEnd())
    ensures result.Err? && BeforeErase(result.error) ==>
      ReadsOnly(port.trace, |old(port.trace)|, slot.SectorStart(), slot.SectorEnd())
    ensures result.Err? && !BeforeErase(result.error) ==>
      result.error == ConnectionLost || result.error.FailedAndRolledBack? || result.error.RollbackFailed?
    ensures port.hungUp == (old(port.hungUp) || result in {Err(ConnectionLost), Err(ConnectionLostBeforeMutation)})
    ensures !old(port.hungUp) ==> port.quiet == old(port.quiet)
    ensures result == Err(InvalidArgument) <==> |data| != slot.ByteLen()
    ensures old(port.Reliable()) && |data| == slot.ByteLen() ==> result.Ok?
  {
    hide Aligned, ThemeAssetSlot.Address, ThemeAssetSlot.ByteLen, ThemeAssetSlot.SectorStart, ThemeAssetSlot.SectorEnd;
    if |data| != slot.ByteLen() {
      return Err(InvalidArgument);
    }
    CoveringSectors(slot);
    result := PatchSectors(port, slot.SectorStart(), slot.SectorEnd(), slot.Address(), data);
  }
}
