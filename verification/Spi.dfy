/**
 The device flash behind a serial line, and the daemon's page, sector and slot operations on it.

 The device is a byte array: an executed erase sets 0xff, an executed program only clears bits.
 Every exchange consults an arbitrary schedule, which decides the answer and what really happened
 to the addressed range: the command may run, be ignored, or leave the range scrambled, whatever
 the answer was. Two things are assumed: a page that is delivered holds the flash's bytes, and no
 command takes effect after its exchange has ended.
 */
module Spi {
  import opened Domain
  import opened Bytes
  import opened Theme
  import History

  const SPI_READ_ATTEMPTS: nat := 3

  datatype IoError = HungUp | Glitch

  /** Loss of the line is the one serial fault that callers tell apart. */
  function ToDeviceError(error: IoError): DeviceError {
    match error
    case HungUp => ConnectionLost
    case Glitch => Transport
  }

  datatype Command =
    | ReadPage(address: nat, length: nat)
    | EraseSectors(address: nat, length: nat)
    | ProgramPage(address: nat, data: seq<byte>)
  {
    predicate Mutating() {
      !ReadPage?
    }

    function End(): nat {
      match this
      case ReadPage(a, n) => a + n
      case EraseSectors(a, n) => a + n
      case ProgramPage(a, data) => a + |data|
    }
  }

  datatype Reply = Answered(status: byte) | TimedOut | Broken(error: IoError)

  datatype Effect = Executed | Ignored | Scrambled(contents: nat -> byte)

  /** What the schedule decides for one exchange. */
  datatype Turn = Turn(reply: Reply, effect: Effect)
  {
    predicate Clean() {
      reply == Answered(1) && effect.Executed?
    }
  }

  type Schedule = nat -> Turn

  /** From turn `from` on, every exchange succeeds. */
  ghost predicate FaultFree(schedule: Schedule, from: nat) {
    forall t: nat :: from <= t ==> schedule(t).Clean()
  }

  /** The bytes a read of `length` bytes delivers; past the end of the flash the line reads 0xff. */
  function ReadRange(flash: seq<byte>, address: nat, length: nat): (bytes: seq<byte>)
    ensures |bytes| == length
    ensures address + length <= |flash| ==> bytes == flash[address..address + length]
  {
    seq(length, i requires 0 <= i => if address + i < |flash| then flash[address + i] else ERASED)
  }

  /** A longer prefix of a range is a shorter one followed by the next page. */
  lemma ReadRangeGrows(flash: seq<byte>, address: nat, length: nat, read: nat, page: nat)
    requires read + page <= length
    ensures ReadRange(flash, address, length)[..read + page]
         == ReadRange(flash, address, length)[..read] + ReadRange(flash, address + read, page)
  {
  }

  /** `after` differs from `before` at most inside `lo..hi`. */
  ghost predicate OnlyWithin(before: seq<byte>, after: seq<byte>, lo: nat, hi: nat) {
    && |after| == |before|
    && forall i :: 0 <= i < |before| && !(lo <= i < hi) ==> after[i] == before[i]
  }

  function Applied(flash: seq<byte>, command: Command, effect: Effect): (after: seq<byte>)
    ensures OnlyWithin(flash, after, command.address, command.End())
    ensures !command.Mutating() ==> after == flash
  {
    if command.ReadPage? || effect.Ignored? then flash
    else seq(|flash|, i requires 0 <= i < |flash| => AppliedAt(flash[i], command, effect, i))
  }

  function AppliedAt(current: byte, command: Command, effect: Effect, i: nat): byte {
    if command.ReadPage? || effect.Ignored? || !(command.address <= i < command.End()) then current
    else if effect.Scrambled? then effect.contents(i)
    else if command.EraseSectors? then ERASED
    else AndByte(current, command.data[i - command.address])
  }

  /** `flash` with `data` in place of the bytes at `address`. */
  function Patched(flash: seq<byte>, address: nat, data: seq<byte>): (after: seq<byte>)
    requires address + |data| <= |flash|
    ensures |after| == |flash| && after[address..address + |data|] == data
  {
    flash[..address] + data + flash[address + |data|..]
  }

  /** A range disjoint from the changed one reads as before. */
  lemma UnchangedRange(before: seq<byte>, after: seq<byte>, lo: nat, hi: nat, from: nat, to: nat)
    requires OnlyWithin(before, after, lo, hi) && from <= to <= |before| && (to <= lo || hi <= from)
    ensures after[from..to] == before[from..to]
  {
  }

  ghost predicate ErasedRange(flash: seq<byte>, address: nat, length: nat) {
    && address + length <= |flash|
    && forall i :: address <= i < address + length ==> flash[i] == ERASED
  }

  /** A cancellation flag that another task may set at any moment and nobody clears. */
  class ReadCancellation {
    var cancelled: bool
    const requested: nat -> bool
    var polls: nat

    /** The flag of an operation that nobody can cancel. */
    constructor Default()
      ensures Never() && polls == 0
    {
      cancelled, polls := false, 0;
      requested := _ => false;
    }

    constructor Shared(requested: nat -> bool)
      ensures !cancelled && this.requested == requested && polls == 0
    {
      cancelled, polls := false, 0;
      this.requested := requested;
    }

    ghost predicate Never()
      reads this
    {
      !cancelled && forall n: nat :: !requested(n)
    }

    method Cancel()
      modifies this
      ensures cancelled
    {
      cancelled := true;
    }

    method IsCancelled() returns (c: bool)
      modifies this
      ensures c == cancelled == (old(cancelled) || requested(old(polls))) && polls == old(polls) + 1
      ensures old(Never()) ==> !c && Never()
    {
      cancelled := cancelled || requested(polls);
      polls := polls + 1;
      c := cancelled;
    }
  }

  class SerialPort {
    var flash: seq<byte>
    const schedule: Schedule
    var turn: nat
    ghost var trace: seq<Command>  // every command issued
    ghost var hungUp: bool         // some exchange has reported the line lost
    ghost var quiet: bool          // no mutating command was issued after that

    ghost predicate Valid()
      reads this
    {
      |flash| == SPI_FLASH_SIZE
    }

    ghost predicate Reliable()
      reads this
    {
      FaultFree(schedule, turn)
    }

    constructor (flash: seq<byte>, schedule: Schedule)
      requires |flash| == SPI_FLASH_SIZE
      ensures Valid() && this.flash == flash && this.schedule == schedule && turn == 0
      ensures trace == [] && !hungUp && quiet
    {
      this.flash, this.schedule, turn := flash, schedule, 0;
      trace, hungUp, quiet := [], false, true;
    }

    /** Opening the port again may find another device, with a flash of its own, behind it. */
    method Attach()
      modifies this`flash, this`hungUp
      ensures Valid() && !hungUp
    {
      var blank := seq(SPI_FLASH_SIZE, _ => ERASED);
      assert |blank| == SPI_FLASH_SIZE;
      var contents: seq<byte> :| |contents| == SPI_FLASH_SIZE;
      flash := contents;
      hungUp := false;
    }

    /**
     One command: clear the input, write, flush, wait for the answer. A fault at any of these
     steps ends the exchange as `Broken`.
     */
    method Exchange(command: Command) returns (reply: Reply)
      modifies this
      ensures turn == old(turn) + 1
      ensures reply == schedule(old(turn)).reply
      ensures flash == Applied(old(flash), command, schedule(old(turn)).effect)
      ensures trace == old(trace) + [command]
      ensures command.ReadPage? ==> flash == old(flash)
      ensures old(Reliable()) ==> Reliable() && reply.Answered?
      ensures hungUp == (old(hungUp) || reply == Broken(HungUp))
      ensures quiet == (old(quiet) && !(old(hungUp) && command.Mutating()))
    {
      reply := schedule(turn).reply;
      flash := Applied(flash, command, schedule(turn).effect);
      trace := trace + [command];
      quiet := quiet && !(hungUp && command.Mutating());
      hungUp := hungUp || reply == Broken(HungUp);
      turn := turn + 1;
    }
  }

  /** Every command from position `from` on is a page read inside `lo..hi`. */
  ghost predicate ReadsOnly(trace: seq<Command>, from: nat, lo: nat, hi: nat) {
    && from <= |trace|
    && forall i :: from <= i < |trace| ==>
         trace[i].ReadPage? && lo <= trace[i].address && trace[i].End() <= hi
         && trace[i].length <= History.FLASH_READ_PAGE_SIZE
  }

  /** Every mutating command from position `from` on addresses only `lo..hi`. */
  ghost predicate MutatesOnly(trace: seq<Command>, from: nat, lo: nat, hi: nat) {
    && from <= |trace|
    && forall i :: from <= i < |trace| && trace[i].Mutating() ==> lo <= trace[i].address && trace[i].End() <= hi
  }

  method FillFrom(destination: array<byte>, at: nat, page: seq<byte>)
    requires at + |page| <= destination.Length
    modifies destination
    ensures destination[..at + |page|] == old(destination[..at]) + page
  {
    for i := 0 to |page|
      invariant destination[..at + i] == old(destination[..at]) + page[..i]
    {
      destination[at + i] := page[i];
      assert destination[..at + i + 1] == destination[..at + i] + [page[i]];
    }
  }

  /** After a timeout: cancelled, given up after the last attempt, or cancelled during the pause before the next one. */
  method AfterTimeout(attempt: nat, cancellation: ReadCancellation) returns (result: Result<()>)
    modifies cancellation
    ensures result == Err(OperationCancelled) <==> cancellation.cancelled
    ensures !cancellation.cancelled ==> result == if attempt == 3 then Err(Transport) else Ok(())
    ensures !cancellation.cancelled ==> cancellation.polls == old(cancellation.polls) + if attempt == 3 then 1 else 2
    ensures old(cancellation.polls) < cancellation.polls
    ensures old(cancellation.Never()) ==> cancellation.Never()
  {
    var cancelled := cancellation.IsCancelled();
    if cancelled {
      return Err(OperationCancelled);
    }
    if attempt == SPI_READ_ATTEMPTS {
      return Err(Transport);
    }
    cancelled := cancellation.IsCancelled();
    return if cancelled then Err(OperationCancelled) else Ok(());
  }

  /** Reads one page into `destination[at..at + length]`, retrying a timeout twice. */
  method ReadSpiPage(port: SerialPort, address: nat, destination: array<byte>, at: nat, length: nat,
                     cancellation: ReadCancellation)
    returns (result: Result<()>)
    requires 0 < length <= History.FLASH_READ_PAGE_SIZE
    requires at + length <= destination.Length
    modifies port, cancellation, destination
    ensures port.flash == old(port.flash)
    ensures result.Ok? ==> destination[..at + length] == old(destination[..at]) + ReadRange(port.flash, address, length)
    ensures old(port.trace) <= port.trace && ReadsOnly(port.trace, |old(port.trace)|, address, address + length)
    ensures old(port.turn) <= port.turn <= old(port.turn) + 3
    ensures |port.trace| - |old(port.trace)| == port.turn - old(port.turn)
    ensures forall t :: old(port.turn) <= t < port.turn - 1 ==> port.schedule(t).reply.TimedOut?
    ensures result == Err(Transport) && port.turn < old(port.turn) + 3 ==>
      port.turn > old(port.turn) && !port.schedule(port.turn - 1).reply.TimedOut?
    ensures port.hungUp == (old(port.hungUp) || result == Err(ConnectionLost)) && port.quiet == old(port.quiet)
    ensures result.Err? ==> result.error in {ConnectionLost, Transport, OperationCancelled}
    ensures old(cancellation.Never()) ==> cancellation.Never() && result != Err(OperationCancelled)
    ensures result == Err(OperationCancelled) <==> cancellation.cancelled
    ensures cancellation.polls == old(cancellation.polls) + 1 && cancellation.cancelled ==> port.turn == old(port.turn)
    ensures !cancellation.cancelled ==>
      && port.turn > old(port.turn)
      && cancellation.polls + (if port.schedule(port.turn - 1).reply.TimedOut? then 1 else 2)
         == old(cancellation.polls) + 3 * (port.turn - old(port.turn))
    ensures old(port.Reliable()) ==> port.Reliable() && (old(cancellation.Never()) ==> result.Ok?)
  {
    hide Applied, FaultFree;
    ghost var start := |port.trace|;
    for attempt := 1 to SPI_READ_ATTEMPTS + 1
      invariant port.flash == old(port.flash)
      invariant destination[..at] == old(destination[..at])
      invariant old(port.trace) <= port.trace && ReadsOnly(port.trace, start, address, address + length)
      invariant |port.trace| == start + attempt - 1 && attempt <= SPI_READ_ATTEMPTS
      invariant port.turn == old(port.turn) + attempt - 1
      invariant forall t :: old(port.turn) <= t < port.turn ==> port.schedule(t).reply.TimedOut?
      invariant port.hungUp == old(port.hungUp) && port.quiet == old(port.quiet)
      invariant old(cancellation.Never()) ==> cancellation.Never()
      invariant old(port.Reliable()) ==> port.Reliable() && attempt == 1
      invariant cancellation.polls == old(cancellation.polls) + 3 * (attempt - 1)
      invariant attempt > 1 ==> !cancellation.cancelled
    {
      var cancelled := cancellation.IsCancelled();
      if cancelled {
        return Err(OperationCancelled);
      }
      var reply := port.Exchange(ReadPage(address, length));
      match reply
      case Answered(_) =>
        var page := ReadRange(port.flash, address, length);
        FillFrom(destination, at, page);
        return Ok(());
      case Broken(error) =>
        return Err(ToDeviceError(error));
      case TimedOut =>
        var ended := AfterTimeout(attempt, cancellation);
        if ended.Err? {
          return ended;
        }
    }
    assert false;
  }

  /** Reads a range page by page; a delivered range holds exactly the flash's bytes. */
  method ReadSpiBytes(port: SerialPort, address: nat, length: nat, cancellation: ReadCancellation)
    returns (result: Result<seq<byte>>)
    modifies port, cancellation
    ensures port.flash == old(port.flash)
    ensures result.Ok? ==> result.value == ReadRange(port.flash, address, length)
    ensures old(port.trace) <= port.trace && ReadsOnly(port.trace, |old(port.trace)|, address, address + length)
    ensures port.hungUp == (old(port.hungUp) || result == Err(ConnectionLost)) && port.quiet == old(port.quiet)
    ensures result.Err? ==> result.error in {ConnectionLost, Transport, OperationCancelled, InvalidArgument}
    ensures result == Err(InvalidArgument) ==> address + length > U32_MAX
    ensures old(cancellation.Never()) ==> cancellation.Never() && result != Err(OperationCancelled)
    ensures result == Err(OperationCancelled) <==> cancellation.cancelled
    ensures old(cancellation.cancelled || cancellation.requested(cancellation.polls)) ==>
      result == Err(OperationCancelled) && unchanged(port)
    ensures old(port.Reliable()) ==> port.Reliable()
    ensures old(port.Reliable() && cancellation.Never()) && address + length <= U32_MAX ==> result.Ok?
  {
    var cancelled := cancellation.IsCancelled();
    if cancelled {
      return Err(OperationCancelled);
    }
    var bytes := new byte[length](_ => 0);
    var read := 0;
    while read < length
      invariant read <= length
      invariant port.flash == old(port.flash)
      invariant bytes[..read] == ReadRange(port.flash, address, length)[..read]
      invariant old(port.trace) <= port.trace && ReadsOnly(port.trace, |old(port.trace)|, address, address + length)
      invariant port.hungUp == old(port.hungUp) && port.quiet == old(port.quiet)
      invariant old(cancellation.Never()) ==> cancellation.Never()
      invariant old(port.Reliable()) ==> port.Reliable()
      invariant !cancellation.cancelled
    {
      var pageLength := Min(length - read, History.FLASH_READ_PAGE_SIZE);
      if address + read > U32_MAX {
        return Err(InvalidArgument);
      }
      var page := ReadSpiPage(port, address + read, bytes, read, pageLength, cancellation);
      if page.Err? {
        return Err(page.error);
      }
      ReadRangeGrows(port.flash, address, length, read, pageLength);
      read := read + pageLength;
    }
    assert bytes[..] == bytes[..length];
    return Ok(bytes[..]);
  }

  function ReadSpiStatus(reply: Reply): (result: Result<()>)
    ensures result.Ok? <==> reply == Answered(1)
    ensures result == Err(ConnectionLost) <==> reply == Broken(HungUp)
    ensures result.Err? ==> result.error in {ConnectionLost, Transport}
  {
    match reply
    case Answered(status) => if status == 1 then Ok(()) else Err(Transport)
    case TimedOut => Err(Transport)
    case Broken(error) => Err(ToDeviceError(error))
  }

  method EraseSpiSectors(port: SerialPort, address: nat, length: nat) returns (result: Result<()>)
    modifies port
    ensures OnlyWithin(old(port.flash), port.flash, address, address + length)
    ensures old(port.trace) <= port.trace && MutatesOnly(port.trace, |old(port.trace)|, address, address + length)
    ensures result.Err? ==> result.error in {ConnectionLost, Transport, InvalidArgument}
    ensures result == Err(InvalidArgument) ==> port.flash == old(port.flash)
    ensures result == Err(InvalidArgument) <==>
      length == 0 || !Aligned(address, SPI_SECTOR_SIZE) || !Aligned(length, SPI_SECTOR_SIZE)
      || address + length > SPI_FLASH_SIZE
    ensures port.hungUp == (old(port.hungUp) || result == Err(ConnectionLost))
    ensures !old(port.hungUp) ==> port.quiet == old(port.quiet)
    ensures old(port.Reliable()) ==> port.Reliable()
    ensures old(port.Reliable()) && result != Err(InvalidArgument) ==>
      result.Ok? && forall i :: address <= i < address + length && i < |port.flash| ==> port.flash[i] == ERASED
  {
    if length == 0 || !Aligned(address, SPI_SECTOR_SIZE) || !Aligned(length, SPI_SECTOR_SIZE) {
      return Err(InvalidArgument);
    }
    if address + length > U32_MAX || address + length > SPI_FLASH_SIZE {
      return Err(InvalidArgument);
    }
    var reply := port.Exchange(EraseSectors(address, length));
    result := ReadSpiStatus(reply);
  }

  /** The page guard fires exactly on a bad length, a page crossing or a range past the flash. */
  method WriteSpiPage(port: SerialPort, address: nat, data: seq<byte>) returns (result: Result<()>)
    modifies port
    ensures OnlyWithin(old(port.flash), port.flash, address, address + |data|)
    ensures old(port.trace) <= port.trace && MutatesOnly(port.trace, |old(port.trace)|, address, address + |data|)
    ensures result.Err? ==> result.error in {ConnectionLost, Transport, InvalidArgument}
    ensures result == Err(InvalidArgument) ==> port.flash == old(port.flash)
    ensures result == Err(InvalidArgument) <==>
      |data| == 0 || address % 256 + |data| > SPI_WRITE_PAGE_SIZE || address + |data| > SPI_FLASH_SIZE
    ensures port.hungUp == (old(port.hungUp) || result == Err(ConnectionLost))
    ensures !old(port.hungUp) ==> port.quiet == old(port.quiet)
    ensures old(port.Reliable()) ==> port.Reliable()
    ensures old(port.Reliable()) && result != Err(InvalidArgument) ==>
      result.Ok? && forall i :: address <= i < address + |data| && i < |port.flash| ==>
        port.flash[i] == AndByte(old(port.flash)[i], data[i - address])
  {
    if |data| == 0 || |data| > SPI_WRITE_PAGE_SIZE {
      return Err(InvalidArgument);
    }
    if address % 256 + |data| > SPI_WRITE_PAGE_SIZE {
      return Err(InvalidArgument);
    }
    if address + |data| > U32_MAX || address + |data| > SPI_FLASH_SIZE {
      return Err(InvalidArgument);
    }
    var reply := port.Exchange(ProgramPage(address, data));
    result := ReadSpiStatus(reply);
  }

  /** Programming the next page of an erased range stores the next page of the data. */
  lemma PageStored(original: seq<byte>, before: seq<byte>, after: seq<byte>, address: nat, data: seq<byte>, offset: nat)
    requires ErasedRange(original, address, |data|) && offset + SPI_WRITE_PAGE_SIZE <= |data|
    requires OnlyWithin(original, before, address, address + offset)
    requires OnlyWithin(before, after, address + offset, address + offset + SPI_WRITE_PAGE_SIZE)
    requires forall i :: address <= i < address + offset ==> before[i] == data[i - address]
    requires forall i :: address + offset <= i < address + offset + SPI_WRITE_PAGE_SIZE ==>
      after[i] == AndByte(before[i], data[i - address])
    ensures forall i :: address <= i < address + offset + SPI_WRITE_PAGE_SIZE ==> after[i] == data[i - address]
  {
    forall i | address + offset <= i < address + offset + SPI_WRITE_PAGE_SIZE ensures after[i] == data[i - address] {
      assert before[i] == original[i] == ERASED;
      ProgramErased(data[i - address]);
    }
  }

  /** Programs whole pages in address order; aligned pages inside the flash never meet the page guard. */
  method WriteSpiPages(port: SerialPort, address: nat, data: seq<byte>) returns (result: Result<()>)
    requires Aligned(address, SPI_WRITE_PAGE_SIZE) && Aligned(|data|, SPI_WRITE_PAGE_SIZE)
    modifies port
    ensures OnlyWithin(old(port.flash), port.flash, address, address + |data|)
    ensures old(port.trace) <= port.trace && MutatesOnly(port.trace, |old(port.trace)|, address, address + |data|)
    ensures result.Err? ==> result.error in {ConnectionLost, Transport, InvalidArgument}
    ensures address + |data| <= SPI_FLASH_SIZE ==> result != Err(InvalidArgument)
    ensures port.hungUp == (old(port.hungUp) || result == Err(ConnectionLost))
    ensures !old(port.hungUp) ==> port.quiet == old(port.quiet)
    ensures old(port.Reliable()) ==> port.Reliable()
    ensures old(port.Reliable() && ErasedRange(port.flash, address, |data|)) && address + |data| <= SPI_FLASH_SIZE ==>
      result.Ok? && port.flash[address..address + |data|] == data
  {
    var offset := 0;
    while offset < |data|
      invariant offset <= |data| && Aligned(offset, SPI_WRITE_PAGE_SIZE)
      invariant OnlyWithin(old(port.flash), port.flash, address, address + offset)
      invariant old(port.trace) <= port.trace && MutatesOnly(port.trace, |old(port.trace)|, address, address + |data|)
      invariant port.hungUp == old(port.hungUp)
      invariant !old(port.hungUp) ==> port.quiet == old(port.quiet)
      invariant old(port.Reliable()) ==> port.Reliable()
      invariant old(port.Reliable()) && ErasedRange(old(port.flash), address, |data|) ==>
        forall i :: address <= i < address + offset ==> port.flash[i] == data[i - address]
    {
      if offset > U32_MAX || address + offset > U32_MAX {
        return Err(InvalidArgument);
      }
      assert (address + offset) % 256 == 0;
      var page := data[offset..offset + SPI_WRITE_PAGE_SIZE];
      ghost var before := port.flash;
      var written := WriteSpiPage(port, address + offset, page);
      if written.Err? {
        return written;
      }
      if old(port.Reliable()) && ErasedRange(old(port.flash), address, |data|) {
        PageStored(old(port.flash), before, port.flash, address, data, offset);
      }
      offset := offset + SPI_WRITE_PAGE_SIZE;
    }
    return Ok(());
  }
}
