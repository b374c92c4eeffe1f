/**
 The serial backend as the manager sees it. Flash operations run on the serial line; every other
 exchange answers arbitrarily. The device keeps two configurations: a failed or even a successful
 write may leave any active one, so only reading back tells, and a store that succeeded has copied
 the active configuration, whatever it then is, to the stored one. For comparison, a device may
 answer every exchange; a faultless one also keeps exactly the bytes it was sent. Ghost logs keep
 what the device was asked for, whoever asked.
 */
module Backend {
  import opened Domain
  import opened Bytes
  import opened Theme
  import opened Spi
  import opened ThemeTransaction
  import opened Config
  import ConfigCodec
  import ConfigFrames
  import EventLog
  import History

  /** Chunks are bounded, and lie inside the log region. */
  function ValidateHistoryRange(offset: nat, length: nat): (result: Result<()>)
    ensures result.Ok? <==> length <= History.MAX_CHUNK_SIZE && offset + length <= History.FLASH_LENGTH
    ensures result.Err? ==> result.error == InvalidArgument
  {
    if length > History.MAX_CHUNK_SIZE then Err(InvalidArgument)
    else if offset > History.FLASH_LENGTH || length > Max(History.FLASH_LENGTH - offset, 0) then Err(InvalidArgument)
    else Ok(())
  }

  /** The log region of a flash. */
  function LogRegion(flash: seq<byte>): (region: seq<byte>)
    requires |flash| == SPI_FLASH_SIZE
    ensures |region| == History.FLASH_LENGTH
  {
    flash[History.FLASH_START_ADDRESS..]
  }

  /** Transactions report further errors; one exchange with the device reports only these. */
  predicate ExchangeError(error: DeviceError) {
    error in {NotConnected, ConnectionLost, Transport} || error.Unsupported? || error.ProtocolUnverified?
  }

  /** The commands that change something on the device, apart from the flash's and the display pause's. */
  datatype DeviceCommand =
    | ShowScreen(screen: EventLog.Screen)
    | ClearMasks(activeMask: nat, loggedMask: nat)
    | Restart
    | WriteActive(configuration: DeviceConfiguration)
    | Nvm(operation: NvmOperation)

  datatype DisplayCommand = PauseUpdates | ResumeUpdates

  /** One request to open a port: the answer to it and, once it was opened, to the first reading of telemetry. */
  datatype Opening = Opening(port: string, answer: Result<()>, reading: Option<Result<()>>)
  {
    /** What the request came to, unless the first reading is still to come. */
    function Outcome(): Option<Result<()>> {
      if answer.Err? then Some(answer) else reading
    }
  }

  /** Telemetry was read: if nothing was read since the last port was opened, that is the opening's first reading. */
  function WithReading(opens: seq<Opening>, reading: Result<()>): seq<Opening> {
    var n := |opens|;
    if n > 0 && opens[n - 1].Outcome().None? then opens[n - 1 := opens[n - 1].(reading := Some(reading))] else opens
  }

  class SerialBackend {
    const port: SerialPort
    const answering: bool           // every exchange is answered without an error
    /** What a write leaves active instead of the configuration that was sent, if the device does not keep it. */
    const leavesInstead: DeviceConfiguration -> Option<DeviceConfiguration>
    var attached: bool
    var configVersion: Option<byte>
    var active: DeviceConfiguration
    var stored: DeviceConfiguration
    var productName: string         // what the device calls itself
    var buildString: string
    ghost var lost: bool            // this session has reported its line lost
    ghost var opens: seq<Opening>   // the requests to open a port
    ghost var readings: nat         // how often telemetry was read
    ghost var displayLog: seq<DisplayCommand>
    ghost var sent: seq<DeviceCommand>
    ghost var writes: nat           // configuration writes and non-volatile commands issued
    ghost var writesAfterLoss: nat  // those issued after this session had answered ConnectionLost
    ghost var nvmLog: seq<NvmOperation>  // stores and resets issued

    ghost predicate Valid()
      reads this, port
    {
      port.Valid()
    }

    /** A device for comparison: it answers every exchange and keeps what it was sent. */
    ghost predicate Faultless() {
      answering && forall c :: leavesInstead(c).None?
    }

    /** What a device that answers every exchange has active after a write. */
    function Kept(configuration: DeviceConfiguration): DeviceConfiguration {
      var instead := leavesInstead(configuration);
      if instead.Some? then instead.value else ConfigCodec.Ordered(configuration)
    }

    lemma FaultlessKeeps(configuration: DeviceConfiguration)
      requires Faultless() && Config.Valid(configuration) && ConfigCodec.InOrdinalOrder(configuration)
      ensures Kept(configuration) == configuration
    {
      hide Config.Valid, ConfigCodec.InOrdinalOrder, ConfigCodec.Ordered;
      ConfigCodec.OrderedIsReadable(configuration);
    }

    /** The active configuration decodes: it has the probed version and ordered lists. */
    ghost predicate Decodable()
      reads this`configVersion, this`active
    {
      configVersion == Some(active.rawVersion) && ConfigCodec.InOrdinalOrder(active)
    }

    /** The active configuration decodes and has valid settings. */
    ghost predicate Readable()
      reads this`configVersion, this`active
    {
      Decodable() && Config.Valid(active)
    }

    /** A range of the flash that may be read will be read. */
    ghost predicate ReadsFlash()
      reads this`attached, port
    {
      attached && port.Reliable()
    }

    /** Nothing was asked of the device yet. */
    ghost predicate Untouched()
      reads this
    {
      nvmLog == [] && opens == [] && displayLog == [] && !attached
    }

    constructor (port: SerialPort, answering: bool, leavesInstead: DeviceConfiguration -> Option<DeviceConfiguration>,
                 active: DeviceConfiguration, stored: DeviceConfiguration)
      requires port.Valid()
      ensures this.port == port && this.answering == answering && this.leavesInstead == leavesInstead
      ensures this.active == active && this.stored == stored && !lost && Untouched()
    {
      this.port, this.answering, this.leavesInstead := port, answering, leavesInstead;
      this.active, this.stored := active, stored;
      attached, configVersion := false, None;
      productName, buildString := "", "";
      lost, opens, readings, displayLog, sent, writes, writesAfterLoss, nvmLog := false, [], 0, [], [], 0, 0, [];
    }

    /** Any value, or any error that a single exchange can report. */
    method Answer<T(0)>() returns (result: Result<T>)
      modifies this`lost
      ensures lost == (old(lost) || result == Err(ConnectionLost))
      ensures result.Err? ==> ExchangeError(result.error)
      ensures answering ==> result.Ok?
    {
      result := *;
      if answering {
        var value: T := *;
        result := Ok(value);
      } else if result.Err? && !ExchangeError(result.error) {
        result := Err(Transport);
      }
      lost := lost || result == Err(ConnectionLost);
    }

    /** A new session may find another device behind the port. */
    method Connect(path: string) returns (result: Result<EventLog.DeviceIdentity>)
      modifies this`attached, this`configVersion, this`active, this`stored, this`productName, this`buildString,
        this`lost, this`opens, port
      ensures port.Valid() && opens == old(opens) + [Opening(path, Acknowledged(result), None)]
      ensures lost == (result == Err(ConnectionLost)) && attached == result.Ok? && (result.Err? ==> configVersion.None?)
      ensures result.Err? ==> ExchangeError(result.error)
      ensures answering ==> result.Ok?
    {
      port.Attach();
      var a: DeviceConfiguration := *;
      var s: DeviceConfiguration := *;
      active, stored, lost := a, s, false;
      var name: string := *;
      var build: string := *;
      productName, buildString := name, build;
      result := Answer();
      opens := opens + [Opening(path, Acknowledged(result), None)];
      attached := result.Ok?;
      var version: Option<byte> := *;
      configVersion := if result.Ok? then version else None;
    }

    method Disconnect()
      modifies this`attached, this`configVersion
      ensures !attached
    {
      attached, configVersion := false, None;
    }

    method ReadTelemetry() returns (result: Result<int>)
      modifies this`lost, this`opens, this`readings
      ensures opens == WithReading(old(opens), Acknowledged(result)) && readings == old(readings) + 1
      ensures lost == (old(lost) || result == Err(ConnectionLost))
      ensures result.Err? ==> ExchangeError(result.error)
      ensures answering ==> result.Ok?
    {
      result := Answer();
      opens, readings := WithReading(opens, Acknowledged(result)), readings + 1;
    }

    /** The product name and the build string, in this order. */
    method ReadBuildInformation() returns (result: Result<(string, string)>)
      modifies this`lost
      ensures lost == (old(lost) || result == Err(ConnectionLost))
      ensures result.Err? ==> ExchangeError(result.error)
      ensures answering ==> result.Ok?
      ensures result.Ok? ==> result.value == (productName, buildString)
    {
      var answer: Result<()> := Answer();
      result := if answer.Ok? then Ok((productName, buildString)) else Err(answer.error);
    }

    method SetScreen(screen: EventLog.Screen) returns (result: Result<()>)
      modifies this`lost, this`sent
      ensures lost == (old(lost) || result == Err(ConnectionLost))
      ensures result.Err? ==> ExchangeError(result.error)
      ensures answering ==> result.Ok?
      ensures sent == old(sent) + [ShowScreen(screen)]
    {
      sent := sent + [ShowScreen(screen)];
      result := Answer();
    }

    method ClearFaults(activeMask: nat, loggedMask: nat) returns (result: Result<()>)
      modifies this`lost, this`sent
      ensures lost == (old(lost) || result == Err(ConnectionLost))
      ensures result.Err? ==> ExchangeError(result.error)
      ensures answering ==> result.Ok?
      ensures sent == old(sent) + [ClearMasks(activeMask, loggedMask)]
    {
      sent := sent + [ClearMasks(activeMask, loggedMask)];
      result := Answer();
    }

    method RebootDevice() returns (result: Result<()>)
      modifies this`lost, this`sent
      ensures lost == (old(lost) || result == Err(ConnectionLost))
      ensures result.Err? ==> ExchangeError(result.error)
      ensures answering ==> result.Ok?
      ensures sent == old(sent) + [Restart]
    {
      sent := sent + [Restart];
      result := Answer();
    }

    method PauseHistoryUpdates() returns (result: Result<()>)
      modifies this`lost, this`displayLog
      ensures lost == (old(lost) || result == Err(ConnectionLost))
      ensures result.Err? ==> ExchangeError(result.error)
      ensures displayLog == old(displayLog) + [PauseUpdates]
      ensures answering ==> result.Ok?
    {
      displayLog := displayLog + [PauseUpdates];
      result := Answer();
    }

    method ResumeHistoryUpdates() returns (result: Result<()>)
      modifies this`lost, this`displayLog
      ensures lost == (old(lost) || result == Err(ConnectionLost))
      ensures result.Err? ==> ExchangeError(result.error)
      ensures displayLog == old(displayLog) + [ResumeUpdates]
      ensures answering ==> result.Ok?
    {
      displayLog := displayLog + [ResumeUpdates];
      result := Answer();
    }

    /**
     A configuration that was delivered is the active one, decoded from bytes: of the probed version,
     with its lists in ordinal order, and valid. What decodes but does not validate is refused as
     such; any other active content does not decode.
     */
    method ReadConfiguration() returns (result: Result<DeviceConfiguration>)
      modifies this`lost
      ensures lost == (old(lost) || result == Err(ConnectionLost))
      ensures result.Err? ==> ExchangeError(result.error) || (result.error == InvalidArgument && !Config.Valid(active))
      ensures result.Ok? ==> result.value == active && Readable()
      ensures configVersion.None? ==> result == Err(NotConnected) && lost == old(lost)
      ensures answering ==> (result.Ok? <==> Readable())
      ensures answering && configVersion.Some? && result.Err? ==>
        result.error == if Decodable() then InvalidArgument else Transport
    {
      hide Config.Valid, ConfigCodec.InOrdinalOrder;
      if configVersion.None? {
        return Err(NotConnected);
      }
      var answer: Result<()> := Answer();
      if answer.Err? {
        return Err(answer.error);
      }
      if configVersion.value != active.rawVersion || !ConfigCodec.InOrdinalOrder(active) {
        return Err(Transport);
      }
      if !Config.Valid(active) {
        return Err(InvalidArgument);
      }
      return Ok(active);
    }

    /**
     Sends a configuration in frames. A wrong version or an invalid configuration is refused before
     anything is sent; after that any active configuration may result, whatever the answer, unless
     the device answers every exchange. The stored one is not touched.
     */
    method WriteConfiguration(configuration: DeviceConfiguration) returns (result: Result<()>)
      modifies this`active, this`lost, this`sent, this`writes, this`writesAfterLoss
      ensures lost == (old(lost) || result == Err(ConnectionLost))
      ensures result.Err? ==> ExchangeError(result.error) || result.error == InvalidArgument
      ensures writes == old(writes) <==>
        configVersion.None? || configuration.rawVersion != configVersion.value || !Config.Valid(configuration)
      ensures writes == old(writes) ==> result == Err(if configVersion.None? then NotConnected else InvalidArgument)
      ensures writes == old(writes) ==>
        result.Err? && active == old(active) && sent == old(sent) && writesAfterLoss == old(writesAfterLoss)
      ensures writes != old(writes) ==>
        && writes == old(writes) + 1 && writesAfterLoss == old(writesAfterLoss) + (if old(lost) then 1 else 0)
        && result != Err(InvalidArgument) && sent == old(sent) + [WriteActive(configuration)]
        && (answering ==> result.Ok? && active == Kept(configuration))
    {
      hide Config.Valid, ConfigCodec.Encoded, ConfigCodec.Ordered, Config.DecodeConfiguration;
      if configVersion.None? {
        return Err(NotConnected);
      }
      if configuration.rawVersion != configVersion.value {
        return Err(InvalidArgument);
      }
      var bytes :- ConfigCodec.EncodeConfiguration(configuration);
      sent := sent + [WriteActive(configuration)];
      writes := writes + 1;
      writesAfterLoss := writesAfterLoss + if lost then 1 else 0;
      SentWhole(configuration);
      var kept;
      result, kept := Send(bytes);
      if answering {
        var instead := leavesInstead(configuration);
        active := if instead.Some? then instead.value else Config.DecodeConfiguration(configVersion.value, kept).value;
      } else {
        var a: DeviceConfiguration := *;
        active := a;
      }
    }

    /** The frames carry a valid configuration whole, and its bytes decode to it with its lists in ordinal order. */
    lemma SentWhole(configuration: DeviceConfiguration)
      requires Config.Valid(configuration)
      ensures configuration.rawVersion <= 2
      ensures |ConfigCodec.Encoded(configuration)| <= 2 * ConfigFrames.CONFIG_WRITE_PAYLOAD
      ensures Config.DecodeConfiguration(configuration.rawVersion, ConfigCodec.Encoded(configuration))
           == Ok(ConfigCodec.Ordered(configuration))
    {
      ConfigFrames.ConfigurationFits(configuration);
      ConfigCodec.DecodeAfterEncode(configuration);
    }

    /**
     Sends one frame of the bytes after the other, until one fails. `kept` is what a device that
     stores every frame then holds, whatever it held before.
     */
    method Send(bytes: seq<byte>) returns (result: Result<()>, kept: seq<byte>)
      modifies this`lost
      ensures lost == (old(lost) || result == Err(ConnectionLost))
      ensures result.Err? ==> ExchangeError(result.error)
      ensures |bytes| <= 2 * ConfigFrames.CONFIG_WRITE_PAYLOAD ==> kept == bytes && (answering ==> result.Ok?)
    {
      kept := [];
      var frames := ConfigFrames.Frames(bytes);
      if frames.Err? {
        return Err(frames.error), kept;
      }
      assert |bytes| == |bytes|;
      var memory: seq<byte> :| |memory| == |bytes|;
      kept := ConfigFrames.Stored(memory, frames.value);
      for i := 0 to |frames.value|
        invariant lost == old(lost)
      {
        result := Answer();
        if result.Err? {
          return;
        }
      }
      result := Ok(());
    }

    /** A successful store or reset leaves both copies equal; a reload does not touch the stored one. */
    method NvmConfiguration(operation: NvmOperation) returns (result: Result<()>)
      modifies this`active, this`stored, this`lost, this`sent, this`writes, this`writesAfterLoss, this`nvmLog
      ensures lost == (old(lost) || result == Err(ConnectionLost))
      ensures result.Err? ==> ExchangeError(result.error)
      ensures writes == old(writes) + 1 && sent == old(sent) + [Nvm(operation)]
      ensures writesAfterLoss == old(writesAfterLoss) + if old(lost) then 1 else 0
      ensures nvmLog == if operation == Reload then old(nvmLog) else old(nvmLog) + [operation]
      ensures operation == Reload ==> stored == old(stored)
      ensures result.Ok? ==> stored == active
      ensures answering ==> result.Ok? && (operation == Store ==> active == old(active))
    {
      sent := sent + [Nvm(operation)];
      writes := writes + 1;
      writesAfterLoss := writesAfterLoss + if lost then 1 else 0;
      nvmLog := if operation == Reload then nvmLog else nvmLog + [operation];
      if !answering || operation != Store {
        var a: DeviceConfiguration := *;
        active := a;
      }
      result := Answer();
      if operation != Reload {
        var s: DeviceConfiguration := *;
        stored := s;
      }
      if result.Ok? {
        if operation == Reload {
          active := stored;
        } else {
          stored := active;
        }
      }
    }

    /** A chunk that is delivered holds the log region's bytes, and only that region was read. */
    method ReadHistoryChunk(offset: nat, length: nat, cancellation: ReadCancellation)
      returns (result: Result<seq<byte>>)
      requires Valid()
      modifies this`lost, port, cancellation
      ensures Valid() && port.flash == old(port.flash)
      ensures lost == (old(lost) || result == Err(ConnectionLost))
      ensures result.Ok? ==>
        offset + length <= History.FLASH_LENGTH && result.value == LogRegion(port.flash)[offset..offset + length]
      ensures old(port.trace) <= port.trace
        && ReadsOnly(port.trace, |old(port.trace)|, History.FLASH_START_ADDRESS, SPI_FLASH_SIZE)
      ensures result == Err(InvalidArgument) <==> ValidateHistoryRange(offset, length).Err?
      ensures ValidateHistoryRange(offset, length).Ok? && !attached && length > 0 ==>
        result == Err(NotConnected) && unchanged(port)
      ensures old(port.Reliable()) ==> port.Reliable()
      ensures old(port.Reliable() && cancellation.Never()) && attached && ValidateHistoryRange(offset, length).Ok? ==>
        result.Ok? && cancellation.Never()
      ensures port.hungUp == (old(port.hungUp) || result == Err(ConnectionLost)) && port.quiet == old(port.quiet)
    {
      var range := ValidateHistoryRange(offset, length);
      if range.Err? {
        return Err(range.error);
      }
      if length == 0 {
        return Ok([]);
      }
      var address := History.FLASH_START_ADDRESS + offset;
      assert address + length <= SPI_FLASH_SIZE <= U32_MAX;
      if !attached {
        return Err(NotConnected);
      }
      result := ReadSpiBytes(port, address, length, cancellation);
      lost := lost || result == Err(ConnectionLost);
    }

    /** The slot's bytes, if anything is delivered. */
    method ReadThemeAsset(slot: ThemeAssetSlot) returns (result: Result<seq<byte>>)
      requires Valid()
      modifies this`lost, port
      ensures Valid() && port.flash == old(port.flash)
      ensures lost == (old(lost) || result == Err(ConnectionLost))
      ensures slot.End() <= SPI_FLASH_SIZE
      ensures result.Ok? ==> result.value == port.flash[slot.Address()..slot.End()]
      ensures old(port.trace) <= port.trace && ReadsOnly(port.trace, |old(port.trace)|, slot.Address(), slot.End())
      ensures configVersion != Some(2) ==> result.Err? && result.error.Unsupported? && unchanged(port)
      ensures configVersion == Some(2) && !attached ==> result == Err(NotConnected) && unchanged(port)
      ensures configVersion == Some(2) && old(ReadsFlash()) ==> result.Ok? && ReadsFlash()
    {
      CoveringSectors(slot);
      if configVersion != Some(2) {
        return Err(Unsupported("theme assets require configuration V3"));
      }
      if !attached {
        return Err(NotConnected);
      }
      var cancellation := new ReadCancellation.Default();
      result := ReadSpiBytes(port, slot.Address(), slot.ByteLen(), cancellation);
      lost := lost || result == Err(ConnectionLost);
    }

    /** The verified slot replacement, once the layout and the line allow it. */
    method WriteThemeAsset(slot: ThemeAssetSlot, data: seq<byte>) returns (result: Result<()>)
      requires Valid()
      modifies this`lost, port
      ensures Valid()
      ensures lost == (old(lost) || result in {Err(ConnectionLost), Err(ConnectionLostBeforeMutation)})
      ensures ThemeWriteStep(old(port.flash), slot, data, result, port.flash)
      ensures result != Err(OperationOutcomeUnknown)
      ensures old(port.trace) <= port.trace
        && MutatesOnly(port.trace, |old(port.trace)|, slot.SectorStart(), slot.SectorEnd())
      ensures !old(port.hungUp) ==> port.quiet == old(port.quiet)
      ensures configVersion != Some(2) ==> result.Err? && result.error.Unsupported? && unchanged(port)
      ensures configVersion == Some(2) && !attached ==> result == Err(NotConnected) && unchanged(port)
      ensures configVersion == Some(2) && attached ==> (result == Err(InvalidArgument) <==> |data| != slot.ByteLen())
      ensures configVersion == Some(2) && old(ReadsFlash()) && |data| == slot.ByteLen() ==> result.Ok?
    {
      if configVersion != Some(2) {
        return Err(Unsupported("theme assets require configuration V3"));
      }
      if !attached {
        return Err(NotConnected);
      }
      result := WriteThemeAssetTransaction(port, slot, data);
      lost := lost || result in {Err(ConnectionLost), Err(ConnectionLostBeforeMutation)};
    }
  }
}
