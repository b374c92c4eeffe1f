/** What the answer to a configuration change says about the device's two configurations. */
module ApplyProtocol {
  import opened Domain
  import opened Config
  import opened BitMask
  import opened ConfigCodec

  /** The device's configurations: the active one and the stored one. */
  datatype Copies = Copies(active: DeviceConfiguration, stored: DeviceConfiguration)

  predicate SameSettings(a: DeviceConfiguration, b: DeviceConfiguration) {
    a.rawVersion == b.rawVersion && a.settings == b.settings
  }

  /**
   The answer is true. Success: the request is active, and also stored if it was to be persisted,
   else the stored copy is untouched. Rolled back: the original active settings are active again,
   and if the request was to be persisted they are now stored too. A lost line or a failed rollback
   leaves the active copy unknown. Any other error: no write was issued.
   */
  ghost predicate ApplyTruth(before: Copies, request: DeviceConfiguration, persist: bool,
                             result: Result<DeviceConfiguration>, writesIssued: int, after: Copies)
  {
    && (!persist ==> after.stored == before.stored)
    && match result
       case Ok(applied) =>
         && applied == after.active && SameSettings(applied, request)
         && if persist then after.stored == applied else applied == request
       case Err(FailedAndRolledBack(_)) =>
         if persist then SameSettings(after.active, before.active) && after.stored == after.active
         else after.active == before.active
       case Err(RollbackFailed(_, _)) => true
       case Err(ConnectionLost) => true
       case Err(_) => writesIssued == 0 && after == before
  }

  /**
   A persistent change that was rolled back leaves the stored settings as they were exactly when
   they were the active settings before: the rollback stores the previous active configuration.
   */
  lemma RolledBackStoreKeptIff(before: Copies, request: DeviceConfiguration, operation: DeviceError,
                               writes: int, after: Copies)
    requires ApplyTruth(before, request, true, Err(FailedAndRolledBack(operation)), writes, after)
    ensures SameSettings(after.stored, before.stored) <==> SameSettings(before.active, before.stored)
  {
    assert SameSettings(after.stored, before.active);
  }

  /** Factory-like settings for examples. */
  const EXAMPLE := DeviceSettings(
    "WireView", 100, FanConfiguration(Curve, Maximum, 0, 100, 500, 800),
    FaultActions([OverCurrent, OverPower], [OverCurrent], [], [OverCurrent]),
    FaultThresholds(800, 55, 105, 660, 40, 6), 10, 60, 1417,
    DisplayConfiguration(Main, 10, Watts600, 0, Static, [Main, Temperature], 10, 30,
      Colors(0xffff_ffff, 0xff64_6464, 0xffe6_4121, 0xff00_0000), OrangeBackground, OrangeFan, false))

  /**
   A device dimmed temporarily, with full backlight stored: no rolled-back persistent change keeps what
   was stored.
   */
  lemma RolledBackStoreCanChange(request: DeviceConfiguration, operation: DeviceError, writes: int, after: Copies)
    requires var stored := DeviceConfiguration(2, 0x1234, EXAMPLE);
      ApplyTruth(Copies(stored.(settings := EXAMPLE.(backlight := 20)), stored), request, true,
                 Err(FailedAndRolledBack(operation)), writes, after)
    ensures after.stored.settings != EXAMPLE && after.stored.settings.backlight == 20
  {
  }

  const EXAMPLE_CONFIGURATION := DeviceConfiguration(2, 0x1234, EXAMPLE)

  /** The same settings, but for the order in which two faults are listed. */
  const UNORDERED := DeviceConfiguration(2, 0x1234,
    EXAMPLE.(faultActions := EXAMPLE.faultActions.(display := [OverPower, OverCurrent])))

  lemma ListsOfExample()
    ensures StrictlyAscends(FaultOrdinals([OverCurrent, OverPower])) && NoDuplicateFaults([OverCurrent, OverPower])
    ensures StrictlyAscends(FaultOrdinals([OverCurrent])) && NoDuplicateFaults([OverCurrent])
    ensures StrictlyAscends(FaultOrdinals([])) && NoDuplicateFaults([])
    ensures StrictlyAscends(ScreenOrdinals([Main, Temperature])) && NoDuplicateScreens([Main, Temperature])
    ensures !StrictlyAscends(FaultOrdinals([OverPower, OverCurrent])) && NoDuplicateFaults([OverPower, OverCurrent])
  {
    hide NoDuplicateFaults, NoDuplicateScreens;
    PopCountTestIsExact([OverCurrent, OverPower], [Main, Temperature]);
    PopCountTestIsExact([OverPower, OverCurrent], []);
    PopCountTestIsExact([OverCurrent], []);
    PopCountTestIsExact([], []);
    assert FaultOrdinals([OverPower, OverCurrent])[0] == 4 && FaultOrdinals([OverPower, OverCurrent])[1] == 2;
  }

  lemma ExampleIsReadable()
    ensures Valid(EXAMPLE_CONFIGURATION) && InOrdinalOrder(EXAMPLE_CONFIGURATION)
  {
    hide NoDuplicateFaults, NoDuplicateScreens, StrictlyAscends, FaultOrdinals, ScreenOrdinals;
    ListsOfExample();
  }

  lemma UnorderedIsValid()
    ensures UNORDERED.rawVersion == 2 && Valid(UNORDERED) && !InOrdinalOrder(UNORDERED)
  {
    hide NoDuplicateFaults, NoDuplicateScreens, StrictlyAscends, FaultOrdinals, ScreenOrdinals;
    ListsOfExample();
  }

  /** Validation accepts the list in either order; only one of the orders survives encoding and decoding. */
  lemma ValidationIgnoresOrder()
    ensures Valid(UNORDERED) && !InOrdinalOrder(UNORDERED)
    ensures DecodeConfiguration(2, Encoded(UNORDERED)).Ok?
    ensures DecodeConfiguration(2, Encoded(UNORDERED)) != Ok(UNORDERED)
  {
    hide Valid, InOrdinalOrder, DecodeConfiguration, Encoded, Ordered;
    UnorderedIsValid();
    DecodeAfterEncode(UNORDERED);
  }
}
