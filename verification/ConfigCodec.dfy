/** Encoding, and the round trips between configurations and their bytes. */
module ConfigCodec {
  import opened Domain
  import opened Bytes
  import opened BitMask
  import opened Config

  function Low(value: int): byte {
    value % 256
  }

  function High(value: int): byte {
    value / 256 % 256
  }

  /** Byte `n` of a little-endian word. */
  function WordByte(value: nat, n: nat): byte {
    match n
    case 0 => value % 256
    case 1 => value / 0x100 % 256
    case 2 => value / 0x1_0000 % 256
    case _ => value / 0x100_0000 % 256
  }

  function NameByte(name: string, i: nat): byte {
    if i < |name| then name[i] as int % 256 else 0
  }

  // ---- The layouts: which byte holds what ---------------------------------------------------------

  /** The part that all three layouts share. */
  function CommonByte(c: DeviceConfiguration, i: nat): byte {
    var s := c.settings;
    if 3 <= i < 35 then NameByte(s.friendlyName, i - 3)
    else
      match i
      case 0 => Low(c.crc) case 1 => High(c.crc) case 2 => c.rawVersion
      case 36 => EncodeFanMode(s.fan.mode) case 37 => EncodeTemperatureSource(s.fan.source)
      case 38 => s.fan.dutyMin case 39 => s.fan.dutyMax
      case 40 => Low(s.fan.temperatureMin) case 41 => High(s.fan.temperatureMin)
      case 42 => Low(s.fan.temperatureMax) case 43 => High(s.fan.temperatureMax)
      case 44 => s.backlight
      case 46 => Low(EncodeFaults(s.faultActions.display)) case 47 => High(EncodeFaults(s.faultActions.display))
      case 48 => Low(EncodeFaults(s.faultActions.buzzer)) case 49 => High(EncodeFaults(s.faultActions.buzzer))
      case 50 => Low(EncodeFaults(s.faultActions.softPower)) case 51 => High(EncodeFaults(s.faultActions.softPower))
      case 52 => Low(EncodeFaults(s.faultActions.hardPower)) case 53 => High(EncodeFaults(s.faultActions.hardPower))
      case 54 => Low(s.faultThresholds.temperature) case 55 => High(s.faultThresholds.temperature)
      case 56 => s.faultThresholds.totalCurrent case 57 => Low(s.faultThresholds.wireCurrent)
      case 58 => Low(s.faultThresholds.totalPower) case 59 => High(s.faultThresholds.totalPower)
      case 60 => s.faultThresholds.imbalancePercent case 61 => s.faultThresholds.imbalanceMinLoad
      case 62 => s.shutdownWait case 63 => s.loggingInterval
      case _ => 0
  }

  function LegacyDisplayByte(d: DisplayConfiguration, i: nat): byte {
    match i
    case 0 => EncodeCurrentScale(d.currentScale) case 1 => EncodePowerScale(d.powerScale)
    case 2 => EncodeLegacyTheme(d.background) case 3 => EncodeRotation(d.rotation)
    case 4 => EncodeTimeoutMode(d.timeoutMode) case 5 => Low(EncodeScreens(d.cycleScreens))
    case 6 => d.cycleTime case 7 => d.timeout
    case _ => 0
  }

  function DisplayByte(d: DisplayConfiguration, i: nat): byte {
    if 8 <= i < 12 then WordByte(d.colors.primary, i - 8)
    else if 12 <= i < 16 then WordByte(d.colors.secondary, i - 12)
    else if 16 <= i < 20 then WordByte(d.colors.highlight, i - 16)
    else if 20 <= i < 24 then WordByte(d.colors.background, i - 20)
    else
      match i
      case 0 => ScreenOrdinal(d.defaultScreen) case 1 => EncodeCurrentScale(d.currentScale)
      case 2 => EncodePowerScale(d.powerScale) case 3 => EncodeRotation(d.rotation)
      case 4 => EncodeTimeoutMode(d.timeoutMode) case 5 => Low(EncodeScreens(d.cycleScreens))
      case 6 => d.cycleTime case 7 => d.timeout
      case 24 => EncodeBackground(d.background) case 25 => EncodeFanTheme(d.fanTheme)
      case 26 => if d.inverted then 1 else 0
      case _ => 0
  }

  function EncodedByte(c: DeviceConfiguration, i: nat): byte {
    var ui := UiOffset(c.rawVersion);
    if i < 64 then CommonByte(c, i)
    else if i < ui then (if i == 64 then EncodeAveraging(c.settings.averaging) else 0)
    else if c.rawVersion < 2 then LegacyDisplayByte(c.settings.display, i - ui)
    else DisplayByte(c.settings.display, i - ui)
  }

  function Encoded(c: DeviceConfiguration): (bytes: seq<byte>)
    requires c.rawVersion <= 2
    ensures Ok(|bytes|) == ConfigurationSize(c.rawVersion)
    ensures forall i :: 0 <= i < |bytes| ==> bytes[i] == EncodedByte(c, i)
  {
    seq(ConfigurationSize(c.rawVersion).value, i requires 0 <= i => EncodedByte(c, i))
  }

  /** `bytes[at..]` holds the little-endian 16-bit value. */
  method WriteU16(bytes: array<byte>, at: nat, value: int)
    requires at + 2 <= bytes.Length
    modifies bytes
    ensures bytes[at] == Low(value) && bytes[at + 1] == High(value)
    ensures forall i :: 0 <= i < bytes.Length && !(at <= i < at + 2) ==> bytes[i] == old(bytes[i])
  {
    bytes[at], bytes[at + 1] := Low(value), High(value);
  }

  method WriteU32(bytes: array<byte>, at: nat, value: nat)
    requires at + 4 <= bytes.Length
    modifies bytes
    ensures forall i :: at <= i < at + 4 ==> bytes[i] == WordByte(value, i - at)
    ensures forall i :: 0 <= i < bytes.Length && !(at <= i < at + 4) ==> bytes[i] == old(bytes[i])
  {
    bytes[at], bytes[at + 1] := WordByte(value, 0), WordByte(value, 1);
    bytes[at + 2], bytes[at + 3] := WordByte(value, 2), WordByte(value, 3);
  }

  /** Filling a zeroed buffer field by field produces the layout, and only for a valid configuration. */
  method EncodeConfiguration(config: DeviceConfiguration) returns (result: Result<seq<byte>>)
    ensures result == if Valid(config) then Ok(Encoded(config)) else Err(InvalidArgument)
  {
    if Validate(config).Err? {
      return Err(InvalidArgument);
    }
    hide Valid, ValidSettings, ValidForVersion;
    var size := ConfigurationSize(config.rawVersion);
    var bytes := new byte[size.value](_ => 0);
    WriteCommon(bytes, config);
    var ui := UiOffset(config.rawVersion);
    if config.rawVersion > 0 {
      bytes[64] := EncodeAveraging(config.settings.averaging);
    }
    if config.rawVersion < 2 {
      WriteLegacyDisplay(bytes, ui, config.settings.display);
    } else {
      WriteDisplay(bytes, ui, config.settings.display);
    }
    hide CommonByte, LegacyDisplayByte, DisplayByte;
    assert bytes[..] == Encoded(config);
    result := Ok(bytes[..]);
  }

  method WriteCommon(bytes: array<byte>, config: DeviceConfiguration)
    requires bytes.Length >= 64 && forall i :: 0 <= i < bytes.Length ==> bytes[i] == 0
    requires |config.settings.friendlyName| <= 32
    modifies bytes
    ensures forall i :: 0 <= i < 64 ==> bytes[i] == CommonByte(config, i)
    ensures forall i :: 64 <= i < bytes.Length ==> bytes[i] == 0
  {
    WriteHeader(bytes, config);
    WriteFanAndBacklight(bytes, config);
    WriteActions(bytes, config);
    WriteThresholds(bytes, config);
  }

  method WriteHeader(bytes: array<byte>, config: DeviceConfiguration)
    requires bytes.Length >= 64 && forall i :: 0 <= i < bytes.Length ==> bytes[i] == 0
    requires |config.settings.friendlyName| <= 32
    modifies bytes
    ensures forall i :: 0 <= i < 36 ==> bytes[i] == CommonByte(config, i)
    ensures forall i :: 36 <= i < bytes.Length ==> bytes[i] == 0
  {
    var name := config.settings.friendlyName;
    for i := 0 to |name|
      invariant forall j :: 0 <= j < bytes.Length ==> bytes[j] == if 3 <= j < 3 + i then NameByte(name, j - 3) else 0
    {
      bytes[3 + i] := name[i] as int % 256;
    }
    WriteU16(bytes, 0, config.crc);
    bytes[2] := config.rawVersion;
  }

  method WriteFanAndBacklight(bytes: array<byte>, config: DeviceConfiguration)
    requires bytes.Length >= 64 && bytes[45] == 0
    modifies bytes
    ensures forall i :: 36 <= i < 46 ==> bytes[i] == CommonByte(config, i)
    ensures forall i :: 0 <= i < bytes.Length && !(36 <= i < 46) ==> bytes[i] == old(bytes[i])
  {
    var fan := config.settings.fan;
    bytes[36] := EncodeFanMode(fan.mode);
    bytes[37] := EncodeTemperatureSource(fan.source);
    bytes[38], bytes[39] := fan.dutyMin, fan.dutyMax;
    WriteU16(bytes, 40, fan.temperatureMin);
    WriteU16(bytes, 42, fan.temperatureMax);
    bytes[44] := config.settings.backlight;
  }

  method WriteActions(bytes: array<byte>, config: DeviceConfiguration)
    requires bytes.Length >= 64
    modifies bytes
    ensures forall i :: 46 <= i < 54 ==> bytes[i] == CommonByte(config, i)
    ensures forall i :: 0 <= i < bytes.Length && !(46 <= i < 54) ==> bytes[i] == old(bytes[i])
  {
    hide EncodeFaults, Low, High;
    var actions := config.settings.faultActions;
    WriteU16(bytes, 46, EncodeFaults(actions.display));
    WriteU16(bytes, 48, EncodeFaults(actions.buzzer));
    WriteU16(bytes, 50, EncodeFaults(actions.softPower));
    WriteU16(bytes, 52, EncodeFaults(actions.hardPower));
  }

  method WriteThresholds(bytes: array<byte>, config: DeviceConfiguration)
    requires bytes.Length >= 64
    modifies bytes
    ensures forall i :: 54 <= i < 64 ==> bytes[i] == CommonByte(config, i)
    ensures forall i :: 0 <= i < bytes.Length && !(54 <= i < 64) ==> bytes[i] == old(bytes[i])
  {
    hide Low, High;
    var thresholds := config.settings.faultThresholds;
    WriteU16(bytes, 54, thresholds.temperature);
    bytes[56], bytes[57] := thresholds.totalCurrent, Low(thresholds.wireCurrent);
    WriteU16(bytes, 58, thresholds.totalPower);
    bytes[60], bytes[61] := thresholds.imbalancePercent, thresholds.imbalanceMinLoad;
    bytes[62], bytes[63] := config.settings.shutdownWait, config.settings.loggingInterval;
  }

  method WriteLegacyDisplay(bytes: array<byte>, ui: nat, display: DisplayConfiguration)
    requires ui + 8 <= bytes.Length
    modifies bytes
    ensures forall i :: ui <= i < ui + 8 ==> bytes[i] == LegacyDisplayByte(display, i - ui)
    ensures forall i :: 0 <= i < bytes.Length && !(ui <= i < ui + 8) ==> bytes[i] == old(bytes[i])
  {
    hide EncodeScreens;
    bytes[ui] := EncodeCurrentScale(display.currentScale);
    bytes[ui + 1] := EncodePowerScale(display.powerScale);
    bytes[ui + 2] := EncodeLegacyTheme(display.background);
    bytes[ui + 3] := EncodeRotation(display.rotation);
    bytes[ui + 4] := EncodeTimeoutMode(display.timeoutMode);
    bytes[ui + 5] := Low(EncodeScreens(display.cycleScreens));
    bytes[ui + 6], bytes[ui + 7] := display.cycleTime, display.timeout;
  }

  method WriteColors(bytes: array<byte>, at: nat, display: DisplayConfiguration)
    requires at + 16 <= bytes.Length
    modifies bytes
    ensures forall i :: at <= i < at + 16 ==> bytes[i] == DisplayByte(display, i - at + 8)
    ensures forall i :: 0 <= i < bytes.Length && !(at <= i < at + 16) ==> bytes[i] == old(bytes[i])
  {
    WriteU32(bytes, at, display.colors.primary);
    WriteU32(bytes, at + 4, display.colors.secondary);
    WriteU32(bytes, at + 8, display.colors.highlight);
    WriteU32(bytes, at + 12, display.colors.background);
  }

  method WriteDisplay(bytes: array<byte>, ui: nat, display: DisplayConfiguration)
    requires ui + 27 <= bytes.Length
    modifies bytes
    ensures forall i :: ui <= i < ui + 27 ==> bytes[i] == DisplayByte(display, i - ui)
    ensures forall i :: 0 <= i < bytes.Length && !(ui <= i < ui + 27) ==> bytes[i] == old(bytes[i])
  {
    hide EncodeScreens, WordByte;
    bytes[ui] := ScreenOrdinal(display.defaultScreen);
    bytes[ui + 1] := EncodeCurrentScale(display.currentScale);
    bytes[ui + 2] := EncodePowerScale(display.powerScale);
    bytes[ui + 3] := EncodeRotation(display.rotation);
    bytes[ui + 4] := EncodeTimeoutMode(display.timeoutMode);
    bytes[ui + 5] := Low(EncodeScreens(display.cycleScreens));
    bytes[ui + 6], bytes[ui + 7] := display.cycleTime, display.timeout;
    WriteColors(bytes, ui + 8, display);
    bytes[ui + 24] := EncodeBackground(display.background);
    bytes[ui + 25] := EncodeFanTheme(display.fanTheme);
    bytes[ui + 26] := if display.inverted then 1 else 0;
  }

  // ---- What a layout keeps --------------------------------------------------------------------------

  /** `c` with its fault and screen lists in ordinal order. */
  function Ordered(c: DeviceConfiguration): DeviceConfiguration {
    var a := c.settings.faultActions;
    var actions := FaultActions(
      OrderedFaults(a.display), OrderedFaults(a.buzzer), OrderedFaults(a.softPower), OrderedFaults(a.hardPower));
    var display := c.settings.display.(cycleScreens := OrderedScreens(c.settings.display.cycleScreens));
    c.(settings := c.settings.(faultActions := actions, display := display))
  }

  /** What the layout of `c`'s version can hold of `c`: the older layouts imply the rest. */
  function Kept(c: DeviceConfiguration): DeviceConfiguration {
    var o := Ordered(c).settings;
    var display :=
      if c.rawVersion < 2 then
        o.display.(defaultScreen := Main, inverted := false, fanTheme := LegacyFanTheme(o.display.background),
                   colors := LegacyColors(o.display.background))
      else o.display;
    c.(settings := o.(averaging := if c.rawVersion == 0 then 1417 else o.averaging, display := display))
  }

  predicate InOrdinalOrder(c: DeviceConfiguration) {
    var a := c.settings.faultActions;
    && StrictlyAscends(FaultOrdinals(a.display)) && StrictlyAscends(FaultOrdinals(a.buzzer))
    && StrictlyAscends(FaultOrdinals(a.softPower)) && StrictlyAscends(FaultOrdinals(a.hardPower))
    && StrictlyAscends(ScreenOrdinals(c.settings.display.cycleScreens))
  }

  // ---- Lists and masks ------------------------------------------------------------------------------

  lemma FaultsRoundTrip(faults: seq<FaultKind>)
    ensures EncodeFaults(faults) < 64
    ensures DecodeFaults(EncodeFaults(faults)) == Ok(OrderedFaults(faults))
    ensures NoDuplicateFaults(OrderedFaults(faults))
  {
    var ordinals := FaultOrdinals(faults);
    assert forall x :: x in ordinals ==> x < 6;
    assert PowerOfTwo(6) == 64;
    MaskOfBound(ordinals, 6);
    UnmaskOfMask(ordinals, 6);
    var sorted := Ascending(ordinals, 6);
    AscendingMembers(ordinals, 6);
    assert forall i :: 0 <= i < |sorted| ==> sorted[i] in sorted;
    assert FaultOrdinals(OrderedFaults(faults)) == sorted;
    PopCountAcceptsDistinct(sorted, 16);
  }

  lemma ScreensRoundTrip(screens: seq<ConfigScreen>)
    ensures EncodeScreens(screens) < 32
    ensures DecodeScreens(EncodeScreens(screens)) == Ok(OrderedScreens(screens))
    ensures NoDuplicateScreens(OrderedScreens(screens))
  {
    var ordinals := ScreenOrdinals(screens);
    assert forall x :: x in ordinals ==> x < 5;
    assert PowerOfTwo(5) == 32;
    MaskOfBound(ordinals, 5);
    UnmaskOfMask(ordinals, 5);
    var sorted := Ascending(ordinals, 5);
    AscendingMembers(ordinals, 5);
    assert forall i :: 0 <= i < |sorted| ==> sorted[i] in sorted;
    assert ScreenOrdinals(OrderedScreens(screens)) == sorted;
    PopCountAcceptsDistinct(sorted, 8);
  }

  /** The popcount test accepts a list exactly when it names no kind twice. */
  lemma PopCountTestIsExact(faults: seq<FaultKind>, screens: seq<ConfigScreen>)
    ensures NoDuplicateFaults(faults) <==> Distinct(faults)
    ensures NoDuplicateScreens(screens) <==> Distinct(screens)
  {
    PopCountAcceptsDistinct(FaultOrdinals(faults), 16);
    PopCountAcceptsDistinct(ScreenOrdinals(screens), 8);
    assert forall f :: FaultOf(FaultOrdinal(f)) == f;
    assert forall s :: ScreenOf(ScreenOrdinal(s)) == s;
    assert Distinct(FaultOrdinals(faults)) <==> Distinct(faults);
    assert Distinct(ScreenOrdinals(screens)) <==> Distinct(screens);
  }

  lemma OrderedFaultsIsIdentity(faults: seq<FaultKind>)
    ensures StrictlyAscends(FaultOrdinals(OrderedFaults(faults)))
    ensures OrderedFaults(faults) == faults <==> StrictlyAscends(FaultOrdinals(faults))
  {
    hide Ascending;
    var ordinals := FaultOrdinals(faults);
    var sorted := Ascending(ordinals, 6);
    AscendingMembers(ordinals, 6);
    assert forall i :: 0 <= i < |sorted| ==> sorted[i] in sorted;
    assert FaultOrdinals(OrderedFaults(faults)) == sorted;
    if StrictlyAscends(ordinals) {
      AscendingIsIdentity(ordinals, 6);
      assert forall i :: 0 <= i < |faults| ==> FaultOf(ordinals[i]) == faults[i];
    }
  }

  lemma OrderedScreensIsIdentity(screens: seq<ConfigScreen>)
    ensures StrictlyAscends(ScreenOrdinals(OrderedScreens(screens)))
    ensures OrderedScreens(screens) == screens <==> StrictlyAscends(ScreenOrdinals(screens))
  {
    hide Ascending;
    var ordinals := ScreenOrdinals(screens);
    var sorted := Ascending(ordinals, 5);
    AscendingMembers(ordinals, 5);
    assert forall i :: 0 <= i < |sorted| ==> sorted[i] in sorted;
    assert ScreenOrdinals(OrderedScreens(screens)) == sorted;
    if StrictlyAscends(ordinals) {
      AscendingIsIdentity(ordinals, 5);
      assert forall i :: 0 <= i < |screens| ==> ScreenOf(ordinals[i]) == screens[i];
    }
  }

  // ---- Field groups ---------------------------------------------------------------------------------

  lemma {:induction false} NameRoundTrip(bytes: seq<byte>, name: string)
    requires |name| <= |bytes| && (forall i :: 0 <= i < |name| ==> ' ' <= name[i] <= '~')
    requires forall i :: 0 <= i < |bytes| ==> bytes[i] == NameByte(name, i)
    ensures DecodeName(bytes) == Ok(name)
  {
    if name != [] {
      NameRoundTrip(bytes[1..], name[1..]);
      assert name == [name[0]] + name[1..];
    }
  }

  /** The four bytes of a word, by halves. */
  lemma WordHalves(value: u32)
    ensures var upper, lower := value / 0x1_0000, value % 0x1_0000;
      && WordByte(value, 0) == lower % 0x100 && WordByte(value, 1) == lower / 0x100
      && WordByte(value, 2) == upper % 0x100 && WordByte(value, 3) == upper / 0x100
  {
    var upper, lower := value / 0x1_0000, value % 0x1_0000;
    assert value == 0x1_0000 * upper + lower && upper < 0x1_0000;
    assert value / 0x100 == 0x100 * upper + lower / 0x100;
    assert value / 0x100_0000 == upper / 0x100;
  }

  lemma WordRoundTrip(bytes: seq<byte>, offset: nat, value: u32)
    requires offset + 4 <= |bytes|
    requires forall n :: 0 <= n < 4 ==> bytes[offset + n] == WordByte(value, n)
    ensures ReadU32(bytes, offset) == value
  {
    hide WordByte;
    var upper, lower := value / 0x1_0000, value % 0x1_0000;
    WordHalves(value);
    assert bytes[offset + 0] == lower % 0x100 && bytes[offset + 1] == lower / 0x100;
    assert bytes[offset + 2] == upper % 0x100 && bytes[offset + 3] == upper / 0x100;
    assert ReadU16(bytes, offset) == lower && ReadU16(bytes, offset + 2) == upper;
  }

  lemma I16RoundTrip(bytes: seq<byte>, offset: nat, value: int)
    requires offset + 2 <= |bytes| && -0x8000 <= value < 0x8000
    requires bytes[offset] == Low(value) && bytes[offset + 1] == High(value)
    ensures ReadI16(bytes, offset) == value
  {
  }

  lemma FanRoundTrip(c: DeviceConfiguration)
    requires c.rawVersion <= 2 && ValidFan(c.settings.fan)
    ensures DecodeFan(Encoded(c)) == Ok(c.settings.fan)
  {
    var bytes := Encoded(c);
    I16RoundTrip(bytes, 40, c.settings.fan.temperatureMin);
    I16RoundTrip(bytes, 42, c.settings.fan.temperatureMax);
  }

  lemma ThresholdsRoundTrip(c: DeviceConfiguration)
    requires c.rawVersion <= 2 && ValidThresholds(c.settings.faultThresholds)
    ensures DecodeThresholds(Encoded(c)) == c.settings.faultThresholds
  {
    hide EncodeFaults, EncodeScreens, DisplayByte, LegacyDisplayByte;
    I16RoundTrip(Encoded(c), 54, c.settings.faultThresholds.temperature);
  }

  lemma ActionsRoundTrip(c: DeviceConfiguration)
    requires c.rawVersion <= 2
    ensures DecodeActions(Encoded(c)) == Ok(Ordered(c).settings.faultActions)
  {
    hide EncodeFaults, DecodeFaults, OrderedFaults, NoDuplicateFaults;
    hide EncodeScreens, DecodeScreens, OrderedScreens, NoDuplicateScreens;
    var a := c.settings.faultActions;
    FaultsRoundTrip(a.display);
    FaultsRoundTrip(a.buzzer);
    FaultsRoundTrip(a.softPower);
    FaultsRoundTrip(a.hardPower);
  }

  /** Every table of the display's codes is inverted by its decoder. */
  lemma DisplayTablesRoundTrip(d: DisplayConfiguration)
    requires d.currentScale in {5, 10, 15, 20} && d.rotation in {0, 180}
    ensures DecodeScreen(ScreenOrdinal(d.defaultScreen)) == Ok(d.defaultScreen)
    ensures LookUp(CURRENT_SCALES, EncodeCurrentScale(d.currentScale)) == Ok(d.currentScale)
    ensures DecodePowerScale(EncodePowerScale(d.powerScale)) == Ok(d.powerScale)
    ensures DecodeRotation(EncodeRotation(d.rotation)) == Ok(d.rotation)
    ensures DecodeTimeoutMode(EncodeTimeoutMode(d.timeoutMode)) == Ok(d.timeoutMode)
    ensures DecodeBackground(EncodeBackground(d.background)) == Ok(d.background)
    ensures DecodeFanTheme(EncodeFanTheme(d.fanTheme)) == Ok(d.fanTheme)
    ensures DecodeLegacyTheme(EncodeLegacyTheme(d.background)) == d.background
  {
  }

  lemma LegacyDisplayRoundTrip(c: DeviceConfiguration)
    requires c.rawVersion < 2 && ValidSettings(c.settings)
    ensures DecodeLegacyDisplay(Encoded(c), UiOffset(c.rawVersion)) == Ok(Kept(c).settings.display)
  {
    hide EncodeFaults, DecodeFaults, OrderedFaults, NoDuplicateFaults;
    hide EncodeScreens, DecodeScreens, OrderedScreens, NoDuplicateScreens;
    hide DecodeScreen, ScreenOrdinal, LookUp, EncodeCurrentScale, DecodePowerScale, EncodePowerScale, DecodeRotation,
      EncodeRotation, DecodeTimeoutMode, EncodeTimeoutMode, DecodeBackground, EncodeBackground, DecodeFanTheme,
      EncodeFanTheme, DecodeLegacyTheme, EncodeLegacyTheme;
    DisplayTablesRoundTrip(c.settings.display);
    ScreensRoundTrip(c.settings.display.cycleScreens);
  }

  lemma ColorRoundTrip(c: DeviceConfiguration, offset: nat, color: u32)
    requires c.rawVersion == 2 && offset in {8, 12, 16, 20}
    requires forall n :: 0 <= n < 4 ==> DisplayByte(c.settings.display, offset + n) == WordByte(color, n)
    ensures ReadU32(Encoded(c), 68 + offset) == color
  {
    hide DisplayByte, CommonByte, WordByte, ReadU32;
    var bytes := Encoded(c);
    forall n | 0 <= n < 4 ensures bytes[68 + offset + n] == WordByte(color, n) {
      assert bytes[68 + offset + n] == EncodedByte(c, 68 + offset + n) == DisplayByte(c.settings.display, offset + n);
    }
    WordRoundTrip(bytes, 68 + offset, color);
  }

  lemma ColorsRoundTrip(c: DeviceConfiguration)
    requires c.rawVersion == 2
    ensures Colors(ReadU32(Encoded(c), 76), ReadU32(Encoded(c), 80), ReadU32(Encoded(c), 84), ReadU32(Encoded(c), 88))
         == c.settings.display.colors
  {
    hide ReadU32, EncodedByte;
    ColorRoundTrip(c, 8, c.settings.display.colors.primary);
    ColorRoundTrip(c, 12, c.settings.display.colors.secondary);
    ColorRoundTrip(c, 16, c.settings.display.colors.highlight);
    ColorRoundTrip(c, 20, c.settings.display.colors.background);
  }

  lemma DisplayRoundTrip(c: DeviceConfiguration)
    requires c.rawVersion == 2 && ValidSettings(c.settings)
    ensures DecodeDisplay(Encoded(c), 68) == Ok(Kept(c).settings.display)
  {
    hide EncodeFaults, DecodeFaults, OrderedFaults, NoDuplicateFaults;
    hide EncodeScreens, DecodeScreens, OrderedScreens, NoDuplicateScreens;
    hide ReadU32, WordByte, CommonByte, OrderedFaults;
    hide DecodeScreen, ScreenOrdinal, LookUp, EncodeCurrentScale, DecodePowerScale, EncodePowerScale, DecodeRotation,
      EncodeRotation, DecodeTimeoutMode, EncodeTimeoutMode, DecodeBackground, EncodeBackground, DecodeFanTheme,
      EncodeFanTheme, DecodeLegacyTheme, EncodeLegacyTheme;
    DisplayTablesRoundTrip(c.settings.display);
    ScreensRoundTrip(c.settings.display.cycleScreens);
    ColorsRoundTrip(c);
  }

  // ---- The round trips --------------------------------------------------------------------------------

  lemma NameFieldRoundTrip(c: DeviceConfiguration)
    requires c.rawVersion <= 2 && PrintableName(c.settings.friendlyName)
    ensures DecodeName(Encoded(c)[3..35]) == Ok(c.settings.friendlyName)
  {
    var bytes := Encoded(c);
    var name := bytes[3..35];
    forall i | 0 <= i < |name| ensures name[i] == NameByte(c.settings.friendlyName, i) {
      assert name[i] == bytes[3 + i];
    }
    NameRoundTrip(name, c.settings.friendlyName);
  }

  lemma ScalarsRoundTrip(c: DeviceConfiguration)
    requires c.rawVersion <= 2 && c.settings.averaging in {22, 44, 89, 177, 354, 709, 1417}
    ensures var bytes := Encoded(c);
      && ReadU16(bytes, 0) == c.crc && bytes[2] == c.rawVersion && bytes[44] == c.settings.backlight
      && bytes[62] == c.settings.shutdownWait && bytes[63] == c.settings.loggingInterval
      && (c.rawVersion > 0 ==> LookUp(AVERAGING_STEPS, bytes[64]) == Ok(c.settings.averaging))
  {
  }

  /** Decoding the bytes of any configuration with valid settings gives what its layout keeps. */
  lemma FieldsRoundTrip(c: DeviceConfiguration)
    requires c.rawVersion <= 2 && ValidSettings(c.settings)
    ensures DecodeFields(c.rawVersion, Encoded(c)) == Ok(Kept(c))
  {
    hide EncodeFaults, DecodeFaults, OrderedFaults, NoDuplicateFaults;
    hide EncodeScreens, DecodeScreens, OrderedScreens, NoDuplicateScreens;
    hide DecodeLegacyDisplay, DecodeDisplay, DecodeFan, DecodeActions, DecodeThresholds, DecodeName, EncodedByte;
    NameFieldRoundTrip(c);
    ScalarsRoundTrip(c);
    FanRoundTrip(c);
    ThresholdsRoundTrip(c);
    ActionsRoundTrip(c);
    if c.rawVersion < 2 {
      LegacyDisplayRoundTrip(c);
    } else {
      DisplayRoundTrip(c);
    }
  }

  lemma KeptIsValid(c: DeviceConfiguration)
    requires c.rawVersion <= 2 && ValidSettings(c.settings)
    ensures Valid(Kept(c))
  {
    var a := c.settings.faultActions;
    FaultsRoundTrip(a.display);
    FaultsRoundTrip(a.buzzer);
    FaultsRoundTrip(a.softPower);
    FaultsRoundTrip(a.hardPower);
    ScreensRoundTrip(c.settings.display.cycleScreens);
  }

  /** The bytes of any configuration with valid settings decode, and give what the layout keeps. */
  lemma DecodeOfEncoded(c: DeviceConfiguration)
    requires c.rawVersion <= 2 && ValidSettings(c.settings)
    ensures DecodeConfiguration(c.rawVersion, Encoded(c)) == Ok(Kept(c))
  {
    hide DecodeFields, Kept, ValidSettings, ValidForVersion, EncodedByte;
    ScalarsRoundTripVersion(c);
    FieldsRoundTrip(c);
    KeptIsValid(c);
  }

  lemma ScalarsRoundTripVersion(c: DeviceConfiguration)
    requires c.rawVersion <= 2
    ensures Encoded(c)[2] == c.rawVersion
  {
  }

  /** For every version, decoding an encoded configuration only puts its lists in ordinal order. */
  lemma DecodeAfterEncode(c: DeviceConfiguration)
    requires Valid(c)
    ensures DecodeConfiguration(c.rawVersion, Encoded(c)) == Ok(Ordered(c))
    ensures DecodeConfiguration(c.rawVersion, Encoded(c)) == Ok(c) <==> InOrdinalOrder(c)
  {
    DecodeOfEncoded(c);
    OrderIsIdentity(c);
  }

  /** Putting the lists of a valid configuration in order leaves a valid configuration of the same version. */
  lemma OrderedIsReadable(c: DeviceConfiguration)
    requires Valid(c)
    ensures Valid(Ordered(c)) && InOrdinalOrder(Ordered(c)) && Ordered(c).rawVersion == c.rawVersion
    ensures Ordered(c) == c <==> InOrdinalOrder(c)
  {
    hide Valid, Ordered, InOrdinalOrder, DecodeConfiguration, Encoded;
    DecodeAfterEncode(c);
    EncodeAfterDecode(c.rawVersion, Encoded(c));
    OrderIsIdentity(c);
  }

  lemma OrderIsIdentity(c: DeviceConfiguration)
    ensures Ordered(c) == c <==> InOrdinalOrder(c)
    ensures InOrdinalOrder(Ordered(c))
  {
    var a := c.settings.faultActions;
    OrderedFaultsIsIdentity(a.display);
    OrderedFaultsIsIdentity(a.buzzer);
    OrderedFaultsIsIdentity(a.softPower);
    OrderedFaultsIsIdentity(a.hardPower);
    OrderedScreensIsIdentity(c.settings.display.cycleScreens);
  }

  /**
   The version-specific validation is exactly what the layouts need: among configurations with
   valid settings, the bytes give the configuration back, up to list order, if and only if it holds.
   */
  lemma LosslessIffValidForVersion(c: DeviceConfiguration)
    requires c.rawVersion <= 2 && ValidSettings(c.settings)
    ensures DecodeConfiguration(c.rawVersion, Encoded(c)) == Ok(Ordered(c)) <==> ValidForVersion(c)
  {
    DecodeOfEncoded(c);
  }

  /** Whatever bytes decoded, encoding the result and decoding again gives the same configuration. */
  lemma EncodeAfterDecode(rawVersion: byte, bytes: seq<byte>)
    ensures DecodeConfiguration(rawVersion, bytes).Ok? ==>
      var c := DecodeConfiguration(rawVersion, bytes).value;
      Valid(c) && c.rawVersion == rawVersion && DecodeConfiguration(rawVersion, Encoded(c)) == Ok(c)
  {
    hide ValidSettings, ValidForVersion, DecodeFields, InOrdinalOrder;
    if DecodeConfiguration(rawVersion, bytes).Ok? {
      var c := DecodeConfiguration(rawVersion, bytes).value;
      assert c.rawVersion == rawVersion by {
        DecodedVersion(rawVersion, bytes);
      }
      DecodedIsOrdered(rawVersion, bytes);
      DecodeAfterEncode(c);
    }
  }

  lemma DecodedVersion(rawVersion: byte, bytes: seq<byte>)
    ensures DecodeConfiguration(rawVersion, bytes).Ok? ==>
      DecodeConfiguration(rawVersion, bytes).value.rawVersion == rawVersion
  {
    hide ValidSettings, ValidForVersion, DecodeDisplay, DecodeLegacyDisplay, DecodeActions, DecodeFan, DecodeName;
  }

  lemma UnmaskedAscends(mask: nat, n: nat)
    ensures StrictlyAscends(Unmask(mask, n)) && forall x :: x in Unmask(mask, n) ==> x < n
  {
    if n > 0 {
      UnmaskedAscends(mask, n - 1);
      var shorter := Unmask(mask, n - 1);
      assert forall i :: 0 <= i < |shorter| ==> shorter[i] in shorter;
    }
  }

  lemma DecodedListsAscend(mask: nat)
    ensures DecodeFaults(mask).Ok? ==> StrictlyAscends(FaultOrdinals(DecodeFaults(mask).value))
    ensures DecodeScreens(mask).Ok? ==> StrictlyAscends(ScreenOrdinals(DecodeScreens(mask).value))
  {
    hide Unmask;
    var six, five := Unmask(mask, 6), Unmask(mask, 5);
    UnmaskedAscends(mask, 6);
    UnmaskedAscends(mask, 5);
    assert forall i :: 0 <= i < |six| ==> six[i] in six;
    assert forall i :: 0 <= i < |five| ==> five[i] in five;
    assert FaultOrdinals(Mapped(FaultOf, six)) == six;
    assert ScreenOrdinals(Mapped(ScreenOf, five)) == five;
  }

  lemma DecodedIsOrdered(rawVersion: byte, bytes: seq<byte>)
    ensures DecodeConfiguration(rawVersion, bytes).Ok? ==> InOrdinalOrder(DecodeConfiguration(rawVersion, bytes).value)
  {
    hide ValidSettings, ValidForVersion, DecodeFaults, DecodeScreens, DecodeName, DecodeFan, ReadI16, ReadU32, ReadU16;
    if DecodeConfiguration(rawVersion, bytes).Ok? {
      DecodedListsAscend(ReadU16(bytes, 46));
      DecodedListsAscend(ReadU16(bytes, 48));
      DecodedListsAscend(ReadU16(bytes, 50));
      DecodedListsAscend(ReadU16(bytes, 52));
      DecodedListsAscend(bytes[UiOffset(rawVersion) + 5]);
    }
  }
}
