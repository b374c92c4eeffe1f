/**
 The device configuration: its fields, their validation, and the three binary layouts.
 Settings with one decimal place are integers counting tenths.
 */
module Config {
  import opened Domain
  import opened Bytes
  import opened BitMask

  /** What may be asked of the non-volatile memory. */
  datatype NvmOperation = Reload | Store | Reset

  datatype FanMode = Curve | Fixed

  datatype TemperatureSource = Input | Output | External1 | External2 | Maximum

  datatype FaultKind =
    | ChipOverTemperature
    | SensorOverTemperature
    | OverCurrent
    | WireOverCurrent
    | OverPower
    | CurrentImbalance

  datatype ConfigScreen = Main | Simple | Current | Temperature | Status

  datatype TimeoutMode = Static | Cycle | Sleep

  datatype PowerScale = Auto | Watts300 | Watts600

  datatype Background = OrangeBackground | DarkBackground | NoBackground

  datatype FanTheme = OrangeFan | DarkFan | BlackAndWhiteFan

  datatype FanConfiguration = FanConfiguration(
    mode: FanMode, source: TemperatureSource, dutyMin: byte, dutyMax: byte,
    temperatureMin: int, temperatureMax: int)

  datatype FaultActions = FaultActions(
    display: seq<FaultKind>, buzzer: seq<FaultKind>, softPower: seq<FaultKind>, hardPower: seq<FaultKind>)

  datatype FaultThresholds = FaultThresholds(
    temperature: int, totalCurrent: byte, wireCurrent: int, totalPower: u16,
    imbalancePercent: byte, imbalanceMinLoad: byte)

  datatype Colors = Colors(primary: u32, secondary: u32, highlight: u32, background: u32)

  datatype DisplayConfiguration = DisplayConfiguration(
    defaultScreen: ConfigScreen, currentScale: byte, powerScale: PowerScale, rotation: u16,
    timeoutMode: TimeoutMode, cycleScreens: seq<ConfigScreen>, cycleTime: byte, timeout: byte,
    colors: Colors, background: Background, fanTheme: FanTheme, inverted: bool)

  datatype DeviceSettings = DeviceSettings(
    friendlyName: string, backlight: byte, fan: FanConfiguration, faultActions: FaultActions,
    faultThresholds: FaultThresholds, shutdownWait: byte, loggingInterval: byte, averaging: u16,
    display: DisplayConfiguration)

  /** Settings plus the protocol metadata: the layout version (0 to 2) and the device's checksum. */
  datatype DeviceConfiguration = DeviceConfiguration(rawVersion: byte, crc: u16, settings: DeviceSettings)

  // ---- Ordinals and tables --------------------------------------------------------------------------

  function FaultOrdinal(fault: FaultKind): (r: nat)
    ensures r < 6
  {
    match fault
    case ChipOverTemperature => 0
    case SensorOverTemperature => 1
    case OverCurrent => 2
    case WireOverCurrent => 3
    case OverPower => 4
    case CurrentImbalance => 5
  }

  function FaultOf(ordinal: nat): FaultKind {
    match ordinal
    case 0 => ChipOverTemperature
    case 1 => SensorOverTemperature
    case 2 => OverCurrent
    case 3 => WireOverCurrent
    case 4 => OverPower
    case _ => CurrentImbalance
  }

  function ScreenOrdinal(screen: ConfigScreen): (r: nat)
    ensures r < 5
  {
    match screen
    case Main => 0
    case Simple => 1
    case Current => 2
    case Temperature => 3
    case Status => 4
  }

  function ScreenOf(ordinal: nat): ConfigScreen {
    match ordinal
    case 0 => Main
    case 1 => Simple
    case 2 => Current
    case 3 => Temperature
    case _ => Status
  }

  function Mapped<A, B>(f: A -> B, s: seq<A>): (r: seq<B>)
    ensures |r| == |s| && forall i :: 0 <= i < |s| ==> r[i] == f(s[i])
  {
    seq(|s|, i requires 0 <= i < |s| => f(s[i]))
  }

  function FaultOrdinals(faults: seq<FaultKind>): seq<nat> {
    Mapped(FaultOrdinal, faults)
  }

  function ScreenOrdinals(screens: seq<ConfigScreen>): seq<nat> {
    Mapped(ScreenOrdinal, screens)
  }

  function EncodeFaults(faults: seq<FaultKind>): nat {
    MaskOf(FaultOrdinals(faults))
  }

  function DecodeFaults(mask: nat): Result<seq<FaultKind>> {
    if mask > 0x3f then Err(Transport) else Ok(Mapped(FaultOf, Unmask(mask, 6)))
  }

  function EncodeScreens(screens: seq<ConfigScreen>): nat {
    MaskOf(ScreenOrdinals(screens))
  }

  function DecodeScreens(mask: nat): Result<seq<ConfigScreen>> {
    if mask > 0x1f then Err(Transport) else Ok(Mapped(ScreenOf, Unmask(mask, 5)))
  }

  /** The listed kinds, each once, in ordinal order. */
  function OrderedFaults(faults: seq<FaultKind>): seq<FaultKind> {
    Mapped(FaultOf, Ascending(FaultOrdinals(faults), 6))
  }

  function OrderedScreens(screens: seq<ConfigScreen>): seq<ConfigScreen> {
    Mapped(ScreenOf, Ascending(ScreenOrdinals(screens), 5))
  }

  const CURRENT_SCALES: seq<byte> := [5, 10, 15, 20]
  const AVERAGING_STEPS: seq<u16> := [22, 44, 89, 177, 354, 709, 1417]

  function LookUp<T>(table: seq<T>, ordinal: byte): Result<T> {
    if ordinal < |table| then Ok(table[ordinal]) else Err(Transport)
  }

  function EncodeCurrentScale(value: byte): byte {
    match value case 5 => 0 case 10 => 1 case 15 => 2 case _ => 3
  }

  function EncodeAveraging(value: u16): byte {
    match value case 22 => 0 case 44 => 1 case 89 => 2 case 177 => 3 case 354 => 4 case 709 => 5 case _ => 6
  }

  function DecodeFanMode(value: byte): Result<FanMode> {
    match value case 0 => Ok(Curve) case 1 => Ok(Fixed) case _ => Err(Transport)
  }

  function EncodeFanMode(mode: FanMode): byte {
    match mode case Curve => 0 case Fixed => 1
  }

  function DecodeTemperatureSource(value: byte): Result<TemperatureSource> {
    match value
    case 0 => Ok(Input) case 1 => Ok(Output) case 2 => Ok(External1) case 3 => Ok(External2) case 4 => Ok(Maximum)
    case _ => Err(Transport)
  }

  function EncodeTemperatureSource(source: TemperatureSource): byte {
    match source
    case Input => 0 case Output => 1 case External1 => 2 case External2 => 3 case Maximum => 4
  }

  function DecodePowerScale(value: byte): Result<PowerScale> {
    match value case 0 => Ok(Auto) case 1 => Ok(Watts300) case 2 => Ok(Watts600) case _ => Err(Transport)
  }

  function EncodePowerScale(scale: PowerScale): byte {
    match scale case Auto => 0 case Watts300 => 1 case Watts600 => 2
  }

  function DecodeRotation(value: byte): Result<u16> {
    match value case 0 => Ok(0) case 1 => Ok(180) case _ => Err(Transport)
  }

  function EncodeRotation(rotation: u16): byte {
    if rotation == 0 then 0 else 1
  }

  function DecodeTimeoutMode(value: byte): Result<TimeoutMode> {
    match value case 0 => Ok(Static) case 1 => Ok(Cycle) case 2 => Ok(Sleep) case _ => Err(Transport)
  }

  function EncodeTimeoutMode(mode: TimeoutMode): byte {
    match mode case Static => 0 case Cycle => 1 case Sleep => 2
  }

  function DecodeScreen(value: byte): Result<ConfigScreen> {
    if value < 5 then Ok(ScreenOf(value)) else Err(Transport)
  }

  function DecodeBackground(value: byte): Result<Background> {
    match value
    case 1 => Ok(OrangeBackground) case 2 => Ok(DarkBackground) case 255 => Ok(NoBackground)
    case _ => Err(Transport)
  }

  function EncodeBackground(background: Background): byte {
    match background case OrangeBackground => 1 case DarkBackground => 2 case NoBackground => 255
  }

  function DecodeFanTheme(value: byte): Result<FanTheme> {
    match value
    case 100 => Ok(OrangeFan) case 117 => Ok(DarkFan) case 152 => Ok(BlackAndWhiteFan)
    case _ => Err(Transport)
  }

  function EncodeFanTheme(theme: FanTheme): byte {
    match theme case OrangeFan => 100 case DarkFan => 117 case BlackAndWhiteFan => 152
  }

  function DecodeInverted(value: byte): Result<bool> {
    match value case 0 => Ok(false) case 1 => Ok(true) case _ => Err(Transport)
  }

  /** Any legacy byte but 0 and 1 means that no background is shown. */
  function DecodeLegacyTheme(value: byte): Background {
    match value case 0 => OrangeBackground case 1 => DarkBackground case _ => NoBackground
  }

  function EncodeLegacyTheme(background: Background): byte {
    match background case OrangeBackground => 0 case DarkBackground => 1 case NoBackground => 2
  }

  function LegacyFanTheme(background: Background): FanTheme {
    match background
    case OrangeBackground => OrangeFan case DarkBackground => DarkFan case NoBackground => BlackAndWhiteFan
  }

  function LegacyColors(background: Background): Colors {
    match background
    case OrangeBackground => Colors(0xffff_ffff, 0xff64_6464, 0xffe6_4121, 0xff00_0000)
    case DarkBackground => Colors(0xffff_ffff, 0xff64_6464, 0xffbe_bebe, 0xff00_0000)
    case NoBackground => Colors(0xff96_9696, 0xff50_5050, 0xffff_ffff, 0xff00_0000)
  }

  // ---- Validation -----------------------------------------------------------------------------------

  predicate PrintableName(name: string) {
    |name| <= 32 && forall i :: 0 <= i < |name| ==> ' ' <= name[i] <= '~'
  }

  /** The popcount test: as many bits in the list's mask as entries in the list. */
  predicate NoDuplicateFaults(faults: seq<FaultKind>) {
    PopCount(EncodeFaults(faults), 16) == |faults|
  }

  predicate NoDuplicateScreens(screens: seq<ConfigScreen>) {
    PopCount(EncodeScreens(screens), 8) == |screens|
  }

  predicate ValidFan(fan: FanConfiguration) {
    && fan.dutyMin <= fan.dutyMax <= 100
    && 0 <= fan.temperatureMin <= 500 <= fan.temperatureMax <= 1000
  }

  predicate ValidThresholds(t: FaultThresholds) {
    && 0 <= t.temperature <= 1200
    && t.totalCurrent <= 150
    && 0 <= t.wireCurrent <= 255
    && t.totalPower <= 2000
    && t.imbalancePercent <= 100
    && t.imbalanceMinLoad <= 10
  }

  predicate ValidActions(actions: FaultActions) {
    && NoDuplicateFaults(actions.display) && NoDuplicateFaults(actions.buzzer)
    && NoDuplicateFaults(actions.softPower) && NoDuplicateFaults(actions.hardPower)
  }

  predicate ValidSettings(s: DeviceSettings) {
    && PrintableName(s.friendlyName)
    && s.backlight <= 100
    && ValidFan(s.fan)
    && ValidThresholds(s.faultThresholds)
    && ValidActions(s.faultActions)
    && s.display.currentScale in {5, 10, 15, 20}
    && s.display.rotation in {0, 180}
    && NoDuplicateScreens(s.display.cycleScreens)
    && s.averaging in {22, 44, 89, 177, 354, 709, 1417}
  }

  /** What the two older layouts cannot store must hold the value they imply. */
  predicate ValidForVersion(c: DeviceConfiguration) {
    var display := c.settings.display;
    && (c.rawVersion == 0 ==> c.settings.averaging == 1417)
    && (c.rawVersion < 2 ==>
      && display.defaultScreen == Main
      && !display.inverted
      && display.fanTheme == LegacyFanTheme(display.background)
      && display.colors == LegacyColors(display.background))
  }

  predicate Valid(c: DeviceConfiguration) {
    c.rawVersion <= 2 && ValidSettings(c.settings) && ValidForVersion(c)
  }

  function Validate(c: DeviceConfiguration): Result<()> {
    if Valid(c) then Ok(()) else Err(InvalidArgument)
  }

  function ConfigurationSize(rawVersion: byte): Result<nat> {
    match rawVersion
    case 0 => Ok(72)
    case 1 => Ok(74)
    case 2 => Ok(96)
    case _ => Err(Unsupported("configuration version"))
  }

  // ---- Decoding -------------------------------------------------------------------------------------

  function ReadI16(bytes: seq<byte>, offset: nat): int
    requires offset + 2 <= |bytes|
  {
    var value := ReadU16(bytes, offset);
    if value < 0x8000 then value else value - 0x1_0000
  }

  /** The characters before the first NUL. */
  function DecodeName(bytes: seq<byte>): Result<string> {
    if bytes == [] || bytes[0] == 0 then Ok("")
    else if bytes[0] >= 128 then Err(Transport)
    else
      var rest :- DecodeName(bytes[1..]);
      Ok([bytes[0] as char] + rest)
  }

  function UiOffset(rawVersion: byte): nat {
    match rawVersion case 0 => 64 case 1 => 65 case _ => 68
  }

  function DecodeLegacyDisplay(bytes: seq<byte>, ui: nat): Result<DisplayConfiguration>
    requires ui + 8 <= |bytes|
  {
    var background := DecodeLegacyTheme(bytes[ui + 2]);
    var currentScale :- LookUp(CURRENT_SCALES, bytes[ui]);
    var powerScale :- DecodePowerScale(bytes[ui + 1]);
    var rotation :- DecodeRotation(bytes[ui + 3]);
    var timeoutMode :- DecodeTimeoutMode(bytes[ui + 4]);
    var cycleScreens :- DecodeScreens(bytes[ui + 5]);
    Ok(DisplayConfiguration(
      Main, currentScale, powerScale, rotation, timeoutMode, cycleScreens, bytes[ui + 6], bytes[ui + 7],
      LegacyColors(background), background, LegacyFanTheme(background), false))
  }

  function DecodeDisplay(bytes: seq<byte>, ui: nat): Result<DisplayConfiguration>
    requires ui + 27 <= |bytes|
  {
    var defaultScreen :- DecodeScreen(bytes[ui]);
    var currentScale :- LookUp(CURRENT_SCALES, bytes[ui + 1]);
    var powerScale :- DecodePowerScale(bytes[ui + 2]);
    var rotation :- DecodeRotation(bytes[ui + 3]);
    var timeoutMode :- DecodeTimeoutMode(bytes[ui + 4]);
    var cycleScreens :- DecodeScreens(bytes[ui + 5]);
    var background :- DecodeBackground(bytes[ui + 24]);
    var fanTheme :- DecodeFanTheme(bytes[ui + 25]);
    var inverted :- DecodeInverted(bytes[ui + 26]);
    Ok(DisplayConfiguration(
      defaultScreen, currentScale, powerScale, rotation, timeoutMode, cycleScreens, bytes[ui + 6], bytes[ui + 7],
      Colors(ReadU32(bytes, ui + 8), ReadU32(bytes, ui + 12), ReadU32(bytes, ui + 16), ReadU32(bytes, ui + 20)),
      background, fanTheme, inverted))
  }

  function DecodeFan(bytes: seq<byte>): Result<FanConfiguration>
    requires |bytes| >= 64
  {
    var mode :- DecodeFanMode(bytes[36]);
    var source :- DecodeTemperatureSource(bytes[37]);
    Ok(FanConfiguration(mode, source, bytes[38], bytes[39], ReadI16(bytes, 40), ReadI16(bytes, 42)))
  }

  function DecodeActions(bytes: seq<byte>): Result<FaultActions>
    requires |bytes| >= 64
  {
    var display :- DecodeFaults(ReadU16(bytes, 46));
    var buzzer :- DecodeFaults(ReadU16(bytes, 48));
    var softPower :- DecodeFaults(ReadU16(bytes, 50));
    var hardPower :- DecodeFaults(ReadU16(bytes, 52));
    Ok(FaultActions(display, buzzer, softPower, hardPower))
  }

  function DecodeThresholds(bytes: seq<byte>): FaultThresholds
    requires |bytes| >= 64
  {
    FaultThresholds(ReadI16(bytes, 54), bytes[56], bytes[57], ReadU16(bytes, 58), bytes[60], bytes[61])
  }

  /** All fields, before the whole is validated. */
  function DecodeFields(rawVersion: byte, bytes: seq<byte>): Result<DeviceConfiguration>
    requires rawVersion <= 2 && ConfigurationSize(rawVersion) == Ok(|bytes|)
  {
    var ui := UiOffset(rawVersion);
    var display :- if rawVersion < 2 then DecodeLegacyDisplay(bytes, ui) else DecodeDisplay(bytes, ui);
    var averaging :- if rawVersion == 0 then Ok(1417) else LookUp(AVERAGING_STEPS, bytes[64]);
    var name :- DecodeName(bytes[3..35]);
    var fan :- DecodeFan(bytes);
    var actions :- DecodeActions(bytes);
    Ok(DeviceConfiguration(rawVersion, ReadU16(bytes, 0),
      DeviceSettings(name, bytes[44], fan, actions, DecodeThresholds(bytes), bytes[62], bytes[63], averaging, display)))
  }

  function DecodeConfiguration(rawVersion: byte, bytes: seq<byte>): Result<DeviceConfiguration> {
    var expected :- ConfigurationSize(rawVersion);
    if |bytes| != expected || bytes[2] != rawVersion then Err(Transport)
    else
      var config :- DecodeFields(rawVersion, bytes);
      var _ :- Validate(config);
      Ok(config)
  }
}
