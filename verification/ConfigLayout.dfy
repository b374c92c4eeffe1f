/**
 The three binary layouts of a configuration, position by position and code by code, as the device
 defines them. What is decoded and what is encoded are proved to be exactly what the positions hold.
 */
module ConfigLayout {
  import opened Domain
  import opened Bytes
  import opened BitMask
  import opened Config
  import opened ConfigCodec

  // ---- Numbers --------------------------------------------------------------------------------------

  /** Two and four bytes, lowest first. */
  function Word(b: seq<int>, at: nat): int
    requires at + 2 <= |b|
  {
    b[at] + 0x100 * b[at + 1]
  }

  function LongWord(b: seq<int>, at: nat): int
    requires at + 4 <= |b|
  {
    b[at] + 0x100 * b[at + 1] + 0x1_0000 * b[at + 2] + 0x100_0000 * b[at + 3]
  }

  // ---- Codes ----------------------------------------------------------------------------------------

  predicate FanModeCode(mode: FanMode, code: int) {
    match mode
    case Curve => code == 0
    case Fixed => code == 1
  }

  predicate SourceCode(source: TemperatureSource, code: int) {
    match source
    case Input => code == 0
    case Output => code == 1
    case External1 => code == 2
    case External2 => code == 3
    case Maximum => code == 4
  }

  predicate CurrentScaleCode(amperes: int, code: int) {
    (amperes, code) in {(5, 0), (10, 1), (15, 2), (20, 3)}
  }

  predicate PowerScaleCode(scale: PowerScale, code: int) {
    match scale
    case Auto => code == 0
    case Watts300 => code == 1
    case Watts600 => code == 2
  }

  predicate RotationCode(degrees: int, code: int) {
    (degrees, code) in {(0, 0), (180, 1)}
  }

  predicate TimeoutModeCode(mode: TimeoutMode, code: int) {
    match mode
    case Static => code == 0
    case Cycle => code == 1
    case Sleep => code == 2
  }

  predicate ScreenCode(screen: ConfigScreen, code: int) {
    match screen
    case Main => code == 0
    case Simple => code == 1
    case Current => code == 2
    case Temperature => code == 3
    case Status => code == 4
  }

  predicate BackgroundCode(background: Background, code: int) {
    match background
    case OrangeBackground => code == 1
    case DarkBackground => code == 2
    case NoBackground => code == 255
  }

  predicate FanThemeCode(theme: FanTheme, code: int) {
    match theme
    case OrangeFan => code == 100
    case DarkFan => code == 117
    case BlackAndWhiteFan => code == 152
  }

  predicate AveragingCode(milliseconds: int, code: int) {
    (milliseconds, code) in {(22, 0), (44, 1), (89, 2), (177, 3), (354, 4), (709, 5), (1417, 6)}
  }

  /** One bit for each kind of fault in the list. */
  predicate FaultBits(faults: seq<FaultKind>, mask: int) {
    && 0 <= mask < 64
    && (ChipOverTemperature in faults <==> mask % 2 == 1)
    && (SensorOverTemperature in faults <==> mask / 2 % 2 == 1)
    && (OverCurrent in faults <==> mask / 4 % 2 == 1)
    && (WireOverCurrent in faults <==> mask / 8 % 2 == 1)
    && (OverPower in faults <==> mask / 16 % 2 == 1)
    && (CurrentImbalance in faults <==> mask / 32 % 2 == 1)
  }

  predicate ScreenBits(screens: seq<ConfigScreen>, mask: int) {
    && 0 <= mask < 32
    && (Main in screens <==> mask % 2 == 1)
    && (Simple in screens <==> mask / 2 % 2 == 1)
    && (Current in screens <==> mask / 4 % 2 == 1)
    && (Temperature in screens <==> mask / 8 % 2 == 1)
    && (Status in screens <==> mask / 16 % 2 == 1)
  }

  /** An older layout's theme byte stands for a background, a fan theme and four colors. */
  predicate LegacyTheme(d: DisplayConfiguration, code: int) {
    match d.background
    case OrangeBackground =>
      code == 0 && d.fanTheme == OrangeFan && d.colors == Colors(0xffff_ffff, 0xff64_6464, 0xffe6_4121, 0xff00_0000)
    case DarkBackground =>
      code == 1 && d.fanTheme == DarkFan && d.colors == Colors(0xffff_ffff, 0xff64_6464, 0xffbe_bebe, 0xff00_0000)
    case NoBackground =>
      && code >= 2 && d.fanTheme == BlackAndWhiteFan
      && d.colors == Colors(0xff96_9696, 0xff50_5050, 0xffff_ffff, 0xff00_0000)
  }

  // ---- Positions ------------------------------------------------------------------------------------

  /** The name in bytes 3 to 34, ended by a zero unless it fills them. */
  predicate NameAt(name: string, b: seq<int>)
    requires |b| >= 64
  {
    && |name| <= 32
    && (forall i :: 0 <= i < |name| ==> b[3 + i] == name[i] as int)
    && (|name| < 32 ==> b[3 + |name|] == 0)
  }

  predicate FanAt(fan: FanConfiguration, b: seq<int>)
    requires |b| >= 64
  {
    && FanModeCode(fan.mode, b[36]) && SourceCode(fan.source, b[37])
    && fan.dutyMin == b[38] && fan.dutyMax == b[39]
    && fan.temperatureMin == Word(b, 40) && fan.temperatureMax == Word(b, 42)
  }

  predicate ActionsAt(actions: FaultActions, b: seq<int>)
    requires |b| >= 64
  {
    && FaultBits(actions.display, Word(b, 46)) && FaultBits(actions.buzzer, Word(b, 48))
    && FaultBits(actions.softPower, Word(b, 50)) && FaultBits(actions.hardPower, Word(b, 52))
  }

  predicate ThresholdsAt(t: FaultThresholds, b: seq<int>)
    requires |b| >= 64
  {
    && t.temperature == Word(b, 54) && t.totalCurrent == b[56] && t.wireCurrent == b[57]
    && t.totalPower == Word(b, 58) && t.imbalancePercent == b[60] && t.imbalanceMinLoad == b[61]
  }

  /** What the two older layouts hold of the display, from byte `ui` on, and what they imply. */
  predicate LegacyDisplayAt(d: DisplayConfiguration, b: seq<int>, ui: nat)
    requires |b| >= ui + 8
  {
    && CurrentScaleCode(d.currentScale, b[ui]) && PowerScaleCode(d.powerScale, b[ui + 1])
    && LegacyTheme(d, b[ui + 2]) && RotationCode(d.rotation, b[ui + 3])
    && TimeoutModeCode(d.timeoutMode, b[ui + 4]) && ScreenBits(d.cycleScreens, b[ui + 5])
    && d.cycleTime == b[ui + 6] && d.timeout == b[ui + 7]
    && d.defaultScreen == Main && !d.inverted
  }

  predicate DisplayAt(d: DisplayConfiguration, b: seq<int>)
    requires |b| == 96
  {
    && ScreenCode(d.defaultScreen, b[68]) && CurrentScaleCode(d.currentScale, b[69])
    && PowerScaleCode(d.powerScale, b[70]) && RotationCode(d.rotation, b[71])
    && TimeoutModeCode(d.timeoutMode, b[72]) && ScreenBits(d.cycleScreens, b[73])
    && d.cycleTime == b[74] && d.timeout == b[75]
    && d.colors.primary == LongWord(b, 76) && d.colors.secondary == LongWord(b, 80)
    && d.colors.highlight == LongWord(b, 84) && d.colors.background == LongWord(b, 88)
    && BackgroundCode(d.background, b[92]) && FanThemeCode(d.fanTheme, b[93])
    && b[94] == if d.inverted then 1 else 0
  }

  /** Where a configuration's fields lie in its layout's bytes. */
  predicate FieldsAt(c: DeviceConfiguration, b: seq<int>) {
    && |b| == (if c.rawVersion == 0 then 72 else if c.rawVersion == 1 then 74 else 96)
    && c.crc == Word(b, 0) && c.rawVersion == b[2]
    && NameAt(c.settings.friendlyName, b)
    && FanAt(c.settings.fan, b) && c.settings.backlight == b[44]
    && ActionsAt(c.settings.faultActions, b) && ThresholdsAt(c.settings.faultThresholds, b)
    && c.settings.shutdownWait == b[62] && c.settings.loggingInterval == b[63]
    && match c.rawVersion
       case 0 => c.settings.averaging == 1417 && LegacyDisplayAt(c.settings.display, b, 64)
       case 1 => AveragingCode(c.settings.averaging, b[64]) && LegacyDisplayAt(c.settings.display, b, 65)
       case _ => AveragingCode(c.settings.averaging, b[64]) && DisplayAt(c.settings.display, b)
  }

  /** What encoding puts where no field lies: zeros, and for no background the smallest theme byte. */
  predicate Blank(c: DeviceConfiguration, b: seq<int>)
    requires FieldsAt(c, b)
  {
    && (forall i :: 3 + |c.settings.friendlyName| <= i <= 35 ==> b[i] == 0) && b[45] == 0
    && match c.rawVersion
       case 0 => b[66] <= 2
       case 1 => b[67] <= 2 && b[73] == 0
       case _ => b[65] == b[66] == b[67] == b[95] == 0
  }

  // ---- Decoding reads the positions -----------------------------------------------------------------

  lemma {:induction false} NameReads(b: seq<byte>, name: string)
    requires forall i :: 0 <= i < |name| ==> ' ' <= name[i] <= '~'
    ensures DecodeName(b) == Ok(name) <==>
      && |name| <= |b| && (forall i :: 0 <= i < |name| ==> b[i] == name[i] as int)
      && (|name| < |b| ==> b[|name|] == 0)
  {
    if b != [] && b[0] != 0 && b[0] < 128 && name != [] {
      NameReads(b[1..], name[1..]);
      assert name == [name[0]] + name[1..];
      assert forall i :: 0 < i < |name| ==> name[i] == name[1..][i - 1];
      assert forall i :: 0 < i < |b| ==> b[i] == b[1..][i - 1];
    }
  }

  lemma {:induction false} UnmaskMembers(mask: nat, n: nat, x: nat)
    ensures x in Unmask(mask, n) <==> x < n && Bit(mask, x)
  {
    if n > 0 {
      UnmaskMembers(mask, n - 1, x);
    }
  }

  /** The bits of a small mask, by division. */
  lemma SmallBits(mask: nat)
    ensures Bit(mask, 0) <==> mask % 2 == 1
    ensures Bit(mask, 1) <==> mask / 2 % 2 == 1
    ensures Bit(mask, 2) <==> mask / 4 % 2 == 1
    ensures Bit(mask, 3) <==> mask / 8 % 2 == 1
    ensures Bit(mask, 4) <==> mask / 16 % 2 == 1
    ensures Bit(mask, 5) <==> mask / 32 % 2 == 1
  {
    var a, b, c, d, e := mask / 2, mask / 4, mask / 8, mask / 16, mask / 32;
    assert a / 2 == b && b / 2 == c && c / 2 == d && d / 2 == e;
    assert Bit(mask, 1) == Bit(a, 0);
    assert Bit(mask, 2) == Bit(a, 1) == Bit(b, 0);
    assert Bit(mask, 3) == Bit(a, 2) == Bit(b, 1) == Bit(c, 0);
    assert Bit(mask, 4) == Bit(a, 3) == Bit(b, 2) == Bit(c, 1) == Bit(d, 0);
    assert Bit(mask, 5) == Bit(a, 4) == Bit(b, 3) == Bit(c, 2) == Bit(d, 1) == Bit(e, 0);
  }

  lemma {:induction false} UnmaskAgrees(mask: nat, ordinals: seq<nat>, n: nat)
    requires forall x :: 0 <= x < n ==> (Bit(mask, x) <==> x in ordinals)
    ensures Unmask(mask, n) == Ascending(ordinals, n)
  {
    if n > 0 {
      UnmaskAgrees(mask, ordinals, n - 1);
    }
  }

  /** A mask decodes to a list in ascending order exactly if its bits are the list's ordinals. */
  lemma AscendingReads(mask: nat, ordinals: seq<nat>, n: nat)
    requires StrictlyAscends(ordinals) && forall x :: x in ordinals ==> x < n
    ensures Unmask(mask, n) == ordinals <==> forall x :: 0 <= x < n ==> (Bit(mask, x) <==> x in ordinals)
  {
    if forall x :: 0 <= x < n ==> (Bit(mask, x) <==> x in ordinals) {
      UnmaskAgrees(mask, ordinals, n);
      AscendingIsIdentity(ordinals, n);
    } else {
      var x :| 0 <= x < n && !(Bit(mask, x) <==> x in ordinals);
      UnmaskMembers(mask, n, x);
    }
  }

  lemma FaultMembers(faults: seq<FaultKind>, fault: FaultKind)
    ensures fault in faults <==> FaultOrdinal(fault) in FaultOrdinals(faults)
  {
    assert forall f :: FaultOf(FaultOrdinal(f)) == f;
    if fault in faults {
      var i :| 0 <= i < |faults| && faults[i] == fault;
      assert FaultOrdinals(faults)[i] == FaultOrdinal(fault);
    }
  }

  lemma ScreenMembers(screens: seq<ConfigScreen>, screen: ConfigScreen)
    ensures screen in screens <==> ScreenOrdinal(screen) in ScreenOrdinals(screens)
  {
    assert forall s :: ScreenOf(ScreenOrdinal(s)) == s;
    if screen in screens {
      var i :| 0 <= i < |screens| && screens[i] == screen;
      assert ScreenOrdinals(screens)[i] == ScreenOrdinal(screen);
    }
  }

  /** The six bits are the six kinds of fault. */
  lemma FaultBitsAreOrdinals(faults: seq<FaultKind>, mask: nat)
    ensures FaultBits(faults, mask)
       <==> mask < 64 && forall x :: 0 <= x < 6 ==> (Bit(mask, x) <==> x in FaultOrdinals(faults))
  {
    hide Bit, FaultOrdinals;
    SmallBits(mask);
    FaultMembers(faults, ChipOverTemperature);
    FaultMembers(faults, SensorOverTemperature);
    FaultMembers(faults, OverCurrent);
    FaultMembers(faults, WireOverCurrent);
    FaultMembers(faults, OverPower);
    FaultMembers(faults, CurrentImbalance);
  }

  lemma ScreenBitsAreOrdinals(screens: seq<ConfigScreen>, mask: nat)
    ensures ScreenBits(screens, mask)
       <==> mask < 32 && forall x :: 0 <= x < 5 ==> (Bit(mask, x) <==> x in ScreenOrdinals(screens))
  {
    hide Bit, ScreenOrdinals;
    SmallBits(mask);
    ScreenMembers(screens, Main);
    ScreenMembers(screens, Simple);
    ScreenMembers(screens, Current);
    ScreenMembers(screens, Temperature);
    ScreenMembers(screens, Status);
  }

  lemma FaultsRead(faults: seq<FaultKind>, mask: nat)
    requires StrictlyAscends(FaultOrdinals(faults))
    ensures DecodeFaults(mask) == Ok(faults) <==> FaultBits(faults, mask)
  {
    hide FaultBits, Unmask;
    FaultBitsAreOrdinals(faults, mask);
    AscendingReads(mask, FaultOrdinals(faults), 6);
    MappedFaults(Unmask(mask, 6), faults, mask);
  }

  lemma MappedFaults(ordinals: seq<nat>, faults: seq<FaultKind>, mask: nat)
    requires ordinals == Unmask(mask, 6)
    ensures Mapped(FaultOf, ordinals) == faults <==> ordinals == FaultOrdinals(faults)
  {
    UnmaskedAscends(mask, 6);
    assert forall f :: FaultOf(FaultOrdinal(f)) == f;
    assert forall i :: 0 <= i < |ordinals| ==> ordinals[i] in ordinals;
    assert forall i :: 0 <= i < |ordinals| ==> FaultOrdinal(FaultOf(ordinals[i])) == ordinals[i];
    if Mapped(FaultOf, ordinals) == faults {
      assert |ordinals| == |faults|;
    }
    if ordinals == FaultOrdinals(faults) {
      assert forall i :: 0 <= i < |faults| ==> ordinals[i] == FaultOrdinal(faults[i]);
    }
  }

  lemma ScreensRead(screens: seq<ConfigScreen>, mask: nat)
    requires StrictlyAscends(ScreenOrdinals(screens))
    ensures DecodeScreens(mask) == Ok(screens) <==> ScreenBits(screens, mask)
  {
    hide ScreenBits, Unmask;
    ScreenBitsAreOrdinals(screens, mask);
    AscendingReads(mask, ScreenOrdinals(screens), 5);
    MappedScreens(Unmask(mask, 5), screens, mask);
  }

  lemma MappedScreens(ordinals: seq<nat>, screens: seq<ConfigScreen>, mask: nat)
    requires ordinals == Unmask(mask, 5)
    ensures Mapped(ScreenOf, ordinals) == screens <==> ordinals == ScreenOrdinals(screens)
  {
    UnmaskedAscends(mask, 5);
    assert forall s :: ScreenOf(ScreenOrdinal(s)) == s;
    assert forall i :: 0 <= i < |ordinals| ==> ordinals[i] in ordinals;
    assert forall i :: 0 <= i < |ordinals| ==> ScreenOrdinal(ScreenOf(ordinals[i])) == ordinals[i];
    if Mapped(ScreenOf, ordinals) == screens {
      assert |ordinals| == |screens|;
    }
    if ordinals == ScreenOrdinals(screens) {
      assert forall i :: 0 <= i < |screens| ==> ordinals[i] == ScreenOrdinal(screens[i]);
    }
  }

  // ---- Field groups ---------------------------------------------------------------------------------

  lemma FanReads(b: seq<byte>, fan: FanConfiguration)
    requires |b| >= 64 && ValidFan(fan)
    ensures DecodeFan(b) == Ok(fan) <==> FanAt(fan, b)
  {
  }

  lemma ThresholdsRead(b: seq<byte>, t: FaultThresholds)
    requires |b| >= 64 && ValidThresholds(t)
    ensures DecodeThresholds(b) == t <==> ThresholdsAt(t, b)
  {
  }

  lemma ActionsRead(b: seq<byte>, actions: FaultActions)
    requires |b| >= 64
    requires StrictlyAscends(FaultOrdinals(actions.display)) && StrictlyAscends(FaultOrdinals(actions.buzzer))
    requires StrictlyAscends(FaultOrdinals(actions.softPower)) && StrictlyAscends(FaultOrdinals(actions.hardPower))
    ensures DecodeActions(b) == Ok(actions) <==> ActionsAt(actions, b)
  {
    hide DecodeFaults, FaultBits, StrictlyAscends, FaultOrdinals;
    FaultsRead(actions.display, ReadU16(b, 46));
    FaultsRead(actions.buzzer, ReadU16(b, 48));
    FaultsRead(actions.softPower, ReadU16(b, 50));
    FaultsRead(actions.hardPower, ReadU16(b, 52));
  }

  /** The codes are what the tables decode. */
  lemma CodesRead(d: DisplayConfiguration, code: byte)
    ensures DecodeScreen(code) == Ok(d.defaultScreen) <==> ScreenCode(d.defaultScreen, code)
    ensures LookUp(CURRENT_SCALES, code) == Ok(d.currentScale) <==> CurrentScaleCode(d.currentScale, code)
    ensures DecodePowerScale(code) == Ok(d.powerScale) <==> PowerScaleCode(d.powerScale, code)
    ensures DecodeRotation(code) == Ok(d.rotation) <==> RotationCode(d.rotation, code)
    ensures DecodeTimeoutMode(code) == Ok(d.timeoutMode) <==> TimeoutModeCode(d.timeoutMode, code)
    ensures DecodeBackground(code) == Ok(d.background) <==> BackgroundCode(d.background, code)
    ensures DecodeFanTheme(code) == Ok(d.fanTheme) <==> FanThemeCode(d.fanTheme, code)
    ensures DecodeInverted(code) == Ok(d.inverted) <==> code == if d.inverted then 1 else 0
    ensures LegacyTheme(d, code) <==>
      && DecodeLegacyTheme(code) == d.background && LegacyFanTheme(d.background) == d.fanTheme
      && LegacyColors(d.background) == d.colors
  {
  }

  lemma LegacyDisplayReads(b: seq<byte>, ui: nat, d: DisplayConfiguration)
    requires ui + 8 <= |b| && StrictlyAscends(ScreenOrdinals(d.cycleScreens))
    ensures DecodeLegacyDisplay(b, ui) == Ok(d) <==> LegacyDisplayAt(d, b, ui)
  {
    hide LookUp, DecodePowerScale, DecodeRotation, DecodeTimeoutMode, DecodeScreens, DecodeLegacyTheme, LegacyFanTheme,
      LegacyColors, CurrentScaleCode, PowerScaleCode, RotationCode, TimeoutModeCode, ScreenBits, LegacyTheme,
      StrictlyAscends, ScreenOrdinals;
    CodesRead(d, b[ui]);
    CodesRead(d, b[ui + 1]);
    CodesRead(d, b[ui + 2]);
    CodesRead(d, b[ui + 3]);
    CodesRead(d, b[ui + 4]);
    ScreensRead(d.cycleScreens, b[ui + 5]);
  }

  lemma ColorReads(b: seq<byte>, at: nat)
    requires at + 4 <= |b|
    ensures ReadU32(b, at) == LongWord(b, at)
  {
  }

  lemma DisplayReads(b: seq<byte>, d: DisplayConfiguration)
    requires |b| == 96 && StrictlyAscends(ScreenOrdinals(d.cycleScreens))
    ensures DecodeDisplay(b, 68) == Ok(d) <==> DisplayAt(d, b)
  {
    hide LookUp, DecodeScreen, DecodePowerScale, DecodeRotation, DecodeTimeoutMode, DecodeScreens, DecodeBackground,
      DecodeFanTheme, DecodeInverted, ScreenCode, CurrentScaleCode, PowerScaleCode, RotationCode, TimeoutModeCode,
      ScreenBits, BackgroundCode, FanThemeCode, ReadU32, LongWord, StrictlyAscends, ScreenOrdinals;
    CodesRead(d, b[68]);
    CodesRead(d, b[69]);
    CodesRead(d, b[70]);
    CodesRead(d, b[71]);
    CodesRead(d, b[72]);
    ScreensRead(d.cycleScreens, b[73]);
    ColorReads(b, 76);
    ColorReads(b, 80);
    ColorReads(b, 84);
    ColorReads(b, 88);
    CodesRead(d, b[92]);
    CodesRead(d, b[93]);
    CodesRead(d, b[94]);
  }

  // ---- The whole layouts ----------------------------------------------------------------------------

  lemma NameFieldReads(b: seq<byte>, name: string)
    requires |b| >= 64 && PrintableName(name)
    ensures DecodeName(b[3..35]) == Ok(name) <==> NameAt(name, b)
  {
    NameReads(b[3..35], name);
    assert forall i :: 0 <= i < 32 ==> b[3..35][i] == b[3 + i];
  }

  lemma FieldsRead(c: DeviceConfiguration, b: seq<byte>)
    requires Valid(c) && InOrdinalOrder(c) && ConfigurationSize(c.rawVersion) == Ok(|b|)
    ensures b[2] == c.rawVersion && DecodeFields(c.rawVersion, b) == Ok(c) <==> FieldsAt(c, b)
  {
    hide NameAt, FanAt, ActionsAt, ThresholdsAt, LegacyDisplayAt, DisplayAt, DecodeName, DecodeFan, DecodeActions,
      DecodeThresholds, DecodeLegacyDisplay, DecodeDisplay, StrictlyAscends, NoDuplicateFaults, NoDuplicateScreens,
      FaultOrdinals, ScreenOrdinals;
    NameFieldReads(b, c.settings.friendlyName);
    FanReads(b, c.settings.fan);
    ActionsRead(b, c.settings.faultActions);
    ThresholdsRead(b, c.settings.faultThresholds);
    if c.rawVersion < 2 {
      LegacyDisplayReads(b, if c.rawVersion == 0 then 64 else 65, c.settings.display);
    } else {
      DisplayReads(b, c.settings.display);
    }
  }

  /**
   Decoding gives a configuration exactly if it is valid, has its lists in ordinal order, and its fields
   lie in the bytes where the layout of that version puts them.
   */
  lemma DecodingIff(rawVersion: byte, b: seq<byte>, c: DeviceConfiguration)
    ensures DecodeConfiguration(rawVersion, b) == Ok(c)
       <==> c.rawVersion == rawVersion && Valid(c) && InOrdinalOrder(c) && FieldsAt(c, b)
  {
    hide DecodeFields, FieldsAt, InOrdinalOrder, ValidSettings, ValidForVersion;
    if DecodeConfiguration(rawVersion, b) == Ok(c) {
      DecodedVersion(rawVersion, b);
      DecodedIsOrdered(rawVersion, b);
      FieldsRead(c, b);
    } else if c.rawVersion == rawVersion && Valid(c) && InOrdinalOrder(c) && FieldsAt(c, b) {
      FieldsHaveSize(c, b);
      FieldsRead(c, b);
    }
  }

  lemma FieldsHaveSize(c: DeviceConfiguration, b: seq<byte>)
    requires FieldsAt(c, b) && c.rawVersion <= 2
    ensures ConfigurationSize(c.rawVersion) == Ok(|b|)
  {
  }

  lemma OrderKeepsMembers(c: DeviceConfiguration, b: seq<byte>)
    requires FieldsAt(Ordered(c), b)
    ensures FieldsAt(c, b)
  {
    hide NameAt, FanAt, ThresholdsAt;
    var a := c.settings.faultActions;
    OrderedMembers(a.display, c.settings.display.cycleScreens);
    OrderedMembers(a.buzzer, []);
    OrderedMembers(a.softPower, []);
    OrderedMembers(a.hardPower, []);
  }

  lemma OrderedMembers(faults: seq<FaultKind>, screens: seq<ConfigScreen>)
    ensures forall f :: f in OrderedFaults(faults) <==> f in faults
    ensures forall s :: s in OrderedScreens(screens) <==> s in screens
  {
    var sorted, sortedScreens := OrderedFaults(faults), OrderedScreens(screens);
    var six, five := Ascending(FaultOrdinals(faults), 6), Ascending(ScreenOrdinals(screens), 5);
    AscendingMembers(FaultOrdinals(faults), 6);
    AscendingMembers(ScreenOrdinals(screens), 5);
    forall f: FaultKind ensures f in sorted <==> f in faults {
      FaultMembers(sorted, f);
      FaultMembers(faults, f);
      assert forall i :: 0 <= i < |six| ==> six[i] in six;
      assert FaultOrdinals(sorted) == six;
    }
    forall s: ConfigScreen ensures s in sortedScreens <==> s in screens {
      ScreenMembers(sortedScreens, s);
      ScreenMembers(screens, s);
      assert forall i :: 0 <= i < |five| ==> five[i] in five;
      assert ScreenOrdinals(sortedScreens) == five;
    }
  }

  /** What the encoder leaves at zero. */
  lemma EncodedZeros(c: DeviceConfiguration)
    requires c.rawVersion <= 2
    ensures
      var b := Encoded(c);
      && |b| > 45 && (forall i :: 3 + |c.settings.friendlyName| <= i <= 35 ==> b[i] == 0) && b[45] == 0
      && match c.rawVersion
         case 0 => true
         case 1 => |b| > 73 && b[73] == 0
         case _ => |b| > 95 && b[65] == b[66] == b[67] == b[95] == 0
  {
    hide EncodeFaults, EncodeScreens, WordByte;
  }

  /** A theme is encoded by its ordinal in the older layouts. */
  lemma EncodedTheme(c: DeviceConfiguration)
    requires Valid(c)
    ensures c.rawVersion == 0 ==> Encoded(c)[66] <= 2
    ensures c.rawVersion == 1 ==> Encoded(c)[67] <= 2
  {
  }

  /** The bytes of a valid configuration hold its fields where the layout puts them, and nothing else. */
  lemma EncodedFields(c: DeviceConfiguration)
    requires Valid(c)
    ensures FieldsAt(c, Encoded(c)) && Blank(c, Encoded(c))
  {
    assert c.rawVersion <= 2;
    hide Valid, Encoded, Ordered, DecodeConfiguration, FieldsAt, InOrdinalOrder;
    DecodeAfterEncode(c);
    OrderedIsReadable(c);
    DecodingIff(c.rawVersion, Encoded(c), Ordered(c));
    OrderKeepsMembers(c, Encoded(c));
    EncodedZeros(c);
    EncodedTheme(c);
  }

  // ---- One layout, one string of bytes --------------------------------------------------------------

  lemma SameName(name: string, a: seq<byte>, b: seq<byte>, i: nat)
    requires |a| >= 64 && |b| >= 64 && NameAt(name, a) && NameAt(name, b) && 3 <= i < 36
    requires forall k :: 3 + |name| <= k <= 35 ==> a[k] == b[k] == 0
    ensures a[i] == b[i]
  {
    if i < 3 + |name| {
      assert a[3 + (i - 3)] == name[i - 3] as int == b[3 + (i - 3)];
    }
  }

  /** Two bytes, and two masks of six bits in them, are fixed by the numbers they make. */
  lemma SameWord(a: seq<byte>, b: seq<byte>, at: nat)
    requires at + 2 <= |a| && at + 2 <= |b| && Word(a, at) == Word(b, at)
    ensures a[at] == b[at] && a[at + 1] == b[at + 1]
  {
  }

  lemma TwoWords(b: seq<byte>, at: nat)
    requires at + 4 <= |b|
    ensures LongWord(b, at) == Word(b, at) + 0x1_0000 * Word(b, at + 2)
    ensures 0 <= Word(b, at) < 0x1_0000 && 0 <= Word(b, at + 2) < 0x1_0000
  {
  }

  lemma SameLongWord(a: seq<byte>, b: seq<byte>, at: nat)
    requires at + 4 <= |a| && at + 4 <= |b| && LongWord(a, at) == LongWord(b, at)
    ensures a[at] == b[at] && a[at + 1] == b[at + 1] && a[at + 2] == b[at + 2] && a[at + 3] == b[at + 3]
  {
    hide Word, LongWord;
    TwoWords(a, at);
    TwoWords(b, at);
    SameWord(a, b, at);
    SameWord(a, b, at + 2);
  }

  /** A mask of six bits is their sum. */
  lemma SumOfBits(mask: nat)
    requires mask < 64
    ensures mask == mask % 2 + 2 * (mask / 2 % 2) + 4 * (mask / 4 % 2) + 8 * (mask / 8 % 2)
                  + 16 * (mask / 16 % 2) + 32 * (mask / 32 % 2)
  {
    var a, b, c, d := mask / 2, mask / 4, mask / 8, mask / 16;
    assert a / 2 == b && b / 2 == c && c / 2 == d && d / 2 == mask / 32;
  }

  lemma SameBits(m: nat, n: nat)
    requires m < 64 && n < 64
    requires m % 2 == n % 2 && m / 2 % 2 == n / 2 % 2 && m / 4 % 2 == n / 4 % 2
    requires m / 8 % 2 == n / 8 % 2 && m / 16 % 2 == n / 16 % 2 && m / 32 % 2 == n / 32 % 2
    ensures m == n
  {
    SumOfBits(m);
    SumOfBits(n);
  }

  lemma SameFaults(faults: seq<FaultKind>, m: nat, n: nat)
    requires FaultBits(faults, m) && FaultBits(faults, n)
    ensures m == n
  {
    SameBits(m, n);
  }

  lemma SameScreens(screens: seq<ConfigScreen>, m: nat, n: nat)
    requires ScreenBits(screens, m) && ScreenBits(screens, n)
    ensures m == n
  {
    SameBits(m, n);
  }

  lemma SameCommonPart(c: DeviceConfiguration, a: seq<byte>, b: seq<byte>)
    requires FieldsAt(c, a) && Blank(c, a) && FieldsAt(c, b) && Blank(c, b)
    ensures a[..64] == b[..64]
  {
    hide FaultBits, NameAt, LegacyDisplayAt, DisplayAt;
    var actions := c.settings.faultActions;
    SameWord(a, b, 0);
    SameWord(a, b, 40);
    SameWord(a, b, 42);
    SameFaults(actions.display, Word(a, 46), Word(b, 46));
    SameFaults(actions.buzzer, Word(a, 48), Word(b, 48));
    SameFaults(actions.softPower, Word(a, 50), Word(b, 50));
    SameFaults(actions.hardPower, Word(a, 52), Word(b, 52));
    SameWord(a, b, 46);
    SameWord(a, b, 48);
    SameWord(a, b, 50);
    SameWord(a, b, 52);
    SameWord(a, b, 54);
    SameWord(a, b, 58);
    assert a[36..64] == b[36..64];
    forall i | 3 <= i < 36 ensures a[i] == b[i] {
      SameName(c.settings.friendlyName, a, b, i);
    }
    assert a[..3] == b[..3];
    assert forall i :: 36 <= i < 64 ==> a[i] == a[36..64][i - 36] && b[i] == b[36..64][i - 36];
  }

  lemma SameDisplayPart(c: DeviceConfiguration, a: seq<byte>, b: seq<byte>)
    requires c.rawVersion <= 2 && FieldsAt(c, a) && Blank(c, a) && FieldsAt(c, b) && Blank(c, b)
    ensures a[64..] == b[64..]
  {
    hide FaultBits, ScreenBits, NameAt, FanAt, ActionsAt, ThresholdsAt, LongWord;
    var d := c.settings.display;
    if c.rawVersion < 2 {
      SameScreens(d.cycleScreens, a[if c.rawVersion == 0 then 69 else 70], b[if c.rawVersion == 0 then 69 else 70]);
    } else {
      SameScreens(d.cycleScreens, a[73], b[73]);
      SameColors(a, b);
    }
  }

  lemma SameColors(a: seq<byte>, b: seq<byte>)
    requires |a| == |b| == 96
    requires LongWord(a, 76) == LongWord(b, 76) && LongWord(a, 80) == LongWord(b, 80)
    requires LongWord(a, 84) == LongWord(b, 84) && LongWord(a, 88) == LongWord(b, 88)
    ensures forall i :: 76 <= i < 92 ==> a[i] == b[i]
  {
    SameLongWord(a, b, 76);
    SameLongWord(a, b, 80);
    SameLongWord(a, b, 84);
    SameLongWord(a, b, 88);
  }

  /** Encoding gives exactly the bytes in which the fields lie where the layout puts them and the rest is blank. */
  lemma EncodingIff(c: DeviceConfiguration, b: seq<byte>)
    requires Valid(c)
    ensures b == Encoded(c) <==> FieldsAt(c, b) && Blank(c, b)
  {
    hide Encoded, FieldsAt, Blank, ValidSettings, ValidForVersion;
    EncodedFields(c);
    if FieldsAt(c, b) && Blank(c, b) {
      SameCommonPart(c, Encoded(c), b);
      SameDisplayPart(c, Encoded(c), b);
      FieldsHaveSize(c, b);
      assert b == b[..64] + b[64..];
      assert Encoded(c) == Encoded(c)[..64] + Encoded(c)[64..];
    }
  }
}
