/** One configuration of each version, byte by byte, and what validation accepts. */
module ConfigExamples {
  import opened Domain
  import opened Bytes
  import opened BitMask
  import opened Config
  import opened ConfigCodec
  import opened ConfigLayout

  const RIG_ACTIONS := FaultActions(
    [ChipOverTemperature, WireOverCurrent], [OverCurrent], [SensorOverTemperature, OverPower], [CurrentImbalance])

  const RIG_THRESHOLDS := FaultThresholds(1050, 55, 105, 660, 40, 6)

  function Rig(averaging: u16, display: DisplayConfiguration): DeviceSettings {
    DeviceSettings("Rig", 80, FanConfiguration(Fixed, External2, 20, 90, 250, 700), RIG_ACTIONS, RIG_THRESHOLDS, 15, 61,
                   averaging, display)
  }

  const RIG_1 := DeviceConfiguration(0, 0x1234, Rig(1417,
    DisplayConfiguration(Main, 15, Watts300, 180, Cycle, [Simple, Status], 11, 31,
      Colors(0xffff_ffff, 0xff64_6464, 0xffbe_bebe, 0xff00_0000), DarkBackground, DarkFan, false)))

  const RIG_2 := DeviceConfiguration(1, 0x1234, Rig(89,
    DisplayConfiguration(Main, 15, Watts300, 180, Cycle, [Simple, Status], 11, 31,
      Colors(0xff96_9696, 0xff50_5050, 0xffff_ffff, 0xff00_0000), NoBackground, BlackAndWhiteFan, false)))

  const RIG_3 := DeviceConfiguration(2, 0x1234, Rig(89,
    DisplayConfiguration(Temperature, 15, Watts300, 180, Cycle, [Simple, Status], 11, 31,
      Colors(0x0102_0304, 0x1112_1314, 0x2122_2324, 0x3132_3334), DarkBackground, BlackAndWhiteFan, true)))

  /** Checksum, version and the name with its padding. */
  function RigName(rawVersion: byte): seq<byte> {
    [0x34, 0x12, rawVersion, 82, 105, 103] + seq(30, _ => 0)
  }

  /** Fan and backlight, then actions, then thresholds and intervals. */
  const RIG_FAN: seq<byte> := [1, 3, 20, 90, 250, 0, 188, 2, 80, 0]
  const RIG_MASKS: seq<byte> := [9, 0, 4, 0, 18, 0, 32, 0]
  const RIG_LIMITS: seq<byte> := [26, 4, 55, 105, 148, 2, 40, 6, 15, 61]

  function RigHead(rawVersion: byte): (b: seq<byte>)
    ensures |b| == 64
  {
    RigName(rawVersion) + RIG_FAN + RIG_MASKS + RIG_LIMITS
  }

  const RIG_1_BYTES: seq<byte> := RigHead(0) + [2, 1, 1, 1, 1, 18, 11, 31]
  const RIG_2_BYTES: seq<byte> := RigHead(1) + [2, 2, 1, 2, 1, 1, 18, 11, 31, 0]
  const RIG_3_BYTES: seq<byte> := RigHead(2)
    + [2, 0, 0, 0, 3, 2, 1, 1, 1, 18, 11, 31, 4, 3, 2, 1, 0x14, 0x13, 0x12, 0x11, 0x24, 0x23, 0x22, 0x21,
       0x34, 0x33, 0x32, 0x31, 2, 152, 1, 0]

  /** What a valid configuration is: field by field, within the limits, with nothing listed twice. */
  lemma ValidIff(c: DeviceConfiguration)
    ensures Valid(c) <==>
      var s, fan, t, d := c.settings, c.settings.fan, c.settings.faultThresholds, c.settings.display;
      && c.rawVersion <= 2
      && |s.friendlyName| <= 32 && (forall i :: 0 <= i < |s.friendlyName| ==> 32 <= s.friendlyName[i] as int <= 126)
      && s.backlight <= 100 && fan.dutyMin <= fan.dutyMax <= 100
      && 0 <= fan.temperatureMin <= 500 <= fan.temperatureMax <= 1000
      && 0 <= t.temperature <= 1200 && t.totalCurrent <= 150 && 0 <= t.wireCurrent <= 255 && t.totalPower <= 2000
      && t.imbalancePercent <= 100 && t.imbalanceMinLoad <= 10
      && Distinct(s.faultActions.display) && Distinct(s.faultActions.buzzer)
      && Distinct(s.faultActions.softPower) && Distinct(s.faultActions.hardPower)
      && s.averaging in {22, 44, 89, 177, 354, 709, 1417} && (c.rawVersion == 0 ==> s.averaging == 1417)
      && d.currentScale in {5, 10, 15, 20} && d.rotation in {0, 180} && Distinct(d.cycleScreens)
      && (c.rawVersion < 2 ==> d.defaultScreen == Main && !d.inverted && exists code :: LegacyTheme(d, code))
  {
    hide NoDuplicateFaults, NoDuplicateScreens, Distinct;
    PopCountTestIsExact(c.settings.faultActions.display, c.settings.display.cycleScreens);
    PopCountTestIsExact(c.settings.faultActions.buzzer, []);
    PopCountTestIsExact(c.settings.faultActions.softPower, []);
    PopCountTestIsExact(c.settings.faultActions.hardPower, []);
    var d := c.settings.display;
    var code := match d.background case OrangeBackground => 0 case DarkBackground => 1 case NoBackground => 2;
    assert d.fanTheme == LegacyFanTheme(d.background) && d.colors == LegacyColors(d.background) ==>
      LegacyTheme(d, code);
  }

  lemma RigHeadAt(rawVersion: byte, b: seq<byte>)
    requires |b| >= 64 && b[..64] == RigHead(rawVersion)
    ensures Word(b, 0) == 0x1234 && b[2] == rawVersion && NameAt("Rig", b)
    ensures FanAt(FanConfiguration(Fixed, External2, 20, 90, 250, 700), b) && b[44] == 80
    ensures ActionsAt(RIG_ACTIONS, b) && ThresholdsAt(RIG_THRESHOLDS, b) && b[62] == 15 && b[63] == 61
    ensures (forall i :: 6 <= i <= 35 ==> b[i] == 0) && b[45] == 0
  {
    hide FanAt, ActionsAt, ThresholdsAt;
    var head := RigHead(rawVersion);
    assert b[..36] == head[..36] == RigName(rawVersion);
    assert b[36..46] == head[36..46] == RIG_FAN;
    assert b[46..54] == head[46..54] == RIG_MASKS;
    assert b[54..64] == head[54..64] == RIG_LIMITS;
    assert forall i :: 0 <= i < 36 ==> b[i] == b[..36][i];
    RigFanAt(b);
    RigMasksAt(b);
    RigLimitsAt(b);
  }

  lemma RigFanAt(b: seq<byte>)
    requires |b| >= 64 && b[36..46] == RIG_FAN
    ensures FanAt(FanConfiguration(Fixed, External2, 20, 90, 250, 700), b) && b[44] == 80 && b[45] == 0
  {
    assert b[36] == b[36..46][0] && b[37] == b[36..46][1] && b[38] == b[36..46][2] && b[39] == b[36..46][3];
    assert b[40] == b[36..46][4] && b[41] == b[36..46][5] && b[42] == b[36..46][6] && b[43] == b[36..46][7];
    assert b[44] == b[36..46][8] && b[45] == b[36..46][9];
  }

  lemma RigMasksAt(b: seq<byte>)
    requires |b| >= 64 && b[46..54] == RIG_MASKS
    ensures ActionsAt(RIG_ACTIONS, b)
  {
    assert b[46] == b[46..54][0] && b[47] == b[46..54][1] && b[48] == b[46..54][2] && b[49] == b[46..54][3];
    assert b[50] == b[46..54][4] && b[51] == b[46..54][5] && b[52] == b[46..54][6] && b[53] == b[46..54][7];
    RigBits();
    hide FaultBits;
  }

  lemma RigBits()
    ensures FaultBits(RIG_ACTIONS.display, 9) && FaultBits(RIG_ACTIONS.buzzer, 4)
    ensures FaultBits(RIG_ACTIONS.softPower, 18) && FaultBits(RIG_ACTIONS.hardPower, 32)
    ensures ScreenBits([ConfigScreen.Simple, ConfigScreen.Status], 18)
  {
  }

  lemma RigLimitsAt(b: seq<byte>)
    requires |b| >= 64 && b[54..64] == RIG_LIMITS
    ensures ThresholdsAt(RIG_THRESHOLDS, b) && b[62] == 15 && b[63] == 61
  {
    assert b[54] == b[54..64][0] && b[55] == b[54..64][1] && b[56] == b[54..64][2] && b[57] == b[54..64][3];
    assert b[58] == b[54..64][4] && b[59] == b[54..64][5] && b[60] == b[54..64][6] && b[61] == b[54..64][7];
    assert b[62] == b[54..64][8] && b[63] == b[54..64][9];
  }

  lemma RigListsAreFine()
    ensures Distinct([ChipOverTemperature, WireOverCurrent]) && Distinct([SensorOverTemperature, OverPower])
    ensures Distinct([OverCurrent]) && Distinct([CurrentImbalance])
    ensures Distinct([ConfigScreen.Simple, ConfigScreen.Status])
    ensures StrictlyAscends(FaultOrdinals([ChipOverTemperature, WireOverCurrent]))
    ensures StrictlyAscends(FaultOrdinals([SensorOverTemperature, OverPower]))
    ensures StrictlyAscends(FaultOrdinals([OverCurrent])) && StrictlyAscends(FaultOrdinals([CurrentImbalance]))
    ensures StrictlyAscends(ScreenOrdinals([ConfigScreen.Simple, ConfigScreen.Status]))
  {
  }

  lemma RigsAreValid()
    ensures Valid(RIG_1) && Valid(RIG_2) && Valid(RIG_3)
    ensures InOrdinalOrder(RIG_1) && InOrdinalOrder(RIG_2) && InOrdinalOrder(RIG_3)
  {
    RigListsAreFine();
    hide Distinct, StrictlyAscends, FaultOrdinals, ScreenOrdinals, NoDuplicateFaults, NoDuplicateScreens;
    PopCountTestIsExact(RIG_ACTIONS.display, [ConfigScreen.Simple, ConfigScreen.Status]);
    PopCountTestIsExact(RIG_ACTIONS.buzzer, []);
    PopCountTestIsExact(RIG_ACTIONS.softPower, []);
    PopCountTestIsExact(RIG_ACTIONS.hardPower, []);
  }

  lemma Rig1Fields()
    ensures FieldsAt(RIG_1, RIG_1_BYTES) && Blank(RIG_1, RIG_1_BYTES)
  {
    hide RigHead, NameAt, FanAt, ActionsAt, ThresholdsAt, ScreenBits;
    var b := RIG_1_BYTES;
    RigHeadAt(0, b);
    RigBits();
    assert b[64] == b[64..][0] && b[65] == b[64..][1] && b[66] == b[64..][2] && b[67] == b[64..][3];
    assert b[68] == b[64..][4] && b[69] == b[64..][5] && b[70] == b[64..][6] && b[71] == b[64..][7];
  }

  lemma Rig2Fields()
    ensures FieldsAt(RIG_2, RIG_2_BYTES) && Blank(RIG_2, RIG_2_BYTES)
  {
    hide RigHead, NameAt, FanAt, ActionsAt, ThresholdsAt, ScreenBits;
    var b := RIG_2_BYTES;
    RigHeadAt(1, b);
    RigBits();
    assert b[64] == b[64..][0] && b[65] == b[64..][1] && b[66] == b[64..][2] && b[67] == b[64..][3];
    assert b[68] == b[64..][4] && b[69] == b[64..][5] && b[70] == b[64..][6] && b[71] == b[64..][7];
    assert b[72] == b[64..][8] && b[73] == b[64..][9];
  }

  lemma Rig3Fields()
    ensures FieldsAt(RIG_3, RIG_3_BYTES) && Blank(RIG_3, RIG_3_BYTES)
  {
    hide RigHead, NameAt, FanAt, ActionsAt, ThresholdsAt, ScreenBits;
    var b := RIG_3_BYTES;
    RigHeadAt(2, b);
    RigBits();
    assert b[64] == b[64..][0] && b[65] == b[64..][1] && b[66] == b[64..][2] && b[67] == b[64..][3];
    assert b[68] == b[64..][4] && b[69] == b[64..][5] && b[70] == b[64..][6] && b[71] == b[64..][7];
    assert b[72] == b[64..][8] && b[73] == b[64..][9] && b[74] == b[64..][10] && b[75] == b[64..][11];
    assert b[76] == b[64..][12] && b[77] == b[64..][13] && b[78] == b[64..][14] && b[79] == b[64..][15];
    assert b[80] == b[64..][16] && b[81] == b[64..][17] && b[82] == b[64..][18] && b[83] == b[64..][19];
    assert b[84] == b[64..][20] && b[85] == b[64..][21] && b[86] == b[64..][22] && b[87] == b[64..][23];
    assert b[88] == b[64..][24] && b[89] == b[64..][25] && b[90] == b[64..][26] && b[91] == b[64..][27];
    assert b[92] == b[64..][28] && b[93] == b[64..][29] && b[94] == b[64..][30] && b[95] == b[64..][31];
  }

  /** These bytes are what the three configurations are decoded from. */
  lemma RigsDecode()
    ensures DecodeConfiguration(0, RIG_1_BYTES) == Ok(RIG_1)
    ensures DecodeConfiguration(1, RIG_2_BYTES) == Ok(RIG_2)
    ensures DecodeConfiguration(2, RIG_3_BYTES) == Ok(RIG_3)
  {
    hide Valid, InOrdinalOrder, FieldsAt, Blank, DecodeConfiguration, RigHead;
    RigsAreValid();
    Rig1Fields();
    Rig2Fields();
    Rig3Fields();
    DecodingIff(0, RIG_1_BYTES, RIG_1);
    DecodingIff(1, RIG_2_BYTES, RIG_2);
    DecodingIff(2, RIG_3_BYTES, RIG_3);
  }

  /** And what they are encoded to. */
  method EncodeRigs() returns (one: Result<seq<byte>>, two: Result<seq<byte>>, three: Result<seq<byte>>)
    ensures one == Ok(RIG_1_BYTES) && two == Ok(RIG_2_BYTES) && three == Ok(RIG_3_BYTES)
  {
    hide Valid, InOrdinalOrder, FieldsAt, Blank, Encoded, RigHead;
    RigsAreValid();
    Rig1Fields();
    Rig2Fields();
    Rig3Fields();
    EncodingIff(RIG_1, RIG_1_BYTES);
    EncodingIff(RIG_2, RIG_2_BYTES);
    EncodingIff(RIG_3, RIG_3_BYTES);
    one := EncodeConfiguration(RIG_1);
    two := EncodeConfiguration(RIG_2);
    three := EncodeConfiguration(RIG_3);
  }
}
