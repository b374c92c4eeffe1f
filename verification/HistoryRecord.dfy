/** Records as the device writes them, byte by byte, and what decoding one of them gives back. */
module HistoryRecord {
  import opened Domain
  import opened Bytes
  import opened History
  import opened HistoryLog

  /**
   What the device measures: its clock in milliseconds, whole degrees, tenths of volts and of amperes,
   and the watts that the cable can carry. An external probe may be absent.
   */
  datatype Reading = Reading(
    time: nat, input: int, output: int, external1: Option<int>, external2: Option<int>,
    voltages: seq<byte>, currents: seq<byte>, watts: nat)
  {
    predicate Storable() {
      && time < 0x4000_0000
      && -128 <= input <= 127 && -128 <= output <= 127
      && (external1.Some? ==> -100 < external1.value <= 127 && external1.value != 0)
      && (external2.Some? ==> -100 < external2.value <= 127 && external2.value != 0)
      && |voltages| == |currents| == 6
      && watts in {600, 450, 300, 150}
    }
  }

  function DegreeByte(degrees: int): byte
    requires -128 <= degrees <= 127
  {
    if degrees < 0 then 256 + degrees else degrees
  }

  /** An absent probe reads -100 degrees. */
  function ProbeByte(degrees: Option<int>): byte
    requires degrees.Some? ==> -128 <= degrees.value <= 127
  {
    if degrees.Some? then DegreeByte(degrees.value) else 156
  }

  function CableByte(watts: nat): byte {
    if watts == 600 then 0 else if watts == 450 then 1 else if watts == 300 then 2 else 3
  }

  /** The clock above two tag bits, lowest byte first. */
  function TaggedTime(time: nat, tag: nat): (bytes: seq<byte>)
    requires time < 0x4000_0000 && tag < 4
    ensures |bytes| == 4
  {
    [time % 64 * 4 + tag, time / 64 % 256, time / 16_384 % 256, time / 4_194_304]
  }

  /** The 21 bytes of a measurement. */
  function RecordOf(r: Reading): Record
    requires r.Storable()
  {
    TaggedTime(r.time, 0)
    + [DegreeByte(r.input), DegreeByte(r.output), ProbeByte(r.external1), ProbeByte(r.external2)]
    + r.voltages + r.currents + [CableByte(r.watts)]
  }

  /** The entry that a reading should be reported as: every pin in volts, amperes and watts, and their sums. */
  function EntryOf(r: Reading): HistoryEntry
    requires r.Storable()
  {
    var v, c := r.voltages, r.currents;
    HistoryEntry(Measurement, r.time, HistoryMetrics(
      Total(v) as real / 60.0, Total(c) as real / 10.0,
      Products(v, c) as real / 100.0,
      r.watts,
      [PinOf(v[0], c[0]), PinOf(v[1], c[1]), PinOf(v[2], c[2]),
       PinOf(v[3], c[3]), PinOf(v[4], c[4]), PinOf(v[5], c[5])],
      Temperatures(r.input, r.output, r.external1, r.external2)))
  }

  function Total(six: seq<int>): int
    requires |six| == 6
  {
    six[0] + six[1] + six[2] + six[3] + six[4] + six[5]
  }

  function Products(a: seq<int>, b: seq<int>): int
    requires |a| == |b| == 6
  {
    a[0] * b[0] + a[1] * b[1] + a[2] * b[2] + a[3] * b[3] + a[4] * b[4] + a[5] * b[5]
  }

  function PinOf(voltage: int, current: int): PinMetrics {
    PinMetrics(voltage as real / 10.0, current as real / 10.0, (voltage * current) as real / 100.0)
  }

  /** A probe is absent exactly for a zero byte and from -100 degrees down. */
  lemma AbsentProbes(value: byte)
    ensures DecodeTemperature(value).None? <==> value == 0 || 128 <= value <= 156
    ensures DecodeTemperature(value).Some? ==> DegreeByte(DecodeTemperature(value).value) == value
  {
  }

  lemma TimeRoundTrip(time: nat, tag: nat, rest: seq<byte>)
    requires time < 0x4000_0000 && tag < 4
    ensures ReadU32(TaggedTime(time, tag) + rest, 0) == 4 * time + tag
  {
    var bytes := TaggedTime(time, tag) + rest;
    var low, middle := time / 64, time / 16_384;
    assert time == low * 64 + time % 64;
    assert low == middle * 256 + low % 256 && middle == time / 4_194_304 * 256 + middle % 256;
  }

  lemma PowerOfPin(voltage: byte, current: byte)
    ensures Pin(voltage, current) == PinOf(voltage, current)
  {
    var v, c := voltage as real, current as real;
    assert (v / 10.0) * (c / 10.0) == v * c / 100.0;
    assert (voltage * current) as real == v * c;
  }

  lemma SumOfSix(f: PinMetrics -> real, p: seq<PinMetrics>)
    requires |p| == 6
    ensures SumOf(f, p) == f(p[0]) + f(p[1]) + f(p[2]) + f(p[3]) + f(p[4]) + f(p[5])
  {
    assert p[..5][..4] == p[..4] && p[..4][..3] == p[..3] && p[..3][..2] == p[..2] && p[..2][..1] == p[..1];
    assert SumOf(f, p[..1]) == SumOf(f, p[..1][..0]) + f(p[0]);
    assert SumOf(f, p[..2]) == SumOf(f, p[..2][..1]) + f(p[1]);
    assert SumOf(f, p[..3]) == SumOf(f, p[..3][..2]) + f(p[2]);
    assert SumOf(f, p[..4]) == SumOf(f, p[..4][..3]) + f(p[3]);
    assert SumOf(f, p[..5]) == SumOf(f, p[..5][..4]) + f(p[4]);
  }

  /** The sums over six pins are the sums of their tenths. */
  lemma TotalsOfPins(pins: seq<PinMetrics>, v: seq<int>, c: seq<int>)
    requires |pins| == |v| == |c| == 6 && forall i :: 0 <= i < 6 ==> pins[i] == PinOf(v[i], c[i])
    ensures SumOf((p: PinMetrics) => p.voltage, pins) / 6.0 == Total(v) as real / 60.0
    ensures SumOf((p: PinMetrics) => p.current, pins) == Total(c) as real / 10.0
    ensures SumOf((p: PinMetrics) => p.power, pins) == Products(v, c) as real / 100.0
  {
    SumOfSix((p: PinMetrics) => p.voltage, pins);
    SumOfSix((p: PinMetrics) => p.current, pins);
    SumOfSix((p: PinMetrics) => p.power, pins);
    hide SumOf;
  }

  lemma PinBytes(r: Reading, i: nat)
    requires r.Storable() && i < 6
    ensures RecordOf(r)[8 + i] == r.voltages[i] && RecordOf(r)[14 + i] == r.currents[i]
  {
    hide TaggedTime;
  }

  lemma PinsRoundTrip(r: Reading)
    requires r.Storable()
    ensures PinsOf(RecordOf(r)) == EntryOf(r).metrics.pins
    ensures forall i :: 0 <= i < 6 ==> PinsOf(RecordOf(r))[i] == PinOf(r.voltages[i], r.currents[i])
  {
    hide Pin, PinOf, Total, Products, RecordOf;
    forall i | 0 <= i < 6 ensures PinsOf(RecordOf(r))[i] == PinOf(r.voltages[i], r.currents[i]) {
      PinBytes(r, i);
      PowerOfPin(r.voltages[i], r.currents[i]);
    }
  }

  lemma TimeOfRecord(r: Reading)
    requires r.Storable()
    ensures ReadU32(RecordOf(r), 0) == 4 * r.time
  {
    hide ReadU32;
    TimeRoundTrip(r.time, 0, RecordOf(r)[4..]);
    assert RecordOf(r) == TaggedTime(r.time, 0) + RecordOf(r)[4..];
  }

  lemma TemperaturesRoundTrip(r: Reading)
    requires r.Storable()
    ensures
      var record := RecordOf(r);
      && Signed(record[4]) == r.input && Signed(record[5]) == r.output
      && DecodeTemperature(record[6]) == r.external1 && DecodeTemperature(record[7]) == r.external2
      && record[20] == CableByte(r.watts)
  {
    hide TaggedTime, CableByte;
  }

  /** The bytes of a measurement decode to its values, their sums and the cable's power. */
  lemma RecordRoundTrip(r: Reading)
    requires r.Storable()
    ensures DecodeEntry(RecordOf(r), ReadU32(RecordOf(r), 0), Measurement) == EntryOf(r)
  {
    hide PinsOf, PinOf, SumOf, Total, Products, RecordOf, ReadU32, Signed, DecodeTemperature;
    TimeOfRecord(r);
    TemperaturesRoundTrip(r);
    PinsRoundTrip(r);
    TotalsOfPins(PinsOf(RecordOf(r)), r.voltages, r.currents);
  }

  /** A measurement is plausible if its six voltages together lie between 6 and 90 volts. */
  predicate InRange(r: Reading)
    requires r.Storable()
  {
    60 < Total(r.voltages) < 900
  }

  lemma MeasurementClass(r: Reading)
    requires r.Storable()
    ensures Classify(RecordOf(r)) == if InRange(r) then Plausible else Boundary
  {
    hide TaggedTime, ReadU32;
    TimeOfRecord(r);
  }

  // ---- Logs of readings -----------------------------------------------------------------------------

  /** What the device puts into its log: measurements, and a marker with arbitrary contents at power-on. */
  datatype LogItem = Sample(reading: Reading) | PoweredOn(time: nat, contents: seq<byte>)
  {
    predicate Storable() {
      match this
      case Sample(reading) => reading.Storable()
      case PoweredOn(time, contents) => time < 0x4000_0000 && |contents| == 17
    }

    function Bytes(): Record
      requires Storable()
    {
      match this
      case Sample(reading) => RecordOf(reading)
      case PoweredOn(time, contents) => TaggedTime(time, 2) + contents
    }
  }

  predicate AllStorable(items: seq<LogItem>) {
    forall i :: 0 <= i < |items| ==> items[i].Storable()
  }

  function RecordsOf(items: seq<LogItem>): seq<Record>
    requires AllStorable(items)
  {
    if items == [] then [] else [items[0].Bytes()] + RecordsOf(items[1..])
  }

  /** The readings within range, in the order in which they were written. */
  function EntriesOf(items: seq<LogItem>): seq<HistoryEntry>
    requires AllStorable(items)
  {
    if items == [] then []
    else
      (if items[0].Sample? && InRange(items[0].reading) then [EntryOf(items[0].reading)] else [])
      + EntriesOf(items[1..])
  }

  lemma ItemClass(item: LogItem)
    requires item.Storable()
    ensures Classify(item.Bytes()) == if item.Sample? && InRange(item.reading) then Plausible else Boundary
    ensures item.Sample? && InRange(item.reading) ==> Measured(item.Bytes()) == EntryOf(item.reading)
  {
    match item
    case Sample(reading) =>
      MeasurementClass(reading);
      RecordRoundTrip(reading);
    case PoweredOn(time, contents) =>
      TimeRoundTrip(time, 2, contents);
      assert (4 * time + 2) % 4 == 2;
  }

  lemma {:induction false} MeasurementsOfItems(items: seq<LogItem>)
    requires AllStorable(items)
    ensures |RecordsOf(items)| == |items| && Written(RecordsOf(items))
    ensures Measurements(RecordsOf(items)) == EntriesOf(items)
  {
    hide Classify, Measured, EntryOf, InRange, LogItem.Bytes;
    if items != [] {
      var records := RecordsOf(items);
      ItemClass(items[0]);
      MeasurementsOfItems(items[1..]);
      assert records[1..] == RecordsOf(items[1..]);
      assert forall i :: 0 < i < |records| ==> records[i] == RecordsOf(items[1..])[i - 1];
    }
  }

  /** A log as the device lays it out from slot 0 parses to exactly the readings in range, with its end found. */
  lemma ParsedReadings(data: seq<byte>, items: seq<LogItem>)
    requires items != [] && AllStorable(items) && LaidOut(data, 0, RecordsOf(items))
    ensures Parsed(data) == ParsedHistory(EntriesOf(items), true)
  {
    hide Classify, Measured, EntryOf, InRange, LogItem.Bytes, LaidOut, Parsed;
    ItemClass(items[0]);
    MeasurementsOfItems(items);
    ParsedLog(data, RecordsOf(items));
  }
}
