/** Logs as the device writes them, and what parsing one gives back. */
module HistoryLog {
  import opened Domain
  import opened Bytes
  import opened History

  /** From slot `k` on, the next `n` slots that do not cross a page are erased. */
  ghost predicate ErasedRun(data: seq<byte>, k: nat, n: nat)
    decreases Slots(data) - k
  {
    n == 0 || (k < Slots(data) &&
      if CrossesPage(Offset(k)) then ErasedRun(data, k + 1, n)
      else Classify(RecordAt(data, k)) == Erased && ErasedRun(data, k + 1, n - 1))
  }

  /**
   From slot `k` on, the records fill consecutive slots, leaving out those that cross a page, and a
   terminating run of erased slots follows.
   */
  ghost predicate LaidOut(data: seq<byte>, k: nat, records: seq<Record>)
    decreases Slots(data) - k
  {
    if records == [] then ErasedRun(data, k, 32)
    else
      && k < Slots(data)
      && if CrossesPage(Offset(k)) then LaidOut(data, k + 1, records)
         else RecordAt(data, k) == records[0] && LaidOut(data, k + 1, records[1..])
  }

  /** Records as they can be written: none looks erased. */
  predicate Written(records: seq<Record>) {
    forall i :: 0 <= i < |records| ==> Classify(records[i]) != Erased
  }

  /** The first record starts the log: a measurement with a known cable code, or a power-on marker. */
  predicate StartsLog(record: Record) {
    Classify(record) in {Plausible, Boundary}
  }

  /** The plausible measurements among the records, decoded, in order. */
  function Measurements(records: seq<Record>): seq<HistoryEntry> {
    if records == [] then []
    else (if Classify(records[0]) == Plausible then [Measured(records[0])] else []) + Measurements(records[1..])
  }

  type Entries = seq<HistoryEntry>

  lemma {:induction false} FoldOfErasedRun(data: seq<byte>, k: nat, n: nat, p: Progress<Entries, ()>)
    requires k <= Slots(data) && ErasedRun(data, k, n) && 0 < n <= EMPTY_RUN_END
    requires p.foundFirst && p.outcome.Running? && p.emptyRun + n == EMPTY_RUN_END
    ensures FoldSlots(data, k, Slots(data), p, Collect) == p.(emptyRun := EMPTY_RUN_END, outcome := EndFound)
    decreases Slots(data) - k
  {
    hide Offset, CrossesPage, RecordAt, Classify, Measured, DecodeEntry, FoldSlots;
    FoldStep(data, k, Slots(data), p, Collect);
    var next := Advance(p, RecordAt(data, k), CrossesPage(Offset(k)), Collect);
    if CrossesPage(Offset(k)) {
      FoldOfErasedRun(data, k + 1, n, next);
    } else if n == 1 {
      FoldOfEnded(data, k + 1, Slots(data), next, Collect);
    } else {
      FoldOfErasedRun(data, k + 1, n - 1, next);
    }
  }

  /** Once the log has started, a written record only adds what it measures, and a crossing slot nothing. */
  lemma AdvanceOnRecord(p: Progress<Entries, ()>, record: Record, crossesPage: bool)
    requires p.foundFirst && p.outcome.Running? && (crossesPage || Classify(record) != Erased)
    ensures Advance(p, record, crossesPage, Collect)
         == if crossesPage then p else p.(emptyRun := 0, state := p.state + Measurements([record]))
  {
    hide Classify, Measured;
    assert Measurements([record][1..]) == [];
    assert Measurements([record]) == if Classify(record) == Plausible then [Measured(record)] else [];
    assert p.state + [] == p.state;
  }

  lemma {:induction false} FoldOfLog(data: seq<byte>, k: nat, records: seq<Record>, p: Progress<Entries, ()>)
    requires k <= Slots(data) && LaidOut(data, k, records) && Written(records)
    requires p.foundFirst && p.outcome.Running? && (records == [] ==> p.emptyRun == 0)
    ensures var end := FoldSlots(data, k, Slots(data), p, Collect);
      end.outcome == EndFound && end.state == p.state + Measurements(records)
    decreases Slots(data) - k
  {
    hide Offset, CrossesPage, RecordAt, Classify, Measured, DecodeEntry, FoldSlots, Slots, Advance;
    if records == [] {
      FoldOfErasedRun(data, k, EMPTY_RUN_END, p);
    } else {
      FoldStep(data, k, Slots(data), p, Collect);
      AdvanceOnRecord(p, RecordAt(data, k), CrossesPage(Offset(k)));
      var next := Advance(p, RecordAt(data, k), CrossesPage(Offset(k)), Collect);
      if CrossesPage(Offset(k)) {
        FoldOfLog(data, k + 1, records, next);
      } else {
        FoldOfLog(data, k + 1, records[1..], next);
        FirstMeasured(records);
      }
    }
  }

  lemma FirstMeasured(records: seq<Record>)
    requires records != []
    ensures Measurements(records) == Measurements([records[0]]) + Measurements(records[1..])
  {
    hide Classify, Measured;
    var one := [records[0]];
    var first := if Classify(records[0]) == Plausible then [Measured(records[0])] else [];
    assert Measurements(one) == first by {
      assert one[1..] == [] && first + [] == first;
    }
    assert Measurements(records) == first + Measurements(records[1..]);
  }

  /** A log laid out from slot 0 parses back to exactly its plausible measurements, with its end found. */
  lemma ParsedLog(data: seq<byte>, records: seq<Record>)
    requires records != [] && StartsLog(records[0]) && Written(records) && LaidOut(data, 0, records)
    ensures Parsed(data) == ParsedHistory(Measurements(records), true)
  {
    assert Offset(0) == 0 && !CrossesPage(Offset(0));
    hide Offset, CrossesPage, Classify, Measured, DecodeEntry, FoldSlots;
    var p: Progress<Entries, ()> := Start([]);
    FoldStep(data, 0, Slots(data), p, Collect);
    FoldOfLog(data, 1, records[1..], Advance(p, records[0], false, Collect));
  }

  /** Visiting with a counter counts exactly the entries that parsing collects, and sees the same end. */
  lemma {:induction false} CountingMatchesParsing(data: seq<byte>, k: nat, p: Progress<Entries, ()>)
    requires k <= Slots(data)
    ensures
      var counted := FoldSlots(data, k, Slots(data),
        Progress(p.foundFirst, p.emptyRun, p.outcome, (p.state, |p.state|)), Counted(Collect));
      var parsed := FoldSlots(data, k, Slots(data), p, Collect);
      counted.state == (parsed.state, |parsed.state|) && counted.outcome == parsed.outcome
    decreases Slots(data) - k
  {
    hide Offset, CrossesPage, RecordAt, Classify, Measured, DecodeEntry;
    if k < Slots(data) {
      CountingMatchesParsing(data, k + 1, Advance(p, RecordAt(data, k), CrossesPage(Offset(k)), Collect));
    }
  }
}
