/**
 The live graph's sample buffer: bounded, deduplicated, with times kept apart, and the overview path
 drawn from it.
 */
module Graph {
  import opened Domain
  import opened GraphPath

  const SAMPLE_LIMIT: nat := 1200
  const OVERVIEW_WINDOW: nat := 60 * 1000

  /** What a telemetry snapshot brings along; `sample.observedAt` is the daemon's clock reading. */
  datatype Snapshot = Snapshot(sessionId: nat, sequence: nat, sample: GraphSample)

  datatype RecordOutcome = RecordOutcome(appended: bool, sessionReset: bool)

  datatype OverviewFrame = OverviewFrame(path: seq<PathCommand>, axis: Option<(real, real)>, sampleCount: nat)

  /** Times never go back; they stand still only at the largest 64-bit time. */
  predicate Saturating(samples: seq<GraphSample>) {
    && (forall i :: 0 <= i < |samples| ==> samples[i].observedAt <= U64_MAX)
    && forall i, j :: 0 <= i < j < |samples| ==>
         samples[i].observedAt < samples[j].observedAt || samples[i].observedAt == samples[j].observedAt == U64_MAX
  }

  /** Times are strictly increasing exactly when at most one sample has the largest 64-bit time. */
  lemma InOrderIff(samples: seq<GraphSample>)
    requires Saturating(samples)
    ensures InOrder(samples) <==> |samples| < 2 || samples[|samples| - 2].observedAt != U64_MAX
  {
    var n := |samples|;
    if n >= 2 {
      assert samples[n - 2].observedAt <= samples[n - 1].observedAt <= U64_MAX;
      if samples[n - 2].observedAt != U64_MAX {
        forall i | 0 <= i < n - 2 ensures samples[i].observedAt < U64_MAX {
          assert samples[i].observedAt <= samples[n - 2].observedAt;
        }
      } else {
        assert samples[n - 1].observedAt == U64_MAX;
      }
    }
  }

  /** The time a sample is recorded under: its own, but later than any before it. */
  function RecordedAt(observed: nat, last: Option<nat>): nat {
    if last.None? then observed else Max(observed, Min(last.value + 1, U64_MAX))
  }

  /** That is the earliest time that is not before the sample's own and later than the last, if there is a later one. */
  lemma RecordedAtIsEarliest(observed: nat, last: Option<nat>, time: nat)
    requires observed <= time <= U64_MAX && (last.Some? ==> last.value < time || time == U64_MAX)
    requires last.Some? ==> last.value <= U64_MAX
    ensures observed <= RecordedAt(observed, last) <= time
    ensures last.Some? ==> last.value < RecordedAt(observed, last) || RecordedAt(observed, last) == U64_MAX
  {
  }

  /** The buffer with one more sample: the oldest makes room. */
  function Pushed(samples: seq<GraphSample>, sample: GraphSample): seq<GraphSample> {
    (if |samples| == 1200 then samples[1..] else samples) + [sample]
  }

  /** A sample recorded after the last one keeps the buffer's order. */
  lemma PushedSaturates(samples: seq<GraphSample>, sample: GraphSample, observed: nat)
    requires Saturating(samples) && |samples| <= SAMPLE_LIMIT && observed <= U64_MAX
    requires samples != [] ==> sample.observedAt == RecordedAt(observed, Some(samples[|samples| - 1].observedAt))
    requires sample.observedAt <= U64_MAX
    ensures Saturating(Pushed(samples, sample)) && |Pushed(samples, sample)| <= SAMPLE_LIMIT
    ensures InOrder(samples) && (samples != [] ==> samples[|samples| - 1].observedAt != U64_MAX) ==>
      InOrder(Pushed(samples, sample))
  {
    forall i | 0 <= i < |samples|
      ensures samples[i].observedAt < sample.observedAt || samples[i].observedAt == sample.observedAt == U64_MAX
    {
      assert samples[i].observedAt <= samples[|samples| - 1].observedAt;
    }
  }

  /** The bounds of the power axis: from zero to a tenth above the largest value, at least one watt. */
  function PowerAxis(maximum: real): (axis: (real, real))
    ensures axis.0 == 0.0 && axis.1 >= 1.0
    ensures axis.1 == 1.0 || axis.1 * 10.0 == maximum * 11.0
    ensures maximum <= axis.1 && maximum * 11.0 <= axis.1 * 10.0
  {
    var top := if maximum > 0.0 then maximum * 1.1 else 0.0;
    (0.0, if top > 1.0 then top else 1.0)
  }

  /** An axis from zero to a tenth above the window's largest power, but at least to one watt. */
  ghost predicate FitsPower(axis: (real, real), window: seq<Point>) {
    && axis.0 == 0.0 && axis.1 >= 1.0
    && (forall p :: p in window ==> p.value * 11.0 <= axis.1 * 10.0)
    && (axis.1 == 1.0 || exists p :: p in window && axis.1 * 10.0 == p.value * 11.0)
  }

  lemma AxisFits(window: seq<Point>, largest: Point)
    requires largest in window && forall p :: p in window ==> p.value <= largest.value
    ensures FitsPower(PowerAxis(largest.value), window)
  {
  }

  /** How many samples a window holds, and the largest power among them. */
  method CountAndMaximum(samples: seq<GraphSample>, start: nat) returns (count: nat, maximum: Option<real>)
    ensures count == |Windowed(samples, Power, 0, start)| && (maximum.Some? <==> count > 0)
    ensures maximum.Some? ==>
      && (exists p :: p in Windowed(samples, Power, 0, start) && p.value == maximum.value)
      && forall p :: p in Windowed(samples, Power, 0, start) ==> p.value <= maximum.value
  {
    count, maximum := 0, None;
    for i := 0 to |samples|
      invariant count == |Windowed(samples[..i], Power, 0, start)| && (maximum.Some? <==> count > 0)
      invariant maximum.Some? ==>
        && (exists p :: p in Windowed(samples[..i], Power, 0, start) && p.value == maximum.value)
        && forall p :: p in Windowed(samples[..i], Power, 0, start) ==> p.value <= maximum.value
    {
      assert samples[..i + 1][..i] == samples[..i];
      var sample := samples[i];
      if sample.observedAt >= start {
        assert Point(sample.observedAt, sample.totalPower) in Windowed(samples[..i + 1], Power, 0, start);
        count := count + 1;
        if maximum.None? || sample.totalPower > maximum.value {
          maximum := Some(sample.totalPower);
        }
      }
    }
    assert samples[..|samples|] == samples;
  }

  /** No time in a window is beyond its end, so no bucket index is clamped. */
  lemma NothingIsClamped(samples: seq<GraphSample>, kind: GraphKind, series: nat, start: nat, p: Point)
    requires samples != [] && Saturating(samples) && p in Windowed(samples, kind, series, start)
    ensures start <= p.time <= samples[|samples| - 1].observedAt
    ensures BucketIndex(p.time - start, Duration(start, samples[|samples| - 1].observedAt)) < BUCKET_LIMIT
  {
    WindowedAreSamples(samples, kind, series, start, p);
    var i :| 0 <= i < |samples| && samples[i].observedAt == p.time;
    ClampFiresIff(p.time - start, Duration(start, samples[|samples| - 1].observedAt));
  }

  /** The latest sample lies in every window that starts no later. */
  lemma LatestIsWindowed(samples: seq<GraphSample>, start: nat)
    requires samples != [] && start <= samples[|samples| - 1].observedAt
    ensures Windowed(samples, Power, 0, start) != []
  {
  }

  class GraphState {
    var samples: seq<GraphSample>
    var sessionId: Option<nat>
    var lastSequence: Option<nat>
    var lastObservedAt: Option<nat>

    ghost predicate Valid()
      reads this
    {
      && |samples| <= SAMPLE_LIMIT && Saturating(samples)
      && (lastObservedAt.Some? ==> lastObservedAt.value <= U64_MAX)
      && (samples != [] ==> lastObservedAt == Some(samples[|samples| - 1].observedAt))
    }

    constructor ()
      ensures Valid() && samples == [] && sessionId.None? && lastObservedAt.None?
    {
      samples, sessionId, lastSequence, lastObservedAt := [], None, None, None;
    }

    method ResetSession()
      modifies this
      ensures Valid() && samples == [] && sessionId.None? && lastSequence.None? && lastObservedAt.None?
    {
      samples, sessionId, lastSequence, lastObservedAt := [], None, None, None;
    }

    /** Empties the buffer; times still go on from the last one. */
    method ClearHistory()
      requires Valid()
      modifies this`samples
      ensures Valid() && samples == []
    {
      samples := [];
    }

    /**
     Records a snapshot unless its session has shown it already. Within a session the times of the
     recorded samples stay strictly increasing, until the clock stands at its last value.
     */
    method Record(snapshot: Snapshot) returns (outcome: RecordOutcome)
      requires Valid() && snapshot.sample.observedAt <= U64_MAX
      modifies this
      ensures Valid()
      ensures outcome.sessionReset <==> old(sessionId).Some? && old(sessionId) != Some(snapshot.sessionId)
      ensures !outcome.appended <==>
        old(sessionId) == Some(snapshot.sessionId) && old(lastSequence).Some?
        && snapshot.sequence <= old(lastSequence).value
      ensures !outcome.appended ==> unchanged(this)
      ensures outcome.appended ==>
        var before := if outcome.sessionReset then [] else old(samples);
        var last := if outcome.sessionReset then None else old(lastObservedAt);
        var at := RecordedAt(snapshot.sample.observedAt, last);
        && samples == Pushed(before, snapshot.sample.(observedAt := at)) && lastObservedAt == Some(at)
        && sessionId == Some(snapshot.sessionId) && lastSequence == Some(snapshot.sequence)
      ensures outcome.appended ==>
        (InOrder(samples) <==> outcome.sessionReset || old(samples) == [] || old(lastObservedAt) != Some(U64_MAX))
    {
      hide Saturating, InOrder;
      var sessionReset := sessionId.Some? && sessionId.value != snapshot.sessionId;
      if sessionReset {
        ResetSession();
      }
      if sessionId == Some(snapshot.sessionId) && lastSequence.Some? && snapshot.sequence <= lastSequence.value {
        return RecordOutcome(false, false);
      }
      sessionId, lastSequence := Some(snapshot.sessionId), Some(snapshot.sequence);
      var observedAt := RecordedAt(snapshot.sample.observedAt, lastObservedAt);
      lastObservedAt := Some(observedAt);
      PushedSaturates(samples, snapshot.sample.(observedAt := observedAt), snapshot.sample.observedAt);
      if |samples| == SAMPLE_LIMIT {
        samples := samples[1..];
      }
      samples := samples + [snapshot.sample.(observedAt := observedAt)];
      InOrderIff(samples);
      return RecordOutcome(true, sessionReset);
    }

    /**
     The overview of the last minute of power. Its path draws samples of that window, at most 768,
     in strictly increasing time from left to right; with distinct times in the buffer it encloses
     every power of the window, none of which is above the axis.
     */
    method Overview() returns (frame: OverviewFrame, ghost drawn: seq<Point>)
      requires Valid()
      ensures samples == [] ==> frame == OverviewFrame([], None, 0)
      ensures samples != [] ==>
        var end := samples[|samples| - 1].observedAt;
        var start := Max(end - 60_000, 0);
        var window := Windowed(samples, Power, 0, start);
        && frame.sampleCount == |window| > 0 && frame.axis.Some? && frame.axis.value.0 < frame.axis.value.1
        && FitsPower(frame.axis.value, window)
        && (frame.sampleCount < 2 ==> frame.path == [])
        && (frame.sampleCount >= 2 ==>
          && frame.path == PathOf(drawn, start, Duration(start, end), frame.axis.value.0, frame.axis.value.1)
          && Depicts(frame.path, drawn, start, end, frame.axis.value.0, frame.axis.value.1)
          && |frame.path| <= 768 && LeftToRight(frame.path) && Ascending(drawn)
          && (forall p :: p in drawn ==> p in window)
          && (InOrder(samples) ==> Encloses(drawn, window)))
    {
      hide Saturating, InOrder, Encloses, EnclosesInBuckets, Filled, Ascending, PathOf, LeftToRight, DrawnBy, Windowed,
        Depicts, FitsPower;
      drawn := [];
      if samples == [] {
        return OverviewFrame([], None, 0), drawn;
      }
      var latest := samples[|samples| - 1].observedAt;
      var start := Max(latest - OVERVIEW_WINDOW, 0);
      var sampleCount, maximum := CountAndMaximum(samples, start);
      LatestIsWindowed(samples, start);
      var axis := PowerAxis(maximum.value);
      ghost var largest :| largest in Windowed(samples, Power, 0, start) && largest.value == maximum.value;
      AxisFits(Windowed(samples, Power, 0, start), largest);
      var path := [];
      if sampleCount >= 2 {
        var pointCount;
        path, pointCount, drawn := BuildPath(samples, Power, 0, start, latest, axis.0, axis.1);
      }
      return OverviewFrame(path, Some(axis), sampleCount), drawn;
    }
  }

  method RecordTwice(first: GraphSample, second: GraphSample) returns (state: GraphState)
    requires first.observedAt == second.observedAt == U64_MAX
    ensures fresh(state) && state.Valid() && state.samples == [first, second]
  {
    hide Saturating, InOrder;
    state := new GraphState();
    var outcome := state.Record(Snapshot(1, 1, first));
    outcome := state.Record(Snapshot(1, 2, second));
    assert first.(observedAt := U64_MAX) == first && second.(observedAt := U64_MAX) == second;
  }

  /**
   Two snapshots at the last 64-bit time: the buffer holds both, standing still, and the path that
   is drawn from it leaves the larger power out, so it does not enclose the window.
   */
  method StandstillLosesTheMaximum(first: GraphSample, second: GraphSample, low: real, high: real)
    returns (state: GraphState, path: seq<PathCommand>, ghost drawn: seq<Point>)
    requires first.observedAt == second.observedAt == U64_MAX && first.totalPower != second.totalPower && low < high
    ensures state.samples == [first, second]
    ensures path == PathOf(drawn, U64_MAX - OVERVIEW_WINDOW, OVERVIEW_WINDOW, low, high)
    ensures !Encloses(drawn, Windowed(state.samples, Power, 0, U64_MAX - OVERVIEW_WINDOW))
  {
    hide Encloses, EnclosesInBuckets, Filled, Ascending, PathOf, LeftToRight, DrawnBy, InOrder, Windowed;
    state := RecordTwice(first, second);
    var start := U64_MAX - OVERVIEW_WINDOW;
    var pointCount;
    path, pointCount, drawn := BuildPath(state.samples, Power, 0, start, U64_MAX, low, high);
    StandstillWindow(first, second, start);
    EqualTimesLoseTheMaximum(U64_MAX, first.totalPower, second.totalPower, start, OVERVIEW_WINDOW, BUCKET_LIMIT);
    StandstillIsNotEnclosed(first, second, drawn);
  }

  lemma StandstillWindow(first: GraphSample, second: GraphSample, start: nat)
    requires first.observedAt == second.observedAt >= start
    ensures Windowed([first, second], Power, 0, start)
         == [Point(first.observedAt, first.totalPower), Point(second.observedAt, second.totalPower)]
  {
    var samples := [first, second];
    assert samples[..1] == [first] && [first][..0] == [];
    assert Windowed([], Power, 0, start) == [];
    assert Windowed([first], Power, 0, start) == [Point(first.observedAt, first.totalPower)];
  }

  lemma StandstillIsNotEnclosed(first: GraphSample, second: GraphSample, drawn: seq<Point>)
    requires first.observedAt == second.observedAt && first.totalPower != second.totalPower
    requires forall p :: p in drawn ==>
      p in [Point(first.observedAt, first.totalPower), Point(second.observedAt, second.totalPower)]
    requires Point(first.observedAt, Larger(first.totalPower, second.totalPower)) !in drawn
    ensures !Encloses(drawn, [Point(first.observedAt, first.totalPower), Point(second.observedAt, second.totalPower)])
  {
    var larger := Point(first.observedAt, Larger(first.totalPower, second.totalPower));
    var points := [Point(first.observedAt, first.totalPower), Point(second.observedAt, second.totalPower)];
    assert larger == points[0] || larger == points[1];
    assert larger in points;
    forall b | b in drawn ensures b.value < larger.value {
    }
  }
}
