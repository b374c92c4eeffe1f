/** The daemon's published values and the well-bracketed event log. */
module EventLog {
  import opened Domain

  datatype DisconnectReason =
    | Startup
    | RemovedFromHost
    | SerialHangup
    | PresenceCheckFailed
    | Replaced
    | DeviceReboot
    | Shutdown

  /** A host's candidate ports, sorted and without repetitions, are a set. */
  type Candidates = set<string>

  datatype ConnectionState =
    | Absent(reason: DisconnectReason)
    | Discovering
    | Connecting(port: string)
    | Ready(readySession: nat)
    | Busy(busySession: nat, operation: string)
    | Disconnecting(lastSession: nat, cause: DisconnectReason)
    | Recovering(attempt: nat, error: DeviceError)
    | UnsupportedDevice(detail: string)
    | AmbiguousDevices(candidates: Candidates)

  datatype Screen = MainScreen | CurrentScreen | TempScreen | StatusScreen | SimpleScreen | SameScreen

  /** `hardware` stands for the fields that the handshake reads and nothing changes afterwards. */
  datatype DeviceIdentity = DeviceIdentity(hardware: string, productName: string, buildString: string)

  /** `reading` stands for the decoded sensor values. */
  datatype Telemetry = Telemetry(sequence: nat, sessionId: nat, stale: bool, reading: int)

  datatype DaemonState = DaemonState(
    sequence: nat, sessionId: nat, connection: ConnectionState, connectedPort: Option<string>,
    lastDisconnectReason: Option<DisconnectReason>, identity: Option<DeviceIdentity>, telemetry: Option<Telemetry>)

  const INITIAL_STATE := DaemonState(0, 0, Absent(Startup), None, Some(Startup), None, None)

  datatype DeviceEvent =
    | Connected(sequence: nat, sessionId: nat, port: string)
    | Disconnected(sequence: nat, sessionId: nat, reason: DisconnectReason)
    | TelemetryUpdated(sequence: nat, sessionId: nat)
    | ScreenChanged(sequence: nat, sessionId: nat, screen: Screen)

  /** What a reader of the log knows: the latest session, whether it is open, the latest sequence. */
  datatype Position = Position(sessionId: nat, open: bool, sequence: nat)

  /** One more event is well formed at `p`, and leads to the returned position. */
  function Read(p: Position, event: DeviceEvent): Option<Position> {
    if event.sequence <= p.sequence then None
    else
      match event
      case Connected(sequence, session, _) =>
        if !p.open && session > p.sessionId then Some(Position(session, true, sequence)) else None
      case Disconnected(sequence, session, _) =>
        if p.open && session == p.sessionId then Some(Position(session, false, sequence)) else None
      case TelemetryUpdated(sequence, session) =>
        if p.open && session == p.sessionId then Some(p.(sequence := sequence)) else None
      case ScreenChanged(sequence, session, _) =>
        if p.open && session == p.sessionId then Some(p.(sequence := sequence)) else None
  }

  /** The position after a well-bracketed log, or nothing if the log is not one. */
  function ReadAll(events: seq<DeviceEvent>): Option<Position> {
    if events == [] then Some(Position(0, false, 0))
    else
      match ReadAll(events[..|events| - 1])
      case None => None
      case Some(p) => Read(p, events[|events| - 1])
  }

  predicate WellBracketed(events: seq<DeviceEvent>) {
    ReadAll(events).Some?
  }

  lemma Appended(events: seq<DeviceEvent>, event: DeviceEvent)
    requires WellBracketed(events)
    ensures ReadAll(events + [event]) == Read(ReadAll(events).value, event)
  {
    assert (events + [event])[..|events|] == events;
  }

  lemma {:induction false} PrefixIsWellBracketed(events: seq<DeviceEvent>, n: nat)
    requires WellBracketed(events) && n <= |events|
    ensures WellBracketed(events[..n])
  {
    if n < |events| {
      var shorter := events[..|events| - 1];
      PrefixIsWellBracketed(shorter, n);
      assert shorter[..n] == events[..n];
    } else {
      assert events[..n] == events;
    }
  }

  /** Event sequences strictly increase through the log. */
  lemma {:induction false} SequencesIncrease(events: seq<DeviceEvent>, i: nat, j: nat)
    requires WellBracketed(events) && i < j < |events|
    ensures events[i].sequence < events[j].sequence <= ReadAll(events).value.sequence
  {
    var shorter := events[..|events| - 1];
    if j < |shorter| {
      SequencesIncrease(shorter, i, j);
    } else {
      LastSequence(shorter, i);
    }
  }

  lemma {:induction false} LastSequence(events: seq<DeviceEvent>, i: nat)
    requires WellBracketed(events) && i < |events|
    ensures events[i].sequence <= ReadAll(events).value.sequence
  {
    if i < |events| - 1 {
      LastSequence(events[..|events| - 1], i);
    }
  }

  lemma {:induction false} LatestSession(events: seq<DeviceEvent>, i: nat)
    requires WellBracketed(events) && i < |events|
    ensures events[i].sessionId <= ReadAll(events).value.sessionId
  {
    if i < |events| - 1 {
      LatestSession(events[..|events| - 1], i);
    }
  }

  /** Session ids strictly increase from one connection to every later one. */
  lemma SessionsIncrease(events: seq<DeviceEvent>, i: nat, j: nat)
    requires WellBracketed(events) && i < j < |events| && events[j].Connected?
    ensures events[i].sessionId < events[j].sessionId
  {
    PrefixIsWellBracketed(events, j + 1);
    PrefixIsWellBracketed(events, j);
    assert events[..j + 1][..j] == events[..j];
    LatestSession(events[..j], i);
  }

  predicate Boundary(event: DeviceEvent) {
    event.Connected? || event.Disconnected?
  }

  /** While the log is open, its last boundary is the connection of the open session. */
  lemma {:induction false} OpenSince(events: seq<DeviceEvent>) returns (i: nat)
    requires WellBracketed(events) && ReadAll(events).value.open
    ensures i < |events| && events[i].Connected? && events[i].sessionId == ReadAll(events).value.sessionId
    ensures forall m :: i < m < |events| ==> !Boundary(events[m])
  {
    i := |events| - 1;
    if !events[i].Connected? {
      i := OpenSince(events[..|events| - 1]);
    }
  }

  /** Event `i` opened the session of event `k`, and no session was opened or closed in between. */
  predicate OpensSessionUntil(events: seq<DeviceEvent>, i: nat, k: nat)
    requires i < k < |events|
  {
    && events[i].Connected? && events[i].sessionId == events[k].sessionId
    && forall m :: i < m < k ==> !Boundary(events[m])
  }

  /** Every event but a connection falls inside its own session: that session opened before it and is still open. */
  lemma InsideItsSession(events: seq<DeviceEvent>, k: nat)
    requires WellBracketed(events) && k < |events| && !events[k].Connected?
    ensures exists i :: 0 <= i < k && OpensSessionUntil(events, i, k)
  {
    PrefixIsWellBracketed(events, k + 1);
    PrefixIsWellBracketed(events, k);
    assert events[..k + 1][..k] == events[..k];
    var i := OpenSince(events[..k]);
    assert events[i] == events[..k][i];
    forall m | i < m < k ensures !Boundary(events[m]) {
      assert events[m] == events[..k][m];
    }
    assert OpensSessionUntil(events, i, k);
  }

  /** Between two connections the first one's session was closed: connections and disconnections alternate. */
  lemma {:induction false} ClosedInBetween(events: seq<DeviceEvent>, i: nat, j: nat)
    requires WellBracketed(events) && i < j < |events| && events[i].Connected? && events[j].Connected?
    ensures exists m :: i < m < j && events[m].Disconnected? && events[m].sessionId == events[i].sessionId
  {
    PrefixIsWellBracketed(events, j + 1);
    PrefixIsWellBracketed(events, j);
    assert events[..j + 1][..j] == events[..j];
    var m := ClosingOf(events[..j], i);
    assert events[m] == events[..j][m];
  }

  lemma {:induction false} ClosingOf(events: seq<DeviceEvent>, i: nat) returns (m: nat)
    requires WellBracketed(events) && i < |events| && events[i].Connected?
    requires !ReadAll(events).value.open || ReadAll(events).value.sessionId != events[i].sessionId
    ensures i < m < |events| && events[m].Disconnected? && events[m].sessionId == events[i].sessionId
  {
    var n := |events| - 1;
    var before := ReadAll(events[..n]).value;
    if i == n {
      assert false;
    } else if events[n].Disconnected? && before.sessionId == events[i].sessionId {
      m := n;
    } else {
      m := ClosingOf(events[..n], i);
    }
  }
}
