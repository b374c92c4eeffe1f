/**
 The daemon's actor: one loop over host events, client commands and timers, owning the device.

 Time is a clock that may advance by any amount whenever it is read. Every backend answer is
 arbitrary. Ghost logs record the events sent, the states published, the port attempts, the
 non-volatile memory slots and the display commands, and `Inv` holds whenever the loop is at its head.
 */
module Manager {
  import opened Domain
  import opened Bytes
  import opened Theme
  import opened Spi
  import opened ThemeTransaction
  import opened Config
  import opened ConfigCodec
  import opened Backend
  import opened EventLog
  import opened Pacing
  import opened ApplyProtocol
  import History

  const DISPLAY_RESUME_RETRY_DELAY: nat := 1000
  const HISTORY_LEASE: nat := 10_000
  const KNOWN_FAULTS_LIMIT: nat := 0x40

  datatype RetryState = RetryState(port: string, attempt: nat, notBefore: Option<Instant>)

  datatype HistoryDump = HistoryDump(id: nat, sessionId: nat, totalBytes: nat)

  datatype ActiveHistoryDump = ActiveHistoryDump(id: nat, sessionId: nat, expiresAt: Instant)

  datatype DisplayPauseState = DisplayPauseState(paused: bool, debugLease: bool, dumpActive: bool, remaining: nat)

  /** One display command sent to the device, with the owners of the pause at that moment. */
  datatype DisplayStep = DisplayStep(command: DisplayCommand, dumpActive: bool, debugLease: bool)

  ghost predicate Numbered(published: seq<DaemonState>) {
    forall i :: 0 <= i < |published| ==> published[i].sequence == i + 1
  }

  ghost predicate NeverResumedWhileOwned(steps: seq<DisplayStep>) {
    forall i :: 0 <= i < |steps| && steps[i].command.ResumeUpdates? ==> !steps[i].dumpActive && !steps[i].debugLease
  }

  /** The commands of the steps: every display command that the device received is among them, in order. */
  function Commands(steps: seq<DisplayStep>): (commands: seq<DisplayCommand>)
    ensures |commands| == |steps|
  {
    if steps == [] then [] else Commands(steps[..|steps| - 1]) + [steps[|steps| - 1].command]
  }

  lemma CommandAppended(steps: seq<DisplayStep>, step: DisplayStep)
    requires NeverResumedWhileOwned(steps)
    requires step.command.ResumeUpdates? ==> !step.dumpActive && !step.debugLease
    ensures Commands(steps + [step]) == Commands(steps) + [step.command]
    ensures NeverResumedWhileOwned(steps + [step])
  {
    assert (steps + [step])[..|steps|] == steps;
  }

  function Staled(telemetry: Option<Telemetry>): Option<Telemetry> {
    match telemetry
    case None => None
    case Some(t) => Some(t.(stale := true))
  }

  // ---- The invariant's parts, over the fields' values -------------------------------------------------

  /** The published states carry the sequence numbers 1, 2, 3, ... and the channel shows the last one. */
  ghost predicate PublishedFits(published: seq<DaemonState>, watched: DaemonState, sequence: nat) {
    && Numbered(published) && |published| == sequence
    && watched == (if published == [] then INITIAL_STATE else published[|published| - 1])
  }

  /** The event log is well bracketed up to `position`, and no event is numbered beyond the state. */
  ghost predicate EventsFit(events: seq<DeviceEvent>, position: Position, sequence: nat) {
    ReadAll(events) == Some(position) && position.sequence <= sequence
  }

  /** The log is open, for the state's session, exactly while a port is held; a held port has fresh data. */
  ghost predicate SessionFits(state: DaemonState, currentPort: Option<string>, retry: Option<RetryState>,
                              position: Position)
  {
    && position.sessionId == state.sessionId && position.open == currentPort.Some?
    && state.connectedPort == currentPort
    && (currentPort.Some? ==>
      && state.identity.Some? && state.telemetry.Some?
      && state.telemetry.value.sessionId == state.sessionId && retry.None?)
    && (currentPort.None? && state.telemetry.Some? ==> state.telemetry.value.stale)
  }

  /** A dump fills the shared slot and belongs to the session; each owner implies the pause; no session, no pause. */
  ghost predicate LeasesFit(sessionId: nat, currentPort: Option<string>, dump: Option<ActiveHistoryDump>,
                            slot: Option<nat>,
                            nextDumpId: nat, debugLease: Option<Instant>, paused: bool, resumeRetryAt: Option<Instant>)
  {
    && slot == (if dump.Some? then Some(dump.value.id) else None)
    && (dump.Some? ==> dump.value.sessionId == sessionId && dump.value.id <= nextDumpId) && nextDumpId <= U64_MAX
    && (dump.Some? || debugLease.Some? ==> paused)
    && (resumeRetryAt.Some? ==> paused)
    && (paused ==> currentPort.Some?)
  }

  /** The slots are the changes that the device was asked for, one for one. */
  ghost predicate NvmFits(slots: seq<NvmSlot>, lastNvmMutation: Option<Instant>, log: seq<NvmOperation>) {
    && NvmPaced(slots) && |slots| == |log| && (forall i :: 0 <= i < |log| ==> slots[i].operation == log[i])
    && lastNvmMutation == (if slots == [] then None else Some(slots[|slots| - 1].at))
  }

  lemma SlotTaken(slots: seq<NvmSlot>, lastNvmMutation: Option<Instant>, log: seq<NvmOperation>, slot: NvmSlot)
    requires NvmFits(slots, lastNvmMutation, log)
    requires lastNvmMutation.Some? ==>
      slot.at >= lastNvmMutation.value + if slot.client then MIN_NVM_MUTATION_INTERVAL else 0
    ensures NvmFits(slots + [slot], Some(slot.at), log + [slot.operation])
  {
    hide NvmPaced;
    NvmAppended(slots, slot);
  }

  /** A pending retry mirrors the last attempt under the current candidate list. */
  ghost predicate RetryFits(retry: Option<RetryState>, attempts: seq<Attempt>, candidates: Option<Candidates>,
                            epoch: nat)
  {
    && Paced(attempts)
    && (attempts == [] ==> retry.None?)
    && (attempts != [] ==>
      var last := attempts[|attempts| - 1];
      && last.epoch <= epoch
      && (last.epoch == epoch ==> candidates == Some({last.port}) && retry.Some? == !last.outcome.Succeeded?)
      && (retry.Some? ==> last.epoch == epoch && RetryMirrors(retry.value, attempts)))
  }

  ghost predicate RetryMirrors(retry: RetryState, attempts: seq<Attempt>)
    requires attempts != []
  {
    var last := attempts[|attempts| - 1];
    && retry.port == last.port
    && match last.outcome
       case Succeeded => false
       case Refused => retry.notBefore == None
       case Retryable =>
         && retry.attempt == Min(Streak(attempts), U32_MAX)
         && retry.notBefore == Some(last.endedAt + RetryDelay(Streak(attempts)))
  }

  /** What the manager remembers after an attempt: nothing, a refusal, or when to try again. */
  function RetryAfter(retry: Option<RetryState>, attempt: Attempt): Option<RetryState> {
    match attempt.outcome
    case Succeeded => None
    case Refused => Some(RetryState(attempt.port, 1, None))
    case Retryable =>
      var count := if retry.Some? && retry.value.port == attempt.port then Min(retry.value.attempt + 1, U32_MAX) else 1;
      Some(RetryState(attempt.port, count, Some(attempt.endedAt + RetryDelay(count))))
  }

  /** One more attempt ends, starts or lengthens the streak of failures. */
  lemma StreakAfter(attempts: seq<Attempt>, attempt: Attempt)
    ensures Streak(attempts + [attempt])
         == if !attempt.outcome.Retryable? then 0
            else if attempts != [] && attempts[|attempts| - 1].epoch == attempt.epoch then 1 + Streak(attempts)
            else 1
  {
    var longer := attempts + [attempt];
    assert longer[..|attempts|] == attempts;
    if attempts != [] {
      assert longer[|longer| - 2] == attempts[|attempts| - 1];
    }
  }

  /** The remembered count is the streak of failures in the log, and the moment follows from it. */
  lemma AttemptRecorded(retry: Option<RetryState>, attempts: seq<Attempt>, candidates: Option<Candidates>,
                        attempt: Attempt)
    requires RetryFits(retry, attempts, candidates, attempt.epoch) && MayFollow(attempts, attempt)
    requires candidates == Some({attempt.port})
    ensures RetryFits(RetryAfter(retry, attempt), attempts + [attempt], candidates, attempt.epoch)
  {
    hide Paced, Streak, RetryDelay;
    PacedAppended(attempts, attempt);
    StreakAfter(attempts, attempt);
    DelayOfSaturated(Streak(attempts) + 1);
    DelayOfSaturated(1);
    if attempts != [] && !attempts[|attempts| - 1].outcome.Retryable? {
      NoStreak(attempts);
    }
  }

  /** The count saturates long after the delay has. */
  lemma DelayOfSaturated(k: nat)
    ensures RetryDelay(Min(k, U32_MAX)) == RetryDelay(k)
  {
  }

  lemma NoStreak(attempts: seq<Attempt>)
    requires attempts != [] && !attempts[|attempts| - 1].outcome.Retryable?
    ensures Streak(attempts) == 0
  {
  }

  function EpochAfter(before: Option<Candidates>, epoch: nat, candidates: Candidates): nat {
    if before == Some(candidates) then epoch else epoch + 1
  }

  /** A retry survives a candidate list exactly when its port is the only candidate. */
  function RetryKept(retry: Option<RetryState>, candidates: Candidates): Option<RetryState> {
    if retry.Some? && candidates == {retry.value.port} then retry else None
  }

  lemma CandidatesObserved(retry: Option<RetryState>, attempts: seq<Attempt>, before: Option<Candidates>, epoch: nat,
                           candidates: Candidates)
    requires RetryFits(retry, attempts, before, epoch)
    ensures RetryFits(RetryKept(retry, candidates), attempts, Some(candidates), EpochAfter(before, epoch, candidates))
  {
    if attempts != [] {
      var last := attempts[|attempts| - 1];
      if before == Some(candidates) && retry.Some? {
        assert candidates == {last.port};
      }
    }
  }

  predicate Due(retry: Option<RetryState>, now: Instant) {
    retry.None? || (retry.value.notBefore.Some? && now >= retry.value.notBefore.value)
  }

  /** A due retry permits an attempt under the pacing rules; a refusal is never due. */
  lemma DueMayStart(retry: Option<RetryState>, attempts: seq<Attempt>, port: string, epoch: nat, now: Instant)
    requires RetryFits(retry, attempts, Some({port}), epoch) && Due(retry, now)
    ensures MayFollow(attempts, Attempt(port, epoch, now, now, Succeeded))
  {
    if attempts != [] {
      var last := attempts[|attempts| - 1];
      if last.epoch == epoch {
        assert port in {last.port};
      }
    }
  }

  lemma Singleton(candidates: Candidates, port: string)
    requires |candidates| == 1 && port in candidates
    ensures candidates == {port}
  {
    assert |candidates - {port}| == 0;
  }

  /** Nothing is recorded for the future. */
  ghost predicate ClockFits(now: Instant, lastNvmMutation: Option<Instant>, attempts: seq<Attempt>) {
    && (lastNvmMutation.Some? ==> lastNvmMutation.value <= now)
    && (attempts != [] ==> attempts[|attempts| - 1].endedAt <= now)
  }

  /** The connection state tells whether a port is held, also by the backend, and whether a dump is active. */
  ghost predicate ConnectionFits(state: DaemonState, currentPort: Option<string>, dump: Option<ActiveHistoryDump>,
                                 failures: nat, attached: bool)
  {
    && attached == currentPort.Some? && (currentPort.Some? ==> failures < 3)
    && match state.connection
       case Ready(session) => currentPort.Some? && session == state.sessionId && dump.None?
       case Busy(session, _) => currentPort.Some? && session == state.sessionId && dump.Some?
       case Absent(_) => currentPort.None? && dump.None?
       case Recovering(_, _) => currentPort.None? && dump.None?
       case UnsupportedDevice(_) => currentPort.None? && dump.None?
       case AmbiguousDevices(_) => currentPort.None? && dump.None?
       case _ => false
  }

  /** A pause without an owner is about to be retried, unless this session has already lost the line. */
  ghost predicate DisplayFits(paused: bool, dump: Option<ActiveHistoryDump>, debugLease: Option<Instant>,
                              resumeRetryAt: Option<Instant>, lost: bool)
  {
    paused && dump.None? && debugLease.None? ==> resumeRetryAt.Some? || lost
  }

  // ---- Attempts and the backend's answers --------------------------------------------------------------

  /** How an attempt ended, by what the backend answered. */
  function OutcomeOf(answered: Result<()>): AttemptOutcome {
    match answered
    case Ok(_) => Succeeded
    case Err(ProtocolUnverified(_)) => Refused
    case Err(Unsupported(_)) => Refused
    case Err(_) => Retryable
  }

  /** The attempts on record are the ports that the backend was asked to open, one for one, with what it answered. */
  ghost predicate AttemptsFit(attempts: seq<Attempt>, opens: seq<Opening>) {
    && |attempts| == |opens|
    && forall i :: 0 <= i < |opens| ==> AttemptFits(attempts[i], opens[i])
  }

  ghost predicate AttemptFits(attempt: Attempt, opening: Opening) {
    attempt.port == opening.port && Ended(opening, attempt.outcome)
  }

  /** The opening has come to an outcome of this kind. */
  predicate Ended(opening: Opening, outcome: AttemptOutcome) {
    opening.Outcome().Some? && OutcomeOf(opening.Outcome().value) == outcome
  }

  /** The backend was asked to open one port more than there are attempts on record. */
  ghost predicate OneMore(attempts: seq<Attempt>, opens: seq<Opening>, port: string, answered: Option<Result<()>>) {
    && |opens| == |attempts| + 1 && AttemptsFit(attempts, opens[..|attempts|])
    && opens[|attempts|].port == port && opens[|attempts|].Outcome() == answered
  }

  lemma PortOpened(attempts: seq<Attempt>, opens: seq<Opening>, opening: Opening)
    requires AttemptsFit(attempts, opens)
    ensures OneMore(attempts, opens + [opening], opening.port, opening.Outcome())
  {
    assert (opens + [opening])[..|opens|] == opens;
  }

  lemma FirstReading(attempts: seq<Attempt>, opens: seq<Opening>, port: string, reading: Result<()>)
    requires OneMore(attempts, opens, port, None)
    ensures OneMore(attempts, WithReading(opens, reading), port, Some(reading))
  {
    assert WithReading(opens, reading)[..|attempts|] == opens[..|attempts|];
  }

  /** Once every opening has its outcome, what is read of the telemetry belongs to none of them. */
  lemma LaterReading(attempts: seq<Attempt>, opens: seq<Opening>, reading: Result<()>)
    requires AttemptsFit(attempts, opens)
    ensures WithReading(opens, reading) == opens
  {
    if opens != [] {
      assert AttemptFits(attempts[|opens| - 1], opens[|opens| - 1]);
    }
  }

  lemma AttemptEnded(attempts: seq<Attempt>, opens: seq<Opening>, attempt: Attempt, answered: Result<()>)
    requires OneMore(attempts, opens, attempt.port, Some(answered)) && attempt.outcome == OutcomeOf(answered)
    ensures AttemptsFit(attempts + [attempt], opens)
  {
    forall i | 0 <= i < |opens| ensures AttemptFits((attempts + [attempt])[i], opens[i]) {
      if i < |attempts| {
        assert AttemptFits(attempts[i], opens[..|attempts|][i]);
      }
    }
  }

  // ---- Truthful replies ------------------------------------------------------------------------------

  /** What the client is told about a theme write: an unfinished mutation is unknown, an unstarted one only lost. */
  function WriteReply(written: Result<()>): Result<()> {
    match written
    case Err(ConnectionLost) => Err(OperationOutcomeUnknown)
    case Err(ConnectionLostBeforeMutation) => Err(ConnectionLost)
    case _ => written
  }

  /** Success means patched; only an unknown outcome and a failed rollback leave the covering sectors unknown. */
  ghost predicate WriteReplyTruth(before: seq<byte>, slot: ThemeAssetSlot, data: seq<byte>, reply: Result<()>,
                                  after: seq<byte>)
  {
    && |before| == |after| == SPI_FLASH_SIZE
    && OnlyWithin(before, after, slot.SectorStart(), slot.SectorEnd())
    && match reply
       case Ok(_) => |data| == slot.ByteLen() && after == Patched(before, slot.Address(), data)
       case Err(OperationOutcomeUnknown) => true
       case Err(RollbackFailed(_, _)) => true
       case Err(_) => after == before
  }

  lemma WriteReplyIsTruthful(before: seq<byte>, slot: ThemeAssetSlot, data: seq<byte>, written: Result<()>,
                             after: seq<byte>)
    requires ThemeWriteStep(before, slot, data, written, after)
    ensures WriteReplyTruth(before, slot, data, WriteReply(written), after)
    ensures written !in {Err(ConnectionLost), Err(ConnectionLostBeforeMutation)} ==> WriteReply(written) == written
    ensures written == Err(ConnectionLost) ==> WriteReply(written) == Err(OperationOutcomeUnknown)
    ensures written == Err(ConnectionLostBeforeMutation) ==> WriteReply(written) == Err(ConnectionLost)
  {
  }

  /** What the client is told about a configuration change that lost the line. */
  function MutationReply<T>(result: Result<T>): Result<T> {
    if result == Err(ConnectionLost) then Err(OperationOutcomeUnknown) else result
  }

  /** What a reply about a configuration change reports of the change itself. */
  function Reported<T>(reply: Result<T>): Result<T> {
    if reply == Err(OperationOutcomeUnknown) then Err(ConnectionLost) else reply
  }

  /** The bytes are that part of the flash's log region. */
  ghost predicate IsLogChunk(flash: seq<byte>, offset: nat, length: nat, bytes: seq<byte>) {
    && |flash| == SPI_FLASH_SIZE && offset + length <= History.FLASH_LENGTH
    && bytes == LogRegion(flash)[offset..offset + length]
  }

  ghost predicate IsSlot(flash: seq<byte>, slot: ThemeAssetSlot, bytes: seq<byte>) {
    slot.End() <= |flash| && bytes == flash[slot.Address()..slot.End()]
  }

  /** Everything that happened, for the record. */
  datatype Record = Record(
    published: seq<DaemonState>, events: seq<DeviceEvent>,
    position: Position,                      // where a reader of the events stands
    displaySteps: seq<DisplayStep>, nvmSlots: seq<NvmSlot>, attempts: seq<Attempt>,
    candidates: Option<Candidates>,          // the host's latest candidate list
    epoch: nat)                              // how often it has changed

  /** Everything a client may ask for. */
  datatype ClientCommand =
    | SetScreen(screen: Screen)
    | BeginHistoryDump
    | ReadHistoryDumpChunk(dumpId: nat, offset: nat, length: nat, requested: nat -> bool)
    | EndHistoryDump(dumpId: nat)
    | ReadHistoryChunk(offset: nat, length: nat)
    | ReadThemeAsset(slot: ThemeAssetSlot)
    | WriteThemeAsset(slot: ThemeAssetSlot, data: seq<byte>)
    | ReadDeviceInfo
    | ClearFaults(activeMask: nat, loggedMask: nat)
    | GetPollInterval
    | SetPollInterval(milliseconds: nat)
    | GetDisplayPause
    | PauseDisplay(milliseconds: nat)
    | ResumeDisplay
    | ReadConfiguration
    | ReadConfigurationItem(key: string)
    | ApplyConfiguration(configuration: DeviceConfiguration, persist: bool, expectedRevision: Option<string>)
    | SetConfigurationItem(key: string, value: string, persist: bool)
    | ReloadConfiguration
    | ResetConfiguration
    | RebootDevice

  /** What a client is told. */
  datatype Reply =
    | Done(done: Result<()>)
    | Begun(dump: Result<HistoryDump>)
    | Delivered(bytes: Result<seq<byte>>)
    | Identified(identity: Result<DeviceIdentity>)
    | Cleared(telemetry: Result<Telemetry>)
    | Polling(milliseconds: Result<nat>)
    | Paused(pause: Result<DisplayPauseState>)
    | Configured(configuration: Result<DeviceConfiguration>)
    | Found(item: Result<string>)

  /** What may wake the loop: a deadline, the host, a client, or the end. */
  datatype Input = Timer | HostCandidates(ports: Candidates) | ClientRequest(command: ClientCommand) | HostShutdown

  /** The logs only grow. */
  ghost predicate Grown(before: Record, after: Record) {
    && before.published <= after.published && before.events <= after.events && before.displaySteps <= after.displaySteps
    && before.nvmSlots <= after.nvmSlots && before.attempts <= after.attempts && before.epoch <= after.epoch
  }

  lemma GrowthComposes()
    ensures forall a :: Grown(a, a)
    ensures forall a, b, c :: Grown(a, b) && Grown(b, c) ==> Grown(a, c)
  {
  }

  const EMPTY_RECORD := Record([], [], Position(0, false, 0), [], [], [], None, 0)

  /** What serving one input adds to the record of the host's lists, the attempts and non-volatile memory. */
  ghost predicate Explains(input: Input, before: Record, after: Record) {
    && SlotsFor(input, before.nvmSlots, after.nvmSlots)
    && if input.HostCandidates? then
         && after.candidates == Some(input.ports)
         && after.epoch == EpochAfter(before.candidates, before.epoch, input.ports)
         && (after.attempts == before.attempts || MadeUnder(input.ports, before.attempts, after))
       else
         after.candidates == before.candidates && after.epoch == before.epoch && after.attempts == before.attempts
  }

  /** One attempt more was made, on the only port of the list, under the count of changes that the list led to. */
  predicate MadeUnder(candidates: Candidates, before: seq<Attempt>, after: Record) {
    && |after.attempts| == |before| + 1 && after.attempts[..|before|] == before
    && candidates == {after.attempts[|before|].port} && after.attempts[|before|].epoch == after.epoch
  }

  /** A client sets the poll interval, within bounds; nothing else does. */
  function IntervalAfter(input: Input, before: nat): nat {
    match input
    case ClientRequest(SetPollInterval(milliseconds)) => if 100 <= milliseconds <= 5000 then milliseconds else before
    case _ => before
  }

  predicate ChangesConfiguration(command: ClientCommand) {
    || command.ApplyConfiguration? || command.SetConfigurationItem?
    || command.ReloadConfiguration? || command.ResetConfiguration?
  }

  predicate UsesFlash(command: ClientCommand) {
    || command.BeginHistoryDump? || command.ReadHistoryDumpChunk? || command.EndHistoryDump?
    || command.ReadHistoryChunk? || command.ReadThemeAsset? || command.WriteThemeAsset?
  }

  predicate AsksDevice(command: ClientCommand) {
    command.SetScreen? || command.ClearFaults? || command.RebootDevice?
  }

  /** What a command has to send to a device in a ready session, apart from configurations, flash and display pause. */
  function SentFor(command: ClientCommand): Option<DeviceCommand> {
    match command
    case SetScreen(screen) => Some(ShowScreen(screen))
    case ClearFaults(activeMask, loggedMask) =>
      if KnownFaults(activeMask, loggedMask) then Some(ClearMasks(activeMask, loggedMask)) else None
    case RebootDevice => Some(Restart)
    case _ => None
  }

  /** At least one fault, and only faults that exist. */
  predicate KnownFaults(activeMask: nat, loggedMask: nat) {
    activeMask < KNOWN_FAULTS_LIMIT && loggedMask < KNOWN_FAULTS_LIMIT && (activeMask != 0 || loggedMask != 0)
  }

  /** The slots that serving an input takes: the client's for what it asked for, and one for a rollback. */
  predicate SlotsFor(input: Input, before: seq<NvmSlot>, after: seq<NvmSlot>) {
    match input
    case ClientRequest(ApplyConfiguration(_, persist, _)) => TookStores(before, persist, after)
    case ClientRequest(SetConfigurationItem(_, _, persist)) => TookStores(before, persist, after)
    case ClientRequest(ResetConfiguration) => after == before || TookSlot(before, Reset, true, after)
    case _ => after == before
  }

  /** Serving the inputs one after the other led from one record to the other. */
  ghost predicate Led(before: Record, inputs: seq<Input>, after: Record) {
    if inputs == [] then after == before
    else
      var n := |inputs| - 1;
      exists between :: Led(before, inputs[..n], between) && Explains(inputs[n], between, after)
  }

  lemma LedOn(before: Record, inputs: seq<Input>, between: Record, input: Input, after: Record)
    requires Led(before, inputs, between) && Explains(input, between, after)
    ensures Led(before, inputs + [input], after)
  {
    assert (inputs + [input])[..|inputs|] == inputs;
  }

  class Manager {
    const backend: SerialBackend
    /** The checksum over a session and a configuration; nothing is known about it. */
    const revisionOf: (nat, DeviceConfiguration) -> Option<string>
    /** One setting of a configuration as text, and a configuration's settings with one of them replaced. */
    const itemOf: (DeviceConfiguration, string) -> Option<string>
    const withItem: (DeviceConfiguration, string, string) -> Option<DeviceSettings>

    var now: Instant
    var pollInterval: nat
    var state: DaemonState
    var watched: DaemonState  // what the state channel shows
    var currentPort: Option<string>
    var retry: Option<RetryState>
    var consecutivePollFailures: nat
    var lastSuccessfulPoll: Option<Instant>
    var activeHistoryDump: Option<ActiveHistoryDump>
    var nextHistoryDumpId: nat
    var debugPauseExpiresAt: Option<Instant>
    var displayPhysicallyPaused: bool
    var displayResumeRetryAt: Option<Instant>
    var historyCancellation: Option<nat>  // the dump id in the slot shared with the handles
    var lastNvmMutation: Option<Instant>

    ghost var record: Record

    // ---- Invariant -----------------------------------------------------------------------------------

    ghost predicate IsReady()
      reads this`state
    {
      state.connection.Ready?
    }

    /** What every step keeps, even while a port is being opened. */
    ghost predicate Core()
      reads this`state, this`watched, this`currentPort, this`retry, this`activeHistoryDump, this`historyCancellation,
        this`nextHistoryDumpId, this`debugPauseExpiresAt, this`displayPhysicallyPaused, this`displayResumeRetryAt,
        this`lastNvmMutation, this`now, this`record, backend`nvmLog, backend`displayLog, backend.port`flash
    {
      && |backend.port.flash| == SPI_FLASH_SIZE
      && PublishedFits(record.published, watched, state.sequence)
      && EventsFit(record.events, record.position, state.sequence)
      && SessionFits(state, currentPort, retry, record.position)
      && LeasesFit(state.sessionId, currentPort, activeHistoryDump, historyCancellation, nextHistoryDumpId,
                   debugPauseExpiresAt, displayPhysicallyPaused, displayResumeRetryAt)
      && NeverResumedWhileOwned(record.displaySteps) && Commands(record.displaySteps) == backend.displayLog
      && NvmFits(record.nvmSlots, lastNvmMutation, backend.nvmLog)
      && RetryFits(retry, record.attempts, record.candidates, record.epoch)
      && ClockFits(now, lastNvmMutation, record.attempts)
    }

    /** What every step inside a handler keeps: also, every port opened so far is on record, with what came of it. */
    ghost predicate Steady()
      reads this`state, this`watched, this`currentPort, this`retry, this`activeHistoryDump, this`historyCancellation,
        this`nextHistoryDumpId, this`debugPauseExpiresAt, this`displayPhysicallyPaused, this`displayResumeRetryAt,
        this`lastNvmMutation, this`now, this`record, backend`nvmLog, backend`displayLog, backend`opens,
        backend.port`flash
    {
      Core() && AttemptsFit(record.attempts, backend.opens)
    }

    /** What holds whenever the loop is at its head. */
    ghost predicate Inv()
      reads this`state, this`watched, this`currentPort, this`retry, this`activeHistoryDump, this`historyCancellation,
        this`nextHistoryDumpId, this`debugPauseExpiresAt, this`displayPhysicallyPaused, this`displayResumeRetryAt,
        this`lastNvmMutation, this`now, this`record, this`consecutivePollFailures,
        backend`nvmLog, backend`displayLog, backend`opens, backend`lost, backend`attached, backend.port`flash
    {
      && Steady() && watched == state
      && ConnectionFits(state, currentPort, activeHistoryDump, consecutivePollFailures, backend.attached)
      && DisplayFits(displayPhysicallyPaused, activeHistoryDump, debugPauseExpiresAt, displayResumeRetryAt,
                     backend.lost)
    }

    /** What holds in a session while an operation on the device is under way. */
    ghost predicate Operating()
      reads this`state, this`watched, this`currentPort, this`retry, this`activeHistoryDump, this`historyCancellation,
        this`nextHistoryDumpId, this`debugPauseExpiresAt, this`displayPhysicallyPaused, this`displayResumeRetryAt,
        this`lastNvmMutation, this`now, this`record, this`consecutivePollFailures,
        backend`nvmLog, backend`displayLog, backend`opens, backend`lost, backend`attached, backend.port`flash
    {
      && Steady() && currentPort.Some? && activeHistoryDump.None? && consecutivePollFailures < 3 && backend.attached
      && DisplayFits(displayPhysicallyPaused, activeHistoryDump, debugPauseExpiresAt, displayResumeRetryAt,
                     backend.lost)
    }

    /**
     A held port comes with an identity and this session's telemetry; the pause implies a port, and a
     lease or retry the pause.
     */
    lemma Holds()
      requires Core()
      ensures |backend.port.flash| == SPI_FLASH_SIZE
      ensures currentPort.Some? ==>
        && state.identity.Some? && state.telemetry.Some? && retry.None?
        && state.telemetry.value.sessionId == state.sessionId
      ensures state.connectedPort == currentPort
      ensures activeHistoryDump.Some? || debugPauseExpiresAt.Some? || displayResumeRetryAt.Some? ==>
        displayPhysicallyPaused
      ensures displayPhysicallyPaused ==> currentPort.Some?
      ensures activeHistoryDump.Some? ==>
        activeHistoryDump.value.sessionId == state.sessionId && activeHistoryDump.value.id <= nextHistoryDumpId
      ensures nextHistoryDumpId <= U64_MAX && record.position.open == currentPort.Some?
      ensures record.position.sessionId == state.sessionId && record.position.sequence <= state.sequence
    {
      hide PublishedFits, ReadAll, NvmFits, NeverResumedWhileOwned, RetryFits, ClockFits, Commands;
    }

    /** The logs have only grown. */
    twostate predicate LogsGrow()
      reads this`record
    {
      Grown(old(record), record)
    }

    /** Only states, events and display commands were put on record. */
    twostate predicate Routine()
      reads this`record
    {
      record == old(record).(published := record.published, events := record.events, position := record.position,
                             displaySteps := record.displaySteps)
    }

    /** No list of the host and no attempt was put on record. */
    twostate predicate HostQuiet()
      reads this`record
    {
      && record.candidates == old(record.candidates) && record.epoch == old(record.epoch)
      && record.attempts == old(record.attempts)
    }

    /** What one more input added to the record, and did to the poll interval. */
    twostate predicate Explained(input: Input)
      reads this`record, this`pollInterval
    {
      && Explains(input, old(record), record)
      && pollInterval == IntervalAfter(input, old(pollInterval))
    }

    /** What the command asks of the device is sent to it, once and in a ready session only. */
    twostate predicate Relayed(command: ClientCommand)
      reads backend`sent
    {
      !ChangesConfiguration(command) ==>
        if old(IsReady()) && SentFor(command).Some? then backend.sent == old(backend.sent) + [SentFor(command).value]
        else backend.sent == old(backend.sent)
    }

    /** One attempt more is on record, under the current candidate list, and what follows from it is remembered. */
    twostate predicate Attempted(port: string, startedAt: Instant, outcome: AttemptOutcome)
      reads this`record, this`retry, this`now
    {
      && |record.attempts| == |old(record.attempts)| + 1
      && var last := record.attempts[|old(record.attempts)|];
      && record.attempts == old(record.attempts) + [last] && retry == RetryAfter(old(retry), last)
      && last == Attempt(port, record.epoch, startedAt, last.endedAt, outcome) && old(now) <= last.endedAt <= now
      && record.candidates == old(record.candidates) && record.epoch == old(record.epoch)
      && record.nvmSlots == old(record.nvmSlots)
    }

    /** The session was closed, once, for the given reason. */
    twostate predicate Closed(reason: DisconnectReason)
      reads this
    {
      && old(currentPort).Some? && currentPort.None?
      && state.connection == Absent(reason) && state.lastDisconnectReason == Some(reason)
      && state.sessionId == old(state.sessionId)
      && record.events == old(record.events) + [Disconnected(state.sequence, state.sessionId, reason)]
      && activeHistoryDump.None? && debugPauseExpiresAt.None? && !displayPhysicallyPaused
      && displayResumeRetryAt.None? && historyCancellation.None?
      && retry == old(retry) && record.attempts == old(record.attempts)
      && record.candidates == old(record.candidates) && record.epoch == old(record.epoch)
    }

    /** The same session goes on, and no event was sent. */
    twostate predicate SameSession()
      reads this`state, this`record, this`currentPort, this`retry
    {
      && currentPort == old(currentPort) && retry == old(retry) && state.sessionId == old(state.sessionId)
      && record.events == old(record.events) && record.attempts == old(record.attempts)
    }

    /** The first state published since is busy with the operation. */
    twostate predicate Announced(new operation: string)
      reads this`record
    {
      old(record.published)
        + [old(state).(sequence := old(state.sequence) + 1, connection := Busy(old(state.sessionId), operation))]
        <= record.published
    }

    /** `n` more states were published; the session goes on with the same port, telemetry and events. */
    twostate predicate Served(n: nat)
      reads this`state, this`record, this`currentPort
    {
      && state == old(state).(sequence := old(state.sequence) + n, connection := state.connection)
      && record.events == old(record.events) && currentPort == old(currentPort)
    }

    /** No dump was started; one that goes on is the same, above the same flash. */
    twostate predicate NoNewDump()
      reads this, backend.port
    {
      && nextHistoryDumpId == old(nextHistoryDumpId)
      && (activeHistoryDump.Some? ==>
        && old(activeHistoryDump).Some? && activeHistoryDump.value.id == old(activeHistoryDump).value.id
        && backend.port.flash == old(backend.port.flash))
    }

    /** A dump that is active with an id given out before was active all along, above the same flash. */
    twostate predicate DumpsAreGuarded()
      reads this, backend.port
    {
      && nextHistoryDumpId >= old(nextHistoryDumpId)
      && (activeHistoryDump.Some? && activeHistoryDump.value.id <= Min(old(nextHistoryDumpId), U64_MAX - 1) ==>
        && old(activeHistoryDump).Some? && activeHistoryDump.value.id == old(activeHistoryDump).value.id
        && backend.port.flash == old(backend.port.flash))
    }

    constructor (backend: SerialBackend, pollInterval: nat, revisionOf: (nat, DeviceConfiguration) -> Option<string>,
                 itemOf: (DeviceConfiguration, string) -> Option<string>,
                 withItem: (DeviceConfiguration, string, string) -> Option<DeviceSettings>)
      requires backend.Valid() && backend.Untouched()
      ensures Inv() && this.backend == backend && record == EMPTY_RECORD
      ensures this.pollInterval == pollInterval && this.revisionOf == revisionOf
      ensures this.itemOf == itemOf && this.withItem == withItem
      ensures state == INITIAL_STATE && consecutivePollFailures == 0 && lastSuccessfulPoll.None?
      ensures now == 0 && nextHistoryDumpId == 0
    {
      this.backend, this.pollInterval := backend, pollInterval;
      this.revisionOf, this.itemOf, this.withItem := revisionOf, itemOf, withItem;
      now := 0;
      state, watched, currentPort, retry := INITIAL_STATE, INITIAL_STATE, None, None;
      consecutivePollFailures, lastSuccessfulPoll := 0, None;
      activeHistoryDump, nextHistoryDumpId, debugPauseExpiresAt := None, 0, None;
      displayPhysicallyPaused, displayResumeRetryAt, historyCancellation, lastNvmMutation := false, None, None, None;
      record := EMPTY_RECORD;
    }

    // ---- Clock and publishing ------------------------------------------------------------------------

    method Now() returns (t: Instant)
      modifies this`now
      ensures t == now >= old(now)
      ensures old(Core()) ==> Core()
    {
      hide PublishedFits, EventsFit, SessionFits, LeasesFit, NvmFits, NeverResumedWhileOwned, RetryFits, Commands;
      var elapsed: nat :| 0 <= elapsed;
      now := now + elapsed;
      t := now;
    }

    method SleepUntil(t: Instant)
      modifies this`now
      ensures now >= old(now) && now >= t
      ensures old(Core()) ==> Core()
    {
      hide PublishedFits, EventsFit, SessionFits, LeasesFit, NvmFits, NeverResumedWhileOwned, RetryFits, Commands;
      var late: nat :| 0 <= late;
      now := Max(now, t) + late;
    }

    /** Replaces the state and publishes it under the next number. */
    method Publish(next: DaemonState)
      requires PublishedFits(record.published, watched, state.sequence) && next.sequence == state.sequence
      modifies this`state, this`watched, this`record
      ensures PublishedFits(record.published, watched, state.sequence) && watched == state && LogsGrow()
      ensures state == next.(sequence := old(state.sequence) + 1)
      ensures record == old(record).(published := old(record.published) + [state])
    {
      state := next.(sequence := state.sequence + 1);
      watched := state;
      record := record.(published := record.published + [state]);
    }

    /** Publishes the state with another connection under the next number. */
    method PublishConnection(connection: ConnectionState)
      requires Core()
      modifies this`state, this`watched, this`record
      ensures Core() && watched == state && LogsGrow()
      ensures state == old(state).(sequence := old(state.sequence) + 1, connection := connection)
      ensures record == old(record).(published := old(record.published) + [state])
    {
      hide PublishedFits, ReadAll, NvmFits, NeverResumedWhileOwned, RetryFits, ClockFits, Commands, Grown;
      Publish(state.(connection := connection));
    }

    method BumpAndPublish()
      requires Core()
      modifies this`state, this`watched, this`record
      ensures Core() && watched == state && LogsGrow()
      ensures state == old(state).(sequence := old(state.sequence) + 1)
      ensures record == old(record).(published := old(record.published) + [state])
    {
      hide Core, Grown;
      PublishConnection(state.connection);
    }

    method SetBusy(operation: string)
      requires Core()
      modifies this`state, this`watched, this`record
      ensures Core() && watched == state && LogsGrow()
      ensures state == old(state).(sequence := old(state.sequence) + 1,
                                   connection := Busy(old(state.sessionId), operation))
      ensures record == old(record).(published := old(record.published) + [state])
    {
      hide Core, Grown;
      PublishConnection(Busy(state.sessionId, operation));
    }

    method SetReady()
      requires Core()
      modifies this`state, this`watched, this`record
      ensures Core() && watched == state && LogsGrow()
      ensures state == old(state).(sequence := old(state.sequence) + 1, connection := Ready(old(state.sessionId)))
      ensures record == old(record).(published := old(record.published) + [state])
    {
      hide Core, Grown;
      PublishConnection(Ready(state.sessionId));
    }

    method SendEvent(event: DeviceEvent)
      requires EventsFit(record.events, record.position, state.sequence)
      requires event.sequence == state.sequence && Read(record.position, event).Some?
      modifies this`record
      ensures EventsFit(record.events, record.position, state.sequence) && LogsGrow()
      ensures record == old(record).(events := old(record.events) + [event],
                                     position := Read(old(record.position), event).value)
    {
      Appended(record.events, event);
      record := record.(events := record.events + [event], position := Read(record.position, event).value);
    }

    /** Clears the shared slot: always, or only if it still holds the given dump. */
    method ClearHistoryCancellation(dumpId: Option<nat>)
      modifies this`historyCancellation
      ensures historyCancellation
           == if dumpId == None || old(historyCancellation) == dumpId then None else old(historyCancellation)
    {
      if dumpId == None || historyCancellation == dumpId {
        historyCancellation := None;
      }
    }

    ghost predicate NoLeases()
      reads this`activeHistoryDump, this`historyCancellation, this`debugPauseExpiresAt, this`displayPhysicallyPaused,
        this`displayResumeRetryAt
    {
      && activeHistoryDump.None? && historyCancellation.None? && debugPauseExpiresAt.None?
      && !displayPhysicallyPaused && displayResumeRetryAt.None?
    }

    /** Nothing of a session's dump, leases and pause is left. */
    method ForgetLeases()
      requires Steady()
      modifies this`activeHistoryDump, this`historyCancellation, this`debugPauseExpiresAt, this`displayPhysicallyPaused,
        this`displayResumeRetryAt
      ensures Steady() && NoLeases()
    {
      hide PublishedFits, EventsFit, SessionFits, NvmFits, NeverResumedWhileOwned, RetryFits, ClockFits, Commands,
        AttemptsFit;
      activeHistoryDump := None;
      ClearHistoryCancellation(None);
      debugPauseExpiresAt, displayPhysicallyPaused, displayResumeRetryAt := None, false, None;
    }

    // ---- Sessions --------------------------------------------------------------------------------------

    /** Lets the port go: nothing of the session is left but its stale telemetry, and its end is an event. */
    method LeaveSession(reason: DisconnectReason)
      requires Steady() && currentPort.Some? && NoLeases() && !backend.attached
      modifies this`state, this`watched, this`record, this`currentPort
      ensures Inv() && Closed(reason) && LogsGrow() && state.telemetry == Staled(old(state.telemetry))
      ensures record == old(record).(published := record.published, events := record.events,
                                     position := record.position)
      ensures record.published == old(record.published) + [state]
    {
      hide PublishedFits, ReadAll, NvmFits, RetryFits, ClockFits, NeverResumedWhileOwned, Commands, AttemptsFit, Grown;
      GrowthComposes();
      currentPort := None;
      Publish(state.(connectedPort := None, telemetry := Staled(state.telemetry),
                     connection := Absent(reason), lastDisconnectReason := Some(reason)));
      SendEvent(Disconnected(state.sequence, state.sessionId, reason));
    }

    /** Ends the session that holds the port. */
    method CloseSession(reason: DisconnectReason)
      requires Steady() && currentPort.Some?
      modifies this`state, this`watched, this`record, this`currentPort, this`activeHistoryDump,
        this`historyCancellation, this`debugPauseExpiresAt, this`displayPhysicallyPaused, this`displayResumeRetryAt,
        backend`attached, backend`configVersion
      ensures Inv() && Closed(reason) && LogsGrow() && state.telemetry == Staled(old(state.telemetry))
      ensures record == old(record).(published := record.published, events := record.events,
                                     position := record.position)
      ensures
        var leaving := old(state).(sequence := old(state.sequence) + 1,
                                   connection := Disconnecting(old(state.sessionId), reason));
        record.published == old(record.published) + [leaving, state]
    {
      hide Core, AttemptsFit, Grown;
      GrowthComposes();
      PublishConnection(Disconnecting(state.sessionId, reason));
      backend.Disconnect();
      ForgetLeases();
      LeaveSession(reason);
    }

    /** Closes the session if there is one; otherwise only a state other than Absent is replaced. */
    method Disconnect(reason: DisconnectReason)
      requires Steady()
      requires currentPort.None? ==> Inv()
      modifies this`state, this`watched, this`record, this`currentPort, this`activeHistoryDump,
        this`historyCancellation, this`debugPauseExpiresAt, this`displayPhysicallyPaused, this`displayResumeRetryAt,
        backend`attached, backend`configVersion
      ensures Inv() && LogsGrow() && currentPort.None? && state.connection.Absent?
      ensures old(currentPort).Some? ==> Closed(reason) && state.telemetry == Staled(old(state.telemetry))
      ensures record == old(record).(published := record.published, events := record.events,
                                     position := record.position)
      ensures state.sessionId == old(state.sessionId)
      ensures old(currentPort).None? ==>
        record.events == old(record.events) && state.sequence <= old(state.sequence) + 1
      ensures old(currentPort).None? && old(state.connection).Absent? ==> state == old(state)
      ensures
        var leaving := old(state).(sequence := old(state.sequence) + 1,
                                   connection := Disconnecting(old(state.sessionId), reason));
        old(currentPort).Some? ==> record.published == old(record.published) + [leaving, state]
      ensures old(currentPort).None? ==>
        record.published == old(record.published) + if old(state.connection).Absent? then [] else [state]
    {
      hide PublishedFits, ReadAll, NvmFits, RetryFits, ClockFits, NeverResumedWhileOwned, Commands, AttemptsFit, Grown;
      GrowthComposes();
      if currentPort.None? && !state.connection.Ready? && !state.connection.Busy? {
        if !state.connection.Absent? {
          Publish(state.(connection := Absent(reason), lastDisconnectReason := Some(reason)));
        }
        return;
      }
      CloseSession(reason);
    }

    /** How an operation begins, in a ready session. */
    method BeginOperation(operation: string)
      requires Inv() && IsReady()
      modifies this`state, this`watched, this`record
      ensures Operating() && LogsGrow()
      ensures state == old(state).(sequence := old(state.sequence) + 1, connection := Busy(state.sessionId, operation))
      ensures record == old(record).(published := old(record.published) + [state])
    {
      hide Core, AttemptsFit, Grown;
      SetBusy(operation);
    }

    /** How an operation ends: with the session closed if the line was lost, else ready again. */
    method Settle(lost: bool)
      requires Operating()
      modifies this`state, this`watched, this`record, this`currentPort, this`activeHistoryDump,
        this`historyCancellation, this`debugPauseExpiresAt, this`displayPhysicallyPaused, this`displayResumeRetryAt,
        backend`attached, backend`configVersion
      ensures Inv() && LogsGrow()
      ensures lost ==> Closed(SerialHangup)
      ensures !lost ==> Served(1) && state.connection == Ready(state.sessionId)
      ensures !lost ==>
        debugPauseExpiresAt == old(debugPauseExpiresAt) && displayPhysicallyPaused == old(displayPhysicallyPaused)
        && backend.attached == old(backend.attached)
      ensures record == old(record).(published := record.published, events := record.events,
                                     position := record.position)
      ensures old(record.published) <= record.published
    {
      hide Core, AttemptsFit, Grown;
      GrowthComposes();
      if lost {
        Disconnect(SerialHangup);
      } else {
        SetReady();
      }
    }

    // ---- Configuration protocol ------------------------------------------------------------------------

    ghost function DeviceCopies(): Copies
      reads backend
    {
      Copies(backend.active, backend.stored)
    }

    /** The device would report the configuration if it were the active one. */
    ghost predicate MayReplace(configuration: DeviceConfiguration)
      reads backend`configVersion
    {
      Valid(configuration) && InOrdinalOrder(configuration) && backend.configVersion == Some(configuration.rawVersion)
    }

    /** The request is for the configuration that the device holds and reports. */
    ghost predicate MadeFor(request: DeviceConfiguration, expectedRevision: Option<string>)
      reads this`state, backend
    {
      && backend.Readable()
      && backend.active.rawVersion == request.rawVersion && backend.active.crc == request.crc
      && (expectedRevision.Some? ==> revisionOf(state.sessionId, backend.active) == expectedRevision)
    }

    /** Why a request is refused that was not made for what the device reports. */
    ghost function Refusal(request: DeviceConfiguration, expectedRevision: Option<string>): DeviceError
      reads this`state, backend`active
    {
      var actual := revisionOf(state.sessionId, backend.active);
      if expectedRevision.Some? && actual.Some? && actual != expectedRevision then RevisionConflict else InvalidArgument
    }

    /** Waits until a second has passed since the last recorded slot, and takes the next one for a client. */
    method WaitForNvmMutationSlot(ghost operation: NvmOperation)
      requires NvmFits(record.nvmSlots, lastNvmMutation, backend.nvmLog)
      requires ClockFits(now, lastNvmMutation, record.attempts)
      modifies this`now, this`lastNvmMutation, this`record
      ensures NvmFits(record.nvmSlots, lastNvmMutation, backend.nvmLog + [operation])
      ensures ClockFits(now, lastNvmMutation, record.attempts) && now >= old(now) && LogsGrow() && lastNvmMutation.Some?
      ensures record
           == old(record).(nvmSlots := old(record.nvmSlots) + [NvmSlot(lastNvmMutation.value, operation, true)])
    {
      hide Core, Grown, NvmFits;
      AwaitNvmInterval();
      TakeNvmSlot(operation, true);
    }

    method AwaitNvmInterval()
      requires ClockFits(now, lastNvmMutation, record.attempts)
      modifies this`now
      ensures now >= old(now) && ClockFits(now, lastNvmMutation, record.attempts)
      ensures lastNvmMutation.Some? ==> now >= lastNvmMutation.value + MIN_NVM_MUTATION_INTERVAL
    {
      hide Core;
      if lastNvmMutation.Some? {
        var read := Now();
        var elapsed := read - lastNvmMutation.value;
        if elapsed < MIN_NVM_MUTATION_INTERVAL {
          SleepUntil(now + (MIN_NVM_MUTATION_INTERVAL - elapsed));
        }
      }
    }

    /** Records this moment as a slot; a rollback takes it without having waited. */
    method TakeNvmSlot(ghost operation: NvmOperation, ghost client: bool)
      requires NvmFits(record.nvmSlots, lastNvmMutation, backend.nvmLog)
      requires ClockFits(now, lastNvmMutation, record.attempts)
      requires client && lastNvmMutation.Some? ==> now >= lastNvmMutation.value + MIN_NVM_MUTATION_INTERVAL
      modifies this`now, this`lastNvmMutation, this`record
      ensures NvmFits(record.nvmSlots, lastNvmMutation, backend.nvmLog + [operation])
      ensures ClockFits(now, lastNvmMutation, record.attempts) && now >= old(now) && LogsGrow() && lastNvmMutation.Some?
      ensures record
           == old(record).(nvmSlots := old(record.nvmSlots) + [NvmSlot(lastNvmMutation.value, operation, client)])
    {
      hide Core, NvmFits;
      var taken := Now();
      SlotTaken(record.nvmSlots, lastNvmMutation, backend.nvmLog, NvmSlot(taken, operation, client));
      lastNvmMutation := Some(taken);
      record := record.(nvmSlots := record.nvmSlots + [NvmSlot(taken, operation, client)]);
    }

    /** Stores or resets, in a slot of its own: a client waits for it, a rollback does not. */
    method MutateNvm(operation: NvmOperation, client: bool) returns (result: Result<()>)
      requires Steady() && operation != Reload
      modifies this`now, this`lastNvmMutation, this`record, backend`active, backend`stored, backend`lost,
        backend`sent, backend`writes, backend`writesAfterLoss, backend`nvmLog
      ensures Steady() && LogsGrow() && now >= old(now) && lastNvmMutation.Some?
      ensures record
           == old(record).(nvmSlots := old(record.nvmSlots) + [NvmSlot(lastNvmMutation.value, operation, client)])
      ensures backend.lost == (old(backend.lost) || result == Err(ConnectionLost))
      ensures result.Err? ==> ExchangeError(result.error)
      ensures backend.writes == old(backend.writes) + 1 && backend.sent == old(backend.sent) + [Nvm(operation)]
      ensures backend.writesAfterLoss == old(backend.writesAfterLoss) + if old(backend.lost) then 1 else 0
      ensures result.Ok? ==> backend.stored == backend.active
      ensures backend.answering ==> result.Ok? && (operation == Store ==> backend.active == old(backend.active))
    {
      hide PublishedFits, EventsFit, SessionFits, LeasesFit, NeverResumedWhileOwned, RetryFits, Commands, AttemptsFit,
        NvmFits;
      if client {
        WaitForNvmMutationSlot(operation);
      } else {
        TakeNvmSlot(operation, false);
      }
      result := backend.NvmConfiguration(operation);
    }

    /** Writes, verifies and, if asked, stores the request. A lost line ends it at once. */
    method TryConfiguration(configuration: DeviceConfiguration, persist: bool)
      returns (result: Result<DeviceConfiguration>)
      requires Steady()
      modifies this`now, this`lastNvmMutation, this`record, backend`active, backend`stored, backend`lost,
        backend`sent, backend`writes, backend`writesAfterLoss, backend`nvmLog
      ensures Steady() && LogsGrow() && now >= old(now) && record == old(record).(nvmSlots := record.nvmSlots)
      ensures old(backend.lost) ==> backend.lost
      ensures !persist ==> backend.stored == old(backend.stored)
      ensures result.Ok? ==> result.value == backend.active && SameSettings(result.value, configuration)
      ensures result.Ok? ==> InOrdinalOrder(configuration)
      ensures result.Ok? ==> if persist then backend.stored == result.value else result.value == configuration
      ensures result.Ok? ==>
        backend.sent == old(backend.sent) + [WriteActive(configuration)] + if persist then [Nvm(Store)] else []
      ensures !old(backend.lost) ==>
        backend.writesAfterLoss == old(backend.writesAfterLoss) && backend.lost == (result == Err(ConnectionLost))
      ensures record.nvmSlots == old(record.nvmSlots)
        || (persist && TookSlot(old(record.nvmSlots), Store, true, record.nvmSlots))
      ensures result.Ok? && persist ==> record.nvmSlots != old(record.nvmSlots)
      ensures backend.Faultless() && Valid(configuration) && backend.configVersion == Some(configuration.rawVersion) ==>
        if InOrdinalOrder(configuration) then result.Ok? else result == Err(VerificationFailed)
      ensures result.Ok? ==> now >= old(now) + if persist then 150 else 50
    {
      hide Valid, Validate, InOrdinalOrder, Ordered, Core, AttemptsFit, Grown;
      GrowthComposes();
      if Valid(configuration) {
        OrderedIsReadable(configuration);
      }
      var written := backend.WriteConfiguration(configuration);
      if written.Err? {
        return Err(written.error);
      }
      SleepUntil(now + 50);
      var applied := backend.ReadConfiguration();
      if applied.Err? {
        return applied;
      }
      if applied.value != configuration {
        return Err(VerificationFailed);
      }
      if !persist {
        return applied;
      }
      result := StoreConfiguration(configuration, true);
    }

    /** Stores what is active, for the client or for a rollback, and compares what is then read. */
    method StoreConfiguration(configuration: DeviceConfiguration, client: bool)
      returns (result: Result<DeviceConfiguration>)
      requires Steady()
      modifies this`now, this`lastNvmMutation, this`record, backend`active, backend`stored, backend`lost,
        backend`sent, backend`writes, backend`writesAfterLoss, backend`nvmLog
      ensures Steady() && LogsGrow() && now >= old(now) && record == old(record).(nvmSlots := record.nvmSlots)
      ensures result.Ok? ==>
        && result.value == backend.active == backend.stored && SameSettings(result.value, configuration)
        && backend.sent == old(backend.sent) + [Nvm(Store)]
      ensures old(backend.lost) ==> backend.lost
      ensures !old(backend.lost) ==>
        backend.writesAfterLoss == old(backend.writesAfterLoss) && backend.lost == (result == Err(ConnectionLost))
      ensures TookSlot(old(record.nvmSlots), Store, client, record.nvmSlots)
      ensures backend.answering ==> backend.active == old(backend.active)
      ensures backend.answering && old(backend.Readable()) && SameSettings(old(backend.active), configuration) ==>
        result.Ok?
      ensures result.Ok? ==> now >= old(now) + 100
    {
      hide Valid, InOrdinalOrder, Core, AttemptsFit, Grown;
      GrowthComposes();
      var saved := MutateNvm(Store, client);
      if saved.Err? {
        return Err(saved.error);
      }
      SleepUntil(now + 100);
      var stored := backend.ReadConfiguration();
      result := Compared(stored, configuration);
    }

    /** What was read back is validated and compared with the settings that were meant. */
    method Compared(read: Result<DeviceConfiguration>, meant: DeviceConfiguration)
      returns (result: Result<DeviceConfiguration>)
      ensures result.Ok? <==> read.Ok? && Valid(read.value) && SameSettings(read.value, meant)
      ensures result.Ok? || read.Err? ==> result == read
      ensures result.Err? && read.Ok? ==> result.error in {InvalidArgument, VerificationFailed}
    {
      hide Valid;
      if read.Err? {
        return read;
      }
      if Validate(read.value).Err? {
        return Err(InvalidArgument);
      }
      if !SameSettings(read.value, meant) {
        return Err(VerificationFailed);
      }
      return read;
    }

    /** Puts the original back; if the change was to be persisted, stores it too, under its own recorded slot. */
    method RollbackConfiguration(original: DeviceConfiguration, persist: bool) returns (result: Result<()>)
      requires Steady()
      modifies this`now, this`lastNvmMutation, this`record, backend`active, backend`stored, backend`lost,
        backend`sent, backend`writes, backend`writesAfterLoss, backend`nvmLog
      ensures Steady() && LogsGrow() && now >= old(now) && record == old(record).(nvmSlots := record.nvmSlots)
      ensures old(backend.lost) ==> backend.lost
      ensures !persist ==> backend.stored == old(backend.stored)
      ensures result.Ok? ==>
        if persist then SameSettings(backend.active, original) && backend.stored == backend.active
        else backend.active == original
      ensures result.Ok? ==>
        backend.sent == old(backend.sent) + [WriteActive(original)] + if persist then [Nvm(Store)] else []
      ensures !old(backend.lost) ==>
        backend.writesAfterLoss == old(backend.writesAfterLoss) && backend.lost == (result == Err(ConnectionLost))
      ensures record.nvmSlots == old(record.nvmSlots)
        || (persist && TookSlot(old(record.nvmSlots), Store, false, record.nvmSlots))
      ensures result.Ok? && persist ==> record.nvmSlots != old(record.nvmSlots)
      ensures backend.Faultless() && MayReplace(original) ==> result.Ok? && backend.active == original
      ensures result.Ok? ==> now >= old(now) + if persist then 150 else 50
      ensures backend.answering && MayReplace(original) && backend.Kept(original) != original && backend.Readable() ==>
        result == Err(VerificationFailed)
    {
      hide Valid, InOrdinalOrder, Ordered, Core, AttemptsFit, Grown;
      GrowthComposes();
      if Valid(original) {
        OrderedIsReadable(original);
      }
      var written := backend.WriteConfiguration(original);
      if written.Err? {
        return written;
      }
      SleepUntil(now + 50);
      var restored := backend.ReadConfiguration();
      if restored.Err? {
        return Err(restored.error);
      }
      if restored.value != original {
        return Err(VerificationFailed);
      }
      if persist {
        var stored := StoreConfiguration(original, false);
        return Acknowledged(stored);
      }
      return Ok(());
    }

    /** The active configuration, if the request was made for it. */
    method CurrentConfiguration(request: DeviceConfiguration, expectedRevision: Option<string>)
      returns (current: Result<DeviceConfiguration>)
      modifies backend`lost
      ensures current.Ok? ==>
        && current.value == backend.active && backend.lost == old(backend.lost) && MadeFor(request, expectedRevision)
      ensures current.Err? ==> ExchangeError(current.error) || current.error in {InvalidArgument, RevisionConflict}
      ensures old(backend.lost) ==> backend.lost
      ensures !old(backend.lost) ==> (backend.lost <==> current == Err(ConnectionLost))
      ensures backend.answering ==> (current.Ok? <==> MadeFor(request, expectedRevision))
      ensures backend.answering && backend.Readable() && !MadeFor(request, expectedRevision) ==>
        current == Err(Refusal(request, expectedRevision))
    {
      hide Valid, InOrdinalOrder;
      current := backend.ReadConfiguration();
      if current.Err? {
        return;
      }
      if expectedRevision.Some? {
        var actual := revisionOf(state.sessionId, current.value);
        if actual.None? {
          return Err(InvalidArgument);
        }
        if actual.value != expectedRevision.value {
          return Err(RevisionConflict);
        }
      }
      if current.value.rawVersion != request.rawVersion || current.value.crc != request.crc {
        return Err(InvalidArgument);
      }
    }

    /**
     Applies a configuration, or puts the previous one back; its answer is true over every fault
     schedule. On a faultless device it succeeds exactly for valid requests, made for what the device
     reports, whose lists are in ordinal order; a request that fails for its order alone is rolled back.
     */
    method ApplyConfiguration(configuration: DeviceConfiguration, persist: bool, expectedRevision: Option<string>)
      returns (result: Result<DeviceConfiguration>)
      requires Steady()
      modifies this`now, this`lastNvmMutation, this`record, backend`active, backend`stored, backend`lost,
        backend`sent, backend`writes, backend`writesAfterLoss, backend`nvmLog
      ensures Steady() && LogsGrow() && now >= old(now) && record == old(record).(nvmSlots := record.nvmSlots)
      ensures result != Err(OperationOutcomeUnknown) && (old(backend.lost) ==> backend.lost)
      ensures ApplyTruth(old(DeviceCopies()), configuration, persist, result,
                         backend.writes - old(backend.writes), DeviceCopies())
      ensures !old(backend.lost) ==>
        backend.writesAfterLoss == old(backend.writesAfterLoss) && backend.lost == (result == Err(ConnectionLost))
      ensures !Valid(configuration) ==> result == Err(InvalidArgument)
      ensures result.Ok? ==> InOrdinalOrder(configuration)
      ensures backend.writes > old(backend.writes) ==> old(MadeFor(configuration, expectedRevision))
      ensures result.Ok? ==>
        backend.sent == old(backend.sent) + [WriteActive(configuration)] + if persist then [Nvm(Store)] else []
      ensures TookStores(old(record.nvmSlots), persist, record.nvmSlots)
      ensures result.Ok? && persist ==> TookSlot(old(record.nvmSlots), Store, true, record.nvmSlots)
      ensures backend.Faultless() ==>
        (result.Ok? <==>
          Valid(configuration) && old(MadeFor(configuration, expectedRevision)) && InOrdinalOrder(configuration))
      ensures backend.Faultless() && result.Err? && Valid(configuration) ==>
        old(MadeFor(configuration, expectedRevision)) ==> result == Err(FailedAndRolledBack(VerificationFailed))
      ensures backend.answering && Valid(configuration) && old(backend.Readable()) ==>
        !old(MadeFor(configuration, expectedRevision)) ==> result == Err(old(Refusal(configuration, expectedRevision)))
    {
      hide Valid, InOrdinalOrder, Core, AttemptsFit, Grown;
      GrowthComposes();
      if Validate(configuration).Err? {
        return Err(InvalidArgument);
      }
      var current := CurrentConfiguration(configuration, expectedRevision);
      if current.Err? {
        return current;
      }
      var operation := TryConfiguration(configuration, persist);
      if operation.Ok? || operation.error == ConnectionLost {
        return operation;
      }
      var rolledBack := RollbackConfiguration(current.value, persist);
      result := RollbackReply(operation.error, rolledBack);
    }

    /** How a failed change is reported once its rollback has ended. */
    function RollbackReply(operation: DeviceError, rolledBack: Result<()>): Result<DeviceConfiguration> {
      if rolledBack.Ok? then Err(FailedAndRolledBack(operation))
      else if rolledBack.error == ConnectionLost then Err(ConnectionLost)
      else Err(RollbackFailed(operation, rolledBack.error))
    }

    /** Replaces one setting of what the device reports, and applies the whole. */
    method SetConfigurationItem(key: string, value: string, persist: bool) returns (result: Result<DeviceConfiguration>)
      requires Steady()
      modifies this`now, this`lastNvmMutation, this`record, backend`active, backend`stored, backend`lost,
        backend`sent, backend`writes, backend`writesAfterLoss, backend`nvmLog
      ensures Steady() && LogsGrow() && now >= old(now) && record == old(record).(nvmSlots := record.nvmSlots)
      ensures result != Err(OperationOutcomeUnknown) && (old(backend.lost) ==> backend.lost)
      ensures !old(backend.lost) ==>
        backend.writesAfterLoss == old(backend.writesAfterLoss) && backend.lost == (result == Err(ConnectionLost))
      ensures ItemTruth(old(DeviceCopies()), key, value, persist, result,
                        backend.writes - old(backend.writes), DeviceCopies())
      ensures TookStores(old(record.nvmSlots), persist, record.nvmSlots)
      ensures result.Ok? && persist ==> TookSlot(old(record.nvmSlots), Store, true, record.nvmSlots)
      ensures backend.Faultless() ==>
        (result.Ok? <==> old(backend.Readable()) && ItemApplies(old(backend.active), key, value))
      ensures backend.answering && old(backend.Readable()) ==>
        var edited := withItem(old(backend.active), key, value);
        edited.None? || !ValidSettings(edited.value) ==> result == Err(InvalidArgument)
    {
      hide Valid, ValidSettings, InOrdinalOrder, ApplyTruth, TookSlot, Core, AttemptsFit, Grown;
      GrowthComposes();
      var current := backend.ReadConfiguration();
      if current.Err? {
        ItemRefused(DeviceCopies(), key, value, persist, current.error);
        return current;
      }
      var edited := withItem(current.value, key, value);
      if edited.None? || !ValidSettings(edited.value) {
        ItemNeedsValidSettings(current.value, key, value);
        return Err(InvalidArgument);
      }
      result := ApplyConfiguration(current.value.(settings := edited.value), persist, None);
    }

    /**
     The answer is true of the device's own settings with one of them replaced; where they make no valid
     whole, nothing happened.
     */
    ghost predicate ItemTruth(before: Copies, key: string, value: string, persist: bool,
                              result: Result<DeviceConfiguration>,
                              writesIssued: int, after: Copies)
    {
      var edited := withItem(before.active, key, value);
      if edited.Some? && ValidSettings(edited.value) then
        ApplyTruth(before, before.active.(settings := edited.value), persist, result, writesIssued, after)
      else result.Err? && writesIssued == 0 && after == before
    }

    /** The setting can be replaced, and the whole is then a valid configuration with its lists in order. */
    ghost predicate ItemApplies(active: DeviceConfiguration, key: string, value: string) {
      var edited := withItem(active, key, value);
      && edited.Some? && Valid(active.(settings := edited.value)) && InOrdinalOrder(active.(settings := edited.value))
    }

    lemma ItemNeedsValidSettings(active: DeviceConfiguration, key: string, value: string)
      ensures ItemApplies(active, key, value) ==> ValidSettings(withItem(active, key, value).value)
    {
      hide ValidSettings;
    }

    /** An error that comes before anything is written is true of the unchanged device. */
    lemma NothingApplied(copies: Copies, configuration: DeviceConfiguration, persist: bool, error: DeviceError)
      requires !error.FailedAndRolledBack?
      ensures ApplyTruth(copies, configuration, persist, Err(error), 0, copies)
    {
    }

    lemma ItemRefused(copies: Copies, key: string, value: string, persist: bool, error: DeviceError)
      requires !error.FailedAndRolledBack?
      ensures ItemTruth(copies, key, value, persist, Err(error), 0, copies)
    {
    }

    /**
     Loads the stored configuration, or resets both copies to the factory's. What is returned is
     active and stored; a reload never touches the stored copy, and only a reload skips the slot. A
     reload refused as invalid has put the previous active configuration back, or left one active that
     is itself invalid. A device that answers every exchange reloads exactly what can be loaded;
     otherwise it is left with whatever it makes of the previous configuration.
     */
    method RunNvmOperation(operation: NvmOperation) returns (result: Result<DeviceConfiguration>)
      requires Steady() && operation != Store
      modifies this`now, this`lastNvmMutation, this`record, backend`active, backend`stored, backend`lost,
        backend`sent, backend`writes, backend`writesAfterLoss, backend`nvmLog
      ensures Steady() && LogsGrow() && now >= old(now) && record == old(record).(nvmSlots := record.nvmSlots)
      ensures result != Err(OperationOutcomeUnknown) && (old(backend.lost) ==> backend.lost)
      ensures operation == Reload ==> backend.stored == old(backend.stored) && record == old(record)
      ensures result.Ok? ==>
        && Valid(result.value) && backend.active == result.value && backend.stored == result.value
        && backend.sent == old(backend.sent) + [Nvm(operation)]
      ensures result.Ok? && operation == Reload ==>
        result.value.rawVersion == old(backend.active).rawVersion && old(backend.Readable())
      ensures backend.answering && operation == Reset ==> (result.Ok? <==> backend.Readable())
      ensures operation == Reset ==> TookSlot(old(record.nvmSlots), Reset, true, record.nvmSlots)
      ensures operation == Reload && result == Err(InvalidArgument) ==>
        backend.active == old(backend.active) || !Valid(backend.active)
      ensures backend.answering && operation == Reload && old(backend.Readable()) ==>
        ReloadAnswer(old(backend.active), backend.stored, result)
      ensures backend.Faultless() && operation == Reload && old(backend.Readable()) && result.Err? ==>
        result == Err(InvalidArgument) && backend.active == old(backend.active)
    {
      hide Valid, InOrdinalOrder, Core, AttemptsFit, Grown;
      GrowthComposes();
      if backend.Faultless() && backend.Readable() {
        backend.FaultlessKeeps(backend.active);
      }
      var loaded, rollback := Load(operation);
      if loaded.Ok? || rollback.None? {
        return loaded;
      }
      result := RestoreActive(rollback.value);
    }

    /** The stored configuration would be accepted in the place of the active one. */
    ghost predicate Loadable(active: DeviceConfiguration, stored: DeviceConfiguration) {
      Valid(stored) && InOrdinalOrder(stored) && stored.rawVersion == active.rawVersion
    }

    /** How a reload ends on a device that answers every exchange and could be read before. */
    ghost predicate ReloadAnswer(before: DeviceConfiguration, stored: DeviceConfiguration,
                                 result: Result<DeviceConfiguration>)
      reads backend`active
    {
      if Loadable(before, stored) then
        result == Ok(stored)
      else
        && backend.active == backend.Kept(before)
        && result == Err(if backend.active == before || RefusedAsInvalid(before) then InvalidArgument else Transport)
    }

    /** The active configuration decodes in the place of the one before, but is invalid. */
    ghost predicate RefusedAsInvalid(before: DeviceConfiguration)
      reads backend`active
    {
      backend.active.rawVersion == before.rawVersion && InOrdinalOrder(backend.active) && !Valid(backend.active)
    }

    /**
     The command and what is then active, if that is acceptable; for a reload that went through, also
     what was active before.
     */
    method Load(operation: NvmOperation)
      returns (loaded: Result<DeviceConfiguration>, rollback: Option<DeviceConfiguration>)
      requires Steady() && operation != Store
      modifies this`now, this`lastNvmMutation, this`record, backend`active, backend`stored, backend`lost,
        backend`sent, backend`writes, backend`writesAfterLoss, backend`nvmLog
      ensures Steady() && LogsGrow() && now >= old(now) && record == old(record).(nvmSlots := record.nvmSlots)
      ensures old(backend.lost) ==> backend.lost
      ensures operation == Reload ==> backend.stored == old(backend.stored) && record == old(record)
      ensures loaded.Ok? ==>
        && Valid(loaded.value) && backend.active == loaded.value && backend.stored == loaded.value
        && backend.sent == old(backend.sent) + [Nvm(operation)]
        && (operation == Reload ==> loaded.value.rawVersion == old(backend.active).rawVersion)
      ensures loaded.Err? ==> ExchangeError(loaded.error) || loaded.error == InvalidArgument
      ensures operation == Reset ==> TookSlot(old(record.nvmSlots), Reset, true, record.nvmSlots)
      ensures rollback.Some? ==> rollback.value == old(backend.active) && old(backend.Readable())
      ensures loaded.Ok? && operation == Reload ==> rollback.Some?
      ensures backend.answering && operation == Reset ==> rollback.None? && (loaded.Ok? <==> backend.Readable())
      ensures backend.answering && operation == Reload && old(backend.Readable()) ==>
        rollback.Some? && (loaded.Ok? <==> Loadable(old(backend.active), backend.stored))
      ensures operation == Reload && rollback.None? && loaded == Err(InvalidArgument) ==>
        backend.active == old(backend.active)
      ensures loaded.Ok? ==> now >= old(now) + 100
    {
      hide Valid, InOrdinalOrder, Core, AttemptsFit, Grown;
      GrowthComposes();
      var done, previous := SendNvm(operation);
      if done.Err? {
        return Err(done.error), None;
      }
      SleepUntil(now + 100);
      loaded := backend.ReadConfiguration();
      loaded := Accepted(loaded, previous);
      rollback := previous;
    }

    /** The command itself; before a reload, the active configuration is read. */
    method SendNvm(operation: NvmOperation) returns (done: Result<()>, previous: Option<DeviceConfiguration>)
      requires Steady() && operation != Store
      modifies this`now, this`lastNvmMutation, this`record, backend`active, backend`stored, backend`lost,
        backend`sent, backend`writes, backend`writesAfterLoss, backend`nvmLog
      ensures Steady() && LogsGrow() && now >= old(now) && record == old(record).(nvmSlots := record.nvmSlots)
      ensures old(backend.lost) ==> backend.lost
      ensures operation == Reload ==> backend.stored == old(backend.stored) && record == old(record)
      ensures done.Ok? ==>
        backend.active == backend.stored && backend.sent == old(backend.sent) + [Nvm(operation)]
        && previous.Some? == (operation == Reload)
      ensures done.Err? ==>
        ExchangeError(done.error) || (done.error == InvalidArgument && backend.active == old(backend.active))
      ensures operation == Reset ==> TookSlot(old(record.nvmSlots), Reset, true, record.nvmSlots)
      ensures backend.answering && operation == Reset ==> done.Ok?
      ensures previous.Some? ==> previous.value == old(backend.active) && old(backend.Readable())
      ensures backend.answering && operation == Reload && old(backend.Readable()) ==> done.Ok?
    {
      hide Valid, InOrdinalOrder, Core, AttemptsFit, Grown;
      GrowthComposes();
      if operation == Reset {
        done := MutateNvm(Reset, true);
        return done, None;
      }
      var read := backend.ReadConfiguration();
      if read.Err? {
        return Err(read.error), None;
      }
      previous := Some(read.value);
      done := backend.NvmConfiguration(Reload);
    }

    /** What was loaded is accepted if it is valid and of the version that was active before. */
    method Accepted(read: Result<DeviceConfiguration>, previous: Option<DeviceConfiguration>)
      returns (result: Result<DeviceConfiguration>)
      ensures result.Ok? <==>
        read.Ok? && Valid(read.value) && (previous.Some? ==> previous.value.rawVersion == read.value.rawVersion)
      ensures result.Ok? || read.Err? ==> result == read
      ensures result.Err? && read.Ok? ==> result.error == InvalidArgument
    {
      hide Valid;
      if read.Err? {
        return read;
      }
      if Validate(read.value).Err? {
        return Err(InvalidArgument);
      }
      if previous.Some? && previous.value.rawVersion != read.value.rawVersion {
        return Err(InvalidArgument);
      }
      return read;
    }

    /** After a refused reload: writes the previous active configuration and reads it back. */
    method RestoreActive(previous: DeviceConfiguration) returns (result: Result<DeviceConfiguration>)
      requires Steady()
      modifies this`now, backend`active, backend`lost, backend`sent, backend`writes, backend`writesAfterLoss
      ensures Steady() && now >= old(now) && (old(backend.lost) ==> backend.lost)
      ensures result.Err? && (ExchangeError(result.error) || result.error == InvalidArgument)
      ensures result == Err(InvalidArgument) && MayReplace(previous) ==>
        backend.active == previous || !Valid(backend.active)
      ensures backend.answering && MayReplace(previous) ==>
        && backend.active == backend.Kept(previous)
        && result.error
           == if backend.active == previous || RefusedAsInvalid(previous) then InvalidArgument else Transport
      ensures result == Err(InvalidArgument) && MayReplace(previous) ==> now >= old(now) + 50
    {
      hide Valid, InOrdinalOrder, Core, AttemptsFit;
      var written := backend.WriteConfiguration(previous);
      if written.Err? {
        return Err(written.error);
      }
      SleepUntil(now + 50);
      var restored := backend.ReadConfiguration();
      if restored.Err? {
        return restored;
      }
      if restored.value != previous {
        return Err(Transport);
      }
      return Err(InvalidArgument);
    }

    // ---- Display pause ---------------------------------------------------------------------------------

    /** Puts a display command on record, with the owners of the pause. */
    ghost method NoteDisplayStep(command: DisplayCommand)
      requires NeverResumedWhileOwned(record.displaySteps)
      requires command.ResumeUpdates? ==> activeHistoryDump.None? && debugPauseExpiresAt.None?
      modifies this`record
      ensures NeverResumedWhileOwned(record.displaySteps) && LogsGrow()
      ensures Commands(record.displaySteps) == Commands(old(record.displaySteps)) + [command]
      ensures record == old(record).(displaySteps := old(record.displaySteps)
        + [DisplayStep(command, activeHistoryDump.Some?, debugPauseExpiresAt.Some?)])
    {
      var step := DisplayStep(command, activeHistoryDump.Some?, debugPauseExpiresAt.Some?);
      CommandAppended(record.displaySteps, step);
      record := record.(displaySteps := record.displaySteps + [step]);
    }

    method EnsureDisplayPaused() returns (result: Result<()>)
      requires Steady() && currentPort.Some?
      modifies this`displayPhysicallyPaused, this`displayResumeRetryAt, this`record, backend`lost, backend`displayLog
      ensures Steady() && LogsGrow() && record == old(record).(displaySteps := record.displaySteps)
      ensures result.Ok? ==> displayPhysicallyPaused
      ensures old(displayPhysicallyPaused) ==>
        result.Ok? && displayResumeRetryAt == old(displayResumeRetryAt) && backend.lost == old(backend.lost)
        && backend.displayLog == old(backend.displayLog)
      ensures !old(displayPhysicallyPaused) ==>
        displayPhysicallyPaused == result.Ok? && displayResumeRetryAt.None?
        && backend.displayLog == old(backend.displayLog) + [PauseUpdates]
      ensures result.Err? ==> ExchangeError(result.error) && !backend.answering
      ensures backend.lost == (old(backend.lost) || result == Err(ConnectionLost))
    {
      hide PublishedFits, EventsFit, SessionFits, NvmFits, NeverResumedWhileOwned, RetryFits, ClockFits, Commands,
        AttemptsFit, Grown;
      GrowthComposes();
      if displayPhysicallyPaused {
        return Ok(());
      }
      NoteDisplayStep(PauseUpdates);
      result := backend.PauseHistoryUpdates();
      if result.Ok? {
        displayPhysicallyPaused := true;
        displayResumeRetryAt := None;
      }
    }

    /** Resumes the display when nobody owns its pause; a failure other than a lost line schedules a retry. */
    method ResumeDisplayIfUnowned() returns (result: Result<()>)
      requires Steady()
      modifies this`displayPhysicallyPaused, this`displayResumeRetryAt, this`record, this`now, backend`lost,
        backend`displayLog
      ensures Steady() && LogsGrow() && now >= old(now) && record == old(record).(displaySteps := record.displaySteps)
      ensures DisplayFits(displayPhysicallyPaused, activeHistoryDump, debugPauseExpiresAt, displayResumeRetryAt,
                          backend.lost)
      ensures
        if activeHistoryDump.Some? || debugPauseExpiresAt.Some? || !old(displayPhysicallyPaused) then
          && result.Ok? && displayPhysicallyPaused == old(displayPhysicallyPaused) && displayResumeRetryAt.None?
          && backend.displayLog == old(backend.displayLog)
        else
          displayPhysicallyPaused == result.Err? && backend.displayLog == old(backend.displayLog) + [ResumeUpdates]
      ensures result.Err? ==> ExchangeError(result.error) && !backend.answering
      ensures result.Ok? ==> displayResumeRetryAt.None?
      ensures result.Err? ==>
        displayResumeRetryAt ==
          if result.error == ConnectionLost then old(displayResumeRetryAt) else Some(now + DISPLAY_RESUME_RETRY_DELAY)
      ensures backend.lost == (old(backend.lost) || result == Err(ConnectionLost))
    {
      hide Core, AttemptsFit, Grown, Commands, NeverResumedWhileOwned;
      GrowthComposes();
      if activeHistoryDump.Some? || debugPauseExpiresAt.Some? || !displayPhysicallyPaused {
        NoResumeRetry();
        return Ok(());
      }
      result := SendResume();
    }

    /** A pause that has an owner, or is over, needs no retry. */
    method NoResumeRetry()
      requires Steady()
      modifies this`displayResumeRetryAt
      ensures Steady() && displayResumeRetryAt.None?
    {
      hide PublishedFits, EventsFit, SessionFits, NvmFits, NeverResumedWhileOwned, RetryFits, ClockFits, Commands,
        AttemptsFit;
      displayResumeRetryAt := None;
    }

    /** The resume command, put on record with the owners it is sent without. */
    method SendResume() returns (result: Result<()>)
      requires Steady() && activeHistoryDump.None? && debugPauseExpiresAt.None? && displayPhysicallyPaused
      modifies this`displayPhysicallyPaused, this`displayResumeRetryAt, this`record, this`now, backend`lost,
        backend`displayLog
      ensures Steady() && LogsGrow() && now >= old(now) && record == old(record).(displaySteps := record.displaySteps)
      ensures backend.displayLog == old(backend.displayLog) + [ResumeUpdates]
      ensures displayPhysicallyPaused == result.Err?
      ensures result.Err? ==> ExchangeError(result.error) && !backend.answering
      ensures displayResumeRetryAt ==
        if result.Ok? then None
        else if result.error == ConnectionLost then old(displayResumeRetryAt)
        else Some(now + DISPLAY_RESUME_RETRY_DELAY)
      ensures backend.lost == (old(backend.lost) || result == Err(ConnectionLost))
    {
      hide PublishedFits, EventsFit, SessionFits, NvmFits, NeverResumedWhileOwned, RetryFits, ClockFits, Commands,
        AttemptsFit, Grown;
      NoteDisplayStep(ResumeUpdates);
      result := backend.ResumeHistoryUpdates();
      if result.Ok? {
        displayPhysicallyPaused := false;
        displayResumeRetryAt := None;
      } else if result.error != ConnectionLost {
        ScheduleResumeRetry();
      }
    }

    method ScheduleResumeRetry()
      requires Steady() && displayPhysicallyPaused
      modifies this`now, this`displayResumeRetryAt
      ensures Steady() && now >= old(now) && displayResumeRetryAt == Some(now + DISPLAY_RESUME_RETRY_DELAY)
    {
      hide PublishedFits, EventsFit, SessionFits, NvmFits, NeverResumedWhileOwned, RetryFits, ClockFits, Commands,
        AttemptsFit;
      var failed := Now();
      displayResumeRetryAt := Some(failed + DISPLAY_RESUME_RETRY_DELAY);
    }

    // ---- Timers ----------------------------------------------------------------------------------------

    /** Gives the dump and the shared slot up. */
    method DropDump(cleared: Option<nat>)
      requires Inv() && activeHistoryDump.Some? && (cleared.Some? ==> cleared.value == activeHistoryDump.value.id)
      modifies this`activeHistoryDump, this`historyCancellation
      ensures Steady() && activeHistoryDump.None? && currentPort.Some? && consecutivePollFailures < 3
    {
      hide PublishedFits, EventsFit, SessionFits, NvmFits, NeverResumedWhileOwned, RetryFits, ClockFits, Commands,
        AttemptsFit;
      activeHistoryDump := None;
      ClearHistoryCancellation(cleared);
    }

    /**
     Ends the active dump: the display is resumed if nobody else owns its pause, and the session goes on
     unless the line is lost.
     */
    method FinishDump(cleared: Option<nat>) returns (result: Result<()>)
      requires Inv() && activeHistoryDump.Some? && (cleared.Some? ==> cleared.value == activeHistoryDump.value.id)
      modifies this`state, this`watched, this`record, this`currentPort, this`activeHistoryDump,
        this`historyCancellation, this`debugPauseExpiresAt, this`displayPhysicallyPaused, this`displayResumeRetryAt,
        this`now, backend`attached, backend`configVersion, backend`lost, backend`displayLog
      ensures Inv() && NoNewDump() && LogsGrow() && Routine() && now >= old(now) && activeHistoryDump.None?
      ensures result == Err(ConnectionLost) ==> Closed(SerialHangup)
      ensures result != Err(ConnectionLost) ==>
        Served(1) && SameSession() && IsReady() && debugPauseExpiresAt == old(debugPauseExpiresAt)
      ensures backend.answering ==> result.Ok?
    {
      hide Core, AttemptsFit, Grown;
      GrowthComposes();
      DropDump(cleared);
      result := ResumeDisplayIfUnowned();
      Settle(result == Err(ConnectionLost));
    }

    /** An expired dump gives up its slot and its pause; the session stays, unless the line is lost. */
    method ExpireHistoryDump()
      requires Inv()
      modifies this`state, this`watched, this`record, this`currentPort, this`activeHistoryDump,
        this`historyCancellation, this`debugPauseExpiresAt, this`displayPhysicallyPaused, this`displayResumeRetryAt,
        this`now, backend`attached, backend`configVersion, backend`lost, backend`displayLog
      ensures Inv() && NoNewDump() && LogsGrow() && Routine() && now >= old(now)
      ensures old(activeHistoryDump).None? ==> state == old(state) && record == old(record)
      ensures activeHistoryDump == old(activeHistoryDump)
        || (activeHistoryDump.None? && now >= old(activeHistoryDump).value.expiresAt)
      ensures activeHistoryDump.Some? ==> now < activeHistoryDump.value.expiresAt
      ensures SameSession() || Closed(SerialHangup)
      ensures debugPauseExpiresAt.Some? ==> debugPauseExpiresAt == old(debugPauseExpiresAt)
    {
      hide Core, AttemptsFit, Grown;
      GrowthComposes();
      if activeHistoryDump.None? {
        return;
      }
      var read := Now();
      if read < activeHistoryDump.value.expiresAt {
        return;
      }
      var _ := FinishDump(None);
    }

    /** Gives the debug lease up. */
    method DropDebugLease()
      requires Inv()
      modifies this`debugPauseExpiresAt
      ensures Steady() && debugPauseExpiresAt.None?
    {
      hide PublishedFits, EventsFit, SessionFits, NvmFits, NeverResumedWhileOwned, RetryFits, ClockFits, Commands,
        AttemptsFit;
      debugPauseExpiresAt := None;
    }

    /** Ends the debug lease: only a dump keeps the display paused, and the session goes on unless the line is lost. */
    method EndDebugLease() returns (result: Result<()>)
      requires Inv()
      modifies this`state, this`watched, this`record, this`currentPort, this`activeHistoryDump,
        this`historyCancellation, this`debugPauseExpiresAt, this`displayPhysicallyPaused, this`displayResumeRetryAt,
        this`now, backend`attached, backend`configVersion, backend`lost, backend`displayLog
      ensures Inv() && NoNewDump() && LogsGrow() && Routine() && now >= old(now) && debugPauseExpiresAt.None?
      ensures result.Ok? ==> displayPhysicallyPaused == activeHistoryDump.Some?
      ensures result == Err(ConnectionLost) ==> Closed(SerialHangup)
      ensures result != Err(ConnectionLost) ==>
        state == old(state) && SameSession() && activeHistoryDump == old(activeHistoryDump)
      ensures backend.answering ==> result.Ok?
    {
      hide Core, AttemptsFit, Grown;
      GrowthComposes();
      Holds();
      DropDebugLease();
      result := ResumeDisplayIfUnowned();
      Holds();
      DisconnectIf(result == Err(ConnectionLost));
    }

    method ExpireDebugPause()
      requires Inv()
      modifies this`state, this`watched, this`record, this`currentPort, this`activeHistoryDump,
        this`historyCancellation, this`debugPauseExpiresAt, this`displayPhysicallyPaused, this`displayResumeRetryAt,
        this`now, backend`attached, backend`configVersion, backend`lost, backend`displayLog
      ensures Inv() && NoNewDump() && LogsGrow() && Routine() && now >= old(now)
      ensures old(debugPauseExpiresAt).None? ==> state == old(state) && record == old(record)
      ensures debugPauseExpiresAt == old(debugPauseExpiresAt)
        || (debugPauseExpiresAt.None? && now >= old(debugPauseExpiresAt).value)
      ensures debugPauseExpiresAt.Some? ==> now < debugPauseExpiresAt.value
      ensures (SameSession() && state == old(state)) || Closed(SerialHangup)
      ensures activeHistoryDump.Some? ==> activeHistoryDump == old(activeHistoryDump)
    {
      hide Core, AttemptsFit, Grown;
      GrowthComposes();
      if debugPauseExpiresAt.None? {
        return;
      }
      var read := Now();
      if read < debugPauseExpiresAt.value {
        return;
      }
      var _ := EndDebugLease();
    }

    /** Closes the session if the line was lost; a pause that survives keeps its claim to be retried. */
    method DisconnectIf(lost: bool)
      requires Steady() && watched == state
      requires ConnectionFits(state, currentPort, activeHistoryDump, consecutivePollFailures, backend.attached)
      requires DisplayFits(displayPhysicallyPaused, activeHistoryDump, debugPauseExpiresAt, displayResumeRetryAt,
                           backend.lost)
      requires lost ==> currentPort.Some?
      modifies this`state, this`watched, this`record, this`currentPort, this`activeHistoryDump,
        this`historyCancellation, this`debugPauseExpiresAt, this`displayPhysicallyPaused, this`displayResumeRetryAt,
        backend`attached, backend`configVersion
      ensures Inv() && LogsGrow() && Routine()
      ensures lost ==> Closed(SerialHangup)
      ensures !lost ==> unchanged(this) && backend.attached == old(backend.attached)
    {
      hide Core, AttemptsFit, Grown;
      GrowthComposes();
      if lost {
        Disconnect(SerialHangup);
      }
    }

    /** A due retry runs only in a ready session; a dump keeps it waiting. */
    method RetryDisplayResumeCleanup()
      requires Inv()
      modifies this`state, this`watched, this`record, this`currentPort, this`activeHistoryDump,
        this`historyCancellation, this`debugPauseExpiresAt, this`displayPhysicallyPaused, this`displayResumeRetryAt,
        this`now, backend`attached, backend`configVersion, backend`lost, backend`displayLog
      ensures Inv() && NoNewDump() && LogsGrow() && Routine() && now >= old(now)
      ensures old(displayResumeRetryAt).None? || !old(IsReady()) ==>
        state == old(state) && record == old(record) && displayResumeRetryAt == old(displayResumeRetryAt)
      ensures IsReady() && displayResumeRetryAt.Some? ==> now < displayResumeRetryAt.value
      ensures SameSession() || Closed(SerialHangup)
      ensures activeHistoryDump.Some? ==> activeHistoryDump == old(activeHistoryDump)
      ensures debugPauseExpiresAt.Some? ==> debugPauseExpiresAt == old(debugPauseExpiresAt)
      ensures
        var resumed := old(displayPhysicallyPaused) && !displayPhysicallyPaused;
        SameSession() ==> state.sequence == old(state.sequence) + if resumed then 1 else 0
    {
      hide Core, AttemptsFit, Grown;
      GrowthComposes();
      if displayResumeRetryAt.None? {
        return;
      }
      Holds();
      var read := Now();
      if read < displayResumeRetryAt.value || !state.connection.Ready? {
        return;
      }
      if activeHistoryDump.Some? || debugPauseExpiresAt.Some? || !displayPhysicallyPaused {
        NoResumeRetry();
        return;
      }
      var result := ResumeDisplayIfUnowned();
      if result.Ok? {
        BumpAndPublish();
      }
      DisconnectIf(result == Err(ConnectionLost));
    }

    /** Telemetry that is read in a session belongs to no opening of a port. */
    method ReadTelemetry() returns (reading: Result<int>)
      requires Steady()
      modifies backend`lost, backend`opens, backend`readings
      ensures Steady() && backend.opens == old(backend.opens) && backend.readings == old(backend.readings) + 1
      ensures backend.lost == (old(backend.lost) || reading == Err(ConnectionLost))
      ensures reading.Err? ==> ExchangeError(reading.error)
      ensures backend.answering ==> reading.Ok?
    {
      hide Core, AttemptsFit, WithReading;
      reading := backend.ReadTelemetry();
      LaterReading(record.attempts, old(backend.opens), Acknowledged(reading));
    }

    /** One poll: fresh telemetry and its event, or a counted failure; three in a row close the session. */
    method PollOnce()
      requires Inv()
      modifies this`state, this`watched, this`record, this`currentPort, this`activeHistoryDump,
        this`historyCancellation, this`debugPauseExpiresAt, this`displayPhysicallyPaused, this`displayResumeRetryAt,
        this`now, this`consecutivePollFailures, this`lastSuccessfulPoll, backend`attached, backend`configVersion,
        backend`lost, backend`opens, backend`readings
      ensures Inv() && NoNewDump() && LogsGrow() && Explained(Timer) && now >= old(now)
      ensures backend.readings == old(backend.readings) + if old(IsReady()) then 1 else 0
      ensures !old(IsReady()) ==> unchanged(this)
      ensures IsReady() ==> old(IsReady()) && displayResumeRetryAt == old(displayResumeRetryAt)
      ensures old(IsReady()) && currentPort.Some? && record.events != old(record.events) ==>
        && record.events == old(record.events) + [TelemetryUpdated(state.sequence, state.sessionId)]
        && state.telemetry.value.sequence == state.sequence && !state.telemetry.value.stale
        && consecutivePollFailures == 0 && state.connection == old(state.connection)
        && lastSuccessfulPoll.Some? && old(now) <= lastSuccessfulPoll.value <= now
      ensures old(IsReady()) && currentPort.Some? && record.events == old(record.events) ==>
        && SameSession() && consecutivePollFailures == old(consecutivePollFailures) + 1
        && lastSuccessfulPoll == old(lastSuccessfulPoll)
        && (state == old(state)
            || state == old(state).(sequence := state.sequence, telemetry := Staled(old(state.telemetry))))
      ensures currentPort == old(currentPort) || Closed(SerialHangup)
        || (Closed(PresenceCheckFailed) && old(consecutivePollFailures) == 2)
      ensures activeHistoryDump.Some? ==> activeHistoryDump == old(activeHistoryDump)
      ensures debugPauseExpiresAt.Some? ==> debugPauseExpiresAt == old(debugPauseExpiresAt)
      ensures old(IsReady()) && backend.answering ==> IsReady() && consecutivePollFailures == 0
      ensures old(IsReady() && !backend.lost) ==>
        if backend.lost then Closed(SerialHangup) else currentPort == old(currentPort) || Closed(PresenceCheckFailed)
    {
      hide Core, AttemptsFit, Grown;
      GrowthComposes();
      if !state.connection.Ready? {
        return;
      }
      Holds();
      var reading := ReadTelemetry();
      if reading.Ok? {
        Polled(reading.value);
      } else if reading.error == ConnectionLost {
        Disconnect(SerialHangup);
      } else {
        PollFailed();
      }
    }

    method Polled(values: int)
      requires Inv() && IsReady()
      modifies this`now, this`state, this`watched, this`record, this`consecutivePollFailures, this`lastSuccessfulPoll
      ensures Inv() && LogsGrow() && Explained(Timer) && now >= old(now)
      ensures consecutivePollFailures == 0 && lastSuccessfulPoll == Some(now)
      ensures state == old(state).(sequence := old(state.sequence) + 1,
                                   telemetry := Some(Telemetry(state.sequence, state.sessionId, false, values)))
      ensures record.events == old(record.events) + [TelemetryUpdated(state.sequence, state.sessionId)]
    {
      hide Core, AttemptsFit, Grown;
      GrowthComposes();
      consecutivePollFailures := 0;
      var read := Now();
      lastSuccessfulPoll := Some(read);
      PublishReading(values);
    }

    /** Publishes fresh telemetry and sends its event. */
    method PublishReading(values: int)
      requires Steady() && currentPort.Some?
      modifies this`state, this`watched, this`record
      ensures Steady() && watched == state && LogsGrow() && Explained(Timer)
      ensures state == old(state).(sequence := old(state.sequence) + 1,
                                   telemetry := Some(Telemetry(state.sequence, state.sessionId, false, values)))
      ensures record.events == old(record.events) + [TelemetryUpdated(state.sequence, state.sessionId)]
    {
      hide PublishedFits, ReadAll, LeasesFit, NvmFits, NeverResumedWhileOwned, RetryFits, ClockFits, Commands,
        AttemptsFit, Grown;
      GrowthComposes();
      Publish(state.(telemetry := Some(Telemetry(state.sequence + 1, state.sessionId, false, values))));
      SendEvent(TelemetryUpdated(state.sequence, state.sessionId));
    }

    /** Publishes that the telemetry is no longer fresh. */
    method PublishStale()
      requires Steady() && currentPort.Some?
      modifies this`state, this`watched, this`record
      ensures Steady() && watched == state && LogsGrow()
      ensures state == old(state).(sequence := old(state.sequence) + 1, telemetry := Staled(old(state.telemetry)))
      ensures record == old(record).(published := old(record.published) + [state])
    {
      hide PublishedFits, ReadAll, LeasesFit, NvmFits, NeverResumedWhileOwned, RetryFits, ClockFits, Commands,
        AttemptsFit, Grown;
      Publish(state.(telemetry := Staled(state.telemetry)));
    }

    /** Telemetry two intervals old is marked stale; the third failure in a row closes the session. */
    method PollFailed()
      requires Inv() && IsReady()
      modifies this`state, this`watched, this`record, this`currentPort, this`activeHistoryDump,
        this`historyCancellation, this`debugPauseExpiresAt, this`displayPhysicallyPaused, this`displayResumeRetryAt,
        this`now, this`consecutivePollFailures, this`lastSuccessfulPoll, backend`attached, backend`configVersion
      ensures Inv() && NoNewDump() && LogsGrow() && Explained(Timer) && now >= old(now)
      ensures old(consecutivePollFailures) == 2 ==> Closed(PresenceCheckFailed)
      ensures lastSuccessfulPoll == old(lastSuccessfulPoll)
      ensures old(consecutivePollFailures) < 2 ==>
        && SameSession() && consecutivePollFailures == old(consecutivePollFailures) + 1
        && displayResumeRetryAt == old(displayResumeRetryAt)
        && (state == old(state)
            || state == old(state).(sequence := state.sequence, telemetry := Staled(old(state.telemetry))))
        && (state.telemetry.value.stale <==>
          old(state).telemetry.value.stale
          || (lastSuccessfulPoll.Some? && now - lastSuccessfulPoll.value >= 2 * pollInterval))
      ensures activeHistoryDump.Some? ==> activeHistoryDump == old(activeHistoryDump)
      ensures debugPauseExpiresAt.Some? ==> debugPauseExpiresAt == old(debugPauseExpiresAt)
    {
      hide Core, AttemptsFit, Grown;
      GrowthComposes();
      Holds();
      consecutivePollFailures := Min(consecutivePollFailures + 1, 255);
      var read := Now();
      if lastSuccessfulPoll.Some? && read - lastSuccessfulPoll.value >= 2 * pollInterval
        && state.telemetry.Some? && !state.telemetry.value.stale
      {
        PublishStale();
      }
      if consecutivePollFailures >= 3 {
        Disconnect(PresenceCheckFailed);
      }
    }

    // ---- Host events -----------------------------------------------------------------------------------

    /** The candidate list goes on record, after the retry has been dealt with. */
    ghost method Observe(candidates: Candidates, before: Option<RetryState>)
      requires RetryFits(before, record.attempts, record.candidates, record.epoch)
      requires retry == RetryKept(before, candidates)
      modifies this`record
      ensures RetryFits(retry, record.attempts, record.candidates, record.epoch) && LogsGrow()
      ensures record == old(record).(candidates := Some(candidates),
                                     epoch := EpochAfter(old(record.candidates), old(record.epoch), candidates))
    {
      CandidatesObserved(before, record.attempts, record.candidates, record.epoch, candidates);
      record := record.(candidates := Some(candidates),
                        epoch := EpochAfter(record.candidates, record.epoch, candidates));
    }

    /** Forgets the retry, for a candidate list that does not keep it. */
    method ForgetRetry(candidates: Candidates)
      requires Inv() && RetryKept(retry, candidates).None?
      modifies this`retry, this`record
      ensures Inv() && LogsGrow() && retry.None?
      ensures record == old(record).(candidates := Some(candidates),
                                     epoch := EpochAfter(old(record.candidates), old(record.epoch), candidates))
    {
      hide PublishedFits, EventsFit, LeasesFit, NvmFits, NeverResumedWhileOwned, RetryFits, ClockFits, Commands,
        AttemptsFit, Grown;
      ghost var before := retry;
      retry := None;
      Observe(candidates, before);
    }

    /** Whether the only candidate may be opened now; a retry for another port is forgotten. */
    method RetryIsDue(port: string) returns (due: bool)
      requires Inv() && currentPort != Some(port)
      modifies this`retry, this`now, this`record
      ensures Inv() && LogsGrow() && now >= old(now)
      ensures retry == RetryKept(old(retry), {port})
      ensures due <==> Due(retry, now)
      ensures record == old(record).(candidates := Some({port}),
                                     epoch := EpochAfter(old(record.candidates), old(record.epoch), {port}))
    {
      hide PublishedFits, EventsFit, LeasesFit, NvmFits, NeverResumedWhileOwned, RetryFits, Commands, AttemptsFit,
        Grown;
      GrowthComposes();
      ghost var before := retry;
      if retry.Some? && retry.value.port != port {
        assert port in {port} && port !in {retry.value.port};
        retry := None;
      }
      Observe({port}, before);
      if retry.None? {
        return true;
      }
      if retry.value.notBefore.None? {
        return false;
      }
      var read := Now();
      due := read >= retry.value.notBefore.value;
    }

    /** A due retry for the only candidate permits an attempt. */
    lemma MayStart(port: string)
      requires Inv() && record.candidates == Some({port}) && Due(retry, now)
      ensures MayFollow(record.attempts, Attempt(port, record.epoch, now, now, Succeeded))
    {
      hide PublishedFits, EventsFit, SessionFits, LeasesFit, NvmFits, NeverResumedWhileOwned, Commands, AttemptsFit;
      DueMayStart(retry, record.attempts, port, record.epoch, now);
    }

    /**
     An attempt to open the port is under way: the backend was asked, and the attempt is not on record
     yet. `answered` is what it has come to, unless telemetry is still to be read.
     */
    ghost predicate Attempting(port: string, startedAt: Instant, answered: Option<Result<()>>)
      reads this`state, this`watched, this`currentPort, this`retry, this`activeHistoryDump, this`historyCancellation,
        this`nextHistoryDumpId, this`debugPauseExpiresAt, this`displayPhysicallyPaused, this`displayResumeRetryAt,
        this`lastNvmMutation, this`now, this`record, backend`nvmLog, backend`displayLog, backend`opens,
        backend.port`flash
    {
      && Core() && currentPort.None? && record.candidates == Some({port})
      && MayFollow(record.attempts, Attempt(port, record.epoch, startedAt, startedAt, Succeeded))
      && OneMore(record.attempts, backend.opens, port, answered)
    }

    /** Puts the attempt on record and remembers how it ended, by what the backend answered. */
    method EndAttempt(port: string, ghost startedAt: Instant, ghost answered: Result<()>, outcome: AttemptOutcome)
      requires Attempting(port, startedAt, Some(answered)) && outcome == OutcomeOf(answered)
      modifies this`retry, this`now, this`record
      ensures Steady() && LogsGrow() && now >= old(now)
      ensures var attempt := Attempt(port, old(record.epoch), startedAt, now, outcome);
        && record == old(record).(attempts := old(record.attempts) + [attempt])
        && retry == RetryAfter(old(retry), attempt)
    {
      hide PublishedFits, EventsFit, LeasesFit, NvmFits, NeverResumedWhileOwned, Commands, AttemptsFit, Paced, Streak,
        RetryDelay, RetryMirrors;
      var ended := Now();
      if outcome.Succeeded? {
        retry := None;
      } else if outcome.Refused? {
        retry := Some(RetryState(port, 1, None));
      } else {
        var count := if retry.Some? && retry.value.port == port then Min(retry.value.attempt + 1, U32_MAX) else 1;
        retry := Some(RetryState(port, count, Some(ended + RetryDelay(count))));
      }
      ghost var attempt := Attempt(port, record.epoch, startedAt, ended, outcome);
      AttemptRecorded(old(retry), record.attempts, record.candidates, attempt);
      AttemptEnded(record.attempts, backend.opens, attempt, answered);
      record := record.(attempts := record.attempts + [attempt]);
    }

    /** The new session's number, data and event; nothing of an earlier one is left. */
    method BeginSession(port: string, identity: DeviceIdentity, reading: int)
      requires Steady() && currentPort.None? && retry.None? && NoLeases() && backend.attached
      modifies this`state, this`watched, this`record, this`currentPort, this`consecutivePollFailures
      ensures Inv() && LogsGrow() && currentPort == Some(port) && consecutivePollFailures == 0
      ensures state.sessionId == old(state.sessionId) + 1 && IsReady() && state.identity == Some(identity)
      ensures state.telemetry == Some(Telemetry(state.sequence, state.sessionId, false, reading))
      ensures record == old(record).(published := record.published, position := record.position,
        events := old(record.events) + [Connected(state.sequence, state.sessionId, port)])
      ensures record.published == old(record.published) + [state]
    {
      hide PublishedFits, ReadAll, NvmFits, NeverResumedWhileOwned, RetryFits, ClockFits, Commands, AttemptsFit, Grown;
      GrowthComposes();
      currentPort, consecutivePollFailures := Some(port), 0;
      var session := state.sessionId + 1;
      Publish(state.(sessionId := session, connectedPort := Some(port), identity := Some(identity),
                     telemetry := Some(Telemetry(state.sequence + 1, session, false, reading)),
                     connection := Ready(session)));
      SendEvent(Connected(state.sequence, session, port));
    }

    /** Nothing of a session is left after a failed attempt. */
    method StayDetached(connection: ConnectionState)
      requires Steady() && currentPort.None? && NoLeases() && (connection.Recovering? || connection.UnsupportedDevice?)
      modifies this`state, this`watched, this`record, this`currentPort, this`consecutivePollFailures,
        this`lastSuccessfulPoll, backend`attached, backend`configVersion
      ensures Inv() && LogsGrow() && currentPort.None? && record == old(record).(published := record.published)
      ensures consecutivePollFailures == 0 && lastSuccessfulPoll.None?
      ensures state == old(state).(sequence := old(state.sequence) + 1, connectedPort := None, identity := None,
                                   connection := connection)
      ensures record.published == old(record.published) + [state]
    {
      hide PublishedFits, ReadAll, NvmFits, NeverResumedWhileOwned, RetryFits, ClockFits, Commands, AttemptsFit, Grown;
      GrowthComposes();
      backend.Disconnect();
      consecutivePollFailures, lastSuccessfulPoll, currentPort := 0, None, None;
      Publish(state.(connectedPort := None, identity := None, connection := connection));
    }

    /** A failed attempt schedules the next one, or rules it out. */
    method ConnectionFailed(port: string, error: DeviceError, ghost startedAt: Instant)
      requires Attempting(port, startedAt, Some(Err(error)))
      modifies this`state, this`watched, this`record, this`currentPort, this`activeHistoryDump,
        this`historyCancellation, this`debugPauseExpiresAt, this`displayPhysicallyPaused, this`displayResumeRetryAt,
        this`now, this`retry, this`consecutivePollFailures, this`lastSuccessfulPoll, backend`attached,
        backend`configVersion
      ensures Inv() && NoNewDump() && LogsGrow() && now >= old(now) && currentPort.None? && activeHistoryDump.None?
      ensures record.events == old(record.events) && state.sessionId == old(state.sessionId) && state.identity.None?
      ensures consecutivePollFailures == 0 && lastSuccessfulPoll.None?
      ensures Attempted(port, startedAt, if error.ProtocolUnverified? || error.Unsupported? then Refused else Retryable)
      ensures retry.Some? && state.connection ==
        if error.ProtocolUnverified? || error.Unsupported? then UnsupportedDevice(error.reason)
        else Recovering(retry.value.attempt, error)
      ensures record.published == old(record.published) + [state]
    {
      hide Core, AttemptsFit, Grown, MayFollow;
      GrowthComposes();
      if error.ProtocolUnverified? || error.Unsupported? {
        EndAttempt(port, startedAt, Err(error), Refused);
        ForgetLeases();
        StayDetached(UnsupportedDevice(error.reason));
      } else {
        EndAttempt(port, startedAt, Err(error), Retryable);
        ForgetLeases();
        StayDetached(Recovering(retry.value.attempt, error));
      }
    }

    /** Asks the backend to open the port; whatever is behind it has a flash of its own. */
    method OpenPort(port: string) returns (identity: Result<DeviceIdentity>)
      requires Steady() && currentPort.None? && record.candidates == Some({port})
      requires MayFollow(record.attempts, Attempt(port, record.epoch, now, now, Succeeded))
      modifies backend`attached, backend`configVersion, backend`active, backend`stored, backend`productName,
        backend`buildString, backend`lost, backend`opens, backend.port
      ensures Attempting(port, now, if identity.Ok? then None else Some(Acknowledged(identity)))
      ensures backend.attached == identity.Ok?
      ensures backend.answering ==> identity.Ok?
    {
      hide PublishedFits, EventsFit, SessionFits, LeasesFit, NvmFits, NeverResumedWhileOwned, RetryFits, ClockFits,
        Commands, AttemptsFit, OneMore, MayFollow;
      identity := backend.Connect(port);
      PortOpened(record.attempts, old(backend.opens), Opening(port, Acknowledged(identity), None));
    }

    /** Opens the port and reads telemetry for the first time. */
    method OpenAndRead(port: string) returns (answer: Result<(DeviceIdentity, int)>)
      requires Steady() && currentPort.None? && record.candidates == Some({port})
      requires MayFollow(record.attempts, Attempt(port, record.epoch, now, now, Succeeded))
      modifies backend`attached, backend`configVersion, backend`active, backend`stored, backend`productName,
        backend`buildString, backend`lost, backend`opens, backend`readings, backend.port
      ensures Attempting(port, now, Some(Acknowledged(answer))) && (answer.Ok? ==> backend.attached)
      ensures backend.answering ==> answer.Ok?
    {
      hide Core, AttemptsFit, OneMore, WithReading, MayFollow;
      var identity := OpenPort(port);
      if identity.Err? {
        return Err(identity.error);
      }
      ghost var opens := backend.opens;
      var reading := backend.ReadTelemetry();
      FirstReading(record.attempts, opens, port, Acknowledged(reading));
      if reading.Err? {
        return Err(reading.error);
      }
      return Ok((identity.value, reading.value));
    }

    method ConnectionOpened(port: string, identity: DeviceIdentity, reading: int, ghost startedAt: Instant)
      requires Attempting(port, startedAt, Some(Ok(()))) && backend.attached
      modifies this`state, this`watched, this`record, this`currentPort, this`activeHistoryDump,
        this`historyCancellation, this`debugPauseExpiresAt, this`displayPhysicallyPaused, this`displayResumeRetryAt,
        this`now, this`retry, this`consecutivePollFailures, this`lastSuccessfulPoll
      ensures Inv() && NoNewDump() && LogsGrow() && now >= old(now)
      ensures currentPort == Some(port) && activeHistoryDump.None? && consecutivePollFailures == 0
      ensures state.sessionId == old(state.sessionId) + 1 && IsReady() && state.identity == Some(identity)
      ensures state.telemetry == Some(Telemetry(state.sequence, state.sessionId, false, reading))
      ensures record.events == old(record.events) + [Connected(state.sequence, state.sessionId, port)]
      ensures Attempted(port, startedAt, Succeeded)
      ensures lastSuccessfulPoll.Some? && old(now) <= lastSuccessfulPoll.value <= now
      ensures record.published == old(record.published) + [state]
    {
      hide Core, AttemptsFit, OneMore, Grown, MayFollow;
      GrowthComposes();
      EndAttempt(port, startedAt, Ok(()), Succeeded);
      var read := Now();
      lastSuccessfulPoll := Some(read);
      ForgetLeases();
      BeginSession(port, identity, reading);
    }

    /**
     Opens a port. Success starts a new session with the next number; failure leaves nothing of the
     old one and, unless the device is unsupported, schedules the next attempt. The attempt goes on
     record with what the backend answered, and what is remembered follows from that.
     */
    method Connect(port: string)
      requires Inv() && currentPort.None? && record.candidates == Some({port})
      requires MayFollow(record.attempts, Attempt(port, record.epoch, now, now, Succeeded))
      modifies this`state, this`watched, this`record, this`currentPort, this`activeHistoryDump,
        this`historyCancellation, this`debugPauseExpiresAt, this`displayPhysicallyPaused, this`displayResumeRetryAt,
        this`now, this`retry, this`consecutivePollFailures, this`lastSuccessfulPoll, backend`attached,
        backend`configVersion, backend`active, backend`stored, backend`productName, backend`buildString, backend`lost,
        backend`opens, backend`readings, backend.port
      ensures Inv() && NoNewDump() && LogsGrow() && now >= old(now)
      ensures currentPort.Some? ==>
        && currentPort == Some(port) && state.sessionId == old(state.sessionId) + 1 && IsReady()
        && record.events == old(record.events) + [Connected(state.sequence, state.sessionId, port)]
      ensures currentPort.None? ==>
        && record.events == old(record.events) && state.sessionId == old(state.sessionId)
        && (state.connection.Recovering? || state.connection.UnsupportedDevice?)
      ensures Attempted(port, old(now),
        if currentPort.Some? then Succeeded else if state.connection.UnsupportedDevice? then Refused else Retryable)
      ensures backend.answering ==> currentPort.Some?
      ensures record.published == old(record.published)
        + [old(state).(sequence := old(state.sequence) + 1, connection := Connecting(port)), state]
    {
      hide Core, AttemptsFit, OneMore, Grown, MayFollow, RetryAfter;
      GrowthComposes();
      ghost var startedAt := now;
      PublishConnection(Connecting(port));
      var answer := OpenAndRead(port);
      if answer.Err? {
        ConnectionFailed(port, answer.error, startedAt);
      } else {
        ConnectionOpened(port, answer.value.0, answer.value.1, startedAt);
      }
    }

    /** No candidate is left: the session, if any, is closed. */
    method NoCandidate()
      requires Inv()
      modifies this`state, this`watched, this`record, this`currentPort, this`activeHistoryDump,
        this`historyCancellation, this`debugPauseExpiresAt, this`displayPhysicallyPaused, this`displayResumeRetryAt,
        this`now, this`retry, backend`attached, backend`configVersion
      ensures Inv() && NoNewDump() && LogsGrow() && currentPort.None? && retry.None? && state.connection.Absent?
      ensures record.events == old(record.events)
        + if old(currentPort).Some? then [Disconnected(state.sequence, state.sessionId, RemovedFromHost)] else []
      ensures state.sessionId == old(state.sessionId) && Explained(HostCandidates({}))
      ensures record.attempts == old(record.attempts)
    {
      hide Core, AttemptsFit, Grown;
      GrowthComposes();
      ForgetRetry({});
      Disconnect(RemovedFromHost);
    }

    /** Another candidate alone: an attempt, once it is due, after closing what was open. */
    method OneCandidate(port: string)
      requires Inv() && currentPort != Some(port)
      modifies this`state, this`watched, this`record, this`currentPort, this`activeHistoryDump,
        this`historyCancellation, this`debugPauseExpiresAt, this`displayPhysicallyPaused, this`displayResumeRetryAt,
        this`now, this`retry, this`consecutivePollFailures, this`lastSuccessfulPoll, backend`attached,
        backend`configVersion, backend`active, backend`stored, backend`productName, backend`buildString, backend`lost,
        backend`opens, backend`readings, backend.port
      ensures Inv() && NoNewDump() && LogsGrow() && Explained(HostCandidates({port}))
      ensures
        var closed := if old(currentPort).Some? then 1 else 0;
        var kept := RetryKept(old(retry), {port});
        if record.attempts == old(record.attempts) then
          state == old(state) && record.events == old(record.events) && retry == kept && !Due(kept, old(now))
        else
          && |record.attempts| == |old(record.attempts)| + 1
          && var last := record.attempts[|old(record.attempts)|];
          && old(now) <= last.startedAt && Due(kept, last.startedAt) && retry == RetryAfter(kept, last)
          && (last.outcome.Succeeded? <==> currentPort.Some?)
          && (last.outcome.Refused? <==> state.connection.UnsupportedDevice?)
          && |record.events| == |old(record.events)| + closed + (if currentPort.Some? then 1 else 0)
          && record.events[..|old(record.events)|] == old(record.events)
          && (closed == 1 ==>
            record.events[|old(record.events)|].Disconnected? && record.events[|old(record.events)|].reason == Replaced)
          && (currentPort.Some? ==> currentPort == Some(port) && state.sessionId == old(state.sessionId) + 1)
    {
      hide Core, AttemptsFit, Grown, MayFollow, RetryAfter, RetryKept;
      GrowthComposes();
      Holds();
      var due := RetryIsDue(port);
      if !due {
        return;
      }
      MayStart(port);
      if currentPort.Some? {
        Disconnect(Replaced);
      }
      Connect(port);
    }

    /** Several candidates: no session, and the list is published once. */
    method ManyCandidates(candidates: Candidates)
      requires Inv() && |candidates| > 1
      modifies this`state, this`watched, this`record, this`currentPort, this`activeHistoryDump,
        this`historyCancellation, this`debugPauseExpiresAt, this`displayPhysicallyPaused, this`displayResumeRetryAt,
        this`now, this`retry, backend`attached, backend`configVersion
      ensures Inv() && NoNewDump() && LogsGrow()
      ensures currentPort.None? && retry.None? && state.connection == AmbiguousDevices(candidates)
      ensures record.events == old(record.events)
        + if old(currentPort).Some? then [Disconnected(state.sequence - 1, state.sessionId, RemovedFromHost)] else []
      ensures state.sessionId == old(state.sessionId) && Explained(HostCandidates(candidates))
      ensures record.attempts == old(record.attempts)
      ensures old(state).connection == AmbiguousDevices(candidates) ==> state == old(state)
    {
      hide Core, AttemptsFit, Grown;
      GrowthComposes();
      ForgetRetry(candidates);
      if state.connection == AmbiguousDevices(candidates) {
        return;
      }
      Disconnect(RemovedFromHost);
      PublishConnection(AmbiguousDevices(candidates));
    }

    /** The host's current candidate ports. */
    method HandleHostEvent(candidates: Candidates)
      requires Inv()
      modifies this`state, this`watched, this`record, this`currentPort, this`activeHistoryDump,
        this`historyCancellation, this`debugPauseExpiresAt, this`displayPhysicallyPaused, this`displayResumeRetryAt,
        this`now, this`retry, this`consecutivePollFailures, this`lastSuccessfulPoll, backend`attached,
        backend`configVersion, backend`active, backend`stored, backend`productName, backend`buildString, backend`lost,
        backend`opens, backend`readings, backend.port
      ensures Inv() && NoNewDump() && LogsGrow() && Explained(HostCandidates(candidates))
      ensures currentPort.Some? ==> candidates == {currentPort.value}
      ensures |candidates| != 1 ==> currentPort.None? && retry.None?
      ensures old(currentPort).Some? && candidates == {old(currentPort).value} ==>
        state == old(state) && record.events == old(record.events)
    {
      hide Core, AttemptsFit, Grown;
      GrowthComposes();
      Holds();
      if candidates == {} {
        NoCandidate();
      } else if currentPort.Some? && candidates == {currentPort.value} {
        ForgetRetry(candidates);
      } else if |candidates| == 1 {
        var port :| port in candidates;
        Singleton(candidates, port);
        OneCandidate(port);
      } else {
        ManyCandidates(candidates);
      }
    }

    // ---- Commands: screen, polling, identity, faults ---------------------------------------------------

    method SetScreen(screen: Screen) returns (reply: Result<()>)
      requires Inv()
      modifies this`state, this`watched, this`record, this`currentPort, this`activeHistoryDump,
        this`historyCancellation, this`debugPauseExpiresAt, this`displayPhysicallyPaused, this`displayResumeRetryAt,
        this`now, backend`attached, backend`configVersion, backend`lost, backend`sent
      ensures Inv() && NoNewDump() && LogsGrow() && Routine()
      ensures !old(IsReady()) ==> reply == Err(NotConnected) && unchanged(this)
      ensures reply.Ok? ==>
        && state == old(state).(sequence := old(state.sequence) + 1)
        && record.events == old(record.events) + [ScreenChanged(state.sequence, state.sessionId, screen)]
      ensures reply == Err(OperationOutcomeUnknown) ==> Closed(SerialHangup)
      ensures reply.Err? && reply != Err(OperationOutcomeUnknown) ==> unchanged(this)
      ensures backend.sent == old(backend.sent) + if old(IsReady()) then [ShowScreen(screen)] else []
      ensures old(IsReady()) && backend.answering ==> reply.Ok?
      ensures old(IsReady() && !backend.lost) ==> (reply == Err(OperationOutcomeUnknown) <==> backend.lost)
    {
      hide Core, AttemptsFit, Grown;
      GrowthComposes();
      if !state.connection.Ready? {
        return Err(NotConnected);
      }
      reply := backend.SetScreen(screen);
      if reply.Ok? {
        PublishScreen(screen);
      } else if reply.error == ConnectionLost {
        Disconnect(SerialHangup);
        reply := Err(OperationOutcomeUnknown);
      }
    }

    /** Publishes and sends the event of a changed screen. */
    method PublishScreen(screen: Screen)
      requires Inv() && IsReady()
      modifies this`state, this`watched, this`record
      ensures Inv() && LogsGrow() && Routine() && state == old(state).(sequence := old(state.sequence) + 1)
      ensures record.events == old(record.events) + [ScreenChanged(state.sequence, state.sessionId, screen)]
    {
      hide PublishedFits, ReadAll, LeasesFit, NvmFits, NeverResumedWhileOwned, RetryFits, ClockFits, Commands,
        AttemptsFit, Grown;
      GrowthComposes();
      BumpAndPublish();
      SendEvent(ScreenChanged(state.sequence, state.sessionId, screen));
    }

    /** New values of the identity and the telemetry, to be published with the next state. */
    method Keep(identity: DeviceIdentity, telemetry: Telemetry)
      requires Operating() && telemetry.sessionId == state.sessionId
      modifies this`state
      ensures Operating() && state == old(state).(identity := Some(identity), telemetry := Some(telemetry))
    {
      hide PublishedFits, EventsFit, LeasesFit, NvmFits, NeverResumedWhileOwned, RetryFits, ClockFits, Commands,
        AttemptsFit;
      state := state.(identity := Some(identity), telemetry := Some(telemetry));
    }

    method ReadDeviceInfo() returns (reply: Result<DeviceIdentity>)
      requires Inv()
      modifies this`state, this`watched, this`record, this`currentPort, this`activeHistoryDump,
        this`historyCancellation, this`debugPauseExpiresAt, this`displayPhysicallyPaused, this`displayResumeRetryAt,
        this`now, backend`attached, backend`configVersion, backend`lost
      ensures Inv() && NoNewDump() && LogsGrow() && Routine()
      ensures !old(IsReady()) ==> reply == Err(NotConnected) && unchanged(this)
      ensures reply.Ok? ==>
        && reply.value.hardware == old(state).identity.value.hardware
        && state == old(state).(sequence := old(state.sequence) + 2, identity := Some(reply.value))
        && SameSession()
      ensures old(IsReady()) && reply == Err(ConnectionLost) ==> Closed(SerialHangup)
      ensures old(IsReady()) && reply.Err? && reply != Err(ConnectionLost) ==> Served(2) && IsReady()
      ensures reply.Ok? ==>
        reply.value.productName == backend.productName && reply.value.buildString == backend.buildString
      ensures old(IsReady()) && backend.answering ==> reply.Ok?
      ensures old(IsReady()) ==> Announced("reading_device_information")
    {
      hide Core, AttemptsFit, Grown;
      GrowthComposes();
      if !state.connection.Ready? {
        return Err(NotConnected);
      }
      Holds();
      BeginOperation("reading_device_information");
      var names := backend.ReadBuildInformation();
      if names.Ok? {
        var identity := state.identity.value.(productName := names.value.0, buildString := names.value.1);
        Keep(identity, state.telemetry.value);
        reply := Ok(identity);
      } else {
        reply := Err(names.error);
      }
      Settle(reply == Err(ConnectionLost));
    }

    method ClearFaults(activeMask: nat, loggedMask: nat) returns (reply: Result<Telemetry>)
      requires Inv()
      modifies this`state, this`watched, this`record, this`currentPort, this`activeHistoryDump,
        this`historyCancellation, this`debugPauseExpiresAt, this`displayPhysicallyPaused, this`displayResumeRetryAt,
        this`now, backend`attached, backend`configVersion, backend`lost, backend`opens, backend`readings, backend`sent
      ensures Inv() && NoNewDump() && LogsGrow() && Routine()
      ensures !old(IsReady()) ==> reply == Err(NotConnected) && unchanged(this)
      ensures old(IsReady()) && !KnownFaults(activeMask, loggedMask) ==>
        reply == Err(InvalidArgument) && unchanged(this)
      ensures reply.Ok? ==>
        && reply.value.sequence == state.sequence == old(state.sequence) + 2 && reply.value.sessionId == state.sessionId
        && state == old(state).(sequence := state.sequence, telemetry := Some(reply.value)) && SameSession()
      ensures reply == Err(OperationOutcomeUnknown) ==> Closed(SerialHangup)
      ensures reply.Err? && reply != Err(OperationOutcomeUnknown) ==> unchanged(this) || (Served(2) && IsReady())
      ensures backend.sent == old(backend.sent)
        + if old(IsReady()) && KnownFaults(activeMask, loggedMask) then [ClearMasks(activeMask, loggedMask)] else []
      ensures old(IsReady()) && KnownFaults(activeMask, loggedMask) && backend.answering ==> reply.Ok?
      ensures old(IsReady()) && KnownFaults(activeMask, loggedMask) ==> Announced("clearing_faults")
    {
      hide Core, AttemptsFit, Grown;
      GrowthComposes();
      if !state.connection.Ready? {
        return Err(NotConnected);
      }
      if activeMask >= KNOWN_FAULTS_LIMIT || loggedMask >= KNOWN_FAULTS_LIMIT {
        return Err(InvalidArgument);
      }
      if activeMask == 0 && loggedMask == 0 {
        return Err(InvalidArgument);
      }
      reply := ClearKnownFaults(activeMask, loggedMask);
    }

    method ClearKnownFaults(activeMask: nat, loggedMask: nat) returns (reply: Result<Telemetry>)
      requires Inv() && IsReady()
      modifies this`state, this`watched, this`record, this`currentPort, this`activeHistoryDump,
        this`historyCancellation, this`debugPauseExpiresAt, this`displayPhysicallyPaused, this`displayResumeRetryAt,
        this`now, backend`attached, backend`configVersion, backend`lost, backend`opens, backend`readings, backend`sent
      ensures Inv() && NoNewDump() && LogsGrow() && Routine()
      ensures reply.Ok? ==>
        && reply.value.sequence == state.sequence == old(state.sequence) + 2 && reply.value.sessionId == state.sessionId
        && state == old(state).(sequence := state.sequence, telemetry := Some(reply.value)) && SameSession()
      ensures reply == Err(OperationOutcomeUnknown) ==> Closed(SerialHangup)
      ensures reply.Err? && reply != Err(OperationOutcomeUnknown) ==> Served(2) && IsReady()
      ensures backend.sent == old(backend.sent) + [ClearMasks(activeMask, loggedMask)]
      ensures backend.answering ==> reply.Ok?
      ensures Announced("clearing_faults")
    {
      hide Core, AttemptsFit, Grown;
      GrowthComposes();
      BeginOperation("clearing_faults");
      reply := ClearAndKeep(activeMask, loggedMask);
      Settle(reply == Err(OperationOutcomeUnknown));
    }

    /** What is read after clearing becomes the telemetry that the next state publishes. */
    method ClearAndKeep(activeMask: nat, loggedMask: nat) returns (reply: Result<Telemetry>)
      requires Operating()
      modifies this`now, this`state, backend`lost, backend`opens, backend`readings, backend`sent
      ensures Operating() && now >= old(now)
      ensures reply.Ok? ==>
        && reply.value.sequence == state.sequence + 1 && reply.value.sessionId == state.sessionId && !reply.value.stale
        && state == old(state).(telemetry := Some(reply.value))
      ensures reply.Err? ==> state == old(state) && reply != Err(ConnectionLost)
      ensures backend.sent == old(backend.sent) + [ClearMasks(activeMask, loggedMask)]
      ensures backend.answering ==> reply.Ok?
    {
      hide Core, AttemptsFit;
      Holds();
      var reading := ClearAndRead(activeMask, loggedMask);
      if reading.Err? {
        return Err(if reading.error == ConnectionLost then OperationOutcomeUnknown else reading.error);
      }
      reply := Ok(Telemetry(state.sequence + 1, state.sessionId, false, reading.value));
      Keep(state.identity.value, reply.value);
    }

    method ClearAndRead(activeMask: nat, loggedMask: nat) returns (reading: Result<int>)
      requires Steady()
      modifies this`now, backend`lost, backend`opens, backend`readings, backend`sent
      ensures Steady() && now >= old(now) && (old(backend.lost) ==> backend.lost)
      ensures reading.Err? ==> ExchangeError(reading.error)
      ensures backend.sent == old(backend.sent) + [ClearMasks(activeMask, loggedMask)]
      ensures backend.answering ==> reading.Ok?
      ensures reading.Ok? ==> now >= old(now) + 50
    {
      hide Core;
      var cleared := backend.ClearFaults(activeMask, loggedMask);
      if cleared.Err? {
        return Err(cleared.error);
      }
      SleepUntil(now + 50);
      reading := ReadTelemetry();
    }

    method SetPollInterval(milliseconds: nat) returns (reply: Result<nat>)
      modifies this`pollInterval
      ensures if 100 <= milliseconds <= 5000 then reply == Ok(milliseconds) && pollInterval == milliseconds
              else reply == Err(InvalidArgument) && pollInterval == old(pollInterval)
    {
      if !(100 <= milliseconds <= 5000) {
        return Err(InvalidArgument);
      }
      pollInterval := milliseconds;
      return Ok(milliseconds);
    }

    method RebootDevice() returns (reply: Result<()>)
      requires Inv()
      modifies this`state, this`watched, this`record, this`currentPort, this`activeHistoryDump,
        this`historyCancellation, this`debugPauseExpiresAt, this`displayPhysicallyPaused, this`displayResumeRetryAt,
        this`now, backend`attached, backend`configVersion, backend`lost, backend`sent
      ensures Inv() && NoNewDump() && LogsGrow() && Routine()
      ensures !old(IsReady()) ==> reply == Err(NotConnected) && unchanged(this)
      ensures reply.Ok? || reply == Err(OperationOutcomeUnknown) ==> Closed(DeviceReboot)
      ensures old(IsReady()) && reply.Err? && reply != Err(OperationOutcomeUnknown) ==> Served(2) && IsReady()
      ensures backend.sent == old(backend.sent) + if old(IsReady()) then [Restart] else []
      ensures old(IsReady()) && backend.answering ==> reply.Ok?
      ensures old(IsReady()) ==> Announced("rebooting_device")
      ensures old(IsReady() && !backend.lost) ==> (reply == Err(OperationOutcomeUnknown) <==> backend.lost)
    {
      hide Core, AttemptsFit, Grown;
      GrowthComposes();
      if !state.connection.Ready? {
        return Err(NotConnected);
      }
      BeginOperation("rebooting_device");
      reply := backend.RebootDevice();
      if reply.Err? && reply.error != ConnectionLost {
        Settle(false);
        return;
      }
      Disconnect(DeviceReboot);
      if reply.Err? {
        reply := Err(OperationOutcomeUnknown);
      }
    }

    // ---- Commands: display pause -----------------------------------------------------------------------

    /** The pause is described as it is. */
    ghost predicate DescribesPause(p: DisplayPauseState)
      reads this`displayPhysicallyPaused, this`debugPauseExpiresAt, this`activeHistoryDump, this`now
    {
      && p.paused == displayPhysicallyPaused && p.debugLease == debugPauseExpiresAt.Some?
      && p.dumpActive == activeHistoryDump.Some?
      && p.remaining == if debugPauseExpiresAt.Some? then Max(debugPauseExpiresAt.value - now, 0) else 0
    }

    /** A lease of that length was taken in the meantime. */
    twostate predicate LeasedFor(milliseconds: nat)
      reads this`debugPauseExpiresAt, this`now
    {
      debugPauseExpiresAt.Some? && old(now) + milliseconds <= debugPauseExpiresAt.value <= now + milliseconds
    }

    method DisplayPause() returns (p: DisplayPauseState)
      modifies this`now
      ensures now >= old(now) && (old(Core()) ==> Core()) && DescribesPause(p)
    {
      hide Core;
      var remaining := 0;
      if debugPauseExpiresAt.Some? {
        var read := Now();
        remaining := Max(debugPauseExpiresAt.value - read, 0);
      }
      p := DisplayPauseState(displayPhysicallyPaused, debugPauseExpiresAt.Some?, activeHistoryDump.Some?, remaining);
    }

    /** Takes a debug lease of a paused display. */
    method LeasePause(expiresAt: Instant)
      requires Steady() && displayPhysicallyPaused
      modifies this`debugPauseExpiresAt
      ensures Steady() && debugPauseExpiresAt == Some(expiresAt)
    {
      hide PublishedFits, EventsFit, SessionFits, NvmFits, NeverResumedWhileOwned, RetryFits, ClockFits, Commands,
        AttemptsFit;
      debugPauseExpiresAt := Some(expiresAt);
    }

    /** A lease of the display pause, beside a dump's or alone; it replaces an earlier lease. */
    method PauseDisplay(milliseconds: nat) returns (reply: Result<DisplayPauseState>)
      requires Inv()
      modifies this`state, this`watched, this`record, this`currentPort, this`activeHistoryDump,
        this`historyCancellation, this`debugPauseExpiresAt, this`displayPhysicallyPaused, this`displayResumeRetryAt,
        this`now, backend`attached, backend`configVersion, backend`lost, backend`displayLog
      ensures Inv() && NoNewDump() && LogsGrow() && Routine()
      ensures !(100 <= milliseconds <= 300_000) ==> reply == Err(InvalidArgument) && unchanged(this)
      ensures old(currentPort).None? && 100 <= milliseconds <= 300_000 ==> reply == Err(NotConnected) && unchanged(this)
      ensures reply.Ok? ==>
        && state == old(state) && SameSession() && activeHistoryDump == old(activeHistoryDump)
        && LeasedFor(milliseconds) && displayPhysicallyPaused && DescribesPause(reply.value)
      ensures reply == Err(ConnectionLost) ==> Closed(SerialHangup)
      ensures reply.Err? && reply != Err(ConnectionLost) ==>
        state == old(state) && SameSession() && debugPauseExpiresAt == old(debugPauseExpiresAt)
      ensures old(currentPort).Some? && backend.answering ==> (reply.Ok? <==> 100 <= milliseconds <= 300_000)
    {
      hide Core, AttemptsFit, Grown;
      GrowthComposes();
      if !(100 <= milliseconds <= 300_000) {
        return Err(InvalidArgument);
      }
      if !state.connection.Ready? && !state.connection.Busy? {
        return Err(NotConnected);
      }
      reply := PauseFor(milliseconds);
    }

    method PauseFor(milliseconds: nat) returns (reply: Result<DisplayPauseState>)
      requires Inv() && currentPort.Some?
      modifies this`state, this`watched, this`record, this`currentPort, this`activeHistoryDump,
        this`historyCancellation, this`debugPauseExpiresAt, this`displayPhysicallyPaused, this`displayResumeRetryAt,
        this`now, backend`attached, backend`configVersion, backend`lost, backend`displayLog
      ensures Inv() && NoNewDump() && LogsGrow() && Routine()
      ensures reply.Ok? ==>
        && state == old(state) && SameSession() && activeHistoryDump == old(activeHistoryDump)
        && LeasedFor(milliseconds) && displayPhysicallyPaused && DescribesPause(reply.value)
      ensures reply == Err(ConnectionLost) ==> Closed(SerialHangup)
      ensures reply.Err? && reply != Err(ConnectionLost) ==>
        state == old(state) && SameSession() && debugPauseExpiresAt == old(debugPauseExpiresAt)
      ensures backend.answering ==> reply.Ok?
    {
      hide Core, AttemptsFit, Grown;
      GrowthComposes();
      var paused := EnsureDisplayPaused();
      if paused.Err? {
        Holds();
        DisconnectIf(paused.error == ConnectionLost);
        return Err(paused.error);
      }
      var read := Now();
      LeasePause(read + milliseconds);
      var p := DisplayPause();
      return Ok(p);
    }

    /** Gives the debug lease up; a dump keeps the display paused. */
    method ResumeDisplay() returns (reply: Result<DisplayPauseState>)
      requires Inv()
      modifies this`state, this`watched, this`record, this`currentPort, this`activeHistoryDump,
        this`historyCancellation, this`debugPauseExpiresAt, this`displayPhysicallyPaused, this`displayResumeRetryAt,
        this`now, backend`attached, backend`configVersion, backend`lost, backend`displayLog
      ensures Inv() && NoNewDump() && LogsGrow() && Routine() && debugPauseExpiresAt.None?
      ensures reply.Ok? ==> DescribesPause(reply.value) && displayPhysicallyPaused == activeHistoryDump.Some?
      ensures reply == Err(ConnectionLost) ==> Closed(SerialHangup)
      ensures reply != Err(ConnectionLost) ==>
        state == old(state) && SameSession() && activeHistoryDump == old(activeHistoryDump)
      ensures backend.answering ==> reply.Ok?
    {
      hide Core, AttemptsFit, Grown;
      GrowthComposes();
      var resumed := EndDebugLease();
      if resumed.Err? {
        return Err(resumed.error);
      }
      var p := DisplayPause();
      return Ok(p);
    }

    // ---- Commands: history -----------------------------------------------------------------------------

    /** Starts a dump: the display is paused, the session is busy and the dump has its own id. */
    method BeginHistoryDump() returns (reply: Result<HistoryDump>)
      requires Inv()
      modifies this`state, this`watched, this`record, this`currentPort, this`activeHistoryDump,
        this`historyCancellation, this`debugPauseExpiresAt, this`displayPhysicallyPaused, this`displayResumeRetryAt,
        this`now, this`nextHistoryDumpId, backend`attached, backend`configVersion, backend`lost, backend`displayLog
      ensures Inv() && DumpsAreGuarded() && LogsGrow() && Routine()
      ensures !old(IsReady()) ==>
        reply == Err(if old(activeHistoryDump).Some? then DeviceBusy else NotConnected) && unchanged(this)
      ensures reply.Ok? ==>
        && reply.value == HistoryDump(Min(old(nextHistoryDumpId) + 1, U64_MAX), state.sessionId, History.FLASH_LENGTH)
        && activeHistoryDump.Some? && activeHistoryDump.value.id == reply.value.id == nextHistoryDumpId
        && old(now) + HISTORY_LEASE <= activeHistoryDump.value.expiresAt <= now + HISTORY_LEASE
        && Served(1) && displayPhysicallyPaused && backend.attached && Announced("reading_device_history")
      ensures old(IsReady()) && reply == Err(ConnectionLost) ==> Closed(SerialHangup)
      ensures old(IsReady()) && reply.Err? && reply != Err(ConnectionLost) ==>
        state == old(state) && SameSession() && activeHistoryDump.None?
      ensures old(IsReady()) && backend.answering ==> reply.Ok?
    {
      hide Core, AttemptsFit, Grown;
      GrowthComposes();
      if !state.connection.Ready? {
        return Err(if activeHistoryDump.Some? then DeviceBusy else NotConnected);
      }
      Holds();
      var paused := EnsureDisplayPaused();
      if paused.Err? {
        Holds();
        DisconnectIf(paused.error == ConnectionLost);
        return Err(paused.error);
      }
      var dump := StartDump();
      return Ok(dump);
    }

    method StartDump() returns (dump: HistoryDump)
      requires Steady() && displayPhysicallyPaused && currentPort.Some? && activeHistoryDump.None?
      requires consecutivePollFailures < 3 && backend.attached
      modifies this`nextHistoryDumpId, this`historyCancellation, this`activeHistoryDump, this`now,
        this`state, this`watched, this`record
      ensures Inv() && LogsGrow() && Routine() && Served(1) && displayPhysicallyPaused && now >= old(now)
      ensures Announced("reading_device_history")
      ensures dump == HistoryDump(Min(old(nextHistoryDumpId) + 1, U64_MAX), state.sessionId, History.FLASH_LENGTH)
      ensures activeHistoryDump.Some? && activeHistoryDump.value.id == dump.id == nextHistoryDumpId
      ensures old(now) + HISTORY_LEASE <= activeHistoryDump.value.expiresAt <= now + HISTORY_LEASE
    {
      hide Core, AttemptsFit, Grown;
      GrowthComposes();
      var read := Now();
      dump := TakeDump(read + HISTORY_LEASE);
      SetBusy("reading_device_history");
    }

    /** The next dump id goes into the shared slot, with a lease. */
    method TakeDump(expiresAt: Instant) returns (dump: HistoryDump)
      requires Steady() && displayPhysicallyPaused && activeHistoryDump.None?
      modifies this`nextHistoryDumpId, this`historyCancellation, this`activeHistoryDump
      ensures Steady()
      ensures dump == HistoryDump(Min(old(nextHistoryDumpId) + 1, U64_MAX), state.sessionId, History.FLASH_LENGTH)
      ensures nextHistoryDumpId == dump.id
      ensures activeHistoryDump == Some(ActiveHistoryDump(dump.id, state.sessionId, expiresAt))
    {
      hide PublishedFits, EventsFit, SessionFits, NvmFits, NeverResumedWhileOwned, RetryFits, ClockFits, Commands,
        AttemptsFit;
      nextHistoryDumpId := Min(nextHistoryDumpId + 1, U64_MAX);
      dump := HistoryDump(nextHistoryDumpId, state.sessionId, History.FLASH_LENGTH);
      historyCancellation := Some(dump.id);
      activeHistoryDump := Some(ActiveHistoryDump(dump.id, dump.sessionId, expiresAt));
    }

    /** Renews the active dump's lease. */
    method RenewLease(expiresAt: Instant)
      requires Inv() && activeHistoryDump.Some?
      modifies this`activeHistoryDump
      ensures Inv() && activeHistoryDump == Some(old(activeHistoryDump).value.(expiresAt := expiresAt))
    {
      hide PublishedFits, EventsFit, SessionFits, NvmFits, NeverResumedWhileOwned, RetryFits, ClockFits, Commands,
        AttemptsFit;
      activeHistoryDump := Some(activeHistoryDump.value.(expiresAt := expiresAt));
    }

    /**
     Serves a chunk of the active dump and renews its lease. `requested` says at which polls the
     dump is cancelled, by its client or by the expiring lease.
     */
    method ReadHistoryDumpChunk(dumpId: nat, offset: nat, length: nat, requested: nat -> bool)
      returns (reply: Result<seq<byte>>)
      requires Inv()
      modifies this`state, this`watched, this`record, this`currentPort, this`activeHistoryDump,
        this`historyCancellation, this`debugPauseExpiresAt, this`displayPhysicallyPaused, this`displayResumeRetryAt,
        this`now, backend`attached, backend`configVersion, backend`lost, backend.port
      ensures Inv() && NoNewDump() && LogsGrow() && Routine() && backend.port.flash == old(backend.port.flash)
      ensures old(activeHistoryDump).None? || old(activeHistoryDump).value.id != dumpId ==>
        reply == Err(InvalidArgument) && unchanged(this) && unchanged(backend.port)
      ensures |backend.port.flash| == SPI_FLASH_SIZE
      ensures reply.Ok? ==>
        && offset + length <= History.FLASH_LENGTH
        && reply.value == LogRegion(backend.port.flash)[offset..offset + length]
      ensures old(backend.port.trace) <= backend.port.trace
        && ReadsOnly(backend.port.trace, |old(backend.port.trace)|, History.FLASH_START_ADDRESS, SPI_FLASH_SIZE)
      ensures reply == Err(ConnectionLost) ==> Closed(SerialHangup)
      ensures reply != Err(ConnectionLost) ==>
        && state == old(state) && SameSession() && activeHistoryDump.Some? == old(activeHistoryDump).Some?
        && (reply.Ok? ==> old(now) + HISTORY_LEASE <= activeHistoryDump.value.expiresAt <= now + HISTORY_LEASE)
      ensures old(backend.ReadsFlash()) && (forall n :: !requested(n)) && ValidateHistoryRange(offset, length).Ok? ==>
        old(activeHistoryDump).Some? && old(activeHistoryDump).value.id == dumpId ==> reply.Ok? && backend.ReadsFlash()
    {
      hide Core, AttemptsFit, Grown;
      GrowthComposes();
      Holds();
      if activeHistoryDump.None? {
        return Err(InvalidArgument);
      }
      if activeHistoryDump.value.id != dumpId || activeHistoryDump.value.sessionId != state.sessionId {
        return Err(InvalidArgument);
      }
      reply := ServeChunk(offset, length, requested);
    }

    method ServeChunk(offset: nat, length: nat, requested: nat -> bool) returns (reply: Result<seq<byte>>)
      requires Inv() && activeHistoryDump.Some?
      modifies this`state, this`watched, this`record, this`currentPort, this`activeHistoryDump,
        this`historyCancellation, this`debugPauseExpiresAt, this`displayPhysicallyPaused, this`displayResumeRetryAt,
        this`now, backend`attached, backend`configVersion, backend`lost, backend.port
      ensures Inv() && NoNewDump() && LogsGrow() && Routine() && backend.port.flash == old(backend.port.flash)
      ensures |backend.port.flash| == SPI_FLASH_SIZE
      ensures reply.Ok? ==>
        && offset + length <= History.FLASH_LENGTH
        && reply.value == LogRegion(backend.port.flash)[offset..offset + length]
      ensures old(backend.port.trace) <= backend.port.trace
        && ReadsOnly(backend.port.trace, |old(backend.port.trace)|, History.FLASH_START_ADDRESS, SPI_FLASH_SIZE)
      ensures reply == Err(ConnectionLost) ==> Closed(SerialHangup)
      ensures reply != Err(ConnectionLost) ==>
        && state == old(state) && SameSession() && activeHistoryDump.Some?
        && old(now) + HISTORY_LEASE <= activeHistoryDump.value.expiresAt <= now + HISTORY_LEASE
      ensures old(backend.ReadsFlash()) && (forall n :: !requested(n)) && ValidateHistoryRange(offset, length).Ok? ==>
        reply.Ok? && backend.ReadsFlash()
    {
      hide Core, AttemptsFit, Grown, ReadsOnly;
      GrowthComposes();
      Holds();
      var read := Now();
      RenewLease(read + HISTORY_LEASE);
      var cancellation := new ReadCancellation.Shared(requested);
      reply := backend.ReadHistoryChunk(offset, length, cancellation);
      DisconnectIf(reply == Err(ConnectionLost));
    }

    /** Ends the dump; the session is ready again whatever the display answers, unless the line is lost. */
    method EndHistoryDump(dumpId: nat) returns (reply: Result<()>)
      requires Inv()
      modifies this`state, this`watched, this`record, this`currentPort, this`activeHistoryDump,
        this`historyCancellation, this`debugPauseExpiresAt, this`displayPhysicallyPaused, this`displayResumeRetryAt,
        this`now, backend`attached, backend`configVersion, backend`lost, backend`displayLog
      ensures Inv() && NoNewDump() && LogsGrow() && Routine()
      ensures old(activeHistoryDump).None? || old(activeHistoryDump).value.id != dumpId ==>
        reply == Err(InvalidArgument) && unchanged(this)
      ensures reply.Ok? || reply == Err(ConnectionLost) ==> activeHistoryDump.None?
      ensures activeHistoryDump.Some? ==> activeHistoryDump.value.id != dumpId
      ensures reply == Err(ConnectionLost) ==> Closed(SerialHangup)
      ensures old(activeHistoryDump).Some? && old(activeHistoryDump).value.id == dumpId && backend.answering ==>
        reply.Ok?
      ensures old(activeHistoryDump).Some? && old(activeHistoryDump.value.id) == dumpId ==>
        reply != Err(ConnectionLost) ==>
        Served(1) && IsReady() && debugPauseExpiresAt == old(debugPauseExpiresAt)
    {
      hide Core, AttemptsFit, Grown;
      GrowthComposes();
      Holds();
      if activeHistoryDump.None? {
        return Err(InvalidArgument);
      }
      if activeHistoryDump.value.id != dumpId || activeHistoryDump.value.sessionId != state.sessionId {
        return Err(InvalidArgument);
      }
      reply := FinishDump(Some(dumpId));
    }

    /** One chunk outside any dump. A failed read is what is reported, even if the resume then lost the line. */
    method ReadHistoryChunk(offset: nat, length: nat) returns (reply: Result<seq<byte>>)
      requires Inv()
      modifies this`state, this`watched, this`record, this`currentPort, this`activeHistoryDump,
        this`historyCancellation, this`debugPauseExpiresAt, this`displayPhysicallyPaused, this`displayResumeRetryAt,
        this`now, backend`attached, backend`configVersion, backend`lost, backend`displayLog, backend.port
      ensures Inv() && NoNewDump() && LogsGrow() && Routine() && backend.port.flash == old(backend.port.flash)
      ensures !old(IsReady()) ==> reply == Err(NotConnected) && unchanged(this) && unchanged(backend.port)
      ensures |backend.port.flash| == SPI_FLASH_SIZE
      ensures reply.Ok? ==>
        && offset + length <= History.FLASH_LENGTH
        && reply.value == LogRegion(backend.port.flash)[offset..offset + length]
        && displayPhysicallyPaused == debugPauseExpiresAt.Some?
      ensures old(IsReady() && backend.port.Reliable()) && backend.answering ==>
        (reply.Ok? <==> ValidateHistoryRange(offset, length).Ok?)
      ensures old(IsReady()) && reply == Err(ConnectionLost) ==> Closed(SerialHangup)
      ensures old(IsReady()) && reply != Err(ConnectionLost) ==> Served(2) && IsReady()
      ensures old(IsReady()) ==> Announced("reading_device_history")
    {
      hide Core, AttemptsFit, Grown, ReadsOnly, ValidateHistoryRange, LogRegion;
      GrowthComposes();
      Holds();
      if !state.connection.Ready? {
        return Err(NotConnected);
      }
      BeginOperation("reading_device_history");
      reply := PauseAndReadChunk(offset, length);
      Settle(reply == Err(ConnectionLost));
    }

    method PauseAndReadChunk(offset: nat, length: nat) returns (reply: Result<seq<byte>>)
      requires Operating()
      modifies this`displayPhysicallyPaused, this`displayResumeRetryAt, this`record, this`now,
        backend`lost, backend`displayLog, backend.port
      ensures Operating() && LogsGrow() && backend.port.flash == old(backend.port.flash)
      ensures now >= old(now) && record == old(record).(displaySteps := record.displaySteps)
      ensures |backend.port.flash| == SPI_FLASH_SIZE
      ensures reply.Ok? ==>
        && offset + length <= History.FLASH_LENGTH
        && reply.value == LogRegion(backend.port.flash)[offset..offset + length]
        && displayPhysicallyPaused == debugPauseExpiresAt.Some?
      ensures old(backend.port.Reliable()) && backend.answering ==>
        (reply.Ok? <==> ValidateHistoryRange(offset, length).Ok?)
    {
      hide Core, AttemptsFit, Grown, ReadsOnly;
      GrowthComposes();
      Holds();
      var cancellation := new ReadCancellation.Default();
      var paused := EnsureDisplayPaused();
      if paused.Err? {
        Holds();
        return Err(paused.error);
      }
      reply := backend.ReadHistoryChunk(offset, length, cancellation);
      var resumed := ResumeDisplayIfUnowned();
      if reply.Ok? && resumed.Err? {
        reply := Err(resumed.error);
      }
      Holds();
    }

    // ---- Commands: theme assets ------------------------------------------------------------------------

    method ReadThemeAsset(slot: ThemeAssetSlot) returns (reply: Result<seq<byte>>)
      requires Inv()
      modifies this`state, this`watched, this`record, this`currentPort, this`activeHistoryDump,
        this`historyCancellation, this`debugPauseExpiresAt, this`displayPhysicallyPaused, this`displayResumeRetryAt,
        this`now, backend`attached, backend`configVersion, backend`lost, backend`displayLog, backend.port
      ensures Inv() && NoNewDump() && LogsGrow() && Routine() && backend.port.flash == old(backend.port.flash)
      ensures !old(IsReady()) ==>
        reply == Err(if old(activeHistoryDump).Some? then DeviceBusy else NotConnected) && unchanged(this, backend.port)
      ensures slot.End() <= SPI_FLASH_SIZE == |backend.port.flash|
      ensures reply.Ok? ==> reply.value == backend.port.flash[slot.Address()..slot.End()]
      ensures old(IsReady() && backend.configVersion != Some(2)) ==>
        reply.Err? && unchanged(backend.port) && (backend.answering ==> reply.error.Unsupported?)
      ensures old(IsReady() && backend.configVersion == Some(2) && backend.port.Reliable()) && backend.answering ==>
        reply.Ok?
      ensures old(IsReady()) ==> Closed(SerialHangup) || (Served(2) && IsReady() && reply != Err(ConnectionLost))
      ensures old(IsReady()) ==> Announced("reading_theme_asset")
      ensures old(IsReady() && !backend.lost) ==> if backend.lost then Closed(SerialHangup) else IsReady()
    {
      hide Core, AttemptsFit, Grown, ReadsOnly;
      GrowthComposes();
      Holds();
      CoveringSectors(slot);
      if !state.connection.Ready? {
        return Err(if activeHistoryDump.Some? then DeviceBusy else NotConnected);
      }
      BeginOperation("reading_theme_asset");
      var lost;
      reply, lost := PauseAndReadThemeAsset(slot);
      Settle(lost);
    }

    /** The bytes read are the reply, whatever the display then answers. */
    method PauseAndReadThemeAsset(slot: ThemeAssetSlot) returns (reply: Result<seq<byte>>, lost: bool)
      requires Operating()
      modifies this`displayPhysicallyPaused, this`displayResumeRetryAt, this`record, this`now,
        backend`lost, backend`displayLog, backend.port
      ensures Operating() && LogsGrow() && backend.port.flash == old(backend.port.flash)
      ensures now >= old(now) && record == old(record).(displaySteps := record.displaySteps)
      ensures slot.End() <= SPI_FLASH_SIZE == |backend.port.flash|
      ensures reply.Ok? ==> reply.value == backend.port.flash[slot.Address()..slot.End()]
      ensures backend.configVersion != Some(2) ==>
        reply.Err? && unchanged(backend.port) && (backend.answering ==> reply.error.Unsupported?)
      ensures backend.configVersion == Some(2) && old(backend.port.Reliable()) && backend.answering ==> reply.Ok?
      ensures reply == Err(ConnectionLost) ==> lost
      ensures !old(backend.lost) ==> (lost <==> backend.lost)
    {
      hide Core, AttemptsFit, Grown, ReadsOnly;
      GrowthComposes();
      Holds();
      CoveringSectors(slot);
      var paused := EnsureDisplayPaused();
      if paused.Err? {
        Holds();
        return Err(paused.error), paused.error == ConnectionLost;
      }
      reply := backend.ReadThemeAsset(slot);
      var resumed := ResumeDisplayIfUnowned();
      lost := reply == Err(ConnectionLost) || resumed == Err(ConnectionLost);
    }

    /**
     Writes a slot. The reply is true of the flash; it is the pause's or the write's outcome, so a
     resume that fails or loses the line never alters it.
     */
    method WriteThemeAsset(slot: ThemeAssetSlot, data: seq<byte>) returns (reply: Result<()>)
      requires Inv()
      modifies this`state, this`watched, this`record, this`currentPort, this`activeHistoryDump,
        this`historyCancellation, this`debugPauseExpiresAt, this`displayPhysicallyPaused, this`displayResumeRetryAt,
        this`now, backend`attached, backend`configVersion, backend`lost, backend`displayLog, backend.port
      ensures Inv() && NoNewDump() && LogsGrow() && Routine()
      ensures !old(IsReady()) ==>
        reply == Err(if old(activeHistoryDump).Some? then DeviceBusy else NotConnected) && unchanged(this, backend.port)
      ensures WriteReplyTruth(old(backend.port.flash), slot, data, reply, backend.port.flash)
      ensures old(IsReady() && backend.configVersion != Some(2)) ==>
        reply.Err? && unchanged(backend.port) && (backend.answering ==> reply.error.Unsupported?)
      ensures old(IsReady() && backend.configVersion == Some(2)) && backend.answering ==>
        (reply == Err(InvalidArgument) <==> |data| != slot.ByteLen())
      ensures old(IsReady() && backend.configVersion == Some(2) && backend.port.Reliable()) && backend.answering ==>
        (reply.Ok? <==> |data| == slot.ByteLen())
      ensures old(backend.port.trace) <= backend.port.trace
        && MutatesOnly(backend.port.trace, |old(backend.port.trace)|, slot.SectorStart(), slot.SectorEnd())
      ensures old(IsReady()) ==>
        Closed(SerialHangup)
        || (Served(2) && IsReady() && reply != Err(OperationOutcomeUnknown) && reply != Err(ConnectionLost))
      ensures old(IsReady()) ==> Announced("writing_theme_asset")
      ensures old(IsReady() && !backend.lost) ==> if backend.lost then Closed(SerialHangup) else IsReady()
    {
      hide Core, AttemptsFit, Grown, MutatesOnly, WriteReplyTruth;
      GrowthComposes();
      Holds();
      if !state.connection.Ready? {
        NothingWritten(slot, data, if activeHistoryDump.Some? then DeviceBusy else NotConnected);
        return Err(if activeHistoryDump.Some? then DeviceBusy else NotConnected);
      }
      BeginOperation("writing_theme_asset");
      var lost;
      reply, lost := PauseAndWriteThemeAsset(slot, data);
      Settle(lost);
    }

    /** A pause that fails precedes every flash command; a resume that fails does not alter the write's outcome. */
    method PauseAndWriteThemeAsset(slot: ThemeAssetSlot, data: seq<byte>) returns (reply: Result<()>, lost: bool)
      requires Operating()
      modifies this`displayPhysicallyPaused, this`displayResumeRetryAt, this`record, this`now,
        backend`lost, backend`displayLog, backend.port
      ensures Operating() && LogsGrow()
      ensures now >= old(now) && record == old(record).(displaySteps := record.displaySteps)
      ensures WriteReplyTruth(old(backend.port.flash), slot, data, reply, backend.port.flash)
      ensures backend.configVersion != Some(2) ==>
        reply.Err? && unchanged(backend.port) && (backend.answering ==> reply.error.Unsupported?)
      ensures backend.configVersion == Some(2) && backend.answering ==>
        (reply == Err(InvalidArgument) <==> |data| != slot.ByteLen())
      ensures backend.configVersion == Some(2) && old(backend.port.Reliable()) && backend.answering ==>
        (reply.Ok? <==> |data| == slot.ByteLen())
      ensures old(backend.port.trace) <= backend.port.trace
        && MutatesOnly(backend.port.trace, |old(backend.port.trace)|, slot.SectorStart(), slot.SectorEnd())
      ensures reply == Err(OperationOutcomeUnknown) || reply == Err(ConnectionLost) ==> lost
      ensures !old(backend.lost) ==> (lost <==> backend.lost)
    {
      hide Core, AttemptsFit, Grown, MutatesOnly, ThemeWriteStep, WriteReplyTruth;
      GrowthComposes();
      Holds();
      var paused := EnsureDisplayPaused();
      if paused.Err? {
        Holds();
        NothingWritten(slot, data, paused.error);
        return Err(paused.error), paused.error == ConnectionLost;
      }
      var written := WriteSlot(slot, data);
      WriteReplyIsTruthful(old(backend.port.flash), slot, data, written, backend.port.flash);
      var resumed := ResumeDisplayIfUnowned();
      reply := WriteReply(written);
      lost := written in {Err(ConnectionLost), Err(ConnectionLostBeforeMutation)} || resumed == Err(ConnectionLost);
    }

    /** The backend's write, which leaves the manager alone. */
    method WriteSlot(slot: ThemeAssetSlot, data: seq<byte>) returns (written: Result<()>)
      requires Steady()
      modifies backend`lost, backend.port
      ensures Steady()
      ensures backend.lost == (old(backend.lost) || written in {Err(ConnectionLost), Err(ConnectionLostBeforeMutation)})
      ensures ThemeWriteStep(old(backend.port.flash), slot, data, written, backend.port.flash)
      ensures written != Err(OperationOutcomeUnknown)
      ensures backend.configVersion != Some(2) ==> written.Err? && written.error.Unsupported? && unchanged(backend.port)
      ensures backend.configVersion == Some(2) && backend.attached ==>
        (written == Err(InvalidArgument) <==> |data| != slot.ByteLen())
      ensures backend.configVersion == Some(2) && old(backend.ReadsFlash()) && |data| == slot.ByteLen() ==> written.Ok?
      ensures old(backend.port.trace) <= backend.port.trace
        && MutatesOnly(backend.port.trace, |old(backend.port.trace)|, slot.SectorStart(), slot.SectorEnd())
    {
      hide PublishedFits, EventsFit, SessionFits, LeasesFit, NvmFits, NeverResumedWhileOwned, RetryFits, ClockFits,
        Commands, AttemptsFit, MutatesOnly, ThemeWriteStep;
      written := backend.WriteThemeAsset(slot, data);
    }

    /** An error found before anything was sent is true of the unchanged flash. */
    lemma NothingWritten(slot: ThemeAssetSlot, data: seq<byte>, error: DeviceError)
      requires |backend.port.flash| == SPI_FLASH_SIZE
      ensures WriteReplyTruth(backend.port.flash, slot, data, Err(error), backend.port.flash)
      ensures MutatesOnly(backend.port.trace, |backend.port.trace|, slot.SectorStart(), slot.SectorEnd())
    {
    }

    // ---- Commands: configuration -----------------------------------------------------------------------

    method ReadDeviceConfiguration() returns (reply: Result<DeviceConfiguration>)
      requires Inv()
      modifies this`state, this`watched, this`record, this`currentPort, this`activeHistoryDump,
        this`historyCancellation, this`debugPauseExpiresAt, this`displayPhysicallyPaused, this`displayResumeRetryAt,
        this`now, backend`attached, backend`configVersion, backend`lost
      ensures Inv() && NoNewDump() && LogsGrow() && Routine()
      ensures !old(IsReady()) ==> reply == Err(NotConnected) && unchanged(this)
      ensures reply.Ok? ==> reply.value == backend.active && Valid(reply.value) && InOrdinalOrder(reply.value)
      ensures old(IsReady()) && reply == Err(ConnectionLost) ==> Closed(SerialHangup)
      ensures old(IsReady()) && reply != Err(ConnectionLost) ==> Served(2) && IsReady()
      ensures old(IsReady()) && backend.answering ==> (reply.Ok? <==> old(backend.Readable()))
      ensures old(IsReady()) ==> Announced("reading_configuration")
    {
      hide Core, AttemptsFit, Grown, Valid, InOrdinalOrder;
      GrowthComposes();
      if !state.connection.Ready? {
        return Err(NotConnected);
      }
      BeginOperation("reading_configuration");
      reply := backend.ReadConfiguration();
      Settle(reply == Err(ConnectionLost));
    }

    method ReadConfigurationItem(key: string) returns (reply: Result<string>)
      requires Inv()
      modifies this`state, this`watched, this`record, this`currentPort, this`activeHistoryDump,
        this`historyCancellation, this`debugPauseExpiresAt, this`displayPhysicallyPaused, this`displayResumeRetryAt,
        this`now, backend`attached, backend`configVersion, backend`lost
      ensures Inv() && NoNewDump() && LogsGrow() && Routine()
      ensures !old(IsReady()) ==> reply == Err(NotConnected) && unchanged(this)
      ensures reply.Ok? ==> itemOf(backend.active, key) == Some(reply.value)
      ensures old(IsReady()) && reply == Err(ConnectionLost) ==> Closed(SerialHangup)
      ensures old(IsReady()) && reply != Err(ConnectionLost) ==> Served(2) && IsReady()
      ensures old(IsReady()) && backend.answering ==>
        (reply.Ok? <==> old(backend.Readable()) && itemOf(backend.active, key).Some?)
      ensures old(IsReady()) ==> Announced("reading_configuration_item")
      ensures old(IsReady() && backend.Readable()) && backend.answering && reply.Err? ==> reply == Err(InvalidArgument)
    {
      hide Core, AttemptsFit, Grown, Valid, InOrdinalOrder;
      GrowthComposes();
      if !state.connection.Ready? {
        return Err(NotConnected);
      }
      BeginOperation("reading_configuration_item");
      var configuration := backend.ReadConfiguration();
      if configuration.Err? {
        reply := Err(configuration.error);
      } else {
        var item := itemOf(configuration.value, key);
        reply := if item.Some? then Ok(item.value) else Err(InvalidArgument);
      }
      Settle(reply == Err(ConnectionLost));
    }

    /** A change that lost the line has an unknown outcome, and closes the session. */
    method FinishConfigurationMutation(result: Result<DeviceConfiguration>) returns (reply: Result<DeviceConfiguration>)
      requires Operating()
      modifies this`state, this`watched, this`record, this`currentPort, this`activeHistoryDump,
        this`historyCancellation, this`debugPauseExpiresAt, this`displayPhysicallyPaused, this`displayResumeRetryAt,
        backend`attached, backend`configVersion
      ensures Inv() && LogsGrow() && reply == MutationReply(result)
      ensures result == Err(ConnectionLost) ==> Closed(SerialHangup)
      ensures result != Err(ConnectionLost) ==> Served(1) && IsReady()
      ensures record == old(record).(published := record.published, events := record.events,
                                     position := record.position)
      ensures old(record.published) <= record.published
    {
      hide Core, AttemptsFit, Grown;
      Settle(result == Err(ConnectionLost));
      return MutationReply(result);
    }

    /** The reply to an apply is true of the device's two configurations. */
    method ApplyConfigurationCommand(configuration: DeviceConfiguration, persist: bool,
                                     expectedRevision: Option<string>)
      returns (reply: Result<DeviceConfiguration>)
      requires Inv()
      modifies this`state, this`watched, this`record, this`currentPort, this`activeHistoryDump,
        this`historyCancellation, this`debugPauseExpiresAt, this`displayPhysicallyPaused, this`displayResumeRetryAt,
        this`now, this`lastNvmMutation, backend`attached, backend`configVersion, backend`active, backend`stored,
        backend`lost, backend`sent, backend`writes, backend`writesAfterLoss, backend`nvmLog
      ensures Inv() && NoNewDump() && LogsGrow()
      ensures !old(IsReady()) ==> reply == Err(NotConnected) && unchanged(this)
      ensures ApplyTruth(old(DeviceCopies()), configuration, persist, Reported(reply),
                         backend.writes - old(backend.writes), DeviceCopies())
      ensures reply.Ok? ==> Valid(configuration) && InOrdinalOrder(configuration)
      ensures Explained(ClientRequest(ClientCommand.ApplyConfiguration(configuration, persist, expectedRevision)))
      ensures reply.Ok? && persist ==> TookSlot(old(record.nvmSlots), Store, true, record.nvmSlots)
      ensures old(IsReady()) && backend.Faultless() ==>
        (reply.Ok? <==>
          Valid(configuration) && old(MadeFor(configuration, expectedRevision)) && InOrdinalOrder(configuration))
      ensures !old(backend.lost) ==> backend.writesAfterLoss == old(backend.writesAfterLoss)
      ensures old(IsReady()) ==>
        if reply == Err(OperationOutcomeUnknown) then Closed(SerialHangup) else Served(2) && IsReady()
      ensures old(IsReady()) ==> Announced(if persist then "storing_configuration" else "applying_configuration")
    {
      hide Core, AttemptsFit, Grown, ApplyTruth, Valid, InOrdinalOrder;
      GrowthComposes();
      if !state.connection.Ready? {
        NothingApplied(DeviceCopies(), configuration, persist, NotConnected);
        return Err(NotConnected);
      }
      reply := ApplyInSession(configuration, persist, expectedRevision);
    }

    method ApplyInSession(configuration: DeviceConfiguration, persist: bool, expectedRevision: Option<string>)
      returns (reply: Result<DeviceConfiguration>)
      requires Inv() && IsReady()
      modifies this`state, this`watched, this`record, this`currentPort, this`activeHistoryDump,
        this`historyCancellation, this`debugPauseExpiresAt, this`displayPhysicallyPaused, this`displayResumeRetryAt,
        this`now, this`lastNvmMutation, backend`attached, backend`configVersion, backend`active, backend`stored,
        backend`lost, backend`sent, backend`writes, backend`writesAfterLoss, backend`nvmLog
      ensures Inv() && NoNewDump() && LogsGrow()
      ensures ApplyTruth(old(DeviceCopies()), configuration, persist, Reported(reply),
                         backend.writes - old(backend.writes), DeviceCopies())
      ensures reply.Ok? ==> Valid(configuration) && InOrdinalOrder(configuration)
      ensures HostQuiet() && TookStores(old(record.nvmSlots), persist, record.nvmSlots)
      ensures reply.Ok? && persist ==> TookSlot(old(record.nvmSlots), Store, true, record.nvmSlots)
      ensures backend.Faultless() ==>
        (reply.Ok? <==>
          Valid(configuration) && old(MadeFor(configuration, expectedRevision)) && InOrdinalOrder(configuration))
      ensures !old(backend.lost) ==> backend.writesAfterLoss == old(backend.writesAfterLoss)
      ensures if reply == Err(OperationOutcomeUnknown) then Closed(SerialHangup) else Served(2) && IsReady()
      ensures Announced(if persist then "storing_configuration" else "applying_configuration")
    {
      hide Core, AttemptsFit, Grown, ApplyTruth, Valid, InOrdinalOrder;
      GrowthComposes();
      BeginOperation(if persist then "storing_configuration" else "applying_configuration");
      var result := ApplyConfiguration(configuration, persist, expectedRevision);
      reply := FinishConfigurationMutation(result);
    }

    method SetConfigurationItemCommand(key: string, value: string, persist: bool)
      returns (reply: Result<DeviceConfiguration>)
      requires Inv()
      modifies this`state, this`watched, this`record, this`currentPort, this`activeHistoryDump,
        this`historyCancellation, this`debugPauseExpiresAt, this`displayPhysicallyPaused, this`displayResumeRetryAt,
        this`now, this`lastNvmMutation, backend`attached, backend`configVersion, backend`active, backend`stored,
        backend`lost, backend`sent, backend`writes, backend`writesAfterLoss, backend`nvmLog
      ensures Inv() && NoNewDump() && LogsGrow()
      ensures !old(IsReady()) ==> reply == Err(NotConnected) && unchanged(this)
      ensures !old(backend.lost) ==> backend.writesAfterLoss == old(backend.writesAfterLoss)
      ensures ItemTruth(old(DeviceCopies()), key, value, persist, Reported(reply),
                        backend.writes - old(backend.writes), DeviceCopies())
      ensures Explained(ClientRequest(ClientCommand.SetConfigurationItem(key, value, persist)))
      ensures reply.Ok? && persist ==> TookSlot(old(record.nvmSlots), Store, true, record.nvmSlots)
      ensures old(IsReady()) ==>
        if reply == Err(OperationOutcomeUnknown) then Closed(SerialHangup) else Served(2) && IsReady()
      ensures old(IsReady()) && backend.Faultless() ==>
        (reply.Ok? <==> old(backend.Readable()) && ItemApplies(old(backend.active), key, value))
      ensures old(IsReady()) ==>
        Announced(if persist then "storing_configuration_item" else "applying_configuration_item")
    {
      hide Core, AttemptsFit, Grown, ItemTruth;
      GrowthComposes();
      if !state.connection.Ready? {
        ItemRefused(DeviceCopies(), key, value, persist, NotConnected);
        return Err(NotConnected);
      }
      reply := SetItemInSession(key, value, persist);
    }

    method SetItemInSession(key: string, value: string, persist: bool) returns (reply: Result<DeviceConfiguration>)
      requires Inv() && IsReady()
      modifies this`state, this`watched, this`record, this`currentPort, this`activeHistoryDump,
        this`historyCancellation, this`debugPauseExpiresAt, this`displayPhysicallyPaused, this`displayResumeRetryAt,
        this`now, this`lastNvmMutation, backend`attached, backend`configVersion, backend`active, backend`stored,
        backend`lost, backend`sent, backend`writes, backend`writesAfterLoss, backend`nvmLog
      ensures Inv() && NoNewDump() && LogsGrow()
      ensures !old(backend.lost) ==> backend.writesAfterLoss == old(backend.writesAfterLoss)
      ensures ItemTruth(old(DeviceCopies()), key, value, persist, Reported(reply),
                        backend.writes - old(backend.writes), DeviceCopies())
      ensures HostQuiet() && TookStores(old(record.nvmSlots), persist, record.nvmSlots)
      ensures reply.Ok? && persist ==> TookSlot(old(record.nvmSlots), Store, true, record.nvmSlots)
      ensures if reply == Err(OperationOutcomeUnknown) then Closed(SerialHangup) else Served(2) && IsReady()
      ensures backend.Faultless() ==>
        (reply.Ok? <==> old(backend.Readable()) && ItemApplies(old(backend.active), key, value))
      ensures Announced(if persist then "storing_configuration_item" else "applying_configuration_item")
    {
      hide Core, AttemptsFit, Grown, ItemTruth;
      GrowthComposes();
      BeginOperation(if persist then "storing_configuration_item" else "applying_configuration_item");
      var result := SetConfigurationItem(key, value, persist);
      reply := FinishConfigurationMutation(result);
    }

    /** Reload and reset. */
    method NvmCommand(operation: NvmOperation) returns (reply: Result<DeviceConfiguration>)
      requires Inv() && operation != Store
      modifies this`state, this`watched, this`record, this`currentPort, this`activeHistoryDump,
        this`historyCancellation, this`debugPauseExpiresAt, this`displayPhysicallyPaused, this`displayResumeRetryAt,
        this`now, this`lastNvmMutation, backend`attached, backend`configVersion, backend`active, backend`stored,
        backend`lost, backend`sent, backend`writes, backend`writesAfterLoss, backend`nvmLog
      ensures Inv() && NoNewDump() && LogsGrow()
      ensures !old(IsReady()) ==> reply == Err(NotConnected) && unchanged(this)
      ensures reply.Ok? ==>
        && Valid(reply.value) && backend.active == reply.value && backend.stored == reply.value
        && backend.sent == old(backend.sent) + [Nvm(operation)]
      ensures operation == Reload ==> backend.stored == old(backend.stored)
      ensures reply.Ok? && operation == Reload ==> old(backend.Readable())
      ensures operation == Reload && reply == Err(InvalidArgument) ==>
        backend.active == old(backend.active) || !Valid(backend.active)
      ensures Explained(ClientRequest(if operation == Reset then ResetConfiguration else ReloadConfiguration))
      ensures if operation == Reset && old(IsReady()) then TookSlot(old(record.nvmSlots), Reset, true, record.nvmSlots)
              else record.nvmSlots == old(record.nvmSlots)
      ensures old(IsReady()) && backend.answering && operation == Reload && old(backend.Readable()) ==>
        ReloadAnswer(old(backend.active), backend.stored, reply)
      ensures old(IsReady()) && backend.Faultless() && operation == Reload && old(backend.Readable()) && reply.Err? ==>
        reply == Err(InvalidArgument) && backend.active == old(backend.active)
      ensures old(IsReady()) ==>
        if reply == Err(OperationOutcomeUnknown) then Closed(SerialHangup) else Served(2) && IsReady()
      ensures old(IsReady()) ==>
        Announced(if operation == Reload then "reloading_configuration" else "resetting_configuration")
    {
      hide Core, AttemptsFit, Grown, Valid;
      GrowthComposes();
      if !state.connection.Ready? {
        return Err(NotConnected);
      }
      reply := NvmInSession(operation);
    }

    method NvmInSession(operation: NvmOperation) returns (reply: Result<DeviceConfiguration>)
      requires Inv() && IsReady() && operation != Store
      modifies this`state, this`watched, this`record, this`currentPort, this`activeHistoryDump,
        this`historyCancellation, this`debugPauseExpiresAt, this`displayPhysicallyPaused, this`displayResumeRetryAt,
        this`now, this`lastNvmMutation, backend`attached, backend`configVersion, backend`active, backend`stored,
        backend`lost, backend`sent, backend`writes, backend`writesAfterLoss, backend`nvmLog
      ensures Inv() && NoNewDump() && LogsGrow()
      ensures reply.Ok? ==>
        && Valid(reply.value) && backend.active == reply.value && backend.stored == reply.value
        && backend.sent == old(backend.sent) + [Nvm(operation)]
      ensures operation == Reload ==> backend.stored == old(backend.stored)
      ensures reply.Ok? && operation == Reload ==> old(backend.Readable())
      ensures operation == Reload && reply == Err(InvalidArgument) ==>
        backend.active == old(backend.active) || !Valid(backend.active)
      ensures HostQuiet() && if operation == Reset then TookSlot(old(record.nvmSlots), Reset, true, record.nvmSlots)
              else record.nvmSlots == old(record.nvmSlots)
      ensures backend.answering && operation == Reload && old(backend.Readable()) ==>
        ReloadAnswer(old(backend.active), backend.stored, reply)
      ensures backend.Faultless() && operation == Reload && old(backend.Readable()) && reply.Err? ==>
        reply == Err(InvalidArgument) && backend.active == old(backend.active)
      ensures if reply == Err(OperationOutcomeUnknown) then Closed(SerialHangup) else Served(2) && IsReady()
      ensures Announced(if operation == Reload then "reloading_configuration" else "resetting_configuration")
    {
      hide Core, AttemptsFit, Grown, Valid, InOrdinalOrder, Loadable, RefusedAsInvalid, TookSlot;
      GrowthComposes();
      BeginOperation(if operation == Reload then "reloading_configuration" else "resetting_configuration");
      var result := RunNvmOperation(operation);
      reply := FinishConfigurationMutation(result);
    }

    // ---- The loop --------------------------------------------------------------------------------------

    // ---- Commands and their replies --------------------------------------------------------------------

    /** A dump with this id is active. */
    ghost predicate Dumping(dumpId: nat)
      reads this`activeHistoryDump
    {
      activeHistoryDump.Some? && activeHistoryDump.value.id == dumpId
    }

    /** What commands about the flash do: the log's dumps and chunks, and the theme's bitmaps. */
    twostate predicate FlashAnswered(command: ClientCommand, reply: Reply)
      reads this, backend, backend.port
    {
      var flash := backend.port.flash;
      match command
      case BeginHistoryDump =>
        && reply.Begun? && (old(IsReady()) && backend.answering ==> reply.dump.Ok?)
        && (reply.dump.Ok? ==>
          && old(IsReady()) && reply.dump.value.id == nextHistoryDumpId == Min(old(nextHistoryDumpId) + 1, U64_MAX)
          && Dumping(nextHistoryDumpId) && displayPhysicallyPaused)
      case ReadHistoryDumpChunk(dumpId, offset, length, requested) =>
        && reply.Delivered?
        && (reply.bytes.Ok? ==> old(Dumping(dumpId)) && IsLogChunk(flash, offset, length, reply.bytes.value))
        && (old(Dumping(dumpId) && backend.ReadsFlash()) && (forall n :: !requested(n)) ==>
          ValidateHistoryRange(offset, length).Ok? ==> reply.bytes.Ok?)
      case EndHistoryDump(dumpId) =>
        && reply.Done? && !Dumping(dumpId) && (reply.done.Ok? ==> old(Dumping(dumpId)))
        && (old(Dumping(dumpId)) && backend.answering ==> reply.done.Ok?)
      case ReadHistoryChunk(offset, length) =>
        && reply.Delivered?
        && (reply.bytes.Ok? ==> old(IsReady()) && IsLogChunk(flash, offset, length, reply.bytes.value))
        && (old(IsReady() && backend.port.Reliable()) && backend.answering ==>
          (reply.bytes.Ok? <==> ValidateHistoryRange(offset, length).Ok?))
      case ReadThemeAsset(slot) =>
        && reply.Delivered? && (reply.bytes.Ok? ==> old(IsReady()) && IsSlot(flash, slot, reply.bytes.value))
        && (old(IsReady() && backend.port.Reliable()) && backend.answering ==>
          (reply.bytes.Ok? <==> old(backend.configVersion) == Some(2)))
      case WriteThemeAsset(slot, data) =>
        && reply.Done? && WriteReplyTruth(old(backend.port.flash), slot, data, reply.done, flash)
        && (old(IsReady() && backend.configVersion != Some(2)) ==> reply.done.Err? && flash == old(backend.port.flash))
        && (old(IsReady() && backend.port.Reliable()) && backend.answering ==>
          (reply.done.Ok? <==> old(backend.configVersion) == Some(2) && |data| == slot.ByteLen()))
      case _ => true
    }

    method HandleFlashCommand(command: ClientCommand) returns (reply: Reply)
      requires Inv() && UsesFlash(command)
      modifies this, backend`attached, backend`configVersion, backend`lost, backend`displayLog, backend.port
      ensures Inv() && DumpsAreGuarded() && LogsGrow() && Explained(ClientRequest(command))
      ensures FlashAnswered(command, reply)
    {
      hide Core, AttemptsFit, Grown, ConnectionFits, DisplayFits, WriteReplyTruth, ReadsOnly, MutatesOnly, Closed,
        SameSession, Served;
      match command
      case BeginHistoryDump =>
        var dump := BeginHistoryDump();
        reply := Begun(dump);
      case ReadHistoryDumpChunk(dumpId, offset, length, requested) =>
        var bytes := ReadHistoryDumpChunk(dumpId, offset, length, requested);
        reply := Delivered(bytes);
      case EndHistoryDump(dumpId) =>
        var done := EndHistoryDump(dumpId);
        reply := Done(done);
      case ReadHistoryChunk(offset, length) =>
        var bytes := ReadHistoryChunk(offset, length);
        reply := Delivered(bytes);
      case ReadThemeAsset(slot) =>
        var bytes := ReadThemeAsset(slot);
        reply := Delivered(bytes);
      case WriteThemeAsset(slot, data) =>
        var done := WriteThemeAsset(slot, data);
        reply := Done(done);
      case _ => assert false;
    }

    /** What commands to the screen, the faults and the boot do. */
    twostate predicate DeviceAnswered(command: ClientCommand, reply: Reply)
      reads this
    {
      match command
      case SetScreen(screen) =>
        && reply.Done? && (old(IsReady()) && backend.answering ==> reply.done.Ok?)
        && (reply.done.Ok? ==>
          && old(IsReady())
          && record.events == old(record.events) + [ScreenChanged(state.sequence, state.sessionId, screen)])
      case ClearFaults(activeMask, loggedMask) =>
        && reply.Cleared? && (reply.telemetry.Ok? ==> old(IsReady()) && state.telemetry == Some(reply.telemetry.value))
        && (old(IsReady()) && backend.answering ==> (reply.telemetry.Ok? <==> KnownFaults(activeMask, loggedMask)))
      case RebootDevice =>
        && reply.Done? && (reply.done.Ok? ==> old(IsReady()) && Closed(DeviceReboot))
        && (old(IsReady()) && backend.answering ==> reply.done.Ok?)
      case _ => true
    }

    method HandleDeviceCommand(command: ClientCommand) returns (reply: Reply)
      requires Inv() && AsksDevice(command)
      modifies this, backend
      ensures Inv() && NoNewDump() && LogsGrow() && Explained(ClientRequest(command)) && Relayed(command)
      ensures DeviceAnswered(command, reply)
    {
      hide Core, AttemptsFit, Grown, ConnectionFits, DisplayFits, SameSession, Served;
      match command
      case SetScreen(screen) =>
        var done := SetScreen(screen);
        reply := Done(done);
      case ClearFaults(activeMask, loggedMask) =>
        var telemetry := ClearFaults(activeMask, loggedMask);
        reply := Cleared(telemetry);
      case RebootDevice =>
        var done := RebootDevice();
        reply := Done(done);
      case _ => assert false;
    }

    /** What commands that change the configuration do. */
    twostate predicate ConfigurationAnswered(command: ClientCommand, reply: Reply)
      reads this, backend
    {
      && reply.Configured?
      && var result := reply.configuration;
      && var issued := backend.writes - old(backend.writes);
      match command
      case ApplyConfiguration(configuration, persist, expectedRevision) =>
        && ApplyTruth(old(DeviceCopies()), configuration, persist, Reported(result), issued, DeviceCopies())
        && (old(IsReady()) && backend.Faultless() ==>
          (result.Ok? <==>
            Valid(configuration) && old(MadeFor(configuration, expectedRevision)) && InOrdinalOrder(configuration)))
      case SetConfigurationItem(key, value, persist) =>
        && ItemTruth(old(DeviceCopies()), key, value, persist, Reported(result), issued, DeviceCopies())
        && (old(IsReady()) && backend.Faultless() ==>
          (result.Ok? <==> old(backend.Readable()) && ItemApplies(old(backend.active), key, value)))
      case ReloadConfiguration =>
        && backend.stored == old(backend.stored) && (result.Ok? ==> LeftAlike(Reload, result.value))
        && (old(IsReady() && backend.Readable()) && backend.answering ==>
          ReloadAnswer(old(backend.active), backend.stored, result))
      case ResetConfiguration =>
        && (result.Ok? ==> LeftAlike(Reset, result.value))
        && (old(IsReady()) ==> TookSlot(old(record.nvmSlots), Reset, true, record.nvmSlots))
      case _ => true
    }

    /** The operation was sent, and left both copies equal, valid and as reported. */
    twostate predicate LeftAlike(operation: NvmOperation, reported: DeviceConfiguration)
      reads backend
    {
      && backend.sent == old(backend.sent) + [Nvm(operation)]
      && backend.active == backend.stored == reported && Valid(reported)
    }

    method HandleConfigurationChange(command: ClientCommand) returns (reply: Reply)
      requires Inv() && ChangesConfiguration(command)
      modifies this, backend
      ensures Inv() && NoNewDump() && LogsGrow() && Explained(ClientRequest(command))
      ensures ConfigurationAnswered(command, reply)
    {
      hide Core, AttemptsFit, Grown, ConnectionFits, DisplayFits, ApplyTruth, ItemTruth, Valid, InOrdinalOrder, Closed,
        Served;
      match command
      case ApplyConfiguration(configuration, persist, expectedRevision) =>
        var result := ApplyConfigurationCommand(configuration, persist, expectedRevision);
        reply := Configured(result);
      case SetConfigurationItem(key, value, persist) =>
        var result := SetConfigurationItemCommand(key, value, persist);
        reply := Configured(result);
      case ReloadConfiguration =>
        var result := NvmCommand(Reload);
        reply := Configured(result);
      case ResetConfiguration =>
        var result := NvmCommand(Reset);
        reply := Configured(result);
      case _ => assert false;
    }

    /** What the remaining commands do: those that only read, and those about the display's pause. */
    twostate predicate SessionAnswered(command: ClientCommand, reply: Reply)
      reads this, backend
    {
      match command
      case ReadDeviceInfo =>
        && reply.Identified? && (old(IsReady()) && backend.answering ==> reply.identity.Ok?)
        && (reply.identity.Ok? ==>
          && old(IsReady()) && reply.identity.value.productName == backend.productName
          && reply.identity.value.buildString == backend.buildString)
      case GetPollInterval => reply == Polling(Ok(pollInterval))
      case SetPollInterval(milliseconds) =>
        reply == Polling(if 100 <= milliseconds <= 5000 then Ok(milliseconds) else Err(InvalidArgument))
      case GetDisplayPause => reply.Paused? && reply.pause.Ok? && DescribesPause(reply.pause.value)
      case PauseDisplay(milliseconds) =>
        && reply.Paused? && (reply.pause.Ok? ==> DescribesPause(reply.pause.value) && LeasedFor(milliseconds))
        && (old(currentPort).Some? && backend.answering ==> (reply.pause.Ok? <==> 100 <= milliseconds <= 300_000))
      case ResumeDisplay =>
        && reply.Paused? && debugPauseExpiresAt.None? && (backend.answering ==> reply.pause.Ok?)
        && (reply.pause.Ok? ==> DescribesPause(reply.pause.value) && displayPhysicallyPaused == activeHistoryDump.Some?)
      case ReadConfiguration =>
        && reply.Configured? && (reply.configuration.Ok? ==> reply.configuration.value == backend.active)
        && (old(IsReady()) && backend.answering ==> (reply.configuration.Ok? <==> old(backend.Readable())))
      case ReadConfigurationItem(key) =>
        && reply.Found? && (reply.item.Ok? ==> itemOf(backend.active, key) == Some(reply.item.value))
        && (old(IsReady()) && backend.answering ==>
          (reply.item.Ok? <==> old(backend.Readable()) && itemOf(backend.active, key).Some?))
      case _ => true
    }

    method HandleSessionCommand(command: ClientCommand) returns (reply: Reply)
      requires Inv() && !ChangesConfiguration(command) && !UsesFlash(command) && !AsksDevice(command)
      modifies this, backend`attached, backend`configVersion, backend`lost, backend`displayLog
      ensures Inv() && NoNewDump() && LogsGrow() && Explained(ClientRequest(command))
      ensures SessionAnswered(command, reply)
    {
      hide Core, AttemptsFit, Grown, ConnectionFits, DisplayFits, Valid, InOrdinalOrder, Closed, SameSession, Served;
      GrowthComposes();
      match command
      case ReadDeviceInfo =>
        var identity := ReadDeviceInfo();
        reply := Identified(identity);
      case GetPollInterval => reply := Polling(Ok(pollInterval));
      case SetPollInterval(milliseconds) =>
        var interval := SetPollInterval(milliseconds);
        reply := Polling(interval);
      case GetDisplayPause =>
        var pause := DisplayPause();
        reply := Paused(Ok(pause));
      case PauseDisplay(milliseconds) =>
        var pause := PauseDisplay(milliseconds);
        reply := Paused(pause);
      case ResumeDisplay =>
        var pause := ResumeDisplay();
        reply := Paused(pause);
      case ReadConfiguration =>
        var configuration := ReadDeviceConfiguration();
        reply := Configured(configuration);
      case ReadConfigurationItem(key) =>
        var item := ReadConfigurationItem(key);
        reply := Found(item);
      case _ => assert false;
    }

    /** What a command does, and what its client is told. */
    twostate predicate Answered(command: ClientCommand, reply: Reply)
      reads this, backend, backend.port
    {
      if ChangesConfiguration(command) then ConfigurationAnswered(command, reply)
      else if UsesFlash(command) then FlashAnswered(command, reply)
      else if AsksDevice(command) then DeviceAnswered(command, reply)
      else SessionAnswered(command, reply)
    }

    method HandleCommand(command: ClientCommand) returns (reply: Reply)
      requires Inv()
      modifies this, backend, backend.port
      ensures Inv() && DumpsAreGuarded() && LogsGrow() && Explained(ClientRequest(command)) && Relayed(command)
      ensures Answered(command, reply)
    {
      hide Core, AttemptsFit, Grown, ConnectionFits, DisplayFits, Valid, InOrdinalOrder;
      if ChangesConfiguration(command) {
        reply := HandleConfigurationChange(command);
      } else if UsesFlash(command) {
        reply := HandleFlashCommand(command);
      } else if AsksDevice(command) {
        reply := HandleDeviceCommand(command);
      } else {
        reply := HandleSessionCommand(command);
      }
    }

    /** The earliest deadline. */
    function WakeAt(nextPoll: Instant): (t: Instant)
      reads this
      ensures t <= nextPoll
      ensures activeHistoryDump.Some? ==> t <= activeHistoryDump.value.expiresAt
      ensures debugPauseExpiresAt.Some? ==> t <= debugPauseExpiresAt.value
      ensures displayResumeRetryAt.Some? ==> t <= displayResumeRetryAt.value
      ensures t == nextPoll || (activeHistoryDump.Some? && t == activeHistoryDump.value.expiresAt)
        || Some(t) == debugPauseExpiresAt || Some(t) == displayResumeRetryAt
    {
      var dump := if activeHistoryDump.Some? then Min(nextPoll, activeHistoryDump.value.expiresAt) else nextPoll;
      var debug := if debugPauseExpiresAt.Some? then Min(dump, debugPauseExpiresAt.value) else dump;
      if displayResumeRetryAt.Some? then Min(debug, displayResumeRetryAt.value) else debug
    }

    /** No lease that had expired is left, nor, in a ready session, a display resume that was due. */
    ghost predicate NothingOverdue(moment: Instant)
      reads this`state, this`activeHistoryDump, this`debugPauseExpiresAt, this`displayResumeRetryAt
    {
      && (activeHistoryDump.Some? ==> moment < activeHistoryDump.value.expiresAt)
      && (debugPauseExpiresAt.Some? ==> moment < debugPauseExpiresAt.value)
      && (IsReady() && displayResumeRetryAt.Some? ==> moment < displayResumeRetryAt.value)
    }

    /** Nothing that had expired is left; a retry that was due has been made. */
    method ExpireLeases()
      requires Inv()
      modifies this`state, this`watched, this`record, this`currentPort, this`activeHistoryDump,
        this`historyCancellation, this`debugPauseExpiresAt, this`displayPhysicallyPaused, this`displayResumeRetryAt,
        this`now, backend, backend.port
      ensures Inv() && NoNewDump() && LogsGrow() && Routine()
      ensures now >= old(now)
      ensures NothingOverdue(old(now))
      ensures backend.readings == old(backend.readings)
    {
      hide Core, AttemptsFit, Grown, ConnectionFits, DisplayFits, Closed;
      GrowthComposes();
      ExpireHistoryDump();
      ExpireDebugPause();
      RetryDisplayResumeCleanup();
    }

    /** A deadline has passed: expired leases first, then a due retry, then a due poll. */
    method HandleTimer(nextPoll: Instant) returns (next: Instant)
      requires Inv()
      modifies this`state, this`watched, this`record, this`currentPort, this`activeHistoryDump,
        this`historyCancellation, this`debugPauseExpiresAt, this`displayPhysicallyPaused, this`displayResumeRetryAt,
        this`now, this`consecutivePollFailures, this`lastSuccessfulPoll, backend, backend.port
      ensures Inv() && NoNewDump() && LogsGrow() && Explained(Timer)
      ensures now >= old(now)
      ensures NothingOverdue(old(now))
      ensures IsReady() && old(now) >= nextPoll ==> backend.readings == old(backend.readings) + 1
      ensures if next == nextPoll then old(now) < nextPoll || next == now + pollInterval else next == now + pollInterval
    {
      hide Core, AttemptsFit, Grown, ConnectionFits, DisplayFits;
      GrowthComposes();
      ExpireLeases();
      var read := Now();
      next := nextPoll;
      if read >= nextPoll {
        PollOnce();
        var polled := Now();
        next := polled + pollInterval;
      }
    }

    /** One turn of the loop. */
    method Step(input: Input, nextPoll: Instant) returns (next: Instant, stopped: bool, reply: Option<Reply>)
      requires Inv()
      modifies this, backend, backend.port
      ensures Inv() && DumpsAreGuarded() && LogsGrow() && Explained(input)
      ensures stopped <==> input.HostShutdown?
      ensures stopped ==> currentPort.None? && !record.position.open && state.connection.Absent?
      ensures stopped && old(currentPort).Some? ==> Closed(DisconnectReason.Shutdown)
      ensures reply.Some? <==> input.ClientRequest?
      ensures input.ClientRequest? ==> Relayed(input.command) && Answered(input.command, reply.value)
      ensures input.Timer? ==> now >= old(WakeAt(nextPoll)) && NothingOverdue(old(WakeAt(nextPoll)))
      ensures input.Timer? && old(WakeAt(nextPoll)) >= nextPoll && IsReady() ==>
        backend.readings == old(backend.readings) + 1
      ensures if input.Timer? then next in {nextPoll, now + pollInterval} else next == nextPoll
      ensures input.Timer? && old(WakeAt(nextPoll)) >= nextPoll ==> next == now + pollInterval
    {
      hide Core, AttemptsFit, Grown;
      GrowthComposes();
      next, stopped, reply := nextPoll, false, None;
      match input
      case Timer =>
        SleepUntil(WakeAt(nextPoll));
        next := HandleTimer(nextPoll);
      case HostCandidates(ports) => HandleHostEvent(ports);
      case ClientRequest(command) =>
        var answer := HandleCommand(command);
        reply := Some(answer);
      case HostShutdown =>
        Disconnect(Shutdown);
        Holds();
        stopped := true;
    }

    /**
     Any run: whatever wakes the loop, and in whatever order. A run that is shut down closes its
     session. `served` counts the inputs that the loop got to see, up to the shutdown.
     */
    method Run(inputs: seq<Input>) returns (stopped: bool, ghost served: nat)
      requires Inv()
      modifies this, backend, backend.port
      ensures Inv() && LogsGrow()
      ensures served <= |inputs| && Led(old(record), inputs[..served], record)
      ensures if stopped then served > 0 && inputs[served - 1] == HostShutdown && HostShutdown !in inputs[..served - 1]
              else served == |inputs| && HostShutdown !in inputs
      ensures stopped ==> currentPort.None? && !record.position.open && state.connection.Absent?
    {
      hide Core, AttemptsFit, Grown, Explains;
      GrowthComposes();
      var nextPoll := Now();
      served := 0;
      for i := 0 to |inputs|
        invariant Inv() && LogsGrow() && served == i
        invariant HostShutdown !in inputs[..i] && Led(old(record), inputs[..i], record)
      {
        ghost var before := record;
        var reply;
        nextPoll, stopped, reply := Step(inputs[i], nextPoll);
        served := i + 1;
        LedOn(old(record), inputs[..i], before, inputs[i], record);
        assert inputs[..i] + [inputs[i]] == inputs[..i + 1];
        if stopped {
          return;
        }
      }
      return false, served;
    }
  }

  // ---- Whole runs --------------------------------------------------------------------------------------

  /** What one input adds: only a rollback's store is not a client's. */
  lemma AddedSlots(input: Input, before: seq<NvmSlot>, after: seq<NvmSlot>, k: nat)
    requires SlotsFor(input, before, after) && k < |after| && !after[k].client
    ensures if k < |before| then after[k] == before[k] else after[k].operation == Store
  {
    if k < |before| && after != before {
      assert after[k] == after[..|before|][k];
    }
  }

  /** Only a rollback's store does without the wait. */
  lemma {:induction false} OnlyRollbacksDoNotWait(inputs: seq<Input>, record: Record, j: nat)
    requires Led(EMPTY_RECORD, inputs, record)
    requires j < |record.nvmSlots| && !record.nvmSlots[j].client
    ensures record.nvmSlots[j].operation == Store
  {
    hide SlotsFor;
    if inputs != [] {
      var n := |inputs| - 1;
      var before :| Led(EMPTY_RECORD, inputs[..n], before) && Explains(inputs[n], before, record);
      AddedSlots(inputs[n], before.nvmSlots, record.nvmSlots, j);
      if j < |before.nvmSlots| {
        OnlyRollbacksDoNotWait(inputs[..n], before, j);
      }
    }
  }

  /** In every run, a reset comes at least a second after every earlier change of non-volatile memory. */
  lemma ResetsWait(inputs: seq<Input>, record: Record, i: nat, j: nat)
    requires Led(EMPTY_RECORD, inputs, record) && NvmPaced(record.nvmSlots)
    requires i < j < |record.nvmSlots| && record.nvmSlots[j].operation == Reset
    ensures record.nvmSlots[j].at >= record.nvmSlots[i].at + 1000
  {
    if !record.nvmSlots[j].client {
      OnlyRollbacksDoNotWait(inputs, record, j);
    }
    ClientSlotsAreSpaced(record.nvmSlots, i, j);
  }

  /** A client asks for a change of non-volatile memory. */
  predicate AsksForNvm(input: Input) {
    match input
    case ClientRequest(ApplyConfiguration(_, persist, _)) => persist
    case ClientRequest(SetConfigurationItem(_, _, persist)) => persist
    case ClientRequest(ResetConfiguration) => true
    case _ => false
  }

  /** Without such a request, non-volatile memory is never changed. */
  lemma {:induction false} NvmIsLeftAlone(inputs: seq<Input>, record: Record)
    requires Led(EMPTY_RECORD, inputs, record)
    requires forall i :: 0 <= i < |inputs| ==> !AsksForNvm(inputs[i])
    ensures record.nvmSlots == []
  {
    if inputs != [] {
      var n := |inputs| - 1;
      var before :| Led(EMPTY_RECORD, inputs[..n], before) && Explains(inputs[n], before, record);
      NvmIsLeftAlone(inputs[..n], before);
    }
  }

  /** The host never reports another list. */
  predicate OnlyList(inputs: seq<Input>, candidates: Candidates) {
    forall i :: 0 <= i < |inputs| && inputs[i].HostCandidates? ==> inputs[i].ports == candidates
  }

  /** Then every attempt is made under that list. */
  lemma {:induction false} MadeUnderOneList(inputs: seq<Input>, record: Record, candidates: Candidates)
    requires Led(EMPTY_RECORD, inputs, record) && OnlyList(inputs, candidates)
    ensures if record.candidates.None? then record.epoch == 0 && record.attempts == []
            else record.candidates == Some(candidates) && record.epoch == 1
    ensures forall i :: 0 <= i < |record.attempts| ==> record.attempts[i].epoch == 1
  {
    if inputs != [] {
      var n := |inputs| - 1;
      var before :| Led(EMPTY_RECORD, inputs[..n], before) && Explains(inputs[n], before, record);
      MadeUnderOneList(inputs[..n], before, candidates);
      forall i | 0 <= i < |record.attempts| ensures record.attempts[i].epoch == 1 {
        if i < |before.attempts| {
          assert record.attempts[i] == before.attempts[i];
        }
      }
    }
  }

  /**
   As long as the host reports one and the same list, a port that turned out to be unsupported is
   never opened again, and after `k` failures in a row the next request to open it starts at least the
   doubled, capped delay after the last of them.
   */
  lemma ReopeningIsPaced(inputs: seq<Input>, record: Record, opens: seq<Opening>, candidates: Candidates,
                         i: nat, k: nat)
    requires Led(EMPTY_RECORD, inputs, record) && OnlyList(inputs, candidates)
    requires Paced(record.attempts) && AttemptsFit(record.attempts, opens)
    requires 0 < k && i + k < |opens|
    ensures !Ended(opens[i], Refused)
    ensures (forall m :: i <= m < i + k ==> Ended(opens[m], Retryable)) ==>
      record.attempts[i + k].startedAt
        >= record.attempts[i + k - 1].endedAt + [250, 500, 1000, 2000, 4000, 8000, 16_000, 30_000][Min(k, 8) - 1]
  {
    MadeUnderOneList(inputs, record, candidates);
    var attempts := record.attempts;
    assert AttemptFits(attempts[i], opens[i]);
    if attempts[i].outcome.Refused? {
      RefusedIsNotReopened(attempts, i, i + k);
    }
    if forall m :: i <= m < i + k ==> Ended(opens[m], Retryable) {
      forall m | i <= m < i + k ensures attempts[m].outcome.Retryable? {
        assert AttemptFits(attempts[m], opens[m]);
      }
      NextAttemptWaits(attempts, i, k);
    }
  }

  /** A whole run, from a fresh daemon: what every log then shows, whatever happened. */
  method WholeRun(backend: SerialBackend, pollInterval: nat, revisionOf: (nat, DeviceConfiguration) -> Option<string>,
                  itemOf: (DeviceConfiguration, string) -> Option<string>,
                  withItem: (DeviceConfiguration, string, string) -> Option<DeviceSettings>, inputs: seq<Input>)
    returns (manager: Manager, stopped: bool, ghost served: nat)
    requires backend.Valid() && backend.Untouched()
    modifies backend, backend.port
    ensures fresh(manager) && manager.Inv()
    ensures WellBracketed(manager.record.events)
    ensures served <= |inputs| && Led(EMPTY_RECORD, inputs[..served], manager.record)
    ensures if stopped then served > 0 && inputs[served - 1] == HostShutdown && HostShutdown !in inputs[..served - 1]
            else served == |inputs| && HostShutdown !in inputs
    ensures stopped ==> !ReadAll(manager.record.events).value.open
    ensures Numbered(manager.record.published) && |manager.record.published| == manager.state.sequence
    ensures Paced(manager.record.attempts) && AttemptsFit(manager.record.attempts, backend.opens)
    ensures NvmFits(manager.record.nvmSlots, manager.lastNvmMutation, backend.nvmLog)
    ensures NeverResumedWhileOwned(manager.record.displaySteps)
    ensures Commands(manager.record.displaySteps) == backend.displayLog
  {
    manager := new Manager(backend, pollInterval, revisionOf, itemOf, withItem);
    stopped, served := manager.Run(inputs);
  }

  /** The example settings with an impossible backlight: bytes that decode and do not validate. */
  const TOO_BRIGHT := EXAMPLE_CONFIGURATION.(settings := EXAMPLE.(backlight := 101))

  /**
   A device that answers every exchange, on which the stored configuration is invalid, and on which
   writing the example leaves the invalid one active too: the refused reload is not undone, and the
   answer is the same as if it were.
   */
  method RefusedReloadIsNotUndone(manager: Manager) returns (result: Result<DeviceConfiguration>)
    requires manager.Steady() && manager.backend.answering
    requires manager.backend.active == EXAMPLE_CONFIGURATION && manager.backend.configVersion == Some(2)
    requires manager.backend.stored == TOO_BRIGHT
    requires manager.backend.leavesInstead(EXAMPLE_CONFIGURATION) == Some(TOO_BRIGHT)
    modifies manager, manager.backend
    ensures result == Err(InvalidArgument) && manager.backend.active == TOO_BRIGHT && !Valid(TOO_BRIGHT)
  {
    ExampleIsReadable();
    assert !Valid(TOO_BRIGHT) && InOrdinalOrder(TOO_BRIGHT);
    hide Valid, InOrdinalOrder;
    result := manager.RunNvmOperation(Reload);
  }

  /** On a faultless device, a request that validates and was made for the device is rolled back for its order alone. */
  method UnorderedRequestIsRolledBack(manager: Manager, persist: bool) returns (result: Result<DeviceConfiguration>)
    requires manager.Steady() && manager.backend.Faultless()
    requires manager.backend.active == EXAMPLE_CONFIGURATION && manager.backend.configVersion == Some(2)
    modifies manager, manager.backend
    ensures Valid(UNORDERED) && result == Err(FailedAndRolledBack(VerificationFailed))
  {
    hide Valid, InOrdinalOrder;
    ExampleIsReadable();
    ValidationIgnoresOrder();
    result := manager.ApplyConfiguration(UNORDERED, persist, None);
  }
}
