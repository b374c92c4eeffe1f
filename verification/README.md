# Verification of the wireviewd daemon

`wireviewd` owns a USB power monitor: it polls it, serves clients, downloads its measurement log,
changes its configuration and rewrites bitmaps in its flash. This project models the parts of the
daemon and its clients in which a mistake would corrupt the device, lose data or mislead a client,
and proves what they promise. `dafny verify dfyconfig.toml` checks everything.

| files | what they model |
|---|---|
| `Domain.dfy` | results, errors, bytes |
| `Theme.dfy`, `Spi.dfy`, `ThemeTransaction.dfy`, `ThemeStore.dfy` | the flash, its serial commands and the verified replacement of one bitmap slot |
| `Backend.dfy` | the backend that the manager drives: the flash for real, every other exchange with an arbitrary answer |
| `EventLog.dfy`, `Pacing.dfy`, `ApplyProtocol.dfy`, `Manager.dfy` | the manager's loop, its event log, its pacing rules and the configuration transaction |
| `BitMask.dfy`, `Config.dfy`, `ConfigCodec.dfy`, `ConfigLayout.dfy`, `ConfigExamples.dfy`, `ConfigFrames.dfy` | the three binary configuration layouts, position by position, and how a layout is sent |
| `History.dfy`, `HistoryLog.dfy`, `HistoryRecord.dfy`, `HistoryDump.dfy` | the log walker, the log's bytes and the download of the whole log |
| `CivilDate.dfy` | the printed date of a timestamp |
| `GraphPath.dfy`, `Graph.dfy` | the live graph's buffer and its downsampled path |
| `HistoryTask.dfy` | the graphical client's background download |

How the world is modelled:

- The flash is a sequence of bytes. Erasing sets them to 0xff and programming can only clear bits.
  Every serial command meets an arbitrary turn of a schedule: it is answered, times out, or breaks,
  with the line lost or not. A failed erase or program may leave its range in any state. Reads that
  are answered are faithful, and no command takes effect late.
- The manager's clock may advance by any amount whenever it is read. Every exchange with the device
  may give any answer. Ghost records keep the events sent, the states published, the attempts to
  open a port, the uses of non-volatile memory and the display commands. The backend keeps for
  itself which ports it was asked to open and what it answered, which display commands and which
  changes of non-volatile memory it received, and the invariant ties the manager's records to that,
  one for one. How often the candidate list had changed, and which changes of memory were asked for,
  is tied to the host's and the clients' inputs.
- The device has an active and a stored configuration. A write may leave any active one; a store, a
  reset or a reload that succeeded has made the two copies equal. For some statements, a device
  answers every exchange, and then keeps of each configuration that it is sent a fixed other one or
  the bytes themselves; a faultless device always keeps the bytes.
- Whatever a client, the host or another task may do in between is an arbitrary input.

Facts about the code that the proofs brought to light or depend on:

- A persistent configuration change that fails is rolled back to the configuration that was
  *active* before, also in non-volatile memory. What was stored before is kept exactly when it was
  the same (`ApplyProtocol.RolledBackStoreKeptIff`, with an example in
  `ApplyProtocol.RolledBackStoreCanChange`).
- Validation accepts fault and screen lists in any order, but reading back sorts them. A request
  whose lists are not in ordinal order therefore never passes the comparison after the write: it is
  rolled back even by a device without faults, where every other valid request made for what the
  device reports succeeds (`Manager.Manager.ApplyConfiguration`, with an example in
  `Manager.UnorderedRequestIsRolledBack`).
- A reload refused as invalid has put the previous active configuration back on every faultless
  device. It has not if writing that one back leaves an active configuration that decodes but is
  invalid, because reading this back is refused with the same error
  (`Manager.Manager.RunNvmOperation`, with an example in `Manager.RefusedReloadIsNotUndone`).
- A failed chunk read outside a dump is reported even if the following display resume loses the
  line; the daemon stays ready and finds out at the next exchange. The invariant allows this: a
  pause without an owner either has a retry scheduled or belongs to a session that has already
  lost its line.
- An overdue display-resume retry waits while a dump keeps the session busy.
- Sample times in the graph stand still once they reach the largest 64-bit value, and the largest
  of two values with the same time is then not drawn (`Graph.InOrderIff`,
  `Graph.StandstillLosesTheMaximum`).

## Model

| member | source | states |
|---|---|---|
| Theme.CoveringSectors | crates/wireview-core/src/theme.rs:59-83 | a slot's covering sectors are whole, tight around the slot and in the lower half of the flash |
| Theme.SlotsAreDisjoint | crates/wireview-core/src/theme.rs:59-83 | no two slots share a byte |
| Theme.BackgroundsShareASector | crates/wireview-core/src/theme.rs:59-83 | the two backgrounds meet inside one sector, so writing one rewrites the other's bytes |
| Bytes.ProgramErased | src/backend.rs:936-976 | clearing bits of an erased byte stores exactly the byte sent |
| Spi.ReadSpiPage | src/backend.rs:801-848 | a page is sent at most three times, every time but the last was answered by a timeout, and no other answer is retried; a delivered page holds the flash's bytes; the flag is looked at before every command and after every timeout, and a set one ends the read, which nothing else reports as cancelled; the flash is untouched |
| Spi.ReadSpiBytes | src/backend.rs:850-878 | a delivered range is exactly the flash's range, under any pattern of timeouts; a cancelled read is reported as such, and one cancelled before it starts sends nothing; only page reads inside the range are sent; the only argument error is a 32-bit overflow |
| Spi.ReadSpiStatus | src/backend.rs:880-896 | success means the acknowledgement byte, a lost line is reported as such |
| Spi.EraseSpiSectors | src/backend.rs:898-934 | only the addressed sectors can change; guards fire exactly on empty, unaligned or outlying ranges; without faults the range is erased |
| Spi.WriteSpiPage | src/backend.rs:936-976 | the guard fires exactly on an empty page, a page crossing or a range past the flash; without faults the page is the old one with bits cleared |
| Spi.WriteSpiPages | src/backend.rs:978-994 | aligned data never meets the page guard, only the range can change, and on an erased range without faults the data is stored |
| ThemeTransaction.EraseAndProgram | src/backend.rs:1059-1066 | erasing and programming touch only the covering sectors and stop at a lost line |
| ThemeTransaction.RewriteSectors | src/backend.rs:996-1013 | success means the sectors hold the requested bytes, proved by reading back; any fault schedule leaves the rest of the flash alone |
| ThemeTransaction.ReplaceOrRestore | src/backend.rs:1059-1100 | a rolled-back replacement leaves the flash as it was; after a lost line nothing mutating is sent |
| ThemeTransaction.PatchSectors | src/backend.rs:1027-1100 | patching a backup of whole sectors changes exactly the slot's range; every error found before the erase sent nothing but reads |
| ThemeTransaction.WriteThemeAssetTransaction | src/backend.rs:1015-1100 | over every fault schedule the answer is true of the flash; without faults it succeeds for every slot |
| ThemeStore.PatchChangesOneReading | src/backend.rs:1027-1057 | a successful write changes its own slot's reading and no other slot's, even in a shared sector, nor the log region |
| ThemeStore.StepRefines | src/backend.rs:1015-1100 | one write, however it ends, refines one step of a map from slots to what is known of them |
| ThemeStore.RunRefinesMap | src/backend.rs:1015-1100 | the flash under any sequence of writes refines the map |
| ThemeStore.ReadsAgreeWithMap | src/backend.rs:1289-1306 | after any run a slot whose content is known reads back as the map says |
| ThemeStore.Perform | src/backend.rs:1289-1327 | performing any list of slot reads and writes on a device keeps the map a true description of the flash, every successful read of a known slot gives the map's bytes, and the log region is untouched |
| Backend.ValidateHistoryRange | src/backend.rs:1417-1429 | a chunk is accepted iff it is at most the limit and inside the log region |
| Backend.SerialBackend.ReadHistoryChunk | src/backend.rs:1245-1272 | a delivered chunk is that part of the log region, and every command stays inside the region |
| Backend.SerialBackend.ReadThemeAsset | src/backend.rs:1289-1306 | only a V3 device is read, any other is refused before anything is sent; delivered bytes are the slot's, only the slot was read, and a reliable port delivers |
| Backend.SerialBackend.WriteThemeAsset | src/backend.rs:1308-1327 | the transaction's promise for V3 devices, which on a reliable port is success for data of the slot's length; any other device is refused before anything is sent |
| Backend.SerialBackend.ReadConfiguration | src/backend.rs:1274-1287 | what is delivered is the active configuration: of the probed version, with its lists in ordinal order, and valid; one that decodes without being valid is refused as invalid; a device that answers every exchange delivers iff all of this holds, and says whether the rest decodes |
| Backend.SerialBackend.WriteConfiguration | src/backend.rs:1329-1358 | a wrong version or an invalid configuration is refused before anything is sent, and nothing else is; a device that answers every exchange then has active what it keeps of the request: for a faultless one, the request with its lists in ordinal order |
| ConfigFrames.Frames | src/backend.rs:1344-1357 | a device that stores the frames at their offsets holds exactly the bytes, whatever it held before; the offset byte overflows only beyond 310 bytes |
| ConfigFrames.ConfigurationFits | crates/wireview-core/src/config.rs:786-795 | every layout is sent in exactly two frames |
| ConfigCodec.OrderedIsReadable | crates/wireview-core/src/config.rs:574-784 | putting the lists of a valid configuration in order leaves a valid one, which is the same iff they were in order |
| BitMask.UnmaskOfMask | crates/wireview-core/src/config.rs:887-931 | decoding a list's mask gives the list's members in ascending order |
| BitMask.PopCountAcceptsDistinct | crates/wireview-core/src/config.rs:323-343 | as many bits as entries means no repeated entry, and conversely |
| BitMask.AscendingIsIdentity | crates/wireview-core/src/config.rs:887-931 | sorting changes nothing iff the list already ascends strictly |
| ConfigCodec.PopCountTestIsExact | crates/wireview-core/src/config.rs:323-343 | validation accepts a fault or screen list iff it has no duplicates |
| ConfigCodec.EncodeConfiguration | crates/wireview-core/src/config.rs:693-784 | filling a zeroed buffer field by field gives each version's layout, as `ConfigLayout.EncodingIff` describes it, and only for valid configurations |
| ConfigCodec.FieldsRoundTrip | crates/wireview-core/src/config.rs:599-690 | decoding the bytes of any valid settings gives what the version's layout keeps of them |
| ConfigCodec.DecodeOfEncoded | crates/wireview-core/src/config.rs:574-784 | for all versions, decoding an encoded valid configuration gives it back with its lists in ordinal order |
| ConfigCodec.DecodeAfterEncode | crates/wireview-core/src/config.rs:574-784 | the round trip is exact iff the lists are in ordinal order |
| ConfigCodec.LosslessIffValidForVersion | crates/wireview-core/src/config.rs:544-571 | a layout keeps a configuration exactly when the version-specific validation accepts it |
| ConfigCodec.EncodeAfterDecode | crates/wireview-core/src/config.rs:574-784 | whatever decodes and validates is unchanged by encoding and decoding again |
| ConfigCodec.DecodedIsOrdered | crates/wireview-core/src/config.rs:887-925 | whatever decodes has its lists in ordinal order |
| ConfigLayout.DecodingIff | crates/wireview-core/src/config.rs:574-690 | for all bytes and versions, decoding gives a configuration iff it is valid, has its lists in ordinal order, and every field lies at its position under its code; positions and codes are written out per version |
| ConfigLayout.EncodedFields | crates/wireview-core/src/config.rs:693-784 | the bytes of a valid configuration hold every field at its position, and zeros elsewhere |
| ConfigLayout.EncodingIff | crates/wireview-core/src/config.rs:693-784 | they are the only bytes that do |
| ConfigExamples.RigsDecode | crates/wireview-core/src/config.rs:574-690 | one string of bytes of each version, written out, decodes to the configuration written out beside it |
| ConfigExamples.EncodeRigs | crates/wireview-core/src/config.rs:693-784 | and is what that configuration is encoded to |
| ConfigExamples.ValidIff | crates/wireview-core/src/config.rs:268-571 | what validation accepts, field by field with its limits, nothing listed twice, and for the older layouts what their theme byte implies |
| History.PaddingAdvancesOneSlot | crates/wireview-core/src/history.rs:114-125 | the padding arithmetic with its absolute rounding always advances exactly one slot |
| History.GridSlot | crates/wireview-core/src/history.rs:105-125 | a slot's offset and page crossing follow from its number alone |
| History.CrossesPageIff | crates/wireview-core/src/history.rs:114-118 | a slot is left out iff its 21 bytes would lie in two flash pages |
| History.WalkHistory | crates/wireview-core/src/history.rs:95-175 | the nested loop equals a plain in-order fold over all slots, for every visitor, and never indexes out of bounds |
| History.VisitHistory | crates/wireview-core/src/history.rs:82-93 | visiting reports the fold's count and whether the end was found, or the visitor's error |
| History.ParseHistory | crates/wireview-core/src/history.rs:57-69 | parsing collects exactly the fold's entries; what those are for written records, `HistoryRecord.ParsedReadings` says |
| History.FoldSplits | crates/wireview-core/src/history.rs:95-175 | the walk may be cut at any slot and continued |
| History.FoldSeesOnlyItsBytes | crates/wireview-core/src/history.rs:95-175 | the walk of a range of slots depends on the bytes of those slots only |
| History.BytesAfterTheEndDoNotMatter | crates/wireview-core/src/history.rs:127-138 | once the erased run is met, no later byte can change the result |
| HistoryLog.ParsedLog | crates/wireview-core/src/history.rs:57-175 | a log laid out from slot 0 and followed by an erased run parses back to exactly its plausible measurements, in order, with its end found |
| HistoryLog.CountingMatchesParsing | crates/wireview-core/src/history.rs:71-93 | counting while visiting sees the entries and the end that parsing sees |
| HistoryRecord.RecordRoundTrip | crates/wireview-core/src/history.rs:177-238 | the 21 bytes that a measurement's values make, written byte by byte, decode to those values, to each pin's power, to their sums, and to the cable's 600, 450, 300 or 150 W |
| HistoryRecord.AbsentProbes | crates/wireview-core/src/history.rs:226-229 | a probe is absent exactly for a zero byte and from -100 degrees down, and otherwise the byte is its temperature |
| HistoryRecord.MeasurementClass | crates/wireview-core/src/history.rs:146-163 | a written measurement counts iff its six voltages lie between 6 and 90 volts together, and starts the log in any case |
| HistoryRecord.ParsedReadings | crates/wireview-core/src/history.rs:57-175 | a log of measurements and power-on markers, laid out as the device does, parses to exactly the values of the measurements in range, with its end found |
| EventLog.SequencesIncrease | src/manager.rs:636-641 | in every well-bracketed log, event sequences strictly increase |
| EventLog.SessionsIncrease | src/manager.rs:620-641 | session ids strictly increase from each connection to every later one |
| EventLog.InsideItsSession | src/manager.rs:753-778 | telemetry, screen and disconnection events fall inside their own, still open session |
| EventLog.ClosedInBetween | src/manager.rs:718-760 | between two connections the first one's session was closed |
| Pacing.NextAttemptWaits | src/manager.rs:675-695 | after k retryable failures in a row under one candidate list, the next attempt waits at least 250, 500, 1000, 2000, 4000, 8000, 16000 ms for k from 1 to 7, then 30000 ms |
| Pacing.RetryDelays | src/manager.rs:680-684 | the shift doubles, and the delays are these eight |
| Pacing.DelaysNeverShrink | src/manager.rs:681-684 | delays never shrink and never exceed 30 s |
| Pacing.RefusedIsNotReopened | src/manager.rs:664-674 | after an attempt that was refused, every later one is made under a changed candidate list |
| Pacing.ClientSlotsAreSpaced | src/manager.rs:1681-1689 | a client's store or reset comes at least a second after every earlier change of non-volatile memory, a rollback's included |
| Manager.AttemptRecorded | src/manager.rs:652-703 | the remembered retry count is the streak of failures in the log, up to its saturation, and the moment follows from the streak |
| Manager.DueMayStart | src/manager.rs:705-716 | a due retry permits an attempt under the pacing rules |
| Manager.Manager.OpenPort | src/manager.rs:615-618 | the one request to open a port is the attempt that the pacing rules allowed at this moment, and the session's port is attached iff it was opened |
| Manager.Manager.EndAttempt | src/manager.rs:664-689 | the attempt goes on record with the outcome that the backend's answers determine, and what is remembered follows from it |
| Manager.Manager.CloseSession | src/manager.rs:734-760 | closing a session publishes that it is disconnecting and then that it is gone, lets the backend's port go, sends one Disconnected, keeps stale telemetry and drops every lease |
| Manager.Manager.Disconnect | src/manager.rs:718-760 | only an attached manager sends an event; an absent one publishes nothing |
| Manager.Manager.BeginSession | src/manager.rs:620-641 | a session starts with the next number, the identity and the telemetry just read, no lease and one Connected event |
| Manager.Manager.Connect | src/manager.rs:615-650 | success starts the next session, failure leaves none, and the connecting state is published first; the attempt is on record as succeeded, refused or retryable by what the backend answered, and the retry that is remembered follows from it |
| Manager.Manager.ConnectionFailed | src/manager.rs:652-703 | an unsupported device is reported and remembered as refused, anything else as recovering with its attempt number and the moment of the next attempt; nothing else of a session is left |
| Manager.Manager.OneCandidate | src/manager.rs:588-596 | an attempt happens iff the retry is due: what is remembered is due when it starts, and not due if none is made; another port's session is closed first |
| Manager.Manager.ManyCandidates | src/manager.rs:597-611 | several candidates end the session, are published once and lead to no attempt |
| Manager.Manager.HandleHostEvent | src/manager.rs:577-613 | the list goes on record, counted iff it differs from the last one; a held port is the only candidate, and an attempt is made on an only candidate alone |
| Manager.Manager.PollOnce | src/manager.rs:762-808 | a poll reads telemetry once and appends one event, or counts a failure, or closes the session; a lost line closes it at once and nothing else is taken for one; it is idle outside Ready |
| Manager.Manager.PollFailed | src/manager.rs:781-806 | the third failure in a row closes the session, and telemetry turns stale iff two intervals have passed |
| Manager.Manager.ExpireHistoryDump | src/manager.rs:810-831 | a dump ends exactly when its lease has expired, and the session survives unless the line is lost |
| Manager.Manager.ExpireDebugPause | src/manager.rs:833-851 | a debug lease ends exactly when it has expired |
| Manager.Manager.RetryDisplayResumeCleanup | src/manager.rs:887-915 | a due retry runs only in a ready session, none is left overdue there, and one that resumed the display is published |
| Manager.Manager.EnsureDisplayPaused | src/manager.rs:853-861 | success means paused; one pause command reaches the device, and none when already paused |
| Manager.Manager.ResumeDisplayIfUnowned | src/manager.rs:863-885 | one resume command reaches the device if the display is paused and nobody owns the pause, and none otherwise; a failure schedules a retry unless the line is lost |
| Manager.Manager.SetScreen | src/manager.rs:949-973 | the requested screen is sent once; success publishes once and sends one event of the session; a lost line is reported as an unknown outcome |
| Manager.Manager.BeginHistoryDump | src/manager.rs:974-1015 | a dump gets the next id, a 10 s lease, the pause and the busy state; a second one is refused |
| Manager.Manager.ReadHistoryDumpChunk | src/manager.rs:1016-1059 | only the active dump's id is served, its lease is renewed, and what is delivered is the log region's bytes |
| Manager.Manager.EndHistoryDump | src/manager.rs:1060-1089 | the session is ready again whatever the display answers, unless the line is lost |
| Manager.Manager.ReadHistoryChunk | src/manager.rs:1090-1139 | a chunk outside a dump is the log region's bytes, delivered only if the display was resumed too; an answering device with a reliable port delivers exactly the chunks within limit and region |
| Manager.Manager.ReadThemeAsset | src/manager.rs:1140-1176 | delivered bytes are the slot's, whatever the display then answers; an answering V3 device with a reliable port delivers them, another version is refused; a lost line closes the session |
| Manager.Manager.WriteThemeAsset | src/manager.rs:1177-1225 | the reply is true of the flash: success means patched, only an unknown outcome or a failed rollback leave the covering sectors unknown, and a failing resume changes nothing; on an answering device with a reliable port it succeeds iff the layout is V3 and the data has the slot's length, and another version's flash is untouched |
| Manager.WriteReplyIsTruthful | src/manager.rs:1215-1221 | mapping the two kinds of lost line keeps the answer true, and no other answer is changed |
| Manager.Manager.ReadDeviceInfo | src/manager.rs:1226-1256 | only the two names of the identity change, to what the device reports, and the reply is the new identity |
| Manager.Manager.ClearFaults | src/manager.rs:1257-1302 | unknown or empty masks are refused before anything is sent; otherwise exactly the requested masks are sent once, and success replies with the telemetry it published |
| Manager.Manager.PauseDisplay | src/manager.rs:1327-1358 | a lease of the requested length is taken in a ready or busy session only |
| Manager.Manager.ResumeDisplay | src/manager.rs:1359-1373 | the debug lease is given up in any case; a dump keeps the display paused |
| Manager.Manager.RebootDevice | src/manager.rs:1488-1507 | success and a lost line both close the session for the reboot |
| Manager.Manager.WaitForNvmMutationSlot | src/manager.rs:1681-1689 | the recorded slot keeps the one-second spacing |
| Manager.Manager.TryConfiguration | src/manager.rs:1541-1570 | success means the request was sent once and is active, and was stored once, in a client's slot, if asked; on a faultless device it succeeds iff the lists are in ordinal order, else the comparison fails; a lost line ends it |
| Manager.Manager.StoreConfiguration | src/manager.rs:1549-1563 | the store waits for and takes exactly one slot of the client's; success means the settings are active and stored |
| Manager.Manager.RollbackConfiguration | src/manager.rs:1585-1614 | success means the original is active again, and stored too if the change was persistent, in a slot of the rollback's own; a faultless device takes its own configuration back |
| Manager.Manager.ApplyConfiguration | src/manager.rs:1512-1583 | over all fault schedules the answer is true of both configurations, nothing is written after a lost line, and non-volatile memory is used at most once for the client and then once by the rollback; on a faultless device it succeeds iff the request is valid, made for the version, checksum and revision the device reports, and has its lists in ordinal order |
| Manager.Manager.SetConfigurationItem | src/manager.rs:1616-1626 | the same promise for the device's own settings with one of them replaced; on a faultless device it succeeds iff the device reports a configuration and the edited one is valid with its lists in order |
| Manager.Manager.RunNvmOperation | src/manager.rs:1628-1679 | success means the one command asked for was sent and both copies equal the returned, valid configuration; a reset takes a client's slot; a device that answers every exchange reloads iff what is stored is valid, in order and of the active version, and is otherwise left with what it keeps of the previous configuration, which a faultless one keeps whole; a reload never touches the stored copy |
| Manager.Manager.ApplyConfigurationCommand | src/manager.rs:1430-1450 | the client's reply keeps that promise, with a lost line reported as an unknown outcome |
| Manager.Manager.NvmCommand | src/manager.rs:1470-1487 | the same for the client's reload and reset, with a lost line reported as an unknown outcome |
| Manager.Manager.FinishConfigurationMutation | src/manager.rs:1691-1710 | a lost line closes the session, anything else makes it ready again |
| ApplyProtocol.RolledBackStoreKeptIff | src/manager.rs:1598-1612 | a rolled-back persistent change keeps the stored settings iff they were the active ones |
| ApplyProtocol.RolledBackStoreCanChange | src/manager.rs:1598-1612 | a device for which no rolled-back persistent change keeps what was stored |
| ApplyProtocol.ValidationIgnoresOrder | crates/wireview-core/src/config.rs:323-343 | a configuration that validates although its fault list is out of order, and does not survive encoding and decoding |
| Manager.UnorderedRequestIsRolledBack | src/manager.rs:1541-1583 | on a faultless device that request is rolled back, for its order alone |
| Manager.RefusedReloadIsNotUndone | src/manager.rs:1660-1677 | a device on which a refused reload leaves another, invalid configuration active, with the same answer as if it had been undone |
| Manager.Manager.WakeAt | src/manager.rs:541-553 | the loop sleeps until the earliest pending deadline |
| Manager.Manager.HandleTimer | src/manager.rs:555-563 | no lease that had expired is left, a display resume that was due has been tried in a ready session, a due poll has been made and the next one scheduled |
| Manager.Manager.HandleCommand | src/manager.rs:947-1510 | every command keeps the invariant, only appends to the logs and guards dumps; the reply is that command's: what it delivers, what it leaves on the device and in the flash, and on an answering or faultless device when it succeeds; it sends, takes slots and sets the poll interval only as asked, and makes no attempt |
| Manager.Manager.Step | src/manager.rs:554-574 | one turn of the loop keeps the invariant, appends to the logs only what its input explains, and guards dumps; a command gets its reply, a timer leaves nothing overdue and schedules the next poll one interval after a due one, nothing else moves the next poll, and a shutdown closes the session for that reason |
| Manager.Manager.Run | src/manager.rs:539-575 | any run keeps the invariant; input by input, the attempts, the count of list changes and the slots are explained by what the host and the clients sent; a run that is shut down holds no port and has closed its session |
| Manager.WholeRun | src/manager.rs:462-575 | every run from a fresh daemon has a well-bracketed event log and consecutive publications; the requests to open a port that the backend received are the paced attempts, one for one, with the outcomes its answers determine; the changes of non-volatile memory it was asked for are the paced slots, one for one; both follow from the inputs; the display commands the device received are those on record, and none resumes while the pause is owned |
| Manager.ReopeningIsPaced | src/manager.rs:652-716 | in every run in which the host reports one and the same list, a port the backend refused is never opened again, and after k failing openings in a row the next one starts at least 250, 500, 1000, 2000, 4000, 8000, 16000 ms later for k from 1 to 7, then 30000 ms |
| Manager.ResetsWait | src/manager.rs:1637-1638 | in every run, a reset comes at least a second after every earlier change of non-volatile memory |
| Manager.OnlyRollbacksDoNotWait | src/manager.rs:1598-1612 | in every run, whatever does not wait for its slot is a rollback's store |
| Manager.NvmIsLeftAlone | src/manager.rs:1430-1487 | in every run without a persistent change or a reset, non-volatile memory is never changed |
| HistoryDump.RequestChunk | src/varlink.rs:192-214 | a delivered chunk proves the dump still active and is the log region's bytes at its offset |
| HistoryDump.DownloadChunks | src/bin/wireview.rs:705-737 | what was collected is a prefix of the log as it was when the dump began, whatever happened in between |
| HistoryDump.Download | crates/wireview-gui/src/client.rs:941-1010 | a download that completes is the 8 MiB log region byte for byte, for both clients; it completes when nothing else goes on and the device of a ready session answers and can be read; however it ends, its dump is no longer active then |
| CivilDate.YearOfEraIsRight | src/bin/wireview.rs:1960-1965 | the closed formula finds the year of the era that contains the day, under the leap rule |
| CivilDate.MonthIsRight | src/bin/wireview.rs:1966-1968 | the closed formula finds the month that contains the day |
| CivilDate.DateOfIsRight | src/bin/wireview.rs:1958-1969 | the date is valid in the proleptic Gregorian calendar and its day count is the input |
| CivilDate.DateRoundTrip | src/bin/wireview.rs:1958-1969 | converting a valid date's day count gives the date back |
| CivilDate.FromUnixMillisIsRight | src/bin/wireview.rs:1950-1972 | every 64-bit timestamp is printed as a valid moment that is exactly the timestamp |
| CivilDate.FromUnixMillisAscends | src/bin/wireview.rs:1950-1972 | later timestamps print as later moments, so no two print alike |
| Graph.GraphState.Record | crates/wireview-gui/src/graph.rs:234-271 | duplicates are dropped, a new session empties the buffer, the oldest of 1200 samples makes room, and times stay strictly increasing exactly until the clock's last value |
| Graph.RecordedAtIsEarliest | crates/wireview-gui/src/graph.rs:251-260 | the recorded time is the earliest that is not before the snapshot's and later than the last one's, up to the largest 64-bit time |
| Graph.InOrderIff | crates/wireview-gui/src/graph.rs:255-260 | times are strictly increasing iff at most one sample has the largest 64-bit time |
| Graph.NothingIsClamped | crates/wireview-gui/src/graph.rs:554-557 | no windowed sample reaches the bucket clamp |
| Graph.GraphState.Overview | crates/wireview-gui/src/graph.rs:326-377 | the overview's path draws the last minute's samples, at most 768, each in its place on an axis from zero to a tenth above the largest power shown and at least to one watt, enclosing every power of an ordered buffer |
| GraphPath.ClampFiresIff | crates/wireview-gui/src/graph.rs:554-557 | the clamp fires iff a time lies beyond the window |
| GraphPath.BucketSpans | crates/wireview-gui/src/graph.rs:552-557 | the 384 buckets divide the window's moments evenly |
| GraphPath.FilledKeepsExtremes | crates/wireview-gui/src/graph.rs:510-537 | a bucket is populated iff a point falls into it, and its extremes are points that none of its points exceeds |
| GraphPath.FilledKeepsEarliest | crates/wireview-gui/src/graph.rs:510-537 | of equal values in a bucket the earliest is kept as its extreme, for points in order |
| GraphPath.CountPoints | crates/wireview-gui/src/graph.rs:560-564 | the precomputed count is the number of points drawn |
| GraphPath.DrawnAscends | crates/wireview-gui/src/graph.rs:567-613 | drawn points have strictly increasing times |
| GraphPath.DrawnEncloses | crates/wireview-gui/src/graph.rs:549-613 | a point lies between two drawn points of its own bucket, if that bucket's extremes are not two values at one time |
| GraphPath.EnclosesIff | crates/wireview-gui/src/graph.rs:549-613 | the path encloses every point within its bucket iff no bucket's extremes are two values at one time |
| GraphPath.EqualTimesLoseTheMaximum | crates/wireview-gui/src/graph.rs:519-580 | two values at one time lose the larger one, in either order |
| GraphPath.LargerIsHigher | crates/wireview-gui/src/graph.rs:618-641 | a larger value is never drawn lower |
| GraphPath.CornersAreReached | crates/wireview-gui/src/graph.rs:618-641 | the window's start and end are drawn at 0 and 1000 from the left, the axis' top and bottom at 0 and 1000 from the top |
| GraphPath.PathDepicts | crates/wireview-gui/src/graph.rs:618-641 | every coordinate is the point's exact place on the 0 to 1000 scale to the nearest whole number, and its end beyond the scale |
| GraphPath.BuildPath | crates/wireview-gui/src/graph.rs:539-641 | the path draws real windowed samples, at most 768 and exactly as many as counted, each in its place to the nearest of 1000 steps, in strictly increasing time never going back; it encloses every sample within its bucket iff no bucket's extremes are two values at one time, and always for samples in order |
| Graph.StandstillLosesTheMaximum | crates/wireview-gui/src/graph.rs:234-271 | two snapshots recorded at the last 64-bit time give a path that leaves the larger power out |
| HistoryTask.SameGenerationIff | crates/wireview-gui/src/client.rs:687-712 | generations are confused iff a multiple of 2^64 lies between them |
| HistoryTask.TakenFromChannel | crates/wireview-gui/src/client.rs:360-366 | a result of the current generation belongs to the task the worker holds, and no change was seen since that task started |
| HistoryTask.Worker.HandleIff | crates/wireview-gui/src/client.rs:687-712 | a cancel handle exists iff exactly its outstanding task carries the current generation |
| HistoryTask.Worker.StartHistory | crates/wireview-gui/src/client.rs:687-703 | a second download is refused; a new one takes a new generation and its own flag |
| HistoryTask.Worker.InvalidateHistoryTask | crates/wireview-gui/src/client.rs:705-710 | a task that is no longer wanted is told to stop and forgotten |
| HistoryTask.Worker.Poll | crates/wireview-gui/src/client.rs:379-432 | a session change or a failure invalidates the task; an unchanged session does not |
| HistoryTask.Worker.ReceiveResult | crates/wireview-gui/src/client.rs:360-366 | a result is accepted iff its generation is current, and then nothing was seen since its task started |
| HistoryTask.Worker.Stop | crates/wireview-gui/src/client.rs:338-357 | at shutdown a wanted task is told to stop, results are taken up to its own or until patience ends, and nothing more is accepted |
| HistoryTask.Worker.Run | crates/wireview-gui/src/client.rs:331-374 | in every interleaving, no accepted result is older than the last session change or failure; after a shutdown a task still wanted has been told to stop |

## Left out

- Opening serial ports, the handshake's bytes and timing and the resume command it ends with, device discovery, the Varlink transport, socket activation and signals: only their arbitrary outcomes appear.
- Texts: error messages, log lines, labels, report formatting, JSON and CSV output, and the padding of the printed date. Errors that carry another error keep it.
- Floating-point rounding: settings are integer tenths; graph values, coordinates and history values are reals; telemetry scaling is not modelled. NaN and infinite samples do not occur.
- Revision hashes and the JSON access to single settings: arbitrary functions.
- Non-ASCII device names: name bytes from 128 on are refused when decoding, where the code accepts well-formed UTF-8; validation admits printable ASCII only, so no configuration that can be written is affected.
- Overflow of the 64-bit sequence and session counters: they are unbounded. The dump id saturates as in the code, and `HistoryDump.Download` says what that leaves.
- HistoryDump.Download: promises nothing about the content under the dump id 2^64 - 1, which repeats once the counter saturates.
- Manager.Manager.ReadHistoryDumpChunk: the cancellation flag is a new one for each chunk, cancelled at arbitrary moments, so that a flag once set need not stay set for the next chunk.
- Manager.Manager.RunNvmOperation: a reload may still write after a lost line, as in the code; nothing is promised about writes after a loss.
- Backend.SerialBackend.ReadConfiguration: the three attempts to decode are one exchange, and the device's bytes are represented by what they decode to, or by something out of order or of another version if they do not.
- Manager.Manager.ApplyConfiguration: the pauses between the steps appear only as the clock moving on.
- Graph.GraphState.Overview: the per-series frames, the axes of the other kinds and the series masks are not modelled; their paths come from the same `GraphPath.BuildPath`.
- HistoryTask.Worker.Stop: waiting for a result is bounded by a number of received results instead of a time.
- The other commands of the graphical client and of the command line: they forward one request each.
- The simulated backend used by the repository's own tests.
