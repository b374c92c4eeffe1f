/**
 Downloading the whole log through a dump: the command-line client's loop and the graphical
 client's. Between any two of a client's calls the daemon may do anything else: serve other
 clients, run into deadlines, lose the device and find another one.
 */
module HistoryDump {
  import opened Domain
  import opened Bytes
  import opened Backend
  import opened Daemon = Manager
  import History
  import Spi
  import Theme

  const CLIENT_CHUNK_SIZE: nat := 16 * 1024

  /**
   What happens around one call: the daemon's other inputs before it, whether the request arrives
   and its answer returns, when the reading of its chunk is cancelled, and whether the user gave up.
   */
  datatype Moment = Moment(inputs: seq<Input>, arrives: bool, answered: bool, cancels: nat -> bool, givenUp: bool)

  /** Nothing else goes on, every message gets through, and nobody gives up. */
  ghost predicate Calm(moment: Moment) {
    && moment.inputs == [] && moment.arrives && moment.answered && !moment.givenUp
    && forall n :: !moment.cancels(n)
  }

  datatype Chunk = Chunk(offset: nat, totalBytes: nat, data: seq<byte>)

  /** Everything else the daemon does in the meantime. */
  method Meanwhile(daemon: Manager, inputs: seq<Input>)
    requires daemon.Inv()
    modifies daemon, daemon.backend, daemon.backend.port
    ensures daemon.Inv() && daemon.DumpsAreGuarded()
    ensures inputs == [] ==> unchanged(daemon, daemon.backend, daemon.backend.port)
  {
    hide Manager.Inv;
    if inputs == [] {
      return;
    }
    var nextPoll := daemon.now;
    for i := 0 to |inputs|
      invariant daemon.Inv() && daemon.DumpsAreGuarded()
    {
      var stopped, reply;
      nextPoll, stopped, reply := daemon.Step(inputs[i], nextPoll);
      if stopped {
        return;
      }
    }
  }

  /** Starts the dump. Nothing is promised about the size it reports, which clients check themselves. */
  method RequestBegin(daemon: Manager, moment: Moment) returns (reply: Result<HistoryDump>)
    requires daemon.Inv()
    modifies daemon, daemon.backend, daemon.backend.port
    ensures daemon.Inv() && daemon.nextHistoryDumpId >= old(daemon.nextHistoryDumpId)
    ensures reply.Ok? ==>
      && daemon.activeHistoryDump.Some?
      && daemon.activeHistoryDump.value.id == reply.value.id == daemon.nextHistoryDumpId
      && daemon.state.sessionId == reply.value.sessionId && reply.value.id > 0
    ensures reply.Err? && Calm(moment) ==>
      daemon.activeHistoryDump.None? || daemon.activeHistoryDump == old(daemon.activeHistoryDump)
    ensures Calm(moment) && old(daemon.IsReady()) && daemon.backend.answering ==>
      && reply.Ok? && reply.value.totalBytes == History.FLASH_LENGTH
      && reply.value.sessionId == old(daemon.watched.sessionId)
      && (old(daemon.backend.port.Reliable()) ==> daemon.backend.ReadsFlash())
  {
    hide Manager.Steady, ConnectionFits, DisplayFits;
    Meanwhile(daemon, moment.inputs);
    if !moment.arrives {
      return Err(Transport);
    }
    reply := daemon.BeginHistoryDump();
    if !moment.answered {
      return Err(Transport);
    }
  }

  /** One chunk request, after whatever happened before it. A delivered chunk proves the dump still active. */
  method RequestChunk(daemon: Manager, dumpId: nat, offset: nat, length: nat, moment: Moment)
    returns (reply: Result<Chunk>)
    requires daemon.Inv()
    modifies daemon, daemon.backend, daemon.backend.port
    ensures daemon.Inv() && daemon.DumpsAreGuarded()
    ensures reply.Ok? ==>
      && daemon.activeHistoryDump.Some? && daemon.activeHistoryDump.value.id == dumpId
      && reply.value.offset == offset && reply.value.totalBytes == History.FLASH_LENGTH
      && offset + length <= History.FLASH_LENGTH
      && reply.value.data == LogRegion(daemon.backend.port.flash)[offset..offset + length]
    ensures Calm(moment) && old(daemon.activeHistoryDump.None?) ==> daemon.activeHistoryDump.None?
    ensures Calm(moment) && Downloading(old(daemon.activeHistoryDump), dumpId) ==>
      daemon.activeHistoryDump.None? || Downloading(daemon.activeHistoryDump, dumpId)
    ensures Calm(moment) && Downloading(old(daemon.activeHistoryDump), dumpId) && old(daemon.backend.ReadsFlash()) ==>
      ValidateHistoryRange(offset, length).Ok? ==> reply.Ok? && daemon.backend.ReadsFlash()
  {
    hide Manager.Steady, ConnectionFits, DisplayFits, Spi.ReadsOnly;
    Meanwhile(daemon, moment.inputs);
    if !moment.arrives {
      return Err(Transport);
    }
    var data := daemon.ReadHistoryDumpChunk(dumpId, offset, length, moment.cancels);
    if data.Err? {
      return Err(data.error);
    }
    if !moment.answered {
      return Err(Transport);
    }
    return Ok(Chunk(offset, History.FLASH_LENGTH, data.value));
  }

  /** Ends the dump, after whatever happened before; an acknowledged end proves it was active until then. */
  method RequestEnd(daemon: Manager, dumpId: nat, moment: Moment) returns (reply: Result<()>)
    requires daemon.Inv()
    modifies daemon, daemon.backend, daemon.backend.port
    ensures daemon.Inv()
    ensures reply.Ok? && dumpId < U64_MAX && dumpId <= old(daemon.nextHistoryDumpId) ==>
      && old(daemon.activeHistoryDump).Some? && old(daemon.activeHistoryDump).value.id == dumpId
      && daemon.backend.port.flash == old(daemon.backend.port.flash)
    ensures moment.arrives ==> !Downloading(daemon.activeHistoryDump, dumpId)
    ensures Calm(moment) && old(daemon.activeHistoryDump.None?) ==> daemon.activeHistoryDump.None?
    ensures Calm(moment) && Downloading(old(daemon.activeHistoryDump), dumpId) ==> daemon.activeHistoryDump.None?
    ensures Calm(moment) && Downloading(old(daemon.activeHistoryDump), dumpId) && daemon.backend.answering ==> reply.Ok?
  {
    hide Manager.Steady, ConnectionFits, DisplayFits;
    Meanwhile(daemon, moment.inputs);
    if !moment.arrives {
      return Err(Transport);
    }
    reply := daemon.EndHistoryDump(dumpId);
    if !moment.answered {
      return Err(Transport);
    }
  }

  /** What a client holds so far, and what that is worth while its dump goes on. */
  ghost predicate PrefixOfLog(bytes: seq<byte>, flash: seq<byte>) {
    && |flash| == Theme.SPI_FLASH_SIZE && |bytes| <= History.FLASH_LENGTH
    && bytes == LogRegion(flash)[..|bytes|]
  }

  lemma PrefixGrows(bytes: seq<byte>, flash: seq<byte>, chunk: seq<byte>)
    requires PrefixOfLog(bytes, flash) && |bytes| + |chunk| <= History.FLASH_LENGTH
    requires chunk == LogRegion(flash)[|bytes|..|bytes| + |chunk|]
    ensures PrefixOfLog(bytes + chunk, flash)
  {
    var log := LogRegion(flash);
    assert log[..|bytes|] + log[|bytes|..|bytes| + |chunk|] == log[..|bytes| + |chunk|];
  }

  /** The dump is active. */
  predicate Downloading(active: Option<ActiveHistoryDump>, dumpId: nat) {
    active.Some? && active.value.id == dumpId
  }

  /** The outcome of a completed download: the log region, then and now. */
  ghost predicate IsTheLog(result: Result<seq<byte>>, flash: seq<byte>) {
    |flash| == Theme.SPI_FLASH_SIZE && (result.Ok? ==> result.value == LogRegion(flash))
  }

  datatype Client = CommandLine | Graphical

  /** The command line wants exactly what it asked for; the graphical client takes any part of it that is not empty. */
  predicate Acceptable(client: Client, chunk: Chunk, offset: nat, length: nat) {
    && chunk.offset == offset
    && match client
       case CommandLine => |chunk.data| == length
       case Graphical => chunk.totalBytes == History.FLASH_LENGTH && 0 < |chunk.data| <= length
  }

  /** The chunk loop: what was collected is a prefix of the log region as it was when the dump began. */
  method DownloadChunks(daemon: Manager, client: Client, dumpId: nat, moments: nat -> Moment)
    returns (result: Result<seq<byte>>, calls: nat)
    requires daemon.Inv() && dumpId <= daemon.nextHistoryDumpId
    requires Downloading(daemon.activeHistoryDump, dumpId)
    modifies daemon, daemon.backend, daemon.backend.port
    ensures daemon.Inv() && dumpId <= daemon.nextHistoryDumpId
    ensures dumpId < U64_MAX ==> IsTheLog(result, old(daemon.backend.port.flash))
    ensures dumpId < U64_MAX && Downloading(daemon.activeHistoryDump, dumpId) ==>
      daemon.backend.port.flash == old(daemon.backend.port.flash)
    ensures (forall n :: Calm(moments(n))) ==>
      daemon.activeHistoryDump.None? || Downloading(daemon.activeHistoryDump, dumpId)
    ensures (forall n :: Calm(moments(n))) && old(daemon.backend.ReadsFlash()) ==>
      result.Ok? && Downloading(daemon.activeHistoryDump, dumpId)
  {
    hide PublishedFits, EventsFit, SessionFits, LeasesFit, NvmFits, NeverResumedWhileOwned, RetryFits, ClockFits,
      ConnectionFits, DisplayFits;
    ghost var flash := daemon.backend.port.flash;
    var bytes: seq<byte> := [];
    calls := 1;
    while |bytes| < History.FLASH_LENGTH
      invariant daemon.Inv() && dumpId <= daemon.nextHistoryDumpId
      invariant |bytes| <= History.FLASH_LENGTH && (dumpId < U64_MAX ==> PrefixOfLog(bytes, flash))
      invariant dumpId < U64_MAX && Downloading(daemon.activeHistoryDump, dumpId) ==> daemon.backend.port.flash == flash
      invariant (forall n :: Calm(moments(n))) ==>
        daemon.activeHistoryDump.None? || Downloading(daemon.activeHistoryDump, dumpId)
      invariant (forall n :: Calm(moments(n))) && old(daemon.backend.ReadsFlash()) ==>
        Downloading(daemon.activeHistoryDump, dumpId) && daemon.backend.ReadsFlash()
    {
      if moments(calls).givenUp {
        return Err(OperationCancelled), calls + 1;
      }
      var length := Min(History.FLASH_LENGTH - |bytes|, CLIENT_CHUNK_SIZE);
      var reply := RequestChunk(daemon, dumpId, |bytes|, length, moments(calls));
      calls := calls + 1;
      if reply.Err? {
        return Err(reply.error), calls;
      }
      var chunk := reply.value;
      if !Acceptable(client, chunk, |bytes|, length) {
        return Err(Transport), calls;
      }
      if dumpId < U64_MAX {
        PrefixGrows(bytes, flash, chunk.data);
      }
      bytes := bytes + chunk.data;
    }
    return Ok(bytes), calls;
  }

  /**
   A whole download. If it completes, it is the log region byte for byte, as it is on the device
   then. `id` is the dump's, once one was started; ids repeat only after 2^64 - 1 dumps. It completes
   if nothing else goes on and the device of a ready session answers and can be read. However it
   ends, its dump is no longer active then, unless the request to end it did not arrive.
   */
  method Download(daemon: Manager, client: Client, moments: nat -> Moment)
    returns (result: Result<seq<byte>>, ghost id: nat)
    requires daemon.Inv()
    modifies daemon, daemon.backend, daemon.backend.port
    ensures daemon.Inv()
    ensures id < U64_MAX ==> IsTheLog(result, daemon.backend.port.flash)
    ensures result.Ok? ==> id > 0
    ensures id > 0 && (forall n :: moments(n).arrives) ==> !Downloading(daemon.activeHistoryDump, id)
    ensures (forall n :: Calm(moments(n))) ==>
      daemon.activeHistoryDump.None? || daemon.activeHistoryDump == old(daemon.activeHistoryDump)
    ensures old(daemon.IsReady() && daemon.backend.port.Reliable()) && daemon.backend.answering ==>
      (forall n :: Calm(moments(n))) ==> result.Ok?
  {
    hide PublishedFits, EventsFit, SessionFits, LeasesFit, NvmFits, NeverResumedWhileOwned, RetryFits, ClockFits,
      ConnectionFits, DisplayFits;
    id := 0;
    var session := daemon.watched.sessionId;
    var begun := RequestBegin(daemon, moments(0));
    if begun.Err? {
      return Err(begun.error), id;
    }
    var dump := begun.value;
    id := dump.id;
    if dump.totalBytes != History.FLASH_LENGTH || (client.Graphical? && dump.sessionId != session) {
      var _ := RequestEnd(daemon, dump.id, moments(1));
      return Err(Transport), id;
    }
    var calls;
    result, calls := DownloadChunks(daemon, client, dump.id, moments);
    var ended := RequestEnd(daemon, dump.id, moments(calls));
    if result.Ok? && ended.Err? {
      result := Err(ended.error);
    }
  }
}
