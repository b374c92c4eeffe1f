/**
 The graphical client's background download. Tasks run beside the worker, finish in any order and
 send their results through a channel; a generation number, wrapping at 64 bits, tells the worker
 which result it still wants. Everything shown below holds in every interleaving as long as the
 number has not wrapped.
 */
module HistoryTask {
  import opened Domain
  import opened Bytes

  const GENERATIONS: nat := 0x1_0000_0000_0000_0000

  datatype TaskStatus = Running | Sent | Received

  /** A task: the generation it was started under, the flag it shares with the worker, and how far it is. */
  datatype Task = Task(generation: nat, cancelled: bool, status: TaskStatus)
  {
    predicate Outstanding() {
      !status.Received?
    }
  }

  /**
   For the record, about a task's start: the generation counter without wrapping, and the session
   changes and failures seen.
   */
  datatype Origin = Origin(started: nat, seen: nat)

  datatype Message = Message(task: nat, generation: nat, result: Result<seq<byte>>)

  /**
   An accepted result: how many session changes and failures had been seen when its task started, and
   when it came.
   */
  datatype Acceptance = Acceptance(seenAtStart: nat, seenAtEnd: nat)

  /** Two generations are told apart exactly unless a multiple of 2^64 lies between their starts. */
  lemma SameGenerationIff(a: nat, b: nat)
    ensures a % GENERATIONS == b % GENERATIONS <==> (b - a) % GENERATIONS == 0
  {
    var p, q := a / GENERATIONS, b / GENERATIONS;
    assert b - a == GENERATIONS * (q - p) + (b % GENERATIONS - a % GENERATIONS);
  }

  // ---- The invariant's parts ------------------------------------------------------------------------

  ghost predicate TasksFit(tasks: seq<Task>, origins: seq<Origin>, bumps: nat, observations: nat) {
    && |origins| == |tasks|
    && (forall i, j :: 0 <= i < j < |tasks| ==> origins[i].started < origins[j].started)
    && (forall i :: 0 <= i < |tasks| ==>
      && tasks[i].generation == origins[i].started % GENERATIONS
      && 0 < origins[i].started <= bumps && origins[i].seen <= observations)
    && (forall i :: 0 <= i < |tasks| && origins[i].started == bumps ==> origins[i].seen == observations)
  }

  /** The results in the channel are those of tasks that have sent and not been received, one each. */
  ghost predicate ChannelFits(channel: seq<Message>, tasks: seq<Task>) {
    && (forall k :: 0 <= k < |channel| ==>
      channel[k].task < |tasks| && tasks[channel[k].task].status == Sent
      && channel[k].generation == tasks[channel[k].task].generation)
    && (forall j, k :: 0 <= j < k < |channel| ==> channel[j].task != channel[k].task)
  }

  /**
   From the front of the channel results were received, and only the last of them may be the wanted one:
   either it is, or no more was to be had, or patience has ended.
   */
  ghost predicate Awaited(all: seq<Message>, rest: seq<Message>, generation: nat, tasks: seq<Task>, patience: nat) {
    var taken := |all| - |rest|;
    && 0 <= taken <= patience && rest == all[taken..]
    && (forall i :: 0 <= i < taken ==> all[i].task < |tasks| && tasks[all[i].task].status == Received)
    && (forall i :: 0 <= i < taken - 1 ==> all[i].generation != generation)
    && (taken == patience || rest == [] || (taken > 0 && all[taken - 1].generation == generation))
  }

  /** The first `n` results were received, none of them wanted. */
  ghost predicate Skipped(all: seq<Message>, n: nat, generation: nat, tasks: seq<Task>)
    requires n <= |all|
  {
    forall i :: 0 <= i < n ==>
      all[i].task < |tasks| && tasks[all[i].task].status == Received && all[i].generation != generation
  }

  lemma SkippedNone(all: seq<Message>, generation: nat, tasks: seq<Task>)
    ensures Skipped(all, 0, generation, tasks)
  {
  }

  lemma ReceivedNext(all: seq<Message>, n: nat, generation: nat, tasks: seq<Task>, patience: nat)
    requires n < |all| && n < patience && Skipped(all, n, generation, tasks) && ChannelFits(all[n..], tasks)
    ensures all[n].task < |tasks|
    ensures
      var after := tasks[all[n].task := tasks[all[n].task].(status := Received)];
      && ChannelFits(all[n..][1..], after) && all[n..][1..] == all[n + 1..]
      && if all[n].generation == generation then Awaited(all, all[n + 1..], generation, after, patience)
         else Skipped(all, n + 1, generation, after)
  {
    assert all[n..][0] == all[n];
    assert forall k :: n < k < |all| ==> all[n..][k - n] == all[k] && all[n + 1..][k - n - 1] == all[k];
  }

  lemma EndOfPatience(all: seq<Message>, n: nat, generation: nat, tasks: seq<Task>, patience: nat)
    requires n <= |all| && Skipped(all, n, generation, tasks) && (n == patience || (n < patience && all[n..] == []))
    ensures Awaited(all, all[n..], generation, tasks, patience)
  {
  }

  /**
   The worker holds the flag of exactly the outstanding task of the current generation; every other one
   was told to stop.
   */
  ghost predicate HandleFits(handle: Option<nat>, tasks: seq<Task>, origins: seq<Origin>, bumps: nat)
    requires |origins| == |tasks|
  {
    && (forall i :: 0 <= i < |tasks| ==> (handle == Some(i) <==> tasks[i].Outstanding() && origins[i].started == bumps))
    && (forall i :: 0 <= i < |tasks| && tasks[i].Outstanding() && origins[i].started != bumps ==> tasks[i].cancelled)
  }

  /** A task started under a new generation is the one the worker holds the flag of. */
  lemma TaskStarted(tasks: seq<Task>, origins: seq<Origin>, bumps: nat, observations: nat)
    requires TasksFit(tasks, origins, bumps, observations)
    ensures
      var longer := tasks + [Task((bumps + 1) % GENERATIONS, false, Running)];
      var starts := origins + [Origin(bumps + 1, observations)];
      && TasksFit(longer, starts, bumps + 1, observations)
      && (HandleFits(None, tasks, origins, bumps) ==> HandleFits(Some(|tasks|), longer, starts, bumps + 1))
  {
  }

  /** Taking the first result out of the channel; if it is wanted, the worker's handle was for its task. */
  lemma TakenFromChannel(channel: seq<Message>, tasks: seq<Task>, origins: seq<Origin>, bumps: nat, observations: nat,
                         handle: Option<nat>)
    requires TasksFit(tasks, origins, bumps, observations) && ChannelFits(channel, tasks) && channel != []
    ensures var after := tasks[channel[0].task := tasks[channel[0].task].(status := Received)];
      && TasksFit(after, origins, bumps, observations) && ChannelFits(channel[1..], after)
      && (bumps < GENERATIONS && HandleFits(handle, tasks, origins, bumps) ==>
        if channel[0].generation == bumps % GENERATIONS then
          && handle == Some(channel[0].task) && origins[channel[0].task].seen == observations
          && HandleFits(None, after, origins, bumps)
        else HandleFits(handle, after, origins, bumps))
  {
    var first := channel[0].task;
    assert tasks[first].generation == origins[first].started % GENERATIONS;
  }

  ghost predicate AcceptedFits(accepted: seq<Acceptance>) {
    forall k :: 0 <= k < |accepted| ==> accepted[k].seenAtStart == accepted[k].seenAtEnd
  }

  /** What a refresh of the daemon's status comes to. */
  datatype RefreshOutcome = NotYet | Failed | Status(session: nat, laterFailure: bool)

  datatype Input =
    | LoadHistory
    | CancelHistory
    | Refresh(outcome: RefreshOutcome)
    | OperationDisconnects
    | TaskFinishes(task: nat, result: Result<seq<byte>>)
    | ResultArrives
    | Shutdown(patience: nat)

  class Worker {
    var sessionId: Option<nat>
    var history: Option<seq<byte>>
    var historyCancel: Option<nat>  // the task whose flag the worker shares
    var historyGeneration: nat
    var channel: seq<Message>
    var tasks: seq<Task>

    ghost var origins: seq<Origin>
    ghost var bumps: nat            // the generation number without wrapping
    ghost var observations: nat     // session changes and connection failures seen
    ghost var accepted: seq<Acceptance>
    ghost var historySeen: nat      // `observations` when the task of the shown history was started

    ghost predicate Valid()
      reads this
    {
      && historyGeneration == bumps % GENERATIONS
      && TasksFit(tasks, origins, bumps, observations) && ChannelFits(channel, tasks)
      && (bumps < GENERATIONS ==>
        && HandleFits(historyCancel, tasks, origins, bumps) && AcceptedFits(accepted)
        && (history.Some? && sessionId.Some? ==> historySeen == observations))
      && (historyCancel.Some? ==> historyCancel.value < |tasks|)
    }

    constructor ()
      ensures Valid() && bumps == 0 && tasks == [] && channel == [] && accepted == []
    {
      sessionId, history, historyCancel, historyGeneration, channel, tasks := None, None, None, 0, [], [];
      origins, bumps, observations, accepted, historySeen := [], 0, 0, [], 0;
    }

    /**
     A cancel handle exists exactly while one outstanding task carries the current generation, and that
     is its task.
     */
    lemma HandleIff(i: nat)
      requires Valid() && bumps < GENERATIONS && i < |tasks|
      ensures historyCancel == Some(i) <==> tasks[i].Outstanding() && tasks[i].generation == historyGeneration
    {
      assert origins[i].started <= bumps < GENERATIONS;
    }

    method StartHistory()
      requires Valid()
      modifies this
      ensures Valid()
      ensures old(historyCancel).Some? ==> unchanged(this)
      ensures old(historyCancel).None? ==>
        && bumps == old(bumps) + 1 && origins == old(origins) + [Origin(bumps, observations)]
        && tasks == old(tasks) + [Task(historyGeneration, false, Running)]
        && historyCancel == Some(|old(tasks)|) && unchanged(`sessionId, `history, `channel, `observations, `accepted)
    {
      hide TasksFit, HandleFits;
      if historyCancel.Some? {
        return;
      }
      TaskStarted(tasks, origins, bumps, observations);
      historyCancel := Some(|tasks|);
      historyGeneration := (historyGeneration + 1) % GENERATIONS;
      bumps := bumps + 1;
      origins := origins + [Origin(bumps, observations)];
      tasks := tasks + [Task(historyGeneration, false, Running)];
    }

    /** No result of a task started so far will be accepted, and a task still running is told to stop. */
    method InvalidateHistoryTask()
      requires historyGeneration == bumps % GENERATIONS
      requires historyCancel.Some? ==> historyCancel.value < |tasks|
      modifies this`historyGeneration, this`historyCancel, this`tasks, this`bumps
      ensures historyGeneration == bumps % GENERATIONS && bumps == old(bumps) + 1 && historyCancel.None?
      ensures
        var held := old(historyCancel);
        tasks == if held.None? then old(tasks)
                 else old(tasks)[held.value := old(tasks)[held.value].(cancelled := true)]
    {
      historyGeneration := (historyGeneration + 1) % GENERATIONS;
      bumps := bumps + 1;
      if historyCancel.Some? {
        tasks := tasks[historyCancel.value := tasks[historyCancel.value].(cancelled := true)];
        historyCancel := None;
      }
    }

    method ConnectionFailed()
      requires Valid()
      modifies this
      ensures Valid() && observations == old(observations) + 1 && historyCancel.None? && sessionId.None?
      ensures unchanged(`history, `channel, `accepted)
    {
      observations := observations + 1;
      InvalidateHistoryTask();
      sessionId := None;
    }

    method SessionChanged(session: nat)
      requires Valid()
      modifies this
      ensures Valid() && observations == old(observations) + 1 && historyCancel.None? && history.None?
      ensures sessionId == Some(session) && unchanged(`channel, `accepted)
    {
      sessionId := Some(session);
      history := None;
      observations := observations + 1;
      InvalidateHistoryTask();
    }

    /** One poll of the daemon's status. */
    method Poll(outcome: RefreshOutcome)
      requires Valid()
      modifies this
      ensures Valid() && unchanged(`channel, `accepted)
      ensures outcome.NotYet? ==> unchanged(this)
      ensures outcome.Status? && !outcome.laterFailure && old(sessionId) == Some(outcome.session) ==> unchanged(this)
      ensures outcome.Failed? ==> observations > old(observations) && historyCancel.None?
      ensures outcome.Status? && (outcome.laterFailure || old(sessionId) != Some(outcome.session)) ==>
        observations > old(observations) && historyCancel.None?
    {
      match outcome
      case NotYet =>
      case Failed => ConnectionFailed();
      case Status(session, laterFailure) =>
        if sessionId != Some(session) {
          SessionChanged(session);
        }
        if laterFailure {
          ConnectionFailed();
        }
    }

    /** Asks the task to stop; its result is still awaited. */
    method Cancel()
      requires Valid()
      modifies this`tasks
      ensures Valid()
      ensures historyCancel.Some? ==>
        tasks == old(tasks)[historyCancel.value := old(tasks)[historyCancel.value].(cancelled := true)]
      ensures historyCancel.None? ==> tasks == old(tasks)
    {
      if historyCancel.Some? {
        tasks := tasks[historyCancel.value := tasks[historyCancel.value].(cancelled := true)];
      }
    }

    /** A task puts its result into the channel. */
    method TaskSends(i: nat, result: Result<seq<byte>>)
      requires Valid()
      modifies this`tasks, this`channel
      ensures Valid()
      ensures i < |tasks| && old(tasks)[i].status == Running ==>
        && channel == old(channel) + [Message(i, old(tasks)[i].generation, result)]
        && tasks == old(tasks)[i := old(tasks)[i].(status := Sent)]
      ensures |tasks| == |old(tasks)|
    {
      if i < |tasks| && tasks[i].status == Running {
        channel := channel + [Message(i, tasks[i].generation, result)];
        tasks := tasks[i := tasks[i].(status := Sent)];
      }
    }

    method FinishHistory(result: Result<seq<byte>>, ghost origin: Origin)
      modifies this`historyCancel, this`history, this`accepted, this`historySeen
      ensures historyCancel.None? && history == if result.Ok? then Some(result.value) else old(history)
      ensures accepted == old(accepted) + [Acceptance(origin.seen, observations)]
      ensures historySeen == if result.Ok? then origin.seen else old(historySeen)
    {
      historyCancel := None;
      accepted := accepted + [Acceptance(origin.seen, observations)];
      if result.Ok? {
        history := Some(result.value);
        historySeen := origin.seen;
      }
    }

    /** Takes the next result from the channel; only the current generation's is accepted. */
    method ReceiveResult()
      requires Valid()
      modifies this
      ensures Valid()
      ensures old(channel) == [] ==> unchanged(this)
      ensures old(channel) != [] ==>
        var message := old(channel)[0];
        && channel == old(channel)[1..]
        && tasks == old(tasks)[message.task := old(tasks)[message.task].(status := Received)]
        && (message.generation != historyGeneration ==> unchanged(`history, `historyCancel, `accepted))
        && (message.generation == historyGeneration ==>
          && historyCancel.None? && (message.result.Ok? ==> history == Some(message.result.value))
          && accepted == old(accepted) + [Acceptance(origins[message.task].seen, observations)]
          && (bumps < GENERATIONS ==>
            old(historyCancel) == Some(message.task) && origins[message.task].seen == observations))
      ensures unchanged(`bumps, `observations, `sessionId)
    {
      if channel == [] {
        return;
      }
      hide TasksFit, ChannelFits, HandleFits;
      TakenFromChannel(channel, tasks, origins, bumps, observations, historyCancel);
      var message := channel[0];
      channel := channel[1..];
      ghost var origin := origins[message.task];
      tasks := tasks[message.task := tasks[message.task].(status := Received)];
      if message.generation == historyGeneration {
        FinishHistory(message.result, origin);
      }
    }

    /**
     The last step: a task still wanted is told to stop, and its result awaited, but not for ever;
     nothing is accepted.
     */
    method Stop(patience: nat)
      requires Valid()
      modifies this`tasks, this`channel
      ensures historyCancel.None? ==> unchanged(this)
      ensures historyCancel.Some? ==> historyCancel.value < |tasks| && tasks[historyCancel.value].cancelled
      ensures |tasks| == |old(tasks)| && |channel| <= |old(channel)|
      ensures historyCancel.Some? ==> Awaited(old(channel), channel, historyGeneration, tasks, patience)
    {
      hide TasksFit, ChannelFits, HandleFits, Awaited, Skipped;
      if historyCancel.None? {
        return;
      }
      Cancel();
      ghost var all := channel;
      var n := 0;
      SkippedNone(all, historyGeneration, tasks);
      while n < patience && channel != []
        invariant |tasks| == |old(tasks)| && historyCancel.value < |tasks| && tasks[historyCancel.value].cancelled
        invariant n <= patience && n <= |all| && channel == all[n..] && ChannelFits(channel, tasks)
        invariant Skipped(all, n, historyGeneration, tasks)
      {
        ReceivedNext(all, n, historyGeneration, tasks, patience);
        var message := channel[0];
        channel := channel[1..];
        tasks := tasks[message.task := tasks[message.task].(status := Received)];
        if message.generation == historyGeneration {
          return;
        }
        n := n + 1;
      }
      EndOfPatience(all, n, historyGeneration, tasks, patience);
    }

    /** Any run of the worker's loop beside its tasks. */
    method Run(inputs: seq<Input>)
      requires Valid()
      modifies this
      ensures bumps < GENERATIONS ==> AcceptedFits(accepted)
      ensures old(accepted) <= accepted
      ensures (exists i :: 0 <= i < |inputs| && inputs[i].Shutdown?) && historyCancel.Some? ==>
        historyCancel.value < |tasks| && tasks[historyCancel.value].cancelled
    {
      for i := 0 to |inputs|
        invariant Valid() && old(accepted) <= accepted
        invariant forall j :: 0 <= j < i ==> !inputs[j].Shutdown?
      {
        match inputs[i]
        case LoadHistory => StartHistory();
        case CancelHistory => Cancel();
        case Refresh(outcome) => Poll(outcome);
        case OperationDisconnects => ConnectionFailed();
        case TaskFinishes(task, result) => TaskSends(task, result);
        case ResultArrives => ReceiveResult();
        case Shutdown(patience) =>
          Stop(patience);
          return;
      }
    }
  }
}
