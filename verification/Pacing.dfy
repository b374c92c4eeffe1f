/** When the daemon may reopen a failing port, and when it may touch non-volatile memory again. */
module Pacing {
  import opened Domain
  import opened Config

  // ---- Reopening a port -----------------------------------------------------------------------------

  const FIRST_RETRY_DELAY: nat := 250
  const LONGEST_RETRY_DELAY: nat := 30_000

  /** `1 << shift` for the shifts that occur. */
  function Shifted(shift: nat): nat
    requires shift <= 7
  {
    match shift
    case 0 => 1
    case 1 => 2
    case 2 => 4
    case 3 => 8
    case 4 => 16
    case 5 => 32
    case 6 => 64
    case _ => 128
  }

  /** The pause after the `attempt`th consecutive failure: doubling from 250 ms, at most 30 s. */
  function RetryDelay(attempt: nat): nat {
    var shift := Min(if attempt == 0 then 0 else attempt - 1, 7);
    Min(FIRST_RETRY_DELAY * Shifted(shift), LONGEST_RETRY_DELAY)
  }

  /** A shift by one more place doubles, and the pauses are these. */
  lemma RetryDelays(attempt: nat, shift: nat)
    requires shift < 7
    ensures Shifted(0) == 1 && Shifted(shift + 1) == 2 * Shifted(shift)
    ensures attempt > 0 ==>
      RetryDelay(attempt) == [250, 500, 1000, 2000, 4000, 8000, 16_000, 30_000][Min(attempt, 8) - 1]
  {
  }

  lemma DelaysNeverShrink(k: nat, j: nat)
    requires k <= j
    ensures RetryDelay(k) <= RetryDelay(j) <= 30_000
  {
  }

  datatype AttemptOutcome = Succeeded | Retryable | Refused

  /** One attempt to open a port; `epoch` counts how often the host's candidate list had changed. */
  datatype Attempt = Attempt(port: string, epoch: nat, startedAt: Instant, endedAt: Instant, outcome: AttemptOutcome)

  /** How many attempts at the end of the log failed in a row under one candidate list. */
  function Streak(attempts: seq<Attempt>): (n: nat)
    ensures n <= |attempts|
  {
    var n := |attempts|;
    if n == 0 || !attempts[n - 1].outcome.Retryable? then 0
    else if n > 1 && attempts[n - 2].epoch == attempts[n - 1].epoch then 1 + Streak(attempts[..n - 1])
    else 1
  }

  /** `next` may follow the attempts so far. */
  predicate MayFollow(attempts: seq<Attempt>, next: Attempt) {
    |attempts| > 0 ==>
      var last := attempts[|attempts| - 1];
      && last.epoch <= next.epoch
      && (last.epoch == next.epoch ==>
        && next.port == last.port
        && !last.outcome.Refused?
        && (last.outcome.Retryable? ==> next.startedAt >= last.endedAt + RetryDelay(Streak(attempts))))
  }

  predicate Paced(attempts: seq<Attempt>) {
    forall i :: 0 <= i < |attempts| ==> MayFollow(attempts[..i], attempts[i])
  }

  lemma PacedAppended(attempts: seq<Attempt>, next: Attempt)
    requires Paced(attempts) && MayFollow(attempts, next)
    ensures Paced(attempts + [next])
  {
    var longer := attempts + [next];
    forall i | 0 <= i < |longer| ensures MayFollow(longer[..i], longer[i]) {
      assert longer[..i] == if i < |attempts| then attempts[..i] else attempts;
    }
  }

  lemma {:induction false} EpochsAscend(attempts: seq<Attempt>, i: nat, j: nat)
    requires Paced(attempts) && i <= j < |attempts|
    ensures attempts[i].epoch <= attempts[j].epoch
    decreases j
  {
    if i < j {
      EpochsAscend(attempts, i, j - 1);
      assert MayFollow(attempts[..j], attempts[j]);
    }
  }

  /** `k` failures in a row under one candidate list, from attempt `i` on, make a streak of at least `k`. */
  lemma {:induction false} StreakOfFailures(attempts: seq<Attempt>, i: nat, k: nat)
    requires 0 < k && i + k <= |attempts|
    requires forall m :: i <= m < i + k ==> attempts[m].outcome.Retryable? && attempts[m].epoch == attempts[i].epoch
    ensures Streak(attempts[..i + k]) >= k
  {
    var prefix := attempts[..i + k];
    if k > 1 {
      StreakOfFailures(attempts, i, k - 1);
      assert prefix[..|prefix| - 1] == attempts[..i + k - 1];
      assert prefix[|prefix| - 1] == attempts[i + k - 1] && prefix[|prefix| - 2] == attempts[i + k - 2];
    }
  }

  /**
   While the candidate list stays the same, after `k` retryable failures in a row the next attempt
   starts at least the doubled, capped delay after the last failure.
   */
  lemma NextAttemptWaits(attempts: seq<Attempt>, i: nat, k: nat)
    requires Paced(attempts) && 0 < k && i + k < |attempts|
    requires forall m :: i <= m < i + k ==> attempts[m].outcome.Retryable?
    requires attempts[i + k].epoch == attempts[i].epoch
    ensures attempts[i + k].port == attempts[i + k - 1].port
    ensures attempts[i + k].startedAt
         >= attempts[i + k - 1].endedAt + [250, 500, 1000, 2000, 4000, 8000, 16_000, 30_000][Min(k, 8) - 1]
  {
    hide RetryDelay, Shifted, Streak;
    forall m | i <= m < i + k ensures attempts[m].epoch == attempts[i].epoch {
      EpochsAscend(attempts, i, m);
      EpochsAscend(attempts, m, i + k);
    }
    StreakOfFailures(attempts, i, k);
    assert MayFollow(attempts[..i + k], attempts[i + k]);
    DelaysNeverShrink(k, Streak(attempts[..i + k]));
    RetryDelays(k, 0);
  }

  /** After an unsupported result the port is not opened again until the candidate list changes. */
  lemma {:induction false} RefusedIsNotReopened(attempts: seq<Attempt>, i: nat, j: nat)
    requires Paced(attempts) && i < j < |attempts| && attempts[i].outcome.Refused?
    ensures attempts[j].epoch > attempts[i].epoch
  {
    assert MayFollow(attempts[..i + 1], attempts[i + 1]);
    EpochsAscend(attempts, i + 1, j);
  }

  // ---- Non-volatile memory --------------------------------------------------------------------------

  const MIN_NVM_MUTATION_INTERVAL: nat := 1000

  /** A recorded moment at which non-volatile memory may be changed, and how: for a client, or by a rollback. */
  datatype NvmSlot = NvmSlot(at: Instant, operation: NvmOperation, client: bool)

  /** One more slot was taken. */
  predicate TookSlot(before: seq<NvmSlot>, operation: NvmOperation, client: bool, after: seq<NvmSlot>) {
    && |after| == |before| + 1 && after[..|before|] == before
    && after[|before|].operation == operation && after[|before|].client == client
  }

  /** A persistent change takes a slot for the client's store, one for the rollback's, both in this order, or none. */
  predicate TookStores(before: seq<NvmSlot>, persist: bool, after: seq<NvmSlot>) {
    || after == before
    || (persist && TookSlot(before, Store, true, after))
    || (persist && TookSlot(before, Store, false, after))
    || (persist && |after| == |before| + 2
        && TookSlot(before, Store, true, after[..|before| + 1]) && TookSlot(after[..|before| + 1], Store, false, after))
  }

  predicate NvmMayFollow(slots: seq<NvmSlot>, next: NvmSlot) {
    |slots| > 0 ==>
      && slots[|slots| - 1].at <= next.at
      && (next.client ==> next.at >= slots[|slots| - 1].at + MIN_NVM_MUTATION_INTERVAL)
  }

  predicate NvmPaced(slots: seq<NvmSlot>) {
    forall i :: 0 <= i < |slots| ==> NvmMayFollow(slots[..i], slots[i])
  }

  lemma NvmAppended(slots: seq<NvmSlot>, next: NvmSlot)
    requires NvmPaced(slots) && NvmMayFollow(slots, next)
    ensures NvmPaced(slots + [next])
  {
    var longer := slots + [next];
    forall i | 0 <= i < |longer| ensures NvmMayFollow(longer[..i], longer[i]) {
      assert longer[..i] == if i < |slots| then slots[..i] else slots;
    }
  }

  lemma {:induction false} NvmSlotsAscend(slots: seq<NvmSlot>, i: nat, j: nat)
    requires NvmPaced(slots) && i <= j < |slots|
    ensures slots[i].at <= slots[j].at
    decreases j
  {
    if i < j {
      NvmSlotsAscend(slots, i, j - 1);
      assert NvmMayFollow(slots[..j], slots[j]);
    }
  }

  /** A client's slot comes at least a second after every earlier slot, its own kind or a rollback's. */
  lemma ClientSlotsAreSpaced(slots: seq<NvmSlot>, i: nat, j: nat)
    requires NvmPaced(slots) && i < j < |slots| && slots[j].client
    ensures slots[j].at >= slots[i].at + 1000
  {
    NvmSlotsAscend(slots, i, j - 1);
    assert NvmMayFollow(slots[..j], slots[j]);
  }
}
