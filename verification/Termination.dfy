/** Why a batch never stalls nor finds the index corrupt, what it reports, and how many batches a
    run takes (`executor.rs`, `rollback.rs`, and the command line's `batch.rs`). */
module Termination {
  import opened Host
  import opened KeyLog
  import opened Storage
  import opened Executor
  import opened Rollback
  import opened Protocol
  import opened Counting

  /** `batch::is_stall`: nothing visited and nothing finished. */
  predicate IsStall(o: BatchOutcome) {
    o.visited == 0 && !o.done
  }

  // ----- No stall -----

  /** No forward batch stalls, whatever has been registered concurrently: either it visits a
      key or it finishes. */
  lemma ForwardNeverStalls(s: Snapshot, m: Migration, limit: u32)
    requires Sound(s) && BatchStep(s, m, limit).Ok?
    ensures !IsStall(BatchStep(s, m, limit).value.1)
  {
    if s.record.value.status.Running? {
      var keys, w := BatchWalk(s, m, limit);
    }
  }

  lemma RollbackNeverStalls(s: Snapshot, m: Migration, limit: u32)
    requires Sound(s) && m.from < U32_MAX && RollbackBatchStep(s, m, limit).Ok?
    ensures !IsStall(RollbackBatchStep(s, m, limit).value.1)
  {
    if s.record.value.status.RollingBack? {
      RollbackBatchEffect(s, m, limit);
    }
  }

  // ----- What a batch reports -----

  /** The outcome mirrors the record the batch leaves, its counters add up to the keys it moved
      past, and `done` is the batch after which nothing remains and the version has moved. */
  ghost predicate Truthful(before: Snapshot, after: Snapshot, o: BatchOutcome, finished: MigrationStatus, version: u32)
    requires before.record.Some?
  {
    && after.record.Some?
    && (var r := after.record.value;
        && o.from == r.from && o.to == r.to && o.cursor == r.cursor && o.total == r.total
        && o.migrated + o.alreadyCurrent + o.skipped == o.visited == r.cursor - before.record.value.cursor
        && (o.done <==> r.status == finished)
        && (before.record.value.IsActive() ==> (o.done <==> r.cursor == r.total))
        && after.version == if before.record.value.IsActive() && o.done then Some(version) else before.version)
  }

  lemma ForwardOutcomeIsTruthful(s: Snapshot, m: Migration, limit: u32)
    requires Sound(s) && BatchStep(s, m, limit).Ok?
    ensures Truthful(s, BatchStep(s, m, limit).value.0, BatchStep(s, m, limit).value.1, Completed, m.to)
  {
    if s.record.value.status.Running? {
      var keys, w := BatchWalk(s, m, limit);
      CheckpointIsTruthful(s, m, limit, keys, w);
    }
  }

  lemma CheckpointIsTruthful(s: Snapshot, m: Migration, limit: u32, keys: seq<Val>, w: Walk)
    requires Sound(s) && s.record.Some? && s.record.value.status.Running? && Advances(s, m, limit, keys, w)
    ensures Truthful(s, Checkpoint(s, w, |keys|).0, Checkpoint(s, w, |keys|).1, Completed, m.to)
  {}

  lemma RollbackOutcomeIsTruthful(s: Snapshot, m: Migration, limit: u32)
    requires Sound(s) && m.from < U32_MAX && RollbackBatchStep(s, m, limit).Ok?
    ensures Truthful(s, RollbackBatchStep(s, m, limit).value.0, RollbackBatchStep(s, m, limit).value.1, RolledBack,
                     m.from)
  {
    if s.record.value.status.RollingBack? {
      RollbackBatchEffect(s, m, limit);
    }
  }

  // ----- Nothing goes wrong -----

  ghost predicate NeverRefuses(visit: Visitor) {
    forall key, entry :: visit(key, entry).Visited?
  }

  /** A walk fails only by a refusal or by filling the log. */
  lemma {:induction false} WalkSucceeds(visit: Visitor, target: u32, start: Walk, keys: seq<Val>)
    requires SoundLogs(start.logs) && NeverRefuses(visit) && Len(start.logs, target) + |keys| <= U32_MAX
    ensures Walked(visit, target, start, keys).Ok?
  {
    if keys != [] {
      var n := |keys| - 1;
      WalkSucceeds(visit, target, start, keys[..n]);
      WalkSound(visit, target, start, keys[..n]);
      var w := Walked(visit, target, start, keys[..n]).value;
      assert visit(keys[n], Lookup(w.entries, keys[n])).Visited?;
    }
  }

  /** The migration itself can end with this error. */
  ghost predicate Returns(visit: Visitor, e: MigrationError) {
    exists k, entry :: visit(k, entry) == Refused(e)
  }

  lemma {:induction false} WalkError(visit: Visitor, target: u32, start: Walk, keys: seq<Val>, e: MigrationError)
    requires Walked(visit, target, start, keys) == Err(e) && e != Trap
    ensures Returns(visit, e)
  {
    if keys != [] && Walked(visit, target, start, keys[..|keys| - 1]).Err? {
      WalkError(visit, target, start, keys[..|keys| - 1], e);
    }
  }

  /** Every log can always be read: in a reachable storage, resets included, a range is a slice of
      the visible keys and every position below the length holds one. */
  lemma ReachableReadsSucceed(actions: seq<Action>, version: u32, start: u32, limit: u32, i: u32)
    ensures var g := Run(EMPTY, actions).logs;
            && Covered(g, version)
            && Range(g, version, start, limit) == Ok(Window(Visible(g, version), start, limit))
            && (i < Len(g, version) ==> Slot(g, version, i) == Some(Visible(g, version)[i]))
  {
    ReachableIsSound(actions);
    RangeReadsVisible(Run(EMPTY, actions).logs, version, start, limit);
  }

  /** The index is never found corrupt: in a reachable storage a batch, forward or reverse,
      fails with `CorruptIndex` only if the migration itself returned it. */
  lemma CorruptIndexUnreachable(actions: seq<Action>, m: Migration, limit: u32)
    ensures var s := Run(EMPTY, actions);
            && (BatchStep(s, m, limit) == Err(CorruptIndex) ==> Returns(m.up, CorruptIndex))
            && (RollbackBatchStep(s, m, limit) == Err(CorruptIndex) ==> Returns(m.down, CorruptIndex))
  {
    ReachableIsSound(actions);
    var s := Run(EMPTY, actions);
    if BatchStep(s, m, limit) == Err(CorruptIndex) {
      CorruptBatch(s, m, limit);
    }
    if RollbackBatchStep(s, m, limit) == Err(CorruptIndex) {
      CorruptRollbackBatch(s, m, limit);
    }
  }

  lemma CorruptBatch(s: Snapshot, m: Migration, limit: u32)
    requires Sound(s) && BatchStep(s, m, limit) == Err(CorruptIndex)
    ensures Returns(m.up, CorruptIndex)
  {
    var r := s.record.value;
    assert Covered(s.logs, m.from);
    var keys := Window(Visible(s.logs, m.from), r.cursor, limit);
    RangeReadsVisible(s.logs, m.from, r.cursor, limit);
    WindowIs(Visible(s.logs, m.from), Min(r.cursor, Len(s.logs, m.from)), limit);
    WindowVisited(s, m, limit, keys);
    WalkError(m.up, m.to, StartOf(s), keys, CorruptIndex);
  }

  lemma CorruptRollbackBatch(s: Snapshot, m: Migration, limit: u32)
    requires Sound(s) && RollbackBatchStep(s, m, limit) == Err(CorruptIndex)
    ensures Returns(m.down, CorruptIndex)
  {
    CorruptIsFromWindow(s, m, limit);
    CorruptWindow(s, s.record.value, m, limit);
  }

  lemma CorruptIsFromWindow(s: Snapshot, m: Migration, limit: u32)
    requires Sound(s) && RollbackBatchStep(s, m, limit) == Err(CorruptIndex)
    ensures s.record.Some? && s.record.value.cursor <= s.record.value.total
    ensures ReverseWindowStep(s, s.record.value, m, limit) == Err(CorruptIndex)
  {}

  lemma CorruptWindow(s: Snapshot, r: MigrationState, m: Migration, limit: u32)
    requires SoundLogs(s.logs) && r.cursor <= r.total && ReverseWindowStep(s, r, m, limit) == Err(CorruptIndex)
    ensures Returns(m.down, CorruptIndex)
  {
    var end := ReverseEnd(r, limit);
    assert Covered(s.logs, m.to);
    var keys := Window(Visible(s.logs, m.to), r.total - end, end - r.cursor);
    RangeReadsVisible(s.logs, m.to, r.total - end, end - r.cursor);
    WindowReverted(s, r, m, limit, keys);
    WalkError(m.down, m.from, StartOf(s), Reversed(keys), CorruptIndex);
  }

  // ----- Exact length of a run -----

  /** A forward run of `m` with `n` keys to go and room to log them. */
  ghost predicate Pending(s: Snapshot, m: Migration, n: int) {
    && n >= 0 && Sound(s) && m.from < U32_MAX && m.to == m.from + 1 && s.record.Some?
    && s.record.value.status.Running? && s.record.value.from == m.from && s.record.value.to == m.to
    && s.record.value.cursor + n == Len(s.logs, m.from)
    && Len(s.logs, m.to) + n <= U32_MAX
  }

  /** A rollback of `m` with `n` keys to go and room to log them. */
  ghost predicate PendingBack(s: Snapshot, m: Migration, n: int) {
    && n >= 0 && Sound(s) && m.from < U32_MAX && m.to == m.from + 1 && s.record.Some?
    && s.record.value.status.RollingBack? && s.record.value.from == m.from && s.record.value.to == m.to
    && s.record.value.cursor + n == s.record.value.total == Len(s.logs, m.to)
    && Len(s.logs, m.from) + n <= U32_MAX
  }

  lemma PendingBatchSucceeds(s: Snapshot, m: Migration, limit: u32, n: nat)
    requires Pending(s, m, n) && NeverRefuses(m.up) && 0 < limit <= MAX_KEYS_PER_BATCH
    ensures BatchStep(s, m, limit).Ok?
  {
    var r := s.record.value;
    assert Covered(s.logs, m.from);
    RangeReadsVisible(s.logs, m.from, r.cursor, limit);
    var keys := Window(Visible(s.logs, m.from), r.cursor, limit);
    WindowIs(Visible(s.logs, m.from), r.cursor, limit);
    WindowVisited(s, m, limit, keys);
    WalkSucceeds(m.up, m.to, StartOf(s), keys);
  }

  lemma PendingBatch(s: Snapshot, m: Migration, limit: u32, n: nat)
    requires Pending(s, m, n) && NeverRefuses(m.up) && 0 < limit <= MAX_KEYS_PER_BATCH
    ensures BatchStep(s, m, limit).Ok?
    ensures var (after, outcome) := BatchStep(s, m, limit).value;
            && outcome.done == (n <= limit) && outcome.visited == Min(n, limit)
            && (outcome.done ==> after.version == Some(m.to))
            && (!outcome.done ==> Pending(after, m, n - limit))
  {
    PendingBatchSucceeds(s, m, limit, n);
    var keys, w := BatchWalk(s, m, limit);
    BatchKeepsSound(s, m, limit);
  }

  lemma PendingBackBatch(s: Snapshot, m: Migration, limit: u32, n: nat)
    requires PendingBack(s, m, n) && NeverRefuses(m.down) && 0 < limit <= MAX_KEYS_PER_BATCH
    ensures RollbackBatchStep(s, m, limit).Ok?
    ensures var (after, outcome) := RollbackBatchStep(s, m, limit).value;
            && outcome.done == (n <= limit) && outcome.visited == Min(n, limit)
            && (outcome.done ==> after.version == Some(m.from))
            && (!outcome.done ==> PendingBack(after, m, n - limit))
  {
    WalkSucceeds(m.down, m.from, StartOf(s), Reversed(ReverseWindow(s, m, limit)));
    ReverseWindowStepEffect(s, m, limit);
    ReverseWalkSound(s, m, limit);
    RollbackBatchKeepsSound(s, m, limit);
  }

  lemma ForwardCounts(m: Migration, limit: u32)
    requires m.from < U32_MAX && NeverRefuses(m.up) && 0 < limit <= MAX_KEYS_PER_BATCH
    ensures Counts(Batches(m, limit), (s, n) => Pending(s, m, n), limit, m.to)
  {
    var pending := (s, n) => Pending(s, m, n);
    forall s, n ensures CountsAt(Batches(m, limit), pending, limit, m.to, s, n) {
      if Pending(s, m, n) { PendingBatch(s, m, limit, n); }
    }
  }

  lemma BackwardCounts(m: Migration, limit: u32)
    requires m.from < U32_MAX && NeverRefuses(m.down) && 0 < limit <= MAX_KEYS_PER_BATCH
    ensures Counts(RollbackBatches(m, limit), (s, n) => PendingBack(s, m, n), limit, m.from)
  {
    var pending := (s, n) => PendingBack(s, m, n);
    forall s, n ensures CountsAt(RollbackBatches(m, limit), pending, limit, m.from, s, n) {
      if PendingBack(s, m, n) { PendingBackBatch(s, m, limit, n); }
    }
  }

  lemma PendingRunsExactly(s: Snapshot, m: Migration, limit: u32, n: nat, count: nat)
    requires Pending(s, m, n) && NeverRefuses(m.up) && 0 < limit <= MAX_KEYS_PER_BATCH
    ensures ExactRun(Repeated(Batches(m, limit), s, count), count, TransactionsNeeded(n, limit), m.to)
  {
    RoundsIsCeiling(n, limit);
    ForwardCounts(m, limit);
    CountedRun(Batches(m, limit), (s, n) => Pending(s, m, n), limit, m.to, s, n, count);
  }

  lemma PendingBackRunsExactly(s: Snapshot, m: Migration, limit: u32, n: nat, count: nat)
    requires PendingBack(s, m, n) && NeverRefuses(m.down) && 0 < limit <= MAX_KEYS_PER_BATCH
    ensures ExactRun(Repeated(RollbackBatches(m, limit), s, count), count, TransactionsNeeded(n, limit), m.from)
  {
    RoundsIsCeiling(n, limit);
    BackwardCounts(m, limit);
    CountedRun(RollbackBatches(m, limit), (s, n) => PendingBack(s, m, n), limit, m.from, s, n, count);
  }

  lemma BegunIsPending(s: Snapshot, m: Migration, begun: Snapshot, r: MigrationState)
    requires Sound(s) && m.from < U32_MAX && BeginStep(s, m) == Ok((begun, r))
    requires Len(s.logs, m.from) - r.cursor + Len(s.logs, m.to) <= U32_MAX
    ensures r.cursor <= Len(s.logs, m.from) && Pending(begun, m, Len(s.logs, m.from) - r.cursor)
  {
    StepKeepsSound(s, DoBegin(m));
  }

  lemma BegunRunsExactly(s: Snapshot, m: Migration, limit: u32, maxBatches: u32, begun: Snapshot, r: MigrationState,
                         n: nat)
    requires BeginStep(s, m) == Ok((begun, r)) && Pending(begun, m, n)
    requires NeverRefuses(m.up) && 0 < limit <= MAX_KEYS_PER_BATCH
    ensures ExactRun(RunStep(s, m, limit, maxBatches), maxBatches, TransactionsNeeded(n, limit), m.to)
  {
    PendingRunsExactly(begun, m, limit, n, maxBatches);
  }

  lemma BegunRollbackRunsExactly(s: Snapshot, m: Migration, limit: u32, maxBatches: u32, begun: Snapshot,
                                 r: MigrationState, n: nat)
    requires RollbackBeginStep(s, m) == Ok((begun, r)) && PendingBack(begun, m, n)
    requires NeverRefuses(m.down) && 0 < limit <= MAX_KEYS_PER_BATCH
    ensures ExactRun(RollbackRunStep(s, m, limit, maxBatches), maxBatches, TransactionsNeeded(n, limit), m.from)
  {
    PendingBackRunsExactly(begun, m, limit, n, maxBatches);
  }

  /** `run_to_completion`, begun afresh or resumed at record `r`: it sends exactly the number of
      batches the command line predicts, and completes if and only if it was allowed that many. */
  lemma RunCompletesExactly(s: Snapshot, m: Migration, limit: u32, maxBatches: u32, begun: Snapshot, r: MigrationState)
    requires Sound(s) && m.from < U32_MAX && BeginStep(s, m) == Ok((begun, r))
    requires NeverRefuses(m.up) && 0 < limit <= MAX_KEYS_PER_BATCH
    requires Len(s.logs, m.from) - r.cursor + Len(s.logs, m.to) <= U32_MAX
    ensures r.cursor <= Len(s.logs, m.from)
    ensures ExactRun(RunStep(s, m, limit, maxBatches), maxBatches,
                     TransactionsNeeded(Len(s.logs, m.from) - r.cursor, limit), m.to)
  {
    BegunIsPending(s, m, begun, r);
    BegunRunsExactly(s, m, limit, maxBatches, begun, r, Len(s.logs, m.from) - r.cursor);
  }

  lemma BegunIsPendingBack(s: Snapshot, m: Migration, begun: Snapshot, r: MigrationState)
    requires Sound(s) && m.from < U32_MAX && RollbackBeginStep(s, m) == Ok((begun, r))
    requires Len(begun.logs, m.to) == r.total && Len(begun.logs, m.from) + r.total - r.cursor <= U32_MAX
    ensures r.cursor <= r.total && PendingBack(begun, m, r.total - r.cursor)
  {
    StepKeepsSound(s, DoRollbackBegin(m));
  }

  /** `rollback::run_to_completion`, begun afresh or resumed at record `r`: over the `to` log as
      pinned, it sends exactly the predicted number of batches for the positions not yet reverted,
      and completes if and only if it was allowed that many. */
  lemma RollbackCompletesExactly(s: Snapshot, m: Migration, limit: u32, maxBatches: u32,
                                 begun: Snapshot, r: MigrationState)
    requires Sound(s) && m.from < U32_MAX && RollbackBeginStep(s, m) == Ok((begun, r))
    requires NeverRefuses(m.down) && 0 < limit <= MAX_KEYS_PER_BATCH
    requires Len(begun.logs, m.to) == r.total && Len(begun.logs, m.from) + r.total - r.cursor <= U32_MAX
    ensures r.cursor <= r.total
    ensures var needed := TransactionsNeeded(r.total - r.cursor, limit);
            ExactRun(RollbackRunStep(s, m, limit, maxBatches), maxBatches, needed, m.from)
  {
    assert r.cursor <= r.total && PendingBack(begun, m, r.total - r.cursor) by {
      BegunIsPendingBack(s, m, begun, r);
    }
    BegunRollbackRunsExactly(s, m, limit, maxBatches, begun, r, r.total - r.cursor);
  }

  /** A rollback begun afresh always meets those conditions. */
  lemma FreshRollbackIsPinned(s: Snapshot, m: Migration)
    requires m.from < U32_MAX && s.record.Some? && s.record.value.status.Completed? && RollbackBeginStep(s, m).Ok?
    ensures var (begun, r) := RollbackBeginStep(s, m).value;
            && r.cursor == 0 && Len(begun.logs, m.from) == 0 && Len(begun.logs, m.to) == Len(s.logs, m.to) == r.total
  {}

  /** At the last version `FROM == TO`: each batch appends to the log it is walking. */
  ghost predicate Saturated(s: Snapshot, distance: nat) {
    && Sound(s) && s.record.Some? && s.record.value.status.Running?
    && s.record.value.from == s.record.value.to == U32_MAX
    && Len(s.logs, U32_MAX) - s.record.value.cursor == distance
  }

  lemma SaturatedCheckpoint(s: Snapshot, m: Migration, limit: nat, keys: seq<Val>, w: Walk, distance: nat)
    requires Saturated(s, distance) && distance > 0 && m.from == m.to == U32_MAX
    requires Advances(s, m, limit, keys, w) && Sound(Checkpoint(s, w, |keys|).0)
    ensures Saturated(Checkpoint(s, w, |keys|).0, distance)
  {}

  lemma SaturatedBatch(s: Snapshot, m: Migration, limit: u32, distance: nat)
    requires Saturated(s, distance) && distance > 0 && m.from == m.to == U32_MAX && BatchStep(s, m, limit).Ok?
    ensures Saturated(BatchStep(s, m, limit).value.0, distance)
  {
    BatchKeepsSound(s, m, limit);
    var keys, w := BatchWalk(s, m, limit);
    SaturatedCheckpoint(s, m, limit, keys, w, distance);
  }

  lemma SaturatedStep(s: Snapshot, m: Migration, limit: u32, distance: nat)
    requires Saturated(s, distance) && distance > 0 && m.from == m.to == U32_MAX
    ensures Saturated(Apply(s, DoBatch(m, limit)), distance)
  {
    if BatchStep(s, m, limit).Ok? {
      SaturatedBatch(s, m, limit, distance);
    }
  }

  /** Such a storage is reached by `initialize`, one `put` and `begin`. */
  lemma SaturatedIsReachable(m: Migration, key: Val, value: Val) returns (s: Snapshot)
    requires m.from == m.to == U32_MAX
    ensures Reachable(s) && Saturated(s, 1) && Lookup(s.entries, key) == Some(value)
  {
    assert Run(EMPTY, []) == EMPTY;
    ReachableStep(EMPTY, DoInitialize(U32_MAX));
    s := Apply(EMPTY, DoInitialize(U32_MAX));
    ReachableStep(s, DoPut(key, value));
    s := Apply(s, DoPut(key, value));
    assert Len(s.logs, U32_MAX) == 1;
    ReachableStep(s, DoBegin(m));
    s := Apply(s, DoBegin(m));
    var actions :| Run(EMPTY, actions) == s;
    ReachableIsSound(actions);
  }

  /** So a run over a non-empty log never gets closer to its end, under any limits. */
  lemma {:induction false} SaturatedRunNeverCompletes(s: Snapshot, m: Migration, actions: seq<Action>, distance: nat)
    requires Saturated(s, distance) && distance > 0 && m.from == m.to == U32_MAX
    requires forall a :: a in actions ==> a.DoBatch? && a.m == m
    ensures Saturated(Run(s, actions), distance)
  {
    if actions == [] {
    } else {
      var n := |actions| - 1;
      SaturatedRunNeverCompletes(s, m, actions[..n], distance);
      SaturatedStep(Run(s, actions[..n]), m, actions[n].limit, distance);
    }
  }
}
