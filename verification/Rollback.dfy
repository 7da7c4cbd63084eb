/** Undoing a completed migration (`rollback.rs`): the `to` log is walked from its end and the
    `from` log is rebuilt behind the walk. */
module Rollback {
  import opened Host
  import opened KeyLog
  import opened Storage
  import opened Executor
  import Index
  import Version

  function Reversed<T>(s: seq<T>): (r: seq<T>)
    ensures |r| == |s|
    ensures forall i :: 0 <= i < |s| ==> r[i] == s[|s| - 1 - i]
  {
    seq(|s|, i requires 0 <= i < |s| => s[|s| - 1 - i])
  }

  // ----- What the entry points commit -----

  function RollbackBeginStep(s: Snapshot, m: Migration): Attempt<MigrationState> {
    if m.to != SaturatingAdd(m.from, 1) then Err(NotSequential)
    else if !m.supportsDown then Err(DownNotSupported)
    else if s.record.None? then Err(NoActiveMigration)
    else
      var record := s.record.value;
      if record.from != m.from || record.to != m.to then Err(WrongMigration)
      else if record.status.RollingBack? then Ok((s, record))
      else if !record.status.Completed? then Err(MigrationNotComplete)
      else if Version.Gate(s.version, m.to).Err? then Err(Version.Gate(s.version, m.to).error)
      else
        var rolling := MigrationState(record.from, record.to, 0, Len(s.logs, m.to), RollingBack);
        Ok((s.(record := Some(rolling), logs := Reset(s.logs, m.from)), rolling))
  }

  ghost function RollbackBatchStep(s: Snapshot, m: Migration, limit: u32): Attempt<BatchOutcome> {
    if LimitGuard(limit).Some? then Err(LimitGuard(limit).value)
    else if s.record.None? then Err(NoActiveMigration)
    else
      var record := s.record.value;
      if record.from != m.from || record.to != m.to then Err(WrongMigration)
      else if record.status.RolledBack? then Ok((s, FinishedOutcome(record)))
      else if !record.status.RollingBack? then Err(NoActiveMigration)
      else if Len(s.logs, m.to) > record.total then Err(OrphanedEntries)
      else ReverseWindowStep(s, record, m, limit)
  }

  /** The rollback position a batch of `limit` stops at. */
  function ReverseEnd(record: MigrationState, limit: u32): (end: u32)
    ensures end == Min(record.cursor + limit, record.total)
  {
    Min(SaturatingAdd(record.cursor, limit), record.total)
  }

  /** Rollback positions `[cursor, end)` are the last keys of the `to` log, newest first. */
  ghost function ReverseWindowStep(s: Snapshot, record: MigrationState, m: Migration,
                                   limit: u32): Attempt<BatchOutcome> {
    var end := ReverseEnd(record, limit);
    if end < record.cursor then Err(Trap)
    else ReverseRead(s, record, m, end, Range(s.logs, m.to, record.total - end, end - record.cursor))
  }

  /** What comes of the window: its refusal, or its walk. */
  ghost function ReverseRead(s: Snapshot, record: MigrationState, m: Migration, end: u32,
                             window: Result<seq<Val>>): Attempt<BatchOutcome>
    requires window.Ok? ==> |window.value| <= U32_MAX
  {
    if window.Err? then Err(window.error)
    else ReverseCommit(s, record, end, |window.value|, Walked(m.down, m.from, StartOf(s), Reversed(window.value)))
  }

  /** What comes of the walk: its refusal, or the checkpoint behind it. */
  ghost function ReverseCommit(s: Snapshot, before: MigrationState, end: u32, visited: int,
                               walk: Result<Walk>): Attempt<BatchOutcome>
    requires 0 <= visited <= U32_MAX
    requires walk.Ok? ==>
               walk.value.tally.migrated + walk.value.tally.alreadyCurrent + walk.value.tally.skipped == visited
  {
    if walk.Err? then Err(walk.error) else Ok(ReverseCheckpoint(s, before, walk.value, visited, end))
  }

  ghost function ReverseCheckpoint(s: Snapshot, before: MigrationState, w: Walk, visited: int, end: u32): (Snapshot,
                                   BatchOutcome)
    requires 0 <= visited <= U32_MAX
    requires w.tally.migrated + w.tally.alreadyCurrent + w.tally.skipped == visited
  {
    var done := end >= before.total;
    var record := before.(cursor := end, status := if done then RolledBack else before.status);
    (Snapshot(if done then Some(before.from) else s.version, Some(record), w.logs, w.entries),
     BatchOutcome(before.from, before.to, end, before.total, visited,
                  w.tally.migrated, w.tally.alreadyCurrent, w.tally.skipped, done))
  }

  /** A window that is read is reverted by its walk. */
  lemma WindowReverted(s: Snapshot, r: MigrationState, m: Migration, limit: u32, keys: seq<Val>)
    requires r.cursor <= r.total && |keys| <= U32_MAX
    requires Range(s.logs, m.to, r.total - ReverseEnd(r, limit), ReverseEnd(r, limit) - r.cursor) == Ok(keys)
    ensures ReverseWindowStep(s, r, m, limit)
         == ReverseCommit(s, r, ReverseEnd(r, limit), |keys|, Walked(m.down, m.from, StartOf(s), Reversed(keys)))
  {
    assert ReverseWindowStep(s, r, m, limit) == ReverseRead(s, r, m, ReverseEnd(r, limit), Ok(keys));
  }

  lemma ReversedWalk(s: Snapshot, r: MigrationState, m: Migration, limit: u32, keys: seq<Val>) returns (w: Walk)
    requires ReverseWindowStep(s, r, m, limit).Ok?
    requires r.cursor <= r.total
             && Range(s.logs, m.to, r.total - ReverseEnd(r, limit), ReverseEnd(r, limit) - r.cursor) == Ok(keys)
    ensures Walked(m.down, m.from, StartOf(s), Reversed(keys)) == Ok(w) && |keys| <= U32_MAX
    ensures ReverseWindowStep(s, r, m, limit) == Ok(ReverseCheckpoint(s, r, w, |keys|, ReverseEnd(r, limit)))
  {
    WindowReverted(s, r, m, limit, keys);
    w := Walked(m.down, m.from, StartOf(s), Reversed(keys)).value;
  }

  ghost function RollbackBatches(m: Migration, limit: u32): Snapshot -> Attempt<BatchOutcome> {
    s => RollbackBatchStep(s, m, limit)
  }

  ghost predicate SendsBack(batch: Snapshot -> Attempt<BatchOutcome>, m: Migration, limit: u32) {
    forall s {:trigger RollbackBatchStep(s, m, limit)} :: batch(s) == RollbackBatchStep(s, m, limit)
  }

  ghost function RollbackRunStep(s: Snapshot, m: Migration, limit: u32, maxBatches: u32): Attempt<seq<BatchOutcome>> {
    match RollbackBeginStep(s, m)
    case Err(e) => Err(e)
    case Ok(begun) => Repeated(RollbackBatches(m, limit), begun.0, maxBatches)
  }

  // ----- The entry points -----

  method RollbackBegin(env: Env, m: Migration) returns (r: Result<MigrationState>)
    modifies env
    ensures r == Returned(RollbackBeginStep(old(env.View()), m))
    ensures env.View() == Committed(old(env.View()), RollbackBeginStep(old(env.View()), m))
  {
    if m.to != SaturatingAdd(m.from, 1) {
      return Err(NotSequential);
    }
    if !m.supportsDown {
      return Err(DownNotSupported);
    }
    if env.record.None? {
      return Err(NoActiveMigration);
    }
    var state := env.record.value;
    if state.from != m.from || state.to != m.to {
      return Err(WrongMigration);
    }
    if state.status.RollingBack? {
      return Ok(state);
    }
    if !state.status.Completed? {
      return Err(MigrationNotComplete);
    }
    var gate := Version.Require(env, m.to);
    if gate.Err? {
      return Err(gate.error);
    }
    var total := if m.to in env.info then env.info[m.to].len else 0;
    Index.ResetLog(env, m.from);
    var rolling := MigrationState(state.from, state.to, 0, total, RollingBack);
    env.record := Some(rolling);
    r := Ok(rolling);
  }

  /** One rollback batch as one transaction. */
  method RollbackBatch(env: Env, m: Migration, limit: u32) returns (r: Result<BatchOutcome>)
    modifies env
    ensures r == Returned(RollbackBatchStep(old(env.View()), m, limit))
    ensures env.View() == Committed(old(env.View()), RollbackBatchStep(old(env.View()), m, limit))
  {
    var saved := env.View();
    r := ApplyRollbackBatch(env, m, limit);
    if r.Err? {
      env.Restore(saved);
    }
  }

  method ApplyRollbackBatch(env: Env, m: Migration, limit: u32) returns (r: Result<BatchOutcome>)
    modifies env
    ensures r == Returned(RollbackBatchStep(old(env.View()), m, limit))
    ensures r.Ok? ==> env.View() == Committed(old(env.View()), RollbackBatchStep(old(env.View()), m, limit))
  {
    if limit == 0 {
      return Err(BatchSizeZero);
    }
    if limit > MAX_KEYS_PER_BATCH {
      return Err(BatchTooLarge);
    }
    if env.record.None? {
      return Err(NoActiveMigration);
    }
    var state := env.record.value;
    if state.from != m.from || state.to != m.to {
      return Err(WrongMigration);
    }
    if state.status.RolledBack? {
      return Ok(FinishedOutcome(state));
    }
    if !state.status.RollingBack? {
      return Err(NoActiveMigration);
    }
    var observed := if m.to in env.info then env.info[m.to].len else 0;
    if observed > state.total {
      return Err(OrphanedEntries);
    }
    r := RevertWindow(env, state, m, limit);
  }

  method RevertWindow(env: Env, current: MigrationState, m: Migration, limit: u32) returns (r: Result<BatchOutcome>)
    requires current.from == m.from && current.to == m.to
    modifies env
    ensures r == Returned(ReverseWindowStep(old(env.View()), current, m, limit))
    ensures r.Ok? ==> env.View() == Committed(old(env.View()), ReverseWindowStep(old(env.View()), current, m, limit))
  {
    var state := current;
    var end: u32 := Min(SaturatingAdd(state.cursor, limit), state.total);
    var descendingStart: u32 := state.total - end;
    if end < state.cursor {
      return Err(Trap);
    }
    var span: u32 := end - state.cursor;
    var window, _ := Index.ReadRange(env, m.to, descendingStart, span);
    if window.Err? {
      return Err(window.error);
    }
    var keys := window.value;
    ghost var s := env.View();
    WindowReverted(s, current, m, limit, keys);
    var walk := RevertKeys(env, m, keys, Reversed(keys));
    if walk.Err? {
      return Err(walk.error);
    }
    var tally := walk.value;
    var visited := |keys|;

    state := state.(cursor := end);
    var done := state.cursor >= state.total;
    if done {
      state := state.(status := RolledBack);
      env.version := Some(m.from);
    }
    env.record := Some(state);
    r := Ok(BatchOutcome(state.from, state.to, state.cursor, state.total,
                         visited, tally.migrated, tally.alreadyCurrent, tally.skipped, done));
  }

  /** One turn of the descending loop: apply `down` at a key, put the key back into the old log. */
  method RevertKey(env: Env, m: Migration, key: Val, tally: Tally) returns (r: Result<Tally>)
    modifies env
    ensures match WalkedOne(m.down, m.from, Walk(old(env.View()).logs, old(env.entries), tally), key)
            case Ok(w) => r == Ok(w.tally) && env.View() == old(env.View()).(logs := w.logs, entries := w.entries)
            case Err(e) => r == Err(e)
  {
    var outcome := m.down(key, Lookup(env.entries, key));
    if outcome.Refused? {
      return Err(outcome.error);
    }
    env.entries := Stored(env.entries, key, outcome.entry);
    var carried := Index.Register(env, m.from, key);
    if carried.Err? {
      return Err(carried.error);
    }
    r := Ok(Count(tally, outcome.outcome));
  }

  /** The descending loop: the window arrives ascending and is walked from its end. */
  method RevertKeys(env: Env, m: Migration, keys: seq<Val>, ghost order: seq<Val>) returns (r: Result<Tally>)
    requires order == Reversed(keys)
    modifies env
    ensures match Walked(m.down, m.from, StartOf(old(env.View())), order)
            case Ok(w) => r == Ok(w.tally) && env.View() == old(env.View()).(logs := w.logs, entries := w.entries)
            case Err(e) => r == Err(e)
  {
    ghost var s, done := env.View(), 0;
    var tally := Tally(0, 0, 0);
    var i := |keys|;
    while i > 0
      invariant 0 <= i <= |keys| && done == |keys| - i
      invariant Walked(m.down, m.from, StartOf(s), order[..done]) == Ok(Walk(env.View().logs, env.entries, tally))
      invariant env.version == s.version && env.record == s.record
    {
      i := i - 1;
      assert order[done] == keys[i];
      WalkTurn(m.down, m.from, StartOf(s), order, done, Walk(env.View().logs, env.entries, tally));
      var next := RevertKey(env, m, keys[i], tally);
      if next.Err? {
        return next;
      }
      tally, done := next.value, done + 1;
    }
    assert order[..done] == order;
    r := Ok(tally);
  }

  method RollbackToCompletion(env: Env, m: Migration, limit: u32,
                              maxBatches: u32)
    returns (r: Result<seq<BatchOutcome>>)
    modifies env
    ensures r == Returned(RollbackRunStep(old(env.View()), m, limit, maxBatches))
    ensures env.View() == Committed(old(env.View()), RollbackRunStep(old(env.View()), m, limit, maxBatches))
  {
    var saved := env.View();
    r := ApplyRollbackRun(env, m, limit, maxBatches);
    if r.Err? {
      env.Restore(saved);
    }
  }

  method ApplyRollbackRun(env: Env, m: Migration, limit: u32, maxBatches: u32) returns (r: Result<seq<BatchOutcome>>)
    modifies env
    ensures r == Returned(RollbackRunStep(old(env.View()), m, limit, maxBatches))
    ensures r.Ok? ==> env.View() == Committed(old(env.View()), RollbackRunStep(old(env.View()), m, limit, maxBatches))
  {
    var begun := RollbackBegin(env, m);
    if begun.Err? {
      return Err(begun.error);
    }
    r := RunRollbackBatches(env, m, limit, maxBatches, RollbackBatches(m, limit));
  }

  method RunRollbackBatches(env: Env, m: Migration, limit: u32, maxBatches: u32,
                            ghost step: Snapshot -> Attempt<BatchOutcome>)
    returns (r: Result<seq<BatchOutcome>>)
    requires SendsBack(step, m, limit)
    modifies env
    ensures r == Returned(Repeated(step, old(env.View()), maxBatches))
    ensures r.Ok? ==> env.View() == Committed(old(env.View()), Repeated(step, old(env.View()), maxBatches))
  {
    ghost var all := Repeated(step, env.View(), maxBatches);
    var out: seq<BatchOutcome> := [];
    var n := 0;
    assert all == Prefixed(out, all) by {
      assert all.Ok? ==> [] + all.value.1 == all.value.1;
    }
    while n < maxBatches
      invariant 0 <= n <= maxBatches
      invariant all == Prefixed(out, Repeated(step, env.View(), maxBatches - n))
    {
      RepeatedNext(step, all, out, env.View(), maxBatches - n);
      var outcome := ApplyRollbackBatch(env, m, limit);
      if outcome.Err? {
        return Err(outcome.error);
      }
      out := out + [outcome.value];
      if outcome.value.done {
        return Ok(out);
      }
      n := n + 1;
    }
    RepeatedNext(step, all, out, env.View(), 0);
    r := Ok(out);
  }
}
