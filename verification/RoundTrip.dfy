/** Completing a migration and rolling it back: what is restored, and exactly when. */
module RoundTrip {
  import opened Host
  import opened KeyLog
  import opened Storage
  import opened Executor
  import opened Rollback
  import opened Protocol
  import opened Forward

  // ----- Walks, composed -----

  /** A walk registers its keys and nothing else. */
  lemma {:induction false} WalkRegisters(visit: Visitor, target: u32, start: Walk, keys: seq<Val>)
    requires Walked(visit, target, start, keys).Ok?
    ensures RegisteredAll(start.logs, target, keys) == Ok(Walked(visit, target, start, keys).value.logs)
  {
    if keys != [] {
      WalkRegisters(visit, target, start, keys[..|keys| - 1]);
    }
  }

  lemma LastOfSum<T>(first: seq<T>, second: seq<T>)
    requires second != []
    ensures var sum := first + second;
            sum[..|sum| - 1] == first + second[..|second| - 1] && sum[|sum| - 1] == second[|second| - 1]
  {}

  lemma SameStep(visit: Visitor, target: u32, a: Walk, b: Walk, key: Val)
    requires a.logs == b.logs && a.entries == b.entries && WalkedOne(visit, target, b, key).Ok?
    ensures WalkedOne(visit, target, a, key).Ok?
    ensures WalkedOne(visit, target, a, key).value.logs == WalkedOne(visit, target, b, key).value.logs
    ensures WalkedOne(visit, target, a, key).value.entries == WalkedOne(visit, target, b, key).value.entries
  {}

  /** A walk continued from where another stopped is one longer walk; the tallies of the two
      parts do not matter to what is stored. */
  lemma {:induction false} WalkContinues(visit: Visitor, target: u32, start: Walk, first: seq<Val>, later: Walk,
                                         second: seq<Val>)
    requires Walked(visit, target, start, first).Ok?
    requires var w := Walked(visit, target, start, first).value; later.logs == w.logs && later.entries == w.entries
    requires Walked(visit, target, later, second).Ok?
    ensures Walked(visit, target, start, first + second).Ok?
    ensures var w := Walked(visit, target, start, first + second).value;
            var c := Walked(visit, target, later, second).value;
            w.logs == c.logs && w.entries == c.entries
  {
    if second == [] {
      assert first + second == first;
    } else {
      var n := |second| - 1;
      WalkContinues(visit, target, start, first, later, second[..n]);
      LastOfSum(first, second);
      SameStep(visit, target, Walked(visit, target, start, first + second[..n]).value,
               Walked(visit, target, later, second[..n]).value, second[n]);
    }
  }

  // ----- Rollback tiling -----

  /** A rollback of `m` has just begun. */
  ghost predicate RollbackBegun(s: Snapshot, m: Migration) {
    && Sound(s) && m.from < U32_MAX && s.record.Some?
    && var r := s.record.value;
    && r.from == m.from && r.to == m.to && r.status.RollingBack?
    && r.cursor == 0 && r.total == Len(s.logs, m.to)
  }

  ghost predicate DrivesBack(m: Migration, a: Action) {
    (a.DoRollbackBegin? && a.m == m) || (a.DoRollbackBatch? && a.m == m)
  }

  ghost function Descending(s: Snapshot, m: Migration): (order: seq<Val>)
    requires RollbackBegun(s, m)
    ensures |order| == s.record.value.total
  {
    assert Covered(s.logs, m.to);
    Reversed(Visible(s.logs, m.to))
  }

  /** Since `s0`, exactly the newest `cursor` positions of the `to` log have been reverted. */
  ghost predicate Tiled(s0: Snapshot, s: Snapshot, m: Migration)
    requires RollbackBegun(s0, m)
  {
    && Sound(s) && s.record.Some?
    && var r := s.record.value;
    && r.from == m.from && r.to == m.to && r.total == s0.record.value.total
    && Len(s.logs, m.to) == r.total && Covered(s.logs, m.to)
    && Visible(s.logs, m.to) == Reversed(Descending(s0, m))
    && (|| (r.status.RollingBack? && s.version == Some(m.to))
        || (r.status.RolledBack? && s.version == Some(m.from) && r.cursor == r.total))
    && var walk := Walked(m.down, m.from, StartOf(s0), Descending(s0, m)[..r.cursor]);
    && walk.Ok? && walk.value.logs == s.logs && walk.value.entries == s.entries
  }

  lemma ReversedTwice<T>(s: seq<T>)
    ensures Reversed(Reversed(s)) == s
  {}

  lemma ReversedSlice<T>(log: seq<T>, order: seq<T>, from: nat, to: nat)
    requires from <= to <= |order| && log == Reversed(order)
    ensures Reversed(log[|order| - to..|order| - from]) == order[from..to]
  {
    var window := log[|order| - to..|order| - from];
    forall i | 0 <= i < to - from ensures Reversed(window)[i] == order[from..to][i] {
      assert window[|window| - 1 - i] == log[|order| - from - 1 - i];
    }
  }

  lemma WalkNextSlice(visit: Visitor, target: u32, start: Walk, order: seq<Val>, from: nat, to: nat, later: Walk)
    requires from <= to <= |order|
    requires Walked(visit, target, start, order[..from]).Ok?
    requires var w := Walked(visit, target, start, order[..from]).value;
             later.logs == w.logs && later.entries == w.entries
    requires Walked(visit, target, later, order[from..to]).Ok?
    ensures Walked(visit, target, start, order[..to]).Ok?
    ensures var w := Walked(visit, target, start, order[..to]).value;
            var c := Walked(visit, target, later, order[from..to]).value;
            w.logs == c.logs && w.entries == c.entries
  {
    assert order[..to] == order[..from] + order[from..to];
    WalkContinues(visit, target, start, order[..from], later, order[from..to]);
  }

  /** The window a rollback batch reverts is the next stretch of the descending order. */
  lemma WindowIsNextSlice(s: Snapshot, m: Migration, limit: u32, order: seq<Val>)
    requires Sound(s) && s.record.Some? && s.record.value.status.RollingBack?
    requires s.record.value.from < U32_MAX && s.record.value.to == m.to
    requires Len(s.logs, m.to) == s.record.value.total == |order|
    requires Covered(s.logs, m.to) && Visible(s.logs, m.to) == Reversed(order)
    ensures Reversed(ReverseWindow(s, m, limit)) == order[s.record.value.cursor..ReverseEnd(s.record.value, limit)]
  {
    var r := s.record.value;
    ReversedSlice(Visible(s.logs, m.to), order, r.cursor, ReverseEnd(r, limit));
  }

  lemma RollbackBatchTiles(s0: Snapshot, s: Snapshot, m: Migration, limit: u32)
    requires RollbackBegun(s0, m) && Tiled(s0, s, m)
    requires s.record.value.status.RollingBack? && RollbackBatchStep(s, m, limit).Ok?
    ensures Tiled(s0, RollbackBatchStep(s, m, limit).value.0, m)
  {
    var r := s.record.value;
    var order := Descending(s0, m);
    var after := RollbackBatchStep(s, m, limit).value.0;
    RollbackBatchKeepsSound(s, m, limit);
    assert RollbackBatchStep(s, m, limit).value.0.logs == ReverseWalk(s, m, limit).value.logs
        && RollbackBatchStep(s, m, limit).value.0.entries == ReverseWalk(s, m, limit).value.entries
        && ReverseWalk(s, m, limit).Ok? by {
      RollbackBatchEffect(s, m, limit);
    }
    WindowIsNextSlice(s, m, limit, order);
    WalkNextSlice(m.down, m.from, StartOf(s0), order, r.cursor, ReverseEnd(r, limit), StartOf(s));
    assert Covered(after.logs, m.to) && Visible(after.logs, m.to) == Visible(s.logs, m.to)
           && Len(after.logs, m.to) == r.total by {
      ReverseWalkSound(s, m, limit);
      OtherLogKept(s, after.logs, m.to);
    }
    ReverseRecord(s, m, limit);
  }

  lemma ReverseRecord(s: Snapshot, m: Migration, limit: u32)
    requires s.record.Some? && s.record.value.status.RollingBack? && RollbackBatchStep(s, m, limit).Ok?
    ensures var r := s.record.value;
            var after := RollbackBatchStep(s, m, limit).value.0;
            var done := ReverseEnd(r, limit) >= r.total;
            && after.record
              == Some(r.(cursor := ReverseEnd(r, limit), status := if done then RolledBack else RollingBack))
            && after.version == if done then Some(r.from) else s.version
  {}

  lemma TiledStep(s0: Snapshot, s: Snapshot, m: Migration, a: Action)
    requires RollbackBegun(s0, m) && Tiled(s0, s, m) && DrivesBack(m, a)
    ensures Tiled(s0, Apply(s, a), m)
  {
    if a.DoRollbackBatch? && s.record.value.status.RollingBack? && RollbackBatchStep(s, m, a.limit).Ok? {
      RollbackBatchTiles(s0, s, m, a.limit);
    } else {
      assert Apply(s, a) == s;
    }
  }

  lemma {:induction false} RollbackRunTiles(s0: Snapshot, m: Migration, actions: seq<Action>)
    requires RollbackBegun(s0, m) && forall a :: a in actions ==> DrivesBack(m, a)
    ensures Tiled(s0, Run(s0, actions), m)
  {
    if actions == [] {
      assert Covered(s0.logs, m.to);
      ReversedTwice(Visible(s0.logs, m.to));
      assert Descending(s0, m)[..0] == [];
    } else {
      var n := |actions| - 1;
      RollbackRunTiles(s0, m, actions[..n]);
      TiledStep(s0, Run(s0, actions[..n]), m, actions[n]);
    }
  }

  /** However its batches are cut, a completed rollback is one walk of `down` over every
      position of the `to` log, newest first and each exactly once, re-registering under `from`
      as it goes; only then does the version revert. No law about `down` is assumed. */
  lemma CompletedRollback(s0: Snapshot, m: Migration, actions: seq<Action>)
    requires RollbackBegun(s0, m) && forall a :: a in actions ==> DrivesBack(m, a)
    requires Run(s0, actions).version == Some(m.from)
    ensures var walk := Walked(m.down, m.from, StartOf(s0), Descending(s0, m));
            var s := Run(s0, actions);
            && walk.Ok? && s.entries == walk.value.entries && s.logs == walk.value.logs
            && s.record.Some? && s.record.value.status.RolledBack?
            && Len(s.logs, m.from) == Len(s0.logs, m.from) + s0.record.value.total
  {
    RollbackRunTiles(s0, m, actions);
    assert Descending(s0, m)[..s0.record.value.total] == Descending(s0, m);
    WalkSound(m.down, m.from, StartOf(s0), Descending(s0, m));
  }

  lemma GrownLogStep(s: Snapshot, a: Action)
    requires Sound(s) && s.record.Some? && s.record.value.status.RollingBack? && s.record.value.from < U32_MAX
    requires Len(s.logs, s.record.value.to) > s.record.value.total && !a.DoAbort?
    ensures var after := Apply(s, a);
            && Sound(after) && after.record == s.record && after.version == s.version
            && Len(after.logs, s.record.value.to) >= Len(s.logs, s.record.value.to)
  {
    StepKeepsSound(s, a);
  }

  /** Once anything is logged under the new version, a rollback in flight can never finish: no
      sequence of invocations short of abandoning it moves its cursor or the version. */
  lemma {:induction false} GrownLogBlocksRollback(s: Snapshot, actions: seq<Action>)
    requires Sound(s) && s.record.Some? && s.record.value.status.RollingBack? && s.record.value.from < U32_MAX
    requires Len(s.logs, s.record.value.to) > s.record.value.total
    requires forall a :: a in actions ==> !a.DoAbort?
    ensures var after := Run(s, actions);
            && Sound(after) && after.record == s.record && after.version == s.version
            && Len(after.logs, s.record.value.to) >= Len(s.logs, s.record.value.to)
  {
    if actions == [] {
    } else {
      var n := |actions| - 1;
      GrownLogBlocksRollback(s, actions[..n]);
      GrownLogStep(Run(s, actions[..n]), actions[n]);
    }
  }

  /** The contract is at `version` or beyond, and so is the migration its record is about. */
  ghost predicate Beyond(s: Snapshot, version: u32) {
    && Sound(s) && s.version.Some? && s.version.value >= version
    && (s.record.Some? ==> s.record.value.from >= version)
  }

  /** Only `begin` makes a record of another migration. */
  lemma RecordOrigin(s: Snapshot, a: Action)
    requires Apply(s, a).record.Some?
    ensures (s.record.Some? && Apply(s, a).record.value.from == s.record.value.from)
            || (a.DoBegin? && s.version == Some(Apply(s, a).record.value.from))
  {
    if a.DoRollbackBatch? && RollbackBatchStep(s, a.m, a.limit).Ok? {
      RollbackRecordOrigin(s, a.m, a.limit);
    }
  }

  lemma RollbackRecordOrigin(s: Snapshot, m: Migration, limit: u32)
    requires RollbackBatchStep(s, m, limit).Ok?
    ensures var after := RollbackBatchStep(s, m, limit).value.0;
            s.record.Some? && after.record.Some? && after.record.value.from == s.record.value.from
  {
    if s.record.value.status.RollingBack? {
      WindowRecordOrigin(s, s.record.value, m, limit);
    }
  }

  lemma WindowRecordOrigin(s: Snapshot, r: MigrationState, m: Migration, limit: u32)
    requires ReverseWindowStep(s, r, m, limit).Ok?
    ensures var after := ReverseWindowStep(s, r, m, limit).value.0;
            after.record.Some? && after.record.value.from == r.from
  {
    var end := ReverseEnd(r, limit);
    var keys := Range(s.logs, m.to, r.total - end, end - r.cursor).value;
    var w := ReversedWalk(s, r, m, limit, keys);
  }

  lemma BeyondStep(s: Snapshot, a: Action, version: u32)
    requires Beyond(s, version) && !a.DoAdopt?
    ensures Beyond(Apply(s, a), version)
  {
    StepKeepsSound(s, a);
    if Apply(s, a).version != s.version {
      VersionMoves(s, a);
    }
    if Apply(s, a).record.Some? {
      RecordOrigin(s, a);
    }
  }

  lemma {:induction false} StaysBeyond(s: Snapshot, actions: seq<Action>, version: u32)
    requires Beyond(s, version) && forall a :: a in actions ==> !a.DoAdopt?
    ensures Beyond(Run(s, actions), version)
  {
    if actions != [] {
      var n := |actions| - 1;
      StaysBeyond(s, actions[..n], version);
      BeyondStep(Run(s, actions[..n]), actions[n], version);
    }
  }

  lemma BeyondRefuses(s: Snapshot, m: Migration, limit: u32, version: u32)
    requires Beyond(s, version) && m.from < version
    ensures BeginStep(s, m).Err? && BatchStep(s, m, limit).Err?
    ensures RollbackBeginStep(s, m).Err? && RollbackBatchStep(s, m, limit).Err?
  {}

  /** A rollback that is abandoned half-way stays half-way: it can be neither resumed nor begun
      again, and its migration cannot be run again either, whatever happens short of an `adopt`.
      So `abort`, the only way out of a rollback that a grown log blocks, is not a way back. */
  lemma AbortedRollbackIsFinal(s: Snapshot, actions: seq<Action>, m: Migration, limit: u32)
    requires Sound(s) && s.record.Some? && s.record.value.status.RollingBack? && s.record.value.from < U32_MAX
    requires m.from == s.record.value.from && forall a :: a in actions ==> !a.DoAdopt?
    ensures var aborted := Apply(s, DoAbort);
            && aborted == s.(record := None) && aborted.version == Some(m.from + 1)
            && (m.to == m.from + 1 ==> BeginStep(aborted, m) == Err(StateNewerThanContract))
            && (m.to == m.from + 1 && m.supportsDown ==> RollbackBeginStep(aborted, m) == Err(NoActiveMigration))
    ensures var after := Run(Apply(s, DoAbort), actions);
            && after.version.Some? && after.version.value > m.from
            && BeginStep(after, m).Err? && BatchStep(after, m, limit).Err?
            && RollbackBeginStep(after, m).Err? && RollbackBatchStep(after, m, limit).Err?
  {
    StaysBeyond(Apply(s, DoAbort), actions, m.from + 1);
    BeyondRefuses(Run(Apply(s, DoAbort), actions), m, limit, m.from + 1);
  }

  // ----- Forward, then back -----

  lemma AppendsOne(g: Logs, target: u32, log: seq<Val>, key: Val, other: u32, kept: seq<Val>)
    requires Exact(g, target, log) && other != target && Exact(g, other, kept) && Registered(g, target, key).Ok?
    ensures Exact(Registered(g, target, key).value, target, log + [key])
    ensures Exact(Registered(g, target, key).value, other, kept)
  {
    RegisterAppends(g, target, log, key);
  }

  lemma {:induction false} WalkAppends(visit: Visitor, target: u32, start: Walk, keys: seq<Val>, log: seq<Val>,
                                       other: u32, kept: seq<Val>)
    requires Walked(visit, target, start, keys).Ok?
    requires Exact(start.logs, target, log) && other != target && Exact(start.logs, other, kept)
    ensures var after := Walked(visit, target, start, keys).value.logs;
            Exact(after, target, log + keys) && Exact(after, other, kept)
  {
    if keys == [] {
      assert log + keys == log;
    } else {
      var n := |keys| - 1;
      WalkAppends(visit, target, start, keys[..n], log, other, kept);
      var w := Walked(visit, target, start, keys[..n]).value;
      AppendsOne(w.logs, target, log + keys[..n], keys[n], other, kept);
      assert log + keys == log + keys[..n] + [keys[n]];
    }
  }

  ghost predicate Active(s: Snapshot) {
    s.record.Some? && s.record.value.IsActive()
  }

  /** The `to` log holds `copy`, drawn from the `from` log `log` and holding all of it that the
      run has passed; `straight` says that no run was abandoned on the way. */
  ghost predicate Copied(s: Snapshot, m: Migration, log: seq<Val>, copy: seq<Val>, straight: bool) {
    && Sound(s) && Exact(s.logs, m.from, log) && Exact(s.logs, m.to, copy)
    && (forall k :: k in copy ==> k in log)
    && (s.version == Some(m.from) || s.version == Some(m.to))
    && (Active(s) ==> s.record.value.status.Running? && s.record.value.from == m.from && s.record.value.to == m.to)
    && (Active(s) ==> forall k :: k in log[..s.record.value.cursor] ==> k in copy)
    && (s.version == Some(m.to) ==> forall k :: k in log ==> k in copy)
    && (straight ==>
         |copy| == if s.version == Some(m.to) then |log| else if Active(s) then s.record.value.cursor else 0)
  }

  lemma CopyGrows(log: seq<Val>, copy: seq<Val>, from: nat, to: nat, window: seq<Val>)
    requires from <= to <= |log| && window == log[from..to]
    requires (forall k :: k in copy ==> k in log) && (forall k :: k in log[..from] ==> k in copy)
    ensures var longer := copy + window;
            && (forall k :: k in longer ==> k in log) && (forall k :: k in log[..to] ==> k in longer)
            && (to == |log| ==> forall k :: k in log ==> k in longer)
  {
    assert log[..to] == log[..from] + window;
    assert log[..|log|] == log;
  }

  lemma CheckpointCopies(s: Snapshot, m: Migration, keys: seq<Val>, w: Walk, log: seq<Val>, copy: seq<Val>,
                         straight: bool)
    requires m.from < U32_MAX && m.to == m.from + 1 && Copied(s, m, log, copy, straight)
    requires Active(s) && w.tally.migrated + w.tally.alreadyCurrent + w.tally.skipped == |keys| <= MAX_KEYS_PER_BATCH
    requires var c := s.record.value.cursor; c + |keys| <= |log| && keys == log[c..c + |keys|]
    requires Exact(w.logs, m.to, copy + keys) && Exact(w.logs, m.from, log) && Sound(Checkpoint(s, w, |keys|).0)
    ensures Copied(Checkpoint(s, w, |keys|).0, m, log, copy + keys, straight)
  {
    var c := s.record.value.cursor;
    CopyGrows(log, copy, c, c + |keys|, keys);
  }

  lemma BatchCopies(s: Snapshot, m: Migration, limit: u32, log: seq<Val>, copy: seq<Val>, straight: bool)
    returns (longer: seq<Val>)
    requires m.from < U32_MAX && m.to == m.from + 1 && Copied(s, m, log, copy, straight)
    requires Active(s) && BatchStep(s, m, limit).Ok?
    ensures Copied(BatchStep(s, m, limit).value.0, m, log, longer, straight)
  {
    var keys, w := BatchWalk(s, m, limit);
    BatchKeepsSound(s, m, limit);
    ExactIsVisible(s.logs, m.from, log);
    WalkAppends(m.up, m.to, StartOf(s), keys, copy, m.from, log);
    CheckpointCopies(s, m, keys, w, log, copy, straight);
    longer := copy + keys;
  }

  lemma DriveCopies(s: Snapshot, m: Migration, a: Action, log: seq<Val>, copy: seq<Val>,
                    straight: bool)
    returns (longer: seq<Val>)
    requires m.from < U32_MAX && m.to == m.from + 1 && Copied(s, m, log, copy, straight) && Drives(m, a)
    ensures Copied(Apply(s, a), m, log, longer, straight && !a.DoAbort?)
  {
    longer := copy;
    StepKeepsSound(s, a);
    if a.DoBatch? && Active(s) && BatchStep(s, m, a.limit).Ok? {
      longer := BatchCopies(s, m, a.limit, log, copy, straight);
    }
  }

  lemma {:induction false} DrivenCopies(s0: Snapshot, m: Migration, actions: seq<Action>,
                                        log: seq<Val>)
    returns (copy: seq<Val>)
    requires ReadyFor(s0, m) && Exact(s0.logs, m.from, log) && Exact(s0.logs, m.to, [])
    requires forall a :: a in actions ==> Drives(m, a)
    ensures Copied(Run(s0, actions), m, log, copy, forall a :: a in actions ==> !a.DoAbort?)
  {
    if actions == [] {
      copy := [];
    } else {
      var n := |actions| - 1;
      copy := DrivenCopies(s0, m, actions[..n], log);
      var straight := forall a :: a in actions[..n] ==> !a.DoAbort?;
      copy := DriveCopies(Run(s0, actions[..n]), m, actions[n], log, copy, straight);
    }
  }

  /** `down` undoes `up` at this entry, and has nothing to do on an entry already undone. */
  ghost predicate Reversible(m: Migration, key: Val, entry: Option<Val>) {
    && m.up(key, entry).Visited?
    && var moved := m.up(key, entry).entry;
    && m.down(key, moved).Visited? && m.down(key, moved).entry == entry
    && m.down(key, entry).Visited? && m.down(key, entry).entry == entry
  }

  lemma {:induction false} WalkRestores(visit: Visitor, target: u32, start: Walk, keys: seq<Val>, e0: map<Val, Val>)
    requires Walked(visit, target, start, keys).Ok?
    requires forall k :: k in keys ==>
               && visit(k, Lookup(start.entries, k)).Visited?
                  && visit(k, Lookup(start.entries, k)).entry == Lookup(e0, k)
               && visit(k, Lookup(e0, k)).Visited? && visit(k, Lookup(e0, k)).entry == Lookup(e0, k)
    ensures var after := Walked(visit, target, start, keys).value.entries;
            forall k :: Lookup(after, k) == if k in keys then Lookup(e0, k) else Lookup(start.entries, k)
  {
    if keys != [] {
      var n := |keys| - 1;
      WalkRestores(visit, target, start, keys[..n], e0);
      assert keys == keys[..n] + [keys[n]];
    }
  }

  /** A migration driven to completion and then rolled back to completion. */
  ghost predicate Cycle(s0: Snapshot, m: Migration, forward: seq<Action>, back: seq<Action>) {
    && ReadyFor(s0, m)
    && (forall a :: a in forward ==> Drives(m, a))
    && (forall a :: a in back ==> DrivesBack(m, a))
    && var done := Run(s0, forward);
    && done.version == Some(m.to) && RollbackBeginStep(done, m).Ok?
    && Run(Apply(done, DoRollbackBegin(m)), back).version == Some(m.from)
  }

  ghost function CycleEnd(s0: Snapshot, m: Migration, forward: seq<Action>, back: seq<Action>): Snapshot {
    Run(Apply(Run(s0, forward), DoRollbackBegin(m)), back)
  }

  lemma CycleBegins(s0: Snapshot, m: Migration, forward: seq<Action>, back: seq<Action>)
    requires Cycle(s0, m, forward, back) && Idempotent(m.up)
    ensures var done := Run(s0, forward);
            var begun := Apply(done, DoRollbackBegin(m));
            && RollbackBegun(begun, m) && begun.logs == Reset(done.logs, m.from) && begun.entries == done.entries
            && begun.record.value.total == Len(done.logs, m.to)
  {
    var reached := DrivenRun(s0, m, forward);
    StepKeepsSound(Run(s0, forward), DoRollbackBegin(m));
  }

  /** Entries, after a cycle: exactly what they were. */
  lemma CycleRestoresEntries(s0: Snapshot, m: Migration, forward: seq<Action>, back: seq<Action>, log: seq<Val>)
    requires Cycle(s0, m, forward, back) && Idempotent(m.up)
    requires Exact(s0.logs, m.from, log) && Exact(s0.logs, m.to, [])
    requires forall k :: k in log ==> Reversible(m, k, Lookup(s0.entries, k))
    ensures CycleEnd(s0, m, forward, back).entries == s0.entries
  {
    var done := Run(s0, forward);
    var begun := Apply(done, DoRollbackBegin(m));
    var end := CycleEnd(s0, m, forward, back);
    var copy := DrivenCopies(s0, m, forward, log);
    CycleBegins(s0, m, forward, back);
    BatchedEqualsOneShot(s0, m, forward);
    ExactIsVisible(s0.logs, m.from, log);
    assert Exact(begun.logs, m.to, copy);
    ExactIsVisible(begun.logs, m.to, copy);
    CompletedRollback(begun, m, back);
    var order := Descending(begun, m);
    forall k ensures k in order <==> k in log {
      SameMembers(copy, k);
    }
    forall k | k in order ensures
        && m.down(k, Lookup(begun.entries, k)).Visited?
           && m.down(k, Lookup(begun.entries, k)).entry == Lookup(s0.entries, k)
        && m.down(k, Lookup(s0.entries, k)).Visited?
           && m.down(k, Lookup(s0.entries, k)).entry == Lookup(s0.entries, k) {
      assert Reversible(m, k, Lookup(s0.entries, k));
    }
    WalkRestores(m.down, m.from, StartOf(begun), order, s0.entries);
    SameReadsSameEntries(end.entries, s0.entries);
  }

  lemma SameMembers<T>(s: seq<T>, x: T)
    ensures x in Reversed(s) <==> x in s
  {
    if x in s {
      var i :| 0 <= i < |s| && s[i] == x;
      assert Reversed(s)[|s| - 1 - i] == x;
    }
  }

  /** The rollback leaves the old log reset and refilled with as many keys as the new log held. */
  lemma CycleRebuildsLog(s0: Snapshot, m: Migration, forward: seq<Action>, back: seq<Action>) returns (order: seq<Val>)
    requires Cycle(s0, m, forward, back) && Idempotent(m.up)
    ensures var done := Run(s0, forward);
            && |order| == Len(done.logs, m.to)
            && RegisteredAll(Reset(done.logs, m.from), m.from, order) == Ok(CycleEnd(s0, m, forward, back).logs)
  {
    var begun := Apply(Run(s0, forward), DoRollbackBegin(m));
    CycleBegins(s0, m, forward, back);
    CompletedRollback(begun, m, back);
    order := Descending(begun, m);
    WalkRegisters(m.down, m.from, StartOf(begun), order);
  }

  /** The `from` log, after a cycle: restored in its original order despite the stale pages, if
      and only if the forward run logged exactly as many keys as it had to visit. */
  lemma CycleRestoresLog(s0: Snapshot, m: Migration, forward: seq<Action>, back: seq<Action>, log: seq<Val>)
    requires Cycle(s0, m, forward, back) && Idempotent(m.up)
    requires Exact(s0.logs, m.from, log) && Exact(s0.logs, m.to, [])
    ensures var end := CycleEnd(s0, m, forward, back);
            && Covered(end.logs, m.from)
            && (ReadsAs(end.logs, m.from, log) <==> Len(Run(s0, forward).logs, m.to) == |log|)
            && ((forall a :: a in forward ==> !a.DoAbort?) ==> ReadsAs(end.logs, m.from, log))
  {
    var copy := DrivenCopies(s0, m, forward, log);
    var order := CycleRebuildsLog(s0, m, forward, back);
    ResetThenRefill(Run(s0, forward).logs, m.from, log, order);
  }

  /** The round trip: whatever the batch limits, refused batches, resumptions and abandoned runs
      on the way there and back, a completed migration followed by a completed rollback
      restores the version and every entry, and the `from` log too unless a run was abandoned. */
  lemma RoundTripRestores(s0: Snapshot, m: Migration, forward: seq<Action>, back: seq<Action>, log: seq<Val>)
    requires Cycle(s0, m, forward, back) && Idempotent(m.up)
    requires Exact(s0.logs, m.from, log) && Exact(s0.logs, m.to, [])
    requires forall k :: k in log ==> Reversible(m, k, Lookup(s0.entries, k))
    ensures var end := CycleEnd(s0, m, forward, back);
            && end.version == s0.version && end.entries == s0.entries
            && ((forall a :: a in forward ==> !a.DoAbort?) ==> ReadsAs(end.logs, m.from, log))
  {
    CycleRestoresEntries(s0, m, forward, back, log);
    CycleRestoresLog(s0, m, forward, back, log);
  }

  // ----- Repeated cycles -----

  /** Without abandoned runs a migration adds the whole `from` log to the `to` log, whatever the
      `to` log already held. */
  ghost predicate Lengthened(s0: Snapshot, s: Snapshot, m: Migration) {
    && Sound(s) && Len(s.logs, m.from) == Len(s0.logs, m.from)
    && (s.version == Some(m.from) || s.version == Some(m.to))
    && (Active(s) ==> s.record.value.status.Running? && s.record.value.from == m.from && s.record.value.to == m.to)
    && Len(s.logs, m.to) == Len(s0.logs, m.to)
         + if s.version == Some(m.to) then Len(s0.logs, m.from) else if Active(s) then s.record.value.cursor else 0
  }

  lemma DriveLengthens(s0: Snapshot, s: Snapshot, m: Migration, a: Action)
    requires m.from < U32_MAX && m.to == m.from + 1
    requires Lengthened(s0, s, m) && Drives(m, a) && !a.DoAbort?
    ensures Lengthened(s0, Apply(s, a), m)
  {
    StepKeepsSound(s, a);
    if a.DoBatch? && Active(s) && BatchStep(s, m, a.limit).Ok? {
      var keys, w := BatchWalk(s, m, a.limit);
    }
  }

  lemma {:induction false} DrivenLengthens(s0: Snapshot, m: Migration, actions: seq<Action>)
    requires ReadyFor(s0, m) && forall a :: a in actions ==> Drives(m, a) && !a.DoAbort?
    ensures Lengthened(s0, Run(s0, actions), m)
  {
    if actions == [] {
    } else {
      var n := |actions| - 1;
      DrivenLengthens(s0, m, actions[..n]);
      DriveLengthens(s0, Run(s0, actions[..n]), m, actions[n]);
    }
  }

  /** Each cycle leaves both logs as long as the two were together, so from the second cycle on
      every cycle doubles the `from` log — the growth that resetting it was meant to prevent. */
  lemma CycleAddsLogs(s0: Snapshot, m: Migration, forward: seq<Action>, back: seq<Action>)
    requires Cycle(s0, m, forward, back) && Idempotent(m.up)
    requires forall a :: a in forward ==> !a.DoAbort?
    ensures var end := CycleEnd(s0, m, forward, back);
            Len(end.logs, m.from) == Len(end.logs, m.to) == Len(s0.logs, m.from) + Len(s0.logs, m.to)
  {
    DrivenLengthens(s0, m, forward);
    CycleBegins(s0, m, forward, back);
    var begun := Apply(Run(s0, forward), DoRollbackBegin(m));
    CompletedRollback(begun, m, back);
    RollbackRunTiles(begun, m, back);
  }
}
