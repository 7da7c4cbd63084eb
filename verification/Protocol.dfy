/** The migration protocol as a state machine: every framework and application step, in any
    order, and the invariant all of them keep. */
module Protocol {
  import opened Host
  import opened KeyLog
  import opened Storage
  import opened Executor
  import opened Rollback
  import opened Version

  /** One contract invocation. */
  datatype Action =
    | DoInitialize(version: u32)
    | DoAdopt(version: u32)
    | DoPut(key: Val, value: Val)
    | DoPutUnindexed(key: Val, value: Val)
    | DoRemove(key: Val)
    | DoRegister(version: u32, key: Val)
    | DoBegin(m: Migration)
    | DoBatch(m: Migration, limit: u32)
    | DoAbort
    | DoClear
    | DoRollbackBegin(m: Migration)
    | DoRollbackBatch(m: Migration, limit: u32)

  /** The storage after `a`; a failing invocation leaves it as it was. */
  ghost function Apply(s: Snapshot, a: Action): Snapshot {
    match a
    case DoInitialize(version) => Committed(s, InitializeStep(s, version))
    case DoAdopt(version) => Committed(s, AdoptStep(s, version))
    case DoPut(key, value) => Committed(s, PutStep(s, key, value))
    case DoPutUnindexed(key, value) => s.(entries := Stored(s.entries, key, Some(value)))
    case DoRemove(key) => s.(entries := Stored(s.entries, key, None))
    case DoRegister(version, key) =>
      if Registered(s.logs, version, key).Ok? then s.(logs := Registered(s.logs, version, key).value) else s
    case DoBegin(m) => Committed(s, BeginStep(s, m))
    case DoBatch(m, limit) => Committed(s, BatchStep(s, m, limit))
    case DoAbort => Committed(s, AbortStep(s))
    case DoClear => Committed(s, ClearStep(s))
    case DoRollbackBegin(m) => Committed(s, RollbackBeginStep(s, m))
    case DoRollbackBatch(m, limit) => Committed(s, RollbackBatchStep(s, m, limit))
  }

  ghost function Run(s: Snapshot, actions: seq<Action>): Snapshot {
    if actions == [] then s else Apply(Run(s, actions[..|actions| - 1]), actions[|actions| - 1])
  }

  const EMPTY := Snapshot(None, None, Logs(map[], map[]), map[])

  // ----- Logs only grow, except by reset -----

  /** Every page holds what its summary advertises, and the summary's page count is the number
      of pages its length needs. */
  ghost predicate SoundLogs(g: Logs) {
    && (forall v: u32 :: Covered(g, v))
    && (forall v: u32 :: v in g.info ==> g.info[v].len > 0 && g.info[v].pageCount == PagesFor(g.info[v].len))
  }

  /** No position a reader could see has changed. */
  ghost predicate Extends(before: Logs, after: Logs) {
    && (forall v: u32 :: Len(before, v) <= Len(after, v))
    && (forall v: u32, i: u32 :: i < Len(before, v) ==> Slot(after, v, i) == Slot(before, v, i))
  }

  lemma ExtendsVisible(before: Logs, after: Logs, v: u32)
    requires Covered(before, v) && Covered(after, v) && Extends(before, after)
    ensures Visible(after, v)[..Len(before, v)] == Visible(before, v)
  {
    var n := Len(before, v);
    forall i | 0 <= i < n ensures Visible(after, v)[i] == Visible(before, v)[i] {
      var j: u32 := i;
      assert Slot(after, v, j) == Slot(before, v, j);
    }
  }

  lemma PrefixKept(before: Logs, after: Logs, v: u32, n: nat)
    requires Covered(before, v) && Covered(after, v) && Extends(before, after) && n <= Len(before, v)
    ensures Visible(after, v)[..n] == Visible(before, v)[..n]
  {
    ExtendsVisible(before, after, v);
    assert Visible(after, v)[..n] == Visible(after, v)[..Len(before, v)][..n];
  }

  lemma RegisterSound(g: Logs, version: u32, key: Val)
    requires SoundLogs(g) && Registered(g, version, key).Ok?
    ensures var after := Registered(g, version, key).value;
            && SoundLogs(after) && Extends(g, after)
            && (forall v: u32 :: Len(after, v) == if v == version then Len(g, v) + 1 else Len(g, v))
  {
    var after := Registered(g, version, key).value;
    RegisterKeepsPositions(g, version, key);
    forall v: u32 ensures Covered(after, v) {
      assert Covered(g, v);
    }
    forall v: u32, i: u32 | i < Len(g, v) ensures Slot(after, v, i) == Slot(g, v, i) {
      assert Covered(g, v);
    }
  }

  lemma {:induction false} WalkSound(visit: Visitor, target: u32, start: Walk, keys: seq<Val>)
    requires SoundLogs(start.logs) && Walked(visit, target, start, keys).Ok?
    ensures var after := Walked(visit, target, start, keys).value.logs;
            && SoundLogs(after) && Extends(start.logs, after)
            && (forall v: u32 :: Len(after, v) == Len(start.logs, v) + if v == target then |keys| else 0)
  {
    if keys != [] {
      var n := |keys| - 1;
      WalkSound(visit, target, start, keys[..n]);
      var w := Walked(visit, target, start, keys[..n]).value;
      RegisterSound(w.logs, target, keys[n]);
    }
  }

  lemma ResetSound(g: Logs, version: u32)
    requires SoundLogs(g)
    ensures SoundLogs(Reset(g, version))
    ensures forall v: u32 :: Len(Reset(g, version), v) == if v == version then 0 else Len(g, v)
  {
    forall v: u32 ensures Covered(Reset(g, version), v) {
      assert Covered(g, v);
      forall i: u32 | i < Len(Reset(g, version), v) ensures Slot(Reset(g, version), v, i).Some? {
        assert Slot(g, v, i).Some?;
      }
    }
  }

  // ----- The invariant -----

  ghost predicate SoundRecord(s: Snapshot, r: MigrationState) {
    && r.to == SaturatingAdd(r.from, 1)
    && r.cursor <= r.total
    && (r.status.Running? ==> s.version == Some(r.from) && r.total <= Len(s.logs, r.from))
    && (r.status.RollingBack? ==> s.version == Some(r.to))
    && (r.status.RollingBack? && r.from < U32_MAX ==> r.total <= Len(s.logs, r.to))
  }

  /** What every reachable storage satisfies. */
  ghost predicate Sound(s: Snapshot) {
    SoundLogs(s.logs) && (s.record.Some? ==> SoundRecord(s, s.record.value))
  }

  /** The next `keys` of the `from` log, at most `limit` of them, and what walking them leaves of
      the logs. */
  ghost predicate Advances(s: Snapshot, m: Migration, limit: nat, keys: seq<Val>, w: Walk)
    requires s.record.Some? && SoundLogs(s.logs)
  {
    assert Covered(s.logs, m.from);
    var log, c := Visible(s.logs, m.from), s.record.value.cursor;
    && s.record.value.from == m.from && s.record.value.to == m.to
    && 0 < limit && c + |keys| == Min(c + limit, |log|) && keys == log[c..c + |keys|]
    && |keys| <= MAX_KEYS_PER_BATCH
    && w.tally.migrated + w.tally.alreadyCurrent + w.tally.skipped == |keys|
    && SoundLogs(w.logs) && Extends(s.logs, w.logs)
    && (forall v: u32 :: Len(w.logs, v) == Len(s.logs, v) + if v == m.to then |keys| else 0)
  }

  lemma WindowIs(log: seq<Val>, start: nat, limit: nat)
    requires start <= |log|
    ensures var keys := Window(log, start, limit);
            start + |keys| == Min(start + limit, |log|) && keys == log[start..start + |keys|]
  {}

  lemma WindowWalk(s: Snapshot, m: Migration, limit: u32, log: seq<Val>, keys: seq<Val>) returns (w: Walk)
    requires s.record.Some? && s.record.value.status.Running? && BatchStep(s, m, limit).Ok?
    requires Covered(s.logs, m.from) && log == Visible(s.logs, m.from)
             && keys == Window(log, s.record.value.cursor, limit)
    ensures Walked(m.up, m.to, StartOf(s), keys) == Ok(w) && |keys| <= MAX_KEYS_PER_BATCH && LimitGuard(limit).None?
    ensures InFlight(s, m) && BatchStep(s, m, limit) == Ok(Checkpoint(s, w, |keys|))
  {
    RangeReadsVisible(s.logs, m.from, s.record.value.cursor, limit);
    WindowVisited(s, m, limit, keys);
    w := Walked(m.up, m.to, StartOf(s), keys).value;
  }

  lemma WindowAdvances(s: Snapshot, m: Migration, limit: u32, keys: seq<Val>, w: Walk)
    requires Sound(s) && InFlight(s, m) && LimitGuard(limit).None? && Covered(s.logs, m.from)
    requires var c := s.record.value.cursor;
             c + |keys| == Min(c + limit, Len(s.logs, m.from)) && keys == Visible(s.logs, m.from)[c..c + |keys|]
    requires Walked(m.up, m.to, StartOf(s), keys) == Ok(w) && |keys| <= MAX_KEYS_PER_BATCH
    ensures Advances(s, m, limit, keys, w)
  {
    WalkSound(m.up, m.to, StartOf(s), keys);
  }

  /** What a forward batch that commits a walk has done. */
  lemma BatchWalk(s: Snapshot, m: Migration, limit: u32) returns (keys: seq<Val>, w: Walk)
    requires Sound(s) && s.record.Some? && s.record.value.status.Running? && BatchStep(s, m, limit).Ok?
    ensures Advances(s, m, limit, keys, w) && Walked(m.up, m.to, StartOf(s), keys) == Ok(w)
    ensures BatchStep(s, m, limit).value == Checkpoint(s, w, |keys|)
  {
    assert Covered(s.logs, m.from);
    var log, c := Visible(s.logs, m.from), s.record.value.cursor;
    keys := Window(log, c, limit);
    WindowIs(log, c, limit);
    w := WindowWalk(s, m, limit, log, keys);
    WindowAdvances(s, m, limit, keys, w);
  }

  /** The window of the `to` log a rollback batch reverts, in ascending order. */
  ghost function ReverseWindow(s: Snapshot, m: Migration, limit: u32): (keys: seq<Val>)
    requires Sound(s) && s.record.Some? && s.record.value.status.RollingBack?
    requires s.record.value.from < U32_MAX && s.record.value.to == m.to
    ensures |keys| == Min(limit, s.record.value.total - s.record.value.cursor)
  {
    var r := s.record.value;
    var end := ReverseEnd(r, limit);
    assert Covered(s.logs, m.to);
    Visible(s.logs, m.to)[r.total - end..r.total - r.cursor]
  }

  lemma ReverseWindowIsRead(s: Snapshot, m: Migration, limit: u32)
    requires Sound(s) && s.record.Some? && s.record.value.status.RollingBack?
    requires s.record.value.from < U32_MAX && s.record.value.to == m.to
    ensures var r := s.record.value;
            var end := ReverseEnd(r, limit);
            Range(s.logs, m.to, r.total - end, end - r.cursor) == Ok(ReverseWindow(s, m, limit))
  {
    var r := s.record.value;
    assert Covered(s.logs, m.to);
    var end := ReverseEnd(r, limit);
    RangeReadsVisible(s.logs, m.to, r.total - end, end - r.cursor);
  }

  /** The walk a rollback batch makes: the window, newest key first. */
  ghost function ReverseWalk(s: Snapshot, m: Migration, limit: u32): Result<Walk>
    requires Sound(s) && s.record.Some? && s.record.value.status.RollingBack?
    requires s.record.value.from < U32_MAX && s.record.value.to == m.to
  {
    Walked(m.down, m.from, StartOf(s), Reversed(ReverseWindow(s, m, limit)))
  }

  /** A rollback batch in flight commits exactly when its walk does, and commits that walk. */
  lemma ReverseWindowStepEffect(s: Snapshot, m: Migration, limit: u32)
    requires Sound(s) && s.record.Some? && s.record.value.status.RollingBack?
    requires s.record.value.from < U32_MAX && s.record.value.to == m.to
    ensures var r := s.record.value;
            var walk := ReverseWalk(s, m, limit);
            && (walk.Err? ==> ReverseWindowStep(s, r, m, limit) == Err(walk.error))
            && (walk.Ok? ==>
                  ReverseWindowStep(s, r, m, limit)
                  == Ok(ReverseCheckpoint(s, r, walk.value, |ReverseWindow(s, m, limit)|, ReverseEnd(r, limit))))
  {
    var r := s.record.value;
    ReverseWindowIsRead(s, m, limit);
    WindowReverted(s, r, m, limit, ReverseWindow(s, m, limit));
  }

  /** What a rollback batch that commits has done. */
  lemma RollbackBatchEffect(s: Snapshot, m: Migration, limit: u32)
    requires Sound(s) && s.record.Some? && s.record.value.status.RollingBack? && s.record.value.from < U32_MAX
    requires RollbackBatchStep(s, m, limit).Ok?
    ensures var r := s.record.value;
            && r.from == m.from && r.to == m.to && 0 < limit && Len(s.logs, m.to) == r.total
            && ReverseWalk(s, m, limit).Ok?
            && RollbackBatchStep(s, m, limit).value
               == ReverseCheckpoint(s, r, ReverseWalk(s, m, limit).value, |ReverseWindow(s, m, limit)|,
                                    ReverseEnd(r, limit))
  {
    ReverseWindowStepEffect(s, m, limit);
  }

  lemma ReverseWalkSound(s: Snapshot, m: Migration, limit: u32)
    requires Sound(s) && s.record.Some? && s.record.value.status.RollingBack?
    requires s.record.value.from < U32_MAX && s.record.value.to == m.to
    requires ReverseWalk(s, m, limit).Ok?
    ensures var logs := ReverseWalk(s, m, limit).value.logs;
            && SoundLogs(logs) && Extends(s.logs, logs)
            && (forall v: u32 ::
                  Len(logs, v) == Len(s.logs, v) + if v == m.from then |ReverseWindow(s, m, limit)| else 0)
  {
    WalkSound(m.down, m.from, StartOf(s), Reversed(ReverseWindow(s, m, limit)));
  }

  lemma BatchKeepsSound(s: Snapshot, m: Migration, limit: u32)
    requires Sound(s)
    ensures Sound(Committed(s, BatchStep(s, m, limit)))
  {
    if s.record.Some? && s.record.value.status.Running? && BatchStep(s, m, limit).Ok? {
      var keys, w := BatchWalk(s, m, limit);
    }
  }

  lemma ReverseWindowKeepsLogs(s: Snapshot, r: MigrationState, m: Migration, limit: u32)
    requires SoundLogs(s.logs) && ReverseWindowStep(s, r, m, limit).Ok?
    ensures var after := ReverseWindowStep(s, r, m, limit).value.0;
            && SoundLogs(after.logs) && Extends(s.logs, after.logs)
            && after.record.Some?
            && var done := ReverseEnd(r, limit) >= r.total;
            && after.record.value == r.(cursor := ReverseEnd(r, limit), status := if done then RolledBack else r.status)
            && after.version == if done then Some(r.from) else s.version
  {
    var keys := Range(s.logs, m.to, r.total - ReverseEnd(r, limit), ReverseEnd(r, limit) - r.cursor).value;
    var w := ReversedWalk(s, r, m, limit, keys);
    WalkSound(m.down, m.from, StartOf(s), Reversed(keys));
  }

  lemma RollbackBatchKeepsSound(s: Snapshot, m: Migration, limit: u32)
    requires Sound(s)
    ensures Sound(Committed(s, RollbackBatchStep(s, m, limit)))
  {
    if s.record.Some? && s.record.value.status.RollingBack? && RollbackBatchStep(s, m, limit).Ok? {
      ReverseWindowKeepsLogs(s, s.record.value, m, limit);
    }
  }

  lemma PutKeepsSound(s: Snapshot, key: Val, value: Val)
    requires Sound(s)
    ensures Sound(Apply(s, DoPut(key, value)))
  {
    if PutStep(s, key, value).Ok? {
      RegisterSound(s.logs, CurrentVersion(s), key);
    }
  }

  lemma RegisterKeepsSound(s: Snapshot, version: u32, key: Val)
    requires Sound(s)
    ensures Sound(Apply(s, DoRegister(version, key)))
  {
    if Registered(s.logs, version, key).Ok? {
      RegisterSound(s.logs, version, key);
    }
  }

  lemma RollbackBeginKeepsSound(s: Snapshot, m: Migration)
    requires Sound(s)
    ensures Sound(Apply(s, DoRollbackBegin(m)))
  {
    ResetSound(s.logs, m.from);
  }

  lemma StepKeepsSound(s: Snapshot, a: Action)
    requires Sound(s)
    ensures Sound(Apply(s, a))
  {
    match a
    case DoPut(key, value) => PutKeepsSound(s, key, value);
    case DoRegister(version, key) => RegisterKeepsSound(s, version, key);
    case DoBatch(m, limit) => BatchKeepsSound(s, m, limit);
    case DoRollbackBegin(m) => RollbackBeginKeepsSound(s, m);
    case DoRollbackBatch(m, limit) => RollbackBatchKeepsSound(s, m, limit);
    case _ =>
  }

  /** Every storage the framework can reach, in any interleaving of its entry points with
      application writes and under any migrations, is sound: a forward and a reverse walk are
      never both active, each agrees with the stored version, and no cursor is ahead of its
      log. */
  lemma {:induction false} ReachableIsSound(actions: seq<Action>)
    ensures Sound(Run(EMPTY, actions))
  {
    if actions == [] {
    } else {
      ReachableIsSound(actions[..|actions| - 1]);
      StepKeepsSound(Run(EMPTY, actions[..|actions| - 1]), actions[|actions| - 1]);
    }
  }

  // ----- Several batches in one invocation -----

  function Copies(a: Action, n: nat): seq<Action> {
    seq(n, i => a)
  }

  lemma {:induction false} RunFront(s: Snapshot, a: Action, rest: seq<Action>)
    ensures Run(s, [a] + rest) == Run(Apply(s, a), rest)
  {
    if rest == [] {
      assert [a] + rest == [a] && [a][..0] == [];
      assert Run(s, [a][..0]) == s;
    } else {
      var n := |rest| - 1;
      RunFront(s, a, rest[..n]);
      assert ([a] + rest)[..|rest|] == [a] + rest[..n];
    }
  }

  /** `a` commits what `batch` computes. */
  ghost predicate Commits(batch: Snapshot -> Attempt<BatchOutcome>, a: Action, s: Snapshot) {
    batch(s).Ok? ==> Apply(s, a) == batch(s).value.0
  }

  lemma {:induction false} RepeatedIsActions(batch: Snapshot -> Attempt<BatchOutcome>, a: Action, s: Snapshot,
                                             count: nat, after: Snapshot, out: seq<BatchOutcome>)
    requires (forall t :: Commits(batch, a, t)) && Repeated(batch, s, count) == Ok((after, out))
    ensures |out| <= count && Run(s, Copies(a, |out|)) == after
    decreases count
  {
    assert Commits(batch, a, s);
    if count > 0 {
      var first := batch(s).value;
      if first.1.done {
        RunFront(s, a, []);
        assert Copies(a, 1) == [a] + [];
      } else {
        var rest := Repeated(batch, first.0, count - 1).value.1;
        RepeatedIsActions(batch, a, first.0, count - 1, after, rest);
        assert Copies(a, |rest| + 1) == [a] + Copies(a, |rest|);
        RunFront(s, a, Copies(a, |rest|));
      }
    }
  }

  lemma BegunThenRepeated(batch: Snapshot -> Attempt<BatchOutcome>, begin: Action, a: Action, s: Snapshot, count: nat,
                          after: Snapshot, out: seq<BatchOutcome>)
    requires (forall t :: Commits(batch, a, t)) && Repeated(batch, Apply(s, begin), count) == Ok((after, out))
    ensures |out| <= count && Run(s, [begin] + Copies(a, |out|)) == after
  {
    RepeatedIsActions(batch, a, Apply(s, begin), count, after, out);
    RunFront(s, begin, Copies(a, |out|));
  }

  lemma BatchesCommit(m: Migration, limit: u32)
    ensures forall t :: Commits(Batches(m, limit), DoBatch(m, limit), t)
    ensures forall t :: Commits(RollbackBatches(m, limit), DoRollbackBatch(m, limit), t)
  {}

  /** `run_to_completion` is nothing new: when it commits, it commits a `begin` and as many batches
      as it returns outcomes. So whatever every run of actions keeps, it keeps. */
  lemma RunIsActions(s: Snapshot, m: Migration, limit: u32, maxBatches: u32, after: Snapshot, out: seq<BatchOutcome>)
    requires RunStep(s, m, limit, maxBatches) == Ok((after, out))
    ensures BeginStep(s, m).Ok?
    ensures |out| <= maxBatches && Run(s, [DoBegin(m)] + Copies(DoBatch(m, limit), |out|)) == after
  {
    BatchesCommit(m, limit);
    BegunThenRepeated(Batches(m, limit), DoBegin(m), DoBatch(m, limit), s, maxBatches, after, out);
  }

  lemma RollbackRunIsActions(s: Snapshot, m: Migration, limit: u32, maxBatches: u32, after: Snapshot,
                             out: seq<BatchOutcome>)
    requires RollbackRunStep(s, m, limit, maxBatches) == Ok((after, out))
    ensures RollbackBeginStep(s, m).Ok?
    ensures |out| <= maxBatches
    ensures Run(s, [DoRollbackBegin(m)] + Copies(DoRollbackBatch(m, limit), |out|)) == after
  {
    BatchesCommit(m, limit);
    BegunThenRepeated(RollbackBatches(m, limit), DoRollbackBegin(m), DoRollbackBatch(m, limit), s, maxBatches, after,
                      out);
  }

  /** The batch that fails a run. */
  lemma {:induction false} RepeatedFails(batch: Snapshot -> Attempt<BatchOutcome>, a: Action, s: Snapshot, count: nat)
    returns (n: nat)
    requires (forall t :: Commits(batch, a, t)) && Repeated(batch, s, count).Err?
    ensures n < count && batch(Run(s, Copies(a, n))) == Err(Repeated(batch, s, count).error)
    decreases count
  {
    assert Commits(batch, a, s);
    if batch(s).Err? {
      n := 0;
      assert Copies(a, 0) == [];
    } else {
      var first := batch(s).value;
      var k := RepeatedFails(batch, a, first.0, count - 1);
      n := k + 1;
      assert Copies(a, n) == [a] + Copies(a, k);
      RunFront(s, a, Copies(a, k));
    }
  }

  /** And when it fails, it fails as its `begin` does, or as one of its batches would on its own after
      those before it. */
  lemma RunFailsAs(s: Snapshot, m: Migration, limit: u32, maxBatches: u32) returns (n: nat)
    requires RunStep(s, m, limit, maxBatches).Err?
    ensures var e := RunStep(s, m, limit, maxBatches).error;
            if BeginStep(s, m).Err? then BeginStep(s, m) == Err(e)
            else n < maxBatches
                 && BatchStep(Run(s, [DoBegin(m)] + Copies(DoBatch(m, limit), n)), m, limit) == Err(e)
  {
    n := 0;
    if BeginStep(s, m).Ok? {
      var begun := Apply(s, DoBegin(m));
      BatchesCommit(m, limit);
      n := RepeatedFails(Batches(m, limit), DoBatch(m, limit), begun, maxBatches);
      RunFront(s, DoBegin(m), Copies(DoBatch(m, limit), n));
    }
  }

  lemma RollbackRunFailsAs(s: Snapshot, m: Migration, limit: u32, maxBatches: u32) returns (n: nat)
    requires RollbackRunStep(s, m, limit, maxBatches).Err?
    ensures var e := RollbackRunStep(s, m, limit, maxBatches).error;
            if RollbackBeginStep(s, m).Err? then RollbackBeginStep(s, m) == Err(e)
            else n < maxBatches
                 && RollbackBatchStep(Run(s, [DoRollbackBegin(m)] + Copies(DoRollbackBatch(m, limit), n)), m, limit)
                    == Err(e)
  {
    n := 0;
    if RollbackBeginStep(s, m).Ok? {
      var begun := Apply(s, DoRollbackBegin(m));
      BatchesCommit(m, limit);
      n := RepeatedFails(RollbackBatches(m, limit), DoRollbackBatch(m, limit), begun, maxBatches);
      RunFront(s, DoRollbackBegin(m), Copies(DoRollbackBatch(m, limit), n));
    }
  }

  // ----- What moves the version -----

  /** The only steps that move the version, and where to. */
  ghost predicate MovesVersion(s: Snapshot, a: Action, version: Option<u32>) {
    match a
    case DoInitialize(v) => s.version.None? && version == Some(v)
    case DoAdopt(v) => !(s.record.Some? && s.record.value.IsActive()) && version == Some(v)
    case DoBatch(m, _) => InFlight(s, m) && version == Some(m.to)
    case DoRollbackBatch(m, _) =>
      s.record.Some? && s.record.value.status.RollingBack? && s.record.value.from == m.from && version == Some(m.from)
    case _ => false
  }

  lemma VersionMoves(s: Snapshot, a: Action)
    requires Apply(s, a).version != s.version
    ensures MovesVersion(s, a, Apply(s, a).version)
  {
    if a.DoRollbackBatch? {
      RollbackBatchMoves(s, a.m, a.limit);
    }
  }

  lemma RollbackBatchMoves(s: Snapshot, m: Migration, limit: u32)
    requires RollbackBatchStep(s, m, limit).Ok? && RollbackBatchStep(s, m, limit).value.0.version != s.version
    ensures MovesVersion(s, DoRollbackBatch(m, limit), RollbackBatchStep(s, m, limit).value.0.version)
  {
    var r := s.record.value;
    var end := ReverseEnd(r, limit);
    var keys := Range(s.logs, m.to, r.total - end, end - r.cursor).value;
    var w := ReversedWalk(s, r, m, limit, keys);
  }

  /** What `require` promises: once an entry point gated on `version` is open it stays open, under
      any actions at all, until someone adopts, a migration away from that version commits a
      batch, or a rollback of the migration that led to it does. */
  lemma {:induction false} GateStaysOpen(s: Snapshot, actions: seq<Action>, version: u32)
    requires Sound(s) && Gate(s.version, version).Ok?
    requires forall a :: a in actions ==>
               && !a.DoAdopt?
               && !(a.DoBatch? && a.m.from == version)
               && !(a.DoRollbackBatch? && a.m.to == version)
    ensures Sound(Run(s, actions)) && Gate(Run(s, actions).version, version).Ok?
  {
    if actions != [] {
      var n := |actions| - 1;
      GateStaysOpen(s, actions[..n], version);
      GateStep(Run(s, actions[..n]), actions[n], version);
    }
  }

  lemma GateStep(s: Snapshot, a: Action, version: u32)
    requires Sound(s) && s.version == Some(version) && !a.DoAdopt?
    requires !(a.DoBatch? && a.m.from == version) && !(a.DoRollbackBatch? && a.m.to == version)
    ensures Sound(Apply(s, a)) && Apply(s, a).version == Some(version)
  {
    StepKeepsSound(s, a);
    if Apply(s, a).version != s.version {
      VersionMoves(s, a);
    }
  }

  ghost predicate Reachable(s: Snapshot) {
    exists actions :: Run(EMPTY, actions) == s
  }

  lemma ReachableStep(s: Snapshot, a: Action)
    requires Reachable(s)
    ensures Reachable(Apply(s, a))
  {
    var actions :| Run(EMPTY, actions) == s;
    assert (actions + [a])[..|actions|] == actions;
    assert Run(EMPTY, actions + [a]) == Apply(s, a);
  }

  /** The last version is special: `FROM + 1` saturates, so `FROM == TO` passes the sequence
      check. A rollback then resets the very log it pinned, and every batch after that reads an
      empty window: a rollback of one key completes without reverting the entry. */
  lemma SaturatedRollbackRevertsNothing(m: Migration, key: Val, value: Val) returns (s: Snapshot)
    requires m.from == U32_MAX && m.to == U32_MAX && m.supportsDown
    ensures Reachable(s)
    ensures s.record == Some(MigrationState(U32_MAX, U32_MAX, 1, 1, RolledBack))
    ensures Len(s.logs, U32_MAX) == 0 && Lookup(s.entries, key) == Some(value)
  {
    s := SaturatedCompletion(m);
    ReachableStep(s, DoPut(key, value));
    s := Apply(s, DoPut(key, value));
    assert Len(s.logs, U32_MAX) == 1;
    ReachableStep(s, DoRollbackBegin(m));
    s := Apply(s, DoRollbackBegin(m));
    assert Range(s.logs, U32_MAX, 0, 1) == Ok([]);
    assert Reversed<Val>([]) == [];
    ReachableStep(s, DoRollbackBatch(m, 1));
    s := Apply(s, DoRollbackBatch(m, 1));
  }

  lemma SaturatedCompletion(m: Migration) returns (s: Snapshot)
    requires m.from == U32_MAX && m.to == U32_MAX
    ensures Reachable(s)
    ensures s == Snapshot(Some(U32_MAX), Some(MigrationState(U32_MAX, U32_MAX, 0, 0, Completed)), EMPTY.logs, map[])
  {
    assert Run(EMPTY, []) == EMPTY;
    ReachableStep(EMPTY, DoInitialize(U32_MAX));
    s := Apply(EMPTY, DoInitialize(U32_MAX));
    ReachableStep(s, DoBegin(m));
    s := Apply(s, DoBegin(m));
    assert Range(s.logs, U32_MAX, 0, 1) == Ok([]);
    ReachableStep(s, DoBatch(m, 1));
    s := Apply(s, DoBatch(m, 1));
  }
}
