/** The checks made before an upgrade (`preflight.rs`), and what they do and do not promise. */
module Preflight {
  import opened Host
  import opened KeyLog
  import opened Storage
  import opened Executor
  import opened Protocol
  import opened Rollback
  import opened Answers
  import Index
  import Version

  datatype PreflightReport = PreflightReport(
    version: Option<u32>, indexLen: u32, migrationActive: bool, rollbackAvailable: bool)

  function Inspect(s: Snapshot): PreflightReport {
    PreflightReport(
      s.version,
      if s.version.Some? then Len(s.logs, s.version.value) else 0,
      s.record.Some? && s.record.value.IsActive(),
      s.record.Some? && s.record.value.status.Completed?)
  }

  function UpgradeCheck(s: Snapshot, m: Migration): Result<PreflightReport> {
    if Version.Gate(s.version, m.from).Err? then Err(Version.Gate(s.version, m.from).error)
    else if s.record.Some? && s.record.value.IsActive() then
      if s.record.value.from == m.from && s.record.value.to == m.to then Ok(Inspect(s)) else Err(MigrationAlreadyActive)
    else if Len(s.logs, m.from) == 0 then Err(OrphanedEntries)
    else Ok(Inspect(s))
  }

  method AssertUpgradeable(env: Env, m: Migration) returns (r: Result<PreflightReport>)
    ensures r == UpgradeCheck(env.View(), m)
  {
    var gate := Version.Require(env, m.from);
    if gate.Err? {
      return Err(gate.error);
    }
    if env.record.Some? {
      var state := env.record.value;
      if state.IsActive() {
        if state.from == m.from && state.to == m.to {
          return Ok(Inspect(env.View()));
        }
        return Err(MigrationAlreadyActive);
      }
    }
    if m.from !in env.info || env.info[m.from].len == 0 {
      return Err(OrphanedEntries);
    }
    r := Ok(Inspect(env.View()));
  }

  /** When the check refuses, and why: the version is not the one to migrate from, another migration
      or a rollback is under way, or nothing at all is logged under that version. */
  lemma PreflightAnswers(s: Snapshot, m: Migration)
    ensures var at, mine := s.version == Some(m.from), IsMine(s, m);
            && (UpgradeCheck(s, m).Ok? <==> at && if UnderWay(s) then mine else Len(s.logs, m.from) > 0)
            && (UpgradeCheck(s, m) == Err(MigrationAlreadyActive) <==> at && UnderWay(s) && !mine)
            && (UpgradeCheck(s, m) == Err(OrphanedEntries) <==> at && !UnderWay(s) && Len(s.logs, m.from) == 0)
    ensures UpgradeCheck(s, m) == Err(NotInitialized) <==> s.version.None?
    ensures UpgradeCheck(s, m) == Err(StateNewerThanContract) <==> s.version.Some? && s.version.value > m.from
    ensures UpgradeCheck(s, m) == Err(VersionMismatch) <==> s.version.Some? && s.version.value < m.from
  {}

  /** The record, if any, is about this migration. */
  predicate IsMine(s: Snapshot, m: Migration) {
    s.record.Some? && s.record.value.from == m.from && s.record.value.to == m.to
  }

  /** What it reports: the stored version, how many keys a reader of that version's log sees, whether
      a migration or a rollback is under way, and whether a finished migration can be undone. */
  lemma ReportTells(s: Snapshot, m: Migration)
    requires Sound(s)
    ensures var r := Inspect(s);
            && r.version == s.version
            && (s.version.None? ==> r.indexLen == 0)
            && (s.version.Some? ==>
                  Covered(s.logs, s.version.value) && r.indexLen == |Visible(s.logs, s.version.value)|)
            && (r.migrationActive <==> UnderWay(s))
            && (r.rollbackAvailable <==> s.record.Some? && s.record.value.status.Completed?)
    ensures UpgradeCheck(s, m).Ok? ==> UpgradeCheck(s, m).value == Inspect(s) && s.version == Some(m.from)
  {
    if s.version.Some? {
      assert Covered(s.logs, s.version.value);
    }
  }

  /** The dangerous outcome it is there to rule out, a migration that advances the version without
      visiting anything: after a passing check either this very migration is running already, or
      the first batch of the run that `begin` starts visits a key, if it commits. */
  lemma PassingPreflightHasWork(actions: seq<Action>, m: Migration, limit: u32)
    requires m.from < U32_MAX && UpgradeCheck(Run(EMPTY, actions), m).Ok?
    ensures var s := Run(EMPTY, actions);
            (IsMine(s, m) && s.record.value.status.Running?)
            || (Len(s.logs, m.from) > 0
                && (BeginStep(s, m).Ok? ==>
                      var batch := BatchStep(Apply(s, DoBegin(m)), m, limit);
                      batch.Ok? ==> batch.value.1.visited > 0))
  {
    ReachableIsSound(actions);
    var s := Run(EMPTY, actions);
    if !(IsMine(s, m) && s.record.value.status.Running?) && BeginStep(s, m).Ok? {
      BeginAnswers(s, m);
      BeginStarts(s, m);
      StepKeepsSound(s, DoBegin(m));
      FirstBatchVisits(Apply(s, DoBegin(m)), m, limit);
    }
  }

  lemma FirstBatchVisits(begun: Snapshot, m: Migration, limit: u32)
    requires Sound(begun) && InFlight(begun, m) && begun.record.value.cursor == 0 && Len(begun.logs, m.from) > 0
    ensures BatchStep(begun, m, limit).Ok? ==> BatchStep(begun, m, limit).value.1.visited > 0
  {
    BatchAnswers(begun, m, limit);
    if 0 < limit <= 150 {
      BatchOfRunning(begun, m, limit);
    }
  }

  /** A passing pre-flight promises that `begin` starts or resumes the migration, with exactly two
      exceptions: it never checks that the migration is one version step, and the finished record
      of the same version pair may still be there, as it is after a rollback until `clear` runs. */
  lemma PassingPreflightBegins(actions: seq<Action>, m: Migration)
    requires m.from < U32_MAX && UpgradeCheck(Run(EMPTY, actions), m).Ok?
    ensures var s := Run(EMPTY, actions);
            BeginStep(s, m).Ok? <==>
              && m.to == m.from + 1
              && !(s.record.Some? && !s.record.value.IsActive() && s.record.value.from == m.from)
  {
    ReachableIsSound(actions);
  }

  /** The first exception: from version 1, a migration to any version but 2 passes and is then
      refused. */
  lemma NonSequentialPassesPreflight(m: Migration, key: Val, value: Val) returns (s: Snapshot)
    requires m.from == 1 && m.to != 2
    ensures Reachable(s) && UpgradeCheck(s, m).Ok? && BeginStep(s, m) == Err(NotSequential)
  {
    assert Run(EMPTY, []) == EMPTY;
    ReachableStep(EMPTY, DoInitialize(1));
    s := Apply(EMPTY, DoInitialize(1));
    ReachableStep(s, DoPut(key, value));
    s := Apply(s, DoPut(key, value));
    assert Len(s.logs, 1) == 1;
  }

  // ----- Coverage -----

  /** The first key the log has not seen decides. */
  ghost function IndexedCheck(g: Logs, version: u32, keys: seq<Val>): Result<()> {
    if keys == [] then Ok(()) else
      match Contains(g, version, keys[0])
      case Err(e) => Err(e)
      case Ok(found) => if found then IndexedCheck(g, version, keys[1..]) else Err(OrphanedEntries)
  }

  method AssertKeysIndexed(env: Env, version: u32, keys: seq<Val>) returns (r: Result<()>)
    ensures r == IndexedCheck(env.View().logs, version, keys)
  {
    var i := 0;
    while i < |keys|
      invariant 0 <= i <= |keys|
      invariant IndexedCheck(env.View().logs, version, keys) == IndexedCheck(env.View().logs, version, keys[i..])
    {
      var found := Index.ContainsKey(env, version, keys[i]);
      assert keys[i..][1..] == keys[i + 1..];
      if found.Err? {
        return Err(found.error);
      }
      if !found.value {
        return Err(OrphanedEntries);
      }
      i := i + 1;
    }
    r := Ok(());
  }

  /** How many of `keys` the page scan denies, occurrences counted. */
  ghost function Orphans(g: Logs, version: u32, keys: seq<Val>): nat {
    if keys == [] then 0 else
      Orphans(g, version, keys[..|keys| - 1]) + if Contains(g, version, keys[|keys| - 1]) == Ok(false) then 1 else 0
  }

  /** Counts without failing, except where a scan traps. */
  method CountOrphans(env: Env, version: u32, keys: seq<Val>) returns (r: Result<nat>)
    ensures r.Ok? <==> forall k :: k in keys ==> Contains(env.View().logs, version, k).Ok?
    ensures r == Err(Trap) || r == Ok(Orphans(env.View().logs, version, keys))
  {
    var orphans := 0;
    var i := 0;
    while i < |keys|
      invariant 0 <= i <= |keys|
      invariant forall k :: k in keys[..i] ==> Contains(env.View().logs, version, k).Ok?
      invariant orphans == Orphans(env.View().logs, version, keys[..i])
    {
      assert keys[..i + 1][..i] == keys[..i];
      var found := Index.ContainsKey(env, version, keys[i]);
      if found.Err? {
        return Err(found.error);
      }
      if !found.value {
        orphans := orphans + 1;
      }
      i := i + 1;
    }
    assert keys[..i] == keys;
    r := Ok(orphans);
  }

  /** The failing check passes exactly when no scan traps and the count is zero. */
  lemma {:induction false} IndexedIffNoOrphans(g: Logs, version: u32, keys: seq<Val>)
    ensures IndexedCheck(g, version, keys).Ok?
       <==> (forall k :: k in keys ==> Contains(g, version, k).Ok?) && Orphans(g, version, keys) == 0
  {
    if keys != [] {
      var front, last := keys[..|keys| - 1], keys[|keys| - 1];
      assert keys == front + [last];
      ChunksCompose(g, version, front, [last]);
      IndexedIffNoOrphans(g, version, front);
      assert IndexedCheck(g, version, [last][1..]) == Ok(());
    }
  }

  /** How many of `keys` are not in `log`, occurrences counted. */
  function Missing(log: seq<Val>, keys: seq<Val>): nat {
    if keys == [] then 0 else Missing(log, keys[..|keys| - 1]) + if keys[|keys| - 1] in log then 0 else 1
  }

  /** On a log that was never reset and is not within 31 keys of full, the count is of the keys
      missing from it. */
  lemma {:induction false} OrphansAreMissing(g: Logs, version: u32, log: seq<Val>, keys: seq<Val>)
    requires Exact(g, version, log) && |log| <= U32_MAX + 1 - PAGE_SIZE
    ensures Orphans(g, version, keys) == Missing(log, keys)
  {
    if keys != [] {
      OrphansAreMissing(g, version, log, keys[..|keys| - 1]);
      ContainsIsMembership(g, version, log, keys[|keys| - 1]);
    }
  }

  /** Verifying a manifest chunk by chunk is verifying it whole. */
  lemma {:induction false} ChunksCompose(g: Logs, version: u32, a: seq<Val>, b: seq<Val>)
    ensures IndexedCheck(g, version, a + b)
         == if IndexedCheck(g, version, a).Ok? then IndexedCheck(g, version, b) else IndexedCheck(g, version, a)
  {
    if a == [] {
      assert a + b == b;
    } else {
      assert (a + b)[1..] == a[1..] + b;
      ChunksCompose(g, version, a[1..], b);
    }
  }

  /** On a log that was never reset the check passes exactly when every key is in the log. */
  lemma {:induction false} IndexedIsMembership(g: Logs, version: u32, log: seq<Val>, keys: seq<Val>)
    requires Exact(g, version, log) && |log| <= U32_MAX + 1 - PAGE_SIZE
    ensures IndexedCheck(g, version, keys)
         == if forall k :: k in keys ==> k in log then Ok(()) else Err(OrphanedEntries)
  {
    if keys != [] {
      ContainsIsMembership(g, version, log, keys[0]);
      IndexedIsMembership(g, version, log, keys[1..]);
      assert keys == [keys[0]] + keys[1..];
    }
  }

  /** After a rollback it may pass for keys no reader of the log sees: a reset log refilled with
      one other key still answers for every key its first page used to hold. */
  lemma StaleKeysPassTheCheck(full: Logs, version: u32, a: Val, b: Val)
    requires a != b && Exact(full, version, [b, a])
    ensures var g := RegisteredAll(Reset(full, version), version, [b]);
            && g.Ok? && Covered(g.value, version) && a !in Visible(g.value, version)
            && IndexedCheck(g.value, version, [a]) == Ok(())
  {
    ResetLaw(full, version, [b, a], [b]);
    ContainsAfterReset(full, version, [b, a], [b], a);
    assert [b, a][..Min(PAGE_SIZE * PagesFor(1), 2)] == [b, a];
  }

  // ----- A run that ends in such a log -----

  /** A migration from version 1 to 2 that leaves every entry alone in both directions. */
  const INERT := Migration(1, 2, (k, e) => Visited(e, AlreadyCurrent), (k, e) => Visited(e, AlreadyCurrent), true)

  /** `b` is put and migrated, then `a` is registered late under version 1; the contract is rolled
      back. The old log then shows `b` alone, and the check still passes for `a`. */
  lemma StaleKeysAfterRollback(a: Val, b: Val, value: Val) returns (s: Snapshot)
    requires a != b
    ensures Reachable(s) && s.version == Some(1) && s.record.Some? && s.record.value.status.RolledBack?
    ensures Covered(s.logs, 1) && a !in Visible(s.logs, 1)
    ensures IndexedCheck(s.logs, 1, [a]) == Ok(())
  {
    var done := MigratedOne(b, value);
    ReachableStep(done, DoRegister(1, a));
    var late := Apply(done, DoRegister(1, a));
    RegisterAppends(done.logs, 1, [b], a);
    ReachableStep(late, DoRollbackBegin(INERT));
    var begun := Apply(late, DoRollbackBegin(INERT));
    assert begun.record == Some(MigrationState(1, 2, 0, 1, RollingBack)) && begun.logs == Reset(late.logs, 1);
    ReachableStep(begun, DoRollbackBatch(INERT, 1));
    s := Apply(begun, DoRollbackBatch(INERT, 1));
    RevertsOne(begun, b);
    StaleKeysPassTheCheck(late.logs, 1, a, b);
  }

  lemma PutOne(b: Val, value: Val) returns (s: Snapshot)
    ensures Reachable(s) && s.version == Some(1) && s.record == None
    ensures Exact(s.logs, 1, [b]) && Exact(s.logs, 2, [])
  {
    assert Run(EMPTY, []) == EMPTY && Exact(EMPTY.logs, 1, []) && Exact(EMPTY.logs, 2, []);
    ReachableStep(EMPTY, DoInitialize(1));
    var initialized := Apply(EMPTY, DoInitialize(1));
    assert initialized == EMPTY.(version := Some(1));
    ReachableStep(initialized, DoPut(b, value));
    s := Apply(initialized, DoPut(b, value));
    PutsFirst(initialized, b, value);
  }

  lemma PutsFirst(s: Snapshot, b: Val, value: Val)
    requires s.version == Some(1) && s.record == None && Exact(s.logs, 1, []) && Exact(s.logs, 2, [])
    ensures var after := Apply(s, DoPut(b, value));
            after.version == Some(1) && after.record == None && Exact(after.logs, 1, [b]) && Exact(after.logs, 2, [])
  {
    RegisterAppends(s.logs, 1, [], b);
    OtherLogExact(s.logs, 1, b, 2, []);
  }

  lemma MigratedOne(b: Val, value: Val) returns (s: Snapshot)
    ensures Reachable(s) && s.version == Some(2) && s.record == Some(MigrationState(1, 2, 1, 1, Completed))
    ensures Exact(s.logs, 1, [b]) && Exact(s.logs, 2, [b])
  {
    s := PutOne(b, value);
    ReachableStep(s, DoBegin(INERT));
    s := Apply(s, DoBegin(INERT));
    ReachableStep(s, DoBatch(INERT, 1));
    VisitsOne(s, b);
    s := Apply(s, DoBatch(INERT, 1));
  }

  lemma VisitsOne(s: Snapshot, b: Val)
    requires s.version == Some(1) && s.record == Some(MigrationState(1, 2, 0, 1, Running))
    requires Exact(s.logs, 1, [b]) && Exact(s.logs, 2, [])
    ensures var after := Apply(s, DoBatch(INERT, 1));
            && after.version == Some(2) && after.record == Some(MigrationState(1, 2, 1, 1, Completed))
            && Exact(after.logs, 1, [b]) && Exact(after.logs, 2, [b])
  {
    ExactIsVisible(s.logs, 1, [b]);
    RangeReadsVisible(s.logs, 1, 0, 1);
    assert Window([b], 0, 1) == [b];
    WindowVisited(s, INERT, 1, [b]);
    RegisterAppends(s.logs, 2, [], b);
    var w := WalksOne(INERT.up, 2, s, b);
    OtherLogExact(s.logs, 2, b, 1, [b]);
    assert BatchStep(s, INERT, 1) == Ok(Checkpoint(s, w, 1));
  }

  lemma OtherLogExact(g: Logs, version: u32, key: Val, other: u32, keys: seq<Val>)
    requires Registered(g, version, key).Ok? && other != version && Exact(g, other, keys)
    ensures Exact(Registered(g, version, key).value, other, keys)
  {}

  lemma RevertsOne(s: Snapshot, b: Val)
    requires s.version == Some(2) && s.record == Some(MigrationState(1, 2, 0, 1, RollingBack)) && Exact(s.logs, 2, [b])
    requires Len(s.logs, 1) == 0
    ensures var after := Apply(s, DoRollbackBatch(INERT, 1));
            && after.version == Some(1) && after.record == Some(MigrationState(1, 2, 1, 1, RolledBack))
            && Ok(after.logs) == RegisteredAll(s.logs, 1, [b])
  {
    var w := OneWindow(s, b);
    assert RollbackBatchStep(s, INERT, 1) == ReverseWindowStep(s, s.record.value, INERT, 1);
  }

  lemma OneWindow(s: Snapshot, b: Val) returns (w: Walk)
    requires s.record == Some(MigrationState(1, 2, 0, 1, RollingBack)) && Exact(s.logs, 2, [b]) && Len(s.logs, 1) == 0
    ensures w.tally == Tally(0, 1, 0) && Ok(w.logs) == RegisteredAll(s.logs, 1, [b])
    ensures ReverseWindowStep(s, s.record.value, INERT, 1) == Ok(ReverseCheckpoint(s, s.record.value, w, 1, 1))
  {
    ExactIsVisible(s.logs, 2, [b]);
    RangeReadsVisible(s.logs, 2, 0, 1);
    assert Window([b], 0, 1) == [b] && Reversed([b]) == [b];
    WindowReverted(s, s.record.value, INERT, 1, [b]);
    w := WalksOne(INERT.down, 1, s, b);
  }

  lemma WalksOne(visit: Visitor, target: u32, s: Snapshot, b: Val) returns (w: Walk)
    requires forall e :: visit(b, e) == Visited(e, AlreadyCurrent)
    requires Len(s.logs, target) < U32_MAX
    ensures Walked(visit, target, StartOf(s), [b]) == Ok(w)
    ensures w.tally == Tally(0, 1, 0)
            && Ok(w.logs) == Registered(s.logs, target, b) == RegisteredAll(s.logs, target, [b])
  {
    assert [b][..0] == [];
    assert Walked(visit, target, StartOf(s), []) == Ok(StartOf(s));
    w := Walked(visit, target, StartOf(s), [b]).value;
  }
}
