/** What each entry point answers, on any storage the framework can be in: exactly when it goes
    ahead, what the caller is told when it does not, and who may touch a record. */
module Answers {
  import opened Host
  import opened KeyLog
  import opened Storage
  import opened Executor
  import opened Rollback
  import opened Protocol
  import opened Counting
  import opened Coverage
  import opened RoundTrip
  import opened Termination
  import opened Version

  // ----- Versions -----

  /** `initialize` may be repeated with the version it was given, and with no other. */
  lemma InitializeAnswers(s: Snapshot, version: u32)
    ensures InitializeStep(s, version).Ok? <==> version != 0 && (s.version.None? || s.version == Some(version))
    ensures InitializeStep(s, version) == Err(InvalidVersion) <==> version == 0
    ensures InitializeStep(s, version) == Err(VersionMismatch) <==>
              version != 0 && s.version.Some? && s.version != Some(version)
    ensures InitializeStep(s, version).Ok? ==>
              var (after, current) := InitializeStep(s, version).value;
              && current == version && after == s.(version := Some(version))
              && InitializeStep(after, version) == Ok((after, version))
  {}

  /** `adopt` overrules whatever version is stored, but never a migration under way. */
  lemma AdoptAnswers(s: Snapshot, version: u32)
    ensures AdoptStep(s, version).Ok? <==> version != 0 && !UnderWay(s)
    ensures AdoptStep(s, version).Ok? ==> AdoptStep(s, version).value == (s.(version := Some(version)), version)
    ensures AdoptStep(s, version) == Err(InvalidVersion) <==> version == 0
    ensures AdoptStep(s, version) == Err(MigrationAlreadyActive) <==> version != 0 && UnderWay(s)
  {}

  predicate UnderWay(s: Snapshot) {
    s.record.Some? && (s.record.value.status.Running? || s.record.value.status.RollingBack?)
  }

  /** The stored version is never zero. */
  lemma {:induction false} VersionIsNeverZero(actions: seq<Action>)
    ensures Run(EMPTY, actions).version != Some(0)
    ensures var r := Run(EMPTY, actions).record; r.Some? ==> r.value.from > 0 && r.value.to > 0
  {
    if actions != [] {
      var n := |actions| - 1;
      VersionIsNeverZero(actions[..n]);
      NonZeroStep(Run(EMPTY, actions[..n]), actions[n]);
    }
  }

  ghost predicate NonZero(s: Snapshot) {
    s.version != Some(0) && (s.record.Some? ==> s.record.value.from > 0 && s.record.value.to > 0)
  }

  lemma NonZeroStep(s: Snapshot, a: Action)
    requires NonZero(s)
    ensures NonZero(Apply(s, a))
  {
    if a.DoRollbackBatch? && RollbackBatchStep(s, a.m, a.limit).Ok? && s.record.value.status.RollingBack? {
      NonZeroWindow(s, s.record.value, a.m, a.limit);
    }
  }

  lemma NonZeroWindow(s: Snapshot, r: MigrationState, m: Migration, limit: u32)
    requires NonZero(s) && s.record == Some(r) && ReverseWindowStep(s, r, m, limit).Ok?
    ensures NonZero(ReverseWindowStep(s, r, m, limit).value.0)
  {
    var end := ReverseEnd(r, limit);
    var keys := Range(s.logs, m.to, r.total - end, end - r.cursor).value;
    var w := ReversedWalk(s, r, m, limit, keys);
  }

  /** The version whose shape a write has to have: the target while a forward migration runs,
      otherwise the stored version, during a rollback too; the first if none is stored. */
  function WrittenVersion(s: Snapshot): u32 {
    match s.record
    case Some(MigrationState(_, to, _, _, Running)) => to
    case _ => match s.version case Some(v) => v case None => 1
  }

  /** Registering lengthens one log by one and adds the key behind one of its pages. */
  ghost predicate RegistersOne(before: Logs, after: Logs, version: u32, key: Val) {
    && (forall v: u32 :: Len(after, v) == Len(before, v) + if v == version then 1 else 0)
    && (forall v: u32, p: u32 ::
          Page(after, v, p)
          == if v == version && p == Len(before, v) / PAGE_SIZE then Page(before, v, p) + [key] else Page(before, v, p))
  }

  lemma RegisteredIsLogged(g: Logs, version: u32, key: Val)
    requires Registered(g, version, key).Ok?
    ensures RegistersOne(g, Registered(g, version, key).value, version, key)
  {}

  /** A write leaves its value at its key and its key on the last page of that version's log, and
      nothing else anywhere. If the log was never reset, the key is the log's last. */
  lemma PutIsLogged(s: Snapshot, key: Val, value: Val)
    requires PutStep(s, key, value).Ok?
    ensures var after := PutStep(s, key, value).value.0;
            && (forall k :: Lookup(after.entries, k) == if k == key then Some(value) else Lookup(s.entries, k))
            && after.version == s.version && after.record == s.record
            && RegistersOne(s.logs, after.logs, WrittenVersion(s), key)
    ensures forall log :: Exact(s.logs, WrittenVersion(s), log) ==>
              Exact(PutStep(s, key, value).value.0.logs, WrittenVersion(s), log + [key])
  {
    RegisteredIsLogged(s.logs, CurrentVersion(s), key);
    forall log | Exact(s.logs, WrittenVersion(s), log)
      ensures Exact(PutStep(s, key, value).value.0.logs, WrittenVersion(s), log + [key]) {
      RegisterAppends(s.logs, WrittenVersion(s), log, key);
    }
  }

  /** It is refused only when that log is full. */
  lemma PutRefusedIff(s: Snapshot, key: Val, value: Val)
    ensures PutStep(s, key, value) == Err(Trap) <==> Len(s.logs, WrittenVersion(s)) == U32_MAX
    ensures PutStep(s, key, value).Ok? <==> Len(s.logs, WrittenVersion(s)) < U32_MAX
  {}

  // ----- Forward -----

  /** The record of the migration from `from`, if that is what the record is about. */
  function RecordFrom(s: Snapshot, from: u32): Option<MigrationState> {
    if s.record.Some? && s.record.value.from == from then s.record else None
  }

  predicate OneStep(m: Migration) {
    m.to == SaturatingAdd(m.from, 1)
  }

  /** The rollback of another migration is under way: what still refuses a `begin` at the right
      version. */
  predicate OtherRollback(s: Snapshot, m: Migration) {
    s.record.Some? && s.record.value.status.RollingBack? && s.record.value.from != m.from
  }

  /** When `begin` goes ahead, and which refusal means what. */
  lemma BeginAnswers(s: Snapshot, m: Migration)
    requires Sound(s)
    ensures var at, mine := OneStep(m) && s.version == Some(m.from), RecordFrom(s, m.from);
            && (BeginStep(s, m).Ok? <==>
                  at && (mine.None? || mine.value.status.Running?) && !OtherRollback(s, m))
            && (BeginStep(s, m) == Err(AlreadyCompleted) <==> at && mine.Some? && mine.value.status.Completed?)
            && (BeginStep(s, m) == Err(MigrationAlreadyActive) <==>
                  at && mine.Some? && (mine.value.status.RolledBack? || mine.value.status.RollingBack?))
            && (BeginStep(s, m) == Err(WrongMigration) <==> at && OtherRollback(s, m))
    ensures BeginStep(s, m) == Err(NotSequential) <==> !OneStep(m)
    ensures BeginStep(s, m) == Err(NotInitialized) <==> OneStep(m) && s.version.None?
    ensures BeginStep(s, m) == Err(StateNewerThanContract) <==>
              OneStep(m) && s.version.Some? && s.version.value > m.from
    ensures BeginStep(s, m) == Err(VersionMismatch) <==>
              OneStep(m) && s.version.Some? && s.version.value < m.from
  {}

  /** It resumes a run where it stands and starts any other at the first key of the log. */
  lemma BeginStarts(s: Snapshot, m: Migration)
    requires Sound(s) && BeginStep(s, m).Ok?
    ensures var (after, r) := BeginStep(s, m).value;
            && after.record == Some(r) && after == s.(record := after.record)
            && (RecordFrom(s, m.from).Some? ==> s.record == Some(r))
            && (RecordFrom(s, m.from).None? ==>
                  r == MigrationState(m.from, m.to, 0, Len(s.logs, m.from), Running))
  {}

  /** A batch that visits nothing because there is nothing left to do. */
  ghost predicate Finished(s: Snapshot, r: MigrationState, attempt: Attempt<BatchOutcome>) {
    attempt.Ok?
    && attempt.value == (s, BatchOutcome(r.from, r.to, r.cursor, r.total, 0, 0, 0, 0, true))
  }

  /** What a batch answers before it reads anything: a limit of zero or above the maximum, no
      migration, another one, or one that is not running is refused; a completed one is reported
      done again, with nothing visited and the storage unchanged. */
  lemma BatchAnswers(s: Snapshot, m: Migration, limit: u32)
    ensures limit == 0 ==> BatchStep(s, m, limit) == Err(BatchSizeZero)
    ensures limit > 150 ==> BatchStep(s, m, limit) == Err(BatchTooLarge)
    ensures 0 < limit <= 150 ==>
              match s.record
              case None => BatchStep(s, m, limit) == Err(NoActiveMigration)
              case Some(r) =>
                if r.from != m.from || r.to != m.to then BatchStep(s, m, limit) == Err(WrongMigration)
                else match r.status
                  case Completed => Finished(s, r, BatchStep(s, m, limit))
                  case Running => true
                  case _ => BatchStep(s, m, limit) == Err(NoActiveMigration)
  {}

  /** Under a limit of zero no number of batches is enough: none is predicted and none commits. */
  lemma ZeroLimit(s: Snapshot, m: Migration, n: nat)
    ensures TransactionsNeeded(n, 0) == 0
    ensures BatchStep(s, m, 0) == Err(BatchSizeZero) == RollbackBatchStep(s, m, 0)
  {}

  lemma {:induction false} WalkFails(visit: Visitor, target: u32, start: Walk, keys: seq<Val>, e: MigrationError)
    requires SoundLogs(start.logs) && Walked(visit, target, start, keys) == Err(e)
    ensures Returns(visit, e) || (e.Trap? && Len(start.logs, target) + |keys| > U32_MAX)
  {
    if keys != [] {
      var n := |keys| - 1;
      if Walked(visit, target, start, keys[..n]).Err? {
        WalkFails(visit, target, start, keys[..n], e);
      } else {
        WalkSound(visit, target, start, keys[..n]);
      }
    }
  }

  /** A batch of the migration in flight, of an admissible size, fails only if the migration
      refuses or traps, or the target log cannot take the keys. It visits as many keys as it was
      allowed, or as are left. */
  lemma BatchOfRunning(s: Snapshot, m: Migration, limit: u32)
    requires Sound(s) && InFlight(s, m) && 0 < limit <= 150
    ensures var window := Min(limit, Len(s.logs, m.from) - s.record.value.cursor);
            match BatchStep(s, m, limit)
            case Ok(done) => done.1.visited == window
            case Err(e) => Returns(m.up, e) || (e.Trap? && Len(s.logs, m.to) + window > U32_MAX)
  {
    assert Covered(s.logs, m.from);
    var log, c := Visible(s.logs, m.from), s.record.value.cursor;
    var keys := Window(log, c, limit);
    WindowIs(log, c, limit);
    RangeReadsVisible(s.logs, m.from, c, limit);
    WindowVisited(s, m, limit, keys);
    if BatchStep(s, m, limit).Err? {
      WalkFails(m.up, m.to, StartOf(s), keys, BatchStep(s, m, limit).error);
    }
  }

  /** The counters of an outcome are how often visiting these keys one after the other gave each
      answer. */
  ghost predicate CountsVisits(o: BatchOutcome, visit: Visitor, target: u32, s: Snapshot, keys: seq<Val>) {
    && o.visited == |keys| && Walked(visit, target, StartOf(s), keys).Ok?
    && var answers := multiset(Outcomes(visit, target, StartOf(s), keys));
    && o.migrated == answers[Migrated] && o.alreadyCurrent == answers[AlreadyCurrent] && o.skipped == answers[Skipped]
  }

  /** What a committed batch reports is what its visits answered. */
  lemma BatchCounts(s: Snapshot, m: Migration, limit: u32) returns (keys: seq<Val>)
    requires Sound(s) && s.record.Some? && s.record.value.status.Running? && BatchStep(s, m, limit).Ok?
    ensures var c := s.record.value.cursor;
            Covered(s.logs, m.from) && c + |keys| <= Len(s.logs, m.from)
            && keys == Visible(s.logs, m.from)[c..c + |keys|]
    ensures CountsVisits(BatchStep(s, m, limit).value.1, m.up, m.to, s, keys)
  {
    var w;
    keys, w := BatchWalk(s, m, limit);
    assert Covered(s.logs, m.from);
    TallyCounts(m.up, m.to, StartOf(s), keys);
  }

  // ----- Backward -----

  /** When a rollback may begin, and which refusal means what. */
  lemma RollbackBeginAnswers(s: Snapshot, m: Migration)
    requires Sound(s)
    ensures var may, mine := OneStep(m) && m.supportsDown, RecordFrom(s, m.from);
            var finished := may && mine.Some? && mine.value.status.Completed?;
            && (RollbackBeginStep(s, m).Ok? <==>
                  may && mine.Some?
                  && (mine.value.status.RollingBack? || (mine.value.status.Completed? && s.version == Some(m.to))))
            && (RollbackBeginStep(s, m) == Err(NoActiveMigration) <==> may && s.record.None?)
            && (RollbackBeginStep(s, m) == Err(WrongMigration) <==> may && s.record.Some? && mine.None?)
            && (RollbackBeginStep(s, m) == Err(MigrationNotComplete) <==>
                  may && mine.Some? && (mine.value.status.Running? || mine.value.status.RolledBack?))
            && (RollbackBeginStep(s, m) == Err(NotInitialized) <==> finished && s.version.None?)
            && (RollbackBeginStep(s, m) == Err(StateNewerThanContract) <==>
                  finished && s.version.Some? && s.version.value > m.to)
            && (RollbackBeginStep(s, m) == Err(VersionMismatch) <==>
                  finished && s.version.Some? && s.version.value < m.to)
    ensures RollbackBeginStep(s, m) == Err(NotSequential) <==> !OneStep(m)
    ensures RollbackBeginStep(s, m) == Err(DownNotSupported) <==> OneStep(m) && !m.supportsDown
  {}

  /** It resumes a rollback where it stands; a fresh one pins the length of the new log and empties
      the old one, and changes nothing else. */
  lemma RollbackBeginStarts(s: Snapshot, m: Migration)
    requires Sound(s) && m.from < U32_MAX && RollbackBeginStep(s, m).Ok?
    ensures var (after, r) := RollbackBeginStep(s, m).value;
            && after.record == Some(r) && after.version == s.version && after.entries == s.entries
            && after.logs.pages == s.logs.pages
            && if s.record.value.status.RollingBack? then after == s && s.record == Some(r)
               else && r == MigrationState(m.from, m.from + 1, 0, Len(s.logs, m.to), RollingBack)
                    && forall v: u32 :: Len(after.logs, v) == if v == m.from then 0 else Len(s.logs, v)
  {}

  /** What a rollback batch answers before it reads anything. */
  lemma RollbackBatchAnswers(s: Snapshot, m: Migration, limit: u32)
    ensures limit == 0 ==> RollbackBatchStep(s, m, limit) == Err(BatchSizeZero)
    ensures limit > 150 ==> RollbackBatchStep(s, m, limit) == Err(BatchTooLarge)
    ensures 0 < limit <= 150 ==>
              match s.record
              case None => RollbackBatchStep(s, m, limit) == Err(NoActiveMigration)
              case Some(r) =>
                if r.from != m.from || r.to != m.to then RollbackBatchStep(s, m, limit) == Err(WrongMigration)
                else match r.status
                  case RolledBack => Finished(s, r, RollbackBatchStep(s, m, limit))
                  case RollingBack =>
                    Len(s.logs, m.to) > r.total ==> RollbackBatchStep(s, m, limit) == Err(OrphanedEntries)
                  case _ => RollbackBatchStep(s, m, limit) == Err(NoActiveMigration)
  {}

  /** A rollback batch over the log as pinned fails only if `down` refuses or traps, or the old log
      cannot take the keys. It reverts as many keys as it was allowed, or as are left. */
  lemma RollbackBatchOfRolling(s: Snapshot, m: Migration, limit: u32)
    requires Sound(s) && s.record.Some? && s.record.value.status.RollingBack? && m.from < U32_MAX
    requires s.record.value.from == m.from && s.record.value.to == m.to && 0 < limit <= 150
    requires Len(s.logs, m.to) == s.record.value.total
    ensures var window := Min(limit, s.record.value.total - s.record.value.cursor);
            match RollbackBatchStep(s, m, limit)
            case Ok(done) => done.1.visited == window
            case Err(e) => Returns(m.down, e) || (e.Trap? && Len(s.logs, m.from) + window > U32_MAX)
  {
    ReverseWindowStepEffect(s, m, limit);
    PinnedBatch(s, m, limit);
    if ReverseWalk(s, m, limit).Err? {
      WalkFails(m.down, m.from, StartOf(s), Reversed(ReverseWindow(s, m, limit)), ReverseWalk(s, m, limit).error);
    }
  }

  lemma PinnedBatch(s: Snapshot, m: Migration, limit: u32)
    requires s.record.Some? && s.record.value.status.RollingBack?
    requires s.record.value.from == m.from && s.record.value.to == m.to && 0 < limit <= 150
    requires Len(s.logs, m.to) <= s.record.value.total
    ensures RollbackBatchStep(s, m, limit) == ReverseWindowStep(s, s.record.value, m, limit)
  {}

  /** And it reports what its visits answered, newest key first. */
  lemma RollbackBatchCounts(s: Snapshot, m: Migration, limit: u32)
    requires Sound(s) && s.record.Some? && s.record.value.status.RollingBack? && s.record.value.from < U32_MAX
    requires RollbackBatchStep(s, m, limit).Ok? && s.record.value.to == m.to
    ensures CountsVisits(RollbackBatchStep(s, m, limit).value.1, m.down, m.from, s,
                         Reversed(ReverseWindow(s, m, limit)))
  {
    RollbackBatchEffect(s, m, limit);
    TallyCounts(m.down, m.from, StartOf(s), Reversed(ReverseWindow(s, m, limit)));
  }

  // ----- Who may touch a record -----

  /** On any storage exactly one of `abort` and `clear` goes ahead — `abort` if a migration is under
      way, `clear` if none is — and drops the record and nothing else. */
  lemma AbortOrClear(s: Snapshot)
    ensures AbortStep(s) == if UnderWay(s) then Ok((s.(record := None), ())) else Err(NoActiveMigration)
    ensures ClearStep(s) == if UnderWay(s) then Err(MigrationNotComplete) else Ok((s.(record := None), ()))
  {}

  /** The steps that may change a record in the state it is in. */
  ghost predicate MayTouch(r: MigrationState, a: Action) {
    match r.status
    case Running => a.DoAbort? || (a.DoBatch? && a.m.from == r.from && a.m.to == r.to)
    case RollingBack => a.DoAbort? || (a.DoRollbackBatch? && a.m.from == r.from && a.m.to == r.to)
    case Completed =>
      || a.DoClear? || (a.DoBegin? && a.m.from != r.from)
      || (a.DoRollbackBegin? && a.m.from == r.from && a.m.to == r.to)
    case RolledBack => a.DoClear? || (a.DoBegin? && a.m.from != r.from)
  }

  /** No invocation for another migration disturbs one under way, and a finished record stays until
      it is cleared, another migration begins, or its own rollback does. */
  lemma RecordMoves(s: Snapshot, a: Action)
    requires Sound(s) && s.record.Some? && Apply(s, a).record != s.record
    ensures MayTouch(s.record.value, a)
  {}

  // ----- Writes during a rollback -----

  /** A write during a rollback is kept and logged under the version being undone, so no batch of
      that rollback commits any more, whatever happens short of an abort: an entry written in the
      new shape is never left behind by a rollback that completes. */
  lemma WriteStopsRollback(s: Snapshot, key: Val, value: Val, actions: seq<Action>, m: Migration, limit: u32)
    requires Sound(s) && s.record.Some? && s.record.value.status.RollingBack? && s.record.value.from < U32_MAX
    requires PutStep(s, key, value).Ok? && forall a :: a in actions ==> !a.DoAbort?
    ensures var to, written := s.record.value.to, Apply(s, DoPut(key, value));
            && Lookup(written.entries, key) == Some(value)
            && Len(written.logs, to) == Len(s.logs, to) + 1
            && Page(written.logs, to, Len(s.logs, to) / PAGE_SIZE)
               == Page(s.logs, to, Len(s.logs, to) / PAGE_SIZE) + [key]
    ensures var after := Run(Apply(s, DoPut(key, value)), actions);
            && after.record == s.record && after.version == s.version
            && RollbackBatchStep(after, m, limit).Err?
            && (m.from == s.record.value.from && m.to == s.record.value.to && 0 < limit <= 150 ==>
                  RollbackBatchStep(after, m, limit) == Err(OrphanedEntries))
  {
    var written := Apply(s, DoPut(key, value));
    PutIsLogged(s, key, value);
    StepKeepsSound(s, DoPut(key, value));
    GrownLogBlocksRollback(written, actions);
    GrownLogRefuses(Run(written, actions), m, limit);
  }

  lemma GrownLogRefuses(s: Snapshot, m: Migration, limit: u32)
    requires s.record.Some? && s.record.value.status.RollingBack?
    requires Len(s.logs, s.record.value.to) > s.record.value.total
    ensures RollbackBatchStep(s, m, limit).Err?
    ensures m.from == s.record.value.from && m.to == s.record.value.to && 0 < limit <= 150 ==>
              RollbackBatchStep(s, m, limit) == Err(OrphanedEntries)
  {}

  // ----- Migrations without `down` -----

  /** No rollback has begun, and no log has been reset. */
  ghost predicate NeverRolledBack(s: Snapshot) {
    && Sound(s) && NeverReset(s.logs)
    && !(s.record.Some? && (s.record.value.status.RollingBack? || s.record.value.status.RolledBack?))
  }

  lemma NeverRolledBackStep(s: Snapshot, a: Action)
    requires NeverRolledBack(s) && (a.DoRollbackBegin? ==> !a.m.supportsDown)
    ensures NeverRolledBack(Apply(s, a))
    ensures a.DoRollbackBegin? || a.DoRollbackBatch? ==> Apply(s, a) == s
  {
    StepKeepsSound(s, a);
    match a
    case DoPut(key, value) =>
      if PutStep(s, key, value).Ok? { RegisterHolds(s.logs, CurrentVersion(s), key); }
    case DoRegister(version, key) =>
      if Registered(s.logs, version, key).Ok? { RegisterHolds(s.logs, version, key); }
    case DoBatch(m, limit) =>
      if BatchStep(s, m, limit).Ok? && s.record.value.status.Running? {
        var keys, w := BatchWalk(s, m, limit);
        WalkHolds(m.up, m.to, StartOf(s), keys);
      }
    case _ =>
  }

  /** A migration that declares no `down` is never undone: if rollbacks are only ever asked for such
      migrations, none begins, none of its batches changes anything, and every log is exactly what
      was registered. */
  lemma {:induction false} NoDownNoRollback(actions: seq<Action>, a: Action)
    requires forall x :: x in actions + [a] && x.DoRollbackBegin? ==> !x.m.supportsDown
    ensures NeverRolledBack(Run(EMPTY, actions))
    ensures a.DoRollbackBegin? || a.DoRollbackBatch? ==> Apply(Run(EMPTY, actions), a) == Run(EMPTY, actions)
  {
    if actions != [] {
      var n := |actions| - 1;
      assert actions == actions[..n] + [actions[n]];
      NoDownNoRollback(actions[..n], actions[n]);
      NeverRolledBackStep(Run(EMPTY, actions[..n]), actions[n]);
    }
    NeverRolledBackStep(Run(EMPTY, actions), a);
  }
}
