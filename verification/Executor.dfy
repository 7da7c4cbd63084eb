/** The forward executor (`executor.rs`): what each entry point commits, and the methods that
    compute it one key at a time. */
module Executor {
  import opened Host
  import opened KeyLog
  import opened Storage
  import Index
  import Version

  const MAX_KEYS_PER_BATCH: u32 := 150

  datatype Tally = Tally(migrated: nat, alreadyCurrent: nat, skipped: nat)

  /** The storage a walk has written so far. */
  datatype Walk = Walk(logs: Logs, entries: map<Val, Val>, tally: Tally)

  function Count(t: Tally, outcome: EntryOutcome): Tally {
    match outcome
    case Migrated => t.(migrated := t.migrated + 1)
    case AlreadyCurrent => t.(alreadyCurrent := t.alreadyCurrent + 1)
    case Skipped => t.(skipped := t.skipped + 1)
  }

  /** Visits `keys` in order, carrying each visited key into the log of `target`. The first
      refusal is the result of the whole walk. */
  function Walked(visit: Visitor, target: u32, start: Walk, keys: seq<Val>): (r: Result<Walk>)
    ensures r.Ok? && start.tally == Tally(0, 0, 0) ==>
      r.value.tally.migrated + r.value.tally.alreadyCurrent + r.value.tally.skipped == |keys|
  {
    if keys == [] then Ok(start) else
      match Walked(visit, target, start, keys[..|keys| - 1])
      case Err(e) => Err(e)
      case Ok(w) => WalkedOne(visit, target, w, keys[|keys| - 1])
  }

  function WalkedOne(visit: Visitor, target: u32, w: Walk, key: Val): Result<Walk> {
    match visit(key, Lookup(w.entries, key))
    case Refused(e) => Err(e)
    case Visited(entry, outcome) =>
      match Registered(w.logs, target, key)
      case Err(e) => Err(e)
      case Ok(logs) => Ok(Walk(logs, Stored(w.entries, key, entry), Count(w.tally, outcome)))
  }

  function StartOf(s: Snapshot): Walk {
    Walk(s.logs, s.entries, Tally(0, 0, 0))
  }

  /** A refusal part-way is the refusal of the whole walk. */
  lemma {:induction false} RefusalStops(visit: Visitor, target: u32, start: Walk, keys: seq<Val>, n: nat)
    requires n <= |keys| && Walked(visit, target, start, keys[..n]).Err?
    ensures Walked(visit, target, start, keys) == Walked(visit, target, start, keys[..n])
  {
    if n == |keys| {
      assert keys[..n] == keys;
    } else {
      var front := keys[..|keys| - 1];
      assert front[..n] == keys[..n];
      RefusalStops(visit, target, start, front, n);
    }
  }

  lemma WalkNext(visit: Visitor, target: u32, start: Walk, keys: seq<Val>, n: nat)
    requires n < |keys|
    ensures Walked(visit, target, start, keys[..n + 1])
         == match Walked(visit, target, start, keys[..n])
            case Err(e) => Err(e)
            case Ok(w) => WalkedOne(visit, target, w, keys[n])
  {
    assert keys[..n + 1][..n] == keys[..n];
  }

  /** One more key: the walk goes on behind it, or ends there as a whole. */
  lemma WalkTurn(visit: Visitor, target: u32, start: Walk, keys: seq<Val>, n: nat, here: Walk)
    requires n < |keys| && Walked(visit, target, start, keys[..n]) == Ok(here)
    ensures var turn := WalkedOne(visit, target, here, keys[n]);
            Walked(visit, target, start, if turn.Ok? then keys[..n + 1] else keys) == turn
  {
    WalkNext(visit, target, start, keys, n);
    if WalkedOne(visit, target, here, keys[n]).Err? {
      RefusalStops(visit, target, start, keys, n + 1);
    }
  }

  /** What the visits of a successful walk returned, in order. */
  ghost function Outcomes(visit: Visitor, target: u32, start: Walk, keys: seq<Val>): (out: seq<EntryOutcome>)
    requires Walked(visit, target, start, keys).Ok?
    ensures |out| == |keys|
  {
    if keys == [] then [] else
      var front := keys[..|keys| - 1];
      var w := Walked(visit, target, start, front).value;
      Outcomes(visit, target, start, front) + [visit(keys[|keys| - 1], Lookup(w.entries, keys[|keys| - 1])).outcome]
  }

  function TallyOf(out: seq<EntryOutcome>): Tally {
    Tally(multiset(out)[Migrated], multiset(out)[AlreadyCurrent], multiset(out)[Skipped])
  }

  lemma CountOne(out: seq<EntryOutcome>, o: EntryOutcome)
    ensures TallyOf(out + [o]) == Count(TallyOf(out), o)
  {}

  /** Each counter of a batch counts exactly the visits with its outcome. */
  lemma {:induction false} TallyCounts(visit: Visitor, target: u32, start: Walk, keys: seq<Val>)
    requires start.tally == Tally(0, 0, 0) && Walked(visit, target, start, keys).Ok?
    ensures Walked(visit, target, start, keys).value.tally == TallyOf(Outcomes(visit, target, start, keys))
  {
    if keys != [] {
      var n := |keys| - 1;
      TallyCounts(visit, target, start, keys[..n]);
      var w := Walked(visit, target, start, keys[..n]).value;
      CountOne(Outcomes(visit, target, start, keys[..n]), visit(keys[n], Lookup(w.entries, keys[n])).outcome);
    }
  }

  // ----- What the entry points commit -----

  function BeginStep(s: Snapshot, m: Migration): Attempt<MigrationState> {
    if m.to != SaturatingAdd(m.from, 1) then Err(NotSequential)
    else if Version.Gate(s.version, m.from).Err? then Err(Version.Gate(s.version, m.from).error)
    else if s.record.Some? && s.record.value.from == m.from && s.record.value.to == m.to then
      match s.record.value.status
      case Completed => Err(AlreadyCompleted)
      case Running => Ok((s, s.record.value))
      case RollingBack => Err(MigrationAlreadyActive)
      case RolledBack => Err(MigrationAlreadyActive)
    else if s.record.Some? && s.record.value.IsActive() then Err(WrongMigration)
    else
      var record := MigrationState(m.from, m.to, 0, Len(s.logs, m.from), Running);
      Ok((s.(record := Some(record)), record))
  }

  function FinishedOutcome(r: MigrationState): BatchOutcome {
    BatchOutcome(r.from, r.to, r.cursor, r.total, 0, 0, 0, 0, true)
  }

  /** Why a batch is refused before it reads anything, if it is. */
  function LimitGuard(limit: u32): Option<MigrationError> {
    if limit == 0 then Some(BatchSizeZero)
    else if limit > MAX_KEYS_PER_BATCH then Some(BatchTooLarge)
    else None
  }

  ghost function BatchStep(s: Snapshot, m: Migration, limit: u32): Attempt<BatchOutcome> {
    if LimitGuard(limit).Some? then Err(LimitGuard(limit).value)
    else if s.record.None? then Err(NoActiveMigration)
    else if s.record.value.from != m.from || s.record.value.to != m.to then Err(WrongMigration)
    else if s.record.value.status.Completed? then Ok((s, FinishedOutcome(s.record.value)))
    else if !s.record.value.status.Running? then Err(NoActiveMigration)
    else
      var window := Range(s.logs, m.from, s.record.value.cursor, limit);
      if window.Err? then Err(window.error)
      else BatchCommit(s, |window.value|, Walked(m.up, m.to, StartOf(s), window.value))
  }

  /** What comes of the walk: its refusal, or the checkpoint behind it. */
  ghost function BatchCommit(s: Snapshot, visited: int, walk: Result<Walk>): Attempt<BatchOutcome>
    requires s.record.Some? && 0 <= visited <= U32_MAX
    requires walk.Ok? ==>
               walk.value.tally.migrated + walk.value.tally.alreadyCurrent + walk.value.tally.skipped == visited
  {
    if walk.Err? then Err(walk.error) else Ok(Checkpoint(s, walk.value, visited))
  }

  /** Records a walk of `visited` keys: the cursor moves past them, the total absorbs keys
      registered meanwhile, and the version advances in the batch that catches up. */
  ghost function Checkpoint(s: Snapshot, w: Walk, visited: int): (Snapshot, BatchOutcome)
    requires s.record.Some? && 0 <= visited <= U32_MAX
    requires w.tally.migrated + w.tally.alreadyCurrent + w.tally.skipped == visited
  {
    var before := s.record.value;
    var cursor := SaturatingAdd(before.cursor, visited);
    var total: u32 := Max(before.total, Len(w.logs, before.from));
    var done := cursor >= total;
    var record := MigrationState(before.from, before.to, cursor, total, if done then Completed else Running);
    (Snapshot(if done then Some(before.to) else s.version, Some(record), w.logs, w.entries),
     BatchOutcome(before.from, before.to, cursor, total, visited,
                  w.tally.migrated, w.tally.alreadyCurrent, w.tally.skipped, done))
  }

  /** A running migration of the right pair: what lets a batch read its window. */
  predicate InFlight(s: Snapshot, m: Migration) {
    && s.record.Some? && s.record.value.status.Running?
    && s.record.value.from == m.from && s.record.value.to == m.to
  }

  /** A window that is read is visited by its walk. */
  lemma WindowVisited(s: Snapshot, m: Migration, limit: u32, keys: seq<Val>)
    requires InFlight(s, m) && LimitGuard(limit).None? && |keys| <= U32_MAX
    requires Range(s.logs, m.from, s.record.value.cursor, limit) == Ok(keys)
    ensures BatchStep(s, m, limit) == BatchCommit(s, |keys|, Walked(m.up, m.to, StartOf(s), keys))
  {}

  /** One batch of `m`, as a function of the storage it starts from. */
  ghost function Batches(m: Migration, limit: u32): Snapshot -> Attempt<BatchOutcome> {
    s => BatchStep(s, m, limit)
  }

  /** `batch` is what one batch of `m` computes. */
  ghost predicate Sends(batch: Snapshot -> Attempt<BatchOutcome>, m: Migration, limit: u32) {
    forall s {:trigger BatchStep(s, m, limit)} :: batch(s) == BatchStep(s, m, limit)
  }

  ghost function RunStep(s: Snapshot, m: Migration, limit: u32, maxBatches: u32): Attempt<seq<BatchOutcome>> {
    match BeginStep(s, m)
    case Err(e) => Err(e)
    case Ok(begun) => Repeated(Batches(m, limit), begun.0, maxBatches)
  }

  function AbortStep(s: Snapshot): Attempt<()> {
    if s.record.Some? && s.record.value.IsActive() then Ok((s.(record := None), ()))
    else Err(NoActiveMigration)
  }

  function ClearStep(s: Snapshot): Attempt<()> {
    if s.record.Some? && s.record.value.IsActive() then Err(MigrationNotComplete)
    else Ok((s.(record := None), ()))
  }

  // ----- The entry points -----

  method Begin(env: Env, m: Migration) returns (r: Result<MigrationState>)
    modifies env
    ensures r == Returned(BeginStep(old(env.View()), m))
    ensures env.View() == Committed(old(env.View()), BeginStep(old(env.View()), m))
  {
    if m.to != SaturatingAdd(m.from, 1) {
      return Err(NotSequential);
    }
    var gate := Version.Require(env, m.from);
    if gate.Err? {
      return Err(gate.error);
    }
    if env.record.Some? {
      var existing := env.record.value;
      if existing.from == m.from && existing.to == m.to {
        match existing.status {
          case Completed => return Err(AlreadyCompleted);
          case Running => return Ok(existing);
          case RollingBack => return Err(MigrationAlreadyActive);
          case RolledBack => return Err(MigrationAlreadyActive);
        }
      }
      if existing.IsActive() {
        return Err(WrongMigration);
      }
    }
    var total := if m.from in env.info then env.info[m.from].len else 0;
    var record := MigrationState(m.from, m.to, 0, total, Running);
    env.record := Some(record);
    r := Ok(record);
  }

  /** One batch as one transaction: a failure restores what the host saved. */
  method Batch(env: Env, m: Migration, limit: u32) returns (r: Result<BatchOutcome>)
    modifies env
    ensures r == Returned(BatchStep(old(env.View()), m, limit))
    ensures env.View() == Committed(old(env.View()), BatchStep(old(env.View()), m, limit))
  {
    var saved := env.View();
    r := ApplyBatch(env, m, limit);
    if r.Err? {
      env.Restore(saved);
    }
  }

  method ApplyBatch(env: Env, m: Migration, limit: u32) returns (r: Result<BatchOutcome>)
    modifies env
    ensures r == Returned(BatchStep(old(env.View()), m, limit))
    ensures r.Ok? ==> env.View() == Committed(old(env.View()), BatchStep(old(env.View()), m, limit))
  {
    ghost var s := env.View();
    if limit == 0 {
      return Err(BatchSizeZero);
    }
    if limit > MAX_KEYS_PER_BATCH {
      return Err(BatchTooLarge);
    }
    if env.record.None? {
      return Err(NoActiveMigration);
    }
    var state := env.record.value;
    if state.from != m.from || state.to != m.to {
      return Err(WrongMigration);
    }
    if state.status.Completed? {
      return Ok(FinishedOutcome(state));
    }
    if !state.status.Running? {
      return Err(NoActiveMigration);
    }

    var start := state.cursor;
    var window, _ := Index.ReadRange(env, m.from, start, limit);
    if window.Err? {
      return Err(window.error);
    }
    var keys := window.value;
    WindowVisited(s, m, limit, keys);

    var walk := VisitKeys(env, m, keys);
    if walk.Err? {
      return Err(walk.error);
    }
    var tally := walk.value;
    var visited := |keys|;

    state := state.(cursor := SaturatingAdd(start, visited));
    var observed := if m.from in env.info then env.info[m.from].len else 0;
    if observed > state.total {
      state := state.(total := observed);
    }
    var done := state.cursor >= state.total;
    if done {
      state := state.(status := Completed);
      env.version := Some(m.to);
    }
    env.record := Some(state);
    r := Ok(BatchOutcome(state.from, state.to, state.cursor, state.total,
                         visited, tally.migrated, tally.alreadyCurrent, tally.skipped, done));
  }

  /** One turn of a batch's loop: apply `up` at a key, carry the key into the new log. */
  method VisitKey(env: Env, m: Migration, key: Val, tally: Tally) returns (r: Result<Tally>)
    modifies env
    ensures match WalkedOne(m.up, m.to, Walk(old(env.View()).logs, old(env.entries), tally), key)
            case Ok(w) => r == Ok(w.tally) && env.View() == old(env.View()).(logs := w.logs, entries := w.entries)
            case Err(e) => r == Err(e)
  {
    var outcome := m.up(key, Lookup(env.entries, key));
    if outcome.Refused? {
      return Err(outcome.error);
    }
    env.entries := Stored(env.entries, key, outcome.entry);
    var carried := Index.Register(env, m.to, key);
    if carried.Err? {
      return Err(carried.error);
    }
    r := Ok(Count(tally, outcome.outcome));
  }

  /** The loop of a batch. */
  method VisitKeys(env: Env, m: Migration, keys: seq<Val>) returns (r: Result<Tally>)
    modifies env
    ensures match Walked(m.up, m.to, StartOf(old(env.View())), keys)
            case Ok(w) => r == Ok(w.tally) && env.View() == old(env.View()).(logs := w.logs, entries := w.entries)
            case Err(e) => r == Err(e)
  {
    ghost var s := env.View();
    var tally := Tally(0, 0, 0);
    var i := 0;
    while i < |keys|
      invariant 0 <= i <= |keys|
      invariant Walked(m.up, m.to, StartOf(s), keys[..i]) == Ok(Walk(env.View().logs, env.entries, tally))
      invariant env.version == s.version && env.record == s.record
    {
      WalkTurn(m.up, m.to, StartOf(s), keys, i, Walk(env.View().logs, env.entries, tally));
      var next := VisitKey(env, m, keys[i], tally);
      if next.Err? {
        return next;
      }
      tally := next.value;
      i := i + 1;
    }
    assert keys[..i] == keys;
    r := Ok(tally);
  }

  method RunToCompletion(env: Env, m: Migration, limit: u32, maxBatches: u32) returns (r: Result<seq<BatchOutcome>>)
    modifies env
    ensures r == Returned(RunStep(old(env.View()), m, limit, maxBatches))
    ensures env.View() == Committed(old(env.View()), RunStep(old(env.View()), m, limit, maxBatches))
  {
    var saved := env.View();
    r := ApplyRun(env, m, limit, maxBatches);
    if r.Err? {
      env.Restore(saved);
    }
  }

  method ApplyRun(env: Env, m: Migration, limit: u32, maxBatches: u32) returns (r: Result<seq<BatchOutcome>>)
    modifies env
    ensures r == Returned(RunStep(old(env.View()), m, limit, maxBatches))
    ensures r.Ok? ==> env.View() == Committed(old(env.View()), RunStep(old(env.View()), m, limit, maxBatches))
  {
    var begun := Begin(env, m);
    if begun.Err? {
      return Err(begun.error);
    }
    r := RunBatches(env, m, limit, maxBatches, Batches(m, limit));
  }

  method RunBatches(env: Env, m: Migration, limit: u32, maxBatches: u32, ghost step: Snapshot -> Attempt<BatchOutcome>)
    returns (r: Result<seq<BatchOutcome>>)
    requires Sends(step, m, limit)
    modifies env
    ensures r == Returned(Repeated(step, old(env.View()), maxBatches))
    ensures r.Ok? ==> env.View() == Committed(old(env.View()), Repeated(step, old(env.View()), maxBatches))
  {
    ghost var all := Repeated(step, env.View(), maxBatches);
    var out: seq<BatchOutcome> := [];
    var n := 0;
    assert all == Prefixed(out, all) by {
      assert all.Ok? ==> [] + all.value.1 == all.value.1;
    }
    while n < maxBatches
      invariant 0 <= n <= maxBatches
      invariant all == Prefixed(out, Repeated(step, env.View(), maxBatches - n))
    {
      RepeatedNext(step, all, out, env.View(), maxBatches - n);
      var outcome := ApplyBatch(env, m, limit);
      if outcome.Err? {
        return Err(outcome.error);
      }
      out := out + [outcome.value];
      if outcome.value.done {
        return Ok(out);
      }
      n := n + 1;
    }
    RepeatedNext(step, all, out, env.View(), 0);
    r := Ok(out);
  }

  method Abort(env: Env) returns (r: Result<()>)
    modifies env
    ensures r == Returned(AbortStep(old(env.View())))
    ensures env.View() == Committed(old(env.View()), AbortStep(old(env.View())))
  {
    if env.record.None? || !env.record.value.IsActive() {
      return Err(NoActiveMigration);
    }
    env.record := None;
    r := Ok(());
  }

  method Clear(env: Env) returns (r: Result<()>)
    modifies env
    ensures r == Returned(ClearStep(old(env.View())))
    ensures env.View() == Committed(old(env.View()), ClearStep(old(env.View())))
  {
    if env.record.Some? && env.record.value.IsActive() {
      return Err(MigrationNotComplete);
    }
    env.record := None;
    r := Ok(());
  }
}
