/** A contract's storage as the framework sees it (`migration.rs`, `key.rs`): the schema
    version, one migration record, the paged key logs and the application's entries. */
module Storage {
  import opened Host
  import opened KeyLog

  datatype MigrationStatus = Running | Completed | RollingBack | RolledBack

  datatype MigrationState = MigrationState(
    from: u32, to: u32, cursor: u32, total: u32, status: MigrationStatus)
  {
    predicate IsActive() {
      status.Running? || status.RollingBack?
    }
  }

  datatype EntryOutcome = Migrated | AlreadyCurrent | Skipped

  datatype BatchOutcome = BatchOutcome(
    from: u32, to: u32, cursor: u32, total: u32,
    visited: u32, migrated: u32, alreadyCurrent: u32, skipped: u32, done: bool)

  /** What `up` or `down` does at one key: the entry it leaves there, or a refusal that aborts
      the batch. A visitor sees and changes the entry at its own key only. */
  datatype Visit = Visited(entry: Option<Val>, outcome: EntryOutcome) | Refused(error: MigrationError)

  type Visitor = (Val, Option<Val>) -> Visit

  datatype Migration = Migration(from: u32, to: u32, up: Visitor, down: Visitor, supportsDown: bool)

  /** The whole storage as one value. */
  datatype Snapshot = Snapshot(
    version: Option<u32>, record: Option<MigrationState>, logs: Logs, entries: map<Val, Val>)

  /** What an invocation computes: the storage it wants to commit and its return value, or the
      error that makes the host discard every write. */
  type Attempt<+T> = Result<(Snapshot, T)>

  function Committed<T>(before: Snapshot, attempt: Attempt<T>): Snapshot {
    match attempt
    case Ok(done) => done.0
    case Err(_) => before
  }

  function Returned<T>(attempt: Attempt<T>): Result<T> {
    match attempt
    case Ok(done) => Ok(done.1)
    case Err(error) => Err(error)
  }

  /** Up to `count` batches in one invocation, stopping after the first that reports `done`. */
  ghost function Repeated(batch: Snapshot -> Attempt<BatchOutcome>, s: Snapshot, count: nat): Attempt<seq<BatchOutcome>>
    decreases count
  {
    if count == 0 then Ok((s, [])) else
      match batch(s)
      case Err(e) => Err(e)
      case Ok(first) =>
        if first.1.done then Ok((first.0, [first.1]))
        else Prefixed([first.1], Repeated(batch, first.0, count - 1))
  }

  ghost function Prefixed(out: seq<BatchOutcome>, rest: Attempt<seq<BatchOutcome>>): Attempt<seq<BatchOutcome>> {
    match rest
    case Err(e) => Err(e)
    case Ok(r) => Ok((r.0, out + r.1))
  }

  lemma RepeatedNext(batch: Snapshot -> Attempt<BatchOutcome>, all: Attempt<seq<BatchOutcome>>,
                     out: seq<BatchOutcome>, here: Snapshot, count: nat)
    requires all == Prefixed(out, Repeated(batch, here, count))
    ensures count == 0 ==> all == Ok((here, out))
    ensures count > 0 ==>
              match batch(here)
              case Err(e) => all == Err(e)
              case Ok(next) =>
                if next.1.done then all == Ok((next.0, out + [next.1]))
                else all == Prefixed(out + [next.1], Repeated(batch, next.0, count - 1))
  {
    if count == 0 {
      assert out + [] == out;
    } else if batch(here).Ok? && !batch(here).value.1.done {
      var next := batch(here).value;
      var rest := Repeated(batch, next.0, count - 1);
      if rest.Ok? {
        assert out + ([next.1] + rest.value.1) == (out + [next.1]) + rest.value.1;
      }
    }
  }

  class Env {
    var version: Option<u32>
    var record: Option<MigrationState>
    var info: map<u32, KeyIndexInfo>
    var pages: map<(u32, u32), seq<Val>>
    var entries: map<Val, Val>

    function View(): Snapshot
      reads this
    {
      Snapshot(version, record, Logs(info, pages), entries)
    }

    /** The host's rollback of a failed invocation. */
    method Restore(saved: Snapshot)
      modifies this
      ensures View() == saved
    {
      version, record := saved.version, saved.record;
      info, pages := saved.logs.info, saved.logs.pages;
      entries := saved.entries;
    }
  }
}
