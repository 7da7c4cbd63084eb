# soroban-migrate in Dafny

A model of the Soroban storage-migration framework and the properties that make an upgrade
safe. It has two halves.

**The on-chain protocol.** A contract holds a schema version, one migration record, a paged
append-only key log per version, and its entries. `begin` and `batch` walk the log of the old
version upwards, applying `up` to each entry and carrying each key into the log of the new
version; the batch that catches up advances the version. A rollback walks the new log downwards,
applying `down` and rebuilding the old log. Application writes interleave. Each invocation is a
transaction.

- `Host`, `KeyLog`, `Storage`: 32-bit arithmetic, values, the paged log as a value, and `Env`, the
  class whose fields are the contract's storage.
- `Index`, `Version`, `Executor`, `Rollback`, `Preflight`: the entry points as methods on `Env`,
  each equal to a step function on storage snapshots.
- `Protocol`: all single-step entry points and application writes as one step relation, the
  invariant of every reachable storage, and one-invocation runs as sequences of those steps.
- `Answers`: for each entry point, on every sound storage, exactly when it goes ahead and what each
  refusal means; who may touch a record; what a write during a rollback does.
- `Forward`, `Coverage`, `RoundTrip`, `Counting`, `Termination`, `DryRun`: properties of whole runs.
  `up` and `down` are arbitrary functions of a key and the entry stored there, with their laws
  stated where needed.

**The schema gate and the code it produces.** The diff of two schemas and a plan decides whether
an upgrade is refused; the generator and the derive turn an accepted plan into `up` and `down`.

- `Schemas`: schemas, plans, and what it means for a stored map to be read as a struct. Base types
  are sets of values, inhabited and without `Void` (`Sensible`). They may overlap: a value may read
  as several types, and the conditions below say where that matters.
- `Diffs`, `Gate`, `Accounting`, `Drafts`, `Plans`, `Verdicts`, `KeySpaces`: the diff, its soundness
  and completeness against the decoder, its bookkeeping, the drafted plan, which plans are accepted,
  what every verdict and finding says under any plan, and the key-space gate.
- `Codegen`, `Orders`, `Generated`, `Shapes`, `Shadows`, `Rewrites`, `Rereads`, `Repeats`, `Reruns`,
  `Revisits`, `Arrivals`: the generator, the meaning of the code it emits, when that code may be
  repeated, what it reports and keeps on each visit, and where it takes entries. `init` expressions
  and conversions are arbitrary functions that may trap; an `init` expression may look at the entry.
- `Counterexamples`: plans the gate and the generator accept whose migrations do what the comments
  in the generated file rule out.
- `Derived`, `Inverses`: the derive, the meaning of its expansion and how `down` undoes `up`; the
  last theorem carries the derived migration through the protocol's round trip.
- `Live`: the rule for contracts that keep writing during a migration, measured against both kinds
  of real migration.

## Where the code and its documentation differ

The model follows the code. The lemmas named below give a concrete instance, or say exactly when
the documented property does hold, or both.

- Resetting a log removes only its summary, and registering pushes onto the stored page. Refilling
  does not overwrite: old keys stay in front (`KeyLog.ResetLaw`, `KeyLog.ResetIsNotEmptying`).
  `contains` sees them too (`KeyLog.ContainsAfterReset`, `Preflight.StaleKeysPassTheCheck`,
  `Preflight.StaleKeysAfterRollback`).
- So a rollback restores the old log exactly when the new log has the old one's length, which an
  abandoned run or a second cycle breaks (`RoundTrip.CycleRestoresLog`, `RoundTrip.CycleAddsLogs`).
- A rollback that a grown log blocks can only be aborted (`RoundTrip.GrownLogBlocksRollback`), and
  then nothing short of an `adopt` resumes it or begins it again (`RoundTrip.AbortedRollbackIsFinal`).
- `FROM + 1` saturates, so the last version migrates to itself and neither direction works
  (`Termination.SaturatedIsReachable`, `Termination.SaturatedRunNeverCompletes`,
  `Protocol.SaturatedRollbackRevertsNothing`).
- A passing pre-flight does not always let `begin` start: the migration may not be one version step,
  which pre-flight never checks, and after a rollback the finished record must be cleared first.
  There is no third case (`Preflight.PassingPreflightBegins`,
  `Preflight.NonSequentialPassesPreflight`).
- Keys written before the first `initialize` are logged under version 1, whatever version is then
  declared (`Coverage.LateInitializeStrandsKeys`).
- A verdict that is not Denied does not mean that old entries are readable: a declared rename,
  required addition or retype still leaves them trapping (`Gate.OldEntriesReadableIff`,
  `Gate.SafeRenameTraps`), and the generated migration decodes the new type first, so it skips
  exactly those entries (`Rewrites.VisitNeitherTrapsNorRescues`).
- The conversion of a retyped field is said not to run again, and to move old values to the new
  type. The key stays, so it runs on every visit of the entries whose value already reads as both
  types, and on no others; into an optional field it never runs (`Rewrites.RetypeConverts`,
  `Reruns.RetypeRunsIff`, `Counterexamples.ConversionRunsAgain`).
- An assignment is called repeatable if its expression is a constant, or a function of fields it
  does not itself change. Neither is enough. A constant breaks a required field renamed from the
  field that is assigned (`Counterexamples.ConstantsAreNotEnough`); an expression may not look at a
  field that a rename fills either (`Counterexamples.OtherFieldsAreNotEnough`). The exact condition
  is `Reruns.IdempotentIff`.
- The generator accepts a plan that retypes a field and also renames it away, for which the shadow
  struct declares a field twice and cannot compile (`Shadows.DistinctSourcesIff`,
  `Counterexamples.ShadowDeclaresTwice`).
- A second pass is said to report migrated entries as already current. The derived `up` does
  (`Inverses.RevisitIsCurrent`). For generated code `Revisits.NeverMigratesTwiceIff` says exactly
  when no entry is migrated twice: nothing may be assigned unconditionally, and no required field
  may draw on a key that stays (`Revisits.RequiredAlwaysRewrites`).
- A live contract is told to write the new shape. For the derive that is enough only when there is
  nothing to fill (`Live.DerivedNewShapeIff`), for generated code only when the migration just moves
  values out of keys the new shape no longer has (`Live.GeneratedNewShapeIff`); a plan whose verdict
  is Safe can overwrite live values (`Counterexamples.SafePlanOverwritesLiveValue`).
- The finding for a field that became required says the migration sets it in entries that have no
  value for it. It skips exactly those and overwrites the value in every other entry it can read
  (`Revisits.AssignedIsOverwritten`, `Revisits.KeptIff`).
- A `converted` entry for a field that merely became required is not a stale directive, although no
  change of type justifies it (`Plans.AcceptedIff`).
- The comment on `EntryOutcome` says a skipped key must not enter the new log. Every visited key
  does, and `Coverage.NoKeyLost` rests on it.
- A missing field whose declared rename is ignored is not reported (`Accounting.SilentLossIff`).

## Model

| member | source | states |
|---|---|---|
| `Index.Register` | crates/soroban-migrate/src/index.rs:86-111 | pushes the key onto the page of slot `len`, bumps the summary, and traps when the log is full; nothing else changes |
| `Index.ReadRange` | crates/soroban-migrate/src/index.rs:137-179 | the nested page/offset loops return exactly the window `[start, min(start + limit, len))` or `CorruptIndex`, reading at most `(limit + 30) / 32 + 1` pages |
| `Index.Get` | crates/soroban-migrate/src/index.rs:121-127 | reads one position from its page without consulting the summary |
| `Index.ContainsKey` | crates/soroban-migrate/src/index.rs:186-197 | the page scan, including the overflow of `page_index * PAGE_SIZE` near the end of the `u32` range |
| `Index.ResetLog` | crates/soroban-migrate/src/index.rs:218-221 | removes the summary and leaves every page |
| `KeyLog.RegisterAppends` | crates/soroban-migrate/src/index.rs:86-111 | on a log that was never reset, registering appends to the sequence the log stands for |
| `KeyLog.RegisterKeepsPositions` | crates/soroban-migrate/src/index.rs:86-111 | on any covered log, registering adds one position, moves no visible key and touches no other log |
| `KeyLog.RangeReadsVisible` | crates/soroban-migrate/src/index.rs:129-179 | a range read on a covered log succeeds and is a slice of the visible keys |
| `KeyLog.ExactIsVisible` | crates/soroban-migrate/src/index.rs:117-127 | a never-reset log reads as exactly the registered sequence |
| `KeyLog.ContainsIsMembership` | crates/soroban-migrate/src/index.rs:181-197 | on a never-reset log `contains` is membership, and traps exactly when the key is absent and fewer than 32 slots are left |
| `KeyLog.RefillAppendsToPages` | crates/soroban-migrate/src/index.rs:95-100 | refilling an empty log puts each page's share of the keys behind whatever the page already held |
| `KeyLog.ResetLaw` | crates/soroban-migrate/src/index.rs:199-221 | the exact law of a reset and refilled log, position by position: old keys first, then the rest of that page shifted, then the new keys |
| `KeyLog.ResetThenRefill` | crates/soroban-migrate/src/index.rs:205-221 | a reset log reads as before if and only if it is refilled to its old length, whatever was registered |
| `KeyLog.ResetIsNotEmptying` | crates/soroban-migrate/src/index.rs:214-216 | counterexample to "overwrites it as the index refills": after reset, registering `b` where `a` was still shows `a` |
| `KeyLog.ContainsAfterReset` | crates/soroban-migrate/src/index.rs:186-197 | after a reset `contains` also answers yes for stale keys on the pages in use, and for exactly those |
| `Protocol.GateStaysOpen` | crates/soroban-migrate/src/version.rs:97-117 | once the gate of a version is open, no sequence of invocations closes it except an `adopt`, a batch of a migration away from that version, or a rollback batch of a migration to it |
| `Protocol.VersionMoves` | crates/soroban-migrate/src/version.rs:35-43 | the only invocations that move the version and where to: a first `initialize`, an `adopt` with nothing active, a batch of the migration in flight, a rollback batch of the one rolling back |
| `Version.Initialize` | crates/soroban-migrate/src/version.rs:58-70 | records a first version, is idempotent, and refuses zero or a different version |
| `Answers.InitializeAnswers` | crates/soroban-migrate/src/version.rs:58-70 | goes ahead exactly for a non-zero version when none or the same is stored, may then be repeated with no effect, and which refusal means zero or a different version |
| `Version.Adopt` | crates/soroban-migrate/src/version.rs:86-95 | sets any non-zero version unless a migration is active |
| `Answers.AdoptAnswers` | crates/soroban-migrate/src/version.rs:86-95 | goes ahead exactly for a non-zero version with no migration or rollback under way, and changes nothing but the version |
| `Answers.VersionIsNeverZero` | crates/soroban-migrate/src/version.rs:58-95 | in every reachable storage the stored version and both versions of the record are not zero |
| `Version.Put` | crates/soroban-migrate/src/store.rs:74-93 | writes the entry and registers its key under the version new writes belong to (`to` while a migration runs) |
| `Answers.PutIsLogged` | crates/soroban-migrate/src/store.rs:67-93 | a successful write leaves the value at its key and nothing else among the entries, and puts the key on the last page of one log: of the target while a migration runs, else of the stored version, a rollback included, else of version 1 |
| `Answers.PutRefusedIff` | crates/soroban-migrate/src/store.rs:74-93 | a write is refused exactly when that log is full |
| `Answers.WriteStopsRollback` | crates/soroban-migrate/src/rollback.rs:134-137 | a write during a rollback is kept and lengthens the new log, and from then on no batch of that rollback commits, whatever happens short of an abort |
| `Version.Remove` | crates/soroban-migrate/src/store.rs:106-114 | removes the entry and leaves the log alone |
| `Executor.Begin` | crates/soroban-migrate/src/executor.rs:121-161 | start, resume or refuse, and the record written |
| `Answers.BeginAnswers` | crates/soroban-migrate/src/executor.rs:121-161 | on a sound storage: goes ahead exactly for one step from the stored version when the record of that version, if any, is running and no other rollback is under way; and the exact meaning of each of its seven refusals |
| `Answers.BeginStarts` | crates/soroban-migrate/src/executor.rs:121-161 | resumes a run where it stands, and starts any other with cursor 0 over the whole log, changing nothing but the record |
| `Executor.Batch` | crates/soroban-migrate/src/executor.rs:179-261 | one batch as one transaction: its outcome and the whole new storage, or the error and the storage unchanged |
| `Answers.BatchAnswers` | crates/soroban-migrate/src/executor.rs:179-200 | which limit or record is refused and how; a batch at a completed record reports done again with nothing visited and the storage unchanged |
| `Answers.BatchOfRunning` | crates/soroban-migrate/src/executor.rs:201-261 | a batch of the running migration visits as many keys as it was allowed or as are left, and fails only if the migration refuses or traps or the target log cannot take the keys |
| `Answers.BatchCounts` | crates/soroban-migrate/src/executor.rs:204-260 | the counters a committed batch reports are how often its visits, one after the other, gave each answer |
| `Executor.VisitKeys` | crates/soroban-migrate/src/executor.rs:204-228 | the loop of a batch: `up` at each key, the key carried into the `to` log, the counters; the first refusal ends it |
| `Executor.RunToCompletion` | crates/soroban-migrate/src/executor.rs:275-293 | begin and up to `max_batches` batches in one invocation, reverted as a whole on error |
| `Executor.Abort` | crates/soroban-migrate/src/executor.rs:315-322 | drops an active record and nothing else |
| `Executor.Clear` | crates/soroban-migrate/src/executor.rs:333-342 | drops an inactive record and nothing else |
| `Answers.AbortOrClear` | crates/soroban-migrate/src/executor.rs:315-342 | on any storage exactly one of `abort` and `clear` goes ahead, by whether a migration or rollback is under way, and drops the record alone |
| `Answers.RecordMoves` | crates/soroban-migrate/src/executor.rs:121-342 | a record under way is changed only by its own batches or an abort; a finished one only by `clear`, the `begin` of another version's migration, or the rollback of a completed one |
| `Executor.Walked` | crates/soroban-migrate/src/executor.rs:209-228 | `visited` is the sum of the three outcome counters |
| `Executor.TallyCounts` | crates/soroban-migrate/src/executor.rs:204-227 | each of the three counters is the number of visits that returned its outcome |
| `Rollback.RollbackBegin` | crates/soroban-migrate/src/rollback.rs:54-98 | the order of the refusals, the pinned total and the reset of the `from` log |
| `Answers.RollbackBeginAnswers` | crates/soroban-migrate/src/rollback.rs:54-79 | on a sound storage: goes ahead exactly for one step with a `down` whose record is rolling back, or completed at the stored version; and the exact meaning of each refusal |
| `Answers.RollbackBeginStarts` | crates/soroban-migrate/src/rollback.rs:71-98 | resumes a rollback where it stands; a fresh one pins the length of the new log, empties the old one and changes nothing else |
| `Answers.NoDownNoRollback` | crates/soroban-migrate/src/rollback.rs:58-60 | over runs in which rollbacks are only asked for migrations without `down`, none ever begins, no rollback invocation changes anything and no log is ever reset |
| `Rollback.RollbackBatch` | crates/soroban-migrate/src/rollback.rs:115-190 | one rollback batch as one transaction, including the refusal when the `to` log grew |
| `Answers.RollbackBatchAnswers` | crates/soroban-migrate/src/rollback.rs:115-137 | which limit, record or grown log is refused and how; a batch at a rolled-back record reports done again and changes nothing |
| `Answers.RollbackBatchOfRolling` | crates/soroban-migrate/src/rollback.rs:138-190 | a batch over the log as pinned reverts as many keys as it was allowed or as are left, and fails only if `down` refuses or traps or the old log cannot take the keys |
| `Answers.RollbackBatchCounts` | crates/soroban-migrate/src/rollback.rs:148-189 | the same for a rollback batch, newest key first |
| `Rollback.RevertWindow` | crates/soroban-migrate/src/rollback.rs:141-189 | rollback positions `[cursor, end)` are read ascending and reverted descending; version and status change in the batch that finishes |
| `Rollback.RevertKeys` | crates/soroban-migrate/src/rollback.rs:153-169 | the descending loop: `down` at each key, newest first, the key registered again in the `from` log |
| `Rollback.RollbackToCompletion` | crates/soroban-migrate/src/rollback.rs:200-218 | begin and up to `max_batches` rollback batches in one invocation |
| `Protocol.StepKeepsSound` | crates/soroban-migrate/src/executor.rs:187-248 | every single-step entry point and every application write keeps the invariant, under any migration |
| `Protocol.RunIsActions` | crates/soroban-migrate/src/executor.rs:275-293 | a one-invocation run that commits leaves the storage of a `begin` followed by one batch per outcome it returns, so it keeps whatever those steps keep |
| `Protocol.RunFailsAs` | crates/soroban-migrate/src/executor.rs:275-293 | one that fails does so as its `begin` does, or as one of its batches would on its own after those before it |
| `Protocol.RollbackRunIsActions` | crates/soroban-migrate/src/rollback.rs:200-218 | the same for a one-invocation rollback |
| `Protocol.RollbackRunFailsAs` | crates/soroban-migrate/src/rollback.rs:200-218 | the same for a failing rollback |
| `Protocol.ReachableIsSound` | crates/soroban-migrate/src/executor.rs:121-261 | every reachable storage: Running implies version = from, to = from + 1 and cursor <= total <= len(from log); RollingBack implies version = to and cursor <= total <= len(to log); pages hold what summaries advertise |
| `Protocol.SaturatedRollbackRevertsNothing` | crates/soroban-migrate/src/rollback.rs:55-87 | counterexample at `FROM = u32::MAX`: `saturating_add` lets `FROM == TO` through and a rollback completes without reverting its one key |
| `Protocol.BatchWalk` | crates/soroban-migrate/src/executor.rs:201-248 | a forward batch that commits has walked exactly the next keys of the visible `from` log |
| `Protocol.RollbackBatchEffect` | crates/soroban-migrate/src/rollback.rs:134-177 | a rollback batch that commits has walked exactly its window of the `to` log, newest key first, and the log had not grown |
| `Forward.BatchedEqualsOneShot` | crates/soroban-migrate/src/executor.rs:12-25 | under any batch limits, failed batches, repeated begins and abort-then-restart, a completed run leaves the entries of applying an idempotent `up` once per key |
| `Forward.LiveCompletion` | crates/soroban-migrate/src/executor.rs:230-248 | under any interleaving of batches, puts, removes and late registrations, when the version advances every key of the `from` log and every key put meanwhile holds a value `up` leaves alone |
| `Forward.WalkVisitsOnce` | crates/soroban-migrate/src/migration.rs:140-184 | with an idempotent `up`, a key that occurs several times in a walk is as if visited once |
| `Coverage.NoKeyLost` | crates/soroban-migrate/src/executor.rs:215-220 | from an untouched contract and without adopt or rollback, every key ever put is in the log of the current version or the next, over any chain of upgrades |
| `Coverage.CompletionCollectsEveryKey` | crates/soroban-migrate/src/executor.rs:230-248 | right after each completion every key ever put is in the current version's log |
| `Coverage.LateInitializeStrandsKeys` | crates/soroban-migrate/src/store.rs:74-93 | counterexample: a key put before `initialize(v > 1)` is in neither log |
| `RoundTrip.RollbackRunTiles` | crates/soroban-migrate/src/rollback.rs:141-177 | whatever the limits and retries, a rollback in progress has applied `down` to the newest `cursor` positions of the `to` log, in descending order, each once |
| `RoundTrip.CompletedRollback` | crates/soroban-migrate/src/rollback.rs:171-177 | a completed rollback is one descending walk over positions `total - 1 .. 0` |
| `RoundTrip.GrownLogBlocksRollback` | crates/soroban-migrate/src/rollback.rs:134-137 | once the `to` log has grown past the pinned total nothing but `abort` moves the record or the version again, and the log never shrinks |
| `RoundTrip.AbortedRollbackIsFinal` | crates/soroban-migrate/src/rollback.rs:67-79 | after an `abort` during a rollback, no sequence of invocations without an `adopt` lets that migration or its rollback begin, resume or commit a batch again |
| `RoundTrip.CycleRestoresEntries` | crates/soroban-migrate/src/rollback.rs:134-177 | forward then back restores every entry, abandoned runs included |
| `RoundTrip.CycleRestoresLog` | crates/soroban-migrate/src/rollback.rs:83-87 | the visible `from` log is restored in its original order if and only if the forward run left the `to` log as long as it |
| `RoundTrip.RoundTripRestores` | crates/soroban-migrate/src/rollback.rs:54-190 | the round trip: version, every entry and, unless a run was abandoned, the visible `from` log, despite the stale pages |
| `RoundTrip.CycleAddsLogs` | crates/soroban-migrate/src/index.rs:205-212 | a second migrate-and-rollback cycle doubles the `from` log: the growth the reset was to prevent |
| `Counting.RoundsIsCeiling` | crates/soroban-migrate-cli/src/output.rs:88-93 | `transactions_needed` is the number of batches a run of that limit takes: `max(1, ceil(n / limit))` |
| `Answers.ZeroLimit` | crates/soroban-migrate-cli/src/output.rs:88-93 | with a batch size of zero none is predicted, and no batch, forward or back, is accepted |
| `Termination.ForwardNeverStalls` | crates/soroban-migrate-cli/src/batch.rs:65-73 | no forward batch on a sound storage reports nothing visited and not done, whatever is registered concurrently |
| `Termination.RollbackNeverStalls` | crates/soroban-migrate-cli/src/batch.rs:65-73 | nor does a rollback batch |
| `Termination.ForwardOutcomeIsTruthful` | crates/soroban-migrate/src/executor.rs:230-260 | the outcome mirrors the record left behind, its counters add up to the distance the cursor moved, and `done` is exactly the batch after which nothing remains and the version is `to` |
| `Termination.RollbackOutcomeIsTruthful` | crates/soroban-migrate/src/rollback.rs:171-189 | the same for a rollback batch, with the version back at `from` |
| `Termination.ReachableReadsSucceed` | crates/soroban-migrate/src/index.rs:113-179 | in every reachable storage, resets included, every range is a slice of the visible keys and every position below the length reads its key |
| `Termination.CorruptIndexUnreachable` | crates/soroban-migrate/src/executor.rs:201-213 | in every reachable storage, resets included, and for any two versions, no forward or rollback batch fails with `CorruptIndex` unless the migration itself returned it |
| `Termination.RunCompletesExactly` | crates/soroban-migrate/src/executor.rs:275-293 | a run of constant limit, fresh or resumed, with `n` keys left to visit completes if and only if it is given `transactions_needed(n)` batches, and then takes exactly that many |
| `Termination.RollbackCompletesExactly` | crates/soroban-migrate/src/rollback.rs:200-218 | the same for a rollback, fresh or resumed, over the positions not yet reverted of the log as pinned |
| `Termination.FreshRollbackIsPinned` | crates/soroban-migrate/src/rollback.rs:76-98 | a rollback begun from a completed migration starts at cursor 0 over the whole `to` log with the `from` log empty, so the count above applies to it |
| `Termination.SaturatedIsReachable` | crates/soroban-migrate/src/executor.rs:121-161 | `initialize(u32::MAX)`, one `put` and `begin` reach a running record from the last version to itself, one key from its end |
| `Termination.SaturatedRunNeverCompletes` | crates/soroban-migrate/src/executor.rs:121-124 | from such a storage no batches, under any limits, get the run closer to its end |
| `DryRun.Replay` | crates/soroban-migrate-cli/src/commands/dry_run.rs:161-181 | one invocation per batch; stops at an error, a stall or the finishing batch |
| `DryRun.ReplayTells` | crates/soroban-migrate-cli/src/commands/dry_run.rs:161-181 | whatever the batches do: no reported batch is a stall, none but the last finishes, `completed` means the last did, and a stall that is reported is one |
| `DryRun.ReplayCompletesExactly` | crates/soroban-migrate-cli/src/commands/dry_run.rs:161-181 | a replay over `n` remaining keys reports `completed` if and only if it may send `transactions_needed(n)` batches, and sends that many at most |
| `DryRun.ReplayNeverStalls` | crates/soroban-migrate-cli/src/commands/dry_run.rs:155-181 | from a sound storage the stall branch is dead: a replay reports what an unguarded run of the same batches returns |
| `Preflight.AssertUpgradeable` | crates/soroban-migrate/src/preflight.rs:120-147 | which refusal, or the report |
| `Preflight.PreflightAnswers` | crates/soroban-migrate/src/preflight.rs:120-147 | passes exactly at the version to migrate from, if this very migration is under way, or nothing is and the log is not empty; and the exact meaning of each refusal |
| `Preflight.ReportTells` | crates/soroban-migrate/src/preflight.rs:66-87 | what the report says on any sound storage, initialized or not: the version, the number of keys a reader of its log sees, whether something is under way, whether a finished migration can be undone |
| `Preflight.PassingPreflightHasWork` | crates/soroban-migrate/src/preflight.rs:108-114 | in a reachable storage, a passing check means this migration is running already or the first batch of the run `begin` starts visits a key, if it commits |
| `Preflight.PassingPreflightBegins` | crates/soroban-migrate/src/preflight.rs:89-98 | in a reachable storage a passing pre-flight means `begin` succeeds, except exactly when the migration is not one version step or a finished record of the same version is still there |
| `Preflight.NonSequentialPassesPreflight` | crates/soroban-migrate/src/preflight.rs:120-147 | counterexample: after `initialize(1)` and one `put`, a migration from 1 to anything but 2 passes and `begin` refuses it as not sequential |
| `Preflight.AssertKeysIndexed` | crates/soroban-migrate/src/preflight.rs:161-177 | the loop over the manifest: the first key not indexed refuses |
| `Preflight.CountOrphans` | crates/soroban-migrate/src/preflight.rs:190-207 | on any log, the number of manifest keys `contains` denies, or the trap of the first scan that overflows |
| `Preflight.IndexedIffNoOrphans` | crates/soroban-migrate/src/preflight.rs:149-207 | on any log, the failing check passes exactly when no scan traps and the count is zero |
| `Preflight.OrphansAreMissing` | crates/soroban-migrate/src/preflight.rs:179-207 | on a never-reset log the count is of the manifest keys missing from it |
| `Preflight.IndexedIsMembership` | crates/soroban-migrate/src/preflight.rs:149-177 | on a never-reset log the check passes exactly when every key of the manifest is in the log |
| `Preflight.ChunksCompose` | crates/soroban-migrate/src/preflight.rs:151-154 | checking a manifest chunk by chunk is checking it whole |
| `Preflight.StaleKeysPassTheCheck` | crates/soroban-migrate/src/preflight.rs:151-154 | counterexample on a log reset and refilled with fewer keys: a key on a stale page passes the check although no reader of the log sees it |
| `Preflight.StaleKeysAfterRollback` | crates/soroban-migrate/src/rollback.rs:83-87 | a reachable run that ends there: one key migrated, another registered late under the old version, then a completed rollback |
| `Diffs.DiffWithPlan` | crates/soroban-migrate-schema/src/diff.rs:434-737 | every refusal, every finding in order, its severity and the verdict |
| `Plans.AcceptedIff` | crates/soroban-migrate-schema/src/diff.rs:439-737 | a diff is made exactly when plan and schemas name the same single step and every `init`, `dropped`, `converted` and `renamed` entry is justified by a change between the two schemas, each in its terms |
| `Plans.MismatchAnswers` | crates/soroban-migrate-schema/src/diff.rs:439-457 | which disagreement of the versions is refused as what |
| `Verdicts.RefusedIff` | crates/soroban-migrate-schema/src/diff.rs:464-745 | under any plan the verdict is Denied exactly when a new, newly required or retyped field has no declared values, or a field is gone with nothing to account for it |
| `Verdicts.SafeIff` | crates/soroban-migrate-schema/src/diff.rs:464-745 | under any plan it is Safe exactly when nothing is retyped or newly required, every addition is optional with a default or carries a field over unchanged, and every field that is gone is accounted for |
| `Verdicts.SilentIff` | crates/soroban-migrate-schema/src/diff.rs:464-722 | without a plan nothing is reported exactly when both shapes have the same fields in the same order, each unchanged |
| `Orders.FindingsInOrder` | crates/soroban-migrate-schema/src/diff.rs:464-722 | findings follow the order of the new struct, then removals that of the old one, then the note on the order |
| `Diffs.ClassifyField` | crates/soroban-migrate-schema/src/diff.rs:466-663 | one field of the new shape: the finding and what it lets the plan declare |
| `Verdicts.KindTells` | crates/soroban-migrate-schema/src/diff.rs:466-663 | exactly when a field counts as added, renamed, retyped, newly required, newly optional or respelled |
| `Diffs.ClassifyRemoved` | crates/soroban-migrate-schema/src/diff.rs:666-706 | the walk over the old shape |
| `Verdicts.ReorderedIff` | crates/soroban-migrate-schema/src/diff.rs:708-722 | a reordering is reported exactly when the two shapes have the same fields in another order |
| `Diffs.ValidatePlan` | crates/soroban-migrate-schema/src/diff.rs:786-820 | the first stale directive, in the order init, dropped, converted, renamed |
| `Plans.StaleAnswers` | crates/soroban-migrate-schema/src/diff.rs:786-820 | a stale directive that is refused is the first unjustified one of its table, and every table before it is justified throughout |
| `Diffs.VerdictOf` | crates/soroban-migrate-schema/src/diff.rs:724-745 | the verdict is the worst severity: Denied exactly when some finding is, Safe exactly when all are Info |
| `Gate.BareGateIsExact` | crates/soroban-migrate-schema/src/diff.rs:464-728 | with an empty plan the verdict is Denied exactly when a field is retyped or some entry written under the old schema fails to decode under the new one or re-encodes to another map; the first clause drops out where each retype has an old value that does not read as the new type |
| `Gate.OldEntriesReadableIff` | docs/cap-85-86.md:71-101 | every un-migrated entry is readable under the new shape exactly when no field is added as required, renamed to a required field, newly required or retyped to a type not containing the old one; the plan makes no difference |
| `Gate.TrapsAreReported` | crates/soroban-migrate-schema/src/diff.rs:525-636 | those fields, with every retyped one, are exactly the ones with such a finding |
| `Schemas.DecodeConforms` | docs/cap-85-86.md:71-81 | what a read yields is itself exactly what a contract of that shape writes |
| `Gate.LosslessIff` | docs/cap-85-86.md:71-101 | reading and writing back loses nothing exactly when, further, no field name disappears |
| `Gate.BareSafeIff` | crates/soroban-migrate-schema/src/diff.rs:302-312 | with an empty plan the verdict is Safe exactly when nothing is retyped, the upgrade is lossless and no field of the new shape is empty in every old entry |
| `Gate.SafeTrapsOnlyByRename` | crates/soroban-migrate-schema/src/diff.rs:471-505 | under any plan, Safe leaves old entries unreadable in one way only: a declared rename of a required field that keeps its type |
| `Gate.SafeRenameTraps` | crates/soroban-migrate-schema/src/diff.rs:471-505 | counterexample to the name of the verdict: a declared rename of a required field is `Safe`, yet every old entry traps |
| `Accounting.OneFindingEach` | crates/soroban-migrate-schema/src/diff.rs:466-706 | no field is the subject of two findings |
| `Accounting.SilentLossIff` | crates/soroban-migrate-schema/src/diff.rs:668-706 | a field that left the schema is reported removed or renamed, never both, and goes unreported exactly when its declared rename is ignored |
| `Accounting.RenamedOnce` | crates/soroban-migrate-schema/src/diff.rs:470-505 | no field is the source of two rename findings |
| `Accounting.NoSilentLoss` | crates/soroban-migrate-schema/src/diff.rs:666-706 | with injective renames to fresh names, every missing field is reported exactly one way |
| `Drafts.Draft` | crates/soroban-migrate-cli/src/commands/plan.rs:131-166 | the loop that fills the plan from the denied findings |
| `Drafts.DraftIsNeeded` | crates/soroban-migrate-cli/src/commands/plan.rs:130-166 | the draft declares exactly the decisions the schemas need |
| `Drafts.DraftClosesTheGate` | crates/soroban-migrate-cli/src/commands/plan.rs:130-166 | diffing again with the drafted plan raises no stale directive and is not Denied |
| `Drafts.DraftIsMinimal` | crates/soroban-migrate-cli/src/commands/plan.rs:130-166 | without any one of its declarations the diff is Denied again |
| `Codegen.Generate` | crates/soroban-migrate-schema/src/codegen.rs:101-177 | the program emitted for a diff and a plan, or the first decision that is missing |
| `Orders.GeneratedInOrder` | crates/soroban-migrate-schema/src/codegen.rs:118-165 | defaults, assignments and consumers are each emitted in the order of the new struct |
| `Orders.CarriedIff` | crates/soroban-migrate-schema/src/codegen.rs:157-165 | the fields the file says are discarded are exactly the old ones that are gone and not renamed, all of them declared as dropped |
| `Orders.UndecidableAnswers` | crates/soroban-migrate-schema/src/codegen.rs:178-215 | for a diff that is not refused, the generator gives up only over a rename that changes the base type without a conversion, and names its source |
| `Codegen.GenerateSucceedsIff` | crates/soroban-migrate-schema/src/codegen.rs:107-243 | on a diff of the same plan generation succeeds exactly when the verdict is not Denied and every rename that changes its base type has a non-blank conversion |
| `Generated.RunUp` | crates/soroban-migrate-schema/src/codegen.rs:377-505 | the emitted body on storage: the two reads, the assignments in order with expressions that may read the entry, the `changed` flag, the trap of any expression that runs, and that no other entry changes |
| `Revisits.GeneratedReports` | crates/soroban-migrate-schema/src/codegen.rs:377-500 | which outcome a visit reports: skipped when there is no entry or, with work to do, none both reads accept; migrated when there is something to write; already current otherwise, with the entry as it was |
| `Revisits.GeneratedTraps` | crates/soroban-migrate-schema/src/codegen.rs:440-500 | a visit traps exactly when an expression it has to run does: the default of an empty field, an assignment, or the conversion of a value that is moved; and it ends in no other error |
| `Shapes.GeneratedIsShaped` | crates/soroban-migrate-schema/src/codegen.rs:118-177 | what every emitted program looks like: one writer per field, fills only of fields the old shape lacks, conversions exactly where base types differ |
| `Shadows.DistinctSourcesIff` | crates/soroban-migrate-schema/src/codegen.rs:342-371 | the shadow struct declares every key once exactly when no retyped field is also the source of a rename that took effect |
| `Counterexamples.ShadowDeclaresTwice` | crates/soroban-migrate-schema/src/codegen.rs:342-371 | counterexample: a plan that is accepted and generated for, with two consumers of one source |
| `Rewrites.VisitNeitherTrapsNorRescues` | crates/soroban-migrate-schema/src/codegen.rs:397-438 | an entry is readable as the new shape after a visit exactly when it was before, and an unreadable one is left as it is |
| `Rewrites.RetypeConverts` | crates/soroban-migrate-schema/src/codegen.rs:461-492 | on an entry both reads accept, a retyped value reads as both types, and its conversion runs exactly if the new field is required |
| `Reruns.RetypeRunsIff` | crates/soroban-migrate-schema/src/codegen.rs:461-492 | some entry has its retyped value converted exactly when the new field is required and the program does not skip every entry |
| `Counterexamples.ConversionRunsAgain` | crates/soroban-migrate-schema/src/codegen.rs:304-312 | counterexample to "the conversion does not run again": an accepted retype turns `{x: v}` into `{x: e(v)}` and then `{x: e(e(v))}` where these values read as both types |
| `Rewrites.LeftIffAgrees` | crates/soroban-migrate-schema/src/codegen.rs:440-500 | a visit leaves an entry as it was, without a trap, exactly when every value the body would write, computed from that entry, is there already |
| `Rereads.FrozenIff` | crates/soroban-migrate-schema/src/codegen.rs:397-438 | the program skips every entry exactly when the new shape requires a consumed key under a type that shares no value with the old one |
| `Repeats.RepeatableIsIdempotent` | crates/soroban-migrate-schema/src/codegen.rs:8-31 | an emitted program that meets the condition below is idempotent for any expressions that look where they may, trap when they will, and any guarded fills |
| `Reruns.IdempotentIff` | crates/soroban-migrate-schema/src/codegen.rs:296-312 | given which fields each assigned expression may look at, an emitted program is idempotent for all such expressions and all conversions exactly when no expression looks at its own field, at one assigned later or at one a rename can write, and no required field draws on a key that stays and is assigned or converted, types with a single value apart; or it skips every entry. Where every type has two values, expressions that never trap suffice to break any other program |
| `Reruns.GeneratedIdempotentIff` | crates/soroban-migrate-schema/src/codegen.rs:296-312 | the same for what the generator emits for an accepted diff and plan |
| `Counterexamples.ConstantsAreNotEnough` | crates/soroban-migrate-schema/src/codegen.rs:296-312 | counterexample: an accepted plan with one constant `init` whose migration turns `{x: v, y: w}` into `{x: c, y: v}` and then `{x: c, y: c}` |
| `Counterexamples.OtherFieldsAreNotEnough` | crates/soroban-migrate-schema/src/codegen.rs:452-454 | counterexample to "computed from fields this assignment does not modify": an `init` for `y` that takes `x` when it is there, where `x` is filled by a rename, turns `{z: v, y: w}` into `{x: v, y: c}` and then `{x: v, y: v}` |
| `Revisits.NeverMigratesTwiceIff` | crates/soroban-migrate/src/executor.rs:303-306 | an emitted program never migrates an entry twice if it assigns nothing unconditionally and no required field draws on a key kept under a type that shares values with the old, or the conversion of some required retyped field never yields an old-typed value, or it skips every entry; and only if, where no expression traps |
| `Revisits.GeneratedNeverMigratesTwiceIff` | crates/soroban-migrate-schema/src/codegen.rs:440-492 | the same for what the generator emits for an accepted diff and plan |
| `Revisits.RequiredAlwaysRewrites` | crates/soroban-migrate-schema/src/codegen.rs:451-459 | with a required assignment every visit that reads the entry reports it migrated, never already current |
| `Counterexamples.SafePlanOverwritesLiveValue` | crates/soroban-migrate-schema/src/codegen.rs:461-492 | counterexample: a plan with verdict Safe and no assignment whose migration turns a live new-shaped `{x: v, y: w}` into `{x: v, y: v}`, and reports it migrated again on every later visit |
| `Revisits.KeptIff` | crates/soroban-migrate-schema/src/codegen.rs:440-500 | a field both shapes have with the same type reads the same after every visit of every readable entry if it is not assigned unconditionally, or its type has one value, or the program skips every entry; and only if, for a constant and where no expression traps |
| `Revisits.RetypedKeptIff` | crates/soroban-migrate-schema/src/codegen.rs:461-492 | a retyped field does if its new type is optional, or its conversion changes no value that reads as both types, or the program skips every entry; and only if, where no expression traps |
| `Revisits.AssignedIsOverwritten` | crates/soroban-migrate-schema/src/diff.rs:609-616 | a newly required field gets the constant in every entry both reads accept, and an entry without a value for it is skipped |
| `Arrivals.EveryOldEntryArrivesIff` | crates/soroban-migrate-schema/src/codegen.rs:397-438 | all old entries end readable as the new shape exactly when additions and rename targets are optional, nothing is newly required and nothing is retyped, unless to a type that contains the old one |
| `Arrivals.OneVisitMoves` | crates/soroban-migrate-schema/src/codegen.rs:440-500 | under any accepted plan one visit takes an old entry that the new shape can read all the way: kept fields kept, renamed and retyped values carried through their conversion, `init` fields computed by their expression from an entry whose other kept fields are still the old ones, nothing else |
| `Arrivals.GeneratedRunMovesEveryEntry` | crates/soroban-migrate-schema/src/codegen.rs:377-505 | and so does any completed run of the protocol driving the generated migration, if it is idempotent |
| `Arrivals.AdditiveRunMovesEveryEntry` | crates/soroban-migrate-schema/src/codegen.rs:377-505 | for an additive change that holds of every old entry and any expressions: such a migration is always idempotent |
| `Derived.Expand` | crates/soroban-migrate-macros/src/lib.rs:286-378 | the refusals of the derive and the two statement lists it accumulates |
| `Inverses.ExpandAnswers` | crates/soroban-migrate-macros/src/lib.rs:290-357 | which attributes are accepted, and which refusal means what |
| `Inverses.UpBodyFills` | crates/soroban-migrate-macros/src/lib.rs:336-341 | running the emitted `up` list populates exactly the declared fields and overwrites nothing |
| `Inverses.UpBodyComputes` | crates/soroban-migrate-macros/src/lib.rs:335-341 | each is filled with what its own expression computes from an entry in which the fields declared before it, and no later ones, have been filled |
| `Inverses.DownBodyClears` | crates/soroban-migrate-macros/src/lib.rs:342-347 | running the emitted `down` list removes exactly the declared fields; without `reversible` it is empty |
| `Derived.Visiting` | crates/soroban-migrate-macros/src/lib.rs:374-431 | the emitted `up` and `down` on storage: skip, trap, leave alone or rewrite, and that no other entry changes |
| `Inverses.UpReports` | crates/soroban-migrate-macros/src/lib.rs:448-502 | which outcome `up` reports: skipped for no entry or none of the shape, already current when every declared field has a value |
| `Inverses.DownReports` | crates/soroban-migrate-macros/src/lib.rs:374-431 | which outcome `down` reports; without `reversible` it refuses everything |
| `Inverses.UpIdempotent` | crates/soroban-migrate-macros/src/lib.rs:448-502 | the derived `up` may be repeated, whatever its expressions compute from the entry |
| `Inverses.RevisitIsCurrent` | crates/soroban-migrate/src/executor.rs:303-306 | an entry visited again after the derived `up` migrated it is reported already current and left alone |
| `Inverses.UpFills` | crates/soroban-migrate-macros/src/lib.rs:336-341 | it populates every `init` field of an entry it can read, changes no populated field, and leaves what it cannot read alone |
| `Inverses.DownIdempotent` | crates/soroban-migrate-macros/src/lib.rs:374-431 | the derived `down` may be repeated |
| `Inverses.RestoredIff` | crates/soroban-migrate-macros/src/lib.rs:374-382 | `down` after `up` gives an entry back exactly when it is unreadable, or nothing is declared, or it is as the contract writes it with none of the new fields |
| `Inverses.OldShapeIsRestorable` | crates/soroban-migrate-macros/src/lib.rs:374-382 | every entry of the old shape of an additive change is one of those |
| `Inverses.UndoableIff` | crates/soroban-migrate-macros/src/lib.rs:342-347 | which entries the protocol's round trip covers for a derived reversible migration |
| `Inverses.DerivedRoundTrip` | crates/soroban-migrate/src/rollback.rs:54-190 | migrating with a derived reversible migration and rolling back restores version, entries and log under any batch limits |
| `Live.DerivedLeavesAloneIff` | crates/soroban-migrate-macros/src/lib.rs:336-341 | the derived `up` leaves an entry alone exactly when it is unreadable as the shape or has every `init` field |
| `Live.DerivedNewShapeIff` | crates/soroban-migrate/src/store.rs:3-12 | it leaves every new-shaped entry alone exactly when there is no `init` field |
| `Live.DerivedLiveCompletion` | crates/soroban-migrate/src/executor.rs:27-39 | if writes during a derived migration fill the `init` fields, then when the version advances every logged entry and every one written meanwhile has them all, under any interleaving |
| `Live.GeneratedLeavesAloneIff` | crates/soroban-migrate-schema/src/codegen.rs:440-500 | the emitted `up` leaves a new-shaped entry alone exactly when its read of the old keys traps or the entry already agrees with all it would write |
| `Live.GeneratedNewShapeIff` | crates/soroban-migrate/src/store.rs:3-12 | it leaves every new-shaped entry alone exactly when it fills nothing, its assignments give back what they find, and every consumed key is gone from the new shape, shares no value with it or is carried where it can change nothing; or it skips every entry |
| `Live.EchoesIff` | crates/soroban-migrate-schema/src/codegen.rs:451-459 | an assignment that does not look at its own field gives back what it finds only if the field's type has one value |
| `Live.GeneratedLiveCompletion` | crates/soroban-migrate/src/executor.rs:27-39 | if writes during an idempotent generated migration agree with it, then when the version advances every new-shaped entry logged or written meanwhile does too, whatever the expressions compute |
| `KeySpaces.KeySpaceFindings` | crates/soroban-migrate-schema/src/diff.rs:178-285 | the two loops over variants and the reordering note |
| `KeySpaces.KeyGateIsExact` | crates/soroban-migrate-schema/src/diff.rs:154-178 | something is denied exactly when a payload changed, or some key encodable under the old enum does not decode to the same variant and payload under the new one, or a surviving variant's mark moved; the first clause drops out where each changed payload has an old value that does not encode the new one |
| `KeySpaces.KeyFindingsAre` | crates/soroban-migrate-schema/src/diff.rs:178-285 | which findings there are: one for each variant added, removed, with another payload or with its mark moved |
| `KeySpaces.PermutationIsInfo` | crates/soroban-migrate-schema/src/diff.rs:155-159 | a permutation of the variants yields one Info finding, exactly when the order differs |

## Left out

- TTL extension, authentication, metering and the page, footprint and transaction limits of the host: they do not affect these properties; only the batch limit of 1 to 150 is kept.
- `started_ledger` and `index_entries`: ledger sequence numbers and footprint accounting that nothing else reads.
- `up` and `down` that read or write other keys, other storage or the clock: a migration sees the entry at its own key, which is what batching relies on.
- Generated.RunUp: an `init` expression sees the entry being rewritten and a conversion the old value; the emitted code would also let an expression name `old` and a conversion name `entry`.
- Revisits.NeverMigratesTwiceIff: the "only if" is for expressions that never trap, as in `Revisits.KeptIff` and `Revisits.RetypedKeptIff`, since a migration that always traps does nothing at all.
- Revisits.KeptIff: the "only if" is for an assigned constant; an expression may compute the field's own old value.
- Coverage.NoKeyLost: runs with `adopt` or a rollback are excluded, because either can move the version away from the log that holds a key.
- Termination.RunCompletesExactly: assumes an `up` that never fails and room for the keys in the `to` log; a refusing `up` fails the run, which `Executor.RunToCompletion` covers.
- Termination.RollbackCompletesExactly: assumes likewise for `down` and the `from` log, and that the `to` log is as long as pinned; a log that grew blocks the rollback (`RoundTrip.GrownLogBlocksRollback`).
- Accounting.NoSilentLoss: for injective renames to fresh names only; the exact condition in general is `Accounting.SilentLossIff`.
- Drafts.Draft: the drafted tables keep insertion order where the program's maps sort by key; the order decides only which of several stale directives is named first.
- The spelling of types: base type, optionality, normalized spelling and normalized payload of a field or variant are given as data, not computed from text.
- The text of findings, reports, drafted placeholders beyond their being non-blank, and of the generated file; the model has its meaning.
- JSON, project discovery, configuration, network calls and the driving of a live contract by the CLI: input and output.
- The parsers of contract source and of macro attributes: they rest on `syn`, which is not part of this model; schemas, plans and attributes are taken as parsed.
- A derive whose `from` is the largest `u32`: the macro's own addition overflows there, and the model lets no `to` match.
- `SchemaSet`, version families and gap reporting, and `fleet.rs`: simple list and map operations.
