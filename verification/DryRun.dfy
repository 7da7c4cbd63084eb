/** The command line's dry run (`dry_run.rs`): one invocation per batch, with a guard against
    stalls that a sound storage never needs. */
module DryRun {
  import opened Host
  import opened Storage
  import opened Executor
  import opened Protocol
  import opened Counting
  import opened Termination

  datatype Replayed =
    | Report(batches: seq<BatchOutcome>, completed: bool)
    | CallFailed(error: MigrationError)
    | Stalled(at: BatchOutcome)

  datatype Replaying = Replaying(after: Snapshot, report: Replayed)

  /** What a replay of at most `count` separate invocations reports, and the storage it leaves. */
  ghost function ReplayOf(batch: Snapshot -> Attempt<BatchOutcome>, s: Snapshot, sent: seq<BatchOutcome>,
                          count: nat): Replaying
    decreases count
  {
    if count == 0 then Replaying(s, Report(sent, false)) else
      match batch(s)
      case Err(e) => Replaying(s, CallFailed(e))
      case Ok(next) =>
        if IsStall(next.1) then Replaying(next.0, Stalled(next.1))
        else if next.1.done then Replaying(next.0, Report(sent + [next.1], true))
        else ReplayOf(batch, next.0, sent + [next.1], count - 1)
  }

  lemma ReplayNext(batch: Snapshot -> Attempt<BatchOutcome>, s: Snapshot, sent: seq<BatchOutcome>, count: nat,
                   next: (Snapshot, BatchOutcome))
    requires count > 0 && batch(s) == Ok(next)
    ensures ReplayOf(batch, s, sent, count)
         == if IsStall(next.1) then Replaying(next.0, Stalled(next.1))
            else if next.1.done then Replaying(next.0, Report(sent + [next.1], true))
            else ReplayOf(batch, next.0, sent + [next.1], count - 1)
  {}

  /** `dry_run::replay`: one invocation per batch, stopping at a stall. */
  method Replay(env: Env, m: Migration, limit: u32, maxBatches: u32) returns (r: Replayed)
    modifies env
    ensures Replaying(env.View(), r) == ReplayOf(Batches(m, limit), old(env.View()), [], maxBatches)
  {
    r := SendBatches(env, m, limit, maxBatches, Batches(m, limit));
  }

  method SendBatches(env: Env, m: Migration, limit: u32, maxBatches: u32,
                     ghost batch: Snapshot -> Attempt<BatchOutcome>)
    returns (r: Replayed)
    requires Sends(batch, m, limit)
    modifies env
    ensures Replaying(env.View(), r) == ReplayOf(batch, old(env.View()), [], maxBatches)
  {
    var batches: seq<BatchOutcome> := [];
    ghost var here, left := env.View(), maxBatches as nat;
    ghost var all := ReplayOf(batch, here, batches, left);
    for n := 0 to maxBatches
      invariant here == env.View() && left == maxBatches - n
      invariant all == ReplayOf(batch, here, batches, left)
    {
      var outcome := Batch(env, m, limit);
      if outcome.Err? {
        return CallFailed(outcome.error);
      }
      ReplayNext(batch, here, batches, left, (env.View(), outcome.value));
      if IsStall(outcome.value) {
        return Stalled(outcome.value);
      }
      batches := batches + [outcome.value];
      if outcome.value.done {
        return Report(batches, true);
      }
      here, left := env.View(), left - 1;
    }
    r := Report(batches, false);
  }

  /** Whatever the batches do, a replay that reports has stopped at no stall and past no finishing
      batch, and one that stops at a stall names a batch that visited nothing and did not finish. */
  lemma {:induction false} ReplayTells(batch: Snapshot -> Attempt<BatchOutcome>, s: Snapshot, sent: seq<BatchOutcome>,
                                       count: nat)
    requires forall o :: o in sent ==> !IsStall(o) && !o.done
    ensures match ReplayOf(batch, s, sent, count).report
            case Stalled(at) => at.visited == 0 && !at.done
            case CallFailed(_) => true
            case Report(batches, completed) =>
              && (forall o :: o in batches ==> o.visited > 0 || o.done)
              && (forall i :: 0 <= i < |batches| - 1 ==> !batches[i].done)
              && (completed ==> batches != [] && batches[|batches| - 1].done)
              && (!completed ==> |batches| == |sent| + count)
    decreases count
  {
    if count > 0 && batch(s).Ok? {
      var next := batch(s).value;
      if !IsStall(next.1) && !next.1.done {
        ReplayTells(batch, next.0, sent + [next.1], count - 1);
      }
    }
  }

  /** A storage from which no batch fails to make progress, however often it is repeated. */
  ghost predicate Progresses(batch: Snapshot -> Attempt<BatchOutcome>, good: Snapshot -> bool, s: Snapshot) {
    good(s) && batch(s).Ok? ==> good(batch(s).value.0) && !IsStall(batch(s).value.1)
  }

  lemma {:induction false} ReplayIsRun(batch: Snapshot -> Attempt<BatchOutcome>, good: Snapshot -> bool,
                                       s: Snapshot, sent: seq<BatchOutcome>, count: nat)
    requires good(s) && forall t :: Progresses(batch, good, t)
    ensures var r := ReplayOf(batch, s, sent, count);
            match Repeated(batch, s, count)
            case Err(e) => r.report == CallFailed(e)
            case Ok(run) => r == Replaying(run.0, Report(sent + run.1, run.1 != [] && run.1[|run.1| - 1].done))
    decreases count
  {
    assert Progresses(batch, good, s);
    if count == 0 {
      assert sent + [] == sent;
    } else if batch(s).Ok? && !batch(s).value.1.done {
      var next := batch(s).value;
      ReplayIsRun(batch, good, next.0, sent + [next.1], count - 1);
      ReplayPrefix(batch, next.0, sent, next.1, count - 1);
    }
  }

  /** From a sound storage the stall a replay guards against cannot happen: the replay reports
      what an unguarded run of the same batches returns, and `completed` when it finished. */
  lemma ReplayNeverStalls(s: Snapshot, m: Migration, limit: u32, count: nat)
    requires Sound(s)
    ensures var r := ReplayOf(Batches(m, limit), s, [], count);
            match Repeated(Batches(m, limit), s, count)
            case Err(e) => r.report == CallFailed(e)
            case Ok(run) => r == Replaying(run.0, Report(run.1, run.1 != [] && run.1[|run.1| - 1].done))
  {
    var good := t => Sound(t);
    forall t ensures Progresses(Batches(m, limit), good, t) {
      if Sound(t) && BatchStep(t, m, limit).Ok? {
        BatchKeepsSound(t, m, limit);
        ForwardNeverStalls(t, m, limit);
      }
    }
    ReplayIsRun(Batches(m, limit), good, s, [], count);
    var run := Repeated(Batches(m, limit), s, count);
    assert run.Ok? ==> [] + run.value.1 == run.value.1;
  }

  /** So a replay of a pending migration reports `completed` exactly when it may send as many
      batches as the command line predicts, and then sends exactly that many. */
  lemma ReplayCompletesExactly(s: Snapshot, m: Migration, limit: u32, n: nat, count: nat)
    requires Pending(s, m, n) && NeverRefuses(m.up) && 0 < limit <= MAX_KEYS_PER_BATCH
    ensures var needed := TransactionsNeeded(n, limit);
            var report := ReplayOf(Batches(m, limit), s, [], count).report;
            report.Report? && |report.batches| == Min(count, needed) && (report.completed <==> count >= needed)
  {
    PendingRunsExactly(s, m, limit, n, count);
    ReplayNeverStalls(s, m, limit, count);
  }

  lemma ReplayPrefix(batch: Snapshot -> Attempt<BatchOutcome>, s: Snapshot, sent: seq<BatchOutcome>,
                     first: BatchOutcome, count: nat)
    requires !first.done
    ensures var rest := Repeated(batch, s, count);
            rest.Ok? ==>
              var run := Prefixed([first], rest).value.1;
              && sent + run == sent + [first] + rest.value.1
              && (run[|run| - 1].done <==> rest.value.1 != [] && rest.value.1[|rest.value.1| - 1].done)
  {}
}
