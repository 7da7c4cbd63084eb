/** Counting batches (the command line's `output.rs`): the predicted number, and exactly how a run
    of batches that each take a fixed share of the work ends. */
module Counting {
  import opened Host
  import opened Storage

  /** `output::transactions_needed`: at least one batch, the one that advances the version. */
  function TransactionsNeeded(remaining: nat, batchSize: nat): nat {
    if batchSize == 0 then 0 else Max((remaining + batchSize - 1) / batchSize, 1)
  }

  lemma DivSubtract(a: nat, d: nat)
    requires 0 < d <= a
    ensures a / d == (a - d) / d + 1
  {
    var q, r := (a - d) / d, (a - d) % d;
    assert a == (q + 1) * d + r;
    DivUnique(a, d, q + 1, r);
  }

  lemma MulMonotone(a: nat, b: nat, d: nat)
    requires a <= b
    ensures a * d <= b * d
  {}

  lemma DivUnique(a: nat, d: nat, q: nat, r: nat)
    requires 0 < d && a == q * d + r && r < d
    ensures a / d == q
  {
    var p: nat := a / d;
    assert p * d <= a < p * d + d;
    assert (q + 1) * d == q * d + d && (p + 1) * d == p * d + d;
    MulMonotone(Min(q + 1, p), p, d);
    MulMonotone(Min(p + 1, q), q, d);
  }

  /** The same count, one batch at a time. */
  function Rounds(remaining: nat, limit: nat): nat
    requires limit > 0
  {
    if remaining <= limit then 1 else 1 + Rounds(remaining - limit, limit)
  }

  lemma {:induction false} RoundsIsCeiling(n: nat, limit: nat)
    requires limit > 0
    ensures Rounds(n, limit) == TransactionsNeeded(n, limit)
  {
    if n == 0 {
      DivUnique(limit - 1, limit, 0, limit - 1);
    } else if n <= limit {
      DivUnique(n + limit - 1, limit, 1, n - 1);
    } else {
      RoundsIsCeiling(n - limit, limit);
      DivSubtract(n + limit - 1, limit);
      DivSubtract(n - 1, limit);
    }
  }

  // ----- A run that takes its share each time -----

  /** `batch` takes `limit` keys off the `n` pending at `s`, and moves the version to `target`
      when nothing is left. */
  ghost predicate CountsAt(batch: Snapshot -> Attempt<BatchOutcome>, pending: (Snapshot, int) -> bool,
                           limit: nat, target: u32, s: Snapshot, n: int) {
    pending(s, n) ==>
      && n >= 0 && s.version != Some(target) && batch(s).Ok?
      && var (after, outcome) := batch(s).value;
      && outcome.done == (n <= limit)
      && (outcome.done ==> after.version == Some(target))
      && (!outcome.done ==> pending(after, n - limit))
  }

  ghost predicate Counts(batch: Snapshot -> Attempt<BatchOutcome>, pending: (Snapshot, int) -> bool, limit: nat,
                         target: u32) {
    forall s, n :: CountsAt(batch, pending, limit, target, s, n)
  }

  /** Every outcome but the last is unfinished, and the last is finished exactly when `enough`. */
  ghost predicate FinishesLast(out: seq<BatchOutcome>, enough: bool) {
    && (forall i :: 0 <= i < |out| - 1 ==> !out[i].done)
    && (out != [] ==> out[|out| - 1].done == enough)
  }

  /** A run allowed `count` batches when it needs `needed`. */
  ghost predicate ExactRun(run: Attempt<seq<BatchOutcome>>, count: nat, needed: nat, target: u32) {
    && run.Ok? && |run.value.1| == Min(count, needed)
    && FinishesLast(run.value.1, count >= needed)
    && (run.value.0.version == Some(target) <==> count >= needed)
  }

  lemma {:induction false} CountedRun(batch: Snapshot -> Attempt<BatchOutcome>, pending: (Snapshot, int) -> bool,
                                      limit: nat, target: u32, s: Snapshot, n: nat, count: nat)
    requires limit > 0 && Counts(batch, pending, limit, target) && pending(s, n)
    ensures ExactRun(Repeated(batch, s, count), count, Rounds(n, limit), target)
    decreases count
  {
    assert CountsAt(batch, pending, limit, target, s, n);
    if count > 0 {
      var next := batch(s).value;
      if !next.1.done {
        CountedRun(batch, pending, limit, target, next.0, n - limit, count - 1);
        var rest := Repeated(batch, next.0, count - 1).value.1;
        var out := [next.1] + rest;
        forall i | 0 <= i < |out| - 1 ensures !out[i].done {
          if i > 0 { assert out[i] == rest[i - 1]; }
        }
      }
    }
  }
}
