/** What a forward migration does to entries over whole runs: batching is invisible, and a
    live contract ends up entirely in the new shape. */
module Forward {
  import opened Host
  import opened KeyLog
  import opened Storage
  import opened Executor
  import opened Protocol

  /** A second visit succeeds and leaves what the first one left. */
  ghost predicate Settles(visit: Visitor, key: Val, entry: Option<Val>) {
    visit(key, entry).Visited? ==>
      var again := visit(key, visit(key, entry).entry);
      again.Visited? && again.entry == visit(key, entry).entry
  }

  ghost predicate Idempotent(visit: Visitor) {
    forall key, entry :: Settles(visit, key, entry)
  }

  /** `up` has nothing to do here. */
  ghost predicate Stable(visit: Visitor, key: Val, entry: Option<Val>) {
    visit(key, entry).Visited? && visit(key, entry).entry == entry
  }

  /** What key `k` holds when the keys of `keys` have been visited once each. */
  ghost function Once(visit: Visitor, before: map<Val, Val>, keys: seq<Val>, k: Val): Option<Val> {
    var held := Lookup(before, k);
    if k in keys && visit(k, held).Visited? then visit(k, held).entry else held
  }

  /** `after` is `before` with each key of `keys` visited once. */
  ghost predicate VisitedOnce(visit: Visitor, before: map<Val, Val>, after: map<Val, Val>, keys: seq<Val>) {
    && (forall k :: k in keys ==> visit(k, Lookup(before, k)).Visited?)
    && (forall k :: Lookup(after, k) == Once(visit, before, keys, k))
  }

  /** A walk visits each of its keys once, however often the key occurs in it. */
  lemma {:induction false} WalkVisitsOnce(visit: Visitor, target: u32, start: Walk, keys: seq<Val>)
    requires Idempotent(visit) && Walked(visit, target, start, keys).Ok?
    ensures VisitedOnce(visit, start.entries, Walked(visit, target, start, keys).value.entries, keys)
  {
    if keys != [] {
      var n := |keys| - 1;
      WalkVisitsOnce(visit, target, start, keys[..n]);
      var w := Walked(visit, target, start, keys[..n]).value;
      assert Settles(visit, keys[n], Lookup(start.entries, keys[n]));
      forall k ensures k in keys <==> k in keys[..n] || k == keys[n] {
        assert keys == keys[..n] + [keys[n]];
      }
    }
  }

  // ----- Batched equals one-shot -----

  /** The operator's moves on one migration: begin or resume, any batch, abandon, clear. */
  ghost predicate Drives(m: Migration, a: Action) {
    || (a.DoBegin? && a.m == m)
    || (a.DoBatch? && a.m == m)
    || a.DoAbort?
    || a.DoClear?
  }

  /** The contract is at `m.from` and no migration is in flight. */
  ghost predicate ReadyFor(s: Snapshot, m: Migration) {
    && Sound(s) && m.from < U32_MAX && m.to == m.from + 1
    && s.version == Some(m.from)
    && (s.record.Some? ==> !s.record.value.IsActive())
  }

  /** Since `s0`, exactly the first `reached` keys of the `from` log have been visited, once. */
  ghost predicate Partway(s0: Snapshot, s: Snapshot, m: Migration, reached: nat)
    requires ReadyFor(s0, m)
  {
    assert Covered(s0.logs, m.from);
    var log := Visible(s0.logs, m.from);
    && Sound(s) && reached <= |log|
    && Covered(s.logs, m.from) && Visible(s.logs, m.from) == log
    && VisitedOnce(m.up, s0.entries, s.entries, log[..reached])
    && (s.version == Some(m.from) || (s.version == Some(m.to) && reached == |log|))
    && (s.record.Some? && s.record.value.IsActive() ==>
          && s.record.value.status.Running? && s.record.value.from == m.from && s.record.value.to == m.to
          && s.record.value.cursor <= reached)
  }

  lemma OtherLogKept(s: Snapshot, w: Logs, v: u32)
    requires SoundLogs(s.logs) && SoundLogs(w) && Extends(s.logs, w) && Len(w, v) == Len(s.logs, v)
    ensures Covered(s.logs, v) && Covered(w, v) && Visible(w, v) == Visible(s.logs, v)
  {
    assert Covered(s.logs, v) && Covered(w, v);
    OtherLogsSame(s.logs, w, v);
  }

  /** Visiting a window that starts inside the visited prefix extends the prefix. */
  lemma PrefixGrows(visit: Visitor, e0: map<Val, Val>, e: map<Val, Val>, after: map<Val, Val>,
                    log: seq<Val>, reached: nat, from: nat, to: nat, window: seq<Val>)
    requires Idempotent(visit)
    requires from <= to <= |log| && from <= reached <= |log| && window == log[from..to]
    requires VisitedOnce(visit, e0, e, log[..reached])
    requires VisitedOnce(visit, e, after, window)
    ensures VisitedOnce(visit, e0, after, log[..Max(reached, to)])
  {
    var prefix, longer := log[..reached], log[..Max(reached, to)];
    forall k ensures k in longer <==> k in prefix || k in window {
      if k in longer {
        var i :| 0 <= i < |longer| && longer[i] == k;
        if i >= reached { assert window[i - from] == k; } else { assert prefix[i] == k; }
      }
      if k in prefix {
        var i :| 0 <= i < |prefix| && prefix[i] == k;
        assert longer[i] == k;
      }
      if k in window {
        var i :| 0 <= i < |window| && window[i] == k;
        assert longer[from + i] == k;
      }
    }
    forall k ensures Settles(visit, k, Lookup(e0, k)) {}
    forall k | k in longer ensures visit(k, Lookup(e0, k)).Visited? {}
    forall k ensures Lookup(after, k) == Once(visit, e0, longer, k) {
      assert Settles(visit, k, Lookup(e0, k));
    }
  }

  /** Checkpointing a walk that stayed within the log. */
  lemma CheckpointPartway(s0: Snapshot, s: Snapshot, m: Migration, w: Walk, visited: nat, log: seq<Val>, next: nat)
    requires ReadyFor(s0, m) && s.record.Some? && s.record.value.from == m.from && s.record.value.to == m.to
    requires w.tally.migrated + w.tally.alreadyCurrent + w.tally.skipped == visited <= U32_MAX
    requires s.version == Some(m.from) && s.record.value.cursor + visited <= next <= |log| == Len(w.logs, m.from)
    requires Covered(s0.logs, m.from) && Visible(s0.logs, m.from) == log
    requires Covered(w.logs, m.from) && Visible(w.logs, m.from) == log
    requires VisitedOnce(m.up, s0.entries, w.entries, log[..next]) && Sound(Checkpoint(s, w, visited).0)
    ensures Partway(s0, Checkpoint(s, w, visited).0, m, next)
  {}

  lemma BatchAdvances(s0: Snapshot, s: Snapshot, m: Migration, limit: u32, reached: nat) returns (next: nat)
    requires ReadyFor(s0, m) && Idempotent(m.up) && Partway(s0, s, m, reached)
    ensures Partway(s0, Committed(s, BatchStep(s, m, limit)), m, next)
  {
    next := reached;
    if s.record.Some? && s.record.value.status.Running? && BatchStep(s, m, limit).Ok? {
      var keys, w := BatchWalk(s, m, limit);
      BatchKeepsSound(s, m, limit);
      WalkVisitsOnce(m.up, m.to, StartOf(s), keys);
      next := WalkAdvances(s0, s, m, limit, reached, keys, w);
    }
  }

  lemma WalkAdvances(s0: Snapshot, s: Snapshot, m: Migration, limit: nat, reached: nat, keys: seq<Val>, w: Walk)
    returns (next: nat)
    requires ReadyFor(s0, m) && Idempotent(m.up) && Partway(s0, s, m, reached)
    requires s.record.Some? && s.record.value.status.Running? && Advances(s, m, limit, keys, w)
    requires VisitedOnce(m.up, s.entries, w.entries, keys)
    requires Sound(Checkpoint(s, w, |keys|).0)
    ensures Partway(s0, Checkpoint(s, w, |keys|).0, m, next)
  {
    assert Covered(s.logs, m.from) && Covered(s0.logs, m.from);
    var log, c := Visible(s0.logs, m.from), s.record.value.cursor;
    assert Visible(s.logs, m.from) == log;
    PrefixGrows(m.up, s0.entries, s.entries, w.entries, log, reached, c, c + |keys|, keys);
    OtherLogKept(s, w.logs, m.from);
    next := Max(reached, c + |keys|);
    CheckpointPartway(s0, s, m, w, |keys|, log, next);
  }

  lemma DriveStep(s0: Snapshot, s: Snapshot, m: Migration, a: Action, reached: nat) returns (next: nat)
    requires ReadyFor(s0, m) && Idempotent(m.up) && Partway(s0, s, m, reached) && Drives(m, a)
    ensures Partway(s0, Apply(s, a), m, next)
  {
    if a.DoBatch? {
      next := BatchAdvances(s0, s, m, a.limit, reached);
    } else {
      next := reached;
    }
  }

  lemma {:induction false} DrivenRun(s0: Snapshot, m: Migration, actions: seq<Action>) returns (reached: nat)
    requires ReadyFor(s0, m) && Idempotent(m.up)
    requires forall a :: a in actions ==> Drives(m, a)
    ensures Partway(s0, Run(s0, actions), m, reached)
  {
    if actions == [] {
      assert Covered(s0.logs, m.from);
      reached := 0;
    } else {
      var n := |actions| - 1;
      reached := DrivenRun(s0, m, actions[..n]);
      reached := DriveStep(s0, Run(s0, actions[..n]), m, actions[n], reached);
    }
  }

  /** However a migration is driven to completion — batch limits, refused and reverted batches,
      repeated begins, abandoning and starting over — the entries are those of applying `up`
      once to each key of the `from` log, and the log is untouched. */
  lemma BatchedEqualsOneShot(s0: Snapshot, m: Migration, actions: seq<Action>)
    requires ReadyFor(s0, m) && Idempotent(m.up)
    requires forall a :: a in actions ==> Drives(m, a)
    requires Run(s0, actions).version == Some(m.to)
    ensures Covered(s0.logs, m.from)
    ensures VisitedOnce(m.up, s0.entries, Run(s0, actions).entries, Visible(s0.logs, m.from))
    ensures Covered(Run(s0, actions).logs, m.from) && Visible(Run(s0, actions).logs, m.from) == Visible(s0.logs, m.from)
  {
    var reached := DrivenRun(s0, m, actions);
    assert Covered(s0.logs, m.from);
    var log := Visible(s0.logs, m.from);
    assert log[..|log|] == log;
  }

  // ----- Live completion -----

  /** What a live contract may do during `m`: besides driving it, write values `up` would leave
      alone, remove entries, and register keys late, in any log. */
  ghost predicate LiveStep(m: Migration, a: Action) {
    || Drives(m, a)
    || (a.DoPut? && Stable(m.up, a.key, Some(a.value)))
    || (a.DoPutUnindexed? && Stable(m.up, a.key, Some(a.value)))
    || (a.DoRemove? && Stable(m.up, a.key, None))
    || a.DoRegister?
  }

  /** The keys an invocation writes for the application. */
  ghost function Writes(s: Snapshot, a: Action): set<Val> {
    match a
    case DoPut(key, value) => if Version.PutStep(s, key, value).Ok? then {key} else {}
    case DoPutUnindexed(key, _) => {key}
    case _ => {}
  }

  ghost function WrittenSince(s0: Snapshot, actions: seq<Action>): set<Val> {
    if actions == [] then {} else
      var n := |actions| - 1;
      WrittenSince(s0, actions[..n]) + Writes(Run(s0, actions[..n]), actions[n])
  }

  /** While the version is still `from`: everything behind the cursor and everything written
      since is settled. */
  ghost predicate Settled(s: Snapshot, m: Migration, written: set<Val>) {
    && Sound(s) && Covered(s.logs, m.from)
    && (s.version == Some(m.from) || s.version == Some(m.to))
    && (s.record.Some? && s.record.value.IsActive() ==>
          s.record.value.status.Running? && s.record.value.from == m.from && s.record.value.to == m.to)
    && (s.version == Some(m.from) ==>
          && (forall k :: k in written ==> Stable(m.up, k, Lookup(s.entries, k)))
          && (s.record.Some? && s.record.value.IsActive() ==>
                forall k :: k in Visible(s.logs, m.from)[..s.record.value.cursor] ==>
                         Stable(m.up, k, Lookup(s.entries, k))))
  }

  lemma WalkSettles(visit: Visitor, before: map<Val, Val>, after: map<Val, Val>, keys: seq<Val>, k: Val)
    requires Idempotent(visit) && VisitedOnce(visit, before, after, keys)
    requires k in keys || Stable(visit, k, Lookup(before, k))
    ensures Stable(visit, k, Lookup(after, k))
  {
    assert Settles(visit, k, Lookup(before, k));
  }

  lemma WindowSettles(visit: Visitor, before: map<Val, Val>, after: map<Val, Val>,
                      log: seq<Val>, from: nat, to: nat, window: seq<Val>, written: set<Val>)
    requires from <= to <= |log| && window == log[from..to]
    requires Idempotent(visit) && VisitedOnce(visit, before, after, window)
    requires forall k :: k in written || k in log[..from] ==> Stable(visit, k, Lookup(before, k))
    ensures forall k :: k in written || k in log[..to] ==> Stable(visit, k, Lookup(after, k))
  {
    assert log[..to] == log[..from] + window;
    forall k | k in written || k in log[..to] ensures Stable(visit, k, Lookup(after, k)) {
      WalkSettles(visit, before, after, window, k);
    }
  }

  /** A committed batch settles its window, and the batch that advances the version has settled
      the whole log. */
  lemma CheckpointSettles(s: Snapshot, m: Migration, limit: nat, keys: seq<Val>, w: Walk, written: set<Val>)
    requires m.from < U32_MAX && m.to == m.from + 1 && Idempotent(m.up)
    requires Settled(s, m, written) && s.version == Some(m.from)
    requires s.record.Some? && s.record.value.status.Running? && Advances(s, m, limit, keys, w)
    requires VisitedOnce(m.up, s.entries, w.entries, keys)
    ensures var after := Checkpoint(s, w, |keys|).0;
            var log := Visible(s.logs, m.from);
            && after.record.Some? && after.record.value.cursor <= |log|
            && after.record.value.from == m.from && after.record.value.to == m.to
            && (after.record.value.status.Running? || after.record.value.status.Completed?)
            && SoundLogs(after.logs) && Covered(after.logs, m.from) && Visible(after.logs, m.from) == log
            && (forall k :: k in written || k in log[..after.record.value.cursor] ==>
                 Stable(m.up, k, Lookup(after.entries, k)))
            && (after.version == Some(m.from) || (after.version == Some(m.to) && after.record.value.cursor == |log|))
  {
    assert Covered(s.logs, m.from);
    var log, c := Visible(s.logs, m.from), s.record.value.cursor;
    OtherLogKept(s, w.logs, m.from);
    WindowSettles(m.up, s.entries, w.entries, log, c, c + |keys|, keys, written);
    var after := Checkpoint(s, w, |keys|).0;
    assert after.logs == w.logs && after.entries == w.entries && after.record.value.cursor == c + |keys|;
  }

  lemma BatchSettles(s: Snapshot, m: Migration, limit: u32, written: set<Val>)
    requires m.from < U32_MAX && m.to == m.from + 1 && Idempotent(m.up)
    requires Settled(s, m, written) && s.version == Some(m.from)
    requires s.record.Some? && s.record.value.status.Running? && BatchStep(s, m, limit).Ok?
    ensures var after := BatchStep(s, m, limit).value.0;
            var log := Visible(s.logs, m.from);
            && after.record.Some? && after.record.value.cursor <= |log|
            && after.record.value.from == m.from && after.record.value.to == m.to
            && (after.record.value.status.Running? || after.record.value.status.Completed?)
            && SoundLogs(after.logs) && Covered(after.logs, m.from) && Visible(after.logs, m.from) == log
            && (forall k :: k in written || k in log[..after.record.value.cursor] ==>
                 Stable(m.up, k, Lookup(after.entries, k)))
            && (after.version == Some(m.from) || (after.version == Some(m.to) && after.record.value.cursor == |log|))
  {
    var keys, w := BatchWalk(s, m, limit);
    WalkVisitsOnce(m.up, m.to, StartOf(s), keys);
    CheckpointSettles(s, m, limit, keys, w, written);
  }

  lemma RegisterKeepsSettled(s: Snapshot, m: Migration, version: u32, key: Val, written: set<Val>)
    requires Settled(s, m, written) && Registered(s.logs, version, key).Ok?
    ensures Settled(s.(logs := Registered(s.logs, version, key).value), m, written)
  {
    var logs := Registered(s.logs, version, key).value;
    RegisterSound(s.logs, version, key);
    assert Covered(logs, m.from);
    ExtendsVisible(s.logs, logs, m.from);
    var n := Len(s.logs, m.from);
    if s.record.Some? && s.record.value.IsActive() && s.version == Some(m.from) {
      var c := s.record.value.cursor;
      assert Visible(logs, m.from)[..c] == Visible(logs, m.from)[..n][..c];
    }
  }

  lemma PutKeepsSettled(s: Snapshot, m: Migration, key: Val, value: Val, written: set<Val>)
    requires m.from < U32_MAX && m.to == m.from + 1
    requires Settled(s, m, written) && Stable(m.up, key, Some(value))
    ensures Settled(Apply(s, DoPut(key, value)), m, written + Writes(s, DoPut(key, value)))
  {
    var stored := s.(entries := Stored(s.entries, key, Some(value)));
    assert Settled(stored, m, written + {key});
    if Version.PutStep(s, key, value).Ok? {
      RegisterKeepsSettled(stored, m, Version.CurrentVersion(s), key, written + {key});
    }
  }

  lemma LiveStepKeepsSettled(s: Snapshot, m: Migration, a: Action, written: set<Val>)
    requires m.from < U32_MAX && m.to == m.from + 1 && Idempotent(m.up)
    requires Settled(s, m, written) && LiveStep(m, a)
    ensures Settled(Apply(s, a), m, written + Writes(s, a))
  {
    StepKeepsSound(s, a);
    match a
    case DoPut(key, value) => PutKeepsSettled(s, m, key, value, written);
    case DoRegister(version, key) =>
      if Registered(s.logs, version, key).Ok? { RegisterKeepsSettled(s, m, version, key, written); }
    case DoBatch(_, limit) =>
      if s.version == Some(m.from) && s.record.Some? && s.record.value.status.Running? && BatchStep(s, m, limit).Ok? {
        BatchSettles(s, m, limit, written);
      }
    case _ =>
  }

  lemma {:induction false} LiveRunSettles(s0: Snapshot, m: Migration, actions: seq<Action>)
    requires ReadyFor(s0, m) && Idempotent(m.up)
    requires forall a :: a in actions ==> LiveStep(m, a)
    ensures Settled(Run(s0, actions), m, WrittenSince(s0, actions))
  {
    if actions == [] {
      assert Covered(s0.logs, m.from);
    } else {
      var n := |actions| - 1;
      LiveRunSettles(s0, m, actions[..n]);
      LiveStepKeepsSettled(Run(s0, actions[..n]), m, actions[n], WrittenSince(s0, actions[..n]));
    }
  }

  /** Under any interleaving of batches, application writes in the new shape, removals and late
      registrations, the invocation that advances the version leaves nothing for `up` to do:
      not at any key of the `from` log, whenever it was registered, and not at any key written
      since the migration began. */
  lemma LiveCompletion(s0: Snapshot, m: Migration, actions: seq<Action>, limit: u32)
    requires ReadyFor(s0, m) && Idempotent(m.up)
    requires forall a :: a in actions ==> LiveStep(m, a)
    requires Run(s0, actions).version == Some(m.from)
    requires Apply(Run(s0, actions), DoBatch(m, limit)).version == Some(m.to)
    ensures var s := Apply(Run(s0, actions), DoBatch(m, limit));
            && Covered(s.logs, m.from)
            && (forall k :: k in Visible(s.logs, m.from) ==> Stable(m.up, k, Lookup(s.entries, k)))
            && (forall k :: k in WrittenSince(s0, actions) ==> Stable(m.up, k, Lookup(s.entries, k)))
  {
    LiveRunSettles(s0, m, actions);
    var s := Run(s0, actions);
    BatchSettles(s, m, limit, WrittenSince(s0, actions));
    var log := Visible(s.logs, m.from);
    assert log[..|log|] == log;
  }
}
