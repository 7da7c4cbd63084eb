/** No key is lost across a chain of upgrades. */
module Coverage {
  import opened Host
  import opened KeyLog
  import opened Storage
  import opened Executor
  import opened Protocol
  import Version

  /** The version reads and writes default to. */
  function Current(s: Snapshot): u32 {
    if s.version.Some? then s.version.value else Version.INITIAL_VERSION
  }

  /** `key` is in the log a reader of `version` sees. */
  ghost predicate Holds(g: Logs, version: u32, key: Val) {
    Covered(g, version) && key in Visible(g, version)
  }

  /** No log was ever reset. */
  ghost predicate NeverReset(g: Logs) {
    SoundLogs(g) && forall v: u32 :: Covered(g, v) && Exact(g, v, Visible(g, v))
  }

  lemma RegisterHolds(g: Logs, version: u32, key: Val)
    requires NeverReset(g) && Registered(g, version, key).Ok?
    ensures var after := Registered(g, version, key).value;
            && NeverReset(after)
            && (forall v: u32, k :: Holds(after, v, k) <==> Holds(g, v, k) || (v == version && k == key))
  {
    var after := Registered(g, version, key).value;
    RegisterSound(g, version, key);
    RegisterAppends(g, version, Visible(g, version), key);
    ExactIsVisible(after, version, Visible(g, version) + [key]);
    forall v: u32 | v != version ensures Covered(after, v) && Visible(after, v) == Visible(g, v) {
      assert Covered(g, v) && Covered(after, v);
      OtherLogsSame(g, after, v);
    }
  }

  lemma {:induction false} WalkHolds(visit: Visitor, target: u32, start: Walk, keys: seq<Val>)
    requires NeverReset(start.logs) && Walked(visit, target, start, keys).Ok?
    ensures var after := Walked(visit, target, start, keys).value.logs;
            && NeverReset(after)
            && (forall v: u32, k :: Holds(after, v, k) <==> Holds(start.logs, v, k) || (v == target && k in keys))
  {
    if keys != [] {
      var n := |keys| - 1;
      WalkHolds(visit, target, start, keys[..n]);
      var w := Walked(visit, target, start, keys[..n]).value;
      RegisterHolds(w.logs, target, keys[n]);
      assert keys == keys[..n] + [keys[n]];
    }
  }

  /** Everything but `adopt`, rollback, and an `initialize` that declares a version other than
      the one unversioned writes were logged under. */
  ghost predicate UpgradeOnly(s0: Snapshot, a: Action) {
    match a
    case DoAdopt(_) => false
    case DoRollbackBegin(_) => false
    case DoRollbackBatch(_, _) => false
    case DoInitialize(version) => version == Version.INITIAL_VERSION || s0.version.Some?
    case _ => true
  }

  /** The keys `put` has successfully written. */
  ghost function PutKeys(s0: Snapshot, actions: seq<Action>): set<Val> {
    if actions == [] then {} else
      var n := |actions| - 1;
      var s, a := Run(s0, actions[..n]), actions[n];
      PutKeys(s0, actions[..n]) + if a.DoPut? && Version.PutStep(s, a.key, a.value).Ok? then {a.key} else {}
  }

  /** A contract that has logged nothing yet. */
  ghost predicate Untouched(s: Snapshot) {
    s.logs == EMPTY.logs && s.record.None?
  }

  /** Every key is in the log of the current version or the next. */
  ghost predicate Logged(s: Snapshot, keys: set<Val>) {
    forall k :: k in keys ==> Holds(s.logs, Current(s), k) || Holds(s.logs, SaturatingAdd(Current(s), 1), k)
  }

  /** Every key is in the log of the current version. */
  ghost predicate Collected(s: Snapshot, keys: set<Val>) {
    forall k :: k in keys ==> Holds(s.logs, Current(s), k)
  }

  /** The first `n` keys of the log of `from` are in the log of `to`. */
  ghost predicate Carried(g: Logs, from: u32, to: u32, n: nat) {
    Covered(g, from) && n <= Len(g, from) && forall k :: k in Visible(g, from)[..n] ==> Holds(g, to, k)
  }

  ghost predicate Tracked(s: Snapshot, keys: set<Val>) {
    && Sound(s) && NeverReset(s.logs)
    && (s.record.Some? ==> s.record.value.status.Running? || s.record.value.status.Completed?)
    && Logged(s, keys)
    && (s.record.Some? && s.record.value.status.Running? ==>
          Carried(s.logs, s.record.value.from, s.record.value.to, s.record.value.cursor))
  }

  lemma RegisterCarries(g: Logs, version: u32, key: Val, from: u32, to: u32, n: nat)
    requires NeverReset(g) && Registered(g, version, key).Ok? && Carried(g, from, to, n)
    ensures Carried(Registered(g, version, key).value, from, to, n)
  {
    var after := Registered(g, version, key).value;
    RegisterHolds(g, version, key);
    RegisterSound(g, version, key);
    assert Covered(after, from);
    PrefixKept(g, after, from, n);
  }

  lemma RegisterKeepsTracked(s: Snapshot, version: u32, key: Val, keys: set<Val>)
    requires Tracked(s, keys) && Registered(s.logs, version, key).Ok?
    ensures var after := s.(logs := Registered(s.logs, version, key).value);
            && Tracked(after, keys)
            && (version == Current(s) || version == SaturatingAdd(Current(s), 1) ==> Tracked(after, keys + {key}))
  {
    RegisterHolds(s.logs, version, key);
    RegisterSound(s.logs, version, key);
    if s.record.Some? && s.record.value.status.Running? {
      var r := s.record.value;
      RegisterCarries(s.logs, version, key, r.from, r.to, r.cursor);
    }
  }

  /** Walking the window behind the carried prefix carries the window too. */
  lemma WalkCarries(before: Logs, from: u32, to: u32, cursor: nat, keys: seq<Val>, after: Logs)
    requires SoundLogs(before) && Carried(before, from, to, cursor)
    requires cursor + |keys| <= Len(before, from) && keys == Visible(before, from)[cursor..cursor + |keys|]
    requires SoundLogs(after) && Extends(before, after)
    requires forall v: u32, k :: Holds(after, v, k) <==> Holds(before, v, k) || (v == to && k in keys)
    ensures Carried(after, from, to, cursor + |keys|)
  {
    var log := Visible(before, from);
    assert Covered(after, from);
    PrefixKept(before, after, from, cursor + |keys|);
    forall k | k in log[..cursor + |keys|] ensures Holds(after, to, k) {
      assert log[..cursor + |keys|] == log[..cursor] + keys;
      assert k in log[..cursor] ==> Holds(before, to, k);
    }
  }

  lemma AllCarried(g: Logs, from: u32, to: u32, k: Val)
    requires Carried(g, from, to, Len(g, from)) && (Holds(g, from, k) || Holds(g, to, k))
    ensures Holds(g, to, k)
  {
    assert Visible(g, from)[..Len(g, from)] == Visible(g, from);
  }

  lemma CheckpointCarries(s: Snapshot, m: Migration, limit: nat, keys: seq<Val>, w: Walk)
    requires Sound(s) && NeverReset(s.logs)
    requires s.record.Some? && s.record.value.status.Running? && Advances(s, m, limit, keys, w)
    requires NeverReset(w.logs)
             && (forall v: u32, k :: Holds(w.logs, v, k) <==> Holds(s.logs, v, k) || (v == m.to && k in keys))
    requires Carried(s.logs, s.record.value.from, s.record.value.to, s.record.value.cursor)
    ensures var r := s.record.value;
            var after := Checkpoint(s, w, |keys|).0;
            && NeverReset(after.logs)
            && after.record.Some? && after.record.value.from == r.from && after.record.value.to == r.to
            && Carried(after.logs, r.from, r.to, after.record.value.cursor)
            && (forall v: u32, k :: Holds(s.logs, v, k) ==> Holds(after.logs, v, k))
            && (|| (after.version == Some(r.from) && after.record.value.status.Running?)
                || (&& after.version == Some(r.to) && after.record.value.status.Completed?
                    && after.record.value.cursor == Len(after.logs, r.from)))
  {
    WalkCarries(s.logs, m.from, m.to, s.record.value.cursor, keys, w.logs);
  }

  /** A committed batch carries its window into the `to` log and forgets no key. */
  lemma BatchCarries(s: Snapshot, m: Migration, limit: u32)
    requires Sound(s) && NeverReset(s.logs)
    requires s.record.Some? && s.record.value.status.Running? && BatchStep(s, m, limit).Ok?
    requires Carried(s.logs, s.record.value.from, s.record.value.to, s.record.value.cursor)
    ensures var r := s.record.value;
            var after := BatchStep(s, m, limit).value.0;
            && NeverReset(after.logs)
            && after.record.Some? && after.record.value.from == r.from && after.record.value.to == r.to
            && Carried(after.logs, r.from, r.to, after.record.value.cursor)
            && (forall v: u32, k :: Holds(s.logs, v, k) ==> Holds(after.logs, v, k))
            && (|| (after.version == Some(r.from) && after.record.value.status.Running?)
                || (&& after.version == Some(r.to) && after.record.value.status.Completed?
                    && after.record.value.cursor == Len(after.logs, r.from)))
  {
    var keys, w := BatchWalk(s, m, limit);
    WalkHolds(m.up, m.to, StartOf(s), keys);
    CheckpointCarries(s, m, limit, keys, w);
  }

  lemma BatchTracks(s: Snapshot, m: Migration, limit: u32, keys: set<Val>)
    requires Tracked(s, keys) && s.record.Some? && s.record.value.status.Running? && BatchStep(s, m, limit).Ok?
    ensures Tracked(BatchStep(s, m, limit).value.0, keys)
    ensures var after := BatchStep(s, m, limit).value.0;
            after.record.value.status.Completed? ==> forall k :: k in keys ==> Holds(after.logs, Current(after), k)
  {
    BatchKeepsSound(s, m, limit);
    BatchCarries(s, m, limit);
    var after := BatchStep(s, m, limit).value.0;
    var r := after.record.value;
    if r.status.Completed? {
      forall k | k in keys ensures Holds(after.logs, r.to, k) {
        AllCarried(after.logs, r.from, r.to, k);
      }
    }
  }

  lemma PutTracks(s: Snapshot, key: Val, value: Val, keys: set<Val>)
    requires Tracked(s, keys) && Version.PutStep(s, key, value).Ok?
    ensures Tracked(Apply(s, DoPut(key, value)), keys + {key})
  {
    StepKeepsSound(s, DoPut(key, value));
    RegisterKeepsTracked(s.(entries := Stored(s.entries, key, Some(value))), Version.CurrentVersion(s), key, keys);
  }

  lemma StepTracks(s0: Snapshot, s: Snapshot, a: Action, keys: set<Val>)
    requires Tracked(s, keys) && UpgradeOnly(s0, a)
    requires s0.version.Some? ==> s.version.Some?
    ensures Tracked(Apply(s, a), if a.DoPut? && Version.PutStep(s, a.key, a.value).Ok? then keys + {a.key} else keys)
    ensures s0.version.Some? ==> Apply(s, a).version.Some?
  {
    StepKeepsSound(s, a);
    match a
    case DoPut(key, value) =>
      if Version.PutStep(s, key, value).Ok? { PutTracks(s, key, value, keys); }
    case DoRegister(version, key) =>
      if Registered(s.logs, version, key).Ok? { RegisterKeepsTracked(s, version, key, keys); }
    case DoBatch(m, limit) =>
      if s.record.Some? && s.record.value.status.Running? && BatchStep(s, m, limit).Ok? {
        BatchTracks(s, m, limit, keys);
      }
    case _ =>
  }

  lemma {:induction false} RunTracks(s0: Snapshot, actions: seq<Action>)
    requires Untouched(s0) && forall a :: a in actions ==> UpgradeOnly(s0, a)
    ensures Tracked(Run(s0, actions), PutKeys(s0, actions))
    ensures s0.version.Some? ==> Run(s0, actions).version.Some?
  {
    if actions == [] {
      forall v: u32 ensures Covered(s0.logs, v) && Exact(s0.logs, v, Visible(s0.logs, v)) {
        assert Exact(s0.logs, v, []);
        ExactIsVisible(s0.logs, v, []);
      }
    } else {
      var n := |actions| - 1;
      RunTracks(s0, actions[..n]);
      StepTracks(s0, Run(s0, actions[..n]), actions[n], PutKeys(s0, actions[..n]));
    }
  }

  /** In every run of upgrades, whichever migrations run and however they interleave with the
      application, each key ever `put` is in the log of the current version or the next. */
  lemma {:induction false} NoKeyLost(s0: Snapshot, actions: seq<Action>)
    requires Untouched(s0) && forall a :: a in actions ==> UpgradeOnly(s0, a)
    ensures Logged(Run(s0, actions), PutKeys(s0, actions))
  {
    RunTracks(s0, actions);
  }

  /** And the invocation that completes an upgrade leaves every one of them in the log of the
      version it advances to, so the next upgrade will visit it. */
  lemma {:induction false} CompletionCollectsEveryKey(s0: Snapshot, actions: seq<Action>, m: Migration, limit: u32)
    requires Untouched(s0) && forall a :: a in actions ==> UpgradeOnly(s0, a)
    requires var s := Run(s0, actions); s.record.Some? && s.record.value.status.Running?
    requires var after := Apply(Run(s0, actions), DoBatch(m, limit));
             after.record.Some? && after.record.value.status.Completed?
    ensures Collected(Apply(Run(s0, actions), DoBatch(m, limit)), PutKeys(s0, actions))
  {
    RunTracks(s0, actions);
    BatchTracks(Run(s0, actions), m, limit, PutKeys(s0, actions));
  }

  /** Why `initialize` is restricted: a write before the contract declares any other version is
      logged under version 1 and no upgrade from the declared version will ever visit it. */
  lemma LateInitializeStrandsKeys(key: Val, value: Val, version: u32)
    requires version > 1
    ensures var s := Run(EMPTY, [DoPut(key, value), DoInitialize(version)]);
            && s.version == Some(version) && Lookup(s.entries, key) == Some(value)
            && !Holds(s.logs, version, key) && !Holds(s.logs, SaturatingAdd(version, 1), key)
  {
    var actions := [DoPut(key, value), DoInitialize(version)];
    var put := Apply(EMPTY, actions[0]);
    assert actions[..1] == [actions[0]];
    assert Run(EMPTY, actions[..1][..0]) == EMPTY;
    assert Run(EMPTY, actions[..1]) == put;
    assert Run(EMPTY, actions) == Apply(put, actions[1]);
    assert Len(put.logs, version) == 0 && Len(put.logs, SaturatingAdd(version, 1)) == 0;
  }
}
