/** The rule for a contract that stays live during a migration, "write the new shape", measured
    against what the real migrations do to new-shaped entries. */
module Live {
  import opened Host
  import opened KeyLog
  import opened Schemas
  import opened Gate
  import opened Codegen
  import opened Generated
  import opened Rewrites
  import opened Rereads
  import opened Repeats
  import opened Reruns
  import opened Revisits
  import opened Storage
  import opened Protocol
  import opened Forward
  import opened Derived
  import opened Inverses

  /** The documented rule is enough: `up` leaves every new-shaped entry alone. */
  ghost predicate NewShapeIsEnough(visit: Visitor, types: Types, fields: seq<Field>) {
    forall key, raw :: Conforms(types, fields, raw) ==> Stable(visit, key, Some(Record(raw)))
  }

  // ----- The derive -----

  /** Nothing `up` would fill: every `init` field has a value, or the entry is not of this shape. */
  predicate FullyPopulated(types: Types, fields: seq<Field>, init: seq<(string, string)>, entry: Option<Val>) {
    entry.Some? && entry.value.Record? && Readable(types, fields, entry.value.fields) ==>
      forall i :: 0 <= i < |init| ==> Present(entry.value.fields, init[i].0)
  }

  /** The derived `up` leaves alone exactly those entries. */
  lemma DerivedLeavesAloneIff(types: Types, eval: Eval, a: Attributes, key: Val, entry: Option<Val>)
    requires Derives(types, eval, a)
    ensures Stable(DerivedUp(types, eval, a), key, entry) <==> FullyPopulated(types, a.shape.value, a.init, entry)
  {
    var fields, init := a.shape.value, a.init;
    if entry.Some? && entry.value.Record? && Readable(types, fields, entry.value.fields) {
      var raw := entry.value.fields;
      var start := Scratch(Decode(types, fields, raw).value, false);
      forall n ensures IsInit(init, n) ==> n in Names(fields) {
        if IsInit(init, n) {
          var i :| 0 <= i < |init| && init[i].0 == n;
          assert init[i] in init && OptionalIn(fields, n);
        }
      }
      if FullyPopulated(types, fields, init, entry) {
        FillsNothing(eval, init, start);
      } else if Execute(eval, Fills(init), start).Some? {
        var i :| 0 <= i < |init| && !Present(raw, init[i].0);
        assert IsInit(init, init[i].0) && init[i].0 !in start.entry;
        FillsFill(types, fields, eval, init, start);
        FilledConforms(types, fields, init, raw, Execute(eval, Fills(init), start).value);
        ConformsMeans(types, fields, Execute(eval, Fills(init), start).value.entry);
      }
    }
  }

  /** For the derive the documented rule is enough only when there is nothing to fill: an entry
      the new code wrote with one of the fields `None` is filled like any other. */
  lemma DerivedNewShapeIff(types: Types, eval: Eval, a: Attributes)
    requires Derives(types, eval, a)
    ensures NewShapeIsEnough(DerivedUp(types, eval, a), types, a.shape.value)
       <==> a.init == []
  {
    var fields, init := a.shape.value, a.init;
    var up := DerivedUp(types, eval, a);
    if init == [] {
      forall key, raw | Conforms(types, fields, raw) ensures Stable(up, key, Some(Record(raw))) {
        DerivedLeavesAloneIff(types, eval, a, key, Some(Record(raw)));
      }
    } else {
      var raw := FullEntry(types, fields) - {init[0].0};
      assert init[0] in init && OptionalIn(fields, init[0].0);
      FullButOne(types, fields, FieldIn(fields, init[0].0).value, Void);
      ConformsMeans(types, fields, raw);
      assert !Present(raw, init[0].0);
      DerivedLeavesAloneIff(types, eval, a, Void, Some(Record(raw)));
    }
  }

  /** What an application may do during a derived migration. */
  ghost predicate PopulatingStep(types: Types, fields: seq<Field>, init: seq<(string, string)>, m: Migration,
                                 a: Action) {
    || Drives(m, a)
    || (a.DoPut? && FullyPopulated(types, fields, init, Some(a.value)))
    || (a.DoPutUnindexed? && FullyPopulated(types, fields, init, Some(a.value)))
    || a.DoRemove?
    || a.DoRegister?
  }

  /** If every write during the migration fills the new fields, then when the version advances
      every entry of the `from` log, and every entry written meanwhile, has them all. */
  lemma DerivedLiveCompletion(types: Types, eval: Eval, a: Attributes, s0: Snapshot, actions: seq<Action>, limit: u32)
    requires Derives(types, eval, a)
    requires ReadyFor(s0, DerivedMigration(types, eval, a))
    requires forall x :: x in actions ==>
               PopulatingStep(types, a.shape.value, a.init, DerivedMigration(types, eval, a), x)
    requires Run(s0, actions).version == Some(a.from)
    requires Apply(Run(s0, actions), DoBatch(DerivedMigration(types, eval, a), limit)).version == Some(a.to)
    ensures var s := Apply(Run(s0, actions), DoBatch(DerivedMigration(types, eval, a), limit));
            && Covered(s.logs, a.from)
            && forall k :: k in Visible(s.logs, a.from) || k in WrittenSince(s0, actions) ==>
                 FullyPopulated(types, a.shape.value, a.init, Lookup(s.entries, k))
  {
    var m, fields := DerivedMigration(types, eval, a), a.shape.value;
    UpIdempotent(types, eval, a);
    forall key, entry ensures Stable(m.up, key, entry) <==> FullyPopulated(types, fields, a.init, entry) {
      DerivedLeavesAloneIff(types, eval, a, key, entry);
    }
    forall x | x in actions ensures LiveStep(m, x) {
      assert PopulatingStep(types, fields, a.init, m, x);
    }
    LiveCompletion(s0, m, actions, limit);
  }

  // ----- The generator -----

  /** The emitted `up` leaves a new-shaped entry alone exactly when its shadow cannot read it or it
      already agrees with everything the migration would write. */
  lemma GeneratedLeavesAloneIff(mn: Meaning, from: Schema, to: Schema, p: Program, key: Val, raw: Fields)
    requires Shaped(from, to, p) && Conforms(mn.types, to.fields, raw)
    ensures Stable(UpVisitor(mn, from, to, p), key, Some(Record(raw)))
       <==> !ShadowReads(mn.types, from, p.consumers, raw) || Agrees(mn, p, raw)
  {
    if BothRead(mn, from, to, p, raw) {
      StableStructIff(mn, from, to, p, raw);
    }
  }

  /** The expression gives back what the field holds, in every new-shaped entry. */
  ghost predicate Echoes(mn: Meaning, from: Schema, to: Schema, p: Program, a: (string, string)) {
    forall raw :: Conforms(mn.types, to.fields, raw) && ShadowReads(mn.types, from, p.consumers, raw) ==>
      EchoesIn(mn, a, raw)
  }

  predicate EchoesIn(mn: Meaning, a: (string, string), raw: Fields) {
    At(raw, a.0) == Some(mn.init(a.0, a.1, raw)) && !mn.panics(a.0, a.1, raw)
  }

  /** A kept source changes nothing: a retype to an optional field, or by a conversion that changes
      no shared value, or a rename into a required field with one value only. */
  ghost predicate Harmless(mn: Meaning, from: Schema, to: Schema, c: Consumer) {
    if c.source == c.target then c.targetOptional || forall v :: HarmlessFor(mn, from, to, c, v)
    else && !c.targetOptional && !TwoValues(mn.types, BaseIn(to.fields, c.target))
         && forall v :: Shared(mn.types, BaseIn(from.fields, c.source), BaseIn(to.fields, c.source), v) ==>
              !Rejects(mn, c, v)
  }

  ghost predicate HarmlessFor(mn: Meaning, from: Schema, to: Schema, c: Consumer, v: Val) {
    Shared(mn.types, BaseIn(from.fields, c.source), BaseIn(to.fields, c.source), v) ==>
      Converted(mn, c, v) == v && !Rejects(mn, c, v)
  }

  /** There is nothing in a new-shaped entry for the migration to write. */
  ghost predicate Spent(mn: Meaning, from: Schema, to: Schema, p: Program) {
    && p.assignOptional == []
    && (forall a :: a in p.assignRequired ==> Echoes(mn, from, to, p, a))
    && (forall c :: c in p.consumers && SourceKept(mn.types, from, to, c) ==> Harmless(mn, from, to, c))
  }

  /** For generated code the documented rule is enough exactly when the migration only moves
      values out of keys the new shape no longer has — or skips every entry. A default, a newly
      required field, or a key that stays makes some new-shaped write unsafe, but for assignments
      and conversions that give back what they find. */
  lemma GeneratedNewShapeIff(mn: Meaning, from: Schema, to: Schema, p: Program)
    requires Sensible(mn.types) && DistinctNames(to.fields) && Shaped(from, to, p) && WellTyped(mn, from, to, p)
    ensures NewShapeIsEnough(UpVisitor(mn, from, to, p), mn.types, to.fields)
       <==> Spent(mn, from, to, p) || Frozen(mn.types, from, to, p)
  {
    var up := UpVisitor(mn, from, to, p);
    if Spent(mn, from, to, p) || Frozen(mn.types, from, to, p) {
      forall key, raw | Conforms(mn.types, to.fields, raw) ensures Stable(up, key, Some(Record(raw))) {
        FrozenIff(mn, from, to, p);
        GeneratedLeavesAloneIff(mn, from, to, p, key, raw);
        if BothRead(mn, from, to, p, raw) {
          SpentAgrees(mn, from, to, p, raw);
        }
      }
    } else {
      var raw := UnsafeWrite(mn, from, to, p);
      GeneratedLeavesAloneIff(mn, from, to, p, Void, raw);
    }
  }

  lemma SpentAgrees(mn: Meaning, from: Schema, to: Schema, p: Program, raw: Fields)
    requires Sensible(mn.types) && DistinctNames(to.fields) && Shaped(from, to, p) && WellTyped(mn, from, to, p)
    requires Spent(mn, from, to, p) && Conforms(mn.types, to.fields, raw) && BothRead(mn, from, to, p, raw)
    ensures Agrees(mn, p, raw)
  {
    forall a | a in p.assignRequired ensures EchoesIn(mn, a, raw) {
      assert Echoes(mn, from, to, p, a);
    }
    forall c | c in p.consumers && Fires(raw, c, At(raw, c.target))
      ensures At(raw, c.target) == Some(Converted(mn, c, raw[c.source])) && !Rejects(mn, c, raw[c.source]) {
      HarmlessAgrees(mn, from, to, p, raw, c);
    }
  }

  lemma HarmlessAgrees(mn: Meaning, from: Schema, to: Schema, p: Program, raw: Fields, c: Consumer)
    requires Sensible(mn.types) && DistinctNames(to.fields) && Shaped(from, to, p) && WellTyped(mn, from, to, p)
    requires Spent(mn, from, to, p) && Conforms(mn.types, to.fields, raw) && BothRead(mn, from, to, p, raw)
    requires c in p.consumers && Fires(raw, c, At(raw, c.target))
    ensures At(raw, c.target) == Some(Converted(mn, c, raw[c.source])) && !Rejects(mn, c, raw[c.source])
  {
    assert ShapedConsumer(from, to, c);
    ConformingIsTyped(mn.types, to.fields, raw);
    var v, base := raw[c.source], BaseIn(to.fields, c.target);
    assert Shared(mn.types, BaseIn(from.fields, c.source), BaseIn(to.fields, c.source), v);
    assert SourceKept(mn.types, from, to, c) && Harmless(mn, from, to, c);
    if c.source == c.target {
      assert HarmlessFor(mn, from, to, c, v);
    } else {
      var f := FieldIn(to.fields, c.target).value;
      assert FieldReads(mn.types, f, raw) && mn.types(base, raw[c.target]);
      assert Shared(mn.types, base, base, raw[c.target]) && Shared(mn.types, base, base, Converted(mn, c, v));
    }
  }

  /** A new-shaped entry the migration would change. */
  lemma UnsafeWrite(mn: Meaning, from: Schema, to: Schema, p: Program) returns (raw: Fields)
    requires Sensible(mn.types) && DistinctNames(to.fields) && Shaped(from, to, p)
    requires !Spent(mn, from, to, p) && !Frozen(mn.types, from, to, p)
    ensures Conforms(mn.types, to.fields, raw) && ShadowReads(mn.types, from, p.consumers, raw) && !Agrees(mn, p, raw)
  {
    if p.assignOptional != [] {
      raw := Barest(mn.types, from, to);
      BarestFits(mn.types, from, to, p);
      FittingReads(mn, from, to, p, raw);
      assert p.assignOptional[0] in p.assignOptional && p.assignOptional[0].0 !in raw;
    } else if a :| a in p.assignRequired && !Echoes(mn, from, to, p, a) {
      raw :| Conforms(mn.types, to.fields, raw) && ShadowReads(mn.types, from, p.consumers, raw)
        && !EchoesIn(mn, a, raw);
    } else {
      var c :| c in p.consumers && SourceKept(mn.types, from, to, c) && !Harmless(mn, from, to, c);
      raw := HarmedEntry(mn, from, to, p, c);
    }
  }

  /** What a kept source may hold to be moved where it does harm. */
  lemma HarmfulValue(mn: Meaning, from: Schema, to: Schema, c: Consumer) returns (v: Val)
    requires Sensible(mn.types) && SourceKept(mn.types, from, to, c) && !Harmless(mn, from, to, c)
    ensures Shared(mn.types, BaseIn(from.fields, c.source), BaseIn(to.fields, c.source), v)
    ensures if c.source == c.target then !c.targetOptional && !HarmlessFor(mn, from, to, c, v)
            else c.targetOptional || TwoValues(mn.types, BaseIn(to.fields, c.target)) || Rejects(mn, c, v)
  {
    if c.source == c.target {
      v :| !HarmlessFor(mn, from, to, c, v);
    } else if c.targetOptional || TwoValues(mn.types, BaseIn(to.fields, c.target)) {
      v :| Shared(mn.types, BaseIn(from.fields, c.source), BaseIn(to.fields, c.source), v);
    } else {
      v :| Shared(mn.types, BaseIn(from.fields, c.source), BaseIn(to.fields, c.source), v) && Rejects(mn, c, v);
    }
  }

  lemma HarmedEntry(mn: Meaning, from: Schema, to: Schema, p: Program, c: Consumer) returns (raw: Fields)
    requires Sensible(mn.types) && DistinctNames(to.fields) && Shaped(from, to, p) && !Frozen(mn.types, from, to, p)
    requires c in p.consumers && SourceKept(mn.types, from, to, c) && !Harmless(mn, from, to, c)
    ensures Conforms(mn.types, to.fields, raw) && ShadowReads(mn.types, from, p.consumers, raw) && !Agrees(mn, p, raw)
  {
    assert ShapedConsumer(from, to, c);
    var v := HarmfulValue(mn, from, to, c);
    raw := Barest(mn.types, from, to)[c.source := v];
    if c.source != c.target && TwoValues(mn.types, BaseIn(to.fields, c.target)) && !c.targetOptional {
      raw := raw[c.target := OtherThan(mn.types, BaseIn(to.fields, c.target), Converted(mn, c, v))];
    }
    BarestFits(mn.types, from, to, p);
    if c.source != c.target {
      TargetIsNoSource(from, to, p, c);
    }
    FittingReads(mn, from, to, p, raw);
    Disagrees(mn, from, to, p, c, raw);
  }

  lemma Disagrees(mn: Meaning, from: Schema, to: Schema, p: Program, c: Consumer, raw: Fields)
    requires c in p.consumers && Present(raw, c.source) && (c.targetOptional ==> c.target !in raw)
    requires Rejects(mn, c, raw[c.source]) || At(raw, c.target) != Some(Converted(mn, c, raw[c.source]))
    ensures !Agrees(mn, p, raw)
  {
    assert Fires(raw, c, At(raw, c.target));
  }

  ghost predicate SameBut(n: string, d: Fields, e: Fields) {
    forall k :: k != n ==> At(d, k) == At(e, k)
  }

  /** An expression that does not look at its own field gives it back only if there is but one
      value to give. */
  lemma EchoesIff(mn: Meaning, from: Schema, to: Schema, p: Program, a: (string, string))
    requires Sensible(mn.types) && DistinctNames(to.fields) && Shaped(from, to, p) && WellTyped(mn, from, to, p)
    requires a in p.assignRequired && Total(mn) && !Frozen(mn.types, from, to, p)
    requires forall d, e :: SameBut(a.0, d, e) ==> mn.init(a.0, a.1, d) == mn.init(a.0, a.1, e)
    ensures Echoes(mn, from, to, p, a) <==> !TwoValues(mn.types, BaseIn(to.fields, a.0))
  {
    var n, base := a.0, BaseIn(to.fields, a.0);
    if TwoValues(mn.types, base) {
      var bare := Barest(mn.types, from, to);
      var raw := bare[n := OtherThan(mn.types, base, mn.init(n, a.1, bare))];
      assert Has(p.assignRequired, n);
      AssignedFits(mn.types, from, to, p, n, raw[n]);
      BarestBut(mn, from, to, p, n, raw[n]);
      assert SameBut(n, raw, bare) && !EchoesIn(mn, a, raw);
    } else {
      forall raw | Conforms(mn.types, to.fields, raw) && ShadowReads(mn.types, from, p.consumers, raw)
        ensures EchoesIn(mn, a, raw) {
        ConformingIsTyped(mn.types, to.fields, raw);
        assert FieldReads(mn.types, FieldIn(to.fields, n).value, raw);
        assert Shared(mn.types, base, base, raw[n]) && Shared(mn.types, base, base, mn.init(n, a.1, raw));
      }
    }
  }

  /** A value `up` has nothing to write to, or is not of this shape. */
  predicate Lasting(mn: Meaning, from: Schema, to: Schema, p: Program, entry: Option<Val>) {
    entry.Some? && entry.value.Record? && BothRead(mn, from, to, p, entry.value.fields) ==>
      Conforms(mn.types, to.fields, entry.value.fields) && Agrees(mn, p, entry.value.fields)
  }

  lemma LastingIsStable(mn: Meaning, from: Schema, to: Schema, p: Program, key: Val, entry: Option<Val>)
    requires Shaped(from, to, p) && Lasting(mn, from, to, p, entry)
    ensures Stable(UpVisitor(mn, from, to, p), key, entry)
  {
    if entry.Some? && entry.value.Record? && BothRead(mn, from, to, p, entry.value.fields) {
      GeneratedLeavesAloneIff(mn, from, to, p, key, entry.value.fields);
    }
  }

  /** What an application may do during a generated migration. */
  ghost predicate AgreeingStep(mn: Meaning, from: Schema, to: Schema, p: Program, m: Migration, a: Action) {
    || Drives(m, a)
    || (a.DoPut? && Lasting(mn, from, to, p, Some(a.value)))
    || (a.DoPutUnindexed? && Lasting(mn, from, to, p, Some(a.value)))
    || a.DoRemove?
    || a.DoRegister?
  }

  /** If every write during an idempotent migration agrees with it, then when the version advances
      every new-shaped entry of the `from` log, and every one written meanwhile, does. */
  lemma GeneratedLiveCompletion(mn: Meaning, from: Schema, to: Schema, p: Program, s0: Snapshot, m: Migration,
                                actions: seq<Action>, limit: u32, key: Val, raw: Fields)
    requires Shaped(from, to, p) && m.up == UpVisitor(mn, from, to, p) && Idempotent(m.up) && ReadyFor(s0, m)
    requires forall x :: x in actions ==> AgreeingStep(mn, from, to, p, m, x)
    requires Run(s0, actions).version == Some(m.from)
    requires Apply(Run(s0, actions), DoBatch(m, limit)).version == Some(m.to)
    requires var s := Apply(Run(s0, actions), DoBatch(m, limit));
             && Lookup(s.entries, key) == Some(Record(raw)) && Conforms(mn.types, to.fields, raw)
             && (key in WrittenSince(s0, actions) || (Covered(s.logs, m.from) && key in Visible(s.logs, m.from)))
    ensures !ShadowReads(mn.types, from, p.consumers, raw) || Agrees(mn, p, raw)
  {
    forall x | x in actions ensures LiveStep(m, x) {
      assert AgreeingStep(mn, from, to, p, m, x);
      if x.DoPut? || x.DoPutUnindexed? {
        if !Drives(m, x) { LastingIsStable(mn, from, to, p, x.key, Some(x.value)); }
      }
    }
    LiveCompletion(s0, m, actions, limit);
    GeneratedLeavesAloneIff(mn, from, to, p, key, raw);
  }
}
