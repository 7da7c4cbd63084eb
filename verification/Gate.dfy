/** What the diff's verdict means for stored entries, and what its findings account for. */
module Gate {
  import opened Host
  import opened Schemas
  import opened Diffs

  // ----- Which findings there are -----

  function FindingFor(from: Schema, plan: MigrationPlan, f: Field): Option<Finding> {
    match KindOf(from, plan, f)
    case None => None
    case Some(kind) => Some(Finding(f.name, kind, SeverityOf(from, plan, f, kind)))
  }

  ghost predicate FoundIn(from: Schema, plan: MigrationPlan, fields: seq<Field>, x: Finding) {
    exists f :: f in fields && FindingFor(from, plan, f) == Some(x)
  }

  ghost predicate RenameTakes(from: Schema, plan: MigrationPlan, fields: seq<Field>, name: string) {
    exists f :: f in fields && KindOf(from, plan, f) == Some(Renamed(name, f.name))
  }

  lemma FrontOrLast<T>(s: seq<T>, x: T)
    requires s != []
    ensures x in s <==> x in s[..|s| - 1] || x == s[|s| - 1]
  {
    assert s == s[..|s| - 1] + [s[|s| - 1]];
  }

  lemma {:induction false} NewFindings(from: Schema, plan: MigrationPlan, fields: seq<Field>, x: Finding)
    ensures x in WalkNew(from, plan, fields).findings <==> FoundIn(from, plan, fields, x)
  {
    if fields != [] {
      var front, last := fields[..|fields| - 1], fields[|fields| - 1];
      NewFindings(from, plan, front, x);
      if FindingFor(from, plan, last) == Some(x) {
        assert last in fields;
      } else if FoundIn(from, plan, fields, x) {
        var f :| f in fields && FindingFor(from, plan, f) == Some(x);
        FrontOrLast(fields, f);
        assert f in front;
      }
    }
  }

  lemma {:induction false} NewRemoved(from: Schema, plan: MigrationPlan, fields: seq<Field>, name: string)
    ensures name in WalkNew(from, plan, fields).declared.removed <==> RenameTakes(from, plan, fields, name)
  {
    if fields != [] {
      var front, last := fields[..|fields| - 1], fields[|fields| - 1];
      NewRemoved(from, plan, front, name);
      if KindOf(from, plan, last) == Some(Renamed(name, last.name)) {
        assert last in fields;
      } else if RenameTakes(from, plan, fields, name) {
        var f :| f in fields && KindOf(from, plan, f) == Some(Renamed(name, f.name));
        FrontOrLast(fields, f);
        assert f in front;
      }
      WalkFieldRemoved(from, plan, last, WalkNew(from, plan, front), name);
    }
  }

  lemma WalkFieldRemoved(from: Schema, plan: MigrationPlan, f: Field, w: Survey, name: string)
    ensures name in WalkField(from, plan, f, w).declared.removed
       <==> name in w.declared.removed || KindOf(from, plan, f) == Some(Renamed(name, f.name))
  {}

  /** Missing from the new shape and not carried anywhere by a rename. */
  ghost predicate Lost(to: Schema, plan: MigrationPlan, f: Field, taken: seq<string>) {
    && f.name !in Names(to.fields) && f.name !in taken
    && !(plan.RenamedTo(f.name).Some? && plan.RenamedTo(f.name).value in Names(to.fields))
  }

  ghost predicate LostIn(to: Schema, plan: MigrationPlan, fields: seq<Field>, taken: seq<string>, x: Finding) {
    exists f :: f in fields && Lost(to, plan, f, taken) && x == RemovedFinding(plan, f.name)
  }

  lemma {:induction false} OldRemoved(to: Schema, plan: MigrationPlan, fields: seq<Field>, start: Survey, name: string)
    ensures name in WalkOld(to, plan, fields, start).declared.removed
       <==> name in start.declared.removed || (name in Names(fields) && name !in Names(to.fields))
  {
    if fields != [] {
      var front, last := fields[..|fields| - 1], fields[|fields| - 1];
      OldRemoved(to, plan, front, start, name);
      assert name in Names(fields) <==> name in Names(front) || name == last.name by {
        forall f ensures f in fields <==> f in front || f == last { FrontOrLast(fields, f); }
      }
      WalkRemovedRemoved(to, plan, last, WalkOld(to, plan, front, start), name);
    }
  }

  lemma WalkRemovedRemoved(to: Schema, plan: MigrationPlan, f: Field, w: Survey, name: string)
    ensures name in WalkRemoved(to, plan, f, w).declared.removed
       <==> name in w.declared.removed || (name == f.name && name !in Names(to.fields))
  {}

  function RemovedFinding(plan: MigrationPlan, name: string): Finding {
    Finding(name, Removed, if name in plan.dropped then Info else Denied)
  }

  lemma {:induction false} OldFindings(to: Schema, plan: MigrationPlan, fields: seq<Field>, start: Survey, x: Finding)
    ensures x in WalkOld(to, plan, fields, start).findings
       <==> x in start.findings || LostIn(to, plan, fields, start.declared.removed, x)
  {
    if fields != [] {
      var front, last := fields[..|fields| - 1], fields[|fields| - 1];
      var taken := start.declared.removed;
      OldFindings(to, plan, front, start, x);
      OldRemoved(to, plan, front, start, last.name);
      if LostIn(to, plan, front, taken, x) {
        var f :| f in front && Lost(to, plan, f, taken) && x == RemovedFinding(plan, f.name);
        assert f in fields;
      }
      if LostIn(to, plan, fields, taken, x) {
        var f :| f in fields && Lost(to, plan, f, taken) && x == RemovedFinding(plan, f.name);
        FrontOrLast(fields, f);
        if last.name == f.name && last.name in Names(front) {
          var g :| g in front && g.name == last.name;
          assert Lost(to, plan, g, taken);
        }
      }
      assert last in fields;
    }
  }

  /** Every finding, by where it comes from. */
  lemma FindingsAre(from: Schema, to: Schema, plan: MigrationPlan, x: Finding)
    ensures x in AllFindings(from, to, plan)
       <==> || FoundIn(from, plan, to.fields, x)
            || LostIn(to, plan, from.fields, WalkNew(from, plan, to.fields).declared.removed, x)
            || x in Reordering(from, to)
  {
    NewFindings(from, plan, to.fields, x);
    OldFindings(to, plan, from.fields, WalkNew(from, plan, to.fields), x);
  }

  // ----- What the verdict means for entries -----

  ghost function SomeValue(types: Types, base: string): (v: Val)
    requires Inhabited(types, base)
    ensures types(base, v)
  {
    var v :| types(base, v);
    v
  }

  /** An entry of the old shape with every field present. */
  ghost function FullEntry(types: Types, fields: seq<Field>): (e: Fields)
    requires Sensible(types)
    ensures forall n :: n in e <==> n in Names(fields)
    ensures forall n :: n in e ==> types(FieldIn(fields, n).value.base, e[n])
  {
    map n | n in Names(fields) :: SomeValue(types, FieldIn(fields, n).value.base)
  }

  lemma FullEntryConforms(types: Types, fields: seq<Field>)
    requires Sensible(types) && DistinctNames(fields)
    ensures Conforms(types, fields, FullEntry(types, fields))
  {
    var e := FullEntry(types, fields);
    forall f | f in fields ensures FieldReads(types, f, e) {
      FieldInIsTheField(fields, f);
      assert f.name in Names(fields);
    }
    ConformsMeans(types, fields, e);
  }

  /** Reading one field is about that field alone. */
  lemma OtherFieldsRead(types: Types, fields: seq<Field>, n: string, e: Fields, changed: Fields)
    requires Readable(types, fields, e) && forall k :: k != n ==> (k in e <==> k in changed)
    requires forall k :: k != n && k in e ==> e[k] == changed[k]
    requires forall g :: g in fields && g.name == n ==> FieldReads(types, g, changed)
    ensures Readable(types, fields, changed)
  {
    forall g | g in fields ensures FieldReads(types, g, changed) {
      assert FieldReads(types, g, e);
    }
  }

  /** The same entry with one field absent, where it is optional, or with another value. */
  lemma FullButOne(types: Types, fields: seq<Field>, f: Field, v: Val)
    requires Sensible(types) && DistinctNames(fields) && f in fields
    ensures f.optional ==> Conforms(types, fields, FullEntry(types, fields) - {f.name})
    ensures types(f.base, v) ==> Conforms(types, fields, FullEntry(types, fields)[f.name := v])
  {
    var full := FullEntry(types, fields);
    FullEntryConforms(types, fields);
    ConformsMeans(types, fields, full);
    forall g | g in fields && g.name == f.name ensures g == f {
      FieldInIsTheField(fields, f);
      FieldInIsTheField(fields, g);
    }
    if f.optional {
      OtherFieldsRead(types, fields, f.name, full, full - {f.name});
      ConformsMeans(types, fields, full - {f.name});
    }
    if types(f.base, v) {
      OtherFieldsRead(types, fields, f.name, full, full[f.name := v]);
      ConformsMeans(types, fields, full[f.name := v]);
    }
  }

  /** A field of the new shape that is not simply the old one, or a new optional one. */
  predicate Traps(from: Schema, f: Field) {
    match FieldIn(from.fields, f.name)
    case None => !f.optional
    case Some(previous) => previous.base != f.base || (previous.optional && !f.optional)
  }

  /** A field of the new shape some old entry cannot be read through. */
  ghost predicate TrapsIn(types: Types, from: Schema, f: Field) {
    match FieldIn(from.fields, f.name)
    case None => !f.optional
    case Some(previous) => !Within(types, previous.base, f.base) || (previous.optional && !f.optional)
  }

  /** The base type of field `f` has changed. */
  predicate Retypes(from: Schema, f: Field) {
    FieldIn(from.fields, f.name).Some? && FieldIn(from.fields, f.name).value.base != f.base
  }

  /** Of every retyped field some old value does not read as the new type. */
  ghost predicate Distinguishes(types: Types, from: Schema, to: Schema) {
    forall f :: f in to.fields && Retypes(from, f) ==>
      !Within(types, FieldIn(from.fields, f.name).value.base, f.base)
  }

  lemma FieldReadableIff(types: Types, from: Schema, f: Field)
    requires Sensible(types) && DistinctNames(from.fields)
    ensures (forall e :: Conforms(types, from.fields, e) ==> FieldReads(types, f, e)) <==> !TrapsIn(types, from, f)
  {
    if TrapsIn(types, from, f) {
      var e := UnreadableEntry(types, from, f);
    } else {
      forall e | Conforms(types, from.fields, e) ensures FieldReads(types, f, e) {
        ConformsMeans(types, from.fields, e);
        var previous := FieldIn(from.fields, f.name);
        if previous.Some? {
          assert FieldReads(types, previous.value, e);
        }
      }
    }
  }

  lemma UnreadableEntry(types: Types, from: Schema, f: Field) returns (e: Fields)
    requires Sensible(types) && DistinctNames(from.fields) && TrapsIn(types, from, f)
    ensures Conforms(types, from.fields, e) && !FieldReads(types, f, e)
  {
    e := FullEntry(types, from.fields);
    FullEntryConforms(types, from.fields);
    var previous := FieldIn(from.fields, f.name);
    if previous.Some? {
      if Within(types, previous.value.base, f.base) {
        FullButOne(types, from.fields, previous.value, Void);
        e := e - {f.name};
      } else {
        var v :| types(previous.value.base, v) && !types(f.base, v);
        FullButOne(types, from.fields, previous.value, v);
        e := e[f.name := v];
      }
    }
  }

  /** An un-migrated entry stays readable under the new code, whichever it is, if and only if
      no field of the new shape traps; what the plan declares makes no difference. */
  lemma OldEntriesReadableIff(types: Types, from: Schema, to: Schema)
    requires Sensible(types) && DistinctNames(from.fields)
    ensures (forall e :: Conforms(types, from.fields, e) ==> Readable(types, to.fields, e))
       <==> (forall f :: f in to.fields ==> !TrapsIn(types, from, f))
  {
    forall f ensures (forall e :: Conforms(types, from.fields, e) ==> FieldReads(types, f, e))
      <==> !TrapsIn(types, from, f) {
      FieldReadableIff(types, from, f);
    }
    if forall e :: Conforms(types, from.fields, e) ==> Readable(types, to.fields, e) {
      forall f | f in to.fields ensures !TrapsIn(types, from, f) {
        forall e | Conforms(types, from.fields, e) ensures FieldReads(types, f, e) {
          assert Readable(types, to.fields, e);
        }
      }
    }
  }

  /** The schemas alone tell which fields trap, except that they cannot tell a retype to a wider
      type from any other. */
  lemma TrapsBySchema(types: Types, from: Schema, f: Field)
    ensures TrapsIn(types, from, f) ==> Traps(from, f)
    ensures Traps(from, f) ==> TrapsIn(types, from, f) || Retypes(from, f)
    ensures Traps(from, f) && (Retypes(from, f) ==> !Within(types, FieldIn(from.fields, f.name).value.base, f.base))
            ==> TrapsIn(types, from, f)
  {}

  /** Which findings say so: the trapping fields are those added as required, retyped, newly
      required, or renamed to a required field. */
  lemma TrapsAreReported(from: Schema, plan: MigrationPlan, f: Field)
    ensures Traps(from, f)
       <==> var kind := KindOf(from, plan, f);
            kind.Some? && (kind.value.AddedRequired? || kind.value.Retyped? || kind.value.BecameRequired?
                           || (kind.value.Renamed? && !f.optional))
  {}

  /** Read under the new shape and written back, every old entry is unchanged. */
  ghost predicate Lossless(types: Types, from: Schema, to: Schema) {
    forall e :: Conforms(types, from.fields, e) ==> Decode(types, to.fields, e) == Some(e)
  }

  lemma LosslessIff(types: Types, from: Schema, to: Schema)
    requires Sensible(types) && DistinctNames(from.fields)
    ensures Lossless(types, from, to)
       <==> (forall f :: f in to.fields ==> !TrapsIn(types, from, f)) && Names(from.fields) <= Names(to.fields)
  {
    OldEntriesReadableIff(types, from, to);
    if Lossless(types, from, to) {
      var full := FullEntry(types, from.fields);
      FullEntryConforms(types, from.fields);
      assert Decode(types, to.fields, full) == Some(full);
      forall n | n in Names(from.fields) ensures n in Names(to.fields) {
        assert n in full;
      }
      forall e | Conforms(types, from.fields, e) ensures Readable(types, to.fields, e) {
        assert Decode(types, to.fields, e) == Some(e);
      }
    }
    if (forall f :: f in to.fields ==> !TrapsIn(types, from, f)) && Names(from.fields) <= Names(to.fields) {
      forall e | Conforms(types, from.fields, e) ensures Decode(types, to.fields, e) == Some(e) {
        assert Readable(types, to.fields, e);
        ConformsMeans(types, from.fields, e);
        ConformsMeans(types, to.fields, e);
      }
    }
  }

  lemma DeniedFieldTraps(from: Schema, plan: MigrationPlan, f: Field)
    requires FindingFor(from, plan, f).Some? && FindingFor(from, plan, f).value.severity.Denied?
    ensures Traps(from, f)
  {}

  lemma DenialHasCause(from: Schema, to: Schema, plan: MigrationPlan, x: Finding)
    requires plan.IsEmpty() && x in AllFindings(from, to, plan) && x.severity.Denied?
    ensures (exists f :: f in to.fields && Traps(from, f)) || !(Names(from.fields) <= Names(to.fields))
  {
    FindingsAre(from, to, plan, x);
    if FoundIn(from, plan, to.fields, x) {
      var f :| f in to.fields && FindingFor(from, plan, f) == Some(x);
      DeniedFieldTraps(from, plan, f);
    } else {
      var f :| f in from.fields && Lost(to, plan, f, WalkNew(from, plan, to.fields).declared.removed);
      assert f.name in Names(from.fields);
    }
  }

  lemma TrapIsDenied(from: Schema, to: Schema, plan: MigrationPlan, f: Field)
    requires plan.IsEmpty() && f in to.fields && Traps(from, f)
    ensures SomeDenied(AllFindings(from, to, plan))
  {
    var x := FindingFor(from, plan, f).value;
    assert FoundIn(from, plan, to.fields, x);
    FindingsAre(from, to, plan, x);
    assert x.severity.Denied?;
  }

  lemma LossIsDenied(from: Schema, to: Schema, plan: MigrationPlan, f: Field)
    requires plan.IsEmpty() && f in from.fields && f.name !in Names(to.fields)
    ensures SomeDenied(AllFindings(from, to, plan))
  {
    var taken := WalkNew(from, plan, to.fields).declared.removed;
    NewRemoved(from, plan, to.fields, f.name);
    assert !RenameTakes(from, plan, to.fields, f.name);
    assert Lost(to, plan, f, taken);
    assert LostIn(to, plan, from.fields, taken, RemovedFinding(plan, f.name));
    FindingsAre(from, to, plan, RemovedFinding(plan, f.name));
    assert RemovedFinding(plan, f.name).severity.Denied?;
  }

  /** The bare diff denies exactly the trapping fields and the missing ones. */
  lemma BareDenials(from: Schema, to: Schema, plan: MigrationPlan)
    requires plan.IsEmpty()
    ensures SomeDenied(AllFindings(from, to, plan))
       <==> (exists f :: f in to.fields && Traps(from, f)) || !(Names(from.fields) <= Names(to.fields))
  {
    if x :| x in AllFindings(from, to, plan) && x.severity.Denied? {
      DenialHasCause(from, to, plan, x);
    }
    if f :| f in to.fields && Traps(from, f) {
      TrapIsDenied(from, to, plan, f);
    }
    if !(Names(from.fields) <= Names(to.fields)) {
      var f :| f in from.fields && f.name !in Names(to.fields);
      LossIsDenied(from, to, plan, f);
    }
  }

  lemma BareDiffAccepted(from: Schema, to: Schema)
    requires to.version == from.version + 1
    ensures var plan := EmptyPlan(from.version, to.version);
            DiffOf(from, to, plan).Accepted? && DiffOf(from, to, plan).value.findings == AllFindings(from, to, plan)
  {}

  /** The gate is sound, and complete but for retypes: with no plan, an upgrade is refused exactly
      when a field is retyped, or some entry a contract could have written under the old schema
      would fail to decode under the new one or would lose data when written back. The first is
      needed only where every old value happens to read as the new type. */
  lemma BareGateIsExact(types: Types, from: Schema, to: Schema)
    requires Sensible(types) && DistinctNames(from.fields) && to.version == from.version + 1
    ensures var d := DiffOf(from, to, EmptyPlan(from.version, to.version));
            && d.Accepted?
            && (d.value.verdict.Refused?
                <==> !Lossless(types, from, to) || exists f :: f in to.fields && Retypes(from, f))
            && (Distinguishes(types, from, to) ==> (d.value.verdict.Refused? <==> !Lossless(types, from, to)))
  {
    BareDiffAccepted(from, to);
    BareDenials(from, to, EmptyPlan(from.version, to.version));
    LosslessIff(types, from, to);
    forall f ensures TrapsIn(types, from, f) ==> Traps(from, f)
      ensures Traps(from, f) ==> TrapsIn(types, from, f) || Retypes(from, f)
      ensures Retypes(from, f) ==> Traps(from, f) {
      TrapsBySchema(types, from, f);
    }
    if Distinguishes(types, from, to) {
      forall f | f in to.fields && Retypes(from, f) ensures TrapsIn(types, from, f) {}
    }
  }

  // ----- What "Safe" adds -----

  /** Some old entry has a value for the field. */
  ghost predicate Populated(types: Types, from: Schema, name: string) {
    exists e :: Conforms(types, from.fields, e) && name in e
  }

  lemma PopulatedIff(types: Types, from: Schema, name: string)
    requires Sensible(types) && DistinctNames(from.fields)
    ensures Populated(types, from, name) <==> name in Names(from.fields)
  {
    var full := FullEntry(types, from.fields);
    FullEntryConforms(types, from.fields);
    if name in Names(from.fields) {
      assert name in full;
    } else if Populated(types, from, name) {
      var e :| Conforms(types, from.fields, e) && name in e;
      ConformsMeans(types, from.fields, e);
    }
  }

  /** Without a plan, a field of the new shape is reported above `Info` exactly when it traps or
      is new. */
  lemma BareFieldIsInfoIff(from: Schema, plan: MigrationPlan, f: Field)
    requires plan.IsEmpty()
    ensures (FindingFor(from, plan, f).Some? ==> FindingFor(from, plan, f).value.severity.Info?)
       <==> !Traps(from, f) && f.name in Names(from.fields)
  {}

  /** Without a plan the verdict is Safe exactly when nothing is retyped, the upgrade is lossless,
      and no field is left that is empty in every old entry. */
  lemma BareSafeIff(types: Types, from: Schema, to: Schema)
    requires Sensible(types) && DistinctNames(from.fields) && to.version == from.version + 1
    ensures var d := DiffOf(from, to, EmptyPlan(from.version, to.version));
            && d.Accepted?
            && (d.value.verdict.Safe?
                <==> && Lossless(types, from, to)
                     && forall f :: f in to.fields ==> Populated(types, from, f.name) && !Retypes(from, f))
  {
    var plan := EmptyPlan(from.version, to.version);
    var all := AllFindings(from, to, plan);
    BareDiffAccepted(from, to);
    BareGateIsExact(types, from, to);
    forall n ensures Populated(types, from, n) <==> n in Names(from.fields) {
      PopulatedIff(types, from, n);
    }
    if forall x :: x in all ==> x.severity.Info? {
      forall f | f in to.fields ensures f.name in Names(from.fields) {
        BareFieldIsInfoIff(from, plan, f);
        if FindingFor(from, plan, f).Some? {
          assert FoundIn(from, plan, to.fields, FindingFor(from, plan, f).value);
          FindingsAre(from, to, plan, FindingFor(from, plan, f).value);
        }
      }
    }
    if Lossless(types, from, to)
       && forall f :: f in to.fields ==> f.name in Names(from.fields) && !Retypes(from, f) {
      forall x | x in all ensures x.severity.Info? {
        LosslessFindingIsInfo(types, from, to, plan, x);
      }
    }
  }

  lemma LosslessFindingIsInfo(types: Types, from: Schema, to: Schema, plan: MigrationPlan, x: Finding)
    requires Sensible(types) && DistinctNames(from.fields) && plan.IsEmpty() && Lossless(types, from, to)
    requires forall f :: f in to.fields ==> f.name in Names(from.fields) && !Retypes(from, f)
    requires x in AllFindings(from, to, plan)
    ensures x.severity.Info?
  {
    LosslessIff(types, from, to);
    FindingsAre(from, to, plan, x);
    NothingLost(from, to, plan, x);
    if FoundIn(from, plan, to.fields, x) {
      var f :| f in to.fields && FindingFor(from, plan, f) == Some(x);
      TrapsBySchema(types, from, f);
      BareFieldIsInfoIff(from, plan, f);
    }
  }

  lemma NothingLost(from: Schema, to: Schema, plan: MigrationPlan, x: Finding)
    requires Names(from.fields) <= Names(to.fields)
    ensures !LostIn(to, plan, from.fields, WalkNew(from, plan, to.fields).declared.removed, x)
  {
    forall f | f in from.fields ensures f.name in Names(to.fields) {
      assert f.name in Names(from.fields);
    }
  }

  predicate KeepsTypeByRename(from: Schema, plan: MigrationPlan, f: Field) {
    var source := RenameSource(from, plan, f.name);
    && source.Some? && source.value.base == f.base && !source.value.optional && !f.optional
    && KindOf(from, plan, f) == Some(Renamed(source.value.name, f.name))
  }

  lemma TrapAtInfo(from: Schema, plan: MigrationPlan, f: Field)
    requires Traps(from, f)
    ensures FindingFor(from, plan, f).Some?
    ensures FindingFor(from, plan, f).value.severity.Info? <==> KeepsTypeByRename(from, plan, f)
  {}

  /** Under any plan, a verdict of Safe leaves old entries unreadable in one way only: through a
      declared rename of a required field that keeps its type. */
  lemma SafeTrapsOnlyByRename(from: Schema, to: Schema, plan: MigrationPlan, f: Field)
    requires DiffOf(from, to, plan).Accepted? && DiffOf(from, to, plan).value.verdict.Safe?
    requires f in to.fields && Traps(from, f)
    ensures KeepsTypeByRename(from, plan, f)
  {
    TrapAtInfo(from, plan, f);
    var x := FindingFor(from, plan, f).value;
    assert FoundIn(from, plan, to.fields, x);
    FindingsAre(from, to, plan, x);
  }

  /** "Safe" is weaker than it sounds: declaring `a` renamed to `b` is reported at `Info` and the
      verdict is `Safe`, yet every old entry traps until it has been migrated. */
  lemma SafeRenameTraps(types: Types, a: string, b: string, base: string)
    requires Sensible(types) && a != b
    ensures var from := Schema(1, "S", [Field(a, base, base, false, base)]);
            var to := Schema(2, "S", [Field(b, base, base, false, base)]);
            var d := DiffOf(from, to, MigrationPlan(1, 2, [], [], [], [(a, b)]));
            && d.Accepted? && d.value.verdict.Safe?
            && forall e :: Conforms(types, from.fields, e) ==> !Readable(types, to.fields, e)
  {
    var original, renamed := Field(a, base, base, false, base), Field(b, base, base, false, base);
    var from, to := Schema(1, "S", [original]), Schema(2, "S", [renamed]);
    var plan := MigrationPlan(1, 2, [], [], [], [(a, b)]);
    OneFieldRename(from, to, plan, original, renamed);
    forall e | Conforms(types, from.fields, e) ensures !Readable(types, to.fields, e) {
      ConformsMeans(types, from.fields, e);
      assert renamed in to.fields;
      assert !FieldReads(types, renamed, e);
    }
  }

  lemma OneFieldWalk(from: Schema, to: Schema, plan: MigrationPlan, a: Field, b: Field)
    requires from.fields == [a] && to.fields == [b] && a.name != b.name && to.version == from.version + 1
    requires plan == MigrationPlan(from.version, to.version, [], [], [], [(a.name, b.name)])
    requires a.base == b.base && a.optional == b.optional
    ensures WholeWalk(from, to, plan)
         == Survey([Finding(b.name, Renamed(a.name, b.name), Info)], DeclaredFields([b.name], [a.name], []))
    ensures Reordering(from, to) == []
  {
    assert KindOf(from, plan, b) == Some(Renamed(a.name, b.name));
    var walked := Survey([Finding(b.name, Renamed(a.name, b.name), Info)], DeclaredFields([b.name], [a.name], []));
    assert [b][..0] == [] && [a][..0] == [];
    assert WalkNew(from, plan, to.fields) == WalkField(from, plan, b, WalkNew(from, plan, []));
    assert WalkNew(from, plan, to.fields) == walked;
    assert WalkOld(to, plan, from.fields, walked) == WalkRemoved(to, plan, a, WalkOld(to, plan, [], walked));
    assert Reordering(from, to) == [] by {
      var x, y := NamesInOrder(from.fields), NamesInOrder(to.fields);
      assert x == [a.name] && y == [b.name];
      assert multiset(x)[a.name] == 1 && multiset(y)[a.name] == 0;
    }
  }

  lemma OneFieldRename(from: Schema, to: Schema, plan: MigrationPlan, a: Field, b: Field)
    requires from.fields == [a] && to.fields == [b] && a.name != b.name && to.version == from.version + 1
    requires plan == MigrationPlan(from.version, to.version, [], [], [], [(a.name, b.name)])
    requires a.base == b.base && a.optional == b.optional
    ensures DiffOf(from, to, plan).Accepted? && DiffOf(from, to, plan).value.verdict.Safe?
  {
    OneFieldWalk(from, to, plan, a, b);
    assert plan.renamed[1..] == [] && a in from.fields && b in to.fields;
    assert FieldIn(from.fields, a.name).Some? && FieldIn(to.fields, b.name).Some?;
    assert FirstStaleRename(from, to, plan.renamed) == FirstStaleRename(from, to, []);
  }
}
