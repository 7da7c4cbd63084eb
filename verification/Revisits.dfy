/** What a generated migration reports on the second visit, and which stored values its visits
    keep. */
module Revisits {
  import opened Host
  import opened Schemas
  import opened Diffs
  import opened Codegen
  import opened Generated
  import opened Rewrites
  import opened Rereads
  import opened Repeats
  import opened Reruns
  import opened Shapes
  import opened Storage

  // ----- When a body sets `changed` -----

  lemma {:induction false} ConsumeStaysChanged(mn: Meaning, raw: Fields, cs: seq<Consumer>, d: Scratch)
    requires d.changed
    ensures Consume(mn, raw, cs, d).changed
  {
    if cs != [] {
      ConsumeStaysChanged(mn, raw, cs[..|cs| - 1], d);
    }
  }

  /** A present source with a required target is consumed on every visit. */
  lemma {:induction false} ConsumerChanges(mn: Meaning, raw: Fields, cs: seq<Consumer>, d: Scratch, c: Consumer)
    requires c in cs && !c.targetOptional && Present(raw, c.source)
    ensures Consume(mn, raw, cs, d).changed
  {
    if c != cs[|cs| - 1] {
      assert cs == cs[..|cs| - 1] + [cs[|cs| - 1]];
      ConsumerChanges(mn, raw, cs[..|cs| - 1], d, c);
    }
  }

  lemma {:induction false} ConsumesNone(mn: Meaning, raw: Fields, cs: seq<Consumer>, d: Scratch)
    requires forall c :: c in cs ==> !Fires(raw, c, At(d.entry, c.target))
    ensures Consume(mn, raw, cs, d) == d
  {
    if cs != [] {
      ConsumesNone(mn, raw, cs[..|cs| - 1], d);
      assert cs[|cs| - 1] in cs;
    }
  }

  /** With a required assignment no visit ever reports an entry as current: every repeated visit
      writes it again and counts it as migrated. */
  lemma RequiredAlwaysRewrites(mn: Meaning, from: Schema, to: Schema, p: Program, raw: Fields)
    requires p.assignRequired != []
    ensures UpStruct(mn, from, to, p, raw).1 == if BothRead(mn, from, to, p, raw) then Migrated else Skipped
  {
    if BothRead(mn, from, to, p, raw) {
      var read := Decode(mn.types, to.fields, raw).value;
      AssignAt(mn, p.assignRequired, Fill(mn, p.assignOptional, Scratch(read, false)), "");
      ConsumeStaysChanged(mn, raw, p.consumers, BeforeConsuming(mn, p, read));
    }
  }

  // ----- Which outcome a visit reports -----

  lemma ConsumeChangedIff(mn: Meaning, raw: Fields, cs: seq<Consumer>, d: Scratch)
    requires OneWriter(cs)
    ensures Consume(mn, raw, cs, d).changed <==>
              d.changed || exists c :: c in cs && Fires(raw, c, At(d.entry, c.target))
  {
    if d.changed {
      ConsumeStaysChanged(mn, raw, cs, d);
    } else if c :| c in cs && Fires(raw, c, At(d.entry, c.target)) {
      ConsumeAt(mn, raw, cs, d, c.target);
      assert WriterOf(cs, c.target) == Some(c);
      if !c.targetOptional {
        ConsumerChanges(mn, raw, cs, d, c);
      }
    } else {
      ConsumesNone(mn, raw, cs, d);
    }
  }

  lemma FillChangedIff(mn: Meaning, t: Table, d: Scratch)
    requires Consistent(t) && !d.changed
    ensures Fill(mn, t, d).changed <==> exists a :: a in t && a.0 !in d.entry
  {
    if a :| a in t && a.0 !in d.entry {
      var i :| 0 <= i < |t| && t[i] == a;
      assert Has(t, a.0);
      FillAt(mn, t, d, a.0);
      FillUnchanged(mn, t, d);
    } else {
      FillsNone(mn, t, d);
    }
  }

  /** There is something for the body to write into the entry read as `read`. */
  ghost predicate Writes(p: Program, raw: Fields, read: Fields) {
    || p.assignRequired != []
    || (exists a :: a in p.assignOptional && a.0 !in read)
    || exists c :: c in p.consumers && Fires(raw, c, At(read, c.target))
  }

  lemma ChangedIff(mn: Meaning, from: Schema, to: Schema, p: Program, raw: Fields, read: Fields)
    requires Shaped(from, to, p)
    ensures Rewritten(mn, p, raw, read).changed <==> Writes(p, raw, read)
  {
    var filled, before := Fill(mn, p.assignOptional, Scratch(read, false)), BeforeConsuming(mn, p, read);
    FillChangedIff(mn, p.assignOptional, Scratch(read, false));
    ConsumeChangedIff(mn, raw, p.consumers, before);
    AssignAt(mn, p.assignRequired, filled, "");
    forall c | c in p.consumers ensures At(before.entry, c.target) == At(read, c.target) {
      assert WriterOf(p.consumers, c.target).Some?;
      WriterAlone(from, to, p, c.target);
      BeforeConsumingIs(mn, from, to, p, read, c.target);
    }
  }

  /** What a visit that does not trap reports. An absent entry is skipped, and so is one of another
      shape, if there is anything to do at all; one with nothing to write is already current. */
  lemma GeneratedReports(mn: Meaning, from: Schema, to: Schema, p: Program, entry: Option<Val>)
    requires Shaped(from, to, p) && UpVisit(mn, from, to, p, entry).Visited?
    ensures var outcome := UpVisit(mn, from, to, p, entry).outcome;
            var ours := entry.Some? && entry.value.Record? && BothRead(mn, from, to, p, entry.value.fields);
            && (outcome.Skipped? <==> entry.None? || (HasWork(p) && !ours))
            && (outcome.Migrated? <==>
                  ours && HasWork(p)
                  && Writes(p, entry.value.fields, Decode(mn.types, to.fields, entry.value.fields).value))
            && (!outcome.Migrated? ==> UpVisit(mn, from, to, p, entry).entry == entry)
  {
    if entry.Some? && entry.value.Record? && BothRead(mn, from, to, p, entry.value.fields) {
      ChangedIff(mn, from, to, p, entry.value.fields, Decode(mn.types, to.fields, entry.value.fields).value);
    }
  }

  // ----- When a visit traps -----

  /** The expression of a default runs: the field is empty, and this is its first default. */
  ghost predicate FillRuns(t: Table, read: Fields, i: nat)
    requires i < |t|
  {
    t[i].0 !in read && !Has(t[..i], t[i].0)
  }

  lemma FillPanicsIff(mn: Meaning, t: Table, read: Fields, i: nat)
    requires Consistent(t) && i < |t|
    ensures FillPanics(mn, t, Scratch(read, false), i)
       <==> FillRuns(t, read, i) && mn.panics(t[i].0, t[i].1, Fill(mn, t[..i], Scratch(read, false)).entry)
  {
    FillAt(mn, t[..i], Scratch(read, false), t[i].0);
  }

  /** The conversion of a consumed value runs, and traps. */
  ghost predicate Balks(mn: Meaning, raw: Fields, read: Fields, c: Consumer) {
    && Fires(raw, c, At(read, c.target)) && c.conversion.Some?
    && mn.rejects(c.target, c.conversion.value, raw[c.source])
  }

  lemma ConsumePanicsIff(mn: Meaning, from: Schema, to: Schema, p: Program, raw: Fields, read: Fields, i: nat)
    requires Shaped(from, to, p) && DistinctTargets(p.consumers) && i < |p.consumers|
    ensures ConsumePanics(mn, raw, p.consumers, BeforeConsuming(mn, p, read), i)
       <==> Balks(mn, raw, read, p.consumers[i])
  {
    var c, before := p.consumers[i], BeforeConsuming(mn, p, read);
    assert WriterOf(p.consumers, c.target).Some?;
    WriterAlone(from, to, p, c.target);
    BeforeConsumingIs(mn, from, to, p, read, c.target);
    ConsumeAt(mn, raw, p.consumers[..i], before, c.target);
  }

  ghost predicate FillBalks(mn: Meaning, p: Program, read: Fields, i: nat)
    requires i < |p.assignOptional|
  {
    && FillRuns(p.assignOptional, read, i)
    && mn.panics(p.assignOptional[i].0, p.assignOptional[i].1,
                 Fill(mn, p.assignOptional[..i], Scratch(read, false)).entry)
  }

  ghost predicate AssignBalks(mn: Meaning, p: Program, read: Fields, i: nat)
    requires i < |p.assignRequired|
  {
    mn.panics(p.assignRequired[i].0, p.assignRequired[i].1, Halfway(mn, p, read, i))
  }

  /** Some expression that the body has to run traps: the default of an empty field, an assignment,
      or the conversion of a value that is moved. */
  ghost predicate Balking(mn: Meaning, p: Program, raw: Fields, read: Fields) {
    || (exists i :: 0 <= i < |p.assignOptional| && FillBalks(mn, p, read, i))
    || (exists i :: 0 <= i < |p.assignRequired| && AssignBalks(mn, p, read, i))
    || exists c :: c in p.consumers && Balks(mn, raw, read, c)
  }

  lemma PanicBalks(mn: Meaning, from: Schema, to: Schema, p: Program, raw: Fields, read: Fields)
    requires Shaped(from, to, p) && DistinctTargets(p.consumers) && Panics(mn, p, raw, read)
    ensures Balking(mn, p, raw, read)
  {
    var start := Scratch(read, false);
    var filled := Fill(mn, p.assignOptional, start);
    if i :| 0 <= i < |p.assignOptional| && FillPanics(mn, p.assignOptional, start, i) {
      FillPanicsIff(mn, p.assignOptional, read, i);
      assert FillBalks(mn, p, read, i);
    } else if i :| 0 <= i < |p.assignRequired| && AssignPanics(mn, p.assignRequired, filled, i) {
      assert AssignBalks(mn, p, read, i);
    } else {
      var i :| 0 <= i < |p.consumers| && ConsumePanics(mn, raw, p.consumers, BeforeConsuming(mn, p, read), i);
      ConsumePanicsIff(mn, from, to, p, raw, read, i);
      assert p.consumers[i] in p.consumers;
    }
  }

  lemma BalkPanics(mn: Meaning, from: Schema, to: Schema, p: Program, raw: Fields, read: Fields)
    requires Shaped(from, to, p) && DistinctTargets(p.consumers) && Balking(mn, p, raw, read)
    ensures Panics(mn, p, raw, read)
  {
    var start := Scratch(read, false);
    if i :| 0 <= i < |p.assignOptional| && FillBalks(mn, p, read, i) {
      FillPanicsIff(mn, p.assignOptional, read, i);
      assert FillPanics(mn, p.assignOptional, start, i);
    } else if i :| 0 <= i < |p.assignRequired| && AssignBalks(mn, p, read, i) {
      assert AssignPanics(mn, p.assignRequired, Fill(mn, p.assignOptional, start), i);
    } else {
      var c :| c in p.consumers && Balks(mn, raw, read, c);
      var i :| 0 <= i < |p.consumers| && p.consumers[i] == c;
      ConsumePanicsIff(mn, from, to, p, raw, read, i);
    }
  }

  /** A visit traps exactly when an expression that it has to run does, and ends in no other error. */
  lemma GeneratedTraps(mn: Meaning, from: Schema, to: Schema, p: Program, entry: Option<Val>)
    requires Shaped(from, to, p) && DistinctTargets(p.consumers)
    ensures var visit := UpVisit(mn, from, to, p, entry);
            && (visit.Refused? ==> visit.error == Trap)
            && (visit.Refused? <==>
                  && entry.Some? && entry.value.Record? && BothRead(mn, from, to, p, entry.value.fields)
                  && var raw := entry.value.fields;
                     Balking(mn, p, raw, Decode(mn.types, to.fields, raw).value))
  {
    if entry.Some? && entry.value.Record? && BothRead(mn, from, to, p, entry.value.fields) {
      var raw := entry.value.fields;
      var read := Decode(mn.types, to.fields, raw).value;
      if Panics(mn, p, raw, read) {
        PanicBalks(mn, from, to, p, raw, read);
      } else if Balking(mn, p, raw, read) {
        BalkPanics(mn, from, to, p, raw, read);
      }
    }
  }

  // ----- When a second visit reports an entry as current -----

  /** The new shape still has the consumed key, under a type that shares values with the old. */
  ghost predicate SourceKept(types: Types, from: Schema, to: Schema, c: Consumer) {
    c.source in Names(to.fields) && SomeShared(types, BaseIn(from.fields, c.source), BaseIn(to.fields, c.source))
  }

  /** Nothing is assigned unconditionally, and no required field draws on a key that is kept. */
  ghost predicate Quiet(types: Types, from: Schema, to: Schema, p: Program) {
    p.assignRequired == [] && forall c :: c in p.consumers ==> c.targetOptional || !SourceKept(types, from, to, c)
  }

  /** The conversion of some required retyped field never computes a value of the old type, so
      that a migrated entry is skipped from then on. */
  ghost predicate Outgrown(mn: Meaning, from: Schema, to: Schema, p: Program) {
    exists c :: c in p.consumers && OutgrownBy(mn, from, to, c)
  }

  ghost predicate OutgrownBy(mn: Meaning, from: Schema, to: Schema, c: Consumer) {
    && c.source == c.target && !c.targetOptional
    && forall v :: Shared(mn.types, BaseIn(from.fields, c.source), BaseIn(to.fields, c.source), v) ==>
         !mn.types(BaseIn(from.fields, c.source), Converted(mn, c, v))
  }

  predicate Migrates(mn: Meaning, from: Schema, to: Schema, p: Program, raw: Fields) {
    !UpTraps(mn, from, to, p, raw) && UpStruct(mn, from, to, p, raw).1.Migrated?
  }

  ghost predicate NeverMigratesTwice(mn: Meaning, from: Schema, to: Schema, p: Program) {
    forall raw :: Migrates(mn, from, to, p, raw) ==> !Migrates(mn, from, to, p, UpStruct(mn, from, to, p, raw).0)
  }

  lemma QuietSecondVisit(mn: Meaning, from: Schema, to: Schema, p: Program, raw: Fields)
    requires Sensible(mn.types) && DistinctNames(to.fields) && Shaped(from, to, p) && WellTyped(mn, from, to, p)
    requires Quiet(mn.types, from, to, p) && UpStruct(mn, from, to, p, raw).1.Migrated?
    ensures !UpStruct(mn, from, to, p, UpStruct(mn, from, to, p, raw).0).1.Migrated?
  {
    var after := UpStruct(mn, from, to, p, raw).0;
    RewrittenConforms(mn, from, to, p, raw);
    if BothRead(mn, from, to, p, after) {
      forall a | a in p.assignOptional ensures a.0 in after {
        FilledStays(mn, from, to, p, raw, Decode(mn.types, to.fields, raw).value, a);
      }
      forall c | c in p.consumers ensures !Fires(after, c, At(after, c.target)) {
        QuietConsumer(mn, from, to, p, raw, after, c);
      }
      FillsNone(mn, p.assignOptional, Scratch(after, false));
      ConsumesNone(mn, after, p.consumers, Scratch(after, false));
    }
  }

  lemma QuietConsumer(mn: Meaning, from: Schema, to: Schema, p: Program, raw: Fields, after: Fields, c: Consumer)
    requires Sensible(mn.types) && DistinctNames(to.fields) && Shaped(from, to, p) && c in p.consumers
    requires BothRead(mn, from, to, p, raw) && BothRead(mn, from, to, p, after)
    requires after == Rewritten(mn, p, raw, Decode(mn.types, to.fields, raw).value).entry
    requires Conforms(mn.types, to.fields, after)
    requires c.targetOptional || !SourceKept(mn.types, from, to, c)
    ensures !Fires(after, c, At(after, c.target))
  {
    assert ShapedConsumer(from, to, c);
    if c.targetOptional {
      SourceAfterwards(mn, from, to, p, raw, after, c.source);
      RewrittenIs(mn, from, to, p, raw, Decode(mn.types, to.fields, raw).value, c.target);
      assert WriterOf(p.consumers, c.target) == Some(c);
    } else {
      ConformingIsTyped(mn.types, to.fields, after);
      assert Present(after, c.source) ==>
          Shared(mn.types, BaseIn(from.fields, c.source), BaseIn(to.fields, c.source), after[c.source]);
    }
  }

  lemma OutgrownSecondVisit(mn: Meaning, from: Schema, to: Schema, p: Program, raw: Fields, c: Consumer)
    requires Sensible(mn.types) && DistinctNames(to.fields) && Shaped(from, to, p) && WellTyped(mn, from, to, p)
    requires c in p.consumers && OutgrownBy(mn, from, to, c) && UpStruct(mn, from, to, p, raw).1.Migrated?
    ensures UpStruct(mn, from, to, p, UpStruct(mn, from, to, p, raw).0).1.Skipped?
  {
    var after := UpStruct(mn, from, to, p, raw).0;
    assert WriterOf(p.consumers, c.source) == Some(c) && ShapedConsumer(from, to, c);
    SourceAfterwards(mn, from, to, p, raw, after, c.source);
    RetypeConverts(mn, from, to, p, raw, c);
    RewrittenConforms(mn, from, to, p, raw);
    ConformsMeans(mn.types, to.fields, after);
    assert !ShadowReads(mn.types, from, p.consumers, after);
  }

  // ----- And when it does not -----

  /** A value that is readable again after the visit. */
  ghost function Returning(mn: Meaning, from: Schema, to: Schema, p: Program, n: string): (v: Val)
    requires Sensible(mn.types) && !Outgrown(mn, from, to, p)
    ensures mn.types(BaseIn(to.fields, n), v)
    ensures SomeShared(mn.types, BaseIn(from.fields, n), BaseIn(to.fields, n)) ==> mn.types(BaseIn(from.fields, n), v)
    ensures Reconverted(p, n) ==>
              mn.types(BaseIn(from.fields, n), Converted(mn, WriterOf(p.consumers, n).value, v))
  {
    if Reconverted(p, n) then
      assert !OutgrownBy(mn, from, to, WriterOf(p.consumers, n).value);
      var v :| Shared(mn.types, BaseIn(from.fields, n), BaseIn(to.fields, n), v)
               && mn.types(BaseIn(from.fields, n), Converted(mn, WriterOf(p.consumers, n).value, v));
      v
    else Picked(mn.types, from, to, n)
  }

  /** Every required field and `extra`, all readable again after the visit. */
  ghost function Returnable(mn: Meaning, from: Schema, to: Schema, p: Program, extra: set<string>): (e: Fields)
    requires Sensible(mn.types) && !Outgrown(mn, from, to, p) && extra <= Names(to.fields)
    ensures forall n :: n in e <==> Required(to, n) || n in extra
    ensures forall n :: n in e ==> e[n] == Returning(mn, from, to, p, n)
  {
    map n | n in Names(to.fields) && (Required(to, n) || n in extra) :: Returning(mn, from, to, p, n)
  }

  lemma ReturnableReads(mn: Meaning, from: Schema, to: Schema, p: Program, extra: set<string>)
    requires Sensible(mn.types) && DistinctNames(to.fields) && Shaped(from, to, p)
    requires !Outgrown(mn, from, to, p) && !Frozen(mn.types, from, to, p) && extra <= Names(to.fields)
    requires forall n :: n in extra ==> SomeShared(mn.types, BaseIn(from.fields, n), BaseIn(to.fields, n))
    ensures var raw := Returnable(mn, from, to, p, extra);
            && Conforms(mn.types, to.fields, raw) && BothRead(mn, from, to, p, raw) && GivenBack(mn, from, p, raw)
  {
    var raw := Returnable(mn, from, to, p, extra);
    forall n | n in raw ensures Fits(mn.types, from, to, p, n, raw[n]) {
      if c :| c in p.consumers && c.source == n {
        assert !FrozenBy(mn.types, from, to, c);
      }
    }
    FittingReads(mn, from, to, p, raw);
    forall c | c in p.consumers && c.source == c.target && !c.targetOptional && c.source in raw
      ensures mn.types(BaseIn(from.fields, c.source), Converted(mn, c, raw[c.source])) {
      assert WriterOf(p.consumers, c.source) == Some(c);
    }
  }

  lemma SourceStays(mn: Meaning, from: Schema, to: Schema, p: Program, raw: Fields, after: Fields, c: Consumer)
    requires Shaped(from, to, p) && c in p.consumers && c.source in raw && Conforms(mn.types, to.fields, raw)
    requires after == Rewritten(mn, p, raw, raw).entry
    ensures c.source in after
  {
    RewrittenIs(mn, from, to, p, raw, raw, c.source);
  }

  /** Whatever the program does on this entry, it does again to what it made of it. */
  lemma LoudSecondVisit(mn: Meaning, from: Schema, to: Schema, p: Program, raw: Fields)
    requires Sensible(mn.types) && DistinctNames(to.fields) && Shaped(from, to, p) && WellTyped(mn, from, to, p)
    requires Conforms(mn.types, to.fields, raw) && BothRead(mn, from, to, p, raw) && GivenBack(mn, from, p, raw)
    requires p.assignRequired != []
             || exists c :: c in p.consumers && !c.targetOptional && c.source in raw
    ensures var once := UpStruct(mn, from, to, p, raw);
            once.1.Migrated? && UpStruct(mn, from, to, p, once.0).1.Migrated?
  {
    var after := Rewritten(mn, p, raw, raw).entry;
    VisitedReads(mn, from, to, p, raw, after);
    ConformsMeans(mn.types, to.fields, raw);
    ConformsMeans(mn.types, to.fields, after);
    if p.assignRequired != [] {
      RequiredAlwaysRewrites(mn, from, to, p, raw);
      RequiredAlwaysRewrites(mn, from, to, p, after);
    } else {
      var c :| c in p.consumers && !c.targetOptional && c.source in raw;
      SourceStays(mn, from, to, p, raw, after, c);
      ConsumerChanges(mn, raw, p.consumers, BeforeConsuming(mn, p, raw), c);
      ConsumerChanges(mn, after, p.consumers, BeforeConsuming(mn, p, after), c);
    }
  }

  lemma LoudWitness(mn: Meaning, from: Schema, to: Schema, p: Program) returns (raw: Fields)
    requires Sensible(mn.types) && DistinctNames(to.fields) && Shaped(from, to, p) && WellTyped(mn, from, to, p)
    requires !Quiet(mn.types, from, to, p) && !Frozen(mn.types, from, to, p) && !Outgrown(mn, from, to, p)
    ensures var once := UpStruct(mn, from, to, p, raw);
            once.1.Migrated? && UpStruct(mn, from, to, p, once.0).1.Migrated?
  {
    var extra: set<string> := {};
    if p.assignRequired == [] {
      var c :| c in p.consumers && !c.targetOptional && SourceKept(mn.types, from, to, c);
      extra := {c.source};
      assert c.source in Returnable(mn, from, to, p, extra);
    }
    raw := Returnable(mn, from, to, p, extra);
    ReturnableReads(mn, from, to, p, extra);
    LoudSecondVisit(mn, from, to, p, raw);
  }

  /** An entry migrated once is not migrated again exactly when nothing is assigned
      unconditionally and no required field draws on a key that is kept — or some conversion puts
      every migrated entry out of the old type's reach, or the migration skips every entry. */
  lemma NeverMigratesTwiceIff(mn: Meaning, from: Schema, to: Schema, p: Program)
    requires Sensible(mn.types) && DistinctNames(to.fields) && Shaped(from, to, p) && WellTyped(mn, from, to, p)
    ensures Quiet(mn.types, from, to, p) || Frozen(mn.types, from, to, p) || Outgrown(mn, from, to, p) ==>
              NeverMigratesTwice(mn, from, to, p)
    ensures Total(mn) ==> (NeverMigratesTwice(mn, from, to, p)
                           <==> || Quiet(mn.types, from, to, p) || Frozen(mn.types, from, to, p)
                                || Outgrown(mn, from, to, p))
  {
    if Quiet(mn.types, from, to, p) || Frozen(mn.types, from, to, p) || Outgrown(mn, from, to, p) {
      forall raw | Migrates(mn, from, to, p, raw)
        ensures !Migrates(mn, from, to, p, UpStruct(mn, from, to, p, raw).0) {
        SecondVisitSilent(mn, from, to, p, raw);
      }
    } else if Total(mn) {
      var raw := LoudWitness(mn, from, to, p);
      TotalNeverTraps(mn, from, to, p, raw);
      TotalNeverTraps(mn, from, to, p, UpStruct(mn, from, to, p, raw).0);
      assert Migrates(mn, from, to, p, raw);
    }
  }

  lemma SecondVisitSilent(mn: Meaning, from: Schema, to: Schema, p: Program, raw: Fields)
    requires Sensible(mn.types) && DistinctNames(to.fields) && Shaped(from, to, p) && WellTyped(mn, from, to, p)
    requires Quiet(mn.types, from, to, p) || Frozen(mn.types, from, to, p) || Outgrown(mn, from, to, p)
    requires UpStruct(mn, from, to, p, raw).1.Migrated?
    ensures !UpStruct(mn, from, to, p, UpStruct(mn, from, to, p, raw).0).1.Migrated?
  {
    if Quiet(mn.types, from, to, p) {
      QuietSecondVisit(mn, from, to, p, raw);
    } else if Frozen(mn.types, from, to, p) {
      FrozenNeverReads(mn, from, to, p, raw);
    } else {
      var c :| c in p.consumers && OutgrownBy(mn, from, to, c);
      OutgrownSecondVisit(mn, from, to, p, raw, c);
    }
  }

  lemma GeneratedNeverMigratesTwiceIff(mn: Meaning, from: Schema, to: Schema, plan: MigrationPlan)
    requires Sensible(mn.types) && DistinctNames(to.fields) && DiffOf(from, to, plan).Accepted?
    requires GenerateOf(from, to, DiffOf(from, to, plan).value, plan).Accepted?
    requires WellTyped(mn, from, to, GenerateOf(from, to, DiffOf(from, to, plan).value, plan).value)
    ensures var p := GenerateOf(from, to, DiffOf(from, to, plan).value, plan).value;
            var never := Quiet(mn.types, from, to, p) || Frozen(mn.types, from, to, p) || Outgrown(mn, from, to, p);
            && (never ==> NeverMigratesTwice(mn, from, to, p))
            && (Total(mn) ==> (NeverMigratesTwice(mn, from, to, p) <==> never))
  {
    GeneratedIsShaped(from, to, plan);
    NeverMigratesTwiceIff(mn, from, to, GenerateOf(from, to, DiffOf(from, to, plan).value, plan).value);
  }

  // ----- Which stored values a visit keeps -----

  /** What a contract declaring `fields` reads in field `n`, if it can read the entry. */
  function Reads(types: Types, fields: seq<Field>, raw: Fields, n: string): Option<Val> {
    if Readable(types, fields, raw) then At(Decode(types, fields, raw).value, n) else None
  }

  ghost predicate KeptIn(mn: Meaning, from: Schema, to: Schema, p: Program, n: string, raw: Fields) {
    Reads(mn.types, to.fields, UpStruct(mn, from, to, p, raw).0, n) == Reads(mn.types, to.fields, raw, n)
  }

  /** Field `n` of a readable entry reads the same after every visit that succeeds. */
  ghost predicate Kept(mn: Meaning, from: Schema, to: Schema, p: Program, n: string) {
    forall raw :: Readable(mn.types, to.fields, raw) && !UpTraps(mn, from, to, p, raw) ==>
      KeptIn(mn, from, to, p, n, raw)
  }

  lemma ReadsRewritten(mn: Meaning, from: Schema, to: Schema, p: Program, raw: Fields, n: string)
    requires Sensible(mn.types) && DistinctNames(to.fields) && Shaped(from, to, p) && WellTyped(mn, from, to, p)
    requires BothRead(mn, from, to, p, raw)
    ensures Reads(mn.types, to.fields, UpStruct(mn, from, to, p, raw).0, n)
         == At(Rewritten(mn, p, raw, Decode(mn.types, to.fields, raw).value).entry, n)
  {
    RewrittenConforms(mn, from, to, p, raw);
    RewrittenIs(mn, from, to, p, raw, Decode(mn.types, to.fields, raw).value, n);
  }

  lemma UnassignedIsKept(mn: Meaning, from: Schema, to: Schema, p: Program, n: string, raw: Fields)
    requires Sensible(mn.types) && DistinctNames(to.fields) && Shaped(from, to, p) && WellTyped(mn, from, to, p)
    requires n in Names(from.fields) && n in Names(to.fields)
    requires !Has(p.assignRequired, n) && !Reconverted(p, n) && Readable(mn.types, to.fields, raw)
    ensures KeptIn(mn, from, to, p, n, raw)
  {
    if BothRead(mn, from, to, p, raw) {
      var read := Decode(mn.types, to.fields, raw).value;
      ReadsRewritten(mn, from, to, p, raw, n);
      OldKeyNotFilled(from, to, p, n);
      RewrittenIs(mn, from, to, p, raw, read, n);
      var c := WriterOf(p.consumers, n);
      if c.Some? {
        assert ShapedConsumer(from, to, c.value);
        RetypeConverts(mn, from, to, p, raw, c.value);
      }
    }
  }

  lemma SameTypeNotReconverted(from: Schema, to: Schema, p: Program, n: string)
    requires Shaped(from, to, p) && BaseIn(from.fields, n) == BaseIn(to.fields, n)
    ensures !Reconverted(p, n)
  {
    var c := WriterOf(p.consumers, n);
    assert c.Some? ==> ShapedConsumer(from, to, c.value);
  }

  lemma AbsentIsSkipped(mn: Meaning, from: Schema, to: Schema, p: Program, n: string, raw: Fields)
    requires Required(to, n) && !Present(raw, n) && HasWork(p)
    ensures UpStruct(mn, from, to, p, raw) == (raw, Skipped)
  {
    assert !FieldReads(mn.types, FieldIn(to.fields, n).value, raw);
  }

  lemma AssignedReads(mn: Meaning, from: Schema, to: Schema, p: Program, n: string, raw: Fields)
    requires Sensible(mn.types) && DistinctNames(to.fields) && Shaped(from, to, p) && WellTyped(mn, from, to, p)
    requires Has(p.assignRequired, n) && Constant(mn, n, Get(p.assignRequired, n).value)
    requires BothRead(mn, from, to, p, raw)
    ensures Reads(mn.types, to.fields, UpStruct(mn, from, to, p, raw).0, n)
         == Some(Initial(mn, n, Get(p.assignRequired, n).value))
  {
    ReadsRewritten(mn, from, to, p, raw, n);
    RewrittenIs(mn, from, to, p, raw, Decode(mn.types, to.fields, raw).value, n);
    AssignedIs(mn, from, to, p, raw, Decode(mn.types, to.fields, raw).value, n);
  }

  /** A newly required field is overwritten in every entry that has it, and filled in none that
      lacks it: those stay unreadable and are skipped. */
  lemma AssignedIsOverwritten(mn: Meaning, from: Schema, to: Schema, p: Program, n: string, raw: Fields)
    requires Sensible(mn.types) && DistinctNames(to.fields) && Shaped(from, to, p) && WellTyped(mn, from, to, p)
    requires Has(p.assignRequired, n) && Constant(mn, n, Get(p.assignRequired, n).value)
    ensures !Present(raw, n) ==> UpStruct(mn, from, to, p, raw) == (raw, Skipped)
    ensures BothRead(mn, from, to, p, raw) ==>
              Reads(mn.types, to.fields, UpStruct(mn, from, to, p, raw).0, n)
                == Some(Initial(mn, n, Get(p.assignRequired, n).value))
  {
    assert (n, Get(p.assignRequired, n).value) in p.assignRequired;
    if !Present(raw, n) {
      AbsentIsSkipped(mn, from, to, p, n, raw);
    }
    if BothRead(mn, from, to, p, raw) {
      AssignedReads(mn, from, to, p, n, raw);
    }
  }

  lemma OneValueKept(mn: Meaning, from: Schema, to: Schema, p: Program, n: string, raw: Fields)
    requires Sensible(mn.types) && DistinctNames(to.fields) && Shaped(from, to, p) && WellTyped(mn, from, to, p)
    requires Required(to, n) && !TwoValues(mn.types, BaseIn(to.fields, n)) && Readable(mn.types, to.fields, raw)
    ensures KeptIn(mn, from, to, p, n, raw)
  {
    if BothRead(mn, from, to, p, raw) {
      var after := Rewritten(mn, p, raw, Decode(mn.types, to.fields, raw).value).entry;
      RewrittenConforms(mn, from, to, p, raw);
      ReadsRewritten(mn, from, to, p, raw, n);
      OneValued(mn, from, to, raw, after, n);
    }
  }

  /** A field both shapes have with the same type survives every visit of every readable entry
      exactly when it is not assigned unconditionally — or has one value only, or the migration
      skips every entry. */
  lemma KeptIff(mn: Meaning, from: Schema, to: Schema, p: Program, n: string)
    requires Sensible(mn.types) && DistinctNames(to.fields) && Shaped(from, to, p) && WellTyped(mn, from, to, p)
    requires n in Names(from.fields) && n in Names(to.fields) && BaseIn(from.fields, n) == BaseIn(to.fields, n)
    requires Has(p.assignRequired, n) ==> Constant(mn, n, Get(p.assignRequired, n).value)
    ensures var keeps := !Has(p.assignRequired, n) || Frozen(mn.types, from, to, p)
                         || !TwoValues(mn.types, BaseIn(to.fields, n));
            && (keeps ==> Kept(mn, from, to, p, n))
            && (Total(mn) ==> (Kept(mn, from, to, p, n) <==> keeps))
  {
    SameTypeNotReconverted(from, to, p, n);
    if !Has(p.assignRequired, n) {
      forall raw | Readable(mn.types, to.fields, raw) ensures KeptIn(mn, from, to, p, n, raw) {
        UnassignedIsKept(mn, from, to, p, n, raw);
      }
    } else if Frozen(mn.types, from, to, p) {
      forall raw | Readable(mn.types, to.fields, raw) ensures KeptIn(mn, from, to, p, n, raw) {
        FrozenNeverReads(mn, from, to, p, raw);
      }
    } else if !TwoValues(mn.types, BaseIn(to.fields, n)) {
      assert (n, Get(p.assignRequired, n).value) in p.assignRequired;
      forall raw | Readable(mn.types, to.fields, raw) ensures KeptIn(mn, from, to, p, n, raw) {
        OneValueKept(mn, from, to, p, n, raw);
      }
    } else if Total(mn) {
      OverwrittenSomewhere(mn, from, to, p, n);
    }
  }

  lemma OverwrittenSomewhere(mn: Meaning, from: Schema, to: Schema, p: Program, n: string)
    requires Sensible(mn.types) && DistinctNames(to.fields) && Shaped(from, to, p) && WellTyped(mn, from, to, p)
    requires Has(p.assignRequired, n) && Constant(mn, n, Get(p.assignRequired, n).value) && Total(mn)
    requires !Frozen(mn.types, from, to, p) && TwoValues(mn.types, BaseIn(to.fields, n))
    ensures !Kept(mn, from, to, p, n)
  {
    var constant := Initial(mn, n, Get(p.assignRequired, n).value);
    var raw := Barest(mn.types, from, to)[n := OtherThan(mn.types, BaseIn(to.fields, n), constant)];
    assert (n, Get(p.assignRequired, n).value) in p.assignRequired;
    AssignedFits(mn.types, from, to, p, n, raw[n]);
    BarestBut(mn, from, to, p, n, raw[n]);
    AssignedIsOverwritten(mn, from, to, p, n, raw);
    TotalNeverTraps(mn, from, to, p, raw);
    assert !KeptIn(mn, from, to, p, n, raw);
  }

  /** A retyped field survives exactly when its new type is optional, or its conversion changes no
      value that reads as both types — or the migration skips every entry. */
  lemma RetypedKeptIff(mn: Meaning, from: Schema, to: Schema, p: Program, c: Consumer)
    requires Sensible(mn.types) && DistinctNames(to.fields) && Shaped(from, to, p) && WellTyped(mn, from, to, p)
    requires c in p.consumers && c.source == c.target
    ensures var keeps := c.targetOptional || Frozen(mn.types, from, to, p) || Unchanging(mn, from, to, c);
            && (keeps ==> Kept(mn, from, to, p, c.target))
            && (Total(mn) ==> (Kept(mn, from, to, p, c.target) <==> keeps))
  {
    var n := c.target;
    assert WriterOf(p.consumers, n) == Some(c) && ShapedConsumer(from, to, c);
    WriterAlone(from, to, p, n);
    if c.targetOptional || Frozen(mn.types, from, to, p) || Unchanging(mn, from, to, c) {
      forall raw | Readable(mn.types, to.fields, raw) ensures KeptIn(mn, from, to, p, n, raw) {
        if c.targetOptional {
          UnassignedIsKept(mn, from, to, p, n, raw);
        } else if BothRead(mn, from, to, p, raw) {
          RetypedReads(mn, from, to, p, raw, c);
        }
      }
    } else if Total(mn) {
      var v :| Shared(mn.types, BaseIn(from.fields, n), BaseIn(to.fields, n), v) && Converted(mn, c, v) != v;
      var raw := Barest(mn.types, from, to)[n := v];
      BarestBut(mn, from, to, p, n, v);
      RetypedReads(mn, from, to, p, raw, c);
      TotalNeverTraps(mn, from, to, p, raw);
      assert !KeptIn(mn, from, to, p, n, raw);
    }
  }

  ghost predicate Unchanging(mn: Meaning, from: Schema, to: Schema, c: Consumer) {
    forall v :: Shared(mn.types, BaseIn(from.fields, c.source), BaseIn(to.fields, c.source), v) ==>
      Converted(mn, c, v) == v
  }

  lemma RetypedReads(mn: Meaning, from: Schema, to: Schema, p: Program, raw: Fields, c: Consumer)
    requires Sensible(mn.types) && DistinctNames(to.fields) && Shaped(from, to, p) && WellTyped(mn, from, to, p)
    requires BothRead(mn, from, to, p, raw) && c in p.consumers && c.source == c.target && !c.targetOptional
    ensures !Frozen(mn.types, from, to, p)
    ensures Present(raw, c.source)
    ensures Shared(mn.types, BaseIn(from.fields, c.source), BaseIn(to.fields, c.source), raw[c.source])
    ensures Reads(mn.types, to.fields, raw, c.target) == Some(raw[c.source])
    ensures Reads(mn.types, to.fields, UpStruct(mn, from, to, p, raw).0, c.target)
         == Some(Converted(mn, c, raw[c.source]))
  {
    assert ShapedConsumer(from, to, c);
    FrozenIff(mn, from, to, p);
    RetypeConverts(mn, from, to, p, raw, c);
    ReadsRewritten(mn, from, to, p, raw, c.target);
    TargetWritten(mn, from, to, p, raw, Decode(mn.types, to.fields, raw).value, c);
  }
}
