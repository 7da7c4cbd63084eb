/** Where a generated migration takes the entries it was written for: field by field in one
    visit, and over a whole batched run. */
module Arrivals {
  import opened Host
  import opened KeyLog
  import opened Schemas
  import opened Diffs
  import opened Gate
  import opened Codegen
  import opened Generated
  import opened Rewrites
  import opened Rereads
  import opened Repeats
  import opened Shapes
  import opened Shadows
  import opened Storage
  import opened Protocol
  import opened Forward

  /** All additions and rename targets are optional, nothing is retyped or newly required. */
  ghost predicate Additive(from: Schema, to: Schema) {
    forall f :: f in to.fields ==> !Traps(from, f)
  }

  /** Old entries all end up readable as the new shape exactly when they all were before any
      migration ran: when the change is additive, up to retypes under which every old value reads
      as the new type. */
  lemma EveryOldEntryArrivesIff(mn: Meaning, from: Schema, to: Schema, p: Program)
    requires Sensible(mn.types) && DistinctNames(from.fields) && DistinctNames(to.fields)
    requires Shaped(from, to, p) && WellTyped(mn, from, to, p)
    ensures (forall e :: Conforms(mn.types, from.fields, e) ==>
              Readable(mn.types, to.fields, UpStruct(mn, from, to, p, e).0))
       <==> forall f :: f in to.fields ==> !TrapsIn(mn.types, from, f)
    ensures Distinguishes(mn.types, from, to) ==>
              (Additive(from, to) <==> forall f :: f in to.fields ==> !TrapsIn(mn.types, from, f))
  {
    OldEntriesReadableIff(mn.types, from, to);
    forall e ensures Readable(mn.types, to.fields, UpStruct(mn, from, to, p, e).0)
      <==> Readable(mn.types, to.fields, e) {
      VisitNeitherTrapsNorRescues(mn, from, to, p, e);
    }
    forall f | f in to.fields && Distinguishes(mn.types, from, to)
      ensures Traps(from, f) <==> TrapsIn(mn.types, from, f) {
      TrapsBySchema(mn.types, from, f);
    }
  }

  // ----- What the program does about each field -----

  /** What happened to the field called `n`. */
  function KindAt(from: Schema, to: Schema, plan: MigrationPlan, n: string): Option<ChangeKind> {
    if n in Names(to.fields) then KindOf(from, plan, FieldIn(to.fields, n).value) else None
  }

  predicate BecomesAssigned(kind: Option<ChangeKind>) {
    kind.Some? && (kind.value.AddedRequired? || kind.value.BecameRequired?)
  }

  predicate BecomesConsumed(kind: Option<ChangeKind>) {
    kind.Some? && (kind.value.Renamed? || kind.value.Retyped?)
  }

  lemma KindOfFinding(from: Schema, to: Schema, plan: MigrationPlan, x: Finding)
    requires DistinctNames(to.fields) && x in AllFindings(from, to, plan)
    requires x.kind.AddedOptional? || x.kind.AddedRequired? || x.kind.BecameRequired? || x.kind.Renamed?
             || x.kind.Retyped?
    ensures KindAt(from, to, plan, x.field) == Some(x.kind)
  {
    var f := SubjectOf(from, to, plan, x);
    assert f.name in Names(to.fields);
  }

  lemma FilledIsDeclared(from: Schema, to: Schema, plan: MigrationPlan, p: Program, n: string)
    requires DistinctNames(to.fields) && EmittedAll(from, to, plan, AllFindings(from, to, plan)) == Accepted(p)
    requires Has(p.assignOptional, n)
    ensures KindAt(from, to, plan, n) == Some(AddedOptional) && Get(p.assignOptional, n) == Get(plan.init, n)
  {
    var all := AllFindings(from, to, plan);
    EmittedOptional(from, to, plan, all, (n, Get(p.assignOptional, n).value));
    var x :| x in all && x.kind.AddedOptional? && x.field == n
        && Get(plan.init, n) == Some(Get(p.assignOptional, n).value);
    KindOfFinding(from, to, plan, x);
  }

  lemma DeclaredIsFilled(from: Schema, to: Schema, plan: MigrationPlan, p: Program, n: string)
    requires DistinctNames(to.fields) && EmittedAll(from, to, plan, AllFindings(from, to, plan)) == Accepted(p)
    requires KindAt(from, to, plan, n) == Some(AddedOptional) && Has(plan.init, n)
    ensures (n, Get(plan.init, n).value) in p.assignOptional
  {
    var all := AllFindings(from, to, plan);
    var x := FindingOf(from, to, plan, FieldIn(to.fields, n).value);
    EmittedOptional(from, to, plan, all, (n, Get(plan.init, n).value));
    assert OptionalFrom(all, plan, (n, Get(plan.init, n).value));
  }

  lemma FilledAsDeclared(from: Schema, to: Schema, plan: MigrationPlan, p: Program, n: string)
    requires DistinctNames(to.fields) && EmittedAll(from, to, plan, AllFindings(from, to, plan)) == Accepted(p)
    ensures Get(p.assignOptional, n)
         == if KindAt(from, to, plan, n) == Some(AddedOptional) then Get(plan.init, n) else None
  {
    if Has(p.assignOptional, n) {
      FilledIsDeclared(from, to, plan, p, n);
    } else if KindAt(from, to, plan, n) == Some(AddedOptional) && Has(plan.init, n) {
      DeclaredIsFilled(from, to, plan, p, n);
    }
  }

  lemma AssignedIsDeclared(from: Schema, to: Schema, plan: MigrationPlan, p: Program, n: string)
    requires DistinctNames(to.fields) && EmittedAll(from, to, plan, AllFindings(from, to, plan)) == Accepted(p)
    requires Has(p.assignRequired, n)
    ensures BecomesAssigned(KindAt(from, to, plan, n)) && Get(p.assignRequired, n) == Get(plan.init, n)
  {
    var all := AllFindings(from, to, plan);
    EmittedRequired(from, to, plan, all, (n, Get(p.assignRequired, n).value));
    var x :| x in all && (x.kind.AddedRequired? || x.kind.BecameRequired?) && x.field == n
        && Get(plan.init, n) == Some(Get(p.assignRequired, n).value);
    KindOfFinding(from, to, plan, x);
  }

  lemma InitDeclared(from: Schema, to: Schema, plan: MigrationPlan, findings: seq<Finding>, x: Finding)
    requires EmittedAll(from, to, plan, findings).Accepted? && x in findings
    requires x.kind.AddedRequired? || x.kind.BecameRequired?
    ensures Has(plan.init, x.field)
  {
    EmittedAllIff(from, to, plan, findings);
    assert Emitted(from, to, plan, x, NO_PROGRAM).Accepted?;
  }

  lemma DeclaredIsAssigned(from: Schema, to: Schema, plan: MigrationPlan, p: Program, n: string)
    requires DistinctNames(to.fields) && EmittedAll(from, to, plan, AllFindings(from, to, plan)) == Accepted(p)
    requires BecomesAssigned(KindAt(from, to, plan, n))
    ensures Has(plan.init, n) && (n, Get(plan.init, n).value) in p.assignRequired
  {
    var all := AllFindings(from, to, plan);
    var x := FindingOf(from, to, plan, FieldIn(to.fields, n).value);
    InitDeclared(from, to, plan, all, x);
    EmittedRequired(from, to, plan, all, (n, Get(plan.init, n).value));
    assert RequiredFrom(all, plan, (n, Get(plan.init, n).value));
  }

  lemma AssignedAsDeclared(from: Schema, to: Schema, plan: MigrationPlan, p: Program, n: string)
    requires DistinctNames(to.fields) && EmittedAll(from, to, plan, AllFindings(from, to, plan)) == Accepted(p)
    ensures Get(p.assignRequired, n)
         == if BecomesAssigned(KindAt(from, to, plan, n)) then Get(plan.init, n) else None
    ensures BecomesAssigned(KindAt(from, to, plan, n)) ==> Has(plan.init, n)
  {
    if Has(p.assignRequired, n) {
      AssignedIsDeclared(from, to, plan, p, n);
    } else if BecomesAssigned(KindAt(from, to, plan, n)) {
      DeclaredIsAssigned(from, to, plan, p, n);
    }
  }

  lemma ConsumedIsDeclared(from: Schema, to: Schema, plan: MigrationPlan, p: Program, c: Consumer)
    requires DistinctNames(to.fields) && EmittedAll(from, to, plan, AllFindings(from, to, plan)) == Accepted(p)
    requires c in p.consumers
    ensures BecomesConsumed(KindAt(from, to, plan, c.target))
    ensures DeclaredConsumer(from, to, plan, c.target, KindAt(from, to, plan, c.target).value) == Accepted(c)
  {
    var all := AllFindings(from, to, plan);
    EmittedConsumers(from, to, plan, all, c);
    var x :| x in all && Consumes(from, to, plan, x, c);
    KindOfFinding(from, to, plan, x);
    var f := ConsumerSubject(from, to, plan, x, c);
  }

  lemma ConsumedAsDeclared(from: Schema, to: Schema, plan: MigrationPlan, p: Program, n: string)
    requires DistinctNames(to.fields) && EmittedAll(from, to, plan, AllFindings(from, to, plan)) == Accepted(p)
    ensures WriterOf(p.consumers, n).Some? <==> BecomesConsumed(KindAt(from, to, plan, n))
    ensures WriterOf(p.consumers, n).Some? ==>
              DeclaredConsumer(from, to, plan, n, KindAt(from, to, plan, n).value)
                == Accepted(WriterOf(p.consumers, n).value)
  {
    if WriterOf(p.consumers, n).Some? {
      ConsumedIsDeclared(from, to, plan, p, WriterOf(p.consumers, n).value);
    } else if BecomesConsumed(KindAt(from, to, plan, n)) {
      var x := FindingOf(from, to, plan, FieldIn(to.fields, n).value);
      KindsApart(from, plan, FieldIn(to.fields, n).value);
      var c := ConsumerOf(from, to, plan, x);
    }
  }

  function DeclaredConsumer(from: Schema, to: Schema, plan: MigrationPlan, n: string, kind: ChangeKind):
    Checked<Consumer>
  {
    if kind.Renamed? then ConsumerForRename(from, to, kind.from, n, plan) else ConsumerForRetype(from, to, n, plan)
  }

  // ----- What the author declared -----

  /** Computed by `expr` from an entry in which every field that both shapes have, and that did
      not become required, still has its old value. */
  ghost predicate Computed(mn: Meaning, from: Schema, to: Schema, plan: MigrationPlan, e: Fields, n: string,
                           expr: string, v: Val) {
    exists before :: StillOld(from, to, plan, e, before) && v == mn.init(n, expr, before)
  }

  ghost predicate StillOld(from: Schema, to: Schema, plan: MigrationPlan, e: Fields, before: Fields) {
    forall k :: k in Names(from.fields) && k in Names(to.fields) && !BecomesAssigned(KindAt(from, to, plan, k)) ==>
      At(before, k) == At(e, k)
  }

  /** A value through its declared conversion, if its base type changes. */
  function Conveyed(mn: Meaning, from: Schema, to: Schema, plan: MigrationPlan, source: string, n: string, v: Val): Val
  {
    if BaseIn(from.fields, source) == BaseIn(to.fields, n) || Get(plan.converted, n).None? then v
    else mn.convert(n, Get(plan.converted, n).value, v)
  }

  /** What field `n` of the old entry `e` is to read in the new shape. */
  ghost predicate Arrives(mn: Meaning, from: Schema, to: Schema, plan: MigrationPlan, e: Fields, n: string,
                          shown: Option<Val>) {
    match KindAt(from, to, plan, n)
    case Some(AddedOptional) =>
      if Has(plan.init, n)
      then shown.Some? && Computed(mn, from, to, plan, e, n, Get(plan.init, n).value, shown.value)
      else shown == None
    case Some(AddedRequired) =>
      && Has(plan.init, n) && shown.Some?
      && Computed(mn, from, to, plan, e, n, Get(plan.init, n).value, shown.value)
    case Some(BecameRequired) =>
      && Has(plan.init, n) && shown.Some?
      && Computed(mn, from, to, plan, e, n, Get(plan.init, n).value, shown.value)
    case Some(Renamed(source, _)) =>
      shown == if source in e then Some(Conveyed(mn, from, to, plan, source, n, e[source])) else None
    case Some(Retyped(_, _)) =>
      shown == if n in e && !FieldIn(to.fields, n).value.optional
               then Some(Conveyed(mn, from, to, plan, n, n, e[n])) else At(e, n)
    case _ =>
      shown == if n in Names(to.fields) then At(e, n) else None
  }

  // ----- One visit -----

  lemma OldEntryShadowReads(types: Types, from: Schema, to: Schema, p: Program, e: Fields)
    requires Conforms(types, from.fields, e) && Shaped(from, to, p)
    ensures ShadowReads(types, from, p.consumers, e)
  {
    ConformsMeans(types, from.fields, e);
    forall c | c in p.consumers && Present(e, c.source) ensures types(BaseIn(from.fields, c.source), e[c.source]) {
      assert ShapedConsumer(from, to, c);
      assert FieldReads(types, FieldIn(from.fields, c.source).value, e);
    }
  }

  /** An old entry the new code can read, and the program generated for the plan. */
  ghost predicate Arriving(mn: Meaning, from: Schema, to: Schema, plan: MigrationPlan, p: Program, e: Fields) {
    && Sensible(mn.types) && DistinctNames(from.fields) && DistinctNames(to.fields)
    && EmittedAll(from, to, plan, AllFindings(from, to, plan)) == Accepted(p)
    && Shaped(from, to, p) && WellTyped(mn, from, to, p)
    && Conforms(mn.types, from.fields, e) && Readable(mn.types, to.fields, e)
  }

  lemma OldReads(mn: Meaning, from: Schema, to: Schema, plan: MigrationPlan, p: Program, e: Fields, n: string)
    requires Arriving(mn, from, to, plan, p, e)
    ensures At(Decode(mn.types, to.fields, e).value, n) == if n in Names(to.fields) then At(e, n) else None
    ensures n in e ==> n in Names(from.fields)
    ensures Required(to, n) ==> n in e
  {
    ConformsMeans(mn.types, from.fields, e);
    if Required(to, n) {
      assert FieldReads(mn.types, FieldIn(to.fields, n).value, e);
    }
  }

  lemma HalfwayStillOld(mn: Meaning, from: Schema, to: Schema, plan: MigrationPlan, p: Program, e: Fields, i: nat)
    requires Arriving(mn, from, to, plan, p, e) && i <= |p.assignRequired|
    ensures StillOld(from, to, plan, e, Halfway(mn, p, Decode(mn.types, to.fields, e).value, i))
  {
    var read := Decode(mn.types, to.fields, e).value;
    forall k | k in Names(from.fields) && k in Names(to.fields) && !BecomesAssigned(KindAt(from, to, plan, k))
      ensures At(Halfway(mn, p, read, i), k) == At(e, k) {
      OldReads(mn, from, to, plan, p, e, k);
      AssignedAsDeclared(from, to, plan, p, k);
      OldKeyNotFilled(from, to, p, k);
      HasPart(p.assignRequired, i, k);
      HalfwayAt(mn, from, to, p, read, i, k);
    }
  }

  lemma AssignedArrives(mn: Meaning, from: Schema, to: Schema, plan: MigrationPlan, p: Program, e: Fields, n: string)
    requires Arriving(mn, from, to, plan, p, e) && BecomesAssigned(KindAt(from, to, plan, n))
    ensures Arrives(mn, from, to, plan, e, n, At(Rewritten(mn, p, e, Decode(mn.types, to.fields, e).value).entry, n))
  {
    var read := Decode(mn.types, to.fields, e).value;
    AssignedAsDeclared(from, to, plan, p, n);
    AssignedIs(mn, from, to, p, e, read, n);
    var i :| 0 <= i < |p.assignRequired| && AssignedAt(mn, p, e, read, n, i);
    AssignedAtIndex(mn, from, to, p, e, read, i);
    HalfwayStillOld(mn, from, to, plan, p, e, i);
    OldReads(mn, from, to, plan, p, e, n);
    assert (n, Get(p.assignRequired, n).value) in p.assignRequired;
  }

  lemma {:induction false} FillKeeps(mn: Meaning, t: Table, d: Scratch, i: nat, n: string)
    requires i <= |t| && n in Fill(mn, t[..i], d).entry
    ensures At(Fill(mn, t, d).entry, n) == At(Fill(mn, t[..i], d).entry, n)
  {
    if i == |t| {
      assert t[..i] == t;
    } else {
      assert t[..|t| - 1][..i] == t[..i];
      FillKeeps(mn, t[..|t| - 1], d, i, n);
    }
  }

  lemma {:induction false} FirstOf(t: Table, n: string) returns (i: nat)
    requires Has(t, n)
    ensures i < |t| && t[i].0 == n && !Has(t[..i], n)
  {
    HasFront(t, n);
    if Has(t[..|t| - 1], n) {
      i := FirstOf(t[..|t| - 1], n);
      assert t[..|t| - 1][..i] == t[..i];
    } else {
      i := |t| - 1;
    }
  }

  /** A filled field holds what its expression computed from the entry as it stood. */
  lemma FilledIs(mn: Meaning, t: Table, d: Scratch, n: string) returns (i: nat)
    requires Consistent(t) && n !in d.entry && Has(t, n)
    ensures i <= |t|
    ensures At(Fill(mn, t, d).entry, n) == Some(mn.init(n, Get(t, n).value, Fill(mn, t[..i], d).entry))
  {
    i := FirstOf(t, n);
    FillAt(mn, t[..i], d, n);
    assert t[..i + 1][..i] == t[..i];
    FillKeeps(mn, t, d, i + 1, n);
    GetConsistent(t, t[i]);
  }

  lemma FillsStillOld(mn: Meaning, from: Schema, to: Schema, plan: MigrationPlan, p: Program, e: Fields, t: Table)
    requires Arriving(mn, from, to, plan, p, e) && Consistent(t) && forall a :: a in t ==> a in p.assignOptional
    ensures StillOld(from, to, plan, e, Fill(mn, t, Scratch(Decode(mn.types, to.fields, e).value, false)).entry)
  {
    var start := Scratch(Decode(mn.types, to.fields, e).value, false);
    forall k | k in Names(from.fields) && k in Names(to.fields)
      ensures At(Fill(mn, t, start).entry, k) == At(e, k) {
      OldReads(mn, from, to, plan, p, e, k);
      FillAt(mn, t, start, k);
      assert forall a :: a in t ==> a.0 != k;
    }
  }

  /** Past the fills nothing writes a field that was added as optional. */
  lemma FilledLast(mn: Meaning, from: Schema, to: Schema, plan: MigrationPlan, p: Program, e: Fields, read: Fields,
                   n: string)
    requires Arriving(mn, from, to, plan, p, e) && KindAt(from, to, plan, n) == Some(AddedOptional)
    ensures At(Rewritten(mn, p, e, read).entry, n) == At(Fill(mn, p.assignOptional, Scratch(read, false)).entry, n)
  {
    AssignedAsDeclared(from, to, plan, p, n);
    ConsumedAsDeclared(from, to, plan, p, n);
    AssignAt(mn, p.assignRequired, Fill(mn, p.assignOptional, Scratch(read, false)), n);
    ConsumeAt(mn, e, p.consumers, BeforeConsuming(mn, p, read), n);
  }

  lemma FilledComputed(mn: Meaning, from: Schema, to: Schema, plan: MigrationPlan, p: Program, e: Fields, n: string)
    requires Arriving(mn, from, to, plan, p, e) && n !in Names(from.fields) && Has(p.assignOptional, n)
    ensures var filled := Fill(mn, p.assignOptional, Scratch(Decode(mn.types, to.fields, e).value, false)).entry;
            && At(filled, n).Some?
            && Computed(mn, from, to, plan, e, n, Get(p.assignOptional, n).value, At(filled, n).value)
  {
    var start := Scratch(Decode(mn.types, to.fields, e).value, false);
    OldReads(mn, from, to, plan, p, e, n);
    var i := FilledIs(mn, p.assignOptional, start, n);
    FillsStillOld(mn, from, to, plan, p, e, p.assignOptional[..i]);
  }

  lemma FilledArrives(mn: Meaning, from: Schema, to: Schema, plan: MigrationPlan, p: Program, e: Fields, n: string)
    requires Arriving(mn, from, to, plan, p, e) && KindAt(from, to, plan, n) == Some(AddedOptional)
    ensures Arrives(mn, from, to, plan, e, n, At(Rewritten(mn, p, e, Decode(mn.types, to.fields, e).value).entry, n))
  {
    var read := Decode(mn.types, to.fields, e).value;
    FilledAsDeclared(from, to, plan, p, n);
    FilledLast(mn, from, to, plan, p, e, read, n);
    AddedIsNew(from, to, plan, n);
    if Has(plan.init, n) {
      FilledComputed(mn, from, to, plan, p, e, n);
    } else {
      OldReads(mn, from, to, plan, p, e, n);
      FillAt(mn, p.assignOptional, Scratch(read, false), n);
    }
  }

  lemma AddedIsNew(from: Schema, to: Schema, plan: MigrationPlan, n: string)
    requires KindAt(from, to, plan, n) == Some(AddedOptional)
    ensures n !in Names(from.fields)
  {}

  lemma ConsumedArrives(mn: Meaning, from: Schema, to: Schema, plan: MigrationPlan, p: Program, e: Fields, n: string)
    requires Arriving(mn, from, to, plan, p, e) && BecomesConsumed(KindAt(from, to, plan, n))
    ensures Arrives(mn, from, to, plan, e, n, At(Rewritten(mn, p, e, Decode(mn.types, to.fields, e).value).entry, n))
  {
    var read, kind := Decode(mn.types, to.fields, e).value, KindAt(from, to, plan, n).value;
    ConsumedAsDeclared(from, to, plan, p, n);
    RewrittenIs(mn, from, to, p, e, read, n);
    OldReads(mn, from, to, plan, p, e, n);
    ConformsMeans(mn.types, from.fields, e);
    ConsumerConveys(mn, from, to, plan, n, kind);
    KindsApart(from, plan, FieldIn(to.fields, n).value);
  }

  lemma ConsumerConveys(mn: Meaning, from: Schema, to: Schema, plan: MigrationPlan, n: string, kind: ChangeKind)
    requires KindAt(from, to, plan, n) == Some(kind) && (kind.Renamed? || kind.Retyped?)
    requires DeclaredConsumer(from, to, plan, n, kind).Accepted?
    ensures var c := DeclaredConsumer(from, to, plan, n, kind).value;
            && c.source == (if kind.Renamed? then kind.from else n)
            && c.targetOptional == FieldIn(to.fields, n).value.optional
            && forall v :: Converted(mn, c, v) == Conveyed(mn, from, to, plan, c.source, n, v)
  {}

  lemma KeptArrives(mn: Meaning, from: Schema, to: Schema, plan: MigrationPlan, p: Program, e: Fields, n: string)
    requires Arriving(mn, from, to, plan, p, e)
    requires !BecomesConsumed(KindAt(from, to, plan, n)) && !BecomesAssigned(KindAt(from, to, plan, n))
    requires KindAt(from, to, plan, n) != Some(AddedOptional)
    ensures Arrives(mn, from, to, plan, e, n, At(Rewritten(mn, p, e, Decode(mn.types, to.fields, e).value).entry, n))
  {
    OldReads(mn, from, to, plan, p, e, n);
    FilledAsDeclared(from, to, plan, p, n);
    AssignedAsDeclared(from, to, plan, p, n);
    ConsumedAsDeclared(from, to, plan, p, n);
    RewrittenIs(mn, from, to, p, e, Decode(mn.types, to.fields, e).value, n);
  }

  lemma RewrittenArrives(mn: Meaning, from: Schema, to: Schema, plan: MigrationPlan, p: Program, e: Fields, n: string)
    requires Arriving(mn, from, to, plan, p, e)
    ensures Arrives(mn, from, to, plan, e, n, At(Rewritten(mn, p, e, Decode(mn.types, to.fields, e).value).entry, n))
  {
    if BecomesConsumed(KindAt(from, to, plan, n)) {
      ConsumedArrives(mn, from, to, plan, p, e, n);
    } else if BecomesAssigned(KindAt(from, to, plan, n)) {
      AssignedArrives(mn, from, to, plan, p, e, n);
    } else if KindAt(from, to, plan, n) == Some(AddedOptional) {
      FilledArrives(mn, from, to, plan, p, e, n);
    } else {
      KeptArrives(mn, from, to, plan, p, e, n);
    }
  }

  /** The visit of `e` left an entry that reads as the new shape, with the declared value in
      field `n`. */
  ghost predicate Moved(mn: Meaning, from: Schema, to: Schema, plan: MigrationPlan, e: Fields, n: string,
                        after: Fields) {
    var read := Decode(mn.types, to.fields, after);
    read.Some? && Arrives(mn, from, to, plan, e, n, At(read.value, n))
  }

  lemma EmittedMoves(mn: Meaning, from: Schema, to: Schema, plan: MigrationPlan, p: Program, e: Fields, n: string)
    requires Arriving(mn, from, to, plan, p, e)
    ensures !UpStruct(mn, from, to, p, e).1.Skipped?
    ensures Moved(mn, from, to, plan, e, n, UpStruct(mn, from, to, p, e).0)
  {
    var read := Decode(mn.types, to.fields, e).value;
    OldEntryShadowReads(mn.types, from, to, p, e);
    RewrittenArrives(mn, from, to, plan, p, e, n);
    RewrittenIs(mn, from, to, p, e, read, n);
    RewrittenConforms(mn, from, to, p, e);
    if !HasWork(p) {
      assert Rewritten(mn, p, e, read).entry == read;
    }
  }

  /** The comment about dropped keys is no part of what the program does. */
  lemma CarriedIsComment(mn: Meaning, from: Schema, to: Schema, p: Program, q: Program)
    requires q == p.(carried := q.carried)
    ensures Shaped(from, to, p) <==> Shaped(from, to, q)
    ensures WellTyped(mn, from, to, p) <==> WellTyped(mn, from, to, q)
    ensures forall e :: UpStruct(mn, from, to, p, e) == UpStruct(mn, from, to, q, e)
  {}

  /** One visit moves an old-shaped entry the new code can read all the way: it has the declared
      value in every field, whatever the expressions compute. */
  lemma OneVisitMoves(mn: Meaning, from: Schema, to: Schema, plan: MigrationPlan, e: Fields, n: string)
    requires Sensible(mn.types) && DistinctNames(from.fields) && DistinctNames(to.fields)
    requires DiffOf(from, to, plan).Accepted? && GenerateOf(from, to, DiffOf(from, to, plan).value, plan).Accepted?
    requires WellTyped(mn, from, to, GenerateOf(from, to, DiffOf(from, to, plan).value, plan).value)
    requires Conforms(mn.types, from.fields, e) && Readable(mn.types, to.fields, e)
    ensures var p := GenerateOf(from, to, DiffOf(from, to, plan).value, plan).value;
            !UpStruct(mn, from, to, p, e).1.Skipped? && Moved(mn, from, to, plan, e, n, UpStruct(mn, from, to, p, e).0)
  {
    var p := EmittedAll(from, to, plan, AllFindings(from, to, plan)).value;
    var q := GenerateOf(from, to, DiffOf(from, to, plan).value, plan).value;
    GeneratedIsShaped(from, to, plan);
    CarriedIsComment(mn, from, to, p, q);
    EmittedMoves(mn, from, to, plan, p, e, n);
  }

  // ----- Over a whole run -----

  /** The generator's output, driven to completion by any sequence of operator actions, takes
      every old-shaped entry in the log that the new code can read to the declared new shape, if
      the migration is idempotent. */
  lemma GeneratedRunMovesEveryEntry(mn: Meaning, from: Schema, to: Schema, plan: MigrationPlan,
                                    s0: Snapshot, m: Migration, actions: seq<Action>, key: Val, e: Fields, n: string)
    requires Sensible(mn.types) && DistinctNames(from.fields) && DistinctNames(to.fields)
    requires DiffOf(from, to, plan).Accepted? && GenerateOf(from, to, DiffOf(from, to, plan).value, plan).Accepted?
    requires WellTyped(mn, from, to, GenerateOf(from, to, DiffOf(from, to, plan).value, plan).value)
    requires m.up == UpVisitor(mn, from, to, GenerateOf(from, to, DiffOf(from, to, plan).value, plan).value)
    requires Idempotent(m.up)
    requires ReadyFor(s0, m) && (forall a :: a in actions ==> Drives(m, a)) && Run(s0, actions).version == Some(m.to)
    requires Covered(s0.logs, m.from) && key in Visible(s0.logs, m.from)
    requires Lookup(s0.entries, key) == Some(Record(e))
    requires Conforms(mn.types, from.fields, e) && Readable(mn.types, to.fields, e)
    ensures var after := Lookup(Run(s0, actions).entries, key);
            after.Some? && after.value.Record? && Moved(mn, from, to, plan, e, n, after.value.fields)
  {
    OneVisitMoves(mn, from, to, plan, e, n);
    RunVisits(mn, from, to, GenerateOf(from, to, DiffOf(from, to, plan).value, plan).value, s0, m, actions, key, e);
  }

  lemma RunVisits(mn: Meaning, from: Schema, to: Schema, p: Program, s0: Snapshot, m: Migration, actions: seq<Action>,
                  key: Val, e: Fields)
    requires m.up == UpVisitor(mn, from, to, p) && Idempotent(m.up)
    requires ReadyFor(s0, m) && (forall a :: a in actions ==> Drives(m, a)) && Run(s0, actions).version == Some(m.to)
    requires Covered(s0.logs, m.from) && key in Visible(s0.logs, m.from) && Lookup(s0.entries, key) == Some(Record(e))
    ensures Lookup(Run(s0, actions).entries, key) == Some(Record(UpStruct(mn, from, to, p, e).0))
  {
    BatchedEqualsOneShot(s0, m, actions);
    assert m.up(key, Some(Record(e))) == UpVisit(mn, from, to, p, Some(Record(e)));
  }

  lemma AssignedTraps(from: Schema, to: Schema, plan: MigrationPlan, n: string)
    requires BecomesAssigned(KindAt(from, to, plan, n))
    ensures exists f :: f in to.fields && Traps(from, f)
  {
    assert Traps(from, FieldIn(to.fields, n).value);
  }

  lemma NothingAssigned(from: Schema, to: Schema, plan: MigrationPlan, p: Program)
    requires DistinctNames(to.fields) && Additive(from, to) && Shaped(from, to, p)
             && EmittedAll(from, to, plan, AllFindings(from, to, plan)) == Accepted(p)
    ensures p.assignRequired == [] && forall c :: c in p.consumers ==> c.targetOptional
  {
    if p.assignRequired != [] {
      var a := p.assignRequired[0];
      assert Has(p.assignRequired, a.0);
      AssignedIsDeclared(from, to, plan, p, a.0);
      AssignedTraps(from, to, plan, a.0);
    }
    forall c | c in p.consumers ensures c.targetOptional {
      var f := ConsumerIs(from, to, plan, p, c);
      FieldInIsTheField(to.fields, f);
      assert ShapedConsumer(from, to, c) && !Traps(from, f);
    }
  }

  /** An additive migration is idempotent whatever it computes, and its runs move every old
      entry. */
  lemma AdditiveRunMovesEveryEntry(mn: Meaning, from: Schema, to: Schema, plan: MigrationPlan,
                                   s0: Snapshot, m: Migration, actions: seq<Action>, key: Val, e: Fields, n: string)
    requires Sensible(mn.types) && DistinctNames(from.fields) && DistinctNames(to.fields) && Additive(from, to)
    requires DiffOf(from, to, plan).Accepted? && GenerateOf(from, to, DiffOf(from, to, plan).value, plan).Accepted?
    requires WellTyped(mn, from, to, GenerateOf(from, to, DiffOf(from, to, plan).value, plan).value)
    requires m.up == UpVisitor(mn, from, to, GenerateOf(from, to, DiffOf(from, to, plan).value, plan).value)
    requires ReadyFor(s0, m) && (forall a :: a in actions ==> Drives(m, a)) && Run(s0, actions).version == Some(m.to)
    requires Covered(s0.logs, m.from) && key in Visible(s0.logs, m.from)
    requires Lookup(s0.entries, key) == Some(Record(e)) && Conforms(mn.types, from.fields, e)
    ensures var after := Lookup(Run(s0, actions).entries, key);
            after.Some? && after.value.Record? && Moved(mn, from, to, plan, e, n, after.value.fields)
  {
    AdditiveIsIdempotent(mn, from, to, plan);
    OldEntriesReadableIff(mn.types, from, to);
    forall f | f in to.fields ensures !TrapsIn(mn.types, from, f) {
      TrapsBySchema(mn.types, from, f);
    }
    GeneratedRunMovesEveryEntry(mn, from, to, plan, s0, m, actions, key, e, n);
  }

  lemma AdditiveIsIdempotent(mn: Meaning, from: Schema, to: Schema, plan: MigrationPlan)
    requires Sensible(mn.types) && DistinctNames(to.fields) && Additive(from, to) && DiffOf(from, to, plan).Accepted?
    requires GenerateOf(from, to, DiffOf(from, to, plan).value, plan).Accepted?
    requires WellTyped(mn, from, to, GenerateOf(from, to, DiffOf(from, to, plan).value, plan).value)
    ensures Idempotent(UpVisitor(mn, from, to, GenerateOf(from, to, DiffOf(from, to, plan).value, plan).value))
  {
    var p := EmittedAll(from, to, plan, AllFindings(from, to, plan)).value;
    var q := GenerateOf(from, to, DiffOf(from, to, plan).value, plan).value;
    GeneratedIsShaped(from, to, plan);
    CarriedIsComment(mn, from, to, p, q);
    NothingAssigned(from, to, plan, p);
    RepeatableIsIdempotent(mn, from, to, q, (n, expr) => {});
  }
}
