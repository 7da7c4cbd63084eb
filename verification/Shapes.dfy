/** Every program the generator emits for a diff of the same plan has the shape its meaning
    relies on. */
module Shapes {
  import opened Host
  import opened Schemas
  import opened Diffs
  import opened Gate
  import opened Accounting
  import opened Codegen
  import opened Generated

  ghost predicate OptionalFrom(findings: seq<Finding>, plan: MigrationPlan, a: (string, string)) {
    exists x :: x in findings && x.kind.AddedOptional? && x.field == a.0 && Get(plan.init, a.0) == Some(a.1)
  }

  ghost predicate RequiredFrom(findings: seq<Finding>, plan: MigrationPlan, a: (string, string)) {
    exists x :: x in findings && (x.kind.AddedRequired? || x.kind.BecameRequired?) && x.field == a.0
      && Get(plan.init, a.0) == Some(a.1)
  }

  predicate Consumes(from: Schema, to: Schema, plan: MigrationPlan, x: Finding, c: Consumer) {
    match x.kind
    case Renamed(source, target) => ConsumerForRename(from, to, source, target, plan) == Accepted(c)
    case Retyped(_, _) => ConsumerForRetype(from, to, x.field, plan) == Accepted(c)
    case _ => false
  }

  ghost predicate ConsumerFrom(from: Schema, to: Schema, plan: MigrationPlan, findings: seq<Finding>, c: Consumer) {
    exists x :: x in findings && Consumes(from, to, plan, x, c)
  }

  lemma {:induction false} EmittedOptional(from: Schema, to: Schema, plan: MigrationPlan, findings: seq<Finding>,
                                           a: (string, string))
    requires EmittedAll(from, to, plan, findings).Accepted?
    ensures a in EmittedAll(from, to, plan, findings).value.assignOptional <==> OptionalFrom(findings, plan, a)
  {
    if findings != [] {
      var front, last := findings[..|findings| - 1], findings[|findings| - 1];
      EmittedOptional(from, to, plan, front, a);
      forall x ensures x in findings <==> x in front || x == last { FrontOrLast(findings, x); }
      OneOptional(from, to, plan, last, EmittedAll(from, to, plan, front).value, a);
      assert OptionalFrom(findings, plan, a) <==> OptionalFrom(front, plan, a) || OptionalFrom([last], plan, a);
    }
  }

  lemma OneOptional(from: Schema, to: Schema, plan: MigrationPlan, x: Finding, p: Program, a: (string, string))
    requires Emitted(from, to, plan, x, p).Accepted?
    ensures a in Emitted(from, to, plan, x, p).value.assignOptional
       <==> a in p.assignOptional || OptionalFrom([x], plan, a)
  {
    assert forall y :: y in [x] <==> y == x;
  }

  lemma {:induction false} EmittedRequired(from: Schema, to: Schema, plan: MigrationPlan, findings: seq<Finding>,
                                           a: (string, string))
    requires EmittedAll(from, to, plan, findings).Accepted?
    ensures a in EmittedAll(from, to, plan, findings).value.assignRequired <==> RequiredFrom(findings, plan, a)
  {
    if findings != [] {
      var front, last := findings[..|findings| - 1], findings[|findings| - 1];
      EmittedRequired(from, to, plan, front, a);
      forall x ensures x in findings <==> x in front || x == last { FrontOrLast(findings, x); }
      OneRequired(from, to, plan, last, EmittedAll(from, to, plan, front).value, a);
      assert RequiredFrom(findings, plan, a) <==> RequiredFrom(front, plan, a) || RequiredFrom([last], plan, a);
    }
  }

  lemma OneRequired(from: Schema, to: Schema, plan: MigrationPlan, x: Finding, p: Program, a: (string, string))
    requires Emitted(from, to, plan, x, p).Accepted?
    ensures a in Emitted(from, to, plan, x, p).value.assignRequired
       <==> a in p.assignRequired || RequiredFrom([x], plan, a)
  {
    assert forall y :: y in [x] <==> y == x;
  }

  lemma {:induction false} EmittedConsumers(from: Schema, to: Schema, plan: MigrationPlan, findings: seq<Finding>,
                                            c: Consumer)
    requires EmittedAll(from, to, plan, findings).Accepted?
    ensures c in EmittedAll(from, to, plan, findings).value.consumers <==> ConsumerFrom(from, to, plan, findings, c)
  {
    if findings != [] {
      var front, last := findings[..|findings| - 1], findings[|findings| - 1];
      EmittedConsumers(from, to, plan, front, c);
      forall x ensures x in findings <==> x in front || x == last { FrontOrLast(findings, x); }
      OneConsumer(from, to, plan, last, EmittedAll(from, to, plan, front).value, c);
      assert ConsumerFrom(from, to, plan, findings, c)
        <==> ConsumerFrom(from, to, plan, front, c) || Consumes(from, to, plan, last, c);
    }
  }

  lemma OneConsumer(from: Schema, to: Schema, plan: MigrationPlan, x: Finding, p: Program, c: Consumer)
    requires Emitted(from, to, plan, x, p).Accepted?
    ensures c in Emitted(from, to, plan, x, p).value.consumers <==> c in p.consumers || Consumes(from, to, plan, x, c)
  {}

  // ----- From the schemas -----

  /** The field of the new shape an assignment or consumer is about, and what happened to it. */
  lemma SubjectOf(from: Schema, to: Schema, plan: MigrationPlan, x: Finding) returns (f: Field)
    requires DistinctNames(to.fields) && x in AllFindings(from, to, plan)
    requires x.kind.AddedOptional? || x.kind.AddedRequired? || x.kind.BecameRequired? || x.kind.Renamed?
             || x.kind.Retyped?
    ensures f in to.fields && f.name == x.field && FieldIn(to.fields, x.field) == Some(f)
    ensures KindOf(from, plan, f) == Some(x.kind)
  {
    FindingsAre(from, to, plan, x);
    f :| f in to.fields && FindingFor(from, plan, f) == Some(x);
    FieldInIsTheField(to.fields, f);
  }

  lemma ConsumerSubject(from: Schema, to: Schema, plan: MigrationPlan, x: Finding, c: Consumer) returns (f: Field)
    requires DistinctNames(to.fields) && x in AllFindings(from, to, plan) && Consumes(from, to, plan, x, c)
    ensures c.target == x.field && FieldIn(to.fields, x.field) == Some(f) && KindOf(from, plan, f) == Some(x.kind)
    ensures ShapedConsumer(from, to, c)
  {
    f := SubjectOf(from, to, plan, x);
    assert f.name in Names(to.fields);
    if x.kind.Renamed? {
      assert RenameSource(from, plan, f.name).Some?;
    }
  }

  /** One field, one assignment or consumer. */
  lemma SameSubject(from: Schema, to: Schema, plan: MigrationPlan, x: Finding, y: Finding)
    requires DistinctNames(to.fields) && x in AllFindings(from, to, plan) && y in AllFindings(from, to, plan)
    requires x.kind.AddedOptional? || x.kind.AddedRequired? || x.kind.BecameRequired? || x.kind.Renamed?
             || x.kind.Retyped?
    requires y.kind.AddedOptional? || y.kind.AddedRequired? || y.kind.BecameRequired? || y.kind.Renamed?
             || y.kind.Retyped?
    requires x.field == y.field
    ensures x.kind == y.kind
  {
    var f := SubjectOf(from, to, plan, x);
    var g := SubjectOf(from, to, plan, y);
  }

  lemma FilledFromAddition(from: Schema, to: Schema, plan: MigrationPlan, p: Program, a: (string, string))
    requires DistinctNames(to.fields) && EmittedAll(from, to, plan, AllFindings(from, to, plan)) == Accepted(p)
    requires a in p.assignOptional
    ensures a.0 in Names(to.fields) && FieldIn(to.fields, a.0).value.optional
    ensures a.0 !in Names(from.fields) && RenameSource(from, plan, a.0).None?
    ensures Get(plan.init, a.0) == Some(a.1)
  {
    var all := AllFindings(from, to, plan);
    EmittedOptional(from, to, plan, all, a);
    var x :| x in all && x.kind.AddedOptional? && x.field == a.0 && Get(plan.init, a.0) == Some(a.1);
    var f := SubjectOf(from, to, plan, x);
  }

  lemma AssignedFromRequirement(from: Schema, to: Schema, plan: MigrationPlan, p: Program, a: (string, string))
    requires DistinctNames(to.fields) && EmittedAll(from, to, plan, AllFindings(from, to, plan)) == Accepted(p)
    requires a in p.assignRequired
    ensures a.0 in Names(to.fields) && !FieldIn(to.fields, a.0).value.optional && Get(plan.init, a.0) == Some(a.1)
    ensures a.0 in Names(from.fields) ==> BaseIn(from.fields, a.0) == BaseIn(to.fields, a.0)
  {
    var all := AllFindings(from, to, plan);
    EmittedRequired(from, to, plan, all, a);
    var x :| x in all && (x.kind.AddedRequired? || x.kind.BecameRequired?) && x.field == a.0
        && Get(plan.init, a.0) == Some(a.1);
    var f := SubjectOf(from, to, plan, x);
  }

  // ----- No field is written twice -----

  /** The finding has an unconditional assignment or a consumer emitted for its field. */
  predicate Writes(x: Finding) {
    x.kind.AddedRequired? || x.kind.BecameRequired? || x.kind.Retyped? || (x.kind.Renamed? && x.kind.to == x.field)
  }

  ghost predicate WrittenOnce(findings: seq<Finding>) {
    && (forall i, j :: 0 <= i < j < |findings| && Writes(findings[i]) && Writes(findings[j]) ==>
          findings[i].field != findings[j].field)
    && (forall x :: x in findings && x.kind.Renamed? ==> Writes(x))
  }

  lemma {:induction false} OldWritesNone(to: Schema, plan: MigrationPlan, fields: seq<Field>, start: Survey)
    requires WrittenOnce(start.findings)
    ensures WrittenOnce(WalkOld(to, plan, fields, start).findings)
  {
    if fields != [] {
      OldWritesNone(to, plan, fields[..|fields| - 1], start);
    }
  }

  lemma NewWritesOnce(from: Schema, to: Schema, plan: MigrationPlan)
    requires DistinctNames(to.fields)
    ensures WrittenOnce(WalkNew(from, plan, to.fields).findings)
  {
    NewSubjects(from, plan, to.fields);
    forall x | x in WalkNew(from, plan, to.fields).findings && x.kind.Renamed? ensures Writes(x) {
      NewFindings(from, plan, to.fields, x);
    }
  }

  lemma FindingsWriteOnce(from: Schema, to: Schema, plan: MigrationPlan)
    requires DistinctNames(to.fields)
    ensures WrittenOnce(AllFindings(from, to, plan))
  {
    NewWritesOnce(from, to, plan);
    OldWritesNone(to, plan, from.fields, WalkNew(from, plan, to.fields));
  }

  ghost predicate DistinctTargets(cs: seq<Consumer>) {
    forall i, j :: 0 <= i < j < |cs| ==> cs[i].target != cs[j].target
  }

  lemma WrittenOnceFront(findings: seq<Finding>)
    requires findings != [] && WrittenOnce(findings)
    ensures WrittenOnce(findings[..|findings| - 1])
    ensures forall x :: x in findings[..|findings| - 1] && Writes(x) && Writes(findings[|findings| - 1]) ==>
              x.field != findings[|findings| - 1].field
  {
    var front := findings[..|findings| - 1];
    forall x | x in front && Writes(x) && Writes(findings[|findings| - 1])
      ensures x.field != findings[|findings| - 1].field {
      var i :| 0 <= i < |front| && front[i] == x;
      assert findings[i] == x;
    }
  }

  lemma {:induction false} AssignedDistinct(from: Schema, to: Schema, plan: MigrationPlan, findings: seq<Finding>)
    requires EmittedAll(from, to, plan, findings).Accepted? && WrittenOnce(findings)
    ensures DistinctKeys(EmittedAll(from, to, plan, findings).value.assignRequired)
  {
    if findings != [] {
      var front, last := findings[..|findings| - 1], findings[|findings| - 1];
      WrittenOnceFront(findings);
      AssignedDistinct(from, to, plan, front);
      var p := EmittedAll(from, to, plan, front).value;
      forall i | 0 <= i < |p.assignRequired| && Writes(last) ensures p.assignRequired[i].0 != last.field {
        EmittedRequired(from, to, plan, front, p.assignRequired[i]);
      }
    }
  }

  lemma ConsumesTarget(from: Schema, to: Schema, plan: MigrationPlan, x: Finding, c: Consumer)
    requires Consumes(from, to, plan, x, c) && (x.kind.Renamed? ==> Writes(x))
    ensures c.target == x.field && Writes(x)
  {}

  lemma {:induction false} TargetsDistinct(from: Schema, to: Schema, plan: MigrationPlan, findings: seq<Finding>)
    requires EmittedAll(from, to, plan, findings).Accepted? && WrittenOnce(findings)
    ensures DistinctTargets(EmittedAll(from, to, plan, findings).value.consumers)
  {
    if findings != [] {
      var front, last := findings[..|findings| - 1], findings[|findings| - 1];
      WrittenOnceFront(findings);
      TargetsDistinct(from, to, plan, front);
      var p := EmittedAll(from, to, plan, front).value;
      forall i, c | 0 <= i < |p.consumers| && Consumes(from, to, plan, last, c)
        ensures p.consumers[i].target != c.target {
        EmittedConsumers(from, to, plan, front, p.consumers[i]);
        var x :| x in front && Consumes(from, to, plan, x, p.consumers[i]);
        FrontOrLast(findings, x);
        FrontOrLast(findings, last);
        ConsumesTarget(from, to, plan, x, p.consumers[i]);
        ConsumesTarget(from, to, plan, last, c);
      }
    }
  }

  lemma GeneratedAssigns(from: Schema, to: Schema, plan: MigrationPlan, p: Program)
    requires DistinctNames(to.fields) && EmittedAll(from, to, plan, AllFindings(from, to, plan)) == Accepted(p)
    ensures ShapedAssigns(from, to, p)
  {
    FindingsWriteOnce(from, to, plan);
    AssignedDistinct(from, to, plan, AllFindings(from, to, plan));
    forall a | a in p.assignOptional
      ensures a.0 in Names(to.fields) && FieldIn(to.fields, a.0).value.optional && a.0 !in Names(from.fields)
      ensures Get(plan.init, a.0) == Some(a.1) {
      FilledFromAddition(from, to, plan, p, a);
    }
    forall a | a in p.assignRequired
      ensures a.0 in Names(to.fields) && !FieldIn(to.fields, a.0).value.optional && Get(plan.init, a.0) == Some(a.1)
      ensures a.0 in Names(from.fields) ==> BaseIn(from.fields, a.0) == BaseIn(to.fields, a.0) {
      AssignedFromRequirement(from, to, plan, p, a);
    }
  }

  lemma ConsumersUnique(from: Schema, to: Schema, plan: MigrationPlan, p: Program, c: Consumer, d: Consumer)
    requires DistinctNames(to.fields) && EmittedAll(from, to, plan, AllFindings(from, to, plan)) == Accepted(p)
    requires c in p.consumers && d in p.consumers && c.target == d.target
    ensures c == d
  {
    var all := AllFindings(from, to, plan);
    EmittedConsumers(from, to, plan, all, c);
    EmittedConsumers(from, to, plan, all, d);
    var x :| x in all && Consumes(from, to, plan, x, c);
    var y :| y in all && Consumes(from, to, plan, y, d);
    var f := ConsumerSubject(from, to, plan, x, c);
    var g := ConsumerSubject(from, to, plan, y, d);
    SameSubject(from, to, plan, x, y);
  }

  lemma ConsumersApart(from: Schema, to: Schema, plan: MigrationPlan, p: Program, c: Consumer, a: (string, string))
    requires DistinctNames(to.fields) && EmittedAll(from, to, plan, AllFindings(from, to, plan)) == Accepted(p)
    requires c in p.consumers && (a in p.assignOptional || a in p.assignRequired)
    ensures c.target != a.0
  {
    var all := AllFindings(from, to, plan);
    EmittedConsumers(from, to, plan, all, c);
    EmittedOptional(from, to, plan, all, a);
    EmittedRequired(from, to, plan, all, a);
    var x :| x in all && Consumes(from, to, plan, x, c);
    var f := ConsumerSubject(from, to, plan, x, c);
    var y :| y in all && (y.kind.AddedOptional? || y.kind.AddedRequired? || y.kind.BecameRequired?) && y.field == a.0;
    if c.target == a.0 {
      SameSubject(from, to, plan, x, y);
    }
  }

  lemma GeneratedIsShaped(from: Schema, to: Schema, plan: MigrationPlan)
    requires DistinctNames(to.fields) && DiffOf(from, to, plan).Accepted?
    requires GenerateOf(from, to, DiffOf(from, to, plan).value, plan).Accepted?
    ensures Shaped(from, to, GenerateOf(from, to, DiffOf(from, to, plan).value, plan).value)
  {
    var all := AllFindings(from, to, plan);
    var p := EmittedAll(from, to, plan, all).value;
    GeneratedAssigns(from, to, plan, p);
    forall c | c in p.consumers ensures ShapedConsumer(from, to, c) {
      EmittedConsumers(from, to, plan, all, c);
      var x :| x in all && Consumes(from, to, plan, x, c);
      var f := ConsumerSubject(from, to, plan, x, c);
    }
    forall c, d | c in p.consumers && d in p.consumers && c.target == d.target ensures c == d {
      ConsumersUnique(from, to, plan, p, c, d);
    }
    forall c, a | c in p.consumers && (a in p.assignOptional || a in p.assignRequired) ensures c.target != a.0 {
      ConsumersApart(from, to, plan, p, c, a);
    }
    var q := GenerateOf(from, to, DiffOf(from, to, plan).value, plan).value;
    assert q.consumers == p.consumers && q.assignOptional == p.assignOptional && q.assignRequired == p.assignRequired;
  }
}
