/** The migration generator (`codegen.rs`): what it emits for a diff and a plan, and exactly
    when it can. */
module Codegen {
  import opened Host
  import opened Schemas
  import opened Diffs
  import opened Gate

  /** An old key the migration consumes, and where its value goes. `None` moves it unchanged. */
  datatype Consumer = Consumer(source: string, target: string, targetOptional: bool, conversion: Option<string>)

  /** The emitted migration, before it is spelled out as text. */
  datatype Program = Program(
    consumers: seq<Consumer>, assignOptional: Table, assignRequired: Table, carried: seq<string>)

  const NO_PROGRAM := Program([], [], [], [])

  function ConsumerForRename(from: Schema, to: Schema, source: string, target: string,
                             plan: MigrationPlan): Checked<Consumer> {
    if FieldIn(from.fields, source).None? then Rejected(Undecidable(source))
    else if FieldIn(to.fields, target).None? then Rejected(Undecidable(target))
    else
      var a, b := FieldIn(from.fields, source).value, FieldIn(to.fields, target).value;
      if a.base == b.base then Accepted(Consumer(source, target, b.optional, None))
      else if HasConversion(plan, target)
      then Accepted(Consumer(source, target, b.optional, Get(plan.converted, target)))
      else Rejected(Undecidable(source))
  }

  function ConsumerForRetype(from: Schema, to: Schema, name: string, plan: MigrationPlan): Checked<Consumer> {
    if FieldIn(from.fields, name).None? || FieldIn(to.fields, name).None? then Rejected(Undecidable(name))
    else if HasConversion(plan, name)
    then Accepted(Consumer(name, name, FieldIn(to.fields, name).value.optional, Get(plan.converted, name)))
    else Rejected(Undecidable(name))
  }

  /** What one finding adds to the program. */
  function Emitted(from: Schema, to: Schema, plan: MigrationPlan, x: Finding, p: Program): Checked<Program> {
    match x.kind
    case AddedOptional =>
      if Has(plan.init, x.field)
      then Accepted(p.(assignOptional := p.assignOptional + [(x.field, Get(plan.init, x.field).value)]))
      else Accepted(p)
    case AddedRequired => RequiredAssigned(plan, x, p)
    case BecameRequired => RequiredAssigned(plan, x, p)
    case Renamed(source, target) => Consumed(ConsumerForRename(from, to, source, target, plan), p)
    case Retyped(_, _) => Consumed(ConsumerForRetype(from, to, x.field, plan), p)
    case Removed => Accepted(p.(carried := p.carried + [x.field]))
    case _ => Accepted(p)
  }

  function RequiredAssigned(plan: MigrationPlan, x: Finding, p: Program): Checked<Program> {
    if Has(plan.init, x.field)
    then Accepted(p.(assignRequired := p.assignRequired + [(x.field, Get(plan.init, x.field).value)]))
    else Rejected(Undecidable(x.field))
  }

  function Consumed(c: Checked<Consumer>, p: Program): Checked<Program> {
    match c
    case Accepted(consumer) => Accepted(p.(consumers := p.consumers + [consumer]))
    case Rejected(e) => Rejected(e)
  }

  function EmittedAll(from: Schema, to: Schema, plan: MigrationPlan, findings: seq<Finding>): Checked<Program> {
    if findings == [] then Accepted(NO_PROGRAM) else
      match EmittedAll(from, to, plan, findings[..|findings| - 1])
      case Rejected(e) => Rejected(e)
      case Accepted(p) => Emitted(from, to, plan, findings[|findings| - 1], p)
  }

  function Uncarried(carried: seq<string>, renamed: Table): seq<string> {
    if carried == [] then [] else
      var front := Uncarried(carried[..|carried| - 1], renamed);
      if Has(renamed, carried[|carried| - 1]) then front else front + [carried[|carried| - 1]]
  }

  function GenerateOf(from: Schema, to: Schema, d: Diff, plan: MigrationPlan): Checked<Program> {
    if d.verdict.Refused? then Rejected(Undecidable(""))
    else match EmittedAll(from, to, plan, d.findings)
      case Rejected(e) => Rejected(e)
      case Accepted(p) => Accepted(p.(carried := Uncarried(p.carried, plan.renamed)))
  }

  lemma {:induction false} RejectionStops(from: Schema, to: Schema, plan: MigrationPlan, findings: seq<Finding>, n: nat)
    requires n <= |findings| && EmittedAll(from, to, plan, findings[..n]).Rejected?
    ensures EmittedAll(from, to, plan, findings) == EmittedAll(from, to, plan, findings[..n])
  {
    if n == |findings| {
      assert findings[..n] == findings;
    } else {
      assert findings[..|findings| - 1][..n] == findings[..n];
      RejectionStops(from, to, plan, findings[..|findings| - 1], n);
    }
  }

  method Generate(from: Schema, to: Schema, d: Diff, plan: MigrationPlan) returns (r: Checked<Program>)
    ensures r == GenerateOf(from, to, d, plan)
  {
    if d.verdict.Refused? {
      return Rejected(Undecidable(""));
    }
    var p := NO_PROGRAM;
    for i := 0 to |d.findings|
      invariant EmittedAll(from, to, plan, d.findings[..i]) == Accepted(p)
    {
      assert d.findings[..i + 1][..i] == d.findings[..i];
      var next := EmitOne(from, to, plan, d.findings[i], p);
      if next.Rejected? {
        RejectionStops(from, to, plan, d.findings, i + 1);
        return Rejected(next.error);
      }
      p := next.value;
    }
    assert d.findings[..|d.findings|] == d.findings;
    var kept: seq<string> := [];
    for i := 0 to |p.carried|
      invariant kept == Uncarried(p.carried[..i], plan.renamed)
    {
      assert p.carried[..i + 1][..i] == p.carried[..i];
      if !Has(plan.renamed, p.carried[i]) {
        kept := kept + [p.carried[i]];
      }
    }
    assert p.carried[..|p.carried|] == p.carried;
    r := Accepted(p.(carried := kept));
  }

  method EmitOne(from: Schema, to: Schema, plan: MigrationPlan, x: Finding, p: Program) returns (r: Checked<Program>)
    ensures r == Emitted(from, to, plan, x, p)
  {
    match x.kind {
      case AddedOptional =>
        var expr := Get(plan.init, x.field);
        r := if expr.Some?
             then Accepted(p.(assignOptional := p.assignOptional + [(x.field, expr.value)])) else Accepted(p);
      case AddedRequired =>
        r := RequiredAssigned(plan, x, p);
      case BecameRequired =>
        r := RequiredAssigned(plan, x, p);
      case Renamed(source, target) =>
        r := Consumed(ConsumerForRename(from, to, source, target, plan), p);
      case Retyped(_, _) =>
        r := Consumed(ConsumerForRetype(from, to, x.field, plan), p);
      case Removed =>
        r := Accepted(p.(carried := p.carried + [x.field]));
      case _ =>
        r := Accepted(p);
    }
  }

  // ----- When it can -----

  /** A rename whose ends have different base types has a conversion that says something. */
  predicate RenameConverts(from: Schema, to: Schema, plan: MigrationPlan, x: Finding) {
    x.kind.Renamed? ==>
      var a, b := FieldIn(from.fields, x.kind.from), FieldIn(to.fields, x.kind.to);
      a.Some? && b.Some? ==> a.value.base == b.value.base || HasConversion(plan, x.kind.to)
  }

  lemma {:induction false} EmittedAllIff(from: Schema, to: Schema, plan: MigrationPlan, findings: seq<Finding>)
    ensures EmittedAll(from, to, plan, findings).Accepted?
       <==> forall x :: x in findings ==> Emitted(from, to, plan, x, NO_PROGRAM).Accepted?
  {
    if findings != [] {
      var front, last := findings[..|findings| - 1], findings[|findings| - 1];
      EmittedAllIff(from, to, plan, front);
      forall x ensures x in findings <==> x in front || x == last { FrontOrLast(findings, x); }
      var p := EmittedAll(from, to, plan, front);
      if p.Accepted? {
        assert Emitted(from, to, plan, last, p.value).Accepted?
          <==> Emitted(from, to, plan, last, NO_PROGRAM).Accepted?;
      }
    }
  }

  lemma UndeniedFieldIsEmitted(from: Schema, to: Schema, plan: MigrationPlan, f: Field, x: Finding)
    requires f in to.fields && FindingFor(from, plan, f) == Some(x) && !x.severity.Denied?
    ensures Emitted(from, to, plan, x, NO_PROGRAM).Accepted? <==> RenameConverts(from, to, plan, x)
  {
    assert f.name in Names(to.fields) && FieldIn(to.fields, f.name).Some?;
    match x.kind
    case Renamed(source, target) =>
      assert RenameSource(from, plan, f.name).Some? && FieldIn(from.fields, source).Some? && target == f.name;
    case Retyped(_, _) =>
      assert FieldIn(from.fields, f.name).Some? && HasConversion(plan, f.name);
    case _ =>
  }

  /** Nothing is emitted for a removed field or for the order but a comment. */
  lemma RestIsEmitted(from: Schema, to: Schema, plan: MigrationPlan, x: Finding)
    requires x.kind.Removed? || x.kind.Reordered?
    ensures Emitted(from, to, plan, x, NO_PROGRAM).Accepted? && RenameConverts(from, to, plan, x)
  {}

  lemma RestIs(from: Schema, to: Schema, plan: MigrationPlan, taken: seq<string>, x: Finding)
    requires LostIn(to, plan, from.fields, taken, x) || x in Reordering(from, to)
    ensures x.kind.Removed? || x.kind.Reordered?
  {}

  lemma UndeniedIsEmitted(from: Schema, to: Schema, plan: MigrationPlan, x: Finding)
    requires x in AllFindings(from, to, plan) && !x.severity.Denied?
    ensures Emitted(from, to, plan, x, NO_PROGRAM).Accepted? <==> RenameConverts(from, to, plan, x)
  {
    FindingsAre(from, to, plan, x);
    if FoundIn(from, plan, to.fields, x) {
      var f :| f in to.fields && FindingFor(from, plan, f) == Some(x);
      UndeniedFieldIsEmitted(from, to, plan, f, x);
    } else {
      RestIs(from, to, plan, WalkNew(from, plan, to.fields).declared.removed, x);
      RestIsEmitted(from, to, plan, x);
    }
  }

  /** On the diff of the same plan, generation succeeds exactly when the diff is not refused and
      every rename that changes its base type has a non-blank conversion — which the diff, for
      renames, does not ask for. */
  lemma GenerateSucceedsIff(from: Schema, to: Schema, plan: MigrationPlan)
    requires DiffOf(from, to, plan).Accepted?
    ensures var d := DiffOf(from, to, plan).value;
            GenerateOf(from, to, d, plan).Accepted?
            <==> !d.verdict.Refused? && forall x :: x in d.findings ==> RenameConverts(from, to, plan, x)
  {
    var d := DiffOf(from, to, plan).value;
    EmittedAllIff(from, to, plan, d.findings);
    if !d.verdict.Refused? {
      forall x | x in d.findings
        ensures Emitted(from, to, plan, x, NO_PROGRAM).Accepted? <==> RenameConverts(from, to, plan, x) {
        UndeniedIsEmitted(from, to, plan, x);
      }
    }
  }
}
