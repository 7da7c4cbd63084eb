/** The compatibility diff (`diff.rs`): every difference between two schema versions, how bad
    it is, and which declarations account for it. */
module Diffs {
  import opened Host
  import opened Schemas

  datatype Severity = Info | Warning | Denied

  datatype ChangeKind =
    | AddedOptional
    | AddedRequired
    | Removed
    | Renamed(from: string, to: string)
    | Retyped(before: string, after: string)
    | BecameOptional
    | BecameRequired
    | SpellingChanged
    | Reordered

  datatype Finding = Finding(field: string, kind: ChangeKind, severity: Severity)

  datatype Verdict = Safe | SafeWithLazyMigration | Refused

  datatype Diff = Diff(fromVersion: u32, toVersion: u32, findings: seq<Finding>, verdict: Verdict, planApplied: bool)

  datatype SchemaError =
    | PlanMismatch
    | VersionConflict(version: u32)
    | SkipsVersions
    | StaleDirective(directive: string, field: string)
    | Undecidable(field: string)

  datatype Checked<+T> = Accepted(value: T) | Rejected(error: SchemaError)

  /** Which fields a walk has accounted for. */
  datatype DeclaredFields = DeclaredFields(added: seq<string>, removed: seq<string>, changed: seq<string>) {
    function Add(name: string): DeclaredFields { this.(added := added + [name]) }
    function Remove(name: string): DeclaredFields { this.(removed := removed + [name]) }
    function Change(name: string): DeclaredFields { this.(changed := changed + [name]) }
  }

  const NOTHING_DECLARED := DeclaredFields([], [], [])

  // ----- One field at a time -----

  /** The old field a declared rename of `name` carries, when both ends exist. */
  function RenameSource(from: Schema, plan: MigrationPlan, name: string): Option<Field> {
    if plan.RenamedFrom(name).Some? then FieldIn(from.fields, plan.RenamedFrom(name).value) else None
  }

  /** What happened to a field of the new shape. */
  function KindOf(from: Schema, plan: MigrationPlan, f: Field): Option<ChangeKind> {
    match FieldIn(from.fields, f.name)
    case None =>
      if RenameSource(from, plan, f.name).Some? then Some(Renamed(RenameSource(from, plan, f.name).value.name, f.name))
      else if f.optional then Some(AddedOptional)
      else Some(AddedRequired)
    case Some(previous) =>
      if previous.base != f.base then Some(Retyped(previous.declared, f.declared))
      else if previous.optional && !f.optional then Some(BecameRequired)
      else if !previous.optional && f.optional then Some(BecameOptional)
      else if previous.declared != f.declared && previous.normalized == f.normalized then Some(SpellingChanged)
      else None
  }

  /** How bad it is, given what the plan declares. */
  function SeverityOf(from: Schema, plan: MigrationPlan, f: Field, kind: ChangeKind): Severity {
    match kind
    case AddedOptional => if Has(plan.init, f.name) then Info else Warning
    case AddedRequired => if Has(plan.init, f.name) then Warning else Denied
    case BecameRequired => if Has(plan.init, f.name) then Warning else Denied
    case Retyped(_, _) => if HasConversion(plan, f.name) then Warning else Denied
    case Renamed(_, _) =>
      var source := RenameSource(from, plan, f.name);
      if source.Some? && source.value.optional == f.optional && source.value.base == f.base then Info else Warning
    case _ => Info
  }

  /** What the plan may declare about it. */
  function Noted(from: Schema, plan: MigrationPlan, f: Field, kind: ChangeKind, d: DeclaredFields): DeclaredFields {
    match kind
    case AddedOptional => d.Add(f.name)
    case AddedRequired => d.Add(f.name)
    case Renamed(source, _) =>
      var moved := d.Add(f.name).Remove(source);
      if RenameSource(from, plan, f.name).Some? && RenameSource(from, plan, f.name).value.base != f.base
      then moved.Change(f.name) else moved
    case Retyped(_, _) => d.Change(f.name)
    case BecameRequired => d.Change(f.name)
    case _ => d
  }

  datatype Survey = Survey(findings: seq<Finding>, declared: DeclaredFields)

  function WalkField(from: Schema, plan: MigrationPlan, f: Field, w: Survey): Survey {
    match KindOf(from, plan, f)
    case None => w
    case Some(kind) =>
      Survey(w.findings + [Finding(f.name, kind, SeverityOf(from, plan, f, kind))],
             Noted(from, plan, f, kind, w.declared))
  }

  /** The walk over the new shape. */
  function WalkNew(from: Schema, plan: MigrationPlan, fields: seq<Field>): Survey {
    if fields == [] then Survey([], NOTHING_DECLARED)
    else WalkField(from, plan, fields[|fields| - 1], WalkNew(from, plan, fields[..|fields| - 1]))
  }

  function WalkRemoved(to: Schema, plan: MigrationPlan, f: Field, w: Survey): Survey {
    if FieldIn(to.fields, f.name).Some? || f.name in w.declared.removed then w
    else
      var declared := w.declared.Remove(f.name);
      if plan.RenamedTo(f.name).Some? && FieldIn(to.fields, plan.RenamedTo(f.name).value).Some?
      then Survey(w.findings, declared)
      else Survey(w.findings + [Finding(f.name, Removed, if f.name in plan.dropped then Info else Denied)], declared)
  }

  /** The walk over the old shape, for what the new one no longer has. */
  function WalkOld(to: Schema, plan: MigrationPlan, fields: seq<Field>, start: Survey): Survey {
    if fields == [] then start
    else WalkRemoved(to, plan, fields[|fields| - 1], WalkOld(to, plan, fields[..|fields| - 1], start))
  }

  function NamesInOrder(fields: seq<Field>): seq<string> {
    seq(|fields|, i requires 0 <= i < |fields| => fields[i].name)
  }

  function Reordering(from: Schema, to: Schema): seq<Finding> {
    var a, b := NamesInOrder(from.fields), NamesInOrder(to.fields);
    if a != b && multiset(a) == multiset(b) then [Finding("", Reordered, Info)] else []
  }

  // ----- Stale directives -----

  /** The first entry of a table that no declared change justifies. */
  function FirstStale(directive: string, t: Table, allowed: seq<string>): Option<SchemaError> {
    if t == [] then None
    else if t[0].0 !in allowed then Some(StaleDirective(directive, t[0].0))
    else FirstStale(directive, t[1..], allowed)
  }

  function FirstStaleDrop(dropped: seq<string>, allowed: seq<string>): Option<SchemaError> {
    if dropped == [] then None
    else if dropped[0] !in allowed then Some(StaleDirective("dropped", dropped[0]))
    else FirstStaleDrop(dropped[1..], allowed)
  }

  function FirstStaleRename(from: Schema, to: Schema, t: Table): Option<SchemaError> {
    if t == [] then None
    else if FieldIn(from.fields, t[0].0).None? || FieldIn(to.fields, t[0].1).None?
    then Some(StaleDirective("renamed", t[0].0))
    else FirstStaleRename(from, to, t[1..])
  }

  function StaleIn(from: Schema, to: Schema, plan: MigrationPlan, d: DeclaredFields): Option<SchemaError> {
    if FirstStale("init", plan.init, d.added + d.changed).Some? then FirstStale("init", plan.init, d.added + d.changed)
    else if FirstStaleDrop(plan.dropped, d.removed).Some? then FirstStaleDrop(plan.dropped, d.removed)
    else if FirstStale("converted", plan.converted, d.changed).Some?
    then FirstStale("converted", plan.converted, d.changed)
    else FirstStaleRename(from, to, plan.renamed)
  }

  // ----- The diff -----

  ghost predicate SomeDenied(findings: seq<Finding>) {
    exists f :: f in findings && f.severity.Denied?
  }

  /** The verdict is the worst severity present. */
  function VerdictOf(findings: seq<Finding>): (v: Verdict)
    ensures v.Refused? <==> SomeDenied(findings)
    ensures v.Safe? <==> forall f :: f in findings ==> f.severity.Info?
  {
    if findings == [] then Safe else
      var rest := VerdictOf(findings[..|findings| - 1]);
      var last := findings[|findings| - 1].severity;
      assert findings == findings[..|findings| - 1] + [findings[|findings| - 1]];
      if last.Denied? || rest.Refused? then
        assert last.Denied? ==> findings[|findings| - 1] in findings;
        Refused
      else if last.Warning? || rest.SafeWithLazyMigration? then
        assert last.Warning? ==> findings[|findings| - 1] in findings;
        SafeWithLazyMigration
      else Safe
  }

  /** Why two schemas and a plan cannot be compared at all. */
  function Mismatch(from: Schema, to: Schema, plan: MigrationPlan): Option<SchemaError> {
    if plan.from != from.version || plan.to != to.version then Some(PlanMismatch)
    else if to.version <= from.version then Some(VersionConflict(from.version))
    else if to.version != from.version + 1 then Some(SkipsVersions)
    else None
  }

  function WholeWalk(from: Schema, to: Schema, plan: MigrationPlan): Survey {
    WalkOld(to, plan, from.fields, WalkNew(from, plan, to.fields))
  }

  function AllFindings(from: Schema, to: Schema, plan: MigrationPlan): seq<Finding> {
    WholeWalk(from, to, plan).findings + Reordering(from, to)
  }

  function DiffOf(from: Schema, to: Schema, plan: MigrationPlan): Checked<Diff> {
    if Mismatch(from, to, plan).Some? then Rejected(Mismatch(from, to, plan).value)
    else if StaleIn(from, to, plan, WholeWalk(from, to, plan).declared).Some?
    then Rejected(StaleIn(from, to, plan, WholeWalk(from, to, plan).declared).value)
    else
      var findings := AllFindings(from, to, plan);
      Accepted(Diff(from.version, to.version, findings, VerdictOf(findings), !plan.IsEmpty()))
  }

  // ----- The walk as written -----

  method DiffWithPlan(from: Schema, to: Schema, plan: MigrationPlan) returns (r: Checked<Diff>)
    ensures r == DiffOf(from, to, plan)
  {
    if plan.from != from.version || plan.to != to.version {
      return Rejected(PlanMismatch);
    }
    if to.version <= from.version {
      return Rejected(VersionConflict(from.version));
    }
    if to.version != from.version + 1 {
      return Rejected(SkipsVersions);
    }
    var findings, declared := ClassifyNew(from, to, plan);
    findings, declared := ClassifyRemoved(from, to, plan, findings, declared);
    findings := findings + Reordering(from, to);
    var stale := ValidatePlan(from, to, plan, declared);
    if stale.Some? {
      return Rejected(stale.value);
    }
    r := Accepted(Diff(from.version, to.version, findings, VerdictOf(findings), !plan.IsEmpty()));
  }

  /** Additions, renames, retypes and optionality changes, in the order of the new shape. */
  method ClassifyNew(from: Schema, to: Schema, plan: MigrationPlan) returns (findings: seq<Finding>,
                     declared: DeclaredFields)
    ensures Survey(findings, declared) == WalkNew(from, plan, to.fields)
  {
    findings, declared := [], NOTHING_DECLARED;
    for i := 0 to |to.fields|
      invariant Survey(findings, declared) == WalkNew(from, plan, to.fields[..i])
    {
      assert to.fields[..i + 1][..i] == to.fields[..i];
      findings, declared := ClassifyField(from, plan, to.fields[i], findings, declared);
    }
    assert to.fields[..|to.fields|] == to.fields;
  }

  method ClassifyField(from: Schema, plan: MigrationPlan, field: Field, soFar: seq<Finding>, seen: DeclaredFields)
    returns (findings: seq<Finding>, declared: DeclaredFields)
    ensures Survey(findings, declared) == WalkField(from, plan, field, Survey(soFar, seen))
  {
    findings, declared := soFar, seen;
    var previous := FieldIn(from.fields, field.name);
    if previous.None? {
      var source := RenameSource(from, plan, field.name);
      if source.Some? {
        declared := declared.Add(field.name).Remove(source.value.name);
        var severity := Info;
        if source.value.base != field.base {
          declared := declared.Change(field.name);
        }
        if source.value.optional != field.optional || source.value.base != field.base {
          severity := Warning;
        }
        findings := findings + [Finding(field.name, Renamed(source.value.name, field.name), severity)];
      } else if field.optional {
        declared := declared.Add(field.name);
        var severity := if Has(plan.init, field.name) then Info else Warning;
        findings := findings + [Finding(field.name, AddedOptional, severity)];
      } else {
        declared := declared.Add(field.name);
        var severity := if Has(plan.init, field.name) then Warning else Denied;
        findings := findings + [Finding(field.name, AddedRequired, severity)];
      }
    } else if previous.value.base != field.base {
      declared := declared.Change(field.name);
      var severity := if HasConversion(plan, field.name) then Warning else Denied;
      findings := findings + [Finding(field.name, Retyped(previous.value.declared, field.declared), severity)];
    } else if previous.value.optional && !field.optional {
      declared := declared.Change(field.name);
      var severity := if Has(plan.init, field.name) then Warning else Denied;
      findings := findings + [Finding(field.name, BecameRequired, severity)];
    } else if !previous.value.optional && field.optional {
      findings := findings + [Finding(field.name, BecameOptional, Info)];
    } else if previous.value.declared != field.declared && previous.value.normalized == field.normalized {
      findings := findings + [Finding(field.name, SpellingChanged, Info)];
    }
  }

  method ClassifyRemoved(from: Schema, to: Schema, plan: MigrationPlan, soFar: seq<Finding>, seen: DeclaredFields)
    returns (findings: seq<Finding>, declared: DeclaredFields)
    ensures Survey(findings, declared) == WalkOld(to, plan, from.fields, Survey(soFar, seen))
  {
    findings, declared := soFar, seen;
    for i := 0 to |from.fields|
      invariant Survey(findings, declared) == WalkOld(to, plan, from.fields[..i], Survey(soFar, seen))
    {
      var field := from.fields[i];
      assert from.fields[..i + 1][..i] == from.fields[..i];
      if FieldIn(to.fields, field.name).None? && field.name !in declared.removed {
        var target := plan.RenamedTo(field.name);
        declared := declared.Remove(field.name);
        if target.None? || FieldIn(to.fields, target.value).None? {
          findings := findings + [Finding(field.name, Removed, if field.name in plan.dropped then Info else Denied)];
        }
      }
    }
    assert from.fields[..|from.fields|] == from.fields;
  }

  method ValidatePlan(from: Schema, to: Schema, plan: MigrationPlan,
                      declared: DeclaredFields)
    returns (stale: Option<SchemaError>)
    ensures stale == StaleIn(from, to, plan, declared)
  {
    for i := 0 to |plan.init|
      invariant FirstStale("init", plan.init, declared.added + declared.changed)
             == FirstStale("init", plan.init[i..], declared.added + declared.changed)
    {
      var field := plan.init[i].0;
      assert plan.init[i..][1..] == plan.init[i + 1..];
      if field !in declared.added && field !in declared.changed {
        return Some(StaleDirective("init", field));
      }
    }
    for i := 0 to |plan.dropped|
      invariant FirstStaleDrop(plan.dropped, declared.removed) == FirstStaleDrop(plan.dropped[i..], declared.removed)
    {
      assert plan.dropped[i..][1..] == plan.dropped[i + 1..];
      if plan.dropped[i] !in declared.removed {
        return Some(StaleDirective("dropped", plan.dropped[i]));
      }
    }
    for i := 0 to |plan.converted|
      invariant FirstStale("converted", plan.converted, declared.changed)
             == FirstStale("converted", plan.converted[i..], declared.changed)
    {
      assert plan.converted[i..][1..] == plan.converted[i + 1..];
      if plan.converted[i].0 !in declared.changed {
        return Some(StaleDirective("converted", plan.converted[i].0));
      }
    }
    for i := 0 to |plan.renamed|
      invariant FirstStaleRename(from, to, plan.renamed) == FirstStaleRename(from, to, plan.renamed[i..])
    {
      assert plan.renamed[i..][1..] == plan.renamed[i + 1..];
      if FieldIn(from.fields, plan.renamed[i].0).None? || FieldIn(to.fields, plan.renamed[i].1).None? {
        return Some(StaleDirective("renamed", plan.renamed[i].0));
      }
    }
    stale := None;
  }
}
