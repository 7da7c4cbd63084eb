/** Every field the diff should mention is mentioned once, and exactly when a field can vanish
    without being mentioned at all. */
module Accounting {
  import opened Host
  import opened Schemas
  import opened Diffs
  import opened Gate

  // ----- At most one finding a field -----

  ghost predicate DistinctSubjects(findings: seq<Finding>) {
    forall i, j :: 0 <= i < j < |findings| ==> findings[i].field != findings[j].field
  }

  lemma {:induction false} NewSubjects(from: Schema, plan: MigrationPlan, fields: seq<Field>)
    requires DistinctNames(fields)
    ensures DistinctSubjects(WalkNew(from, plan, fields).findings)
    ensures forall x :: x in WalkNew(from, plan, fields).findings ==> x.field in Names(fields)
  {
    if fields != [] {
      var front, last := fields[..|fields| - 1], fields[|fields| - 1];
      NewSubjects(from, plan, front);
      assert last.name !in Names(front);
      assert last in fields;
    }
  }

  lemma {:induction false} OldSubjects(to: Schema, plan: MigrationPlan, fields: seq<Field>, start: Survey)
    requires DistinctNames(fields) && DistinctSubjects(start.findings)
    requires forall x :: x in start.findings ==> x.field in Names(to.fields)
    ensures var w := WalkOld(to, plan, fields, start);
            && DistinctSubjects(w.findings)
            && forall x :: x in w.findings ==> x.field in Names(to.fields) || x.field in Names(fields)
  {
    if fields != [] {
      var front, last := fields[..|fields| - 1], fields[|fields| - 1];
      OldSubjects(to, plan, front, start);
      assert last.name !in Names(front);
      assert last in fields;
    }
  }

  /** No field of either schema is the subject of two findings. */
  lemma OneFindingEach(from: Schema, to: Schema, plan: MigrationPlan)
    requires DistinctNames(from.fields) && DistinctNames(to.fields)
    ensures DistinctSubjects(WholeWalk(from, to, plan).findings)
  {
    NewSubjects(from, plan, to.fields);
    OldSubjects(to, plan, from.fields, WalkNew(from, plan, to.fields));
  }

  // ----- No field unaccounted for -----

  ghost predicate ReportedRemoved(from: Schema, to: Schema, plan: MigrationPlan, name: string) {
    exists x :: x in AllFindings(from, to, plan) && x.field == name && x.kind.Removed?
  }

  ghost predicate ReportedRenamed(from: Schema, to: Schema, plan: MigrationPlan, name: string) {
    exists x :: x in AllFindings(from, to, plan) && x.kind == Renamed(name, x.field)
  }

  /** The declared rename of `name` goes nowhere: its target already existed, or another source
      is preferred for it. */
  ghost predicate RenameIgnored(from: Schema, to: Schema, plan: MigrationPlan, name: string) {
    && plan.RenamedTo(name).Some?
    && var target := plan.RenamedTo(name).value;
    && target in Names(to.fields)
    && (target in Names(from.fields) || plan.RenamedFrom(target) != Some(name))
  }

  lemma GetDistinct(t: Table, key: string, value: string)
    requires DistinctKeys(t) && (key, value) in t
    ensures Get(t, key) == Some(value)
  {
    if t[0] != (key, value) {
      var j :| 0 <= j < |t| && t[j] == (key, value);
      assert t[1..][j - 1] == (key, value);
      assert t[0].0 != t[j].0;
      GetDistinct(t[1..], key, value);
    }
  }

  lemma RenameTakesIff(from: Schema, to: Schema, plan: MigrationPlan, f: Field)
    requires DistinctKeys(plan.renamed) && f in from.fields && f.name !in Names(to.fields)
    ensures RenameTakes(from, plan, to.fields, f.name)
       <==> (plan.RenamedTo(f.name).Some? && plan.RenamedTo(f.name).value in Names(to.fields)
             && !RenameIgnored(from, to, plan, f.name))
  {
    if RenameTakes(from, plan, to.fields, f.name) {
      var g :| g in to.fields && KindOf(from, plan, g) == Some(Renamed(f.name, g.name));
      assert plan.RenamedFrom(g.name) == Some(f.name);
      GetDistinct(plan.renamed, f.name, g.name);
      assert g.name in Names(to.fields);
    }
    if plan.RenamedTo(f.name).Some? && plan.RenamedTo(f.name).value in Names(to.fields)
       && !RenameIgnored(from, to, plan, f.name) {
      var target := plan.RenamedTo(f.name).value;
      var g := FieldIn(to.fields, target).value;
      assert f.name in Names(from.fields);
      assert RenameSource(from, plan, target).Some?;
      assert KindOf(from, plan, g) == Some(Renamed(f.name, g.name));
    }
  }

  lemma ReportedRemovedIff(from: Schema, to: Schema, plan: MigrationPlan, f: Field)
    requires f in from.fields && f.name !in Names(to.fields)
    ensures ReportedRemoved(from, to, plan, f.name)
       <==> !RenameTakes(from, plan, to.fields, f.name)
            && !(plan.RenamedTo(f.name).Some? && plan.RenamedTo(f.name).value in Names(to.fields))
  {
    var taken := WalkNew(from, plan, to.fields).declared.removed;
    NewRemoved(from, plan, to.fields, f.name);
    if ReportedRemoved(from, to, plan, f.name) {
      var x :| x in AllFindings(from, to, plan) && x.field == f.name && x.kind.Removed?;
      FindingsAre(from, to, plan, x);
      var g :| g in from.fields && Lost(to, plan, g, taken) && x == RemovedFinding(plan, g.name);
    }
    if Lost(to, plan, f, taken) {
      var x := RemovedFinding(plan, f.name);
      assert LostIn(to, plan, from.fields, taken, x);
      FindingsAre(from, to, plan, x);
    }
  }

  lemma ReportedRenamedIff(from: Schema, to: Schema, plan: MigrationPlan, name: string)
    ensures ReportedRenamed(from, to, plan, name) <==> RenameTakes(from, plan, to.fields, name)
  {
    if ReportedRenamed(from, to, plan, name) {
      var x :| x in AllFindings(from, to, plan) && x.kind == Renamed(name, x.field);
      FindingsAre(from, to, plan, x);
      var f :| f in to.fields && FindingFor(from, plan, f) == Some(x);
    }
    if RenameTakes(from, plan, to.fields, name) {
      var f :| f in to.fields && KindOf(from, plan, f) == Some(Renamed(name, f.name));
      var x := FindingFor(from, plan, f).value;
      assert FoundIn(from, plan, to.fields, x);
      FindingsAre(from, to, plan, x);
    }
  }

  /** A field that left the schema is reported as removed or as the source of a rename, never
      both — and goes unreported exactly when its declared rename is ignored. */
  lemma SilentLossIff(from: Schema, to: Schema, plan: MigrationPlan, f: Field)
    requires DistinctKeys(plan.renamed) && f in from.fields && f.name !in Names(to.fields)
    ensures !(ReportedRemoved(from, to, plan, f.name) && ReportedRenamed(from, to, plan, f.name))
    ensures !ReportedRemoved(from, to, plan, f.name) && !ReportedRenamed(from, to, plan, f.name)
       <==> RenameIgnored(from, to, plan, f.name)
  {
    ReportedRemovedIff(from, to, plan, f);
    ReportedRenamedIff(from, to, plan, f.name);
    RenameTakesIff(from, to, plan, f);
  }

  lemma RenamedTarget(from: Schema, to: Schema, plan: MigrationPlan, name: string, x: Finding)
    requires DistinctKeys(plan.renamed) && x in AllFindings(from, to, plan) && x.kind == Renamed(name, x.field)
    ensures plan.RenamedTo(name) == Some(x.field)
  {
    FindingsAre(from, to, plan, x);
    var f :| f in to.fields && FindingFor(from, plan, f) == Some(x);
    GetDistinct(plan.renamed, name, f.name);
  }

  /** No field is the source of two renames. */
  lemma RenamedOnce(from: Schema, to: Schema, plan: MigrationPlan, name: string, x: Finding, y: Finding)
    requires DistinctKeys(plan.renamed) && x in AllFindings(from, to, plan) && y in AllFindings(from, to, plan)
    requires x.kind == Renamed(name, x.field) && y.kind == Renamed(name, y.field)
    ensures x.field == y.field
  {
    RenamedTarget(from, to, plan, name, x);
    RenamedTarget(from, to, plan, name, y);
  }

  ghost predicate Injective(t: Table) {
    forall i, j :: 0 <= i < j < |t| ==> t[i].1 != t[j].1
  }

  lemma SourceOfInjective(t: Table, key: string, value: string)
    requires Injective(t) && (key, value) in t
    ensures SourceOf(t, value) == Some(key)
  {
    if t[0] != (key, value) {
      var j :| 0 <= j < |t| && t[j] == (key, value);
      assert t[1..][j - 1] == (key, value);
      assert t[0].1 != t[j].1;
      SourceOfInjective(t[1..], key, value);
    }
  }

  /** With injective renames to names the old schema did not have, nothing is lost silently. */
  lemma NoSilentLoss(from: Schema, to: Schema, plan: MigrationPlan, f: Field)
    requires DistinctKeys(plan.renamed) && Injective(plan.renamed)
    requires forall e :: e in plan.renamed ==> e.1 !in Names(from.fields)
    requires f in from.fields && f.name !in Names(to.fields)
    ensures ReportedRemoved(from, to, plan, f.name) <==> !ReportedRenamed(from, to, plan, f.name)
  {
    SilentLossIff(from, to, plan, f);
    if plan.RenamedTo(f.name).Some? {
      SourceOfInjective(plan.renamed, f.name, plan.RenamedTo(f.name).value);
    }
  }
}
