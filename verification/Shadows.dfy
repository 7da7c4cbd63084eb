/** The tolerant shadow struct of a generated migration, and when it cannot be declared. */
module Shadows {
  import opened Host
  import opened Schemas
  import opened Diffs
  import opened Gate
  import opened Accounting
  import opened Codegen
  import opened Shapes

  /** The shadow struct has one field for each consumer, named after its source. */
  ghost predicate DistinctSources(cs: seq<Consumer>) {
    forall i, j :: 0 <= i < j < |cs| ==> cs[i].source != cs[j].source
  }

  /** A field of the new shape is retyped, and is also the source of a rename that took effect. */
  ghost predicate RetypedAndRenamed(from: Schema, to: Schema, plan: MigrationPlan, f: Field) {
    f in to.fields && KindOf(from, plan, f).Some? && KindOf(from, plan, f).value.Retyped?
    && RenameTakes(from, plan, to.fields, f.name)
  }

  lemma FindingOf(from: Schema, to: Schema, plan: MigrationPlan, f: Field) returns (x: Finding)
    requires f in to.fields && KindOf(from, plan, f).Some?
    ensures x in AllFindings(from, to, plan) && x.field == f.name && x.kind == KindOf(from, plan, f).value
  {
    x := FindingFor(from, plan, f).value;
    assert FoundIn(from, plan, to.fields, x);
    FindingsAre(from, to, plan, x);
  }

  /** What is emitted for a retyped or renamed field is a consumer into it. */
  lemma ConsumerOf(from: Schema, to: Schema, plan: MigrationPlan, x: Finding) returns (c: Consumer)
    requires EmittedAll(from, to, plan, AllFindings(from, to, plan)).Accepted? && x in AllFindings(from, to, plan)
    requires x.kind.Retyped? || x.kind.Renamed?
    ensures c in EmittedAll(from, to, plan, AllFindings(from, to, plan)).value.consumers
    ensures x.kind.Retyped? ==> c.source == c.target == x.field
    ensures x.kind.Renamed? ==> c.source == x.kind.from && c.target == x.kind.to
  {
    EmittedAllIff(from, to, plan, AllFindings(from, to, plan));
    assert Emitted(from, to, plan, x, NO_PROGRAM).Accepted?;
    if x.kind.Renamed? {
      c := ConsumerForRename(from, to, x.kind.from, x.kind.to, plan).value;
    } else {
      c := ConsumerForRetype(from, to, x.field, plan).value;
    }
    assert Consumes(from, to, plan, x, c);
    EmittedConsumers(from, to, plan, AllFindings(from, to, plan), c);
  }

  lemma ConsumerIs(from: Schema, to: Schema, plan: MigrationPlan, p: Program, c: Consumer) returns (f: Field)
    requires DistinctNames(to.fields) && EmittedAll(from, to, plan, AllFindings(from, to, plan)) == Accepted(p)
    requires c in p.consumers
    ensures f in to.fields && f.name == c.target && KindOf(from, plan, f).Some?
    ensures var kind := KindOf(from, plan, f).value;
            (kind.Retyped? && c.source == f.name) || kind == Renamed(c.source, f.name)
  {
    var all := AllFindings(from, to, plan);
    EmittedConsumers(from, to, plan, all, c);
    var x :| x in all && Consumes(from, to, plan, x, c);
    f := ConsumerSubject(from, to, plan, x, c);
  }

  /** One source, one target. */
  lemma RenamedAway(from: Schema, plan: MigrationPlan, f: Field, g: Field, source: string)
    requires DistinctKeys(plan.renamed)
    requires KindOf(from, plan, f) == Some(Renamed(source, f.name))
    requires KindOf(from, plan, g) == Some(Renamed(source, g.name))
    ensures f.name == g.name
  {
    GetDistinct(plan.renamed, source, f.name);
    GetDistinct(plan.renamed, source, g.name);
  }

  lemma SameSource(from: Schema, to: Schema, plan: MigrationPlan, p: Program, c: Consumer, d: Consumer)
    requires DistinctNames(to.fields) && DistinctKeys(plan.renamed)
    requires EmittedAll(from, to, plan, AllFindings(from, to, plan)) == Accepted(p)
    requires c in p.consumers && d in p.consumers && c.source == d.source && c.target != d.target
    ensures exists f :: RetypedAndRenamed(from, to, plan, f)
  {
    var f := ConsumerIs(from, to, plan, p, c);
    var g := ConsumerIs(from, to, plan, p, d);
    if KindOf(from, plan, f).value.Retyped? {
      assert RetypedAndRenamed(from, to, plan, f);
    } else if KindOf(from, plan, g).value.Retyped? {
      assert RetypedAndRenamed(from, to, plan, g);
    } else {
      RenamedAway(from, plan, f, g, c.source);
      assert false;
    }
  }

  lemma RetypedAndRenamedTwice(from: Schema, to: Schema, plan: MigrationPlan, p: Program, f: Field)
    requires EmittedAll(from, to, plan, AllFindings(from, to, plan)) == Accepted(p)
    requires RetypedAndRenamed(from, to, plan, f)
    ensures !DistinctSources(p.consumers)
  {
    var g :| g in to.fields && KindOf(from, plan, g) == Some(Renamed(f.name, g.name));
    var x := FindingOf(from, to, plan, f);
    var y := FindingOf(from, to, plan, g);
    var c := ConsumerOf(from, to, plan, x);
    var d := ConsumerOf(from, to, plan, y);
    KindsApart(from, plan, f);
    KindsApart(from, plan, g);
    TwoOfOneSource(p.consumers, c, d);
  }

  lemma KindsApart(from: Schema, plan: MigrationPlan, f: Field)
    requires KindOf(from, plan, f).Some?
    ensures KindOf(from, plan, f).value.Retyped? ==> f.name in Names(from.fields)
    ensures KindOf(from, plan, f).value.Renamed? ==> f.name !in Names(from.fields)
  {}

  lemma TwoOfOneSource(cs: seq<Consumer>, c: Consumer, d: Consumer)
    requires c in cs && d in cs && c != d && c.source == d.source
    ensures !DistinctSources(cs)
  {
    var i :| 0 <= i < |cs| && cs[i] == c;
    var j :| 0 <= j < |cs| && cs[j] == d;
  }

  /** The generator accepts some plans for which the file it writes cannot compile: exactly those
      that retype a field and also rename it away make the shadow struct declare a key twice. */
  lemma DistinctSourcesIff(from: Schema, to: Schema, plan: MigrationPlan)
    requires DistinctNames(to.fields) && DistinctKeys(plan.renamed) && DiffOf(from, to, plan).Accepted?
    requires GenerateOf(from, to, DiffOf(from, to, plan).value, plan).Accepted?
    ensures DistinctSources(GenerateOf(from, to, DiffOf(from, to, plan).value, plan).value.consumers)
       <==> forall f :: !RetypedAndRenamed(from, to, plan, f)
  {
    var p := EmittedAll(from, to, plan, AllFindings(from, to, plan)).value;
    FindingsWriteOnce(from, to, plan);
    TargetsDistinct(from, to, plan, AllFindings(from, to, plan));
    if forall f :: !RetypedAndRenamed(from, to, plan, f) {
      forall i, j | 0 <= i < j < |p.consumers| ensures p.consumers[i].source != p.consumers[j].source {
        if p.consumers[i].source == p.consumers[j].source {
          SameSource(from, to, plan, p, p.consumers[i], p.consumers[j]);
        }
      }
    } else {
      var f :| RetypedAndRenamed(from, to, plan, f);
      RetypedAndRenamedTwice(from, to, plan, p, f);
    }
  }
}
