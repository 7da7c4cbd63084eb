/** The order in which the diff reports and the generator assigns: that of the schemas. */
module Orders {
  import opened Host
  import opened Schemas
  import opened Diffs
  import opened Gate
  import opened Codegen
  import opened Shapes
  import opened Plans
  import opened Verdicts

  /** The position of the first field of that name. */
  function Position(fields: seq<Field>, name: string): (p: nat)
    ensures name in Names(fields) <==> p < |fields|
  {
    if fields == [] then 0
    else if fields[0].name == name then (assert fields[0] in fields; 0)
    else
      assert fields == [fields[0]] + fields[1..];
      1 + Position(fields[1..], name)
  }

  /** Where in the report a finding belongs: with its field of the new shape, after those with its
      field of the old one, or at the end. */
  function Rank(from: Schema, to: Schema, x: Finding): nat {
    if x.kind.Reordered? then |to.fields| + |from.fields|
    else if x.kind.Removed? then |to.fields| + Position(from.fields, x.field)
    else Position(to.fields, x.field)
  }

  ghost predicate Ranked(from: Schema, to: Schema, findings: seq<Finding>) {
    forall i, j :: 0 <= i < j < |findings| ==> Rank(from, to, findings[i]) < Rank(from, to, findings[j])
  }

  lemma RankedMore(from: Schema, to: Schema, findings: seq<Finding>, x: Finding)
    requires Ranked(from, to, findings)
    requires forall y :: y in findings ==> Rank(from, to, y) < Rank(from, to, x)
    ensures Ranked(from, to, findings + [x])
  {}

  /** What a walk that has come to rank `done` has reported so far. */
  ghost predicate RankedBelow(from: Schema, to: Schema, done: nat, findings: seq<Finding>) {
    Ranked(from, to, findings) && forall x :: x in findings ==> Rank(from, to, x) < done
  }

  lemma BelowMore(from: Schema, to: Schema, done: nat, findings: seq<Finding>, x: Finding)
    requires RankedBelow(from, to, done, findings) && Rank(from, to, x) == done
    ensures RankedBelow(from, to, done + 1, findings + [x])
  {
    RankedMore(from, to, findings, x);
  }

  lemma {:induction false} DistinctPosition(fields: seq<Field>, i: nat)
    requires DistinctNames(fields) && i < |fields|
    ensures Position(fields, fields[i].name) == i
  {
    if i > 0 {
      assert fields[0].name != fields[i].name && fields[1..][i - 1] == fields[i];
      DistinctPosition(fields[1..], i - 1);
    }
  }

  lemma {:induction false} NewInOrder(from: Schema, to: Schema, plan: MigrationPlan, n: nat)
    requires DistinctNames(to.fields) && n <= |to.fields|
    ensures RankedBelow(from, to, n, WalkNew(from, plan, to.fields[..n]).findings)
  {
    if n > 0 {
      var f, before := to.fields[n - 1], WalkNew(from, plan, to.fields[..n - 1]);
      NewInOrder(from, to, plan, n - 1);
      assert to.fields[..n][..n - 1] == to.fields[..n - 1];
      if FindingFor(from, plan, f).Some? {
        DistinctPosition(to.fields, n - 1);
        KindTells(from, plan, f);
        BelowMore(from, to, n - 1, before.findings, FindingFor(from, plan, f).value);
      }
    }
  }

  /** One old field adds at most its removal. */
  lemma RemovedAdds(to: Schema, plan: MigrationPlan, f: Field, w: Survey)
    ensures var after := WalkRemoved(to, plan, f, w).findings;
            after == w.findings || after == w.findings + [RemovedFinding(plan, f.name)]
  {}

  lemma {:induction false} OldInOrder(from: Schema, to: Schema, plan: MigrationPlan, start: Survey, n: nat)
    requires DistinctNames(from.fields) && n <= |from.fields| && RankedBelow(from, to, |to.fields|, start.findings)
    ensures RankedBelow(from, to, |to.fields| + n, WalkOld(to, plan, from.fields[..n], start).findings)
  {
    if n > 0 {
      var f, before := from.fields[n - 1], WalkOld(to, plan, from.fields[..n - 1], start);
      OldInOrder(from, to, plan, start, n - 1);
      assert from.fields[..n][..n - 1] == from.fields[..n - 1];
      DistinctPosition(from.fields, n - 1);
      RemovedAdds(to, plan, f, before);
      BelowMore(from, to, |to.fields| + n - 1, before.findings, RemovedFinding(plan, f.name));
    } else {
      assert from.fields[..0] == [];
    }
  }

  /** The report reads in the order the author wrote the new struct; removals follow in the order of
      the old one, and the note on the order comes last. */
  lemma FindingsInOrder(from: Schema, to: Schema, plan: MigrationPlan)
    requires DistinctNames(from.fields) && DistinctNames(to.fields)
    ensures Ranked(from, to, AllFindings(from, to, plan))
  {
    var start := WalkNew(from, plan, to.fields);
    NewInOrder(from, to, plan, |to.fields|);
    assert to.fields[..|to.fields|] == to.fields && from.fields[..|from.fields|] == from.fields;
    OldInOrder(from, to, plan, start, |from.fields|);
    var walked := WholeWalk(from, to, plan).findings;
    if Reordering(from, to) != [] {
      RankedMore(from, to, walked, Reordering(from, to)[0]);
      assert walked + Reordering(from, to) == walked + [Reordering(from, to)[0]];
    } else {
      assert walked + Reordering(from, to) == walked;
    }
  }

  // ----- The emitted program -----

  ghost predicate Ascending(to: Schema, names: seq<string>) {
    forall i, j :: 0 <= i < j < |names| ==> Position(to.fields, names[i]) < Position(to.fields, names[j])
  }

  function Targets(cs: seq<Consumer>): (names: seq<string>)
    ensures |names| == |cs| && forall i :: 0 <= i < |cs| ==> names[i] == cs[i].target
  {
    seq(|cs|, i requires 0 <= i < |cs| => cs[i].target)
  }

  ghost predicate InOrder(to: Schema, p: Program) {
    && Ascending(to, Keys(p.assignOptional)) && Ascending(to, Keys(p.assignRequired))
    && Ascending(to, Targets(p.consumers))
  }

  lemma LastRanks(from: Schema, to: Schema, findings: seq<Finding>, x: Finding)
    requires findings != [] && Ranked(from, to, findings) && x in findings[..|findings| - 1]
    ensures Rank(from, to, x) < Rank(from, to, findings[|findings| - 1])
  {
    var i :| 0 <= i < |findings| - 1 && findings[..|findings| - 1][i] == x;
    assert findings[i] == x;
  }

  ghost predicate SourcesOk(findings: seq<Finding>) {
    forall x :: x in findings && x.kind.Renamed? ==> x.kind.to == x.field
  }

  /** What one finding adds to the three lists. */
  lemma OneAdds(from: Schema, to: Schema, plan: MigrationPlan, x: Finding, p: Program)
    requires Emitted(from, to, plan, x, p).Accepted? && (x.kind.Renamed? ==> x.kind.to == x.field)
    ensures var q := Emitted(from, to, plan, x, p).value;
            && (Keys(q.assignOptional) == Keys(p.assignOptional)
                || (x.kind.AddedOptional? && Keys(q.assignOptional) == Keys(p.assignOptional) + [x.field]))
            && Keys(q.assignRequired)
               == Keys(p.assignRequired) + (if IsRequirement(x) then [x.field] else [])
            && Targets(q.consumers) == Targets(p.consumers) + if IsConsumed(x) then [x.field] else []
  {}

  predicate IsRequirement(x: Finding) {
    x.kind.AddedRequired? || x.kind.BecameRequired?
  }

  predicate IsConsumed(x: Finding) {
    x.kind.Renamed? || x.kind.Retyped?
  }

  lemma AscendingMore(to: Schema, names: seq<string>, name: string)
    requires Ascending(to, names)
    requires forall n :: n in names ==> Position(to.fields, n) < Position(to.fields, name)
    ensures Ascending(to, names + [name])
  {}

  lemma {:induction false} OptionalInOrder(from: Schema, to: Schema, plan: MigrationPlan, findings: seq<Finding>)
    requires EmittedAll(from, to, plan, findings).Accepted? && Ranked(from, to, findings) && SourcesOk(findings)
    ensures Ascending(to, Keys(EmittedAll(from, to, plan, findings).value.assignOptional))
  {
    if findings != [] {
      var front, last := findings[..|findings| - 1], findings[|findings| - 1];
      FrontOrLast(findings, last);
      OptionalInOrder(from, to, plan, front);
      var p := EmittedAll(from, to, plan, front).value;
      OneAdds(from, to, plan, last, p);
      if last.kind.AddedOptional? {
        forall a | a in p.assignOptional ensures Position(to.fields, a.0) < Position(to.fields, last.field) {
          EmittedOptional(from, to, plan, front, a);
          var x :| x in front && x.kind.AddedOptional? && x.field == a.0;
          LastRanks(from, to, findings, x);
        }
        AscendingMore(to, Keys(p.assignOptional), last.field);
      }
    }
  }

  lemma {:induction false} RequiredInOrder(from: Schema, to: Schema, plan: MigrationPlan, findings: seq<Finding>)
    requires EmittedAll(from, to, plan, findings).Accepted? && Ranked(from, to, findings) && SourcesOk(findings)
    ensures Ascending(to, Keys(EmittedAll(from, to, plan, findings).value.assignRequired))
  {
    if findings != [] {
      var front, last := findings[..|findings| - 1], findings[|findings| - 1];
      FrontOrLast(findings, last);
      RequiredInOrder(from, to, plan, front);
      var p := EmittedAll(from, to, plan, front).value;
      OneAdds(from, to, plan, last, p);
      if IsRequirement(last) {
        forall a | a in p.assignRequired ensures Position(to.fields, a.0) < Position(to.fields, last.field) {
          EmittedRequired(from, to, plan, front, a);
          var x :| x in front && IsRequirement(x) && x.field == a.0;
          LastRanks(from, to, findings, x);
        }
        AscendingMore(to, Keys(p.assignRequired), last.field);
      }
    }
  }

  lemma ConsumerBelow(from: Schema, to: Schema, plan: MigrationPlan, findings: seq<Finding>, c: Consumer)
    requires findings != [] && Ranked(from, to, findings) && SourcesOk(findings)
    requires IsConsumed(findings[|findings| - 1])
    requires var p := EmittedAll(from, to, plan, findings[..|findings| - 1]); p.Accepted? && c in p.value.consumers
    ensures Position(to.fields, c.target) < Position(to.fields, findings[|findings| - 1].field)
  {
    EmittedConsumers(from, to, plan, findings[..|findings| - 1], c);
    var x :| x in findings[..|findings| - 1] && Consumes(from, to, plan, x, c);
    FrontOrLast(findings, x);
    ConsumesTarget(from, to, plan, x, c);
    LastRanks(from, to, findings, x);
  }

  lemma {:induction false} ConsumersInOrder(from: Schema, to: Schema, plan: MigrationPlan, findings: seq<Finding>)
    requires EmittedAll(from, to, plan, findings).Accepted? && Ranked(from, to, findings) && SourcesOk(findings)
    ensures Ascending(to, Targets(EmittedAll(from, to, plan, findings).value.consumers))
  {
    if findings != [] {
      var front, last := findings[..|findings| - 1], findings[|findings| - 1];
      FrontOrLast(findings, last);
      ConsumersInOrder(from, to, plan, front);
      var p := EmittedAll(from, to, plan, front).value;
      OneAdds(from, to, plan, last, p);
      if IsConsumed(last) {
        forall c | c in p.consumers ensures Position(to.fields, c.target) < Position(to.fields, last.field) {
          ConsumerBelow(from, to, plan, findings, c);
        }
        AscendingMore(to, Targets(p.consumers), last.field);
      }
    }
  }

  lemma RenamesNameTheirField(from: Schema, to: Schema, plan: MigrationPlan)
    ensures SourcesOk(AllFindings(from, to, plan))
  {
    forall x | x in AllFindings(from, to, plan) && x.kind.Renamed? ensures x.kind.to == x.field {
      FindingsAre(from, to, plan, x);
      assert FoundIn(from, plan, to.fields, x);
    }
  }

  /** The emitted body assigns in the order of the new struct, which is the order in which its
      expressions see each other's values. */
  lemma GeneratedInOrder(from: Schema, to: Schema, plan: MigrationPlan)
    requires DistinctNames(from.fields) && DistinctNames(to.fields) && DiffOf(from, to, plan).Accepted?
    requires GenerateOf(from, to, DiffOf(from, to, plan).value, plan).Accepted?
    ensures InOrder(to, GenerateOf(from, to, DiffOf(from, to, plan).value, plan).value)
  {
    FindingsInOrder(from, to, plan);
    RenamesNameTheirField(from, to, plan);
    OptionalInOrder(from, to, plan, AllFindings(from, to, plan));
    RequiredInOrder(from, to, plan, AllFindings(from, to, plan));
    ConsumersInOrder(from, to, plan, AllFindings(from, to, plan));
  }

  // ----- What is only commented on -----

  lemma {:induction false} EmittedCarries(from: Schema, to: Schema, plan: MigrationPlan, findings: seq<Finding>,
                                          n: string)
    requires EmittedAll(from, to, plan, findings).Accepted?
    ensures n in EmittedAll(from, to, plan, findings).value.carried <==>
              exists x :: x in findings && x.kind.Removed? && x.field == n
  {
    if findings != [] {
      var front, last := findings[..|findings| - 1], findings[|findings| - 1];
      EmittedCarries(from, to, plan, front, n);
      forall x ensures x in findings <==> x in front || x == last { FrontOrLast(findings, x); }
    }
  }

  lemma {:induction false} UncarriedAre(carried: seq<string>, renamed: Table, n: string)
    ensures n in Uncarried(carried, renamed) <==> n in carried && !Has(renamed, n)
  {
    if carried != [] {
      UncarriedAre(carried[..|carried| - 1], renamed, n);
      assert carried == carried[..|carried| - 1] + [carried[|carried| - 1]];
    }
  }

  /** The fields the generated file says are discarded are exactly the old ones that are gone and
      not renamed, each of them declared as dropped. */
  lemma CarriedIff(from: Schema, to: Schema, plan: MigrationPlan, n: string)
    requires DiffOf(from, to, plan).Accepted?
    requires GenerateOf(from, to, DiffOf(from, to, plan).value, plan).Accepted?
    ensures n in GenerateOf(from, to, DiffOf(from, to, plan).value, plan).value.carried <==>
              n in Names(from.fields) && n !in Names(to.fields) && !Has(plan.renamed, n)
    ensures n in Names(from.fields) && n !in Names(to.fields) && !Has(plan.renamed, n) ==> n in plan.dropped
  {
    var all := AllFindings(from, to, plan);
    EmittedCarries(from, to, plan, all, n);
    UncarriedAre(EmittedAll(from, to, plan, all).value.carried, plan.renamed, n);
    if x :| x in all && x.kind.Removed? && x.field == n {
      RemovedIsGone(from, to, plan, x);
    }
    if n in Names(from.fields) && n !in Names(to.fields) && !Has(plan.renamed, n) {
      GoneIsRemoved(from, to, plan, n);
    }
  }

  lemma RemovedIsGone(from: Schema, to: Schema, plan: MigrationPlan, x: Finding)
    requires x in AllFindings(from, to, plan) && x.kind.Removed?
    ensures x.field in Names(from.fields) && x.field !in Names(to.fields)
  {
    FindingsAre(from, to, plan, x);
    if FoundIn(from, plan, to.fields, x) {
      var f :| f in to.fields && FindingFor(from, plan, f) == Some(x);
      KindTells(from, plan, f);
      assert false;
    }
  }

  lemma CarriedIsRenamed(from: Schema, plan: MigrationPlan, g: Field)
    requires CarriedFrom(from, plan, g).Some?
    ensures Has(plan.renamed, CarriedFrom(from, plan, g).value.name)
  {
    var source := SourceOf(plan.renamed, g.name).value;
    var i :| 0 <= i < |plan.renamed| && plan.renamed[i] == (source, g.name);
  }

  lemma GoneIsRemoved(from: Schema, to: Schema, plan: MigrationPlan, n: string)
    requires DiffOf(from, to, plan).Accepted? && !DiffOf(from, to, plan).value.verdict.Refused?
    requires n in Names(from.fields) && n !in Names(to.fields) && !Has(plan.renamed, n)
    ensures RemovedFinding(plan, n) in AllFindings(from, to, plan) && n in plan.dropped
  {
    var f :| f in from.fields && f.name == n;
    var taken := WalkNew(from, plan, to.fields).declared.removed;
    LostIff(from, to, plan, f);
    forall g | g in to.fields && CarriedFrom(from, plan, g).Some?
      ensures Has(plan.renamed, CarriedFrom(from, plan, g).value.name) {
      CarriedIsRenamed(from, plan, g);
    }
    assert LostIn(to, plan, from.fields, taken, RemovedFinding(plan, n));
    FindingsAre(from, to, plan, RemovedFinding(plan, n));
  }

  // ----- What cannot be generated -----

  lemma {:induction false} UndecidableIs(from: Schema, to: Schema, plan: MigrationPlan, findings: seq<Finding>)
    requires EmittedAll(from, to, plan, findings).Rejected?
    ensures exists x :: x in findings
              && Emitted(from, to, plan, x, NO_PROGRAM) == Rejected(EmittedAll(from, to, plan, findings).error)
  {
    var front, last := findings[..|findings| - 1], findings[|findings| - 1];
    FrontOrLast(findings, last);
    if EmittedAll(from, to, plan, front).Rejected? {
      UndecidableIs(from, to, plan, front);
      var e := EmittedAll(from, to, plan, front).error;
      var x :| x in front && Emitted(from, to, plan, x, NO_PROGRAM) == Rejected(e);
      FrontOrLast(findings, x);
    } else {
      var p := EmittedAll(from, to, plan, front).value;
      assert Emitted(from, to, plan, last, p).Rejected?;
      assert Emitted(from, to, plan, last, NO_PROGRAM) == Rejected(Emitted(from, to, plan, last, p).error);
    }
  }

  /** For a diff that is not refused the generator gives up over one thing only: it names the source
      of a rename that changes the base type without a conversion. */
  lemma UndecidableAnswers(from: Schema, to: Schema, plan: MigrationPlan)
    requires DiffOf(from, to, plan).Accepted? && !DiffOf(from, to, plan).value.verdict.Refused?
    requires GenerateOf(from, to, DiffOf(from, to, plan).value, plan).Rejected?
    ensures exists f, g :: f in to.fields && CarriedFrom(from, plan, f) == Some(g)
              && g.base != f.base && !HasConversion(plan, f.name)
              && GenerateOf(from, to, DiffOf(from, to, plan).value, plan) == Rejected(Undecidable(g.name))
  {
    var all := AllFindings(from, to, plan);
    UndecidableIs(from, to, plan, all);
    var x :| x in all && Emitted(from, to, plan, x, NO_PROGRAM) == Rejected(EmittedAll(from, to, plan, all).error);
    UndeniedIsEmitted(from, to, plan, x);
    FindingsAre(from, to, plan, x);
    var f :| f in to.fields && FindingFor(from, plan, f) == Some(x);
    KindTells(from, plan, f);
    UnconvertedRename(from, to, plan, f, x);
  }

  lemma UnconvertedRename(from: Schema, to: Schema, plan: MigrationPlan, f: Field, x: Finding)
    requires f in to.fields && FindingFor(from, plan, f) == Some(x) && !RenameConverts(from, to, plan, x)
    requires CarriedFrom(from, plan, f).Some? && Emitted(from, to, plan, x, NO_PROGRAM).Rejected?
    ensures var g := CarriedFrom(from, plan, f).value;
            && Emitted(from, to, plan, x, NO_PROGRAM) == Rejected(Undecidable(g.name))
            && !HasConversion(plan, f.name)
  {
    KindTells(from, plan, f);
  }
}
