/** What every verdict and finding of the diff says about the two schemas, under any plan. */
module Verdicts {
  import opened Host
  import opened Schemas
  import opened Diffs
  import opened Gate
  import opened Plans

  // ----- One field of the new shape -----

  predicate IsNew(from: Schema, f: Field) {
    f.name !in Names(from.fields)
  }

  predicate NewlyOptional(from: Schema, f: Field) {
    FieldIn(from.fields, f.name).Some? && !FieldIn(from.fields, f.name).value.optional && f.optional
  }

  /** Written differently, but the same type once the spelling is normalized. */
  predicate Respelled(from: Schema, f: Field) {
    var previous := FieldIn(from.fields, f.name);
    previous.Some? && previous.value.declared != f.declared && previous.value.normalized == f.normalized
  }

  /** What is found about a field of the new shape. */
  lemma KindTells(from: Schema, plan: MigrationPlan, f: Field)
    ensures var kind, carried := KindOf(from, plan, f), CarriedFrom(from, plan, f);
            && (kind == Some(AddedOptional) <==> IsNew(from, f) && carried.None? && f.optional)
            && (kind == Some(AddedRequired) <==> IsNew(from, f) && carried.None? && !f.optional)
            && (carried.Some? ==> kind == Some(Renamed(carried.value.name, f.name)))
            && (kind.Some? && kind.value.Renamed? ==> carried.Some?)
            && (Retypes(from, f) ==> kind == Some(Retyped(FieldIn(from.fields, f.name).value.declared, f.declared)))
            && (kind.Some? && kind.value.Retyped? ==> Retypes(from, f))
            && (kind == Some(BecameRequired) <==> !Retypes(from, f) && NewlyRequired(from, f))
            && (kind == Some(BecameOptional) <==> !Retypes(from, f) && NewlyOptional(from, f))
            && (kind == Some(SpellingChanged) <==>
                  && !Retypes(from, f) && !NewlyRequired(from, f) && !NewlyOptional(from, f) && Respelled(from, f))
            && (kind.Some? ==> !kind.value.Removed? && !kind.value.Reordered?)
  {
    assert RenameSource(from, plan, f.name)
        == if SourceOf(plan.renamed, f.name).Some? then FieldIn(from.fields, SourceOf(plan.renamed, f.name).value)
           else None;
  }

  // ----- Denied -----

  /** The author has not said where the values of this field come from. */
  predicate Undecided(from: Schema, plan: MigrationPlan, f: Field) {
    if IsNew(from, f) then CarriedFrom(from, plan, f).None? && !f.optional && !Has(plan.init, f.name)
    else if Retypes(from, f) then !HasConversion(plan, f.name)
    else NewlyRequired(from, f) && !Has(plan.init, f.name)
  }

  /** The field is gone, nothing of the new shape takes its place, and nothing says so. */
  ghost predicate Unaccounted(from: Schema, to: Schema, plan: MigrationPlan, n: string) {
    && n in Names(from.fields) && n !in Names(to.fields) && n !in plan.dropped
    && !IsCarried(from, to, plan, n)
    && !(Has(plan.renamed, n) && Get(plan.renamed, n).value in Names(to.fields))
  }

  ghost predicate IsCarried(from: Schema, to: Schema, plan: MigrationPlan, n: string) {
    exists f :: f in to.fields && CarriedFrom(from, plan, f).Some? && CarriedFrom(from, plan, f).value.name == n
  }

  lemma FieldDeniedIff(from: Schema, plan: MigrationPlan, f: Field)
    ensures FindingFor(from, plan, f).Some? && FindingFor(from, plan, f).value.severity.Denied?
       <==> Undecided(from, plan, f)
  {
    KindTells(from, plan, f);
  }

  lemma LostIff(from: Schema, to: Schema, plan: MigrationPlan, f: Field)
    requires f in from.fields
    ensures Lost(to, plan, f, WalkNew(from, plan, to.fields).declared.removed)
       <==> && f.name !in Names(to.fields) && !IsCarried(from, to, plan, f.name)
            && !(Has(plan.renamed, f.name) && Get(plan.renamed, f.name).value in Names(to.fields))
  {
    NewNotes(from, plan, to.fields, f.name);
  }

  lemma DeniedHasCause(from: Schema, to: Schema, plan: MigrationPlan, x: Finding)
    requires x in AllFindings(from, to, plan) && x.severity.Denied?
    ensures (exists f :: f in to.fields && Undecided(from, plan, f)) || exists n :: Unaccounted(from, to, plan, n)
  {
    FindingsAre(from, to, plan, x);
    if FoundIn(from, plan, to.fields, x) {
      var f :| f in to.fields && FindingFor(from, plan, f) == Some(x);
      FieldDeniedIff(from, plan, f);
    } else {
      var taken := WalkNew(from, plan, to.fields).declared.removed;
      var f :| f in from.fields && Lost(to, plan, f, taken) && x == RemovedFinding(plan, f.name);
      LostIff(from, to, plan, f);
      assert Unaccounted(from, to, plan, f.name);
    }
  }

  lemma UndecidedIsDenied(from: Schema, to: Schema, plan: MigrationPlan, f: Field)
    requires f in to.fields && Undecided(from, plan, f)
    ensures SomeDenied(AllFindings(from, to, plan))
  {
    FieldDeniedIff(from, plan, f);
    var x := FindingFor(from, plan, f).value;
    assert FoundIn(from, plan, to.fields, x);
    FindingsAre(from, to, plan, x);
  }

  lemma UnaccountedIsDenied(from: Schema, to: Schema, plan: MigrationPlan, n: string)
    requires Unaccounted(from, to, plan, n)
    ensures SomeDenied(AllFindings(from, to, plan))
  {
    var f :| f in from.fields && f.name == n;
    var taken := WalkNew(from, plan, to.fields).declared.removed;
    LostIff(from, to, plan, f);
    assert LostIn(to, plan, from.fields, taken, RemovedFinding(plan, n));
    FindingsAre(from, to, plan, RemovedFinding(plan, n));
    assert RemovedFinding(plan, n).severity.Denied?;
  }

  /** Under any plan the upgrade is refused exactly when some decision is missing. */
  lemma RefusedIff(from: Schema, to: Schema, plan: MigrationPlan)
    requires DiffOf(from, to, plan).Accepted?
    ensures DiffOf(from, to, plan).value.verdict.Refused?
       <==> (exists f :: f in to.fields && Undecided(from, plan, f)) || exists n :: Unaccounted(from, to, plan, n)
  {
    if x :| x in AllFindings(from, to, plan) && x.severity.Denied? {
      DeniedHasCause(from, to, plan, x);
    }
    if f :| f in to.fields && Undecided(from, plan, f) {
      UndecidedIsDenied(from, to, plan, f);
    }
    if n :| Unaccounted(from, to, plan, n) {
      UnaccountedIsDenied(from, to, plan, n);
    }
  }

  // ----- Safe -----

  /** Nothing about the field asks for attention: it is what it was or became optional, it carries
      another one over unchanged, or it is optional and has a default. */
  predicate Settled(from: Schema, plan: MigrationPlan, f: Field) {
    if IsNew(from, f) then
      match CarriedFrom(from, plan, f)
      case Some(source) => source.base == f.base && source.optional == f.optional
      case None => f.optional && Has(plan.init, f.name)
    else !Retypes(from, f) && !NewlyRequired(from, f)
  }

  lemma FieldInfoIff(from: Schema, plan: MigrationPlan, f: Field)
    ensures (FindingFor(from, plan, f).Some? ==> FindingFor(from, plan, f).value.severity.Info?)
       <==> Settled(from, plan, f)
  {
    KindTells(from, plan, f);
  }

  /** Under any plan the verdict is Safe exactly when every field is settled and every field that is
      gone is accounted for. */
  lemma SafeIff(from: Schema, to: Schema, plan: MigrationPlan)
    requires DiffOf(from, to, plan).Accepted?
    ensures DiffOf(from, to, plan).value.verdict.Safe?
       <==> (forall f :: f in to.fields ==> Settled(from, plan, f)) && forall n :: !Unaccounted(from, to, plan, n)
  {
    var all := AllFindings(from, to, plan);
    if forall x :: x in all ==> x.severity.Info? {
      forall f | f in to.fields ensures Settled(from, plan, f) {
        FieldInfoIff(from, plan, f);
        if FindingFor(from, plan, f).Some? {
          assert FoundIn(from, plan, to.fields, FindingFor(from, plan, f).value);
          FindingsAre(from, to, plan, FindingFor(from, plan, f).value);
        }
      }
      forall n ensures !Unaccounted(from, to, plan, n) {
        if Unaccounted(from, to, plan, n) {
          UnaccountedIsDenied(from, to, plan, n);
        }
      }
    }
    if (forall f :: f in to.fields ==> Settled(from, plan, f)) && forall n :: !Unaccounted(from, to, plan, n) {
      forall x | x in all ensures x.severity.Info? {
        SettledIsInfo(from, to, plan, x);
      }
    }
  }

  lemma SettledIsInfo(from: Schema, to: Schema, plan: MigrationPlan, x: Finding)
    requires (forall f :: f in to.fields ==> Settled(from, plan, f)) && forall n :: !Unaccounted(from, to, plan, n)
    requires x in AllFindings(from, to, plan)
    ensures x.severity.Info?
  {
    FindingsAre(from, to, plan, x);
    var taken := WalkNew(from, plan, to.fields).declared.removed;
    if FoundIn(from, plan, to.fields, x) {
      var f :| f in to.fields && FindingFor(from, plan, f) == Some(x);
      FieldInfoIff(from, plan, f);
    } else if LostIn(to, plan, from.fields, taken, x) {
      var f :| f in from.fields && Lost(to, plan, f, taken) && x == RemovedFinding(plan, f.name);
      LostIff(from, to, plan, f);
      assert f.name in Names(from.fields) && !Unaccounted(from, to, plan, f.name);
    }
  }

  // ----- Silence -----

  lemma {:induction false} DistinctOnce(names: seq<string>, n: string)
    requires forall i, j :: 0 <= i < j < |names| ==> names[i] != names[j]
    ensures multiset(names)[n] == if n in names then 1 else 0
  {
    if names != [] {
      var front, last := names[..|names| - 1], names[|names| - 1];
      assert names == front + [last];
      DistinctOnce(front, n);
    }
  }

  lemma SameNamesIff(from: Schema, to: Schema)
    requires DistinctNames(from.fields) && DistinctNames(to.fields)
    ensures multiset(NamesInOrder(from.fields)) == multiset(NamesInOrder(to.fields))
       <==> Names(from.fields) == Names(to.fields)
  {
    var a, b := NamesInOrder(from.fields), NamesInOrder(to.fields);
    forall n ensures multiset(a)[n] == (if n in Names(from.fields) then 1 else 0)
      ensures multiset(b)[n] == if n in Names(to.fields) then 1 else 0 {
      NamesAre(from.fields, n);
      NamesAre(to.fields, n);
      DistinctOnce(a, n);
      DistinctOnce(b, n);
    }
    if multiset(a) == multiset(b) {
      forall n ensures n in Names(from.fields) <==> n in Names(to.fields) {
        assert multiset(a)[n] == multiset(b)[n];
      }
    }
  }

  lemma NamesAre(fields: seq<Field>, n: string)
    ensures n in NamesInOrder(fields) <==> n in Names(fields)
  {
    if n in Names(fields) {
      var f :| f in fields && f.name == n;
      var i :| 0 <= i < |fields| && fields[i] == f;
      assert NamesInOrder(fields)[i] == n;
    }
  }

  /** A reordering is reported, at `Info`, exactly when the two shapes have the same fields in another
      order. */
  lemma ReorderedIff(from: Schema, to: Schema, plan: MigrationPlan, x: Finding)
    requires DistinctNames(from.fields) && DistinctNames(to.fields) && x.kind.Reordered?
    ensures x in AllFindings(from, to, plan)
       <==> && Names(from.fields) == Names(to.fields) && NamesInOrder(from.fields) != NamesInOrder(to.fields)
            && x == Finding("", Reordered, Info)
  {
    SameNamesIff(from, to);
    FindingsAre(from, to, plan, x);
    if FoundIn(from, plan, to.fields, x) {
      var f :| f in to.fields && FindingFor(from, plan, f) == Some(x);
      KindTells(from, plan, f);
    }
  }

  /** Field by field the same, up to a spelling the diff cannot tell is the same. */
  predicate Unchanged(from: Schema, f: Field) {
    var previous := FieldIn(from.fields, f.name);
    && previous.Some? && previous.value.base == f.base && previous.value.optional == f.optional
    && (previous.value.declared == f.declared || previous.value.normalized != f.normalized)
  }

  /** Without a plan nothing is found exactly when nothing changed: the same fields, in the same
      order, each unchanged. */
  lemma SilentIff(from: Schema, to: Schema, plan: MigrationPlan)
    requires plan.IsEmpty() && DistinctNames(from.fields) && DistinctNames(to.fields)
    ensures AllFindings(from, to, plan) == []
       <==> NamesInOrder(from.fields) == NamesInOrder(to.fields) && forall f :: f in to.fields ==> Unchanged(from, f)
  {
    var all := AllFindings(from, to, plan);
    SameNamesIff(from, to);
    forall f ensures FindingFor(from, plan, f).None? <==> Unchanged(from, f) {
      KindTells(from, plan, f);
    }
    if all == [] {
      NothingFound(from, to, plan);
    }
    if NamesInOrder(from.fields) == NamesInOrder(to.fields) && forall f :: f in to.fields ==> Unchanged(from, f) {
      if all != [] {
        var x := all[0];
        FindingsAre(from, to, plan, x);
        assert !FoundIn(from, plan, to.fields, x);
        NothingLost(from, to, plan, x);
      }
    }
  }

  lemma NothingFound(from: Schema, to: Schema, plan: MigrationPlan)
    requires plan.IsEmpty() && AllFindings(from, to, plan) == []
    requires DistinctNames(from.fields) && DistinctNames(to.fields)
    ensures forall f :: f in to.fields ==> FindingFor(from, plan, f).None?
    ensures NamesInOrder(from.fields) == NamesInOrder(to.fields)
  {
    forall f | f in to.fields ensures FindingFor(from, plan, f).None? && f.name in Names(from.fields) {
      KindTells(from, plan, f);
      if FindingFor(from, plan, f).Some? {
        assert FoundIn(from, plan, to.fields, FindingFor(from, plan, f).value);
        FindingsAre(from, to, plan, FindingFor(from, plan, f).value);
      }
    }
    forall f | f in from.fields ensures f.name in Names(to.fields) {
      if f.name !in Names(to.fields) {
        assert Unaccounted(from, to, plan, f.name) by { assert f.name in Names(from.fields); }
        UnaccountedIsDenied(from, to, plan, f.name);
      }
    }
    SameNamesIff(from, to);
    ReorderedIff(from, to, plan, Finding("", Reordered, Info));
  }
}
