/** Which plans the diff accepts, read off the two schemas, and what it says about the others. */
module Plans {
  import opened Host
  import opened Schemas
  import opened Diffs
  import opened Gate
  import opened Drafts

  // ----- What may be declared -----

  predicate NewlyRequired(from: Schema, f: Field) {
    FieldIn(from.fields, f.name).Some? && FieldIn(from.fields, f.name).value.optional && !f.optional
  }

  /** The old field a declared rename carries into the new field `f`. */
  function CarriedFrom(from: Schema, plan: MigrationPlan, f: Field): Option<Field> {
    if f.name in Names(from.fields) then None
    else match SourceOf(plan.renamed, f.name)
      case None => None
      case Some(source) => FieldIn(from.fields, source)
  }

  /** An `init` may be declared for a field that is new, newly required or retyped. */
  ghost predicate MayInit(from: Schema, to: Schema, n: string) {
    exists f :: f in to.fields && f.name == n
      && (n !in Names(from.fields) || NewlyRequired(from, f) || Retypes(from, f))
  }

  /** A `dropped` for a field that is gone, or was renamed away. */
  ghost predicate MayDrop(from: Schema, to: Schema, plan: MigrationPlan, n: string) {
    || (n in Names(from.fields) && n !in Names(to.fields))
    || exists f :: f in to.fields && CarriedFrom(from, plan, f).Some? && CarriedFrom(from, plan, f).value.name == n
  }

  /** The base type of the field changed, in place or along a rename. */
  predicate ChangesType(from: Schema, plan: MigrationPlan, f: Field) {
    || Retypes(from, f)
    || (CarriedFrom(from, plan, f).Some? && CarriedFrom(from, plan, f).value.base != f.base)
  }

  /** A `converted` for a field whose base type changed, in place or along a rename, or that became
      required, which counts as a change of the field. */
  ghost predicate MayConvert(from: Schema, to: Schema, plan: MigrationPlan, n: string) {
    exists f :: f in to.fields && f.name == n && (NewlyRequired(from, f) || ChangesType(from, plan, f))
  }

  /** A `renamed` needs both of its ends. */
  predicate MayRename(from: Schema, to: Schema, e: (string, string)) {
    e.0 in Names(from.fields) && e.1 in Names(to.fields)
  }

  // ----- What the walks note down -----

  lemma CarriedIs(from: Schema, plan: MigrationPlan, f: Field)
    requires f.name !in Names(from.fields)
    ensures RenameSource(from, plan, f.name) == CarriedFrom(from, plan, f)
  {}

  lemma AddedNotes(from: Schema, plan: MigrationPlan, f: Field, w: Survey, n: string)
    ensures n in WalkField(from, plan, f, w).declared.added <==>
              n in w.declared.added || (f.name == n && n !in Names(from.fields))
  {}

  lemma ChangedNotes(from: Schema, plan: MigrationPlan, f: Field, w: Survey, n: string)
    ensures n in WalkField(from, plan, f, w).declared.changed <==>
              n in w.declared.changed || (f.name == n && (NewlyRequired(from, f) || ChangesType(from, plan, f)))
  {
    if f.name !in Names(from.fields) {
      CarriedIs(from, plan, f);
    }
  }

  lemma RemovedNotes(from: Schema, plan: MigrationPlan, f: Field, w: Survey, n: string)
    ensures n in WalkField(from, plan, f, w).declared.removed <==>
              n in w.declared.removed
              || (CarriedFrom(from, plan, f).Some? && CarriedFrom(from, plan, f).value.name == n)
  {
    if f.name !in Names(from.fields) {
      CarriedIs(from, plan, f);
    }
  }

  ghost predicate NotedIn(from: Schema, plan: MigrationPlan, fields: seq<Field>, n: string, d: DeclaredFields) {
    && (n in d.added <==> exists f :: f in fields && f.name == n && n !in Names(from.fields))
    && (n in d.changed <==>
          exists f :: f in fields && f.name == n && (NewlyRequired(from, f) || ChangesType(from, plan, f)))
    && (n in d.removed <==>
          exists f :: f in fields && CarriedFrom(from, plan, f).Some? && CarriedFrom(from, plan, f).value.name == n)
  }

  lemma {:induction false} NewNotes(from: Schema, plan: MigrationPlan, fields: seq<Field>, n: string)
    ensures NotedIn(from, plan, fields, n, WalkNew(from, plan, fields).declared)
  {
    if fields != [] {
      var front, last := fields[..|fields| - 1], fields[|fields| - 1];
      NewNotes(from, plan, front, n);
      AddedNotes(from, plan, last, WalkNew(from, plan, front), n);
      ChangedNotes(from, plan, last, WalkNew(from, plan, front), n);
      RemovedNotes(from, plan, last, WalkNew(from, plan, front), n);
      forall f ensures f in fields <==> f in front || f == last { FrontOrLast(fields, f); }
    }
  }

  lemma WalkNotes(from: Schema, to: Schema, plan: MigrationPlan, n: string)
    ensures var d := WholeWalk(from, to, plan).declared;
            && (n in d.added + d.changed <==> MayInit(from, to, n))
            && (n in d.changed <==> MayConvert(from, to, plan, n))
            && (n in d.removed <==> MayDrop(from, to, plan, n))
  {
    var walked := WalkNew(from, plan, to.fields);
    NewNotes(from, plan, to.fields, n);
    OldKeepsOthers(to, plan, from.fields, walked);
    OldRemoved(to, plan, from.fields, walked, n);
  }

  // ----- Acceptance -----

  /** The plan and the schemas are about the same single step. */
  predicate SameStep(from: Schema, to: Schema, plan: MigrationPlan) {
    plan.from == from.version && plan.to == to.version && to.version == from.version + 1
  }

  ghost predicate AllInits(from: Schema, to: Schema, plan: MigrationPlan) {
    forall n :: Has(plan.init, n) ==> MayInit(from, to, n)
  }

  ghost predicate AllDrops(from: Schema, to: Schema, plan: MigrationPlan) {
    forall n :: n in plan.dropped ==> MayDrop(from, to, plan, n)
  }

  ghost predicate AllConversions(from: Schema, to: Schema, plan: MigrationPlan) {
    forall n :: Has(plan.converted, n) ==> MayConvert(from, to, plan, n)
  }

  ghost predicate AllRenames(from: Schema, to: Schema, plan: MigrationPlan) {
    forall e :: e in plan.renamed ==> MayRename(from, to, e)
  }

  lemma {:induction false} NoRenameStale(from: Schema, to: Schema, t: Table)
    ensures FirstStaleRename(from, to, t).None? <==> forall e :: e in t ==> MayRename(from, to, e)
  {
    if t != [] {
      NoRenameStale(from, to, t[1..]);
      assert t == [t[0]] + t[1..];
      assert FieldIn(from.fields, t[0].0).Some? && FieldIn(to.fields, t[0].1).Some? <==> MayRename(from, to, t[0]);
    }
  }

  /** Each check of the plan passes exactly when everything it declares is one of the schemas'
      changes. */
  lemma ChecksPassIff(from: Schema, to: Schema, plan: MigrationPlan)
    ensures var d := WholeWalk(from, to, plan).declared;
            && (FirstStale("init", plan.init, d.added + d.changed).None? <==> AllInits(from, to, plan))
            && (FirstStaleDrop(plan.dropped, d.removed).None? <==> AllDrops(from, to, plan))
            && (FirstStale("converted", plan.converted, d.changed).None? <==> AllConversions(from, to, plan))
            && (FirstStaleRename(from, to, plan.renamed).None? <==> AllRenames(from, to, plan))
  {
    var d := WholeWalk(from, to, plan).declared;
    NoneStale("init", plan.init, d.added + d.changed);
    NoDropStale(plan.dropped, d.removed);
    NoneStale("converted", plan.converted, d.changed);
    NoRenameStale(from, to, plan.renamed);
    forall n
      ensures (n in d.added + d.changed <==> MayInit(from, to, n))
      ensures (n in d.changed <==> MayConvert(from, to, plan, n)) && (n in d.removed <==> MayDrop(from, to, plan, n)) {
      WalkNotes(from, to, plan, n);
    }
  }

  /** A diff is made exactly when plan and schemas are about the same single step and every
      declaration of the plan is justified by a change between the schemas. */
  lemma AcceptedIff(from: Schema, to: Schema, plan: MigrationPlan)
    ensures DiffOf(from, to, plan).Accepted?
       <==> && SameStep(from, to, plan) && AllInits(from, to, plan) && AllDrops(from, to, plan)
            && AllConversions(from, to, plan) && AllRenames(from, to, plan)
    ensures DiffOf(from, to, plan).Accepted? ==>
              var d := DiffOf(from, to, plan).value;
              && d.fromVersion == from.version && d.toVersion == to.version
              && (d.planApplied <==>
                    plan.init != [] || plan.dropped != [] || plan.converted != [] || plan.renamed != [])
  {
    ChecksPassIff(from, to, plan);
  }

  // ----- Refusal -----

  /** Without a single step there is no diff, and the caller is told what is wrong with the versions
      before anything else. */
  lemma MismatchAnswers(from: Schema, to: Schema, plan: MigrationPlan)
    ensures DiffOf(from, to, plan) == Rejected(PlanMismatch) <==> plan.from != from.version || plan.to != to.version
    ensures DiffOf(from, to, plan) == Rejected(VersionConflict(from.version)) <==>
              plan.from == from.version && plan.to == to.version && to.version <= from.version
    ensures DiffOf(from, to, plan) == Rejected(SkipsVersions) <==>
              plan.from == from.version && plan.to == to.version && to.version > from.version + 1
  {
    StaleIsDirective(from, to, plan);
  }

  /** `n` is the first of the names that is not justified. */
  ghost predicate FirstUnjustified(names: seq<string>, may: string -> bool, n: string) {
    exists i :: 0 <= i < |names| && FirstAt(names, may, n, i)
  }

  ghost predicate FirstAt(names: seq<string>, may: string -> bool, n: string, i: nat)
    requires i < |names|
  {
    names[i] == n && !may(n) && forall j :: 0 <= j < i ==> may(names[j])
  }

  function Keys(t: Table): (names: seq<string>)
    ensures |names| == |t| && forall i :: 0 <= i < |t| ==> names[i] == t[i].0
  {
    seq(|t|, i requires 0 <= i < |t| => t[i].0)
  }

  lemma FirstLater(names: seq<string>, may: string -> bool, n: string)
    requires names != [] && may(names[0]) && FirstUnjustified(names[1..], may, n)
    ensures FirstUnjustified(names, may, n)
  {
    var i :| 0 <= i < |names[1..]| && FirstAt(names[1..], may, n, i);
    forall j | 0 <= j < i + 1 ensures may(names[j]) {
      if j > 0 { assert names[j] == names[1..][j - 1]; }
    }
    assert FirstAt(names, may, n, i + 1);
  }

  lemma {:induction false} StaleNamesFirst(directive: string, t: Table, allowed: seq<string>, may: string -> bool)
    requires FirstStale(directive, t, allowed).Some? && forall k :: k in allowed <==> may(k)
    ensures var stale := FirstStale(directive, t, allowed).value;
            stale.StaleDirective? && stale.directive == directive && FirstUnjustified(Keys(t), may, stale.field)
  {
    if t[0].0 in allowed {
      StaleNamesFirst(directive, t[1..], allowed, may);
      assert Keys(t)[1..] == Keys(t[1..]);
      FirstLater(Keys(t), may, FirstStale(directive, t, allowed).value.field);
    } else {
      assert FirstAt(Keys(t), may, t[0].0, 0);
    }
  }

  lemma {:induction false} StaleDropNamesFirst(dropped: seq<string>, allowed: seq<string>, may: string -> bool)
    requires FirstStaleDrop(dropped, allowed).Some? && forall k :: k in allowed <==> may(k)
    ensures var stale := FirstStaleDrop(dropped, allowed).value;
            stale.StaleDirective? && stale.directive == "dropped" && FirstUnjustified(dropped, may, stale.field)
  {
    if dropped[0] in allowed {
      StaleDropNamesFirst(dropped[1..], allowed, may);
      FirstLater(dropped, may, FirstStaleDrop(dropped, allowed).value.field);
    } else {
      assert FirstAt(dropped, may, dropped[0], 0);
    }
  }

  /** `e` is the first rename of the table with an end missing. */
  ghost predicate FirstBroken(from: Schema, to: Schema, t: Table, n: string) {
    exists i :: 0 <= i < |t| && t[i].0 == n && !MayRename(from, to, t[i])
      && forall j :: 0 <= j < i ==> MayRename(from, to, t[j])
  }

  lemma {:induction false} StaleRenameNamesFirst(from: Schema, to: Schema, t: Table)
    requires FirstStaleRename(from, to, t).Some?
    ensures var stale := FirstStaleRename(from, to, t).value;
            stale.StaleDirective? && stale.directive == "renamed" && FirstBroken(from, to, t, stale.field)
  {
    if MayRename(from, to, t[0]) {
      StaleRenameNamesFirst(from, to, t[1..]);
      var n := FirstStaleRename(from, to, t).value.field;
      var i :| 0 <= i < |t[1..]| && t[1..][i].0 == n && !MayRename(from, to, t[1..][i])
          && forall j :: 0 <= j < i ==> MayRename(from, to, t[1..][j]);
      assert t[i + 1] == t[1..][i];
      forall j | 0 <= j < i + 1 ensures MayRename(from, to, t[j]) {
        if j > 0 { assert t[j] == t[1..][j - 1]; }
      }
    }
  }

  lemma StaleIsDirective(from: Schema, to: Schema, plan: MigrationPlan)
    ensures var stale := StaleIn(from, to, plan, WholeWalk(from, to, plan).declared);
            stale.Some? ==> stale.value.StaleDirective?
  {
    var d := WholeWalk(from, to, plan).declared;
    if FirstStale("init", plan.init, d.added + d.changed).Some? {
      StaleNamesFirst("init", plan.init, d.added + d.changed, k => k in d.added + d.changed);
    } else if FirstStaleDrop(plan.dropped, d.removed).Some? {
      StaleDropNamesFirst(plan.dropped, d.removed, k => k in d.removed);
    } else if FirstStale("converted", plan.converted, d.changed).Some? {
      StaleNamesFirst("converted", plan.converted, d.changed, k => k in d.changed);
    } else if FirstStaleRename(from, to, plan.renamed).Some? {
      StaleRenameNamesFirst(from, to, plan.renamed);
    }
  }

  /** A refusal over a declaration is truthful: it names the first unjustified one, in the order
      `init`, `dropped`, `converted`, `renamed`. */
  lemma StaleAnswers(from: Schema, to: Schema, plan: MigrationPlan, directive: string, n: string)
    requires DiffOf(from, to, plan) == Rejected(StaleDirective(directive, n))
    ensures if !AllInits(from, to, plan) then
              directive == "init" && FirstUnjustified(Keys(plan.init), k => MayInit(from, to, k), n)
            else if !AllDrops(from, to, plan) then
              directive == "dropped" && FirstUnjustified(plan.dropped, k => MayDrop(from, to, plan, k), n)
            else if !AllConversions(from, to, plan) then
              directive == "converted" && FirstUnjustified(Keys(plan.converted), k => MayConvert(from, to, plan, k), n)
            else directive == "renamed" && FirstBroken(from, to, plan.renamed, n)
  {
    var d := WholeWalk(from, to, plan).declared;
    ChecksPassIff(from, to, plan);
    forall k
      ensures (k in d.added + d.changed <==> MayInit(from, to, k))
      ensures (k in d.changed <==> MayConvert(from, to, plan, k)) && (k in d.removed <==> MayDrop(from, to, plan, k)) {
      WalkNotes(from, to, plan, k);
    }
    if !AllInits(from, to, plan) {
      StaleNamesFirst("init", plan.init, d.added + d.changed, k => MayInit(from, to, k));
    } else if !AllDrops(from, to, plan) {
      StaleDropNamesFirst(plan.dropped, d.removed, k => MayDrop(from, to, plan, k));
    } else if !AllConversions(from, to, plan) {
      StaleNamesFirst("converted", plan.converted, d.changed, k => MayConvert(from, to, plan, k));
    } else {
      StaleRenameNamesFirst(from, to, plan.renamed);
    }
  }
}
