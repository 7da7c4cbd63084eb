/** The drafted plan (`plan.rs` of the command line): it closes the gate, and nothing in it can
    be left out. */
module Drafts {
  import opened Host
  import opened Schemas
  import opened Diffs
  import opened Gate

  const TODO := "<TODO"

  function InitPlaceholder(field: string): string {
    TODO + ": value for `" + field + "`, for entries that predate it>"
  }

  function ConversionPlaceholder(before: string, after: string): string {
    TODO + ": expression converting `" + before + "` to `" + after + "`>"
  }

  function Declared(plan: MigrationPlan, x: Finding): MigrationPlan {
    if !x.severity.Denied? then plan else
      match x.kind
      case AddedRequired => plan.(init := Insert(plan.init, x.field, InitPlaceholder(x.field)))
      case BecameRequired => plan.(init := Insert(plan.init, x.field, InitPlaceholder(x.field)))
      case Removed => if x.field in plan.dropped then plan else plan.(dropped := plan.dropped + [x.field])
      case Retyped(before, after) =>
        plan.(converted := Insert(plan.converted, x.field, ConversionPlaceholder(before, after)))
      case _ => plan
  }

  function DraftOf(from: u32, to: u32, findings: seq<Finding>): MigrationPlan {
    if findings == [] then EmptyPlan(from, to)
    else Declared(DraftOf(from, to, findings[..|findings| - 1]), findings[|findings| - 1])
  }

  method Draft(from: u32, to: u32, diff: Diff) returns (plan: MigrationPlan)
    ensures plan == DraftOf(from, to, diff.findings)
  {
    plan := EmptyPlan(from, to);
    for i := 0 to |diff.findings|
      invariant plan == DraftOf(from, to, diff.findings[..i])
    {
      var finding := diff.findings[i];
      assert diff.findings[..i + 1][..i] == diff.findings[..i];
      if finding.severity != Denied {
        continue;
      }
      match finding.kind {
        case AddedRequired =>
          plan := plan.(init := Insert(plan.init, finding.field, InitPlaceholder(finding.field)));
        case BecameRequired =>
          plan := plan.(init := Insert(plan.init, finding.field, InitPlaceholder(finding.field)));
        case Removed =>
          if finding.field !in plan.dropped {
            plan := plan.(dropped := plan.dropped + [finding.field]);
          }
        case Retyped(before, after) =>
          plan := plan.(converted := Insert(plan.converted, finding.field, ConversionPlaceholder(before, after)));
        case _ =>
      }
    }
    assert diff.findings[..|diff.findings|] == diff.findings;
  }

  // ----- Tables -----

  lemma {:induction false} InsertGets(t: Table, key: string, value: string, other: string)
    ensures Get(Insert(t, key, value), other) == if other == key then Some(value) else Get(t, other)
  {
    if t != [] {
      assert ([(key, value)] + t[1..])[1..] == t[1..];
      if t[0].0 != key {
        InsertGets(t[1..], key, value, other);
        assert ([t[0]] + Insert(t[1..], key, value))[1..] == Insert(t[1..], key, value);
      }
    }
  }

  /** The table without one declaration. */
  function Without(t: Table, key: string): Table {
    if t == [] then [] else (if t[0].0 == key then [] else [t[0]]) + Without(t[1..], key)
  }

  lemma {:induction false} WithoutGets(t: Table, key: string, other: string)
    ensures Get(Without(t, key), other) == if other == key then None else Get(t, other)
  {
    if t != [] {
      WithoutGets(t[1..], key, other);
      if t[0].0 == key {
        assert Without(t, key) == Without(t[1..], key);
      } else {
        assert Without(t, key)[1..] == Without(t[1..], key);
      }
    }
  }

  function Remaining(names: seq<string>, name: string): (r: seq<string>)
    ensures forall n :: n in r <==> n in names && n != name
  {
    if names == [] then [] else
      assert names == [names[0]] + names[1..];
      (if names[0] == name then [] else [names[0]]) + Remaining(names[1..], name)
  }

  lemma {:induction false} NoneStale(directive: string, t: Table, allowed: seq<string>)
    ensures FirstStale(directive, t, allowed).None? <==> forall key :: Has(t, key) ==> key in allowed
  {
    if t != [] {
      NoneStale(directive, t[1..], allowed);
      assert forall key :: Has(t, key) <==> key == t[0].0 || Has(t[1..], key);
    }
  }

  lemma {:induction false} NoDropStale(dropped: seq<string>, allowed: seq<string>)
    ensures FirstStaleDrop(dropped, allowed).None? <==> forall n :: n in dropped ==> n in allowed
  {
    if dropped != [] {
      NoDropStale(dropped[1..], allowed);
      assert dropped == [dropped[0]] + dropped[1..];
    }
  }

  // ----- What a plan that renames nothing must declare -----

  datatype Directive = Init | Drop | Convert

  /** The directive that would clear a denied finding. */
  function DirectiveOf(x: Finding): Option<Directive> {
    if !x.severity.Denied? then None else
      match x.kind
      case AddedRequired => Some(Init)
      case BecameRequired => Some(Init)
      case Removed => Some(Drop)
      case Retyped(_, _) => Some(Convert)
      case _ => None
  }

  ghost predicate Asked(findings: seq<Finding>, d: Directive, n: string) {
    exists x :: x in findings && x.field == n && DirectiveOf(x) == Some(d)
  }

  predicate Declares(plan: MigrationPlan, d: Directive, n: string) {
    match d
    case Init => Has(plan.init, n)
    case Drop => n in plan.dropped
    case Convert => Has(plan.converted, n)
  }

  /** A blank conversion declares nothing. */
  predicate Answers(plan: MigrationPlan, d: Directive, n: string) {
    if d.Convert? then HasConversion(plan, n) else Declares(plan, d, n)
  }

  /** The plan without one of its declarations. */
  function Undeclared(plan: MigrationPlan, d: Directive, n: string): MigrationPlan {
    match d
    case Init => plan.(init := Without(plan.init, n))
    case Drop => plan.(dropped := Remaining(plan.dropped, n))
    case Convert => plan.(converted := Without(plan.converted, n))
  }

  lemma UndeclaredDeclares(plan: MigrationPlan, d: Directive, n: string, e: Directive, k: string)
    ensures Declares(Undeclared(plan, d, n), e, k) <==> Declares(plan, e, k) && !(d == e && n == k)
  {
    WithoutGets(plan.init, n, k);
    WithoutGets(plan.converted, n, k);
  }

  /** What the directive must be declared for, read off the two schemas. */
  ghost predicate Needed(from: Schema, to: Schema, d: Directive, n: string) {
    if d.Drop? then n in Names(from.fields) && n !in Names(to.fields)
    else exists f :: f in to.fields && f.name == n && FieldNeeds(from, f) == Some(d)
  }

  function FieldNeeds(from: Schema, f: Field): Option<Directive> {
    match FieldIn(from.fields, f.name)
    case None => if f.optional then None else Some(Init)
    case Some(previous) =>
      if previous.base != f.base then Some(Convert)
      else if previous.optional && !f.optional then Some(Init)
      else None
  }

  lemma NoRenames(from: Schema, plan: MigrationPlan, fields: seq<Field>, n: string)
    requires plan.renamed == []
    ensures !RenameTakes(from, plan, fields, n)
  {}

  /** A finding on the new shape is denied exactly when what it needs is not settled. */
  lemma DeniedField(from: Schema, plan: MigrationPlan, f: Field)
    requires plan.renamed == []
    ensures var x := FindingFor(from, plan, f);
            x.Some? && x.value.severity.Denied?
            <==> FieldNeeds(from, f).Some? && !Answers(plan, FieldNeeds(from, f).value, f.name)
    ensures var x := FindingFor(from, plan, f);
            x.Some? && x.value.severity.Denied? ==>
                x.value.field == f.name && DirectiveOf(x.value) == FieldNeeds(from, f)
  {}

  lemma AskIsNeeded(from: Schema, to: Schema, plan: MigrationPlan, x: Finding, d: Directive)
    requires plan.renamed == [] && x in AllFindings(from, to, plan) && DirectiveOf(x) == Some(d)
    ensures Needed(from, to, d, x.field) && !Answers(plan, d, x.field)
  {
    FindingsAre(from, to, plan, x);
    if FoundIn(from, plan, to.fields, x) {
      var f :| f in to.fields && FindingFor(from, plan, f) == Some(x);
      DeniedField(from, plan, f);
    } else {
      var taken := WalkNew(from, plan, to.fields).declared.removed;
      var f :| f in from.fields && Lost(to, plan, f, taken) && x == RemovedFinding(plan, f.name);
      assert f.name in Names(from.fields);
    }
  }

  lemma NeedIsAsked(from: Schema, to: Schema, plan: MigrationPlan, d: Directive, n: string)
    requires plan.renamed == [] && Needed(from, to, d, n) && !Answers(plan, d, n)
    ensures Asked(AllFindings(from, to, plan), d, n)
  {
    if d.Drop? {
      LossIsAsked(from, to, plan, n);
    } else {
      var f :| f in to.fields && f.name == n && FieldNeeds(from, f) == Some(d);
      DeniedField(from, plan, f);
      var x := FindingFor(from, plan, f).value;
      assert FoundIn(from, plan, to.fields, x);
      FindingsAre(from, to, plan, x);
    }
  }

  lemma LossIsAsked(from: Schema, to: Schema, plan: MigrationPlan, n: string)
    requires plan.renamed == [] && Needed(from, to, Drop, n) && !Answers(plan, Drop, n)
    ensures Asked(AllFindings(from, to, plan), Drop, n)
  {
    var taken, x := WalkNew(from, plan, to.fields).declared.removed, RemovedFinding(plan, n);
    var f :| f in from.fields && f.name == n;
    NewRemoved(from, plan, to.fields, n);
    NoRenames(from, plan, to.fields, n);
    assert Lost(to, plan, f, taken);
    assert LostIn(to, plan, from.fields, taken, x);
    FindingsAre(from, to, plan, x);
    assert DirectiveOf(x) == Some(Drop);
  }

  /** So a plan leaves a denial exactly where it leaves something needed unsettled. */
  lemma DenialsAre(from: Schema, to: Schema, plan: MigrationPlan, d: Directive, n: string)
    requires plan.renamed == []
    ensures Asked(AllFindings(from, to, plan), d, n) <==> Needed(from, to, d, n) && !Answers(plan, d, n)
  {
    if x :| x in AllFindings(from, to, plan) && x.field == n && DirectiveOf(x) == Some(d) {
      AskIsNeeded(from, to, plan, x, d);
    }
    if Needed(from, to, d, n) && !Answers(plan, d, n) {
      NeedIsAsked(from, to, plan, d, n);
    }
  }

  lemma DenialHasDirective(from: Schema, to: Schema, plan: MigrationPlan, x: Finding)
    requires plan.renamed == [] && x in AllFindings(from, to, plan) && x.severity.Denied?
    ensures DirectiveOf(x).Some?
  {
    FindingsAre(from, to, plan, x);
    if FoundIn(from, plan, to.fields, x) {
      var f :| f in to.fields && FindingFor(from, plan, f) == Some(x);
      DeniedField(from, plan, f);
    }
  }

  lemma DeniedAsks(from: Schema, to: Schema, plan: MigrationPlan)
    requires plan.renamed == []
    ensures SomeDenied(AllFindings(from, to, plan)) <==> exists d, n :: Asked(AllFindings(from, to, plan), d, n)
  {
    var all := AllFindings(from, to, plan);
    if x :| x in all && x.severity.Denied? {
      DenialHasDirective(from, to, plan, x);
      assert Asked(all, DirectiveOf(x).value, x.field);
    }
  }

  lemma WalkFieldKeeps(from: Schema, plan: MigrationPlan, g: Field, w: Survey, n: string)
    ensures n in w.declared.added ==> n in WalkField(from, plan, g, w).declared.added
    ensures n in w.declared.changed ==> n in WalkField(from, plan, g, w).declared.changed
  {}

  lemma WalkFieldDeclares(from: Schema, plan: MigrationPlan, f: Field, w: Survey)
    requires plan.renamed == []
    ensures var d := WalkField(from, plan, f, w).declared;
            && (FieldNeeds(from, f) == Some(Init) ==> f.name in d.added || f.name in d.changed)
            && (FieldNeeds(from, f) == Some(Convert) ==> f.name in d.changed)
  {}

  lemma {:induction false} WalkDeclaresNeeded(from: Schema, plan: MigrationPlan, fields: seq<Field>, f: Field)
    requires plan.renamed == [] && f in fields
    ensures var d := WalkNew(from, plan, fields).declared;
            && (FieldNeeds(from, f) == Some(Init) ==> f.name in d.added || f.name in d.changed)
            && (FieldNeeds(from, f) == Some(Convert) ==> f.name in d.changed)
  {
    var front := fields[..|fields| - 1];
    FrontOrLast(fields, f);
    var last := fields[|fields| - 1];
    if f in front {
      WalkDeclaresNeeded(from, plan, front, f);
      WalkFieldKeeps(from, plan, last, WalkNew(from, plan, front), f.name);
    } else {
      WalkFieldDeclares(from, plan, last, WalkNew(from, plan, front));
    }
  }

  lemma {:induction false} OldKeepsOthers(to: Schema, plan: MigrationPlan, fields: seq<Field>, start: Survey)
    ensures var d := WalkOld(to, plan, fields, start).declared;
            d.added == start.declared.added && d.changed == start.declared.changed
  {
    if fields != [] {
      OldKeepsOthers(to, plan, fields[..|fields| - 1], start);
    }
  }

  /** A plan that renames nothing and declares only what is needed is not stale. */
  lemma NeededIsNotStale(from: Schema, to: Schema, plan: MigrationPlan)
    requires plan.renamed == []
    requires forall d, n :: Declares(plan, d, n) ==> Needed(from, to, d, n)
    ensures StaleIn(from, to, plan, WholeWalk(from, to, plan).declared).None?
  {
    var declared := WholeWalk(from, to, plan).declared;
    var walked := WalkNew(from, plan, to.fields);
    OldKeepsOthers(to, plan, from.fields, walked);
    forall n | Has(plan.init, n) ensures n in declared.added + declared.changed {
      assert Declares(plan, Init, n);
      var f :| f in to.fields && f.name == n && FieldNeeds(from, f) == Some(Init);
      WalkDeclaresNeeded(from, plan, to.fields, f);
    }
    forall n | Has(plan.converted, n) ensures n in declared.changed {
      assert Declares(plan, Convert, n);
      var f :| f in to.fields && f.name == n && FieldNeeds(from, f) == Some(Convert);
      WalkDeclaresNeeded(from, plan, to.fields, f);
    }
    forall n | n in plan.dropped ensures n in declared.removed {
      assert Declares(plan, Drop, n);
      OldRemoved(to, plan, from.fields, walked, n);
    }
    NoneStale("init", plan.init, declared.added + declared.changed);
    NoDropStale(plan.dropped, declared.removed);
    NoneStale("converted", plan.converted, declared.changed);
  }

  // ----- The draft -----

  lemma DeclaredOne(plan: MigrationPlan, x: Finding, d: Directive, n: string)
    ensures Declares(Declared(plan, x), d, n) <==> Declares(plan, d, n) || (x.field == n && DirectiveOf(x) == Some(d))
  {
    match DirectiveOf(x)
    case None =>
    case Some(Init) => InsertHas(plan.init, x.field, InitPlaceholder(x.field), n);
    case Some(Convert) => InsertHas(plan.converted, x.field, ConversionPlaceholder(x.kind.before, x.kind.after), n);
    case Some(Drop) =>
  }

  lemma InsertHas(t: Table, key: string, value: string, other: string)
    ensures Has(Insert(t, key, value), other) <==> other == key || Has(t, other)
  {
    InsertGets(t, key, value, other);
  }

  lemma DeclaredOneSettles(plan: MigrationPlan, x: Finding, n: string)
    requires Has(plan.converted, n) ==> HasConversion(plan, n)
    ensures Has(Declared(plan, x).converted, n) ==> HasConversion(Declared(plan, x), n)
  {
    if x.kind.Retyped? {
      var text := ConversionPlaceholder(x.kind.before, x.kind.after);
      InsertGets(plan.converted, x.field, text, n);
      assert text[0] == '<' && !IsWhitespace(text[0]);
    }
  }

  /** The draft declares exactly what the findings ask for, and never with a blank conversion. */
  lemma {:induction false} DraftDeclares(from: u32, to: u32, findings: seq<Finding>, d: Directive, n: string)
    ensures var plan := DraftOf(from, to, findings);
            && plan.renamed == [] && plan.from == from && plan.to == to
            && (Declares(plan, d, n) <==> Asked(findings, d, n))
            && (Declares(plan, d, n) ==> Answers(plan, d, n))
  {
    if findings != [] {
      var front, last := findings[..|findings| - 1], findings[|findings| - 1];
      var before := DraftOf(from, to, front);
      DraftDeclares(from, to, front, d, n);
      DraftDeclares(from, to, front, Convert, n);
      DeclaredOne(before, last, d, n);
      DeclaredOneSettles(before, last, n);
      if Asked(front, d, n) {
        var x :| x in front && x.field == n && DirectiveOf(x) == Some(d);
        assert x in findings;
      }
      if Asked(findings, d, n) {
        var x :| x in findings && x.field == n && DirectiveOf(x) == Some(d);
        FrontOrLast(findings, x);
      }
      assert last in findings;
    }
  }

  /** The plan `plan` drafts for a pair of schemas: from the findings of the bare diff. */
  ghost function DraftFor(from: Schema, to: Schema): MigrationPlan {
    DraftOf(from.version, to.version, AllFindings(from, to, EmptyPlan(from.version, to.version)))
  }

  /** It declares exactly what is needed. */
  lemma DraftIsNeeded(from: Schema, to: Schema, d: Directive, n: string)
    ensures var plan := DraftFor(from, to);
            && plan.renamed == [] && plan.from == from.version && plan.to == to.version
            && (Declares(plan, d, n) <==> Needed(from, to, d, n))
            && (Declares(plan, d, n) ==> Answers(plan, d, n))
  {
    var bare := EmptyPlan(from.version, to.version);
    DraftDeclares(from.version, to.version, AllFindings(from, to, bare), d, n);
    DenialsAre(from, to, bare, d, n);
  }

  /** Diffing again with the drafted plan raises no stale directive and is not refused. */
  lemma DraftClosesTheGate(from: Schema, to: Schema)
    requires to.version == from.version + 1
    ensures var d := DiffOf(from, to, DraftFor(from, to));
            d.Accepted? && !d.value.verdict.Refused?
  {
    var plan := DraftFor(from, to);
    DraftIsNeeded(from, to, Init, "");
    forall d, n
      ensures (Declares(plan, d, n) <==> Needed(from, to, d, n)) && !Asked(AllFindings(from, to, plan), d, n) {
      DraftIsNeeded(from, to, d, n);
      DenialsAre(from, to, plan, d, n);
    }
    NeededIsNotStale(from, to, plan);
    DeniedAsks(from, to, plan);
  }

  /** And it is minimal: take any one declaration out and the upgrade is refused again. */
  lemma DraftIsMinimal(from: Schema, to: Schema, d: Directive, n: string)
    requires to.version == from.version + 1 && Declares(DraftFor(from, to), d, n)
    ensures var shrunk := DiffOf(from, to, Undeclared(DraftFor(from, to), d, n));
            shrunk.Accepted? && shrunk.value.verdict.Refused?
  {
    var plan := DraftFor(from, to);
    var shrunk := Undeclared(plan, d, n);
    DraftIsNeeded(from, to, d, n);
    forall e, k ensures Declares(shrunk, e, k) ==> Needed(from, to, e, k) {
      DraftIsNeeded(from, to, e, k);
      UndeclaredDeclares(plan, d, n, e, k);
    }
    UndeclaredDeclares(plan, d, n, d, n);
    NeededIsNotStale(from, to, shrunk);
    DenialsAre(from, to, shrunk, d, n);
    DeniedAsks(from, to, shrunk);
  }
}
