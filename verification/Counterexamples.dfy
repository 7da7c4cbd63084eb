/** Plans the gate and the generator accept whose migrations do what the comments in the generated
    file say they do not. */
module Counterexamples {
  import opened Host
  import opened Schemas
  import opened Diffs
  import opened Codegen
  import opened Shadows
  import opened Generated
  import opened Storage
  import opened Forward

  // ----- The walks over one and two fields -----

  lemma NewOne(from: Schema, plan: MigrationPlan, f: Field)
    ensures WalkNew(from, plan, [f]) == WalkField(from, plan, f, Survey([], NOTHING_DECLARED))
  {
    assert [f][..0] == [];
  }

  lemma NewTwo(from: Schema, plan: MigrationPlan, f: Field, g: Field)
    ensures WalkNew(from, plan, [f, g])
         == WalkField(from, plan, g, WalkField(from, plan, f, Survey([], NOTHING_DECLARED)))
  {
    NewOne(from, plan, f);
    assert [f, g][..1] == [f];
  }

  lemma OldOne(to: Schema, plan: MigrationPlan, f: Field, start: Survey)
    ensures WalkOld(to, plan, [f], start) == WalkRemoved(to, plan, f, start)
  {
    assert [f][..0] == [];
  }

  lemma OldTwo(to: Schema, plan: MigrationPlan, f: Field, g: Field, start: Survey)
    ensures WalkOld(to, plan, [f, g], start) == WalkRemoved(to, plan, g, WalkRemoved(to, plan, f, start))
  {
    OldOne(to, plan, f, start);
    assert [f, g][..1] == [f];
  }

  lemma EmittedOne(from: Schema, to: Schema, plan: MigrationPlan, x: Finding)
    ensures EmittedAll(from, to, plan, [x]) == Emitted(from, to, plan, x, NO_PROGRAM)
  {
    assert [x][..0] == [];
  }

  lemma EmittedTwo(from: Schema, to: Schema, plan: MigrationPlan, x: Finding, y: Finding)
    requires Emitted(from, to, plan, x, NO_PROGRAM).Accepted?
    ensures EmittedAll(from, to, plan, [x, y])
         == Emitted(from, to, plan, y, Emitted(from, to, plan, x, NO_PROGRAM).value)
  {
    EmittedOne(from, to, plan, x);
    assert [x, y][..1] == [x];
  }

  lemma FieldOfTwo(f: Field, g: Field, name: string)
    requires f.name != g.name
    ensures FieldIn([f, g], name) == if name == f.name then Some(f) else if name == g.name then Some(g) else None
    ensures FieldIn([f], name) == if name == f.name then Some(f) else None
    ensures Names([f, g]) == {f.name, g.name} && Names([f]) == {f.name}
  {
    assert [f][1..] == [] && [f, g][1..] == [g] && [g][1..] == [];
    assert f in [f, g] && g in [f, g] && f in [f];
  }

  const OPTIONAL_X := Field("x", "Option<T>", "T", true, "Option<T>")
  const REQUIRED_X := Field("x", "T", "T", false, "T")
  const NEW_Y := Field("y", "T", "T", false, "T")
  const AFTER := Schema(2, "S", [REQUIRED_X, NEW_Y])
  const COPIER := Consumer("x", "y", false, None)

  /** The plan is accepted, not refused, and `p` is generated for it. */
  predicate Produces(from: Schema, to: Schema, plan: MigrationPlan, p: Program) {
    var d := DiffOf(from, to, plan);
    d.Accepted? && !d.value.verdict.Refused? && GenerateOf(from, to, d.value, plan) == Accepted(p)
  }

  // ----- A constant that overwrites the source of a rename -----

  const BEFORE := Schema(1, "S", [OPTIONAL_X])
  const COPYING := MigrationPlan(1, 2, [("x", "c")], [], [], [("x", "y")])
  const COPY_PROGRAM := Program([COPIER], [], [("x", "c")], [])
  const COPY_FINDINGS := [Finding("x", BecameRequired, Warning), Finding("y", Renamed("x", "y"), Warning)]

  lemma CopyingFindings()
    ensures AllFindings(BEFORE, AFTER, COPYING) == COPY_FINDINGS
    ensures WholeWalk(BEFORE, AFTER, COPYING).declared == DeclaredFields(["y"], ["x"], ["x"])
  {
    FieldOfTwo(OPTIONAL_X, NEW_Y, "x");
    FieldOfTwo(OPTIONAL_X, NEW_Y, "y");
    FieldOfTwo(REQUIRED_X, NEW_Y, "x");
    assert KindOf(BEFORE, COPYING, REQUIRED_X) == Some(BecameRequired);
    assert KindOf(BEFORE, COPYING, NEW_Y) == Some(Renamed("x", "y"));
    NewTwo(BEFORE, COPYING, REQUIRED_X, NEW_Y);
    OldOne(AFTER, COPYING, OPTIONAL_X, WalkNew(BEFORE, COPYING, AFTER.fields));
    assert |multiset(NamesInOrder(BEFORE.fields))| == 1 && |multiset(NamesInOrder(AFTER.fields))| == 2;
  }

  lemma CopyingAccepted()
    ensures DiffOf(BEFORE, AFTER, COPYING).Accepted?
            && DiffOf(BEFORE, AFTER, COPYING).value.verdict.SafeWithLazyMigration?
  {
    CopyingFindings();
    FieldOfTwo(OPTIONAL_X, NEW_Y, "x");
    FieldOfTwo(REQUIRED_X, NEW_Y, "y");
    assert COPYING.init[1..] == [] && COPYING.renamed[1..] == [];
    assert FirstStaleRename(BEFORE, AFTER, COPYING.renamed) == FirstStaleRename(BEFORE, AFTER, []);
    var allowed := ["y"] + ["x"];
    assert allowed[1] == "x";
    assert FirstStale("init", COPYING.init, allowed) == FirstStale("init", [], allowed);
    assert COPY_FINDINGS[0] in COPY_FINDINGS;
  }

  lemma CopyingEmits()
    ensures EmittedAll(BEFORE, AFTER, COPYING, COPY_FINDINGS) == Accepted(COPY_PROGRAM)
  {
    FieldOfTwo(OPTIONAL_X, NEW_Y, "x");
    FieldOfTwo(REQUIRED_X, NEW_Y, "y");
    EmittedTwo(BEFORE, AFTER, COPYING, COPY_FINDINGS[0], COPY_FINDINGS[1]);
    var assigning := Program([], [], [("x", "c")], []);
    assert Emitted(BEFORE, AFTER, COPYING, COPY_FINDINGS[0], NO_PROGRAM) == Accepted(assigning) by {
      assert [] + [("x", "c")] == [("x", "c")];
    }
    assert ConsumerForRename(BEFORE, AFTER, "x", "y", COPYING) == Accepted(COPIER);
    assert assigning.consumers + [COPIER] == [COPIER];
  }

  lemma CopyingProduces()
    ensures Produces(BEFORE, AFTER, COPYING, COPY_PROGRAM)
    ensures DiffOf(BEFORE, AFTER, COPYING).value.verdict.SafeWithLazyMigration?
  {
    CopyingAccepted();
    CopyingFindings();
    CopyingEmits();
  }

  lemma CopyingReads(mn: Meaning, v: Val, w: Val)
    requires Sensible(mn.types) && mn.types("T", v) && mn.types("T", w)
    ensures var raw: Fields := map["x" := v, "y" := w];
            BothRead(mn, BEFORE, AFTER, COPY_PROGRAM, raw) && Decode(mn.types, AFTER.fields, raw) == Some(raw)
  {
    var raw: Fields := map["x" := v, "y" := w];
    FieldOfTwo(REQUIRED_X, NEW_Y, "x");
    FieldOfTwo(OPTIONAL_X, NEW_Y, "x");
    assert FieldReads(mn.types, REQUIRED_X, raw) && FieldReads(mn.types, NEW_Y, raw);
    assert BaseIn(BEFORE.fields, "x") == "T";
    assert Decode(mn.types, AFTER.fields, raw).value == raw;
  }

  lemma CopyingVisit(mn: Meaning, v: Val, w: Val)
    requires Sensible(mn.types) && Total(mn) && Constant(mn, "x", "c") && mn.types("T", v) && mn.types("T", w)
    ensures UpVisit(mn, BEFORE, AFTER, COPY_PROGRAM, Some(Record(map["x" := v, "y" := w])))
         == Visited(Some(Record(map["x" := Initial(mn, "x", "c"), "y" := v])), Migrated)
  {
    var p, raw: Fields := COPY_PROGRAM, map["x" := v, "y" := w];
    CopyingReads(mn, v, w);
    TotalNeverTraps(mn, BEFORE, AFTER, p, raw);
    assert p.consumers[..0] == [] && p.assignRequired[..0] == [];
    var start := Scratch(raw, false);
    var constant := Set(start, "x", Initial(mn, "x", "c"));
    assert Assign(mn, [], start) == start && BeforeConsuming(mn, p, raw) == constant;
    assert Consume(mn, raw, p.consumers, constant) == Set(constant, "y", v);
    assert Set(constant, "y", v).entry == map["x" := Initial(mn, "x", "c"), "y" := v];
  }

  /** The diff says lazy migration is safe, the generator accepts, the only `init` is a constant,
      and still the second visit destroys what the first one copied: `{x: v, y: w}` becomes
      `{x: c, y: v}` and then `{x: c, y: c}`. */
  lemma ConstantsAreNotEnough(mn: Meaning, v: Val, w: Val)
    requires Sensible(mn.types) && Total(mn) && Constant(mn, "x", "c") && mn.types("T", v) && mn.types("T", w)
    requires mn.types("T", Initial(mn, "x", "c")) && v != Initial(mn, "x", "c")
    ensures Produces(BEFORE, AFTER, COPYING, COPY_PROGRAM)
    ensures DiffOf(BEFORE, AFTER, COPYING).value.verdict.SafeWithLazyMigration?
    ensures !Settles(UpVisitor(mn, BEFORE, AFTER, COPY_PROGRAM), Void, Some(Record(map["x" := v, "y" := w])))
  {
    var c := Initial(mn, "x", "c");
    CopyingProduces();
    CopyingVisit(mn, v, w);
    CopyingVisit(mn, c, v);
    var once: Fields, twice: Fields := map["x" := c, "y" := v], map["x" := c, "y" := c];
    assert once["y"] != twice["y"];
  }

  // ----- A Safe plan whose migration overwrites live values -----

  const ONLY_X := Schema(1, "S", [REQUIRED_X])
  const DUPLICATING := MigrationPlan(1, 2, [], [], [], [("x", "y")])
  const DUPLICATE_PROGRAM := Program([COPIER], [], [], [])
  const DUPLICATE_FINDINGS := [Finding("y", Renamed("x", "y"), Info)]

  lemma DuplicatingFindings()
    ensures AllFindings(ONLY_X, AFTER, DUPLICATING) == DUPLICATE_FINDINGS
    ensures WholeWalk(ONLY_X, AFTER, DUPLICATING).declared == DeclaredFields(["y"], ["x"], [])
  {
    FieldOfTwo(REQUIRED_X, NEW_Y, "x");
    FieldOfTwo(REQUIRED_X, NEW_Y, "y");
    assert KindOf(ONLY_X, DUPLICATING, REQUIRED_X) == None;
    assert KindOf(ONLY_X, DUPLICATING, NEW_Y) == Some(Renamed("x", "y"));
    NewTwo(ONLY_X, DUPLICATING, REQUIRED_X, NEW_Y);
    OldOne(AFTER, DUPLICATING, REQUIRED_X, WalkNew(ONLY_X, DUPLICATING, AFTER.fields));
    assert |multiset(NamesInOrder(ONLY_X.fields))| == 1 && |multiset(NamesInOrder(AFTER.fields))| == 2;
  }

  lemma DuplicatingProduces()
    ensures Produces(ONLY_X, AFTER, DUPLICATING, DUPLICATE_PROGRAM)
    ensures DiffOf(ONLY_X, AFTER, DUPLICATING).value.verdict.Safe?
  {
    DuplicatingFindings();
    FieldOfTwo(REQUIRED_X, NEW_Y, "x");
    FieldOfTwo(REQUIRED_X, NEW_Y, "y");
    assert DUPLICATING.renamed[1..] == [];
    assert FirstStaleRename(ONLY_X, AFTER, DUPLICATING.renamed) == FirstStaleRename(ONLY_X, AFTER, []);
    EmittedOne(ONLY_X, AFTER, DUPLICATING, DUPLICATE_FINDINGS[0]);
    assert ConsumerForRename(ONLY_X, AFTER, "x", "y", DUPLICATING) == Accepted(COPIER);
    assert NO_PROGRAM.consumers + [COPIER] == [COPIER];
  }

  lemma DuplicatingVisit(mn: Meaning, v: Val, w: Val)
    requires Sensible(mn.types) && mn.types("T", v) && mn.types("T", w)
    ensures UpVisit(mn, ONLY_X, AFTER, DUPLICATE_PROGRAM, Some(Record(map["x" := v, "y" := w])))
         == Visited(Some(Record(map["x" := v, "y" := v])), Migrated)
  {
    var p, raw: Fields := DUPLICATE_PROGRAM, map["x" := v, "y" := w];
    FieldOfTwo(REQUIRED_X, NEW_Y, "x");
    assert FieldReads(mn.types, REQUIRED_X, raw) && FieldReads(mn.types, NEW_Y, raw);
    assert BaseIn(ONLY_X.fields, "x") == "T";
    var start := Scratch(raw, false);
    assert Decode(mn.types, AFTER.fields, raw).value == raw && p.consumers[..0] == [];
    assert Consume(mn, raw, p.consumers, start) == Set(start, "y", v);
    assert Set(start, "y", v).entry == map["x" := v, "y" := v];
  }

  /** The verdict is Safe and nothing is assigned, yet an entry the running contract wrote in the
      new shape, `{x: v, y: w}`, loses its `y` to a copy of `x` — and every later visit copies
      again and reports the entry as migrated. */
  lemma SafePlanOverwritesLiveValue(mn: Meaning, v: Val, w: Val)
    requires Sensible(mn.types) && mn.types("T", v) && mn.types("T", w)
    ensures Produces(ONLY_X, AFTER, DUPLICATING, DUPLICATE_PROGRAM)
    ensures DiffOf(ONLY_X, AFTER, DUPLICATING).value.verdict.Safe?
    ensures UpVisit(mn, ONLY_X, AFTER, DUPLICATE_PROGRAM, Some(Record(map["x" := v, "y" := w])))
         == UpVisit(mn, ONLY_X, AFTER, DUPLICATE_PROGRAM, Some(Record(map["x" := v, "y" := v])))
         == Visited(Some(Record(map["x" := v, "y" := v])), Migrated)
  {
    DuplicatingProduces();
    DuplicatingVisit(mn, v, w);
    DuplicatingVisit(mn, v, v);
  }

  // ----- A retype between types that share values -----

  const RETYPED_X := Field("x", "U", "U", false, "U")
  const ONLY_U := Schema(2, "S", [RETYPED_X])
  const RETYPING := MigrationPlan(1, 2, [], [], [("x", "e")], [])
  const RECONVERTER := Consumer("x", "x", false, Some("e"))
  const RETYPE_PROGRAM := Program([RECONVERTER], [], [], [])
  const RETYPE_FINDINGS := [Finding("x", Retyped("T", "U"), Warning)]

  lemma RetypingFindings()
    ensures AllFindings(ONLY_X, ONLY_U, RETYPING) == RETYPE_FINDINGS
    ensures WholeWalk(ONLY_X, ONLY_U, RETYPING).declared == DeclaredFields([], [], ["x"])
    ensures HasConversion(RETYPING, "x")
  {
    FieldOfTwo(REQUIRED_X, NEW_Y, "x");
    FieldOfTwo(RETYPED_X, NEW_Y, "x");
    assert !IsBlank("e") by { assert !IsWhitespace("e"[0]); }
    assert KindOf(ONLY_X, RETYPING, RETYPED_X) == Some(Retyped("T", "U"));
    NewOne(ONLY_X, RETYPING, RETYPED_X);
    OldOne(ONLY_U, RETYPING, REQUIRED_X, WalkNew(ONLY_X, RETYPING, ONLY_U.fields));
    assert NamesInOrder(ONLY_X.fields) == ["x"] == NamesInOrder(ONLY_U.fields);
  }

  lemma RetypingProduces()
    ensures Produces(ONLY_X, ONLY_U, RETYPING, RETYPE_PROGRAM)
  {
    RetypingFindings();
    FieldOfTwo(REQUIRED_X, NEW_Y, "x");
    FieldOfTwo(RETYPED_X, NEW_Y, "x");
    assert RETYPING.converted[1..] == [];
    var allowed := [] + ["x"];
    assert "x" in allowed && FirstStale("converted", RETYPING.converted, ["x"]) == FirstStale("converted", [], ["x"]);
    EmittedOne(ONLY_X, ONLY_U, RETYPING, RETYPE_FINDINGS[0]);
    assert ConsumerForRetype(ONLY_X, ONLY_U, "x", RETYPING) == Accepted(RECONVERTER);
    assert NO_PROGRAM.consumers + [RECONVERTER] == [RECONVERTER];
  }

  lemma RetypingVisit(mn: Meaning, v: Val)
    requires Sensible(mn.types) && Total(mn) && Shared(mn.types, "T", "U", v)
    ensures UpVisit(mn, ONLY_X, ONLY_U, RETYPE_PROGRAM, Some(Record(map["x" := v])))
         == Visited(Some(Record(map["x" := mn.convert("x", "e", v)])), Migrated)
  {
    var p, raw: Fields := RETYPE_PROGRAM, map["x" := v];
    FieldOfTwo(REQUIRED_X, NEW_Y, "x");
    FieldOfTwo(RETYPED_X, NEW_Y, "x");
    assert FieldReads(mn.types, RETYPED_X, raw) && BaseIn(ONLY_X.fields, "x") == "T";
    TotalNeverTraps(mn, ONLY_X, ONLY_U, p, raw);
    var start := Scratch(raw, false);
    assert Decode(mn.types, ONLY_U.fields, raw).value == raw && p.consumers[..0] == [];
    assert Consume(mn, raw, p.consumers, start) == Set(start, "x", mn.convert("x", "e", v));
    assert Set(start, "x", mn.convert("x", "e", v)).entry == map["x" := mn.convert("x", "e", v)];
  }

  /** The conversion of a retyped field is said not to run again. Where the value it computes
      still reads as the old type it does: `{x: v}` becomes `{x: e(v)}` and then `{x: e(e(v))}`. */
  lemma ConversionRunsAgain(mn: Meaning, v: Val)
    requires Sensible(mn.types) && Total(mn)
    requires Shared(mn.types, "T", "U", v) && Shared(mn.types, "T", "U", mn.convert("x", "e", v))
    ensures Produces(ONLY_X, ONLY_U, RETYPING, RETYPE_PROGRAM)
    ensures var once := mn.convert("x", "e", v);
            && UpVisit(mn, ONLY_X, ONLY_U, RETYPE_PROGRAM, Some(Record(map["x" := v])))
               == Visited(Some(Record(map["x" := once])), Migrated)
            && UpVisit(mn, ONLY_X, ONLY_U, RETYPE_PROGRAM, Some(Record(map["x" := once])))
               == Visited(Some(Record(map["x" := mn.convert("x", "e", once)])), Migrated)
  {
    RetypingProduces();
    RetypingVisit(mn, v);
    RetypingVisit(mn, mn.convert("x", "e", v));
  }

  // ----- An expression that looks at a renamed field -----

  const OLD_Z := Field("z", "T", "T", false, "T")
  const OPTIONAL_Y := Field("y", "Option<T>", "T", true, "Option<T>")
  const Z_AND_Y := Schema(1, "S", [OLD_Z, OPTIONAL_Y])
  const X_AND_Y := Schema(2, "S", [OPTIONAL_X, NEW_Y])
  const LOOKING := MigrationPlan(1, 2, [("y", "e")], [], [], [("z", "x")])
  const MOVER := Consumer("z", "x", true, None)
  const LOOK_PROGRAM := Program([MOVER], [], [("y", "e")], [])
  const LOOK_FINDINGS := [Finding("x", Renamed("z", "x"), Warning), Finding("y", BecameRequired, Warning)]

  lemma LookingNew()
    ensures WalkNew(Z_AND_Y, LOOKING, X_AND_Y.fields) == Survey(LOOK_FINDINGS, DeclaredFields(["x"], ["z"], ["y"]))
  {
    FieldOfTwo(OLD_Z, OPTIONAL_Y, "x");
    FieldOfTwo(OLD_Z, OPTIONAL_Y, "y");
    FieldOfTwo(OLD_Z, OPTIONAL_Y, "z");
    assert KindOf(Z_AND_Y, LOOKING, OPTIONAL_X) == Some(Renamed("z", "x"));
    assert KindOf(Z_AND_Y, LOOKING, NEW_Y) == Some(BecameRequired);
    NewTwo(Z_AND_Y, LOOKING, OPTIONAL_X, NEW_Y);
  }

  lemma LookingFindings()
    ensures AllFindings(Z_AND_Y, X_AND_Y, LOOKING) == LOOK_FINDINGS
    ensures WholeWalk(Z_AND_Y, X_AND_Y, LOOKING).declared == DeclaredFields(["x"], ["z"], ["y"])
  {
    LookingNew();
    FieldOfTwo(OPTIONAL_X, NEW_Y, "y");
    FieldOfTwo(OPTIONAL_X, NEW_Y, "z");
    OldTwo(X_AND_Y, LOOKING, OLD_Z, OPTIONAL_Y, WalkNew(Z_AND_Y, LOOKING, X_AND_Y.fields));
    LookingIsNoReorder();
  }

  lemma LookingIsNoReorder()
    ensures Reordering(Z_AND_Y, X_AND_Y) == []
  {
    var a, b := NamesInOrder(Z_AND_Y.fields), NamesInOrder(X_AND_Y.fields);
    assert a == ["z", "y"] && b == ["x", "y"];
    assert multiset(a)["z"] == 1 && multiset(b)["z"] == 0;
  }

  lemma LookingAccepted()
    ensures DiffOf(Z_AND_Y, X_AND_Y, LOOKING).Accepted?
            && DiffOf(Z_AND_Y, X_AND_Y, LOOKING).value.verdict.SafeWithLazyMigration?
  {
    LookingFindings();
    FieldOfTwo(OLD_Z, OPTIONAL_Y, "z");
    FieldOfTwo(OPTIONAL_X, NEW_Y, "x");
    assert LOOKING.init[1..] == [] && LOOKING.renamed[1..] == [];
    assert FirstStaleRename(Z_AND_Y, X_AND_Y, LOOKING.renamed) == FirstStaleRename(Z_AND_Y, X_AND_Y, []);
    var allowed := ["x"] + ["y"];
    assert allowed[1] == "y";
    assert FirstStale("init", LOOKING.init, allowed) == FirstStale("init", [], allowed);
    assert LOOK_FINDINGS[0] in LOOK_FINDINGS;
  }

  lemma LookingEmits()
    ensures EmittedAll(Z_AND_Y, X_AND_Y, LOOKING, LOOK_FINDINGS) == Accepted(LOOK_PROGRAM)
  {
    FieldOfTwo(OLD_Z, OPTIONAL_Y, "z");
    FieldOfTwo(OPTIONAL_X, NEW_Y, "x");
    EmittedTwo(Z_AND_Y, X_AND_Y, LOOKING, LOOK_FINDINGS[0], LOOK_FINDINGS[1]);
    assert ConsumerForRename(Z_AND_Y, X_AND_Y, "z", "x", LOOKING) == Accepted(MOVER);
    assert NO_PROGRAM.consumers + [MOVER] == [MOVER];
    assert [] + [("y", "e")] == [("y", "e")];
  }

  /** The expression for `y` takes `x` if it is there and is stable in every other way. */
  ghost predicate TakesX(mn: Meaning, otherwise: Val) {
    forall e :: mn.init("y", "e", e) == if "x" in e then e["x"] else otherwise
  }

  lemma LookingReads(mn: Meaning, raw: Fields, read: Fields)
    requires Sensible(mn.types) && "y" in read && mn.types("T", read["y"])
    requires forall n :: n in read ==> n in raw && raw[n] == read[n] && (n == "x" || n == "y")
    requires "x" in raw ==> "x" in read && mn.types("T", raw["x"])
    requires "z" in raw ==> mn.types("T", raw["z"])
    ensures BothRead(mn, Z_AND_Y, X_AND_Y, LOOK_PROGRAM, raw) && Decode(mn.types, X_AND_Y.fields, raw) == Some(read)
  {
    FieldOfTwo(OLD_Z, OPTIONAL_Y, "z");
    FieldOfTwo(OPTIONAL_X, NEW_Y, "x");
    assert FieldReads(mn.types, OPTIONAL_X, raw) && FieldReads(mn.types, NEW_Y, raw);
    assert BaseIn(Z_AND_Y.fields, "z") == "T";
    assert Decode(mn.types, X_AND_Y.fields, raw).value == read;
  }

  lemma LookingAssigns(mn: Meaning, read: Fields, c: Val)
    requires TakesX(mn, c)
    ensures BeforeConsuming(mn, LOOK_PROGRAM, read)
         == Scratch(read["y" := if "x" in read then read["x"] else c], true)
  {
    var p, start := LOOK_PROGRAM, Scratch(read, false);
    assert p.assignRequired[..0] == [] && Assign(mn, [], start) == start;
  }

  lemma LookingConsumes(mn: Meaning, raw: Fields, d: Scratch)
    ensures Consume(mn, raw, LOOK_PROGRAM.consumers, d)
         == if Present(raw, "z") && "x" !in d.entry then Set(d, "x", raw["z"]) else d
  {
    assert LOOK_PROGRAM.consumers[..0] == [] && Consume(mn, raw, [], d) == d;
  }

  lemma LookingFirst(mn: Meaning, v: Val, w: Val, c: Val)
    requires Sensible(mn.types) && Total(mn) && TakesX(mn, c) && mn.types("T", v) && mn.types("T", w)
    ensures UpVisit(mn, Z_AND_Y, X_AND_Y, LOOK_PROGRAM, Some(Record(map["z" := v, "y" := w])))
         == Visited(Some(Record(map["x" := v, "y" := c])), Migrated)
  {
    var raw: Fields, read: Fields := map["z" := v, "y" := w], map["y" := w];
    LookingReads(mn, raw, read);
    TotalNeverTraps(mn, Z_AND_Y, X_AND_Y, LOOK_PROGRAM, raw);
    LookingAssigns(mn, read, c);
    LookingConsumes(mn, raw, BeforeConsuming(mn, LOOK_PROGRAM, read));
    assert read["y" := c]["x" := v] == map["x" := v, "y" := c];
  }

  lemma LookingSecond(mn: Meaning, v: Val, c: Val)
    requires Sensible(mn.types) && Total(mn) && TakesX(mn, c) && mn.types("T", v) && mn.types("T", c)
    ensures UpVisit(mn, Z_AND_Y, X_AND_Y, LOOK_PROGRAM, Some(Record(map["x" := v, "y" := c])))
         == Visited(Some(Record(map["x" := v, "y" := v])), Migrated)
  {
    var raw: Fields := map["x" := v, "y" := c];
    LookingReads(mn, raw, raw);
    TotalNeverTraps(mn, Z_AND_Y, X_AND_Y, LOOK_PROGRAM, raw);
    LookingAssigns(mn, raw, c);
    LookingConsumes(mn, raw, BeforeConsuming(mn, LOOK_PROGRAM, raw));
    assert raw["y" := v] == map["x" := v, "y" := v];
  }

  /** The documented rule — a constant, or a function of fields the assignment does not itself
      change — is not enough: `y` is computed from `x`, which another part of the migration
      fills. The old-shaped `{z: v, y: w}` becomes `{x: v, y: c}` and then `{x: v, y: v}`. */
  lemma OtherFieldsAreNotEnough(mn: Meaning, v: Val, w: Val, c: Val)
    requires Sensible(mn.types) && Total(mn) && TakesX(mn, c)
    requires mn.types("T", v) && mn.types("T", w) && mn.types("T", c) && v != c
    ensures Produces(Z_AND_Y, X_AND_Y, LOOKING, LOOK_PROGRAM)
    ensures DiffOf(Z_AND_Y, X_AND_Y, LOOKING).value.verdict.SafeWithLazyMigration?
    ensures !Settles(UpVisitor(mn, Z_AND_Y, X_AND_Y, LOOK_PROGRAM), Void, Some(Record(map["z" := v, "y" := w])))
  {
    LookingAccepted();
    LookingFindings();
    LookingEmits();
    LookingFirst(mn, v, w, c);
    LookingSecond(mn, v, c);
    var once: Fields, twice: Fields := map["x" := v, "y" := c], map["x" := v, "y" := v];
    assert once["y"] != twice["y"];
  }

  // ----- A field that is retyped and renamed away -----

  const U_AND_Y := Schema(2, "S", [RETYPED_X, NEW_Y])
  const PARTING := MigrationPlan(1, 2, [], [], [("x", "e")], [("x", "y")])
  const PART_PROGRAM := Program([RECONVERTER, COPIER], [], [], [])
  const PART_FINDINGS := [Finding("x", Retyped("T", "U"), Warning), Finding("y", Renamed("x", "y"), Info)]

  lemma PartingFindings()
    ensures AllFindings(ONLY_X, U_AND_Y, PARTING) == PART_FINDINGS
    ensures WholeWalk(ONLY_X, U_AND_Y, PARTING).declared == DeclaredFields(["y"], ["x"], ["x"])
    ensures HasConversion(PARTING, "x")
  {
    FieldOfTwo(REQUIRED_X, NEW_Y, "x");
    FieldOfTwo(REQUIRED_X, NEW_Y, "y");
    FieldOfTwo(RETYPED_X, NEW_Y, "x");
    assert !IsBlank("e") by { assert !IsWhitespace("e"[0]); }
    assert KindOf(ONLY_X, PARTING, RETYPED_X) == Some(Retyped("T", "U"));
    assert KindOf(ONLY_X, PARTING, NEW_Y) == Some(Renamed("x", "y"));
    NewTwo(ONLY_X, PARTING, RETYPED_X, NEW_Y);
    OldOne(U_AND_Y, PARTING, REQUIRED_X, WalkNew(ONLY_X, PARTING, U_AND_Y.fields));
    assert |multiset(NamesInOrder(ONLY_X.fields))| == 1 && |multiset(NamesInOrder(U_AND_Y.fields))| == 2;
  }

  lemma PartingAccepted()
    ensures DiffOf(ONLY_X, U_AND_Y, PARTING).Accepted? && !DiffOf(ONLY_X, U_AND_Y, PARTING).value.verdict.Refused?
  {
    PartingFindings();
    FieldOfTwo(REQUIRED_X, NEW_Y, "x");
    FieldOfTwo(RETYPED_X, NEW_Y, "y");
    assert PARTING.converted[1..] == [] && PARTING.renamed[1..] == [];
    assert FirstStale("converted", PARTING.converted, ["x"]) == FirstStale("converted", [], ["x"]);
    assert FirstStaleRename(ONLY_X, U_AND_Y, PARTING.renamed) == FirstStaleRename(ONLY_X, U_AND_Y, []);
  }

  lemma PartingEmits()
    ensures EmittedAll(ONLY_X, U_AND_Y, PARTING, PART_FINDINGS) == Accepted(PART_PROGRAM)
  {
    PartingFindings();
    FieldOfTwo(REQUIRED_X, NEW_Y, "x");
    FieldOfTwo(RETYPED_X, NEW_Y, "x");
    FieldOfTwo(RETYPED_X, NEW_Y, "y");
    EmittedTwo(ONLY_X, U_AND_Y, PARTING, PART_FINDINGS[0], PART_FINDINGS[1]);
    assert ConsumerForRetype(ONLY_X, U_AND_Y, "x", PARTING) == Accepted(RECONVERTER);
    assert ConsumerForRename(ONLY_X, U_AND_Y, "x", "y", PARTING) == Accepted(COPIER);
    assert NO_PROGRAM.consumers + [RECONVERTER] + [COPIER] == PART_PROGRAM.consumers;
  }

  /** The generator accepts the plan, and the struct it writes declares `x` twice. */
  lemma ShadowDeclaresTwice()
    ensures Produces(ONLY_X, U_AND_Y, PARTING, PART_PROGRAM) && !DistinctSources(PART_PROGRAM.consumers)
  {
    PartingAccepted();
    PartingFindings();
    PartingEmits();
    assert PART_PROGRAM.consumers[0].source == PART_PROGRAM.consumers[1].source;
  }
}
