/** What the generated `up` does to an entry (the code `codegen.rs` emits), and what that means
    for the entries a migration was written to move. */
module Generated {
  import opened Host
  import opened Schemas
  import opened Codegen
  import opened Storage

  /** What the author's texts compute, looked up with the field they are written for: an `init`
      expression from the entry as it stands when it runs, a `converted` expression from the old
      value. `panics` and `rejects` say when they trap instead. */
  datatype Meaning = Meaning(
    types: Types,
    init: (string, string, Fields) -> Val, convert: (string, string, Val) -> Val,
    panics: (string, string, Fields) -> bool, rejects: (string, string, Val) -> bool)

  /** Nothing the author wrote ever traps. */
  ghost predicate Total(mn: Meaning) {
    (forall n, expr, e :: !mn.panics(n, expr, e)) && forall n, expr, v :: !mn.rejects(n, expr, v)
  }

  /** The expression written for `n` does not look at the entry. */
  ghost predicate Constant(mn: Meaning, n: string, expr: string) {
    forall e :: mn.init(n, expr, e) == Initial(mn, n, expr)
  }

  function Initial(mn: Meaning, n: string, expr: string): Val {
    mn.init(n, expr, map[])
  }

  function BaseIn(fields: seq<Field>, name: string): string {
    if FieldIn(fields, name).Some? then FieldIn(fields, name).value.base else ""
  }

  /** The tolerant shadow struct: every consumed key as an `Option` of its old type. */
  predicate ShadowReads(types: Types, from: Schema, consumers: seq<Consumer>, raw: Fields) {
    forall c :: c in consumers ==> Present(raw, c.source) ==> types(BaseIn(from.fields, c.source), raw[c.source])
  }

  predicate HasWork(p: Program) {
    p.assignOptional != [] || p.assignRequired != [] || p.consumers != []
  }

  /** The decoded entry being rewritten, and the `changed` flag. */
  datatype Scratch = Scratch(entry: Fields, changed: bool)

  function Set(d: Scratch, name: string, v: Val): Scratch {
    Scratch(d.entry[name := v], true)
  }

  function Fill(mn: Meaning, t: Table, d: Scratch): Scratch {
    if t == [] then d else
      var front, last := Fill(mn, t[..|t| - 1], d), t[|t| - 1];
      if last.0 in front.entry then front else Set(front, last.0, mn.init(last.0, last.1, front.entry))
  }

  function Assign(mn: Meaning, t: Table, d: Scratch): Scratch {
    if t == [] then d else
      var front, last := Assign(mn, t[..|t| - 1], d), t[|t| - 1];
      Set(front, last.0, mn.init(last.0, last.1, front.entry))
  }

  function Converted(mn: Meaning, c: Consumer, v: Val): Val {
    if c.conversion.Some? then mn.convert(c.target, c.conversion.value, v) else v
  }

  function Consume(mn: Meaning, raw: Fields, cs: seq<Consumer>, d: Scratch): Scratch {
    if cs == [] then d else
      var front, c := Consume(mn, raw, cs[..|cs| - 1], d), cs[|cs| - 1];
      if Present(raw, c.source) && !(c.targetOptional && c.target in front.entry)
      then Set(front, c.target, Converted(mn, c, raw[c.source]))
      else front
  }

  /** The entry as the consumers find it. */
  function BeforeConsuming(mn: Meaning, p: Program, read: Fields): Scratch {
    Assign(mn, p.assignRequired, Fill(mn, p.assignOptional, Scratch(read, false)))
  }

  /** The assignments of the emitted body, in the order they are emitted, if none traps. */
  function Rewritten(mn: Meaning, p: Program, raw: Fields, read: Fields): Scratch {
    Consume(mn, raw, p.consumers, BeforeConsuming(mn, p, read))
  }

  // ----- When it traps -----

  predicate FillPanics(mn: Meaning, t: Table, d: Scratch, i: nat)
    requires i < |t|
  {
    var e := Fill(mn, t[..i], d).entry;
    t[i].0 !in e && mn.panics(t[i].0, t[i].1, e)
  }

  predicate AssignPanics(mn: Meaning, t: Table, d: Scratch, i: nat)
    requires i < |t|
  {
    mn.panics(t[i].0, t[i].1, Assign(mn, t[..i], d).entry)
  }

  predicate ConsumePanics(mn: Meaning, raw: Fields, cs: seq<Consumer>, d: Scratch, i: nat)
    requires i < |cs|
  {
    var c := cs[i];
    && Present(raw, c.source) && !(c.targetOptional && c.target in Consume(mn, raw, cs[..i], d).entry)
    && Rejects(mn, c, raw[c.source])
  }

  predicate Rejects(mn: Meaning, c: Consumer, v: Val) {
    c.conversion.Some? && mn.rejects(c.target, c.conversion.value, v)
  }

  /** Some expression of the body traps. */
  predicate Panics(mn: Meaning, p: Program, raw: Fields, read: Fields) {
    var start := Scratch(read, false);
    var filled := Fill(mn, p.assignOptional, start);
    || (exists i :: 0 <= i < |p.assignOptional| && FillPanics(mn, p.assignOptional, start, i))
    || (exists i :: 0 <= i < |p.assignRequired| && AssignPanics(mn, p.assignRequired, filled, i))
    || (exists i :: 0 <= i < |p.consumers|
                    && ConsumePanics(mn, raw, p.consumers, BeforeConsuming(mn, p, read), i))
  }

  // ----- The visit -----

  /** Both reads of the emitted `up` succeed. */
  predicate BothRead(mn: Meaning, from: Schema, to: Schema, p: Program, raw: Fields) {
    Readable(mn.types, to.fields, raw) && ShadowReads(mn.types, from, p.consumers, raw)
  }

  /** The emitted `up` at a stored struct, if it does not trap. */
  function UpStruct(mn: Meaning, from: Schema, to: Schema, p: Program, raw: Fields): (Fields, EntryOutcome) {
    if !HasWork(p) then (raw, AlreadyCurrent)
    else if !BothRead(mn, from, to, p, raw) then (raw, Skipped)
    else
      var d := Rewritten(mn, p, raw, Decode(mn.types, to.fields, raw).value);
      if d.changed then (d.entry, Migrated) else (raw, AlreadyCurrent)
  }

  predicate UpTraps(mn: Meaning, from: Schema, to: Schema, p: Program, raw: Fields) {
    BothRead(mn, from, to, p, raw) && Panics(mn, p, raw, Decode(mn.types, to.fields, raw).value)
  }

  /** The emitted `up` as the executor calls it. */
  function UpVisit(mn: Meaning, from: Schema, to: Schema, p: Program, entry: Option<Val>): Visit {
    match entry
    case None => Visited(None, Skipped)
    case Some(Record(raw)) =>
      if UpTraps(mn, from, to, p, raw) then Refused(Trap) else
        var (after, outcome) := UpStruct(mn, from, to, p, raw);
        Visited(Some(Record(after)), outcome)
    case Some(_) => Visited(entry, if HasWork(p) then Skipped else AlreadyCurrent)
  }

  function UpVisitor(mn: Meaning, from: Schema, to: Schema, p: Program): Visitor {
    (key: Val, entry: Option<Val>) => UpVisit(mn, from, to, p, entry)
  }

  lemma TotalNeverTraps(mn: Meaning, from: Schema, to: Schema, p: Program, raw: Fields)
    requires Total(mn)
    ensures !UpTraps(mn, from, to, p, raw)
  {}

  /** The emitted body on storage, field by field. A trap leaves it for the host to revert. */
  method RunUp(env: Env, mn: Meaning, from: Schema, to: Schema, p: Program, key: Val)
    returns (r: Result<EntryOutcome>)
    modifies env
    ensures match UpVisit(mn, from, to, p, Lookup(old(env.entries), key))
            case Visited(entry, outcome) => r == Ok(outcome) && Lookup(env.entries, key) == entry
            case Refused(error) => r == Err(error) && env.entries == old(env.entries)
    ensures env.View() == old(env.View()).(entries := env.entries)
    ensures forall k :: k != key ==> Lookup(env.entries, k) == Lookup(old(env.entries), k)
  {
    if key !in env.entries {
      return Ok(Skipped);
    }
    if !HasWork(p) {
      return Ok(AlreadyCurrent);
    }
    if !env.entries[key].Record? {
      return Ok(Skipped);
    }
    var raw := env.entries[key].fields;
    if !BothRead(mn, from, to, p, raw) {
      return Ok(Skipped);
    }
    var body := RunBody(mn, p, raw, Decode(mn.types, to.fields, raw).value);
    if body.None? {
      return Err(Trap);
    }
    if !body.value.changed {
      return Ok(AlreadyCurrent);
    }
    env.entries := env.entries[key := Record(body.value.entry)];
    r := Ok(Migrated);
  }

  /** The three groups of assignments, in order; `None` is a trap. */
  method RunBody(mn: Meaning, p: Program, raw: Fields, read: Fields) returns (r: Option<Scratch>)
    ensures r == if Panics(mn, p, raw, read) then None else Some(Rewritten(mn, p, raw, read))
  {
    var d := RunFills(mn, p.assignOptional, Scratch(read, false));
    if d.None? {
      return None;
    }
    d := RunAssigns(mn, p.assignRequired, d.value);
    if d.None? {
      return None;
    }
    r := RunConsumers(mn, raw, p.consumers, d.value);
  }

  method RunFills(mn: Meaning, t: Table, d: Scratch) returns (r: Option<Scratch>)
    ensures r.None? <==> exists i :: 0 <= i < |t| && FillPanics(mn, t, d, i)
    ensures r.Some? ==> r.value == Fill(mn, t, d)
  {
    var entry, changed := d.entry, d.changed;
    for i := 0 to |t|
      invariant Scratch(entry, changed) == Fill(mn, t[..i], d)
      invariant forall j :: 0 <= j < i ==> !FillPanics(mn, t, d, j)
    {
      var (field, expr) := t[i];
      assert t[..i + 1][..i] == t[..i];
      if field !in entry {
        if mn.panics(field, expr, entry) {
          assert FillPanics(mn, t, d, i);
          return None;
        }
        entry, changed := entry[field := mn.init(field, expr, entry)], true;
      }
    }
    assert t[..|t|] == t;
    r := Some(Scratch(entry, changed));
  }

  method RunAssigns(mn: Meaning, t: Table, d: Scratch) returns (r: Option<Scratch>)
    ensures r.None? <==> exists i :: 0 <= i < |t| && AssignPanics(mn, t, d, i)
    ensures r.Some? ==> r.value == Assign(mn, t, d)
  {
    var entry, changed := d.entry, d.changed;
    for i := 0 to |t|
      invariant Scratch(entry, changed) == Assign(mn, t[..i], d)
      invariant forall j :: 0 <= j < i ==> !AssignPanics(mn, t, d, j)
    {
      var (field, expr) := t[i];
      assert t[..i + 1][..i] == t[..i];
      if mn.panics(field, expr, entry) {
        assert AssignPanics(mn, t, d, i);
        return None;
      }
      entry, changed := entry[field := mn.init(field, expr, entry)], true;
    }
    assert t[..|t|] == t;
    r := Some(Scratch(entry, changed));
  }

  method RunConsumers(mn: Meaning, raw: Fields, cs: seq<Consumer>, d: Scratch) returns (r: Option<Scratch>)
    ensures r.None? <==> exists i :: 0 <= i < |cs| && ConsumePanics(mn, raw, cs, d, i)
    ensures r.Some? ==> r.value == Consume(mn, raw, cs, d)
  {
    var entry, changed := d.entry, d.changed;
    for i := 0 to |cs|
      invariant Scratch(entry, changed) == Consume(mn, raw, cs[..i], d)
      invariant forall j :: 0 <= j < i ==> !ConsumePanics(mn, raw, cs, d, j)
    {
      var c := cs[i];
      assert cs[..i + 1][..i] == cs[..i];
      if Present(raw, c.source) && !(c.targetOptional && c.target in entry) {
        if Rejects(mn, c, raw[c.source]) {
          assert ConsumePanics(mn, raw, cs, d, i);
          return None;
        }
        entry, changed := entry[c.target := Converted(mn, c, raw[c.source])], true;
      }
    }
    assert cs[..|cs|] == cs;
    r := Some(Scratch(entry, changed));
  }

  // ----- The shape of a generated program -----

  ghost predicate ShapedAssigns(from: Schema, to: Schema, p: Program) {
    && (forall a :: a in p.assignOptional ==>
          a.0 in Names(to.fields) && FieldIn(to.fields, a.0).value.optional && a.0 !in Names(from.fields))
    && (forall a :: a in p.assignRequired ==>
          && a.0 in Names(to.fields) && !FieldIn(to.fields, a.0).value.optional
          && (a.0 in Names(from.fields) ==> BaseIn(from.fields, a.0) == BaseIn(to.fields, a.0)))
    && (forall a, b :: a in p.assignOptional && b in p.assignOptional && a.0 == b.0 ==> a == b)
    && DistinctKeys(p.assignRequired)
  }

  ghost predicate ShapedConsumer(from: Schema, to: Schema, c: Consumer) {
    && c.source in Names(from.fields) && c.target in Names(to.fields)
    && c.targetOptional == FieldIn(to.fields, c.target).value.optional
    && (c.conversion.None? ==> BaseIn(from.fields, c.source) == BaseIn(to.fields, c.target))
    && (c.target !in Names(from.fields)
        || (c.target == c.source && BaseIn(from.fields, c.source) != BaseIn(to.fields, c.target)))
  }

  ghost predicate ShapedConsumers(from: Schema, to: Schema, p: Program) {
    && (forall c :: c in p.consumers ==> ShapedConsumer(from, to, c))
    && (forall c, d :: c in p.consumers && d in p.consumers && c.target == d.target ==> c == d)
    && (forall c, a :: c in p.consumers && a in p.assignOptional ==> c.target != a.0)
    && (forall c, a :: c in p.consumers && a in p.assignRequired ==> c.target != a.0)
  }

  ghost predicate Shaped(from: Schema, to: Schema, p: Program) {
    ShapedAssigns(from, to, p) && ShapedConsumers(from, to, p)
  }

  /** The generated file type-checks: what expressions and conversions compute has the type of its field. */
  ghost predicate WellTyped(mn: Meaning, from: Schema, to: Schema, p: Program) {
    && (forall a, e :: a in p.assignOptional || a in p.assignRequired ==>
          mn.types(BaseIn(to.fields, a.0), mn.init(a.0, a.1, e)))
    && (forall c, v :: c in p.consumers && mn.types(BaseIn(from.fields, c.source), v)
                       ==> mn.types(BaseIn(to.fields, c.target), Converted(mn, c, v)))
  }
}
