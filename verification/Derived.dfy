/** The derived migration (`soroban-migrate-macros`): what the derive accepts, the `up` and `down`
    it expands to, and the laws those satisfy. */
module Derived {
  import opened Host
  import opened Schemas
  import opened Generated
  import opened Storage

  // ----- The expansion -----

  /** The parsed `#[migration(..)]` attribute. `refusals` holds the directives it recognises but
      cannot handle. */
  datatype Attributes = Attributes(
    from: u32, to: u32, shape: Option<seq<Field>>, init: seq<(string, string)>,
    dropped: seq<string>, reversible: bool, refusals: seq<string>)

  datatype DeriveError = ConsumesOldKeys | SkipsVersions | NoEntryType | NothingDeclared

  /** One guarded statement of an emitted body. */
  datatype Statement = FillWhenNone(field: string, expr: string) | ClearWhenSome(field: string)

  datatype Expansion = Expanded(up: seq<Statement>, down: seq<Statement>) | NotExpanded(error: DeriveError)

  function Fills(init: seq<(string, string)>): seq<Statement> {
    seq(|init|, i requires 0 <= i < |init| => FillWhenNone(init[i].0, init[i].1))
  }

  function Clears(init: seq<(string, string)>): seq<Statement> {
    seq(|init|, i requires 0 <= i < |init| => ClearWhenSome(init[i].0))
  }

  function ExpandOf(a: Attributes): Expansion {
    if a.refusals != [] then NotExpanded(ConsumesOldKeys)
    else if a.to != a.from + 1 then NotExpanded(SkipsVersions)
    else if a.shape.None? then NotExpanded(NoEntryType)
    else if a.init == [] && a.dropped == [] then NotExpanded(NothingDeclared)
    else Expanded(Fills(a.init), if a.reversible then Clears(a.init) else [])
  }

  method Expand(a: Attributes) returns (r: Expansion)
    ensures r == ExpandOf(a)
  {
    if a.refusals != [] {
      return NotExpanded(ConsumesOldKeys);
    }
    if a.to != a.from + 1 {
      return NotExpanded(SkipsVersions);
    }
    if a.shape.None? {
      return NotExpanded(NoEntryType);
    }
    var up: seq<Statement>, down: seq<Statement> := [], [];
    for i := 0 to |a.init|
      invariant up == Fills(a.init[..i]) && down == Clears(a.init[..i])
    {
      up := up + [FillWhenNone(a.init[i].0, a.init[i].1)];
      down := down + [ClearWhenSome(a.init[i].0)];
    }
    assert a.init[..|a.init|] == a.init;
    if a.init == [] && a.dropped == [] {
      return NotExpanded(NothingDeclared);
    }
    r := Expanded(up, if a.reversible then down else []);
  }

  // ----- Its meaning -----

  /** What an `init` expression computes from the entry so far; `None` is a trap. */
  type Eval = (string, Fields) -> Option<Val>

  function Execute(eval: Eval, body: seq<Statement>, d: Scratch): Option<Scratch> {
    if body == [] then Some(d) else
      var front := Execute(eval, body[..|body| - 1], d);
      if front.None? then None else ExecuteOne(eval, body[|body| - 1], front.value)
  }

  function ExecuteOne(eval: Eval, s: Statement, d: Scratch): Option<Scratch> {
    match s
    case FillWhenNone(field, expr) =>
      if field in d.entry then Some(d)
      else if eval(expr, d.entry).None? then None
      else Some(Set(d, field, eval(expr, d.entry).value))
    case ClearWhenSome(field) =>
      if field in d.entry then Some(Scratch(d.entry - {field}, true)) else Some(d)
  }

  /** The skeleton `up` and `down` share, around either body. */
  function VisitOf(types: Types, fields: seq<Field>, eval: Eval, body: seq<Statement>, entry: Option<Val>): Visit {
    if entry.None? || !entry.value.Record? || !Readable(types, fields, entry.value.fields) then Visited(entry, Skipped)
    else
      var after := Execute(eval, body, Scratch(Decode(types, fields, entry.value.fields).value, false));
      if after.None? then Refused(Trap)
      else if after.value.changed then Visited(Some(Record(after.value.entry)), Migrated)
      else Visited(entry, AlreadyCurrent)
  }

  lemma {:induction false} TrapStops(eval: Eval, body: seq<Statement>, d: Scratch, n: nat)
    requires n <= |body| && Execute(eval, body[..n], d).None?
    ensures Execute(eval, body, d).None?
  {
    if n == |body| {
      assert body[..n] == body;
    } else {
      assert body[..|body| - 1][..n] == body[..n];
      TrapStops(eval, body[..|body| - 1], d, n);
    }
  }

  /** The emitted code on storage. A trap leaves it for the host to revert. */
  method Visiting(env: Env, types: Types, fields: seq<Field>, eval: Eval, body: seq<Statement>, key: Val)
    returns (r: Result<EntryOutcome>)
    modifies env
    ensures match VisitOf(types, fields, eval, body, Lookup(old(env.entries), key))
            case Visited(entry, outcome) => r == Ok(outcome) && Lookup(env.entries, key) == entry
            case Refused(error) => r == Err(error) && env.entries == old(env.entries)
    ensures env.View() == old(env.View()).(entries := env.entries)
    ensures forall k :: k != key ==> Lookup(env.entries, k) == Lookup(old(env.entries), k)
  {
    if key !in env.entries {
      return Ok(Skipped);
    }
    var raw := env.entries[key];
    if !raw.Record? || !Readable(types, fields, raw.fields) {
      return Ok(Skipped);
    }
    var entry := Decode(types, fields, raw.fields).value;
    var changed := false;
    ghost var start := Scratch(entry, false);
    for i := 0 to |body|
      invariant Execute(eval, body[..i], start) == Some(Scratch(entry, changed))
      invariant env.View() == old(env.View())
    {
      assert body[..i + 1][..i] == body[..i];
      match body[i] {
        case FillWhenNone(field, expr) =>
          if field !in entry {
            var value := eval(expr, entry);
            if value.None? {
              TrapStops(eval, body, start, i + 1);
              return Err(Trap);
            }
            entry, changed := entry[field := value.value], true;
          }
        case ClearWhenSome(field) =>
          if field in entry {
            entry, changed := entry - {field}, true;
          }
      }
    }
    assert body[..|body|] == body;
    if !changed {
      return Ok(AlreadyCurrent);
    }
    env.entries := env.entries[key := Record(entry)];
    r := Ok(Migrated);
  }

  // ----- The expansion compiles -----

  predicate IsInit(init: seq<(string, string)>, name: string) {
    exists i :: 0 <= i < |init| && init[i].0 == name
  }

  /** `is_none()` and `Some(..)` demand `Option` fields, and each expression has the base type of
      the field it fills. */
  ghost predicate Compiles(types: Types, fields: seq<Field>, eval: Eval, init: seq<(string, string)>) {
    forall a :: a in init ==> OptionalIn(fields, a.0) && Computes(types, fields, eval, a)
  }

  ghost predicate Computes(types: Types, fields: seq<Field>, eval: Eval, a: (string, string)) {
    forall e :: Typed(types, fields, a.0, eval(a.1, e))
  }

  predicate OptionalIn(fields: seq<Field>, name: string) {
    FieldIn(fields, name).Some? && FieldIn(fields, name).value.optional
  }

  predicate Typed(types: Types, fields: seq<Field>, name: string, v: Option<Val>) {
    v.Some? ==> types(BaseIn(fields, name), v.value)
  }

  // ----- What the bodies do -----

  /** `after` is `before` with every `init` field populated and nothing populated touched. */
  ghost predicate FilledUp(types: Types, fields: seq<Field>, init: seq<(string, string)>, before: Scratch,
                            after: Scratch) {
    && (forall n :: n in before.entry ==> n in after.entry && after.entry[n] == before.entry[n])
    && (forall n :: n in after.entry && n !in before.entry ==>
         IsInit(init, n) && OptionalIn(fields, n) && types(BaseIn(fields, n), after.entry[n]))
    && (forall n :: IsInit(init, n) ==> n in after.entry)
    && after.changed == (before.changed || exists n :: IsInit(init, n) && n !in before.entry)
  }

  lemma IsInitFront(init: seq<(string, string)>, n: string)
    requires init != []
    ensures IsInit(init, n) <==> IsInit(init[..|init| - 1], n) || n == init[|init| - 1].0
  {
    if IsInit(init, n) && n != init[|init| - 1].0 {
      var i :| 0 <= i < |init| && init[i].0 == n;
      assert init[..|init| - 1][i].0 == n;
    }
  }

  lemma {:induction false} FillsFill(types: Types, fields: seq<Field>, eval: Eval, init: seq<(string, string)>,
                                     d: Scratch)
    requires Compiles(types, fields, eval, init) && Execute(eval, Fills(init), d).Some?
    ensures FilledUp(types, fields, init, d, Execute(eval, Fills(init), d).value)
  {
    if init != [] {
      var front, last := init[..|init| - 1], init[|init| - 1];
      assert Fills(init)[..|init| - 1] == Fills(front);
      assert forall a :: a in front ==> a in init;
      FillsFill(types, fields, eval, front, d);
      forall n ensures IsInit(init, n) <==> IsInit(front, n) || n == last.0 { IsInitFront(init, n); }
      var half := Execute(eval, Fills(front), d).value;
      assert last in init && Computes(types, fields, eval, last);
      assert Typed(types, fields, last.0, eval(last.1, half.entry));
      FillOne(types, fields, init, last, d, half, Execute(eval, Fills(init), d).value);
    }
  }

  lemma FillOne(types: Types, fields: seq<Field>, init: seq<(string, string)>, last: (string, string), d: Scratch,
                half: Scratch, after: Scratch)
    requires init != [] && last == init[|init| - 1] && OptionalIn(fields, last.0)
    requires forall n :: IsInit(init, n) <==> IsInit(init[..|init| - 1], n) || n == last.0
    requires FilledUp(types, fields, init[..|init| - 1], d, half)
    requires last.0 in after.entry
    requires after == half
             || (after == Set(half, last.0, after.entry[last.0]) && types(BaseIn(fields, last.0), after.entry[last.0]))
    requires (after == half <==> last.0 in half.entry)
    ensures FilledUp(types, fields, init, d, after)
  {}

  lemma {:induction false} ClearsClear(eval: Eval, init: seq<(string, string)>, d: Scratch)
    ensures var after := Execute(eval, Clears(init), d);
            && after.Some?
            && (forall n :: n in after.value.entry <==> n in d.entry && !IsInit(init, n))
            && (forall n :: n in after.value.entry ==> after.value.entry[n] == d.entry[n])
            && (after.value.changed <==> d.changed || exists n :: IsInit(init, n) && n in d.entry)
  {
    if init != [] {
      var front, last := init[..|init| - 1], init[|init| - 1];
      assert Clears(init)[..|init| - 1] == Clears(front);
      ClearsClear(eval, front, d);
      forall n ensures IsInit(init, n) <==> IsInit(front, n) || n == last.0 { IsInitFront(init, n); }
    }
  }
}
