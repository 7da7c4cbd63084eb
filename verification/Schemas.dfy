/** Schemas, migration plans, and the encoding a schema describes (`model.rs`, `plan.rs`, and
    the relaxed unpacking of CAP-86). */
module Schemas {
  import opened Host

  /** One field as parsed: its declared type, the type inside any `Option`, whether there was
      one, and the declared type with its spelling normalized. */
  datatype Field = Field(name: string, declared: string, base: string, optional: bool, normalized: string)

  datatype Schema = Schema(version: u32, name: string, fields: seq<Field>)

  /** `Schema::field`: the first field of that name. */
  function FieldIn(fields: seq<Field>, name: string): (f: Option<Field>)
    ensures f.Some? ==> f.value in fields && f.value.name == name
    ensures f.Some? <==> name in Names(fields)
  {
    if fields == [] then None
    else if fields[0].name == name then Some(fields[0])
    else FieldIn(fields[1..], name)
  }

  function Names(fields: seq<Field>): set<string> {
    set f | f in fields :: f.name
  }

  ghost predicate DistinctNames(fields: seq<Field>) {
    forall i, j :: 0 <= i < j < |fields| ==> fields[i].name != fields[j].name
  }

  lemma FieldInIsTheField(fields: seq<Field>, f: Field)
    requires DistinctNames(fields) && f in fields
    ensures FieldIn(fields, f.name) == Some(f)
  {
    if fields[0] != f {
      var j :| 0 <= j < |fields| && fields[j] == f;
      assert fields[1..][j - 1] == f;
      FieldInIsTheField(fields[1..], f);
    }
  }

  // ----- Plans -----

  /** A `BTreeMap<String, String>` as the sequence of its entries in iteration order. */
  type Table = seq<(string, string)>

  function Get(t: Table, key: string): (v: Option<string>)
    ensures v.Some? <==> exists i :: 0 <= i < |t| && t[i].0 == key
    ensures v.Some? ==> (key, v.value) in t
  {
    if t == [] then None
    else if t[0].0 == key then (assert t[0] == (key, t[0].1); Some(t[0].1))
    else
      var rest := Get(t[1..], key);
      assert forall i :: 0 <= i < |t| && t[i].0 == key ==> t[1..][i - 1].0 == key;
      rest
  }

  predicate Has(t: Table, key: string) {
    Get(t, key).Some?
  }

  /** Inserting replaces the value of a key that is already there. */
  function Insert(t: Table, key: string, value: string): Table {
    if t == [] then [(key, value)]
    else if t[0].0 == key then [(key, value)] + t[1..]
    else [t[0]] + Insert(t[1..], key, value)
  }

  ghost predicate DistinctKeys(t: Table) {
    forall i, j :: 0 <= i < j < |t| ==> t[i].0 != t[j].0
  }

  datatype MigrationPlan = MigrationPlan(
    from: u32, to: u32, init: Table, dropped: seq<string>, converted: Table, renamed: Table)
  {
    predicate IsEmpty() {
      init == [] && dropped == [] && converted == [] && renamed == []
    }

    function RenamedTo(name: string): Option<string> {
      Get(renamed, name)
    }

    /** The first source, in key order, whose declared target is `name`. */
    function RenamedFrom(name: string): Option<string> {
      SourceOf(renamed, name)
    }
  }

  function SourceOf(t: Table, target: string): (s: Option<string>)
    ensures s.Some? ==> (s.value, target) in t
    ensures s.None? ==> forall e :: e in t ==> e.1 != target
  {
    if t == [] then None
    else if t[0].1 == target then (assert t[0] == (t[0].0, target); Some(t[0].0))
    else SourceOf(t[1..], target)
  }

  function EmptyPlan(from: u32, to: u32): MigrationPlan {
    MigrationPlan(from, to, [], [], [], [])
  }

  /** What `str::trim` removes. */
  predicate IsWhitespace(c: char) {
    var n := c as int;
    9 <= n <= 13 || n == 0x20 || n == 0x85 || n == 0xA0 || n == 0x1680 || 0x2000 <= n <= 0x200A
    || n == 0x2028 || n == 0x2029 || n == 0x202F || n == 0x205F || n == 0x3000
  }

  predicate IsBlank(s: string) {
    forall i :: 0 <= i < |s| ==> IsWhitespace(s[i])
  }

  /** A declared conversion that says something. */
  predicate HasConversion(plan: MigrationPlan, name: string) {
    Has(plan.converted, name) && !IsBlank(Get(plan.converted, name).value)
  }

  // ----- Entries -----

  /** A struct on the ledger: a map from field symbols to values. An absent key and `Void` both
      read as `None`. */
  type Fields = map<string, Val>

  /** Which values decode as which base type. */
  type Types = (string, Val) -> bool

  /** Every type has a value, and `Void` is nobody's value. One value may read as several types, as
      a `Bytes` reads as a `BytesN<32>` of that length. */
  ghost predicate Sensible(types: Types) {
    && (forall b :: Inhabited(types, b))
    && (forall b :: !types(b, Void))
  }

  ghost predicate Inhabited(types: Types, base: string) {
    exists v :: types(base, v)
  }

  ghost predicate Shared(types: Types, b: string, c: string, v: Val) {
    types(b, v) && types(c, v)
  }

  /** Some value reads as both types. */
  ghost predicate SomeShared(types: Types, b: string, c: string) {
    exists v :: Shared(types, b, c, v)
  }

  /** Two values do. */
  ghost predicate TwoShared(types: Types, b: string, c: string) {
    exists v, w :: Shared(types, b, c, v) && Shared(types, b, c, w) && v != w
  }

  ghost predicate Within(types: Types, b: string, c: string) {
    forall v :: types(b, v) ==> types(c, v)
  }

  function Present(raw: Fields, name: string): bool {
    name in raw && raw[name] != Void
  }

  /** One field of a relaxed unpack: an absent key is `None` for an optional field and an error
      for any other. */
  function FieldReads(types: Types, f: Field, raw: Fields): bool {
    if Present(raw, f.name) then types(f.base, raw[f.name]) else f.optional
  }

  predicate Readable(types: Types, fields: seq<Field>, raw: Fields) {
    forall f :: f in fields ==> FieldReads(types, f, raw)
  }

  /** Reading an entry as a struct: keys the struct does not declare are dropped. What is read
      is also what writing the struct back stores, because `None` is never stored. */
  function Decode(types: Types, fields: seq<Field>, raw: Fields): Option<Fields> {
    if Readable(types, fields, raw)
    then Some(map k | k in raw && k in Names(fields) && Present(raw, k) :: raw[k])
    else None
  }

  /** An entry exactly as a contract declaring `fields` writes it. */
  predicate Conforms(types: Types, fields: seq<Field>, raw: Fields) {
    Decode(types, fields, raw) == Some(raw)
  }

  lemma ConformsMeans(types: Types, fields: seq<Field>, raw: Fields)
    ensures Conforms(types, fields, raw)
       <==> Readable(types, fields, raw) && forall k :: k in raw ==> k in Names(fields) && raw[k] != Void
  {
    if Readable(types, fields, raw) {
      var read := Decode(types, fields, raw).value;
      assert forall k :: k in read <==> k in raw && k in Names(fields) && raw[k] != Void;
      if forall k :: k in raw ==> k in Names(fields) && raw[k] != Void {
        assert read == raw;
      }
    }
  }

  /** Reading is idempotent: what a decode yields conforms. */
  lemma DecodeConforms(types: Types, fields: seq<Field>, raw: Fields)
    requires Readable(types, fields, raw)
    ensures Conforms(types, fields, Decode(types, fields, raw).value)
  {
    var read := Decode(types, fields, raw).value;
    forall f | f in fields ensures FieldReads(types, f, read) {
      assert FieldReads(types, f, raw);
      assert f.name in Names(fields);
    }
    ConformsMeans(types, fields, read);
  }
}
