/** What one visit of the generated migration leaves in each field: it never makes a readable entry
    unreadable nor rescues an unreadable one, and which entries it leaves as they are. */
module Rewrites {
  import opened Host
  import opened Schemas
  import opened Codegen
  import opened Generated

  function At(e: Fields, n: string): Option<Val> {
    if n in e then Some(e[n]) else None
  }

  // ----- The assignments, field by field -----

  ghost predicate Consistent(t: Table) {
    forall a, b :: a in t && b in t && a.0 == b.0 ==> a == b
  }

  lemma GetConsistent(t: Table, a: (string, string))
    requires Consistent(t) && a in t
    ensures Get(t, a.0) == Some(a.1)
  {
    var i :| 0 <= i < |t| && t[i] == a;
    assert Get(t, a.0).Some?;
    assert (a.0, Get(t, a.0).value) in t;
  }

  lemma GetFront(t: Table, n: string)
    requires Consistent(t) && t != []
    ensures Get(t, n) == if n == t[|t| - 1].0 then Some(t[|t| - 1].1) else Get(t[..|t| - 1], n)
    ensures Consistent(t[..|t| - 1])
  {
    var front, last := t[..|t| - 1], t[|t| - 1];
    assert t == front + [last];
    if n == last.0 {
      GetConsistent(t, last);
    } else if Get(t, n).Some? {
      assert (n, Get(t, n).value) in front;
      GetConsistent(front, (n, Get(t, n).value));
    } else if Get(front, n).Some? {
      GetConsistent(t, (n, Get(front, n).value));
    }
  }

  lemma {:induction false} FillUnchanged(mn: Meaning, t: Table, d: Scratch)
    ensures !Fill(mn, t, d).changed ==> Fill(mn, t, d) == d
  {
    if t != [] {
      FillUnchanged(mn, t[..|t| - 1], d);
    }
  }

  /** A fill keeps what is there and populates exactly the fields of its table besides. */
  lemma {:induction false} FillAt(mn: Meaning, t: Table, d: Scratch, n: string)
    requires Consistent(t)
    ensures At(Fill(mn, t, d).entry, n).Some? <==> n in d.entry || Has(t, n)
    ensures n in d.entry ==> At(Fill(mn, t, d).entry, n) == Some(d.entry[n])
    ensures n !in d.entry && Has(t, n) && Constant(mn, n, Get(t, n).value) ==>
              At(Fill(mn, t, d).entry, n) == Some(Initial(mn, n, Get(t, n).value))
  {
    if t != [] {
      var front, last := t[..|t| - 1], t[|t| - 1];
      GetFront(t, n);
      FillAt(mn, front, d, n);
      if last.0 == n && Has(front, n) {
        FillStays(front, last, t);
      }
    }
  }

  /** A table that already filled this field holds the same text for it. */
  lemma FillStays(front: Table, last: (string, string), t: Table)
    requires t == front + [last] && Consistent(t) && Has(front, last.0)
    ensures Get(front, last.0) == Some(last.1)
  {
    assert (last.0, Get(front, last.0).value) in t && last in t;
  }

  /** An assignment touches the fields of its table and no other. */
  lemma {:induction false} AssignAt(mn: Meaning, t: Table, d: Scratch, n: string)
    ensures At(Assign(mn, t, d).entry, n).Some? <==> n in d.entry || Has(t, n)
    ensures !Has(t, n) ==> At(Assign(mn, t, d).entry, n) == At(d.entry, n)
    ensures t != [] ==> Assign(mn, t, d).changed
  {
    if t != [] {
      HasFront(t, n);
      AssignAt(mn, t[..|t| - 1], d, n);
    }
  }

  lemma HasFront(t: Table, n: string)
    requires t != []
    ensures Has(t, n) <==> Has(t[..|t| - 1], n) || n == t[|t| - 1].0
  {
    var front, last := t[..|t| - 1], t[|t| - 1];
    assert t == front + [last];
    if Has(t, n) && n != last.0 {
      var i :| 0 <= i < |t| && t[i].0 == n;
      assert front[i].0 == n;
    }
    if Has(front, n) {
      var i :| 0 <= i < |front| && front[i].0 == n;
      assert t[i].0 == n;
    }
  }

  /** A field not assigned from index `i` on is settled by then. */
  lemma {:induction false} AssignKeeps(mn: Meaning, t: Table, d: Scratch, i: nat, n: string)
    requires i <= |t| && !Has(t[i..], n)
    ensures At(Assign(mn, t, d).entry, n) == At(Assign(mn, t[..i], d).entry, n)
    decreases |t|
  {
    if i == |t| {
      assert t[..i] == t;
    } else {
      var front := t[..|t| - 1];
      assert front[i..] == t[i..][..|t| - i - 1] && front[..i] == t[..i];
      HasFront(t[i..], n);
      AssignKeeps(mn, front, d, i, n);
    }
  }

  /** An assigned field holds what its expression computed from the entry as it stood. */
  lemma AssignIndex(mn: Meaning, t: Table, d: Scratch, i: nat)
    requires DistinctKeys(t) && i < |t|
    ensures At(Assign(mn, t, d).entry, t[i].0) == Some(mn.init(t[i].0, t[i].1, Assign(mn, t[..i], d).entry))
  {
    AssignKeeps(mn, t, d, i + 1, t[i].0);
    assert t[..i + 1][..i] == t[..i];
  }

  lemma DistinctIsConsistent(t: Table)
    requires DistinctKeys(t)
    ensures Consistent(t)
  {
    forall a, b | a in t && b in t && a.0 == b.0 ensures a == b {
      var i :| 0 <= i < |t| && t[i] == a;
      var j :| 0 <= j < |t| && t[j] == b;
    }
  }

  /** The consumer that writes `n`, if any. */
  function WriterOf(cs: seq<Consumer>, n: string): (c: Option<Consumer>)
    ensures c.Some? ==> c.value in cs && c.value.target == n
    ensures c.None? ==> forall d :: d in cs ==> d.target != n
  {
    if cs == [] then None
    else if cs[|cs| - 1].target == n then Some(cs[|cs| - 1])
    else
      assert cs == cs[..|cs| - 1] + [cs[|cs| - 1]];
      WriterOf(cs[..|cs| - 1], n)
  }

  ghost predicate OneWriter(cs: seq<Consumer>) {
    forall c, d :: c in cs && d in cs && c.target == d.target ==> c == d
  }

  /** Consumer `c` fires on a draft whose target reads `current`. */
  predicate Fires(raw: Fields, c: Consumer, current: Option<Val>) {
    Present(raw, c.source) && !(c.targetOptional && current.Some?)
  }

  /** What a target that reads `current` reads after its writer. */
  function Written(mn: Meaning, raw: Fields, writer: Option<Consumer>, current: Option<Val>): Option<Val> {
    if writer.Some? && Fires(raw, writer.value, current)
    then Some(Converted(mn, writer.value, raw[writer.value.source]))
    else current
  }

  lemma {:induction false} ConsumeAt(mn: Meaning, raw: Fields, cs: seq<Consumer>, d: Scratch, n: string)
    requires OneWriter(cs)
    ensures At(Consume(mn, raw, cs, d).entry, n) == Written(mn, raw, WriterOf(cs, n), At(d.entry, n))
    ensures !Consume(mn, raw, cs, d).changed ==> Consume(mn, raw, cs, d) == d
  {
    if cs != [] {
      var front, last := cs[..|cs| - 1], cs[|cs| - 1];
      assert cs == front + [last];
      ConsumeAt(mn, raw, front, d, n);
      if last.target == n && WriterOf(front, n).Some? {
        assert WriterOf(front, n).value == last;
      }
    }
  }

  /** What every field of a visited entry reads, in one expression, where the `init` expression
      that decides it is a constant. */
  function Final(mn: Meaning, p: Program, raw: Fields, read: Fields, n: string): Option<Val> {
    var c := WriterOf(p.consumers, n);
    if c.Some? then Written(mn, raw, c, At(read, n))
    else if Has(p.assignRequired, n) then Some(Initial(mn, n, Get(p.assignRequired, n).value))
    else if n in read then Some(read[n])
    else if Has(p.assignOptional, n) then Some(Initial(mn, n, Get(p.assignOptional, n).value))
    else None
  }

  /** An `init` expression decides the field. */
  predicate Initialized(p: Program, read: Fields, n: string) {
    WriterOf(p.consumers, n).None? && (Has(p.assignRequired, n) || (n !in read && Has(p.assignOptional, n)))
  }

  /** Where it does, which. */
  function Expression(p: Program, n: string): string {
    if Has(p.assignRequired, n) then Get(p.assignRequired, n).value
    else if Has(p.assignOptional, n) then Get(p.assignOptional, n).value
    else ""
  }

  lemma WriterAlone(from: Schema, to: Schema, p: Program, n: string)
    requires Shaped(from, to, p) && WriterOf(p.consumers, n).Some?
    ensures !Has(p.assignOptional, n) && !Has(p.assignRequired, n)
  {
    assert forall a :: a in p.assignOptional || a in p.assignRequired ==> a.0 != n;
  }

  lemma BeforeConsumingIs(mn: Meaning, from: Schema, to: Schema, p: Program, read: Fields, n: string)
    requires Shaped(from, to, p)
    ensures var e := BeforeConsuming(mn, p, read).entry;
            && (At(e, n).Some? <==> n in read || Has(p.assignOptional, n) || Has(p.assignRequired, n))
            && (!Has(p.assignRequired, n) && (n in read || !Has(p.assignOptional, n)) ==> At(e, n) == At(read, n))
            && (!Has(p.assignRequired, n) && n !in read && Has(p.assignOptional, n)
                && Constant(mn, n, Get(p.assignOptional, n).value) ==>
                At(e, n) == Some(Initial(mn, n, Get(p.assignOptional, n).value)))
    ensures !BeforeConsuming(mn, p, read).changed ==> BeforeConsuming(mn, p, read) == Scratch(read, false)
  {
    var start := Scratch(read, false);
    FillAt(mn, p.assignOptional, start, n);
    FillUnchanged(mn, p.assignOptional, start);
    AssignAt(mn, p.assignRequired, Fill(mn, p.assignOptional, start), n);
  }

  lemma RewrittenIs(mn: Meaning, from: Schema, to: Schema, p: Program, raw: Fields, read: Fields, n: string)
    requires Shaped(from, to, p)
    ensures At(Rewritten(mn, p, raw, read).entry, n).Some? <==> Final(mn, p, raw, read, n).Some?
    ensures (Initialized(p, read, n) ==> Constant(mn, n, Expression(p, n))) ==>
              At(Rewritten(mn, p, raw, read).entry, n) == Final(mn, p, raw, read, n)
    ensures !Rewritten(mn, p, raw, read).changed ==> Rewritten(mn, p, raw, read).entry == read
  {
    BeforeConsumingIs(mn, from, to, p, read, n);
    ConsumeAt(mn, raw, p.consumers, BeforeConsuming(mn, p, read), n);
    if WriterOf(p.consumers, n).Some? {
      WriterAlone(from, to, p, n);
    } else if Has(p.assignRequired, n) {
      AssignedIs(mn, from, to, p, raw, read, n);
    }
  }

  /** A field assigned unconditionally, whatever its expression looks at. */
  lemma AssignedIs(mn: Meaning, from: Schema, to: Schema, p: Program, raw: Fields, read: Fields, n: string)
    requires Shaped(from, to, p) && Has(p.assignRequired, n)
    ensures WriterOf(p.consumers, n).None?
    ensures exists i :: 0 <= i < |p.assignRequired| && AssignedAt(mn, p, raw, read, n, i)
  {
    var a := (n, Get(p.assignRequired, n).value);
    var i :| 0 <= i < |p.assignRequired| && p.assignRequired[i] == a;
    AssignedAtIndex(mn, from, to, p, raw, read, i);
  }

  lemma AssignedAtIndex(mn: Meaning, from: Schema, to: Schema, p: Program, raw: Fields, read: Fields, i: nat)
    requires Shaped(from, to, p) && i < |p.assignRequired|
    ensures WriterOf(p.consumers, p.assignRequired[i].0).None?
    ensures Get(p.assignRequired, p.assignRequired[i].0) == Some(p.assignRequired[i].1)
    ensures AssignedAt(mn, p, raw, read, p.assignRequired[i].0, i)
  {
    var a := p.assignRequired[i];
    var filled := Fill(mn, p.assignOptional, Scratch(read, false));
    assert a in p.assignRequired;
    DistinctIsConsistent(p.assignRequired);
    GetConsistent(p.assignRequired, a);
    AssignIndex(mn, p.assignRequired, filled, i);
    assert WriterOf(p.consumers, a.0).Some? ==> WriterOf(p.consumers, a.0).value.target != a.0;
    ConsumeAt(mn, raw, p.consumers, Assign(mn, p.assignRequired, filled), a.0);
  }

  /** The entry as it stands when required assignment `i` runs. */
  function Halfway(mn: Meaning, p: Program, read: Fields, i: nat): Fields
    requires i <= |p.assignRequired|
  {
    Assign(mn, p.assignRequired[..i], Fill(mn, p.assignOptional, Scratch(read, false))).entry
  }

  ghost predicate AssignedAt(mn: Meaning, p: Program, raw: Fields, read: Fields, n: string, i: nat)
    requires i < |p.assignRequired|
  {
    var a := p.assignRequired[i];
    a.0 == n && At(Rewritten(mn, p, raw, read).entry, n) == Some(mn.init(n, a.1, Halfway(mn, p, read, i)))
  }

  // ----- Readability is neither lost nor gained -----

  /** Every value has the type of its field. */
  ghost predicate FieldsTyped(types: Types, fields: seq<Field>, e: Fields) {
    forall n :: n in e ==> n in Names(fields) && types(BaseIn(fields, n), e[n])
  }

  lemma ConformingIsTyped(types: Types, fields: seq<Field>, e: Fields)
    requires Sensible(types) && DistinctNames(fields)
    ensures Conforms(types, fields, e)
       <==> FieldsTyped(types, fields, e) && forall f :: f in fields ==> f.optional || f.name in e
  {
    ConformsMeans(types, fields, e);
    forall f | f in fields ensures FieldIn(fields, f.name) == Some(f) {
      FieldInIsTheField(fields, f);
    }
    if Conforms(types, fields, e) {
      forall n | n in e ensures types(BaseIn(fields, n), e[n]) {
        assert FieldReads(types, FieldIn(fields, n).value, e);
      }
      forall f | f in fields ensures f.optional || f.name in e {
        assert FieldReads(types, f, e);
      }
    }
  }

  ghost predicate InitTyped(mn: Meaning, fields: seq<Field>, a: (string, string)) {
    a.0 in Names(fields) && forall e :: mn.types(BaseIn(fields, a.0), mn.init(a.0, a.1, e))
  }

  lemma {:induction false} FillTyped(mn: Meaning, fields: seq<Field>, t: Table, d: Scratch)
    requires FieldsTyped(mn.types, fields, d.entry)
    requires forall a :: a in t ==> InitTyped(mn, fields, a)
    ensures FieldsTyped(mn.types, fields, Fill(mn, t, d).entry)
  {
    if t != [] {
      FillTyped(mn, fields, t[..|t| - 1], d);
      assert t[|t| - 1] in t && InitTyped(mn, fields, t[|t| - 1]);
    }
  }

  lemma {:induction false} AssignTyped(mn: Meaning, fields: seq<Field>, t: Table, d: Scratch)
    requires FieldsTyped(mn.types, fields, d.entry)
    requires forall a :: a in t ==> InitTyped(mn, fields, a)
    ensures FieldsTyped(mn.types, fields, Assign(mn, t, d).entry)
  {
    if t != [] {
      AssignTyped(mn, fields, t[..|t| - 1], d);
      assert t[|t| - 1] in t && InitTyped(mn, fields, t[|t| - 1]);
    }
  }

  lemma {:induction false} ConsumeTyped(mn: Meaning, from: Schema, to: Schema, raw: Fields, cs: seq<Consumer>,
                                        d: Scratch)
    requires FieldsTyped(mn.types, to.fields, d.entry) && ShadowReads(mn.types, from, cs, raw)
    requires forall c :: c in cs ==> c.target in Names(to.fields)
    requires forall c, v :: c in cs && mn.types(BaseIn(from.fields, c.source), v) ==>
               mn.types(BaseIn(to.fields, c.target), Converted(mn, c, v))
    ensures FieldsTyped(mn.types, to.fields, Consume(mn, raw, cs, d).entry)
  {
    if cs != [] {
      ConsumeTyped(mn, from, to, raw, cs[..|cs| - 1], d);
      assert cs[|cs| - 1] in cs;
    }
  }

  /** A visited entry conforms to the new shape, whatever its `init` expressions look at. */
  lemma RewrittenConforms(mn: Meaning, from: Schema, to: Schema, p: Program, raw: Fields)
    requires Sensible(mn.types) && DistinctNames(to.fields) && Shaped(from, to, p) && WellTyped(mn, from, to, p)
    requires Readable(mn.types, to.fields, raw) && ShadowReads(mn.types, from, p.consumers, raw)
    ensures Conforms(mn.types, to.fields, Rewritten(mn, p, raw, Decode(mn.types, to.fields, raw).value).entry)
  {
    var read := Decode(mn.types, to.fields, raw).value;
    var after := Rewritten(mn, p, raw, read).entry;
    DecodeConforms(mn.types, to.fields, raw);
    ConformingIsTyped(mn.types, to.fields, read);
    RewrittenTyped(mn, from, to, p, raw, read);
    forall f | f in to.fields ensures f.optional || f.name in after {
      RewrittenIs(mn, from, to, p, raw, read, f.name);
    }
    ConformingIsTyped(mn.types, to.fields, after);
  }

  lemma RewrittenTyped(mn: Meaning, from: Schema, to: Schema, p: Program, raw: Fields, read: Fields)
    requires Shaped(from, to, p) && WellTyped(mn, from, to, p)
    requires ShadowReads(mn.types, from, p.consumers, raw) && FieldsTyped(mn.types, to.fields, read)
    ensures FieldsTyped(mn.types, to.fields, Rewritten(mn, p, raw, read).entry)
  {
    var filled := Fill(mn, p.assignOptional, Scratch(read, false));
    forall a | a in p.assignOptional || a in p.assignRequired ensures InitTyped(mn, to.fields, a) {}
    FillTyped(mn, to.fields, p.assignOptional, Scratch(read, false));
    AssignTyped(mn, to.fields, p.assignRequired, filled);
    forall c | c in p.consumers ensures c.target in Names(to.fields) {
      assert ShapedConsumer(from, to, c);
    }
    ConsumeTyped(mn, from, to, raw, p.consumers, Assign(mn, p.assignRequired, filled));
  }

  /** The generated migration neither traps nor rescues: an entry is readable as the new shape
      after a visit exactly when it was before. So for an added required field, a rename to a
      required field or a retype, old entries stay as unreadable as they were. */
  lemma VisitNeitherTrapsNorRescues(mn: Meaning, from: Schema, to: Schema, p: Program, raw: Fields)
    requires Sensible(mn.types) && DistinctNames(to.fields) && Shaped(from, to, p) && WellTyped(mn, from, to, p)
    ensures Readable(mn.types, to.fields, UpStruct(mn, from, to, p, raw).0) <==> Readable(mn.types, to.fields, raw)
    ensures !Readable(mn.types, to.fields, raw) ==> UpStruct(mn, from, to, p, raw).0 == raw
  {
    if HasWork(p) && Readable(mn.types, to.fields, raw) && ShadowReads(mn.types, from, p.consumers, raw) {
      RewrittenConforms(mn, from, to, p, raw);
      ConformsMeans(mn.types, to.fields, Rewritten(mn, p, raw, Decode(mn.types, to.fields, raw).value).entry);
    }
  }

  /** A retyped field keeps its key, so the guard on the old key does not stop its conversion.
      Where both reads succeed the value already reads as both types; a required field is then
      converted, on every such visit, and an optional one never. */
  lemma RetypeConverts(mn: Meaning, from: Schema, to: Schema, p: Program, raw: Fields, c: Consumer)
    requires Shaped(from, to, p) && c in p.consumers && c.source == c.target && BothRead(mn, from, to, p, raw)
    ensures Present(raw, c.source) ==>
              Shared(mn.types, BaseIn(from.fields, c.source), BaseIn(to.fields, c.source), raw[c.source])
    ensures Fires(raw, c, At(Decode(mn.types, to.fields, raw).value, c.target)) <==> !c.targetOptional
  {
    assert ShapedConsumer(from, to, c);
    var f := FieldIn(to.fields, c.target).value;
    assert FieldReads(mn.types, f, raw);
  }

  // ----- Which entries a visit leaves as they are -----

  /** What the emitted `up` would write is there already, and computing it does not trap. */
  predicate Agrees(mn: Meaning, p: Program, e: Fields) {
    && (forall a :: a in p.assignOptional ==> a.0 in e)
    && (forall a :: a in p.assignRequired ==>
          At(e, a.0) == Some(mn.init(a.0, a.1, e)) && !mn.panics(a.0, a.1, e))
    && (forall c :: c in p.consumers && Fires(e, c, At(e, c.target)) ==>
          At(e, c.target) == Some(Converted(mn, c, e[c.source])) && !Rejects(mn, c, e[c.source]))
  }

  lemma {:induction false} FillsNone(mn: Meaning, t: Table, d: Scratch)
    requires forall a :: a in t ==> a.0 in d.entry
    ensures Fill(mn, t, d) == d
  {
    if t != [] {
      FillsNone(mn, t[..|t| - 1], d);
      assert t[|t| - 1] in t;
    }
  }

  lemma {:induction false} AssignsSame(mn: Meaning, t: Table, d: Scratch)
    requires forall a :: a in t ==> At(d.entry, a.0) == Some(mn.init(a.0, a.1, d.entry))
    ensures Assign(mn, t, d).entry == d.entry
  {
    if t != [] {
      AssignsSame(mn, t[..|t| - 1], d);
      assert t[|t| - 1] in t;
      assert d.entry[t[|t| - 1].0 := d.entry[t[|t| - 1].0]] == d.entry;
    }
  }

  lemma {:induction false} ConsumesSame(mn: Meaning, raw: Fields, cs: seq<Consumer>, d: Scratch)
    requires forall c :: c in cs && Fires(raw, c, At(d.entry, c.target)) ==>
               At(d.entry, c.target) == Some(Converted(mn, c, raw[c.source]))
    ensures Consume(mn, raw, cs, d).entry == d.entry
  {
    if cs != [] {
      var c := cs[|cs| - 1];
      ConsumesSame(mn, raw, cs[..|cs| - 1], d);
      assert c in cs;
      if Fires(raw, c, At(d.entry, c.target)) {
        assert d.entry[c.target := d.entry[c.target]] == d.entry;
      }
    }
  }

  lemma AgreedIsLeft(mn: Meaning, p: Program, e: Fields)
    requires Agrees(mn, p, e)
    ensures Rewritten(mn, p, e, e).entry == e && !Panics(mn, p, e, e)
  {
    var start := Scratch(e, false);
    forall i | 0 <= i <= |p.assignOptional| ensures Fill(mn, p.assignOptional[..i], start) == start {
      FillsNone(mn, p.assignOptional[..i], start);
    }
    assert p.assignOptional[..|p.assignOptional|] == p.assignOptional;
    forall i | 0 <= i <= |p.assignRequired| ensures Assign(mn, p.assignRequired[..i], start).entry == e {
      AssignsSame(mn, p.assignRequired[..i], start);
    }
    assert p.assignRequired[..|p.assignRequired|] == p.assignRequired;
    var mid := BeforeConsuming(mn, p, e);
    forall i | 0 <= i <= |p.consumers| ensures Consume(mn, e, p.consumers[..i], mid).entry == e {
      ConsumesSame(mn, e, p.consumers[..i], mid);
    }
    assert p.consumers[..|p.consumers|] == p.consumers;
    forall i | 0 <= i < |p.consumers| ensures !ConsumePanics(mn, e, p.consumers, mid, i) {
      var c := p.consumers[i];
      assert Consume(mn, e, p.consumers[..i], mid).entry == e && c in p.consumers;
      assert Fires(e, c, At(e, c.target)) ==> !Rejects(mn, c, e[c.source]);
    }
  }

  /** A field with a default is there after every visit. */
  lemma FilledStays(mn: Meaning, from: Schema, to: Schema, p: Program, raw: Fields, read: Fields, a: (string, string))
    requires Shaped(from, to, p) && a in p.assignOptional
    ensures a.0 in Rewritten(mn, p, raw, read).entry
  {
    var i :| 0 <= i < |p.assignOptional| && p.assignOptional[i] == a;
    assert Has(p.assignOptional, a.0);
    RewrittenIs(mn, from, to, p, raw, read, a.0);
    if WriterOf(p.consumers, a.0).Some? {
      WriterAlone(from, to, p, a.0);
    }
  }

  lemma LeftFillsNone(mn: Meaning, from: Schema, to: Schema, p: Program, e: Fields)
    requires Shaped(from, to, p) && Rewritten(mn, p, e, e).entry == e
    ensures Halfway(mn, p, e, 0) == e
  {
    forall a | a in p.assignOptional ensures a.0 in e {
      FilledStays(mn, from, to, p, e, e, a);
    }
    FillsNone(mn, p.assignOptional, Scratch(e, false));
  }

  lemma HalfwayNext(mn: Meaning, p: Program, read: Fields, i: nat)
    requires i < |p.assignRequired|
    ensures var (e, a) := (Halfway(mn, p, read, i), p.assignRequired[i]);
            && Halfway(mn, p, read, i + 1) == e[a.0 := mn.init(a.0, a.1, e)]
            && (At(e, a.0) == Some(mn.init(a.0, a.1, e)) ==> Halfway(mn, p, read, i + 1) == e)
  {
    assert p.assignRequired[..i + 1][..i] == p.assignRequired[..i];
    var (e, a) := (Halfway(mn, p, read, i), p.assignRequired[i]);
    if At(e, a.0).Some? {
      assert e[a.0 := e[a.0]] == e;
    }
  }

  /** If nothing has moved in the end, nothing had moved at any assignment on the way. */
  lemma {:induction false} LeftHalfway(mn: Meaning, from: Schema, to: Schema, p: Program, e: Fields, i: nat)
    requires Shaped(from, to, p) && Rewritten(mn, p, e, e).entry == e && i <= |p.assignRequired|
    ensures Halfway(mn, p, e, i) == e
  {
    if i == 0 {
      LeftFillsNone(mn, from, to, p, e);
    } else {
      LeftHalfway(mn, from, to, p, e, i - 1);
      AssignedAtIndex(mn, from, to, p, e, e, i - 1);
      HalfwayNext(mn, p, e, i - 1);
    }
  }

  lemma LeftBeforeConsuming(mn: Meaning, from: Schema, to: Schema, p: Program, e: Fields)
    requires Shaped(from, to, p) && Rewritten(mn, p, e, e).entry == e
    ensures BeforeConsuming(mn, p, e).entry == e
  {
    LeftHalfway(mn, from, to, p, e, |p.assignRequired|);
    assert p.assignRequired[..|p.assignRequired|] == p.assignRequired;
  }

  lemma LeftConsumer(mn: Meaning, from: Schema, to: Schema, p: Program, e: Fields, c: Consumer)
    requires Shaped(from, to, p) && Rewritten(mn, p, e, e).entry == e && !Panics(mn, p, e, e)
    requires BeforeConsuming(mn, p, e).entry == e && c in p.consumers && Fires(e, c, At(e, c.target))
    ensures At(e, c.target) == Some(Converted(mn, c, e[c.source])) && !Rejects(mn, c, e[c.source])
  {
    assert WriterOf(p.consumers, c.target) == Some(c);
    ConsumeAt(mn, e, p.consumers, BeforeConsuming(mn, p, e), c.target);
    var i :| 0 <= i < |p.consumers| && p.consumers[i] == c;
    assert !ConsumePanics(mn, e, p.consumers, BeforeConsuming(mn, p, e), i);
  }

  lemma LeftAssign(mn: Meaning, from: Schema, to: Schema, p: Program, e: Fields, i: nat)
    requires Shaped(from, to, p) && Rewritten(mn, p, e, e).entry == e && !Panics(mn, p, e, e)
    requires i < |p.assignRequired| && Halfway(mn, p, e, i) == e
    ensures var a := p.assignRequired[i];
            At(e, a.0) == Some(mn.init(a.0, a.1, e)) && !mn.panics(a.0, a.1, e)
  {
    AssignedAtIndex(mn, from, to, p, e, e, i);
    assert !AssignPanics(mn, p.assignRequired, Fill(mn, p.assignOptional, Scratch(e, false)), i);
  }

  lemma LeftAgrees(mn: Meaning, from: Schema, to: Schema, p: Program, e: Fields)
    requires Shaped(from, to, p) && Rewritten(mn, p, e, e).entry == e && !Panics(mn, p, e, e)
    ensures Agrees(mn, p, e)
  {
    forall a | a in p.assignOptional ensures a.0 in e {
      FilledStays(mn, from, to, p, e, e, a);
    }
    forall a | a in p.assignRequired ensures At(e, a.0) == Some(mn.init(a.0, a.1, e)) && !mn.panics(a.0, a.1, e) {
      var i :| 0 <= i < |p.assignRequired| && p.assignRequired[i] == a;
      LeftHalfway(mn, from, to, p, e, i);
      LeftAssign(mn, from, to, p, e, i);
    }
    LeftBeforeConsuming(mn, from, to, p, e);
    forall c | c in p.consumers && Fires(e, c, At(e, c.target))
      ensures At(e, c.target) == Some(Converted(mn, c, e[c.source])) && !Rejects(mn, c, e[c.source]) {
      LeftConsumer(mn, from, to, p, e, c);
    }
  }

  /** A visit leaves an entry as it was exactly when the entry agrees with what it would write. */
  lemma LeftIffAgrees(mn: Meaning, from: Schema, to: Schema, p: Program, e: Fields)
    requires Shaped(from, to, p)
    ensures Rewritten(mn, p, e, e).entry == e && !Panics(mn, p, e, e) <==> Agrees(mn, p, e)
  {
    if Agrees(mn, p, e) {
      AgreedIsLeft(mn, p, e);
    } else if Rewritten(mn, p, e, e).entry == e && !Panics(mn, p, e, e) {
      LeftAgrees(mn, from, to, p, e);
    }
  }
}
