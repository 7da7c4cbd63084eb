/** Which entries both reads of the generated `up` accept, before and after a visit. */
module Rereads {
  import opened Host
  import opened Schemas
  import opened Gate
  import opened Codegen
  import opened Generated
  import opened Rewrites

  /** A consumed key the new shape requires under a type that shares no value with the old one: no
      entry reads as both, so the migration skips every entry. */
  ghost predicate Frozen(types: Types, from: Schema, to: Schema, p: Program) {
    exists c :: c in p.consumers && FrozenBy(types, from, to, c)
  }

  ghost predicate FrozenBy(types: Types, from: Schema, to: Schema, c: Consumer) {
    && c.source in Names(to.fields) && !FieldIn(to.fields, c.source).value.optional
    && !SomeShared(types, BaseIn(from.fields, c.source), BaseIn(to.fields, c.source))
  }

  lemma FrozenNeverReads(mn: Meaning, from: Schema, to: Schema, p: Program, raw: Fields)
    requires Frozen(mn.types, from, to, p)
    ensures !BothRead(mn, from, to, p, raw)
  {
    var c :| c in p.consumers && FrozenBy(mn.types, from, to, c);
    var f := FieldIn(to.fields, c.source).value;
    assert Readable(mn.types, to.fields, raw) ==> FieldReads(mn.types, f, raw);
    assert forall v :: mn.types(BaseIn(from.fields, c.source), v) && mn.types(f.base, v) ==>
        Shared(mn.types, BaseIn(from.fields, c.source), f.base, v);
  }

  // ----- Building such entries -----

  predicate IsSource(p: Program, n: string) {
    exists c :: c in p.consumers && c.source == n
  }

  predicate Required(to: Schema, n: string) {
    n in Names(to.fields) && !FieldIn(to.fields, n).value.optional
  }

  /** Both reads accept `v` under `n`. */
  predicate Fits(types: Types, from: Schema, to: Schema, p: Program, n: string, v: Val) {
    (n in Names(to.fields) ==> types(BaseIn(to.fields, n), v)) && (IsSource(p, n) ==> types(BaseIn(from.fields, n), v))
  }

  /** A value of the new type, and of the old one if they share any. */
  ghost function Picked(types: Types, from: Schema, to: Schema, n: string): (v: Val)
    requires Sensible(types)
    ensures types(BaseIn(to.fields, n), v)
    ensures SomeShared(types, BaseIn(from.fields, n), BaseIn(to.fields, n)) ==> types(BaseIn(from.fields, n), v)
  {
    if SomeShared(types, BaseIn(from.fields, n), BaseIn(to.fields, n))
    then var v :| Shared(types, BaseIn(from.fields, n), BaseIn(to.fields, n), v); v
    else SomeValue(types, BaseIn(to.fields, n))
  }

  /** The required fields alone. */
  ghost function Barest(types: Types, from: Schema, to: Schema): (e: Fields)
    requires Sensible(types)
    ensures forall n :: n in e <==> Required(to, n)
    ensures forall n :: n in e ==> e[n] == Picked(types, from, to, n)
  {
    map n | n in Names(to.fields) && Required(to, n) :: Picked(types, from, to, n)
  }

  lemma BarestFits(types: Types, from: Schema, to: Schema, p: Program)
    requires Sensible(types) && !Frozen(types, from, to, p)
    ensures forall n :: n in Barest(types, from, to) ==> Fits(types, from, to, p, n, Barest(types, from, to)[n])
  {
    forall n | n in Barest(types, from, to) ensures Fits(types, from, to, p, n, Barest(types, from, to)[n]) {
      if c :| c in p.consumers && c.source == n {
        assert !FrozenBy(types, from, to, c);
      }
    }
  }

  lemma FittingReads(mn: Meaning, from: Schema, to: Schema, p: Program, raw: Fields)
    requires Sensible(mn.types) && DistinctNames(to.fields)
    requires forall n :: n in raw ==> Fits(mn.types, from, to, p, n, raw[n])
    requires forall n :: Required(to, n) ==> n in raw
    ensures BothRead(mn, from, to, p, raw)
    ensures (forall n :: n in raw ==> n in Names(to.fields)) ==> Conforms(mn.types, to.fields, raw)
  {
    forall f | f in to.fields ensures FieldReads(mn.types, f, raw) {
      FieldInIsTheField(to.fields, f);
      assert Required(to, f.name) || f.optional;
      assert f.name in raw ==> Fits(mn.types, from, to, p, f.name, raw[f.name]);
    }
    forall c | c in p.consumers && Present(raw, c.source)
      ensures mn.types(BaseIn(from.fields, c.source), raw[c.source]) {
      assert Fits(mn.types, from, to, p, c.source, raw[c.source]) && IsSource(p, c.source);
    }
    forall n | n in raw && n in Names(to.fields) ensures raw[n] != Void {
      assert Fits(mn.types, from, to, p, n, raw[n]);
    }
    ConformsMeans(mn.types, to.fields, raw);
  }

  /** One field more, or with another value. */
  lemma BarestBut(mn: Meaning, from: Schema, to: Schema, p: Program, n: string, v: Val)
    requires Sensible(mn.types) && DistinctNames(to.fields) && !Frozen(mn.types, from, to, p)
    requires Fits(mn.types, from, to, p, n, v)
    ensures BothRead(mn, from, to, p, Barest(mn.types, from, to)[n := v])
    ensures n in Names(to.fields) ==> Conforms(mn.types, to.fields, Barest(mn.types, from, to)[n := v])
  {
    BarestFits(mn.types, from, to, p);
    FittingReads(mn, from, to, p, Barest(mn.types, from, to)[n := v]);
  }

  /** Frozen programs, and no others, skip every entry. */
  lemma FrozenIff(mn: Meaning, from: Schema, to: Schema, p: Program)
    requires Sensible(mn.types) && DistinctNames(to.fields)
    ensures Frozen(mn.types, from, to, p) <==> forall raw :: !BothRead(mn, from, to, p, raw)
  {
    if Frozen(mn.types, from, to, p) {
      forall raw ensures !BothRead(mn, from, to, p, raw) {
        FrozenNeverReads(mn, from, to, p, raw);
      }
    } else {
      BarestFits(mn.types, from, to, p);
      FittingReads(mn, from, to, p, Barest(mn.types, from, to));
    }
  }

  // ----- Consumed keys after a visit -----

  lemma TargetIsNoSource(from: Schema, to: Schema, p: Program, c: Consumer)
    requires Shaped(from, to, p) && c in p.consumers && c.source != c.target
    ensures !IsSource(p, c.target)
  {
    assert ShapedConsumer(from, to, c);
    forall d | d in p.consumers ensures d.source != c.target {
      assert ShapedConsumer(from, to, d);
    }
  }

  lemma OldKeyNotFilled(from: Schema, to: Schema, p: Program, n: string)
    requires Shaped(from, to, p) && n in Names(from.fields)
    ensures !Has(p.assignOptional, n)
  {
    assert forall a :: a in p.assignOptional ==> a.0 != n;
  }

  /** The field keeps its key, is required, and is converted. */
  predicate Reconverted(p: Program, n: string) {
    WriterOf(p.consumers, n).Some? && WriterOf(p.consumers, n).value.source == n
    && !WriterOf(p.consumers, n).value.targetOptional
  }

  /** A consumed key is present after a visit only if it was before, and with the same value
      unless the migration assigns or converts it. */
  lemma SourceAfterwards(mn: Meaning, from: Schema, to: Schema, p: Program, raw: Fields, after: Fields, n: string)
    requires Shaped(from, to, p) && n in Names(from.fields) && BothRead(mn, from, to, p, raw)
    requires after == Rewritten(mn, p, raw, Decode(mn.types, to.fields, raw).value).entry
    ensures n in after ==> Present(raw, n)
    ensures n in after && !Has(p.assignRequired, n) && !Reconverted(p, n) ==> after[n] == raw[n]
    ensures Reconverted(p, n) ==> At(after, n) == Some(Converted(mn, WriterOf(p.consumers, n).value, raw[n]))
  {
    var read := Decode(mn.types, to.fields, raw).value;
    RewrittenIs(mn, from, to, p, raw, read, n);
    OldKeyNotFilled(from, to, p, n);
    var c := WriterOf(p.consumers, n);
    if c.Some? {
      WriterAlone(from, to, p, n);
      assert ShapedConsumer(from, to, c.value);
      RetypeConverts(mn, from, to, p, raw, c.value);
    } else if Has(p.assignRequired, n) {
      assert (n, Get(p.assignRequired, n).value) in p.assignRequired;
      assert FieldReads(mn.types, FieldIn(to.fields, n).value, raw);
    }
  }

  /** Every conversion of a field that keeps its key gives back a value of the old type. */
  ghost predicate GivenBack(mn: Meaning, from: Schema, p: Program, raw: Fields) {
    forall c :: c in p.consumers && c.source == c.target && !c.targetOptional && c.source in raw ==>
      mn.types(BaseIn(from.fields, c.source), Converted(mn, c, raw[c.source]))
  }

  /** Then the next visit reads the entry again. */
  lemma VisitedReads(mn: Meaning, from: Schema, to: Schema, p: Program, raw: Fields, after: Fields)
    requires Sensible(mn.types) && DistinctNames(to.fields) && Shaped(from, to, p) && WellTyped(mn, from, to, p)
    requires BothRead(mn, from, to, p, raw) && GivenBack(mn, from, p, raw)
    requires after == Rewritten(mn, p, raw, Decode(mn.types, to.fields, raw).value).entry
    ensures Conforms(mn.types, to.fields, after) && BothRead(mn, from, to, p, after)
  {
    RewrittenConforms(mn, from, to, p, raw);
    ConformingIsTyped(mn.types, to.fields, after);
    forall c | c in p.consumers && Present(after, c.source)
      ensures mn.types(BaseIn(from.fields, c.source), after[c.source]) {
      VisitedSource(mn, from, to, p, raw, after, c);
    }
  }

  lemma VisitedSource(mn: Meaning, from: Schema, to: Schema, p: Program, raw: Fields, after: Fields, c: Consumer)
    requires Shaped(from, to, p) && BothRead(mn, from, to, p, raw) && GivenBack(mn, from, p, raw)
    requires after == Rewritten(mn, p, raw, Decode(mn.types, to.fields, raw).value).entry
    requires FieldsTyped(mn.types, to.fields, after) && c in p.consumers && c.source in after
    ensures mn.types(BaseIn(from.fields, c.source), after[c.source])
  {
    assert ShapedConsumer(from, to, c);
    SourceAfterwards(mn, from, to, p, raw, after, c.source);
    if Has(p.assignRequired, c.source) {
      assert (c.source, Get(p.assignRequired, c.source).value) in p.assignRequired;
    }
  }
}
