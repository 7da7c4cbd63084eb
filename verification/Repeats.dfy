/** When a generated migration may be run again over what it has already moved, which is what lets
    a batch that failed half-way be repeated. */
module Repeats {
  import opened Host
  import opened Schemas
  import opened Codegen
  import opened Generated
  import opened Rewrites
  import opened Rereads
  import opened Forward

  // ----- What the expressions look at -----

  /** Which fields of the entry the expression written for a field looks at. */
  type Looks = (string, string) -> set<string>

  ghost predicate SameOn(fields: set<string>, d: Fields, e: Fields) {
    forall n :: n in fields ==> At(d, n) == At(e, n)
  }

  /** What is assigned unconditionally is computed from those fields alone. Expressions that only
      fill an empty field may look at anything. */
  ghost predicate Respects(mn: Meaning, p: Program, looks: Looks) {
    forall a, d, e :: a in p.assignRequired && SameOn(looks(a.0, a.1), d, e) ==>
      mn.init(a.0, a.1, d) == mn.init(a.0, a.1, e) && (mn.panics(a.0, a.1, d) <==> mn.panics(a.0, a.1, e))
  }

  // ----- The condition -----

  /** The second visit finds a value under the consumed key, and maybe not the one the first visit
      found: the key keeps its place and is converted, or is assigned. */
  ghost predicate Unstable(types: Types, from: Schema, to: Schema, p: Program, c: Consumer) {
    && !c.targetOptional && TwoShared(types, BaseIn(from.fields, c.source), BaseIn(to.fields, c.source))
    && (c.source == c.target || Has(p.assignRequired, c.source))
  }

  ghost predicate TwoValues(types: Types, base: string) {
    TwoShared(types, base, base)
  }

  /** The consumer of another key may change its target. */
  ghost predicate Moves(types: Types, from: Schema, to: Schema, c: Consumer) {
    && c.source != c.target
    && (c.source in Names(to.fields) ==> SomeShared(types, BaseIn(from.fields, c.source), BaseIn(to.fields, c.source)))
    && (c.targetOptional || TwoValues(types, BaseIn(to.fields, c.target)))
  }

  /** Assignment `i`, repeated, may see another value in field `n`: the field is assigned in the
      same place or later, or is written by a consumer. */
  ghost predicate Unsettled(types: Types, from: Schema, to: Schema, p: Program, i: nat, n: string)
    requires i <= |p.assignRequired|
  {
    || (Has(p.assignRequired[i..], n) && TwoValues(types, BaseIn(to.fields, n)))
    || exists c :: c in p.consumers && c.target == n && Moves(types, from, to, c)
  }

  /** No assignment looks at a field that may have changed when it is repeated. */
  ghost predicate Settled(types: Types, from: Schema, to: Schema, p: Program, looks: Looks) {
    forall i, n :: 0 <= i < |p.assignRequired| && n in looks(p.assignRequired[i].0, p.assignRequired[i].1) ==>
      !Unsettled(types, from, to, p, i, n)
  }

  ghost predicate Repeatable(types: Types, from: Schema, to: Schema, p: Program, looks: Looks) {
    (forall c :: c in p.consumers ==> !Unstable(types, from, to, p, c)) && Settled(types, from, to, p, looks)
  }

  // ----- What a second visit finds -----

  /** A first visit and what it left, both of which the reads accept. */
  ghost predicate Revisit(mn: Meaning, from: Schema, to: Schema, p: Program, raw: Fields, after: Fields) {
    && Sensible(mn.types) && DistinctNames(to.fields) && Shaped(from, to, p) && WellTyped(mn, from, to, p)
    && BothRead(mn, from, to, p, raw) && BothRead(mn, from, to, p, after) && Conforms(mn.types, to.fields, after)
    && after == Rewritten(mn, p, raw, Decode(mn.types, to.fields, raw).value).entry
    && forall c :: c in p.consumers ==> !Unstable(mn.types, from, to, p, c)
  }

  lemma RetypedAgain(mn: Meaning, from: Schema, to: Schema, p: Program, raw: Fields, after: Fields, c: Consumer)
    requires Revisit(mn, from, to, p, raw, after) && c in p.consumers && c.source == c.target
    ensures At(after, c.target) == At(Decode(mn.types, to.fields, raw).value, c.target)
  {
    assert WriterOf(p.consumers, c.target) == Some(c) && ShapedConsumer(from, to, c);
    RewrittenIs(mn, from, to, p, raw, Decode(mn.types, to.fields, raw).value, c.target);
    RetypeConverts(mn, from, to, p, raw, c);
    RetypeConverts(mn, from, to, p, after, c);
    ConformsMeans(mn.types, to.fields, after);
  }

  /** A consumed key that a required field depends on still holds what it held. */
  lemma SourceAgain(mn: Meaning, from: Schema, to: Schema, p: Program, raw: Fields, after: Fields, c: Consumer)
    requires Revisit(mn, from, to, p, raw, after) && c in p.consumers && !c.targetOptional && c.source in after
    ensures Present(raw, c.source) && after[c.source] == raw[c.source]
  {
    assert ShapedConsumer(from, to, c);
    SourceAfterwards(mn, from, to, p, raw, after, c.source);
    ConformsMeans(mn.types, to.fields, after);
    if Reconverted(p, c.source) {
      RetypedAgain(mn, from, to, p, raw, after, WriterOf(p.consumers, c.source).value);
    } else if Has(p.assignRequired, c.source) {
      assert (c.source, Get(p.assignRequired, c.source).value) in p.assignRequired;
      ConformingIsTyped(mn.types, to.fields, after);
      assert Shared(mn.types, BaseIn(from.fields, c.source), BaseIn(to.fields, c.source), after[c.source]);
      assert Shared(mn.types, BaseIn(from.fields, c.source), BaseIn(to.fields, c.source), raw[c.source]);
    }
  }

  /** Between the moment assignment `i` runs and the end of the visit a settled field does not
      change. */
  lemma SettledField(mn: Meaning, from: Schema, to: Schema, p: Program, raw: Fields, after: Fields, i: nat, n: string)
    requires Revisit(mn, from, to, p, raw, after) && i < |p.assignRequired|
    requires !Unsettled(mn.types, from, to, p, i, n)
    ensures At(Halfway(mn, p, Decode(mn.types, to.fields, raw).value, i), n) == At(after, n)
  {
    var read := Decode(mn.types, to.fields, raw).value;
    if WriterOf(p.consumers, n).Some? {
      SettledTarget(mn, from, to, p, raw, after, i, WriterOf(p.consumers, n).value);
    } else if Has(p.assignRequired[i..], n) {
      SettledAssigned(mn, from, to, p, raw, after, i, n);
    } else {
      var filled := Fill(mn, p.assignOptional, Scratch(read, false));
      AssignKeeps(mn, p.assignRequired, filled, i, n);
      ConsumeAt(mn, raw, p.consumers, BeforeConsuming(mn, p, read), n);
    }
  }

  lemma HasPart(t: Table, i: nat, n: string)
    requires i <= |t|
    ensures Has(t, n) <==> Has(t[..i], n) || Has(t[i..], n)
  {
    if Has(t, n) {
      var j :| 0 <= j < |t| && t[j].0 == n;
      if j < i { assert t[..i][j].0 == n; } else { assert t[i..][j - i].0 == n; }
    }
    if Has(t[..i], n) {
      var j :| 0 <= j < i && t[..i][j].0 == n;
      assert t[j].0 == n;
    }
    if Has(t[i..], n) {
      var j :| 0 <= j < |t| - i && t[i..][j].0 == n;
      assert t[i + j].0 == n;
    }
  }

  lemma AssignedOnce(t: Table, i: nat, n: string)
    requires DistinctKeys(t) && i <= |t| && Has(t[i..], n)
    ensures Has(t, n) && !Has(t[..i], n)
  {
    HasPart(t, i, n);
    var k :| 0 <= k < |t| - i && t[i..][k].0 == n;
    forall j | 0 <= j < i ensures t[..i][j].0 != n {
      assert t[j].0 != t[i + k].0;
    }
  }

  /** A field that is not assigned before `i` is as it was read, unless it was filled. */
  lemma HalfwayAt(mn: Meaning, from: Schema, to: Schema, p: Program, read: Fields, i: nat, n: string)
    requires Shaped(from, to, p) && i <= |p.assignRequired| && !Has(p.assignRequired[..i], n)
    requires n in read || !Has(p.assignOptional, n)
    ensures At(Halfway(mn, p, read, i), n) == At(read, n)
  {
    FillAt(mn, p.assignOptional, Scratch(read, false), n);
    AssignAt(mn, p.assignRequired[..i], Fill(mn, p.assignOptional, Scratch(read, false)), n);
  }

  lemma SettledTarget(mn: Meaning, from: Schema, to: Schema, p: Program, raw: Fields, after: Fields, i: nat,
                      c: Consumer)
    requires Revisit(mn, from, to, p, raw, after) && i <= |p.assignRequired|
    requires c in p.consumers && !Moves(mn.types, from, to, c)
    ensures At(Halfway(mn, p, Decode(mn.types, to.fields, raw).value, i), c.target) == At(after, c.target)
  {
    var read, n := Decode(mn.types, to.fields, raw).value, c.target;
    assert WriterOf(p.consumers, n) == Some(c) && ShapedConsumer(from, to, c);
    WriterAlone(from, to, p, n);
    HasPart(p.assignRequired, i, n);
    HalfwayAt(mn, from, to, p, read, i, n);
    if c.source == c.target {
      RetypedAgain(mn, from, to, p, raw, after, c);
    } else {
      RewrittenIs(mn, from, to, p, raw, read, n);
      StillTarget(mn, from, to, p, raw, after, c);
    }
  }

  /** A rename whose source cannot be there, or whose target has one value only. */
  lemma StillTarget(mn: Meaning, from: Schema, to: Schema, p: Program, raw: Fields, after: Fields, c: Consumer)
    requires Revisit(mn, from, to, p, raw, after)
    requires c in p.consumers && c.source != c.target && !Moves(mn.types, from, to, c)
    requires At(after, c.target) == Written(mn, raw, Some(c), At(Decode(mn.types, to.fields, raw).value, c.target))
    ensures At(after, c.target) == At(Decode(mn.types, to.fields, raw).value, c.target)
  {
    if Present(raw, c.source) {
      assert ShapedConsumer(from, to, c);
      if c.source in Names(to.fields) {
        assert FieldReads(mn.types, FieldIn(to.fields, c.source).value, raw);
        assert Shared(mn.types, BaseIn(from.fields, c.source), BaseIn(to.fields, c.source), raw[c.source]);
      }
      OneValued(mn, from, to, raw, after, c.target);
    }
  }

  lemma OneValued(mn: Meaning, from: Schema, to: Schema, raw: Fields, after: Fields, n: string)
    requires Sensible(mn.types) && DistinctNames(to.fields) && Required(to, n)
    requires Readable(mn.types, to.fields, raw) && Conforms(mn.types, to.fields, after)
    requires !TwoValues(mn.types, BaseIn(to.fields, n))
    ensures At(after, n).Some? && At(after, n) == At(Decode(mn.types, to.fields, raw).value, n)
  {
    var f := FieldIn(to.fields, n).value;
    ConformsMeans(mn.types, to.fields, after);
    assert FieldReads(mn.types, f, raw) && FieldReads(mn.types, f, after);
    assert Shared(mn.types, f.base, f.base, raw[n]) && Shared(mn.types, f.base, f.base, after[n]);
  }

  lemma SettledAssigned(mn: Meaning, from: Schema, to: Schema, p: Program, raw: Fields, after: Fields, i: nat,
                        n: string)
    requires Revisit(mn, from, to, p, raw, after) && i < |p.assignRequired|
    requires Has(p.assignRequired[i..], n) && !TwoValues(mn.types, BaseIn(to.fields, n))
    ensures At(Halfway(mn, p, Decode(mn.types, to.fields, raw).value, i), n) == At(after, n)
  {
    var read := Decode(mn.types, to.fields, raw).value;
    AssignedOnce(p.assignRequired, i, n);
    assert (n, Get(p.assignRequired, n).value) in p.assignRequired;
    OneValued(mn, from, to, raw, after, n);
    HalfwayAt(mn, from, to, p, read, i, n);
  }

  /** What the first visit left is what the second would write. */
  lemma RepeatedAgrees(mn: Meaning, from: Schema, to: Schema, p: Program, looks: Looks, raw: Fields, after: Fields)
    requires Revisit(mn, from, to, p, raw, after) && Respects(mn, p, looks)
    requires Settled(mn.types, from, to, p, looks) && !UpTraps(mn, from, to, p, raw)
    ensures Agrees(mn, p, after)
  {
    forall a | a in p.assignOptional ensures a.0 in after {
      FilledStays(mn, from, to, p, raw, Decode(mn.types, to.fields, raw).value, a);
    }
    forall a | a in p.assignRequired
      ensures At(after, a.0) == Some(mn.init(a.0, a.1, after)) && !mn.panics(a.0, a.1, after) {
      var i :| 0 <= i < |p.assignRequired| && p.assignRequired[i] == a;
      AssignedAgain(mn, from, to, p, looks, raw, after, i);
    }
    forall c | c in p.consumers && Fires(after, c, At(after, c.target))
      ensures At(after, c.target) == Some(Converted(mn, c, after[c.source])) && !Rejects(mn, c, after[c.source]) {
      ConsumedAgain(mn, from, to, p, raw, after, c);
    }
  }

  lemma AssignedAgain(mn: Meaning, from: Schema, to: Schema, p: Program, looks: Looks, raw: Fields, after: Fields,
                      i: nat)
    requires Revisit(mn, from, to, p, raw, after) && Respects(mn, p, looks)
    requires Settled(mn.types, from, to, p, looks) && !UpTraps(mn, from, to, p, raw)
    requires i < |p.assignRequired|
    ensures var a := p.assignRequired[i];
            At(after, a.0) == Some(mn.init(a.0, a.1, after)) && !mn.panics(a.0, a.1, after)
  {
    var a, read := p.assignRequired[i], Decode(mn.types, to.fields, raw).value;
    forall n | n in looks(a.0, a.1) ensures At(Halfway(mn, p, read, i), n) == At(after, n) {
      SettledField(mn, from, to, p, raw, after, i, n);
    }
    assert SameOn(looks(a.0, a.1), Halfway(mn, p, read, i), after) && a in p.assignRequired;
    AssignedAtIndex(mn, from, to, p, raw, read, i);
    assert !AssignPanics(mn, p.assignRequired, Fill(mn, p.assignOptional, Scratch(read, false)), i);
  }

  lemma ConsumedAgain(mn: Meaning, from: Schema, to: Schema, p: Program, raw: Fields, after: Fields, c: Consumer)
    requires Revisit(mn, from, to, p, raw, after) && !UpTraps(mn, from, to, p, raw)
    requires c in p.consumers && Fires(after, c, At(after, c.target))
    ensures At(after, c.target) == Some(Converted(mn, c, after[c.source])) && !Rejects(mn, c, after[c.source])
  {
    var read := Decode(mn.types, to.fields, raw).value;
    assert WriterOf(p.consumers, c.target) == Some(c) && ShapedConsumer(from, to, c);
    RewrittenIs(mn, from, to, p, raw, read, c.target);
    if c.targetOptional {
      SourceAfterwards(mn, from, to, p, raw, after, c.source);
      assert false;
    } else {
      SourceAgain(mn, from, to, p, raw, after, c);
      var i :| 0 <= i < |p.consumers| && p.consumers[i] == c;
      assert !ConsumePanics(mn, raw, p.consumers, BeforeConsuming(mn, p, read), i);
    }
  }

  lemma AgreedVisit(mn: Meaning, from: Schema, to: Schema, p: Program, e: Fields)
    requires Conforms(mn.types, to.fields, e) && Agrees(mn, p, e)
    ensures !UpTraps(mn, from, to, p, e) && UpStruct(mn, from, to, p, e).0 == e
  {
    AgreedIsLeft(mn, p, e);
  }

  lemma RepeatableSettles(mn: Meaning, from: Schema, to: Schema, p: Program, looks: Looks, raw: Fields)
    requires Sensible(mn.types) && DistinctNames(to.fields) && Shaped(from, to, p) && WellTyped(mn, from, to, p)
    requires Respects(mn, p, looks) && !UpTraps(mn, from, to, p, raw)
    requires Repeatable(mn.types, from, to, p, looks) || Frozen(mn.types, from, to, p)
    ensures var after := UpStruct(mn, from, to, p, raw).0;
            !UpTraps(mn, from, to, p, after) && UpStruct(mn, from, to, p, after).0 == after
  {
    var after := UpStruct(mn, from, to, p, raw).0;
    if after != raw && BothRead(mn, from, to, p, after) {
      FrozenIff(mn, from, to, p);
      MovedIsRewritten(mn, from, to, p, raw);
      RewrittenConforms(mn, from, to, p, raw);
      RepeatedAgrees(mn, from, to, p, looks, raw, after);
      AgreedVisit(mn, from, to, p, after);
    }
  }

  lemma MovedIsRewritten(mn: Meaning, from: Schema, to: Schema, p: Program, raw: Fields)
    requires UpStruct(mn, from, to, p, raw).0 != raw
    ensures BothRead(mn, from, to, p, raw)
    ensures UpStruct(mn, from, to, p, raw).0 == Rewritten(mn, p, raw, Decode(mn.types, to.fields, raw).value).entry
  {}

  lemma StructSettles(mn: Meaning, from: Schema, to: Schema, p: Program, key: Val, raw: Fields)
    requires var after := UpStruct(mn, from, to, p, raw).0;
             UpTraps(mn, from, to, p, raw)
             || (!UpTraps(mn, from, to, p, after) && UpStruct(mn, from, to, p, after).0 == after)
    ensures Settles(UpVisitor(mn, from, to, p), key, Some(Record(raw)))
  {}

  lemma OtherSettles(mn: Meaning, from: Schema, to: Schema, p: Program, key: Val, entry: Option<Val>)
    requires entry.None? || !entry.value.Record?
    ensures Settles(UpVisitor(mn, from, to, p), key, entry)
  {}

  /** A repeatable migration is idempotent, whatever its expressions compute from the fields they
      look at and whenever they trap. */
  lemma RepeatableIsIdempotent(mn: Meaning, from: Schema, to: Schema, p: Program, looks: Looks)
    requires Sensible(mn.types) && DistinctNames(to.fields) && Shaped(from, to, p) && WellTyped(mn, from, to, p)
    requires Respects(mn, p, looks)
    requires Repeatable(mn.types, from, to, p, looks) || Frozen(mn.types, from, to, p)
    ensures Idempotent(UpVisitor(mn, from, to, p))
  {
    forall key, entry: Option<Val> ensures Settles(UpVisitor(mn, from, to, p), key, entry) {
      if entry.None? || !entry.value.Record? {
        OtherSettles(mn, from, to, p, key, entry);
      } else {
        if !UpTraps(mn, from, to, p, entry.value.fields) {
          RepeatableSettles(mn, from, to, p, looks, entry.value.fields);
        }
        StructSettles(mn, from, to, p, key, entry.value.fields);
      }
    }
  }
}
