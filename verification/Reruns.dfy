/** The condition of `Repeats` is exact: any other program breaks with some expressions. */
module Reruns {
  import opened Host
  import opened Schemas
  import opened Diffs
  import opened Gate
  import opened Codegen
  import opened Generated
  import opened Rewrites
  import opened Rereads
  import opened Repeats
  import opened Shapes
  import opened Storage
  import opened Forward

  /** Every type has two values. */
  ghost predicate Rich(types: Types) {
    forall b :: TwoValues(types, b)
  }

  ghost function OtherThan(types: Types, base: string, v: Val): (w: Val)
    requires TwoValues(types, base)
    ensures types(base, w) && w != v
  {
    var a, b :| Shared(types, base, base, a) && Shared(types, base, base, b) && a != b;
    if a == v then b else a
  }

  /** A value of the type that differs from `v`, if it has two. */
  ghost function Different(types: Types, base: string, v: Val): (w: Val)
    requires Sensible(types) && types(base, v)
    ensures types(base, w) && (TwoValues(types, base) ==> w != v)
  {
    if TwoValues(types, base) then OtherThan(types, base, v) else v
  }

  /** A conversion that changes only what it must. */
  ghost function Passed(types: Types, to: Schema, n: string, v: Val): (w: Val)
    requires Sensible(types)
    ensures types(BaseIn(to.fields, n), w) && (types(BaseIn(to.fields, n), v) ==> w == v)
  {
    if types(BaseIn(to.fields, n), v) then v else SomeValue(types, BaseIn(to.fields, n))
  }

  ghost function Usual(types: Types, to: Schema, n: string): (v: Val)
    requires Sensible(types)
    ensures types(BaseIn(to.fields, n), v)
  {
    SomeValue(types, BaseIn(to.fields, n))
  }

  lemma FirstVisit(mn: Meaning, from: Schema, to: Schema, p: Program, raw: Fields)
    requires Shaped(from, to, p) && BothRead(mn, from, to, p, raw) && !UpTraps(mn, from, to, p, raw)
    requires var read := Decode(mn.types, to.fields, raw).value; Rewritten(mn, p, raw, read).entry != read
    ensures UpVisit(mn, from, to, p, Some(Record(raw)))
         == Visited(Some(Record(Rewritten(mn, p, raw, Decode(mn.types, to.fields, raw).value).entry)), Migrated)
  {
    RewrittenIs(mn, from, to, p, raw, Decode(mn.types, to.fields, raw).value, "");
  }

  /** A new-shaped entry that both reads accept is left alone exactly if it agrees. */
  lemma StableStructIff(mn: Meaning, from: Schema, to: Schema, p: Program, e: Fields)
    requires Shaped(from, to, p) && Conforms(mn.types, to.fields, e) && BothRead(mn, from, to, p, e)
    ensures !UpTraps(mn, from, to, p, e) && UpStruct(mn, from, to, p, e).0 == e <==> Agrees(mn, p, e)
  {
    if Agrees(mn, p, e) {
      AgreedVisit(mn, from, to, p, e);
    } else {
      LeftIffAgrees(mn, from, to, p, e);
      RewrittenIs(mn, from, to, p, e, e, "");
      HasWorkToDo(mn, p, e);
    }
  }

  lemma HasWorkToDo(mn: Meaning, p: Program, e: Fields)
    requires !Agrees(mn, p, e)
    ensures HasWork(p)
  {}

  /** One unlucky visit is enough: it succeeds, and the next one reads the entry and finds that it
      does not agree. */
  lemma DisagreementShows(mn: Meaning, from: Schema, to: Schema, p: Program, raw: Fields, after: Fields)
    requires Shaped(from, to, p) && BothRead(mn, from, to, p, raw) && !UpTraps(mn, from, to, p, raw)
    requires after == Rewritten(mn, p, raw, Decode(mn.types, to.fields, raw).value).entry
    requires after != Decode(mn.types, to.fields, raw).value
    requires Conforms(mn.types, to.fields, after) && BothRead(mn, from, to, p, after) && !Agrees(mn, p, after)
    ensures !Idempotent(UpVisitor(mn, from, to, p))
  {
    FirstVisit(mn, from, to, p, raw);
    StableStructIff(mn, from, to, p, after);
    MovedAgain(mn, from, to, p, raw, after);
  }

  lemma MovedAgain(mn: Meaning, from: Schema, to: Schema, p: Program, raw: Fields, after: Fields)
    requires UpVisit(mn, from, to, p, Some(Record(raw))) == Visited(Some(Record(after)), Migrated)
    requires UpTraps(mn, from, to, p, after) || UpStruct(mn, from, to, p, after).0 != after
    ensures !Idempotent(UpVisitor(mn, from, to, p))
  {
    var up := UpVisitor(mn, from, to, p);
    assert up(Void, Some(Record(raw))) == Visited(Some(Record(after)), Migrated);
    assert up(Void, Some(Record(after))) == UpVisit(mn, from, to, p, Some(Record(after)));
    assert !Settles(up, Void, Some(Record(raw)));
  }

  // ----- An assignment that looks at a field which changes -----

  /** Tells whether field `n` reads `seen`, in the value written to `field` or, if that type has
      one value only, by trapping. Everything else is constant. */
  ghost function Probing(types: Types, to: Schema, field: string, n: string, seen: Val): (mn: Meaning)
    requires Sensible(types)
    ensures mn.types == types
    ensures forall m, expr, e ::
              mn.init(m, expr, e) == if m == field && At(e, n) == Some(seen)
                                     then Different(types, BaseIn(to.fields, m), Usual(types, to, m))
                                     else Usual(types, to, m)
    ensures forall m, expr, v :: mn.convert(m, expr, v) == Passed(types, to, m, v) && !mn.rejects(m, expr, v)
    ensures forall m, expr, e ::
              mn.panics(m, expr, e)
              <==> m == field && At(e, n) == Some(seen) && !TwoValues(types, BaseIn(to.fields, m))
  {
    Meaning(types,
            (m, expr, e) =>
              if m == field && At(e, n) == Some(seen) then Different(types, BaseIn(to.fields, m), Usual(types, to, m))
              else Usual(types, to, m),
            (m, expr, v) => Passed(types, to, m, v),
            (m, expr, e) => m == field && At(e, n) == Some(seen) && !TwoValues(types, BaseIn(to.fields, m)),
            (m, expr, v) => false)
  }

  /** Conversions that pass on what they can keep a retyped value readable as both types. */
  lemma PassedReturns(mn: Meaning, from: Schema, to: Schema, p: Program, raw: Fields)
    requires Sensible(mn.types) && Shaped(from, to, p) && BothRead(mn, from, to, p, raw)
    requires forall m, expr, v :: mn.convert(m, expr, v) == Passed(mn.types, to, m, v)
    ensures GivenBack(mn, from, p, raw)
  {
    forall c | c in p.consumers && c.source == c.target && !c.targetOptional && c.source in raw
      ensures mn.types(BaseIn(from.fields, c.source), Converted(mn, c, raw[c.source])) {
      RetypeConverts(mn, from, to, p, raw, c);
    }
  }

  lemma ProbingTyped(types: Types, from: Schema, to: Schema, p: Program, field: string, n: string, seen: Val)
    requires Sensible(types) && Shaped(from, to, p)
    ensures WellTyped(Probing(types, to, field, n, seen), from, to, p)
  {
    var mn := Probing(types, to, field, n, seen);
    forall c, v | c in p.consumers && types(BaseIn(from.fields, c.source), v)
      ensures types(BaseIn(to.fields, c.target), Converted(mn, c, v)) {
      assert ShapedConsumer(from, to, c);
    }
  }

  lemma ProbingRespects(types: Types, to: Schema, p: Program, looks: Looks, i: nat, n: string, seen: Val)
    requires Sensible(types) && DistinctKeys(p.assignRequired) && i < |p.assignRequired|
    requires n in looks(p.assignRequired[i].0, p.assignRequired[i].1)
    ensures Respects(Probing(types, to, p.assignRequired[i].0, n, seen), p, looks)
  {
    DistinctIsConsistent(p.assignRequired);
    assert p.assignRequired[i] in p.assignRequired;
  }

  /** `looks` lets assignment `i` see field `n`, which reads something else before the visit than
      `seen`, which it reads after. */
  lemma ProbeFails(types: Types, from: Schema, to: Schema, p: Program, looks: Looks, i: nat, n: string, seen: Val,
                   raw: Fields) returns (mn: Meaning)
    requires Sensible(types) && DistinctNames(to.fields) && Shaped(from, to, p) && i < |p.assignRequired|
    requires n in looks(p.assignRequired[i].0, p.assignRequired[i].1)
    requires !Has(p.assignOptional, n) && !Has(p.assignRequired[..i], n)
    requires var probe := Probing(types, to, p.assignRequired[i].0, n, seen);
             && BothRead(probe, from, to, p, raw) && At(Decode(types, to.fields, raw).value, n) != Some(seen)
             && At(Rewritten(probe, p, raw, Decode(types, to.fields, raw).value).entry, n) == Some(seen)
    ensures Fails(mn, types, from, to, p, looks)
  {
    var a, read := p.assignRequired[i], Decode(types, to.fields, raw).value;
    mn := Probing(types, to, a.0, n, seen);
    ProbingTyped(types, from, to, p, a.0, n, seen);
    ProbingRespects(types, to, p, looks, i, n, seen);
    HalfwayAt(mn, from, to, p, read, i, n);
    ProbeSucceeds(mn, from, to, p, i, raw, read);
    PassedReturns(mn, from, to, p, raw);
    VisitedReads(mn, from, to, p, raw, Rewritten(mn, p, raw, read).entry);
    ProbeShows(types, from, to, p, i, n, seen, raw, read);
    DisagreementShows(mn, from, to, p, raw, Rewritten(mn, p, raw, read).entry);
  }

  /** The assignment wrote the usual value, and would now write another or trap. */
  lemma ProbeShows(types: Types, from: Schema, to: Schema, p: Program, i: nat, n: string, seen: Val, raw: Fields,
                   read: Fields)
    requires Sensible(types) && Shaped(from, to, p) && i < |p.assignRequired|
    requires var probe := Probing(types, to, p.assignRequired[i].0, n, seen);
             && At(Halfway(probe, p, read, i), n) != Some(seen)
             && At(Rewritten(probe, p, raw, read).entry, n) == Some(seen)
    ensures var probe := Probing(types, to, p.assignRequired[i].0, n, seen);
            !Agrees(probe, p, Rewritten(probe, p, raw, read).entry)
  {
    var probe := Probing(types, to, p.assignRequired[i].0, n, seen);
    AssignedAtIndex(probe, from, to, p, raw, read, i);
    ProbeDisagrees(probe, p, Rewritten(probe, p, raw, read).entry, i);
  }

  lemma ProbeDisagrees(mn: Meaning, p: Program, after: Fields, i: nat)
    requires i < |p.assignRequired|
    requires var a := p.assignRequired[i];
             At(after, a.0) != Some(mn.init(a.0, a.1, after)) || mn.panics(a.0, a.1, after)
    ensures !Agrees(mn, p, after)
  {
    assert p.assignRequired[i] in p.assignRequired;
  }

  /** The first visit is not disturbed. */
  lemma ProbeSucceeds(mn: Meaning, from: Schema, to: Schema, p: Program, i: nat, raw: Fields, read: Fields)
    requires Shaped(from, to, p) && i < |p.assignRequired|
    requires forall m, expr, e :: mn.panics(m, expr, e) ==> m == p.assignRequired[i].0
    requires forall m, expr, v :: !mn.rejects(m, expr, v)
    requires !mn.panics(p.assignRequired[i].0, p.assignRequired[i].1, Halfway(mn, p, read, i))
    ensures !Panics(mn, p, raw, read)
  {
    var start := Scratch(read, false);
    var filled := Fill(mn, p.assignOptional, start);
    forall j | 0 <= j < |p.assignOptional| ensures !FillPanics(mn, p.assignOptional, start, j) {
      assert p.assignOptional[j] in p.assignOptional && p.assignRequired[i] in p.assignRequired;
    }
    forall j | 0 <= j < |p.assignRequired| ensures !AssignPanics(mn, p.assignRequired, filled, j) {
      assert j != i ==> p.assignRequired[j].0 != p.assignRequired[i].0;
    }
  }

  /** Well-typed expressions that look where they may and break idempotence, without trapping
      unless a type has one value only. */
  ghost predicate Fails(mn: Meaning, types: Types, from: Schema, to: Schema, p: Program, looks: Looks) {
    && mn.types == types && WellTyped(mn, from, to, p) && Respects(mn, p, looks)
    && (Rich(types) ==> Total(mn)) && !Idempotent(UpVisitor(mn, from, to, p))
  }

  /** An entry in which `n` is not yet what the migration assigns to it. */
  ghost function Unassigned(types: Types, from: Schema, to: Schema, n: string): (e: Fields)
    requires Sensible(types) && TwoValues(types, BaseIn(to.fields, n))
    ensures n in e && types(BaseIn(to.fields, n), e[n]) && e[n] != Usual(types, to, n)
  {
    Barest(types, from, to)[n := OtherThan(types, BaseIn(to.fields, n), Usual(types, to, n))]
  }

  lemma UnassignedReads(mn: Meaning, from: Schema, to: Schema, p: Program, n: string)
    requires Sensible(mn.types) && DistinctNames(to.fields) && Shaped(from, to, p) && !Frozen(mn.types, from, to, p)
    requires Has(p.assignRequired, n) && TwoValues(mn.types, BaseIn(to.fields, n))
    ensures BothRead(mn, from, to, p, Unassigned(mn.types, from, to, n))
  {
    AssignedFits(mn.types, from, to, p, n, Unassigned(mn.types, from, to, n)[n]);
    BarestBut(mn, from, to, p, n, Unassigned(mn.types, from, to, n)[n]);
  }

  lemma AtIndex(t: Table, i: nat, n: string) returns (j: nat)
    requires i <= |t| && Has(t[i..], n)
    ensures i <= j < |t| && t[j].0 == n
  {
    var k :| 0 <= k < |t| - i && t[i..][k].0 == n;
    j := i + k;
  }

  /** A field assigned in the same place or later. */
  lemma ReassignedFails(types: Types, from: Schema, to: Schema, p: Program, looks: Looks, i: nat, n: string)
    returns (mn: Meaning)
    requires Sensible(types) && DistinctNames(to.fields) && Shaped(from, to, p) && !Frozen(types, from, to, p)
    requires i < |p.assignRequired| && n in looks(p.assignRequired[i].0, p.assignRequired[i].1)
    requires Has(p.assignRequired[i..], n) && TwoValues(types, BaseIn(to.fields, n))
    ensures Fails(mn, types, from, to, p, looks)
  {
    var seen, raw := Usual(types, to, n), Unassigned(types, from, to, n);
    AssignedOnce(p.assignRequired, i, n);
    UnassignedReads(Probing(types, to, p.assignRequired[i].0, n, seen), from, to, p, n);
    var j := AtIndex(p.assignRequired, i, n);
    ProbeReassigns(types, from, to, p, i, j, seen, raw);
    NotFilled(from, to, p, p.assignRequired[j]);
    mn := ProbeFails(types, from, to, p, looks, i, n, seen, raw);
  }

  lemma AssignedFits(types: Types, from: Schema, to: Schema, p: Program, n: string, v: Val)
    requires Shaped(from, to, p) && Has(p.assignRequired, n) && types(BaseIn(to.fields, n), v)
    ensures Fits(types, from, to, p, n, v)
  {
    assert (n, Get(p.assignRequired, n).value) in p.assignRequired;
    forall c | c in p.consumers ensures c.source in Names(from.fields) {
      assert ShapedConsumer(from, to, c);
    }
  }

  lemma NotFilled(from: Schema, to: Schema, p: Program, a: (string, string))
    requires Shaped(from, to, p) && a in p.assignRequired
    ensures !Has(p.assignOptional, a.0)
  {
    assert forall b :: b in p.assignOptional ==> b.0 != a.0;
  }

  lemma ProbeReassigns(types: Types, from: Schema, to: Schema, p: Program, i: nat, j: nat, seen: Val, raw: Fields)
    requires Sensible(types) && Shaped(from, to, p) && i <= j < |p.assignRequired|
    requires var n := p.assignRequired[j].0;
             && seen == Usual(types, to, n)
             && BothRead(Probing(types, to, p.assignRequired[i].0, n, seen), from, to, p, raw)
             && n in raw && raw[n] != seen
    ensures var n := p.assignRequired[j].0;
            var probe := Probing(types, to, p.assignRequired[i].0, n, seen);
            var read := Decode(types, to.fields, raw).value;
            At(read, n) != Some(seen) && At(Rewritten(probe, p, raw, read).entry, n) == Some(seen)
  {
    var n := p.assignRequired[j].0;
    var probe, read := Probing(types, to, p.assignRequired[i].0, n, seen), Decode(types, to.fields, raw).value;
    AssignedAtIndex(probe, from, to, p, raw, read, j);
    if j == i {
      assert p.assignRequired[i] in p.assignRequired;
      NotFilled(from, to, p, p.assignRequired[i]);
      AssignedOnce(p.assignRequired, i, n) by { assert p.assignRequired[i..][0].0 == n; }
      HalfwayAt(probe, from, to, p, read, i, n);
    } else {
      assert p.assignRequired[i].0 != n;
    }
  }

  /** A field some consumer writes. */
  lemma ConsumedFails(types: Types, from: Schema, to: Schema, p: Program, looks: Looks, i: nat, c: Consumer)
    returns (mn: Meaning)
    requires Sensible(types) && DistinctNames(to.fields) && Shaped(from, to, p) && !Frozen(types, from, to, p)
    requires i < |p.assignRequired| && c.target in looks(p.assignRequired[i].0, p.assignRequired[i].1)
    requires c in p.consumers && Moves(types, from, to, c)
    ensures Fails(mn, types, from, to, p, looks)
  {
    var n, v := c.target, SourceValue(types, from, to, c.source);
    var seen := if c.conversion.Some? then Passed(types, to, n, v) else v;
    var raw := Moving(types, from, to, c, v, seen);
    var probe := Probing(types, to, p.assignRequired[i].0, n, seen);
    MovingReads(probe, from, to, p, c, v, seen);
    HasPart(p.assignRequired, i, n);
    TargetWritten(probe, from, to, p, raw, Decode(types, to.fields, raw).value, c);
    mn := ProbeFails(types, from, to, p, looks, i, n, seen, raw);
  }

  lemma TargetWritten(mn: Meaning, from: Schema, to: Schema, p: Program, raw: Fields, read: Fields, c: Consumer)
    requires Shaped(from, to, p) && c in p.consumers && Fires(raw, c, At(read, c.target))
    ensures !Has(p.assignOptional, c.target) && !Has(p.assignRequired, c.target)
    ensures At(Rewritten(mn, p, raw, read).entry, c.target) == Some(Converted(mn, c, raw[c.source]))
  {
    assert WriterOf(p.consumers, c.target) == Some(c);
    WriterAlone(from, to, p, c.target);
    RewrittenIs(mn, from, to, p, raw, read, c.target);
  }

  /** What an entry may hold under a consumed key. */
  ghost function SourceValue(types: Types, from: Schema, to: Schema, n: string): (v: Val)
    requires Sensible(types)
    requires n in Names(to.fields) ==> SomeShared(types, BaseIn(from.fields, n), BaseIn(to.fields, n))
    ensures types(BaseIn(from.fields, n), v) && (n in Names(to.fields) ==> types(BaseIn(to.fields, n), v))
  {
    if n in Names(to.fields) then Picked(types, from, to, n) else SomeValue(types, BaseIn(from.fields, n))
  }

  /** An entry with `v` to move, and not yet `seen` where it is to go. */
  ghost function Moving(types: Types, from: Schema, to: Schema, c: Consumer, v: Val, seen: Val): (e: Fields)
    requires Sensible(types) && (c.targetOptional || TwoValues(types, BaseIn(to.fields, c.target)))
  {
    var e := Barest(types, from, to)[c.source := v];
    if c.targetOptional then e else e[c.target := OtherThan(types, BaseIn(to.fields, c.target), seen)]
  }

  lemma MovingReads(mn: Meaning, from: Schema, to: Schema, p: Program, c: Consumer, v: Val, seen: Val)
    requires Sensible(mn.types) && DistinctNames(to.fields) && Shaped(from, to, p) && !Frozen(mn.types, from, to, p)
    requires c in p.consumers && Moves(mn.types, from, to, c) && mn.types(BaseIn(from.fields, c.source), v)
    requires c.source in Names(to.fields) ==> mn.types(BaseIn(to.fields, c.source), v)
    ensures var raw := Moving(mn.types, from, to, c, v, seen);
            && BothRead(mn, from, to, p, raw) && Present(raw, c.source) && raw[c.source] == v
            && At(Decode(mn.types, to.fields, raw).value, c.target) != Some(seen)
            && (c.targetOptional ==> c.target !in Decode(mn.types, to.fields, raw).value)
  {
    var raw := Moving(mn.types, from, to, c, v, seen);
    BarestFits(mn.types, from, to, p);
    assert ShapedConsumer(from, to, c);
    TargetIsNoSource(from, to, p, c);
    assert Fits(mn.types, from, to, p, c.source, v);
    FittingReads(mn, from, to, p, raw);
  }

  // ----- A required field whose consumed key holds another value afterwards -----

  /** Constants, and conversions that change only what they must, except the one into `target`. */
  ghost function Converting(types: Types, to: Schema, target: string, f: Val -> Val, bad: Val -> bool): (mn: Meaning)
    requires Sensible(types)
    ensures mn.types == types
    ensures forall m, expr, e :: mn.init(m, expr, e) == Usual(types, to, m) && !mn.panics(m, expr, e)
    ensures forall m, expr, v :: mn.convert(m, expr, v) == if m == target then f(v) else Passed(types, to, m, v)
    ensures forall m, expr, v :: mn.rejects(m, expr, v) <==> m == target && bad(v)
  {
    Meaning(types,
            (m, expr, e) => Usual(types, to, m),
            (m, expr, v) => if m == target then f(v) else Passed(types, to, m, v),
            (m, expr, e) => false,
            (m, expr, v) => m == target && bad(v))
  }

  lemma ConvertingTyped(types: Types, from: Schema, to: Schema, p: Program, looks: Looks, target: string,
                        f: Val -> Val, bad: Val -> bool)
    requires Sensible(types) && Shaped(from, to, p) && forall v :: types(BaseIn(to.fields, target), f(v))
    ensures WellTyped(Converting(types, to, target, f, bad), from, to, p)
    ensures Respects(Converting(types, to, target, f, bad), p, looks)
  {
    var mn := Converting(types, to, target, f, bad);
    forall c, v | c in p.consumers && types(BaseIn(from.fields, c.source), v)
      ensures types(BaseIn(to.fields, c.target), Converted(mn, c, v)) {
      assert ShapedConsumer(from, to, c);
    }
  }

  function Swap(v: Val, w: Val, x: Val): Val {
    if x == v then w else v
  }

  /** A retype whose conversion swaps two values that read as both types. */
  lemma RetypeFails(types: Types, from: Schema, to: Schema, p: Program, looks: Looks, c: Consumer)
    returns (mn: Meaning)
    requires Sensible(types) && DistinctNames(to.fields) && Shaped(from, to, p) && !Frozen(types, from, to, p)
    requires c in p.consumers && Unstable(types, from, to, p, c) && c.source == c.target
    ensures Fails(mn, types, from, to, p, looks)
  {
    var n := c.source;
    var v, w :| Shared(types, BaseIn(from.fields, n), BaseIn(to.fields, n), v)
        && Shared(types, BaseIn(from.fields, n), BaseIn(to.fields, n), w) && v != w;
    mn := Converting(types, to, n, x => Swap(v, w, x), x => false);
    ConvertingTyped(types, from, to, p, looks, n, x => Swap(v, w, x), x => false);
    var raw := Barest(types, from, to)[n := v];
    assert ShapedConsumer(from, to, c) && Required(to, n);
    BarestBut(mn, from, to, p, n, v);
    RetypeSwaps(mn, from, to, p, c, v, w, raw);
  }

  lemma RetypeSwaps(mn: Meaning, from: Schema, to: Schema, p: Program, c: Consumer, v: Val, w: Val, raw: Fields)
    requires Sensible(mn.types) && DistinctNames(to.fields) && Shaped(from, to, p) && WellTyped(mn, from, to, p)
    requires c in p.consumers && c.source == c.target && !c.targetOptional && v != w && Total(mn)
    requires mn == Converting(mn.types, to, c.target, x => Swap(v, w, x), x => false)
    requires mn.types(BaseIn(from.fields, c.source), v) && mn.types(BaseIn(from.fields, c.source), w)
    requires BothRead(mn, from, to, p, raw) && At(raw, c.source) == Some(v)
    ensures !Idempotent(UpVisitor(mn, from, to, p))
  {
    var read := Decode(mn.types, to.fields, raw).value;
    var after := Rewritten(mn, p, raw, read).entry;
    assert ShapedConsumer(from, to, c);
    RetypeConverts(mn, from, to, p, raw, c);
    TargetWritten(mn, from, to, p, raw, read, c);
    SwapReturns(mn, from, to, p, c, v, w, raw);
    VisitedReads(mn, from, to, p, raw, after);
    RetypeConverts(mn, from, to, p, after, c);
    ConformsMeans(mn.types, to.fields, after);
    assert !Agrees(mn, p, after);
    TotalNeverTraps(mn, from, to, p, raw);
    DisagreementShows(mn, from, to, p, raw, after);
  }

  lemma SwapReturns(mn: Meaning, from: Schema, to: Schema, p: Program, c: Consumer, v: Val, w: Val, raw: Fields)
    requires Sensible(mn.types) && Shaped(from, to, p) && c in p.consumers && c.source == c.target
    requires mn == Converting(mn.types, to, c.target, x => Swap(v, w, x), x => false)
    requires mn.types(BaseIn(from.fields, c.source), v) && mn.types(BaseIn(from.fields, c.source), w)
    requires BothRead(mn, from, to, p, raw)
    ensures GivenBack(mn, from, p, raw)
  {
    forall d | d in p.consumers && d.source == d.target && !d.targetOptional && d.source in raw
      ensures mn.types(BaseIn(from.fields, d.source), Converted(mn, d, raw[d.source])) {
      RetypeConverts(mn, from, to, p, raw, d);
    }
  }

  /** A conversion that tells the constant assigned to `source` from any other value. */
  ghost function Telling(types: Types, to: Schema, source: string, target: string): (mn: Meaning)
    requires Sensible(types)
  {
    Converting(types, to, target,
               v => if v == Usual(types, to, source)
                    then Different(types, BaseIn(to.fields, target), Usual(types, to, target))
                    else Usual(types, to, target),
               v => v == Usual(types, to, source) && !TwoValues(types, BaseIn(to.fields, target)))
  }

  lemma TellingTyped(types: Types, from: Schema, to: Schema, p: Program, looks: Looks, source: string, target: string)
    requires Sensible(types) && Shaped(from, to, p)
    ensures WellTyped(Telling(types, to, source, target), from, to, p)
    ensures Respects(Telling(types, to, source, target), p, looks)
    ensures Rich(types) ==> Total(Telling(types, to, source, target))
  {
    ConvertingTyped(types, from, to, p, looks, target,
                    v => if v == Usual(types, to, source)
                         then Different(types, BaseIn(to.fields, target), Usual(types, to, target))
                         else Usual(types, to, target),
                    v => v == Usual(types, to, source) && !TwoValues(types, BaseIn(to.fields, target)));
  }

  /** A rename whose source the migration overwrites. */
  lemma RenameFails(types: Types, from: Schema, to: Schema, p: Program, looks: Looks, c: Consumer)
    returns (mn: Meaning)
    requires Sensible(types) && DistinctNames(to.fields) && Shaped(from, to, p) && !Frozen(types, from, to, p)
    requires c in p.consumers && Unstable(types, from, to, p, c) && c.source != c.target
    ensures Fails(mn, types, from, to, p, looks)
  {
    var n := c.source;
    mn := Telling(types, to, n, c.target);
    TellingTyped(types, from, to, p, looks, n, c.target);
    assert (n, Get(p.assignRequired, n).value) in p.assignRequired;
    UnassignedReads(mn, from, to, p, n);
    OverwrittenTold(types, from, to, p, c, Unassigned(types, from, to, n));
  }

  lemma TellingSucceeds(types: Types, from: Schema, to: Schema, p: Program, c: Consumer, raw: Fields, read: Fields)
    requires Sensible(types) && Shaped(from, to, p) && c in p.consumers && c.source in raw
    requires raw[c.source] != Usual(types, to, c.source)
    ensures !Panics(Telling(types, to, c.source, c.target), p, raw, read)
  {
    var mn := Telling(types, to, c.source, c.target);
    forall i | 0 <= i < |p.consumers|
      ensures !ConsumePanics(mn, raw, p.consumers, BeforeConsuming(mn, p, read), i) {
      assert p.consumers[i] in p.consumers;
    }
  }

  /** The constant is not converted to what any other value of the field is. */
  lemma ConstantTold(types: Types, from: Schema, to: Schema, c: Consumer, v: Val)
    requires Sensible(types) && ShapedConsumer(from, to, c) && v != Usual(types, to, c.source)
    requires c.conversion.None? || c.source != c.target
    ensures var mn, constant := Telling(types, to, c.source, c.target), Usual(types, to, c.source);
            Converted(mn, c, constant) != Converted(mn, c, v) || Rejects(mn, c, constant)
  {}

  lemma OverwrittenAfter(types: Types, from: Schema, to: Schema, p: Program, c: Consumer, raw: Fields, read: Fields)
    requires Sensible(types) && Shaped(from, to, p) && c in p.consumers && !c.targetOptional
    requires Has(p.assignRequired, c.source) && Present(raw, c.source) && raw[c.source] != Usual(types, to, c.source)
    requires c.source != c.target
    ensures var mn := Telling(types, to, c.source, c.target);
            var after := Rewritten(mn, p, raw, read).entry;
            && At(after, c.source) == Some(Usual(types, to, c.source))
            && (Conforms(types, to.fields, after) ==> !Agrees(mn, p, after))
  {
    var mn := Telling(types, to, c.source, c.target);
    var after := Rewritten(mn, p, raw, read).entry;
    assert ShapedConsumer(from, to, c);
    TargetWritten(mn, from, to, p, raw, read, c);
    AssignedIs(mn, from, to, p, raw, read, c.source);
    ConstantTold(types, from, to, c, raw[c.source]);
    if Conforms(types, to.fields, after) {
      ConformsMeans(types, to.fields, after);
      assert Fires(after, c, At(after, c.target));
    }
  }

  lemma OverwrittenTold(types: Types, from: Schema, to: Schema, p: Program, c: Consumer, raw: Fields)
    requires Sensible(types) && DistinctNames(to.fields) && Shaped(from, to, p)
    requires c in p.consumers && Unstable(types, from, to, p, c) && c.source != c.target
    requires c.source in raw && raw[c.source] != Usual(types, to, c.source)
    requires WellTyped(Telling(types, to, c.source, c.target), from, to, p)
             && BothRead(Telling(types, to, c.source, c.target), from, to, p, raw)
    ensures !Idempotent(UpVisitor(Telling(types, to, c.source, c.target), from, to, p))
  {
    var mn, read := Telling(types, to, c.source, c.target), Decode(types, to.fields, raw).value;
    var after := Rewritten(mn, p, raw, read).entry;
    assert (c.source, Get(p.assignRequired, c.source).value) in p.assignRequired;
    OverwrittenAfter(types, from, to, p, c, raw, read);
    TellingReturns(types, from, to, p, c, raw);
    VisitedReads(mn, from, to, p, raw, after);
    TellingSucceeds(types, from, to, p, c, raw, read);
    DisagreementShows(mn, from, to, p, raw, after);
  }

  lemma TellingReturns(types: Types, from: Schema, to: Schema, p: Program, c: Consumer, raw: Fields)
    requires Sensible(types) && Shaped(from, to, p) && c in p.consumers && c.source != c.target
    requires BothRead(Telling(types, to, c.source, c.target), from, to, p, raw)
    ensures GivenBack(Telling(types, to, c.source, c.target), from, p, raw)
  {
    var mn := Telling(types, to, c.source, c.target);
    forall d | d in p.consumers && d.source == d.target && !d.targetOptional && d.source in raw
      ensures mn.types(BaseIn(from.fields, d.source), Converted(mn, d, raw[d.source])) {
      RetypeConverts(mn, from, to, p, raw, d);
      assert ShapedConsumer(from, to, c) && ShapedConsumer(from, to, d);
    }
  }

  // ----- The theorem -----

  lemma UnrepeatableFails(types: Types, from: Schema, to: Schema, p: Program, looks: Looks) returns (mn: Meaning)
    requires Sensible(types) && DistinctNames(to.fields) && Shaped(from, to, p)
    requires !Repeatable(types, from, to, p, looks) && !Frozen(types, from, to, p)
    ensures Fails(mn, types, from, to, p, looks)
  {
    if c :| c in p.consumers && Unstable(types, from, to, p, c) {
      if c.source == c.target {
        mn := RetypeFails(types, from, to, p, looks, c);
      } else {
        mn := RenameFails(types, from, to, p, looks, c);
      }
    } else {
      var i, n :| 0 <= i < |p.assignRequired| && n in looks(p.assignRequired[i].0, p.assignRequired[i].1)
          && Unsettled(types, from, to, p, i, n);
      if Has(p.assignRequired[i..], n) && TwoValues(types, BaseIn(to.fields, n)) {
        mn := ReassignedFails(types, from, to, p, looks, i, n);
      } else {
        var c :| c in p.consumers && c.target == n && Moves(types, from, to, c);
        mn := ConsumedFails(types, from, to, p, looks, i, c);
      }
    }
  }

  /** Idempotence of an emitted program, given which fields its expressions may look at and
      whatever they compute from them. It takes more than the generator's note says: no assigned
      expression may look at its own field, at one assigned later or at one a rename writes, and
      no required field may draw on a consumed key that is still there with another value — one
      that is assigned, or that is retyped to a type sharing values with the old one. */
  lemma IdempotentIff(types: Types, from: Schema, to: Schema, p: Program, looks: Looks)
    requires Sensible(types) && DistinctNames(to.fields) && Shaped(from, to, p)
    ensures (forall mn: Meaning :: mn.types == types && WellTyped(mn, from, to, p) && Respects(mn, p, looks) ==>
              Idempotent(UpVisitor(mn, from, to, p)))
       <==> Repeatable(types, from, to, p, looks) || Frozen(types, from, to, p)
    ensures Repeatable(types, from, to, p, looks) || Frozen(types, from, to, p)
            || exists mn :: Fails(mn, types, from, to, p, looks)
  {
    if Repeatable(types, from, to, p, looks) || Frozen(types, from, to, p) {
      forall mn: Meaning | mn.types == types && WellTyped(mn, from, to, p) && Respects(mn, p, looks)
        ensures Idempotent(UpVisitor(mn, from, to, p)) {
        RepeatableIsIdempotent(mn, from, to, p, looks);
      }
    } else {
      var mn := UnrepeatableFails(types, from, to, p, looks);
    }
  }

  lemma GeneratedIdempotentIff(types: Types, from: Schema, to: Schema, plan: MigrationPlan, looks: Looks)
    requires Sensible(types) && DistinctNames(to.fields) && DiffOf(from, to, plan).Accepted?
    requires GenerateOf(from, to, DiffOf(from, to, plan).value, plan).Accepted?
    ensures var p := GenerateOf(from, to, DiffOf(from, to, plan).value, plan).value;
            (forall mn: Meaning :: mn.types == types && WellTyped(mn, from, to, p) && Respects(mn, p, looks) ==>
                Idempotent(UpVisitor(mn, from, to, p)))
            <==> Repeatable(types, from, to, p, looks) || Frozen(types, from, to, p)
  {
    GeneratedIsShaped(from, to, plan);
    IdempotentIff(types, from, to, GenerateOf(from, to, DiffOf(from, to, plan).value, plan).value, looks);
  }

  /** Somewhere the conversion of a retyped field runs, unless its new type is optional. */
  lemma RetypeRunsIff(mn: Meaning, from: Schema, to: Schema, p: Program, c: Consumer)
    requires Sensible(mn.types) && DistinctNames(to.fields) && Shaped(from, to, p)
    requires c in p.consumers && c.source == c.target
    ensures (exists raw :: BothRead(mn, from, to, p, raw)
                           && Fires(raw, c, At(Decode(mn.types, to.fields, raw).value, c.target)))
       <==> !c.targetOptional && !Frozen(mn.types, from, to, p)
  {
    if raw :| BothRead(mn, from, to, p, raw) && Fires(raw, c, At(Decode(mn.types, to.fields, raw).value, c.target)) {
      RetypeConverts(mn, from, to, p, raw, c);
    }
    FrozenIff(mn, from, to, p);
    if !c.targetOptional && !Frozen(mn.types, from, to, p) {
      var raw :| BothRead(mn, from, to, p, raw);
      RetypeConverts(mn, from, to, p, raw, c);
    }
  }
}
