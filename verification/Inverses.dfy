/** The laws of the derived migration: both directions may be repeated, neither is more than it
    claims, and exactly which entries `down` gives back. */
module Inverses {
  import opened Host
  import opened KeyLog
  import opened Schemas
  import opened Generated
  import opened Derived
  import opened Storage
  import opened Protocol
  import opened Forward
  import opened RoundTrip

  function DerivedUp(types: Types, eval: Eval, a: Attributes): Visitor
    requires ExpandOf(a).Expanded?
  {
    (key, entry) => VisitOf(types, a.shape.value, eval, ExpandOf(a).up, entry)
  }

  /** Without `reversible` the trait's default refuses. */
  function DerivedDown(types: Types, eval: Eval, a: Attributes): Visitor
    requires ExpandOf(a).Expanded?
  {
    (key, entry) => if a.reversible then VisitOf(types, a.shape.value, eval, ExpandOf(a).down, entry)
                    else Refused(DownNotSupported)
  }

  function DerivedMigration(types: Types, eval: Eval, a: Attributes): Migration
    requires ExpandOf(a).Expanded?
  {
    Migration(a.from, a.to, DerivedUp(types, eval, a), DerivedDown(types, eval, a), a.reversible)
  }

  /** The derive accepts the attributes, and the code it emits compiles. */
  ghost predicate Derives(types: Types, eval: Eval, a: Attributes) {
    && Sensible(types) && ExpandOf(a).Expanded?
    && DistinctNames(a.shape.value) && Compiles(types, a.shape.value, eval, a.init)
  }

  // ----- The emitted bodies -----

  /** Running the emitted `up` body populates the declared fields, all of them and no other, and
      overwrites nothing. */
  lemma UpBodyFills(types: Types, eval: Eval, a: Attributes, d: Scratch)
    requires Derives(types, eval, a) && Execute(eval, ExpandOf(a).up, d).Some?
    ensures FilledUp(types, a.shape.value, a.init, d, Execute(eval, ExpandOf(a).up, d).value)
  {
    FillsFill(types, a.shape.value, eval, a.init, d);
  }

  /** Running the emitted `down` body removes exactly those fields; without `reversible` nothing is
      emitted, and nothing is removed. */
  lemma DownBodyClears(types: Types, eval: Eval, a: Attributes, d: Scratch)
    requires ExpandOf(a).Expanded?
    ensures var after := Execute(eval, ExpandOf(a).down, d);
            && after.Some?
            && (forall n :: n in after.value.entry <==> n in d.entry && !(a.reversible && IsInit(a.init, n)))
            && (forall n :: n in after.value.entry ==> after.value.entry[n] == d.entry[n])
    ensures a.reversible || ExpandOf(a).down == []
  {
    ClearsClear(eval, a.init, d);
  }

  /** The field declared at `i` is filled with what its own expression computes, and that
      expression runs on an entry in which the fields declared before it have been filled already
      and no others. */
  lemma UpBodyComputes(types: Types, eval: Eval, a: Attributes, d: Scratch, i: nat) returns (before: Fields)
    requires Derives(types, eval, a) && Execute(eval, ExpandOf(a).up, d).Some?
    requires i < |a.init| && a.init[i].0 !in d.entry && !IsInit(a.init[..i], a.init[i].0)
    ensures forall n :: n in before <==> n in d.entry || IsInit(a.init[..i], n)
    ensures forall n :: n in d.entry ==> before[n] == d.entry[n]
    ensures var after := Execute(eval, ExpandOf(a).up, d).value.entry;
            a.init[i].0 in after && Some(after[a.init[i].0]) == eval(a.init[i].1, before)
  {
    PrefixFills(eval, a.init, d, i);
    PrefixFills(eval, a.init, d, i + 1);
    before := Execute(eval, Fills(a.init[..i]), d).value.entry;
    FillsFill(types, a.shape.value, eval, a.init[..i], d);
    FillsNext(eval, a.init, d, i);
    FillsKeep(eval, a.init, d, i + 1, a.init[i].0);
  }

  lemma FillsNext(eval: Eval, init: seq<(string, string)>, d: Scratch, i: nat)
    requires i < |init| && Execute(eval, Fills(init[..i]), d).Some? && Execute(eval, Fills(init[..i + 1]), d).Some?
    requires init[i].0 !in Execute(eval, Fills(init[..i]), d).value.entry
    ensures var after := Execute(eval, Fills(init[..i + 1]), d).value.entry;
            init[i].0 in after
            && Some(after[init[i].0]) == eval(init[i].1, Execute(eval, Fills(init[..i]), d).value.entry)
  {
    assert Fills(init[..i + 1])[..i] == Fills(init[..i]);
  }

  lemma PrefixFills(eval: Eval, init: seq<(string, string)>, d: Scratch, n: nat)
    requires n <= |init| && Execute(eval, Fills(init), d).Some?
    ensures Execute(eval, Fills(init[..n]), d).Some?
  {
    assert Fills(init)[..n] == Fills(init[..n]);
    if Execute(eval, Fills(init[..n]), d).None? {
      TrapStops(eval, Fills(init), d, n);
    }
  }

  lemma {:induction false} FillsKeep(eval: Eval, init: seq<(string, string)>, d: Scratch, i: nat, n: string)
    requires i <= |init| && Execute(eval, Fills(init), d).Some?
    requires Execute(eval, Fills(init[..i]), d).Some? && n in Execute(eval, Fills(init[..i]), d).value.entry
    ensures var after := Execute(eval, Fills(init), d).value.entry;
            n in after && after[n] == Execute(eval, Fills(init[..i]), d).value.entry[n]
  {
    if i == |init| {
      assert init[..i] == init;
    } else {
      var front := init[..|init| - 1];
      assert front[..i] == init[..i] && Fills(init)[..|init| - 1] == Fills(front);
      FillsKeep(eval, front, d, i, n);
    }
  }

  /** The derive accepts exactly the attributes that name one step, a shape and a change, and
      nothing it cannot handle; otherwise it says the first thing that is wrong. */
  lemma ExpandAnswers(a: Attributes)
    ensures ExpandOf(a).Expanded?
       <==> a.refusals == [] && a.to == a.from + 1 && a.shape.Some? && (a.init != [] || a.dropped != [])
    ensures ExpandOf(a) == NotExpanded(ConsumesOldKeys) <==> a.refusals != []
    ensures ExpandOf(a) == NotExpanded(SkipsVersions) <==> a.refusals == [] && a.to != a.from + 1
    ensures ExpandOf(a) == NotExpanded(NoEntryType) <==> a.refusals == [] && a.to == a.from + 1 && a.shape.None?
  {}

  // ----- Up -----

  lemma FilledConforms(types: Types, fields: seq<Field>, init: seq<(string, string)>, raw: Fields, after: Scratch)
    requires Sensible(types) && DistinctNames(fields) && Readable(types, fields, raw)
    requires FilledUp(types, fields, init, Scratch(Decode(types, fields, raw).value, false), after)
    ensures Conforms(types, fields, after.entry)
  {
    var read := Decode(types, fields, raw).value;
    DecodeConforms(types, fields, raw);
    ConformsMeans(types, fields, read);
    forall f | f in fields ensures FieldReads(types, f, after.entry) {
      FieldInIsTheField(fields, f);
      assert FieldReads(types, f, read);
    }
    forall n | n in after.entry ensures n in Names(fields) && after.entry[n] != Void {
      if n !in read {
        assert OptionalIn(fields, n);
      }
    }
    ConformsMeans(types, fields, after.entry);
  }

  /** On a fully populated entry no expression runs, so none can trap. */
  lemma {:induction false} FillsNothing(eval: Eval, init: seq<(string, string)>, d: Scratch)
    requires forall n :: IsInit(init, n) ==> n in d.entry
    ensures Execute(eval, Fills(init), d) == Some(d)
  {
    if init != [] {
      var front, last := init[..|init| - 1], init[|init| - 1];
      assert Fills(init)[..|init| - 1] == Fills(front);
      forall n ensures IsInit(init, n) <==> IsInit(front, n) || n == last.0 { IsInitFront(init, n); }
      assert IsInit(init, last.0);
      FillsNothing(eval, front, d);
    }
  }

  /** `up` may be repeated, whatever its expressions compute from the entry. */
  lemma UpIdempotent(types: Types, eval: Eval, a: Attributes)
    requires Derives(types, eval, a)
    ensures Idempotent(DerivedUp(types, eval, a))
  {
    var fields, init := a.shape.value, a.init;
    var up := DerivedUp(types, eval, a);
    forall key, entry: Option<Val> ensures Settles(up, key, entry) {
      var visit := up(key, entry);
      if visit.Visited? && visit.entry != entry {
        var raw := entry.value.fields;
        FillsFill(types, fields, eval, init, Scratch(Decode(types, fields, raw).value, false));
        var after := Execute(eval, Fills(init), Scratch(Decode(types, fields, raw).value, false)).value;
        FilledConforms(types, fields, init, raw, after);
        FillsNothing(eval, init, Scratch(after.entry, false));
      }
    }
  }

  /** An entry visited again after it was migrated is reported as already current. */
  lemma RevisitIsCurrent(types: Types, eval: Eval, a: Attributes, entry: Option<Val>)
    requires Derives(types, eval, a)
    requires var visit := VisitOf(types, a.shape.value, eval, ExpandOf(a).up, entry);
             visit.Visited? && visit.outcome.Migrated?
    ensures var after := VisitOf(types, a.shape.value, eval, ExpandOf(a).up, entry).entry;
            VisitOf(types, a.shape.value, eval, ExpandOf(a).up, after) == Visited(after, AlreadyCurrent)
  {
    var fields, init := a.shape.value, a.init;
    var start := Scratch(Decode(types, fields, entry.value.fields).value, false);
    FillsFill(types, fields, eval, init, start);
    var after := Execute(eval, Fills(init), start).value;
    FilledConforms(types, fields, init, entry.value.fields, after);
    FillsNothing(eval, init, Scratch(after.entry, false));
  }

  /** `up` populates every `init` field of an entry it can read, keeps every populated field of
      the shape, touches no other, and leaves what it cannot read alone. */
  lemma UpFills(types: Types, eval: Eval, a: Attributes, raw: Fields, n: string)
    requires Derives(types, eval, a)
    requires VisitOf(types, a.shape.value, eval, ExpandOf(a).up, Some(Record(raw))).Visited?
    ensures var after := VisitOf(types, a.shape.value, eval, ExpandOf(a).up, Some(Record(raw))).entry;
            && after.Some? && after.value.Record?
            && var now := after.value.fields;
            && (!Readable(types, a.shape.value, raw) ==> now == raw)
            && (n in Names(a.shape.value) && Present(raw, n) ==> n in now && now[n] == raw[n])
            && (Readable(types, a.shape.value, raw) && IsInit(a.init, n) ==> Present(now, n))
            && (Present(now, n) && !Present(raw, n) ==> IsInit(a.init, n))
  {
    var fields, init := a.shape.value, a.init;
    if Readable(types, fields, raw) {
      var start := Scratch(Decode(types, fields, raw).value, false);
      FillsFill(types, fields, eval, init, start);
      var after := Execute(eval, Fills(init), start).value;
      FilledConforms(types, fields, init, raw, after);
      ConformsMeans(types, fields, after.entry);
    }
  }

  /** What a visit of `up` that does not trap reports: skipped if there is no entry or none of this
      shape, already current if every declared field has a value, migrated otherwise. */
  lemma UpReports(types: Types, eval: Eval, a: Attributes, entry: Option<Val>)
    requires Derives(types, eval, a) && VisitOf(types, a.shape.value, eval, ExpandOf(a).up, entry).Visited?
    ensures var outcome := VisitOf(types, a.shape.value, eval, ExpandOf(a).up, entry).outcome;
            && (outcome.Skipped? <==> !Ours(types, a, entry))
            && (outcome.AlreadyCurrent? <==>
                  Ours(types, a, entry) && forall n :: IsInit(a.init, n) ==> Present(entry.value.fields, n))
  {
    if Ours(types, a, entry) {
      var start := Scratch(Decode(types, a.shape.value, entry.value.fields).value, false);
      UpBodyFills(types, eval, a, start);
      forall n | IsInit(a.init, n) ensures Present(entry.value.fields, n) <==> n in start.entry {
        var i :| 0 <= i < |a.init| && a.init[i].0 == n;
        assert a.init[i] in a.init && OptionalIn(a.shape.value, n);
      }
    }
  }

  predicate Ours(types: Types, a: Attributes, entry: Option<Val>)
    requires ExpandOf(a).Expanded?
  {
    entry.Some? && entry.value.Record? && Readable(types, a.shape.value, entry.value.fields)
  }

  // ----- Down -----

  /** `down` reports the same way: already current if no declared field has a value. It never traps,
      and without `reversible` it refuses everything. */
  lemma DownReports(types: Types, eval: Eval, a: Attributes, key: Val, entry: Option<Val>)
    requires Derives(types, eval, a)
    ensures !a.reversible ==> DerivedDown(types, eval, a)(key, entry) == Refused(DownNotSupported)
    ensures a.reversible ==>
              var visit := DerivedDown(types, eval, a)(key, entry);
              && visit.Visited?
              && (visit.outcome.Skipped? <==> !Ours(types, a, entry))
              && (visit.outcome.AlreadyCurrent? <==>
                    Ours(types, a, entry) && forall n :: IsInit(a.init, n) ==> !Present(entry.value.fields, n))
              && (!visit.outcome.Migrated? ==> visit.entry == entry)
  {
    if a.reversible && Ours(types, a, entry) {
      var start := Scratch(Decode(types, a.shape.value, entry.value.fields).value, false);
      ClearsClear(eval, a.init, start);
      forall n | IsInit(a.init, n) ensures Present(entry.value.fields, n) <==> n in start.entry {
        var i :| 0 <= i < |a.init| && a.init[i].0 == n;
        assert a.init[i] in a.init && OptionalIn(a.shape.value, n);
      }
    }
  }

  lemma DownIdempotent(types: Types, eval: Eval, a: Attributes)
    requires Derives(types, eval, a)
    ensures Idempotent(DerivedDown(types, eval, a))
  {
    var fields, init := a.shape.value, a.init;
    var down := DerivedDown(types, eval, a);
    forall key, entry: Option<Val> ensures Settles(down, key, entry) {
      var visit := down(key, entry);
      if visit.Visited? && visit.entry != entry {
        var start := Scratch(Decode(types, fields, entry.value.fields).value, false);
        var after := Execute(eval, Clears(init), start).value;
        ClearsClear(eval, init, start);
        ClearedConforms(types, fields, eval, init, entry.value.fields, after);
        ClearsClear(eval, init, Scratch(after.entry, false));
      }
    }
  }

  lemma ClearedConforms(types: Types, fields: seq<Field>, eval: Eval, init: seq<(string, string)>, raw: Fields,
                        after: Scratch)
    requires DistinctNames(fields) && Compiles(types, fields, eval, init) && Readable(types, fields, raw)
    requires Execute(eval, Clears(init), Scratch(Decode(types, fields, raw).value, false)) == Some(after)
    ensures Conforms(types, fields, after.entry)
  {
    var read := Decode(types, fields, raw).value;
    DecodeConforms(types, fields, raw);
    ConformsMeans(types, fields, read);
    ClearsClear(eval, init, Scratch(read, false));
    forall f | f in fields ensures FieldReads(types, f, after.entry) {
      FieldInIsTheField(fields, f);
      assert FieldReads(types, f, read);
      if IsInit(init, f.name) {
        assert OptionalIn(fields, f.name);
      }
    }
    ConformsMeans(types, fields, after.entry);
  }

  // ----- Down after up -----

  /** Nothing to restore, or exactly the old shape: readable, as the contract would write it, and
      none of the new fields there. */
  ghost predicate Restorable(types: Types, fields: seq<Field>, init: seq<(string, string)>, raw: Fields) {
    || !Readable(types, fields, raw)
    || init == []
    || (Conforms(types, fields, raw) && forall n :: IsInit(init, n) ==> n !in raw)
  }

  ghost function ThereAndBack(types: Types, eval: Eval, a: Attributes, entry: Option<Val>): Visit
    requires ExpandOf(a).Expanded? && VisitOf(types, a.shape.value, eval, ExpandOf(a).up, entry).Visited?
  {
    VisitOf(types, a.shape.value, eval, ExpandOf(a).down,
            VisitOf(types, a.shape.value, eval, ExpandOf(a).up, entry).entry)
  }

  lemma ThereAndBackIs(types: Types, eval: Eval, a: Attributes, raw: Fields)
    requires Derives(types, eval, a) && a.reversible
    requires Readable(types, a.shape.value, raw) && a.init != []
             && VisitOf(types, a.shape.value, eval, ExpandOf(a).up, Some(Record(raw))).Visited?
    ensures var back := ThereAndBack(types, eval, a, Some(Record(raw)));
            var read := Decode(types, a.shape.value, raw).value;
            && back.Visited? && back.entry.Some? && back.entry.value.Record?
            && (forall n :: n in back.entry.value.fields <==> n in read && !IsInit(a.init, n))
            && (forall n :: n in back.entry.value.fields ==> back.entry.value.fields[n] == read[n])
  {
    var fields, init := a.shape.value, a.init;
    var read := Decode(types, fields, raw).value;
    var start := Scratch(read, false);
    FillsFill(types, fields, eval, init, start);
    var after := Execute(eval, Fills(init), start).value;
    FilledConforms(types, fields, init, raw, after);
    assert IsInit(init, init[0].0);
    var held := if after.changed then after.entry else read;
    ConformsMeans(types, fields, after.entry);
    DecodeConforms(types, fields, raw);
    assert Readable(types, fields, held);
    ClearsClear(eval, init, Scratch(held, false));
  }

  /** `down` after `up` gives back exactly the restorable entries. An entry that already held a
      value in one of the fields loses it, and one with undeclared keys or `Void`s loses those. */
  lemma RestoredIff(types: Types, eval: Eval, a: Attributes, raw: Fields)
    requires Derives(types, eval, a) && a.reversible
    requires VisitOf(types, a.shape.value, eval, ExpandOf(a).up, Some(Record(raw))).Visited?
    ensures var back := ThereAndBack(types, eval, a, Some(Record(raw)));
            back.Visited? && (back.entry == Some(Record(raw)) <==> Restorable(types, a.shape.value, a.init, raw))
  {
    var fields, init := a.shape.value, a.init;
    if Readable(types, fields, raw) && init != [] {
      ThereAndBackIs(types, eval, a, raw);
      RestoredMeans(types, fields, init, raw,
                    ThereAndBack(types, eval, a, Some(Record(raw))).entry.value.fields);
    } else if Readable(types, fields, raw) {
      var start := Scratch(Decode(types, fields, raw).value, false);
      assert Fills(init) == [] && Clears(init) == [];
      assert Execute(eval, [], start) == Some(start);
    }
  }

  lemma RestoredMeans(types: Types, fields: seq<Field>, init: seq<(string, string)>, raw: Fields, back: Fields)
    requires Readable(types, fields, raw) && init != []
    requires var read := Decode(types, fields, raw).value;
             && (forall n :: n in back <==> n in read && !IsInit(init, n))
             && (forall n :: n in back ==> back[n] == read[n])
    ensures back == raw <==> Restorable(types, fields, init, raw)
  {
    var read := Decode(types, fields, raw).value;
    if back == raw {
      assert forall n :: n in read <==> n in raw;
      assert read == raw;
    }
    if Conforms(types, fields, raw) && forall n :: IsInit(init, n) ==> n !in raw {
      assert forall n :: n in back <==> n in raw;
      assert back == raw;
    }
  }

  /** The additive change the derive is for: the new shape is the old one plus the `init` fields. */
  ghost predicate Adds(prior: seq<Field>, fields: seq<Field>, init: seq<(string, string)>) {
    && (forall f :: f in prior ==> f in fields && !IsInit(init, f.name))
    && (forall f :: f in fields ==> f in prior || (f.optional && IsInit(init, f.name) && f.name !in Names(prior)))
  }

  lemma OldShapeIsRestorable(types: Types, prior: seq<Field>, fields: seq<Field>, init: seq<(string, string)>,
                             raw: Fields)
    requires Adds(prior, fields, init) && Conforms(types, prior, raw)
    ensures Readable(types, fields, raw) && Restorable(types, fields, init, raw)
  {
    ConformsMeans(types, prior, raw);
    forall f | f in fields ensures FieldReads(types, f, raw) {
      if f in prior {
        assert FieldReads(types, f, raw);
      }
    }
    forall n | n in raw ensures n in Names(fields) && !IsInit(init, n) {
      var f :| f in prior && f.name == n;
      assert f in fields;
    }
    ConformsMeans(types, fields, raw);
  }

  // ----- A derived migration in the protocol -----

  /** Absent, foreign, or exactly old-shaped, and no expression traps on it. */
  ghost predicate Undoable(types: Types, eval: Eval, a: Attributes, entry: Option<Val>)
    requires ExpandOf(a).Expanded?
  {
    && VisitOf(types, a.shape.value, eval, ExpandOf(a).up, entry).Visited?
    && (entry.Some? && entry.value.Record? ==> Restorable(types, a.shape.value, a.init, entry.value.fields))
  }

  lemma UndoableIff(types: Types, eval: Eval, a: Attributes, key: Val, entry: Option<Val>)
    requires Derives(types, eval, a) && a.reversible
    ensures Reversible(DerivedMigration(types, eval, a), key, entry)
       <==> Undoable(types, eval, a, entry)
  {
    var fields, init := a.shape.value, a.init;
    if entry.Some? && entry.value.Record? && VisitOf(types, fields, eval, ExpandOf(a).up, entry).Visited? {
      var raw := entry.value.fields;
      RestoredIff(types, eval, a, raw);
      if Restorable(types, fields, init, raw) && Readable(types, fields, raw) {
        var start := Scratch(Decode(types, fields, raw).value, false);
        ClearsClear(eval, init, start);
      }
    }
  }

  /** Migrating a contract with a derived `reversible` migration and rolling it back, under any
      batch limits, restores every entry, when each indexed entry was old-shaped or foreign. */
  lemma DerivedRoundTrip(types: Types, eval: Eval, a: Attributes,
                         s0: Snapshot, forward: seq<Action>, back: seq<Action>, log: seq<Val>)
    requires Derives(types, eval, a) && a.reversible
    requires Cycle(s0, DerivedMigration(types, eval, a), forward, back)
    requires Exact(s0.logs, a.from, log) && Exact(s0.logs, a.to, [])
    requires forall k :: k in log ==> Undoable(types, eval, a, Lookup(s0.entries, k))
    ensures var end := CycleEnd(s0, DerivedMigration(types, eval, a), forward, back);
            && end.version == s0.version && end.entries == s0.entries
            && ((forall x :: x in forward ==> !x.DoAbort?) ==> ReadsAs(end.logs, a.from, log))
  {
    UpIdempotent(types, eval, a);
    forall k | k in log ensures Reversible(DerivedMigration(types, eval, a), k, Lookup(s0.entries, k)) {
      UndoableIff(types, eval, a, k, Lookup(s0.entries, k));
    }
    RoundTripRestores(s0, DerivedMigration(types, eval, a), forward, back, log);
  }
}
