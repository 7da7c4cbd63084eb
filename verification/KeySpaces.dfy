/** The key-space gate (`key_space_findings` in `diff.rs`): changes to the enum that storage keys
    are encoded from, judged against that encoding. */
module KeySpaces {
  import opened Host
  import opened Diffs
  import opened Gate

  /** One variant: its name, its payload's normalized text, and whether it is the framework's. */
  datatype KeyVariant = KeyVariant(name: string, payload: Option<string>, migration: bool)

  datatype KeySpace = KeySpace(name: string, variants: seq<KeyVariant>)

  datatype KeyChange = VariantAdded | PayloadChanged | MarkMoved | VariantRemoved | VariantsReordered

  datatype KeyFinding = KeyFinding(variant: string, kind: KeyChange, severity: Severity)

  function VariantIn(variants: seq<KeyVariant>, name: string): (v: Option<KeyVariant>)
    ensures v.Some? ==> v.value in variants && v.value.name == name
    ensures v.None? ==> forall w :: w in variants ==> w.name != name
  {
    if variants == [] then None
    else if variants[0].name == name then Some(variants[0])
    else VariantIn(variants[1..], name)
  }

  ghost predicate DistinctVariants(variants: seq<KeyVariant>) {
    forall i, j :: 0 <= i < j < |variants| ==> variants[i].name != variants[j].name
  }

  // ----- The gate -----

  function KeptFindings(prior: KeySpace, v: KeyVariant): seq<KeyFinding> {
    match VariantIn(prior.variants, v.name)
    case None => [KeyFinding(v.name, VariantAdded, Info)]
    case Some(was) =>
      (if was.payload != v.payload then [KeyFinding(v.name, PayloadChanged, Denied)] else [])
      + (if was.migration != v.migration then [KeyFinding(v.name, MarkMoved, Denied)] else [])
  }

  function KeptWalk(prior: KeySpace, variants: seq<KeyVariant>): seq<KeyFinding> {
    if variants == [] then []
    else KeptWalk(prior, variants[..|variants| - 1]) + KeptFindings(prior, variants[|variants| - 1])
  }

  function RemovedWalk(next: KeySpace, variants: seq<KeyVariant>): seq<KeyFinding> {
    if variants == [] then [] else
      var front, last := RemovedWalk(next, variants[..|variants| - 1]), variants[|variants| - 1];
      if VariantIn(next.variants, last.name).Some? then front
      else front + [KeyFinding(last.name, VariantRemoved, Denied)]
  }

  function VariantNames(variants: seq<KeyVariant>): seq<string> {
    seq(|variants|, i requires 0 <= i < |variants| => variants[i].name)
  }

  function FindingsOf(prior: KeySpace, next: KeySpace): seq<KeyFinding> {
    var changes := KeptWalk(prior, next.variants) + RemovedWalk(next, prior.variants);
    if changes == [] && VariantNames(prior.variants) != VariantNames(next.variants)
    then [KeyFinding("", VariantsReordered, Info)] else changes
  }

  method KeySpaceFindings(prior: KeySpace, next: KeySpace) returns (findings: seq<KeyFinding>)
    ensures findings == FindingsOf(prior, next)
  {
    findings := ClassifyKept(prior, next);
    for i := 0 to |prior.variants|
      invariant findings == KeptWalk(prior, next.variants) + RemovedWalk(next, prior.variants[..i])
    {
      assert prior.variants[..i + 1][..i] == prior.variants[..i];
      if VariantIn(next.variants, prior.variants[i].name).None? {
        findings := findings + [KeyFinding(prior.variants[i].name, VariantRemoved, Denied)];
      }
    }
    assert prior.variants[..|prior.variants|] == prior.variants;
    if findings == [] && VariantNames(prior.variants) != VariantNames(next.variants) {
      findings := [KeyFinding("", VariantsReordered, Info)];
    }
  }

  method ClassifyKept(prior: KeySpace, next: KeySpace) returns (findings: seq<KeyFinding>)
    ensures findings == KeptWalk(prior, next.variants)
  {
    findings := [];
    for i := 0 to |next.variants|
      invariant findings == KeptWalk(prior, next.variants[..i])
    {
      var variant := next.variants[i];
      assert next.variants[..i + 1][..i] == next.variants[..i];
      ghost var before := findings;
      var was := VariantIn(prior.variants, variant.name);
      if was.None? {
        findings := findings + [KeyFinding(variant.name, VariantAdded, Info)];
      } else {
        if was.value.payload != variant.payload {
          findings := findings + [KeyFinding(variant.name, PayloadChanged, Denied)];
        }
        if was.value.migration != variant.migration {
          findings := findings + [KeyFinding(variant.name, MarkMoved, Denied)];
        }
      }
      assert findings == before + KeptFindings(prior, variant);
    }
    assert next.variants[..|next.variants|] == next.variants;
  }

  // ----- The encoding -----

  /** Which value sequences encode a payload of the given text. */
  type Payloads = (Option<string>, seq<Val>) -> bool

  /** Every payload type has a value. One value may encode several. */
  ghost predicate Inhabitable(payloads: Payloads) {
    forall t :: HasPayload(payloads, t)
  }

  ghost predicate HasPayload(payloads: Payloads, t: Option<string>) {
    exists p :: payloads(t, p)
  }

  /** A key: the variant's name as a symbol, then the payload. */
  function EncodeKey(name: string, payload: seq<Val>): Val {
    Vector([Symbol(name)] + payload)
  }

  function DecodeKey(payloads: Payloads, space: KeySpace, key: Val): Option<(string, seq<Val>)> {
    if !key.Vector? || key.items == [] || !key.items[0].Symbol? then None
    else
      var v := VariantIn(space.variants, key.items[0].name);
      if v.Some? && payloads(v.value.payload, key.items[1..]) then Some((v.value.name, key.items[1..])) else None
  }

  lemma KeyRoundTrip(payloads: Payloads, space: KeySpace, name: string, payload: seq<Val>)
    ensures DecodeKey(payloads, space, EncodeKey(name, payload))
         == if VariantIn(space.variants, name).Some? && payloads(VariantIn(space.variants, name).value.payload, payload)
            then Some((name, payload)) else None
  {
    assert ([Symbol(name)] + payload)[1..] == payload;
  }

  /** Every key written under the old enum names the same entry under the new one. */
  ghost predicate KeysSurvive(payloads: Payloads, prior: KeySpace, next: KeySpace) {
    forall v, p :: v in prior.variants && payloads(v.payload, p) ==>
      DecodeKey(payloads, next, EncodeKey(v.name, p)) == Some((v.name, p))
  }

  /** The framework's own keys stay under the same variants. */
  ghost predicate MarksStay(prior: KeySpace, next: KeySpace) {
    forall v, w :: v in prior.variants && w in next.variants && v.name == w.name ==> v.migration == w.migration
  }

  // ----- What the findings say -----

  ghost predicate AnyDenied(findings: seq<KeyFinding>) {
    exists x :: x in findings && x.severity.Denied?
  }

  lemma VariantInIsTheVariant(variants: seq<KeyVariant>, v: KeyVariant)
    requires DistinctVariants(variants) && v in variants
    ensures VariantIn(variants, v.name) == Some(v)
  {
    if variants[0] != v {
      var j :| 0 <= j < |variants| && variants[j] == v;
      assert variants[1..][j - 1] == v;
      VariantInIsTheVariant(variants[1..], v);
    }
  }

  lemma {:induction false} KeptWalkHas(prior: KeySpace, variants: seq<KeyVariant>, x: KeyFinding)
    ensures x in KeptWalk(prior, variants) <==> exists v :: v in variants && x in KeptFindings(prior, v)
  {
    if variants != [] {
      var front, last := variants[..|variants| - 1], variants[|variants| - 1];
      KeptWalkHas(prior, front, x);
      forall v ensures v in variants <==> v in front || v == last { FrontOrLast(variants, v); }
    }
  }

  predicate IsRemoval(next: KeySpace, v: KeyVariant, x: KeyFinding) {
    VariantIn(next.variants, v.name).None? && x == KeyFinding(v.name, VariantRemoved, Denied)
  }

  lemma {:induction false} RemovedWalkHas(next: KeySpace, variants: seq<KeyVariant>, x: KeyFinding)
    ensures x in RemovedWalk(next, variants)
       <==> exists v :: v in variants && IsRemoval(next, v, x)
  {
    if variants != [] {
      var front, last := variants[..|variants| - 1], variants[|variants| - 1];
      RemovedWalkHas(next, front, x);
      forall v ensures v in variants <==> v in front || v == last { FrontOrLast(variants, v); }
      var removal := KeyFinding(last.name, VariantRemoved, Denied);
      assert IsRemoval(next, last, x) <==> VariantIn(next.variants, last.name).None? && x == removal;
    }
  }

  /** A variant of the old enum is accounted for when the new one has it, with the same payload
      and the same mark. */
  predicate Unchanged(next: KeySpace, v: KeyVariant) {
    var w := VariantIn(next.variants, v.name);
    w.Some? && w.value.payload == v.payload && w.value.migration == v.migration
  }

  lemma DeniedIff(prior: KeySpace, next: KeySpace)
    requires DistinctVariants(prior.variants) && DistinctVariants(next.variants)
    ensures AnyDenied(FindingsOf(prior, next)) <==> exists v :: v in prior.variants && !Unchanged(next, v)
  {
    var changes := KeptWalk(prior, next.variants) + RemovedWalk(next, prior.variants);
    if x :| x in changes && x.severity.Denied? {
      KeptWalkHas(prior, next.variants, x);
      RemovedWalkHas(next, prior.variants, x);
      if w :| w in next.variants && x in KeptFindings(prior, w) {
        var was := VariantIn(prior.variants, w.name);
        VariantInIsTheVariant(next.variants, w);
        assert was.Some? && !Unchanged(next, was.value);
      }
    }
    if v :| v in prior.variants && !Unchanged(next, v) {
      var x := ChangeOf(prior, next, v);
      assert x in changes;
    }
  }

  /** The finding that denies a changed variant. */
  lemma ChangeOf(prior: KeySpace, next: KeySpace, v: KeyVariant) returns (x: KeyFinding)
    requires DistinctVariants(prior.variants) && v in prior.variants && !Unchanged(next, v)
    ensures x.severity.Denied? && x in KeptWalk(prior, next.variants) + RemovedWalk(next, prior.variants)
  {
    var w := VariantIn(next.variants, v.name);
    VariantInIsTheVariant(prior.variants, v);
    if w.None? {
      x := KeyFinding(v.name, VariantRemoved, Denied);
      RemovedWalkHas(next, prior.variants, x);
    } else {
      x := KeyFinding(v.name, if w.value.payload != v.payload then PayloadChanged else MarkMoved, Denied);
      assert x in KeptFindings(prior, w.value);
      KeptWalkHas(prior, next.variants, x);
    }
  }

  /** The variant is still there, with another payload. */
  predicate Repayloads(next: KeySpace, v: KeyVariant) {
    var w := VariantIn(next.variants, v.name);
    w.Some? && w.value.payload != v.payload
  }

  /** Of every changed payload some old value does not encode the new one. */
  ghost predicate TellsPayloads(payloads: Payloads, prior: KeySpace, next: KeySpace) {
    forall v :: v in prior.variants && Repayloads(next, v) ==>
      exists p :: payloads(v.payload, p) && !payloads(VariantIn(next.variants, v.name).value.payload, p)
  }

  lemma SurvivesIff(payloads: Payloads, prior: KeySpace, next: KeySpace)
    requires Inhabitable(payloads)
    ensures KeysSurvive(payloads, prior, next)
       <==> forall v, p :: v in prior.variants && payloads(v.payload, p) ==>
              VariantIn(next.variants, v.name).Some?
              && payloads(VariantIn(next.variants, v.name).value.payload, p)
  {
    forall v: KeyVariant, p ensures DecodeKey(payloads, next, EncodeKey(v.name, p))
                     == if VariantIn(next.variants, v.name).Some?
                           && payloads(VariantIn(next.variants, v.name).value.payload, p)
                        then Some((v.name, p)) else None {
      KeyRoundTrip(payloads, next, v.name, p);
    }
  }

  lemma MarksStayIff(prior: KeySpace, next: KeySpace)
    requires DistinctVariants(next.variants)
    ensures MarksStay(prior, next)
       <==> forall v :: v in prior.variants && VariantIn(next.variants, v.name).Some? ==>
              VariantIn(next.variants, v.name).value.migration == v.migration
  {
    forall w | w in next.variants ensures VariantIn(next.variants, w.name) == Some(w) {
      VariantInIsTheVariant(next.variants, w);
    }
  }

  /** The gate is sound for keys, and complete but for changed payloads: something is denied exactly
      when a payload changed, or some key anyone can have written no longer names its entry, or a
      surviving variant's mark moved. The first is needed only where every old payload happens to
      encode the new one. */
  lemma KeyGateIsExact(payloads: Payloads, prior: KeySpace, next: KeySpace)
    requires Inhabitable(payloads) && DistinctVariants(prior.variants) && DistinctVariants(next.variants)
    ensures AnyDenied(FindingsOf(prior, next))
       <==> || !KeysSurvive(payloads, prior, next) || !MarksStay(prior, next)
            || exists v :: v in prior.variants && Repayloads(next, v)
    ensures TellsPayloads(payloads, prior, next) ==>
              (AnyDenied(FindingsOf(prior, next)) <==>
                 !KeysSurvive(payloads, prior, next) || !MarksStay(prior, next))
  {
    DeniedIff(prior, next);
    SurvivesIff(payloads, prior, next);
    MarksStayIff(prior, next);
    if KeysSurvive(payloads, prior, next) {
      forall v | v in prior.variants ensures VariantIn(next.variants, v.name).Some? {
        assert HasPayload(payloads, v.payload);
        var p :| payloads(v.payload, p);
      }
    }
  }

  /** What each finding says, and that everything there is to say is said: added, with another
      payload, with its mark moved, removed. */
  lemma KeyFindingsAre(prior: KeySpace, next: KeySpace, x: KeyFinding)
    requires DistinctVariants(prior.variants) && DistinctVariants(next.variants) && !x.kind.VariantsReordered?
    ensures var was, now := VariantIn(prior.variants, x.variant), VariantIn(next.variants, x.variant);
            x in FindingsOf(prior, next) <==>
              match x.kind
              case VariantAdded => was.None? && now.Some? && x.severity.Info?
              case VariantRemoved => was.Some? && now.None? && x.severity.Denied?
              case PayloadChanged =>
                was.Some? && now.Some? && was.value.payload != now.value.payload && x.severity.Denied?
              case MarkMoved =>
                was.Some? && now.Some? && was.value.migration != now.value.migration && x.severity.Denied?
              case VariantsReordered => true
  {
    KeptAre(prior, next, x);
    RemovedAre(prior, next, x);
  }

  lemma KeptAre(prior: KeySpace, next: KeySpace, x: KeyFinding)
    requires DistinctVariants(next.variants)
    ensures x in KeptWalk(prior, next.variants) <==>
              var now := VariantIn(next.variants, x.variant);
              now.Some? && x in KeptFindings(prior, now.value)
  {
    KeptWalkHas(prior, next.variants, x);
    if v :| v in next.variants && x in KeptFindings(prior, v) {
      VariantInIsTheVariant(next.variants, v);
      assert x.variant == v.name;
    }
  }

  lemma RemovedAre(prior: KeySpace, next: KeySpace, x: KeyFinding)
    ensures x in RemovedWalk(next, prior.variants) <==>
              && VariantIn(prior.variants, x.variant).Some? && VariantIn(next.variants, x.variant).None?
              && x == KeyFinding(x.variant, VariantRemoved, Denied)
  {
    RemovedWalkHas(next, prior.variants, x);
    var was := VariantIn(prior.variants, x.variant);
    if was.Some? && VariantIn(next.variants, x.variant).None? && x == KeyFinding(x.variant, VariantRemoved, Denied) {
      assert IsRemoval(next, was.value, x);
    }
  }

  /** Reordering is settled, not silently passed: a permutation of the variants is reported once,
      at `Info`, exactly when the order differs. */
  lemma PermutationIsInfo(prior: KeySpace, next: KeySpace)
    requires DistinctVariants(prior.variants) && multiset(prior.variants) == multiset(next.variants)
    ensures FindingsOf(prior, next)
         == if VariantNames(prior.variants) != VariantNames(next.variants)
           then [KeyFinding("", VariantsReordered, Info)] else []
  {
    forall v ensures v in prior.variants <==> v in next.variants {
      assert v in multiset(prior.variants) <==> v in multiset(next.variants);
    }
    forall v | v in next.variants ensures KeptFindings(prior, v) == [] {
      VariantInIsTheVariant(prior.variants, v);
    }
    NothingKept(prior, next.variants);
    NothingRemoved(next, prior.variants);
  }

  lemma {:induction false} NothingKept(prior: KeySpace, variants: seq<KeyVariant>)
    requires forall v :: v in variants ==> KeptFindings(prior, v) == []
    ensures KeptWalk(prior, variants) == []
  {
    if variants != [] {
      NothingKept(prior, variants[..|variants| - 1]);
    }
  }

  lemma {:induction false} NothingRemoved(next: KeySpace, variants: seq<KeyVariant>)
    requires forall v :: v in variants ==> VariantIn(next.variants, v.name).Some?
    ensures RemovedWalk(next, variants) == []
  {
    if variants != [] {
      NothingRemoved(next, variants[..|variants| - 1]);
    }
  }
}
