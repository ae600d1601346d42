/**
 * What the diff does not look at, and needs: the two ends must agree on the
 * keys one leaves open and the other names.
 */
module Fitting {
  import opened JsonValues
  import opened Schemas
  import opened Meaning
  import opened Disjunction
  import opened Pairing
  import opened Comparison

  /**
   * Between an old object `a` and the new `b` it became:
   *  - a map on the old side gains no named property;
   *  - no key the writing end leaves open is named, refused or read as a map
   *    value by the reading end.
   */
  ghost predicate KeysFit(dir: Direction, a: Schema, b: Schema, loose: Keys) {
    var propsA, propsB := PropertiesOf(a), PropertiesOf(b);
    && (a.extra.MapOf? ==> forall i :: 0 <= i < |propsB| ==> Declares(propsA, propsB[i].name))
    && match dir
       case Request =>
         forall k :: OpenKeys(a, loose).Has(k) && !Declares(propsA, k) ==>
           !Declares(propsB, k) && (b.extra.NoExtra? || b.extra == AnyExtra(true))
       case Response =>
         a.extra.MapOf? ==> forall k :: OpenKeys(b, loose).Has(k) ==> Declares(propsB, k)
  }

  /** `KeysFit` wherever `Compare` pairs two objects, and no reader of nothing but `null`. */
  ghost predicate Fits(dir: Direction, before: Schema, after: Schema, loose: Keys)
    decreases Size(before), 2
  {
    var a, b := Alternatives(before), Alternatives(after);
    a.any || b.any ||
    (&& (dir.Response? && a.variants == [] ==> b.variants == [])
     && forall i :: 0 <= i < |a.variants| && i in Pairs(dir, a.variants, b.variants) ==>
          VariantFits(dir, a.variants[i], b.variants[Pairs(dir, a.variants, b.variants)[i]], loose))
  }

  ghost predicate VariantFits(dir: Direction, a: Schema, b: Schema, loose: Keys)
    decreases Size(a), 1
  {
    if KindOf(a) == "allOf" then
      PartsFit(dir, a, b, loose.Plus(ListNames(ListOf(if dir.Request? then a.allOf else b.allOf))))
    else
      && (KindOf(a) == "object" ==>
            && KeysFit(dir, a, b, loose)
            && PropertiesFit(dir, a, b)
            && (a.extra.MapOf? && b.extra.MapOf? ==> Fits(dir, a.extra.values, b.extra.values, NO_KEYS)))
      && (KindOf(a) == "array" && a.items.Some? ==> Fits(dir, a.items.value, OrAny(b.items), NO_KEYS))
  }

  ghost predicate PartsFit(dir: Direction, a: Schema, b: Schema, loose: Keys)
    decreases Size(a), 0
  {
    var partsA, partsB := ListOf(a.allOf), ListOf(b.allOf);
    |partsA| == |partsB| ==> forall i :: 0 <= i < |partsA| ==> Fits(dir, partsA[i], partsB[i], loose)
  }

  ghost predicate PropertiesFit(dir: Direction, a: Schema, b: Schema)
    decreases Size(a), 0
  {
    forall i :: 0 <= i < |PropertiesOf(a)| ==>
      var now := Lookup(PropertiesOf(b), PropertiesOf(a)[i].name);
      now.Some? ==> Fits(dir, PropertiesOf(a)[i].schema, now.value, NO_KEYS)
  }

  // -- what silence says ------------------------------------------------------------

  /** A variant that is no intersection is silent iff each of its comparisons is. */
  lemma SilentVariant(dir: Direction, a: Schema, b: Schema, op: string, at: string)
    requires KindOf(a) != "allOf"
    ensures CompareVariant(dir, a, b, op, at) == [] <==>
      && EnumChanges(dir, a, b, op, at) == []
      && (dir.Request? ==> LimitChanges(a.limits, b.limits, op, at) == [])
      && (KindOf(a) == "object" ==> ObjectChanges(dir, a, b, op, at) == [])
      && (KindOf(a) == "array" && a.items.Some? ==> Compare(dir, a.items.value, OrAny(b.items), op, at + "[]") == [])
  {
  }

  lemma SilentObject(dir: Direction, a: Schema, b: Schema, op: string, at: string)
    ensures ObjectChanges(dir, a, b, op, at) == [] <==>
      && Concat(PropertySteps(dir, a, b, op, at)) == []
      && (dir.Request? ==> NewlyRequired(a, b, op, at) == [])
      && MapChanges(dir, a, b, op, at) == []
  {
  }

  lemma SilentProperty(dir: Direction, a: Schema, b: Schema, i: nat, op: string, at: string)
    requires i < |PropertiesOf(a)| && ObjectChanges(dir, a, b, op, at) == []
    ensures PropertyChange(dir, a, b, i, op, at) == []
  {
    SilentObject(dir, a, b, op, at);
    assert PropertySteps(dir, a, b, op, at)[i] == [];
  }

  lemma SilentBranch(dir: Direction, before: Schema, after: Schema, i: nat, op: string, at: string)
    requires i < |Alternatives(before).variants| && Concat(VariantSteps(dir, before, after, op, at)) == []
    ensures VariantChange(dir, before, after, i, op, at) == []
  {
    assert VariantSteps(dir, before, after, op, at)[i] == [];
  }

  lemma SilentPart(dir: Direction, a: Schema, b: Schema, i: nat, op: string, at: string)
    requires i < |ListOf(a.allOf)| == |ListOf(b.allOf)| && KindOf(a) == "allOf"
    requires CompareVariant(dir, a, b, op, at) == []
    ensures Compare(dir, ListOf(a.allOf)[i], ListOf(b.allOf)[i], op, at + "&" + NatText(i)) == []
  {
    assert PartSteps(dir, a, b, op, at)[i] == [];
  }

  // -- kinds -------------------------------------------------------------------------

  /** A variant's values are of its kind. */
  lemma KindSent(ru: Rules, itemised: bool, s: Schema, v: Json, loose: Keys)
    requires SenderLeaf(itemised, s) && s.allOf.Absent? && Sends(ru, s, v, loose)
    ensures HasType(KindOf(s), v)
  {
    if s.types.Untyped? {
      var values := EnumOf(s);
      assert values.Some?;
      WithoutAbsent(values.value, Null);
      assert v in values.value;
    }
  }

  lemma KindRead(s: Schema, v: Json, kind: string)
    requires NonNullKind(s.types) && s.allOf.Absent? && HasType(kind, v)
    requires kind == KindOf(s) || (kind == "integer" && KindOf(s) == "number")
    ensures TypeMeets(s.types, v)
  {
  }

  lemma SenderKinds(itemised: bool, s: Schema)
    requires SenderLeaf(itemised, s)
    ensures Plain(KindOf(s))
  {
    PlainNames();
  }

  lemma ReceiverKinds(ru: Rules, strict: bool, s: Schema)
    requires ReceiverLeaf(ru, strict, s)
    ensures Plain(KindOf(s))
  {
    PlainNames();
  }

  lemma PlainNames()
    ensures forall name :: name in TYPE_NAMES ==> Plain(name)
    ensures Plain("allOf") && Plain("object") && Plain("any")
  {
  }

  // -- two schemas of one variant each ----------------------------------------------------

  lemma LoneKey(s: Schema)
    ensures VariantKeys([s]) == [KindOf(s)]
    ensures KeyAt([s], 0) == KindOf(s)
  {
    assert [s][1..] == [];
    assert CountKind([s], KindOf(s)) == 1;
    assert CountKind([s], "object") <= 1;
  }

  lemma LonePairs(dir: Direction, a: Schema, b: Schema)
    requires KindOf(a) == KindOf(b)
    ensures Pairs(dir, [a], [b]) == map[0 := 0]
  {
    LoneKey(a);
    LoneKey(b);
    var keysA, keysB := VariantKeys([a]), VariantKeys([b]);
    assert IndexOf(keysB, keysA[0]) == 0;
    assert NameStep(keysA, keysB, 0, map[]) == map[0 := 0];
    assert ByName(keysA, keysB, 0, map[]) == ByName(keysA, keysB, 1, map[0 := 0]) == map[0 := 0];
    assert LeftoverStep(dir, [a], [b], keysA, keysB, 0, map[0 := 0]) == map[0 := 0];
    assert Leftovers(dir, [a], [b], keysA, keysB, 0, map[0 := 0])
        == Leftovers(dir, [a], [b], keysA, keysB, 1, map[0 := 0]) == map[0 := 0];
  }

  lemma LoneVariantChanges(dir: Direction, before: Schema, after: Schema, a: Schema, b: Schema, op: string, at: string)
    requires Alternatives(before).variants == [a] && Alternatives(after).variants == [b]
    requires KindOf(a) == KindOf(b)
    ensures Concat(VariantSteps(dir, before, after, op, at)) == CompareVariant(dir, a, b, op, at)
  {
    LonePairs(dir, a, b);
    var steps := VariantSteps(dir, before, after, op, at);
    assert steps == [CompareVariant(dir, a, b, op, at)];
    assert steps[1..] == [];
  }
}
