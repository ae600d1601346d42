/** A request diff with nothing breaking: all that the old schema sends, the new one accepts. */
module RequestSoundness {
  import opened JsonValues
  import opened Schemas
  import opened Meaning
  import opened Disjunction
  import opened Pairing
  import opened Comparison
  import opened Fitting

  // -- limits ----------------------------------------------------------------------

  lemma LowerKept(a: Limits, b: Limits, n: real)
    requires !LowerNarrowed(LowerBound(a), LowerBound(b))
    requires a.minimum.Some? ==> a.minimum.value <= n
    requires a.exclusiveMinimum.Some? ==> a.exclusiveMinimum.value < n
    ensures b.minimum.Some? ==> b.minimum.value <= n
    ensures b.exclusiveMinimum.Some? ==> b.exclusiveMinimum.value < n
  {
  }

  lemma UpperKept(a: Limits, b: Limits, n: real)
    requires !UpperNarrowed(UpperBound(a), UpperBound(b))
    requires a.maximum.Some? ==> n <= a.maximum.value
    requires a.exclusiveMaximum.Some? ==> n < a.exclusiveMaximum.value
    ensures b.maximum.Some? ==> n <= b.maximum.value
    ensures b.exclusiveMaximum.Some? ==> n < b.exclusiveMaximum.value
  {
  }

  /** The multiples of a step are multiples of each of its divisors. */
  lemma StepKept(n: real, stepA: real, stepB: real)
    requires !LeavesRemainder(stepA, stepB) && MultipleOf(n, stepA)
    ensures MultipleOf(n, stepB)
  {
    var k: int :| n == Times(k, stepA);
    var m := (stepA / stepB).Floor;
    assert stepA == m as real * stepB;
    assert n == k as real * (m as real * stepB) == (k as real * m as real) * stepB;
    assert k as real * m as real == (k * m) as real;
    assert n == Times(k * m, stepB);
  }

  /** A silent `compareLimits` means every limit still holds. */
  lemma LimitsKept(ru: Rules, a: Limits, b: Limits, v: Json, op: string, at: string)
    requires LimitChanges(a, b, op, at) == [] && LimitsMeet(ru, a, v)
    ensures LimitsMeet(ru, b, v)
  {
    NothingNarrowed(a, b, op, at);
    if v.Num? {
      LowerKept(a, b, v.n);
      UpperKept(a, b, v.n);
      if b.multipleOf.Some? { StepKept(v.n, a.multipleOf.value, b.multipleOf.value); }
    }
  }

  // -- one variant --------------------------------------------------------------------

  lemma RequiredKept(a: Schema, b: Schema, v: Json, op: string, at: string)
    requires ObjectChanges(Request, a, b, op, at) == []
    requires RequiredDeclared(b) && RequiredMeets(a, v) && v.Obj?
    ensures RequiredMeets(b, v)
  {
    hide Compare, ObjectChanges;
    SilentObject(Request, a, b, op, at);
    forall r | 0 <= r < |b.required| ensures b.required[r] in v.fields {
      var name := b.required[r];
      assert name in b.required;
      assert NewlyRequired(a, b, op, at) == [];
      var j :| 0 <= j < |PropertiesOf(b)| && PropertiesOf(b)[j].name == name;
      assert Declares(PropertiesOf(a), name);
      var i :| 0 <= i < |PropertiesOf(a)| && PropertiesOf(a)[i].name == name;
      SilentProperty(Request, a, b, i, op, at);
      assert name in a.required;
    }
  }

  lemma OwnKept(ru: Rules, a: Schema, b: Schema, v: Json, op: string, at: string)
    requires CompareVariant(Request, a, b, op, at) == [] && KindOf(a) != "allOf"
    requires HasType(KindOf(a), v) && Compatible(Request, KindOf(a), KindOf(b))
    requires b.allOf.Absent? && NonNullKind(b.types) && RequiredDeclared(b)
    requires b.enumeration.None? || b.constant.None?
    requires Own(ru, true, a, v)
    ensures Own(ru, true, b, v)
  {
    hide Compare, ObjectChanges, LimitChanges, RequiredDeclared, LimitsMeet;
    SilentVariant(Request, a, b, op, at);
    KindRead(b, v, KindOf(a));
    LimitsKept(ru, a.limits, b.limits, v, op, at);
    if v.Obj? { RequiredKept(a, b, v, op, at); }
    var valuesA, valuesB := EnumOf(a), EnumOf(b);
    if valuesB.Some? {
      assert EnumChanges(Request, a, b, op, at) == [];
      assert valuesA.Some? && v in valuesA.value;
    }
  }

  /** Where a declared property of `a` sits in `b`. */
  lemma PropertyKept(a: Schema, b: Schema, i: nat, op: string, at: string) returns (s: Schema)
    requires i < |PropertiesOf(a)| && ObjectChanges(Request, a, b, op, at) == []
    ensures Lookup(PropertiesOf(b), PropertiesOf(a)[i].name) == Some(s)
    ensures Compare(Request, PropertiesOf(a)[i].schema, s, op, at + "." + PropertiesOf(a)[i].name) == []
  {
    SilentProperty(Request, a, b, i, op, at);
    s := Lookup(PropertiesOf(b), PropertiesOf(a)[i].name).value;
  }

  lemma AllDeclared(a: Schema, b: Schema, k: string, op: string, at: string)
    requires ObjectChanges(Request, a, b, op, at) == [] && Declares(PropertiesOf(a), k)
    ensures Declares(PropertiesOf(b), k)
  {
    var i :| 0 <= i < |PropertiesOf(a)| && PropertiesOf(a)[i].name == k;
    var s := PropertyKept(a, b, i, op, at);
  }

  // -- the induction ---------------------------------------------------------------------

  lemma {:induction false} Sound(ru: Rules, before: Schema, after: Schema, op: string, at: string, v: Json, loose: Keys)
    requires WfSender(true, before) && WfReceiver(ru, true, after) && Fits(Request, before, after, loose)
    requires Compare(Request, before, after, op, at) == []
    requires Sends(ru, before, v, loose)
    ensures Receives(ru, true, after, v)
    decreases Size(before), 3
  {
    hide CompareVariant, WfSender, WfReceiver, Sends, Receives, VariantFits, SenderLeaf, ReceiverLeaf, KindOf, Size, Pairs, Alternatives;
    var a, b := Alternatives(before), Alternatives(after);
    SendsItsAlternatives(ru, true, before, v, loose);
    ReceivesIsItsAlternatives(ru, true, after, v);
    if !b.any && !(v.Null? && b.nullable) {
      assert !a.any;
      var i :| 0 <= i < |a.variants| && Sends(ru, a.variants[i], v, loose);
      SilentBranch(Request, before, after, i, op, at);
      SenderVariants(true, before);
      ReceiverVariants(ru, true, after);
      PairedKinds(ru, before, after);
      var j := Pairs(Request, a.variants, b.variants)[i];
      SoundVariant(ru, a.variants[i], b.variants[j], op, VariantAt(before, after, i, at), v, loose);
      assert SomeReceives(ru, true, b.variants, v);
    }
  }

  lemma PairedKinds(ru: Rules, before: Schema, after: Schema)
    requires WfSender(true, before) && WfReceiver(ru, true, after)
    ensures SoundPairs(Request, Alternatives(before).variants, Alternatives(after).variants,
                       Pairs(Request, Alternatives(before).variants, Alternatives(after).variants))
  {
    var va, vb := Alternatives(before).variants, Alternatives(after).variants;
    SenderVariants(true, before);
    ReceiverVariants(ru, true, after);
    forall i | 0 <= i < |va| ensures Plain(KindOf(va[i])) { SenderKinds(true, va[i]); }
    forall i | 0 <= i < |vb| ensures Plain(KindOf(vb[i])) { ReceiverKinds(ru, true, vb[i]); }
    PairsSound(Request, va, vb);
  }

  lemma {:induction false} SoundVariant(ru: Rules, a: Schema, b: Schema, op: string, at: string, v: Json, loose: Keys)
    requires SenderLeaf(true, a) && ReceiverLeaf(ru, true, b) && VariantFits(Request, a, b, loose)
    requires Compatible(Request, KindOf(a), KindOf(b))
    requires CompareVariant(Request, a, b, op, at) == []
    requires Sends(ru, a, v, loose)
    ensures Receives(ru, true, b, v)
    decreases Size(a), 2
  {
    hide Compare, CompareVariant, VariantFits, Sends, Receives, Size, Own;
    AllOfKind(true, a);
    ReadAllOfKind(ru, true, b);
    LeafReceives(ru, true, b, v);
    if KindOf(a) == "allOf" {
      SoundParts(ru, a, b, op, at, v, loose);
      OwnOfAny(ru, true, b, v);
      assert ItemsReceive(ru, true, b.items, v) && PropertiesReceive(ru, true, b.properties, v);
      assert ExtraReceives(ru, true, b.extra, PropertiesOf(b), v);
    } else {
      KindSent(ru, true, a, v, loose);
      OwnSent(ru, a, v, loose);
      OwnKept(ru, a, b, v, op, at);
      SoundItems(ru, a, b, op, at, v, loose);
      SoundProperties(ru, a, b, op, at, v, loose);
      SoundExtra(ru, a, b, op, at, v, loose);
      assert AllReceive(ru, true, b.allOf, v);
    }
  }

  lemma OwnSent(ru: Rules, s: Schema, v: Json, loose: Keys)
    requires Sends(ru, s, v, loose)
    ensures Own(ru, true, s, v)
  {
  }

  lemma AllOfKind(itemised: bool, s: Schema)
    requires SenderLeaf(itemised, s)
    ensures KindOf(s) == "allOf" <==> s.allOf.Listed?
  {
  }

  lemma ReadAllOfKind(ru: Rules, strict: bool, s: Schema)
    requires ReceiverLeaf(ru, strict, s)
    ensures KindOf(s) == "allOf" <==> s.allOf.Listed?
  {
  }

  lemma {:induction false} SoundParts(ru: Rules, a: Schema, b: Schema, op: string, at: string, v: Json, loose: Keys)
    requires SenderLeaf(true, a) && ReceiverLeaf(ru, true, b) && VariantFits(Request, a, b, loose)
    requires a.allOf.Listed? && b.allOf.Listed?
    requires CompareVariant(Request, a, b, op, at) == []
    requires Sends(ru, a, v, loose)
    ensures AllReceive(ru, true, b.allOf, v)
    decreases Size(a), 1
  {
    hide Compare, Own;
    var wide := loose.Plus(ListNames(a.allOf.list));
    assert PartsFit(Request, a, b, wide);
    assert AllSend(ru, a.allOf, v, wide);
    forall i | 0 <= i < |b.allOf.list| ensures Receives(ru, true, b.allOf.list[i], v) {
      SilentPart(Request, a, b, i, op, at);
      Sound(ru, a.allOf.list[i], b.allOf.list[i], op, at + "&" + NatText(i), v, wide);
    }
  }

  lemma {:induction false} SoundItems(ru: Rules, a: Schema, b: Schema, op: string, at: string, v: Json, loose: Keys)
    requires SenderLeaf(true, a) && ReceiverLeaf(ru, true, b) && VariantFits(Request, a, b, loose)
    requires a.allOf.Absent? && CompareVariant(Request, a, b, op, at) == []
    requires Sends(ru, a, v, loose) && HasType(KindOf(a), v)
    ensures ItemsReceive(ru, true, b.items, v)
    decreases Size(a), 1
  {
    hide Compare, CompareVariant, EnumChanges, LimitChanges;
    SilentVariant(Request, a, b, op, at);
    if v.Arr? && b.items.Some? {
      assert KindOf(a) == "array";
      if a.types.Untyped? { KindUntyped(a, v); }
      assert ItemsSend(ru, a.items, v);
      forall i | 0 <= i < |v.items| ensures Receives(ru, true, b.items.value, v.items[i]) {
        Sound(ru, a.items.value, b.items.value, op, at + "[]", v.items[i], NO_KEYS);
      }
    }
  }

  /** An untyped variant is an enum, whose kind is never an array's. */
  lemma KindUntyped(s: Schema, v: Json)
    requires s.types.Untyped? && s.allOf.Absent? && s.properties.Undeclared? && s.items.None? && s.extra.NoExtra?
    ensures KindOf(s) != "array"
  {
  }

  /** The two schemas of a property that both sides declare meet what `Sound` asks. */
  lemma PropertyPair(ru: Rules, a: Schema, b: Schema, op: string, at: string, i: nat, j: nat)
    requires i < |PropertiesOf(a)| && j < |PropertiesOf(b)| && PropertiesOf(a)[i].name == PropertiesOf(b)[j].name
    requires SenderLeaf(true, a) && ReceiverLeaf(ru, true, b)
    requires PropertiesFit(Request, a, b) && ObjectChanges(Request, a, b, op, at) == []
    ensures WfSender(true, PropertiesOf(a)[i].schema) && WfReceiver(ru, true, PropertiesOf(b)[j].schema)
    ensures Fits(Request, PropertiesOf(a)[i].schema, PropertiesOf(b)[j].schema, NO_KEYS)
    ensures Compare(Request, PropertiesOf(a)[i].schema, PropertiesOf(b)[j].schema, op, at + "." + PropertiesOf(a)[i].name) == []
  {
    hide Compare, Fits, WfSender, WfReceiver, ObjectChanges, Lookup;
    var s := PropertyKept(a, b, i, op, at);
    LookupAt(PropertiesOf(b), j);
  }

  /** A property of `b` that is sent is one of `a`, and is sent by its schema there. */
  lemma PropertySent(ru: Rules, a: Schema, b: Schema, v: Json, loose: Keys, j: nat) returns (i: nat)
    requires SenderLeaf(true, a) && a.allOf.Absent? && Sends(ru, a, v, loose) && KeysFit(Request, a, b, loose)
    requires v.Obj? && j < |PropertiesOf(b)| && PropertiesOf(b)[j].name in v.fields
    ensures i < |PropertiesOf(a)| && PropertiesOf(a)[i].name == PropertiesOf(b)[j].name
    ensures Sends(ru, PropertiesOf(a)[i].schema, v.fields[PropertiesOf(b)[j].name], NO_KEYS)
    ensures Size(PropertiesOf(a)[i].schema) < Size(a)
  {
    assert PropertiesSend(ru, a.properties, v) && ExtraSends(ru, a.extra, PropertiesOf(a), v, OpenKeys(a, loose));
    OldName(ru, a, b, v, loose, j);
    i :| 0 <= i < |PropertiesOf(a)| && PropertiesOf(a)[i].name == PropertiesOf(b)[j].name;
  }

  /** What silence and fitting say of two objects. */
  lemma ObjectPair(a: Schema, b: Schema, op: string, at: string, loose: Keys)
    requires KindOf(a) == "object" && VariantFits(Request, a, b, loose) && CompareVariant(Request, a, b, op, at) == []
    ensures KeysFit(Request, a, b, loose) && PropertiesFit(Request, a, b) && ObjectChanges(Request, a, b, op, at) == []
    ensures a.extra.MapOf? && b.extra.MapOf? ==> Fits(Request, a.extra.values, b.extra.values, NO_KEYS)
  {
    hide CompareVariant, ObjectChanges, KeysFit, PropertiesFit, Fits;
    SilentVariant(Request, a, b, op, at);
  }

  lemma ObjectKind(a: Schema, v: Json)
    requires v.Obj? && HasType(KindOf(a), v)
    ensures KindOf(a) == "object"
  {
  }

  lemma {:induction false} SoundProperties(ru: Rules, a: Schema, b: Schema, op: string, at: string, v: Json, loose: Keys)
    requires SenderLeaf(true, a) && ReceiverLeaf(ru, true, b) && VariantFits(Request, a, b, loose)
    requires a.allOf.Absent? && CompareVariant(Request, a, b, op, at) == []
    requires Sends(ru, a, v, loose) && HasType(KindOf(a), v)
    ensures PropertiesReceive(ru, true, b.properties, v)
    decreases Size(a), 1
  {
    hide Compare, CompareVariant, VariantFits, KeysFit, PropertiesFit, ObjectChanges, SenderLeaf, ReceiverLeaf, Sends, Receives, HasType, KindOf, Size;
    if v.Obj? {
      ObjectKind(a, v);
      ObjectPair(a, b, op, at, loose);
      assert b.properties.Declared? ==> b.properties.list == PropertiesOf(b);
      forall j | 0 <= j < |PropertiesOf(b)| && PropertiesOf(b)[j].name in v.fields
        ensures Receives(ru, true, PropertiesOf(b)[j].schema, v.fields[PropertiesOf(b)[j].name])
      {
        var i := PropertySent(ru, a, b, v, loose, j);
        PropertyPair(ru, a, b, op, at, i, j);
        var name := PropertiesOf(b)[j].name;
        Sound(ru, PropertiesOf(a)[i].schema, PropertiesOf(b)[j].schema, op, at + "." + name, v.fields[name], NO_KEYS);
      }
    }
  }

  /** A property of `b` that is sent is one of `a`. */
  lemma OldName(ru: Rules, a: Schema, b: Schema, v: Json, loose: Keys, j: nat)
    requires v.Obj? && j < |PropertiesOf(b)| && PropertiesOf(b)[j].name in v.fields
    requires ExtraSends(ru, a.extra, PropertiesOf(a), v, OpenKeys(a, loose)) && KeysFit(Request, a, b, loose)
    ensures Declares(PropertiesOf(a), PropertiesOf(b)[j].name)
  {
    assert Declares(PropertiesOf(b), PropertiesOf(b)[j].name);
  }

  /** A key that the old object may hold without declaring it, and that the new one does not declare. */
  lemma OtherKey(ru: Rules, a: Schema, b: Schema, op: string, at: string, v: Json, loose: Keys, k: string)
    requires v.Obj? && k in v.fields && !Declares(PropertiesOf(b), k)
    requires KeysFit(Request, a, b, loose) && ObjectChanges(Request, a, b, op, at) == []
    requires SenderLeaf(true, a) && a.allOf.Absent? && Sends(ru, a, v, loose)
    ensures a.extra.MapOf? ==> Sends(ru, a.extra.values, v.fields[k], NO_KEYS) && Size(a.extra.values) < Size(a)
    ensures !a.extra.MapOf? ==> b.extra.NoExtra? || b.extra == AnyExtra(true)
  {
    hide ObjectChanges;
    if Declares(PropertiesOf(a), k) { AllDeclared(a, b, k, op, at); }
    assert ExtraSends(ru, a.extra, PropertiesOf(a), v, OpenKeys(a, loose));
    if !a.extra.MapOf? { assert OpenKeys(a, loose).Has(k); }
  }

  /** The two value schemas of a map that stays one meet what `Sound` asks. */
  lemma MapPair(ru: Rules, a: Schema, b: Schema, op: string, at: string)
    requires SenderLeaf(true, a) && ReceiverLeaf(ru, true, b) && ObjectChanges(Request, a, b, op, at) == [] && a.extra.MapOf?
    ensures b.extra.MapOf? && WfSender(true, a.extra.values) && WfReceiver(ru, true, b.extra.values)
    ensures Compare(Request, a.extra.values, b.extra.values, op, at + "{}") == []
  {
    hide Compare, WfSender, WfReceiver, ObjectChanges;
    SilentObject(Request, a, b, op, at);
    assert MapChanges(Request, a, b, op, at) == [];
  }

  lemma {:induction false} SoundExtra(ru: Rules, a: Schema, b: Schema, op: string, at: string, v: Json, loose: Keys)
    requires SenderLeaf(true, a) && ReceiverLeaf(ru, true, b) && VariantFits(Request, a, b, loose)
    requires a.allOf.Absent? && CompareVariant(Request, a, b, op, at) == []
    requires Sends(ru, a, v, loose) && HasType(KindOf(a), v)
    ensures ExtraReceives(ru, true, b.extra, PropertiesOf(b), v)
    decreases Size(a), 1
  {
    hide Compare, CompareVariant, VariantFits, KeysFit, PropertiesFit, ObjectChanges, SenderLeaf, ReceiverLeaf, Sends, Receives, HasType, KindOf, Size;
    if v.Obj? {
      ObjectKind(a, v);
      ObjectPair(a, b, op, at, loose);
      if a.extra.MapOf? { MapPair(ru, a, b, op, at); }
      forall k | k in v.fields && !Declares(PropertiesOf(b), k)
        ensures b.extra.NoExtra? || b.extra == AnyExtra(true)
          || (b.extra.MapOf? && Receives(ru, true, b.extra.values, v.fields[k]))
      {
        OtherKey(ru, a, b, op, at, v, loose, k);
        if a.extra.MapOf? { Sound(ru, a.extra.values, b.extra.values, op, at + "{}", v.fields[k], NO_KEYS); }
      }
    }
  }

  lemma OneIsBreaking(changes: seq<Change>)
    requires AllBreaking(changes)
    ensures changes != [] ==> exists c :: c in changes && c.severity.Breaking?
  {
    if changes != [] { assert changes[0] in changes; }
  }

  /**
   * Request soundness: when `compareSchemas` reports nothing breaking, the
   * server accepts every value a released client may send.
   */
  lemma RequestsStayAccepted(ru: Rules, before: Schema, after: Schema, op: string, at: string, v: Json)
    requires WfSender(true, before) && WfReceiver(ru, true, after) && Fits(Request, before, after, NO_KEYS)
    requires forall c :: c in Compare(Request, before, after, op, at) ==> c.severity != Breaking
    requires Sends(ru, before, v, NO_KEYS)
    ensures Receives(ru, true, after, v)
  {
    hide WfSender, WfReceiver, Fits, Sends, Receives, Alternatives;
    var changes := Compare(Request, before, after, op, at);
    OneIsBreaking(changes);
    Sound(ru, before, after, op, at, v, NO_KEYS);
  }
}
