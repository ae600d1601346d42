/** A response diff with nothing to say: a released client reads all that the new schema sends. */
module ResponseSoundness {
  import opened JsonValues
  import opened Schemas
  import opened Meaning
  import opened Disjunction
  import opened Pairing
  import opened Comparison
  import opened Fitting

  // -- one variant: `a` is what the client knows, `b` what the server now sends ----------

  lemma RequiredRead(a: Schema, b: Schema, v: Json, op: string, at: string)
    requires ObjectChanges(Response, a, b, op, at) == []
    requires RequiredDeclared(a) && RequiredMeets(b, v) && v.Obj?
    ensures RequiredMeets(a, v)
  {
    forall r | 0 <= r < |a.required| ensures a.required[r] in v.fields {
      var name := a.required[r];
      assert name in a.required;
      var i :| 0 <= i < |PropertiesOf(a)| && PropertiesOf(a)[i].name == name;
      SilentProperty(Response, a, b, i, op, at);
      assert name in b.required;
    }
  }

  lemma OwnRead(ru: Rules, a: Schema, b: Schema, v: Json, op: string, at: string)
    requires CompareVariant(Response, a, b, op, at) == [] && KindOf(a) != "allOf"
    requires HasType(KindOf(b), v) && Compatible(Response, KindOf(a), KindOf(b))
    requires a.allOf.Absent? && NonNullKind(a.types) && RequiredDeclared(a)
    requires a.enumeration.None? || a.constant.None?
    requires Own(ru, true, b, v)
    ensures Own(ru, false, a, v)
  {
    SilentVariant(Response, a, b, op, at);
    KindRead(a, v, KindOf(b));
    if v.Obj? {
      SilentObject(Response, a, b, op, at);
      RequiredRead(a, b, v, op, at);
    }
    var valuesA, valuesB := EnumOf(a), EnumOf(b);
    if valuesA.Some? {
      assert EnumChanges(Response, a, b, op, at) == [];
      assert valuesB.Some? && v in valuesB.value;
    }
  }

  lemma PropertyRead(a: Schema, b: Schema, i: nat, op: string, at: string) returns (s: Schema)
    requires i < |PropertiesOf(a)| && ObjectChanges(Response, a, b, op, at) == []
    ensures Lookup(PropertiesOf(b), PropertiesOf(a)[i].name) == Some(s)
    ensures Compare(Response, PropertiesOf(a)[i].schema, s, op, at + "." + PropertiesOf(a)[i].name) == []
  {
    SilentProperty(Response, a, b, i, op, at);
    s := Lookup(PropertiesOf(b), PropertiesOf(a)[i].name).value;
  }

  // -- the induction ------------------------------------------------------------------------

  lemma {:induction false} Sound(ru: Rules, before: Schema, after: Schema, op: string, at: string, v: Json, loose: Keys)
    requires WfReceiver(ru, false, before) && WfSender(false, after) && Fits(Response, before, after, loose)
    requires Compare(Response, before, after, op, at) == []
    requires Sends(ru, after, v, loose)
    ensures Receives(ru, false, before, v)
    decreases Size(before), 3
  {
    hide CompareVariant, WfSender, WfReceiver, Sends, Receives, VariantFits, SenderLeaf, ReceiverLeaf, KindOf, Size, Pairs, Alternatives;
    var a, b := Alternatives(before), Alternatives(after);
    SendsItsAlternatives(ru, false, after, v, loose);
    ReceivesIsItsAlternatives(ru, false, before, v);
    if !a.any && !(v.Null? && a.nullable) {
      assert !b.any;
      var j :| 0 <= j < |b.variants| && Sends(ru, b.variants[j], v, loose);
      SenderVariants(false, after);
      ReceiverVariants(ru, false, before);
      var i := KnownBranch(ru, before, after, j, op, at);
      SilentBranch(Response, before, after, i, op, at);
      SoundVariant(ru, a.variants[i], b.variants[j], op, VariantAt(before, after, i, at), v, loose);
      assert SomeReceives(ru, false, a.variants, v);
    }
  }

  /** Every branch the server may send is one the client knows. */
  lemma KnownBranch(ru: Rules, before: Schema, after: Schema, j: nat, op: string, at: string) returns (i: nat)
    requires WfReceiver(ru, false, before) && WfSender(false, after)
    requires !Alternatives(before).any && !Alternatives(after).any
    requires Alternatives(before).variants == [] ==> Alternatives(after).variants == []
    requires Compare(Response, before, after, op, at) == [] && j < |Alternatives(after).variants|
    ensures var va, vb := Alternatives(before).variants, Alternatives(after).variants;
      && i < |va| && i in Pairs(Response, va, vb) && Pairs(Response, va, vb)[i] == j
      && Compatible(Response, KindOf(va[i]), KindOf(vb[j]))
  {
    hide CompareVariant, WfSender, WfReceiver, SenderLeaf, ReceiverLeaf, KindOf, Size, Pairs, Alternatives, Compatible;
    var va, vb := Alternatives(before).variants, Alternatives(after).variants;
    var pairs := Pairs(Response, va, vb);
    ReceiverVariants(ru, false, before);
    SenderVariants(false, after);
    forall k | 0 <= k < |va| ensures Plain(KindOf(va[k])) { ReceiverKinds(ru, false, va[k]); }
    forall k | 0 <= k < |vb| ensures Plain(KindOf(vb[k])) { SenderKinds(false, vb[k]); }
    PairsSound(Response, va, vb);
    if IsUnion(before, after) {
      assert j in pairs.Values;
      i :| i in pairs && pairs[i] == j;
    } else {
      SilentBranch(Response, before, after, 0, op, at);
      i := 0;
    }
  }

  lemma {:induction false} SoundVariant(ru: Rules, a: Schema, b: Schema, op: string, at: string, v: Json, loose: Keys)
    requires ReceiverLeaf(ru, false, a) && SenderLeaf(false, b) && VariantFits(Response, a, b, loose)
    requires Compatible(Response, KindOf(a), KindOf(b))
    requires CompareVariant(Response, a, b, op, at) == []
    requires Sends(ru, b, v, loose)
    ensures Receives(ru, false, a, v)
    decreases Size(a), 2
  {
    hide Compare, CompareVariant, VariantFits, Receives, Size, Own;
    AllOfKinds(ru, a, b);
    LeafReceives(ru, false, a, v);
    if KindOf(a) == "allOf" {
      SoundParts(ru, a, b, op, at, v, loose);
      OwnOfAny(ru, false, a, v);
      assert ItemsReceive(ru, false, a.items, v) && PropertiesReceive(ru, false, a.properties, v);
      assert ExtraReceives(ru, false, a.extra, PropertiesOf(a), v);
    } else {
      KindSent(ru, false, b, v, loose);
      OwnRead(ru, a, b, v, op, at);
      SoundItems(ru, a, b, op, at, v, loose);
      SoundProperties(ru, a, b, op, at, v, loose);
      SoundExtra(ru, a, b, op, at, v, loose);
      assert AllReceive(ru, false, a.allOf, v);
    }
  }

  lemma AllOfKinds(ru: Rules, a: Schema, b: Schema)
    requires ReceiverLeaf(ru, false, a) && SenderLeaf(false, b)
    ensures KindOf(a) == "allOf" <==> a.allOf.Listed?
    ensures KindOf(b) == "allOf" <==> b.allOf.Listed?
  {
  }

  lemma {:induction false} SoundParts(ru: Rules, a: Schema, b: Schema, op: string, at: string, v: Json, loose: Keys)
    requires ReceiverLeaf(ru, false, a) && SenderLeaf(false, b) && VariantFits(Response, a, b, loose)
    requires a.allOf.Listed? && b.allOf.Listed?
    requires CompareVariant(Response, a, b, op, at) == []
    requires Sends(ru, b, v, loose)
    ensures AllReceive(ru, false, a.allOf, v)
    decreases Size(a), 1
  {
    var wide := loose.Plus(ListNames(b.allOf.list));
    assert PartsFit(Response, a, b, wide);
    assert AllSend(ru, b.allOf, v, wide);
    forall i | 0 <= i < |a.allOf.list| ensures Receives(ru, false, a.allOf.list[i], v) {
      SilentPart(Response, a, b, i, op, at);
      Sound(ru, a.allOf.list[i], b.allOf.list[i], op, at + "&" + NatText(i), v, wide);
    }
  }

  /** A value of the reader's kind is of the sender's: only numbers differ. */
  lemma SameShape(a: Schema, b: Schema, v: Json)
    requires Compatible(Response, KindOf(a), KindOf(b)) && HasType(KindOf(b), v)
    ensures v.Arr? ==> KindOf(a) == KindOf(b) == "array"
    ensures v.Obj? ==> KindOf(a) == KindOf(b) == "object"
  {
  }

  lemma {:induction false} SoundItems(ru: Rules, a: Schema, b: Schema, op: string, at: string, v: Json, loose: Keys)
    requires ReceiverLeaf(ru, false, a) && SenderLeaf(false, b) && VariantFits(Response, a, b, loose)
    requires b.allOf.Absent? && Compatible(Response, KindOf(a), KindOf(b))
    requires CompareVariant(Response, a, b, op, at) == []
    requires Sends(ru, b, v, loose) && HasType(KindOf(b), v)
    ensures ItemsReceive(ru, false, a.items, v)
    decreases Size(a), 1
  {
    hide Compare, CompareVariant, EnumChanges, LimitChanges;
    SilentVariant(Response, a, b, op, at);
    SameShape(a, b, v);
    if v.Arr? && a.items.Some? {
      var now := OrAny(b.items);
      assert ItemsSend(ru, b.items, v);
      assert Compare(Response, a.items.value, now, op, at + "[]") == [];
      forall i | 0 <= i < |v.items| ensures Receives(ru, false, a.items.value, v.items[i]) {
        if b.items.None? { AnySends(ru, v.items[i]); }
        Sound(ru, a.items.value, now, op, at + "[]", v.items[i], NO_KEYS);
      }
    }
  }

  lemma AnySends(ru: Rules, v: Json)
    ensures WfSender(false, ANY) && Sends(ru, ANY, v, NO_KEYS)
  {
    OwnOfAny(ru, true, ANY, v);
  }

  lemma {:induction false} SoundProperties(ru: Rules, a: Schema, b: Schema, op: string, at: string, v: Json, loose: Keys)
    requires ReceiverLeaf(ru, false, a) && SenderLeaf(false, b) && VariantFits(Response, a, b, loose)
    requires b.allOf.Absent? && Compatible(Response, KindOf(a), KindOf(b))
    requires CompareVariant(Response, a, b, op, at) == []
    requires Sends(ru, b, v, loose) && HasType(KindOf(b), v)
    ensures PropertiesReceive(ru, false, a.properties, v)
    decreases Size(a), 1
  {
    hide Compare, CompareVariant, EnumChanges, LimitChanges;
    SilentVariant(Response, a, b, op, at);
    SilentObject(Response, a, b, op, at);
    SameShape(a, b, v);
    if v.Obj? {
      var propsA := PropertiesOf(a);
      assert PropertiesSend(ru, b.properties, v);
      forall i | 0 <= i < |propsA| && propsA[i].name in v.fields
        ensures Receives(ru, false, propsA[i].schema, v.fields[propsA[i].name])
      {
        var name := propsA[i].name;
        var s := PropertyRead(a, b, i, op, at);
        PropertySent(ru, b, name, s, v);
        Sound(ru, propsA[i].schema, s, op, at + "." + name, v.fields[name], NO_KEYS);
      }
    }
  }

  lemma PropertySent(ru: Rules, b: Schema, name: string, s: Schema, v: Json)
    requires WfSenderProperties(false, b.properties) && PropertiesSend(ru, b.properties, v)
    requires Lookup(PropertiesOf(b), name) == Some(s) && v.Obj? && name in v.fields
    ensures WfSender(false, s) && Sends(ru, s, v.fields[name], NO_KEYS)
  {
    var j :| 0 <= j < |PropertiesOf(b)| && PropertiesOf(b)[j] == Property(name, s);
    assert b.properties.list[j].schema == s;
  }

  lemma NothingNew(a: Schema, b: Schema, loose: Keys, k: string)
    requires KeysFit(Response, a, b, loose) && a.extra.MapOf?
    ensures Declares(PropertiesOf(b), k) ==> Declares(PropertiesOf(a), k)
  {
    if Declares(PropertiesOf(b), k) {
      var j :| 0 <= j < |PropertiesOf(b)| && PropertiesOf(b)[j].name == k;
      assert Declares(PropertiesOf(a), PropertiesOf(b)[j].name);
    }
  }

  lemma {:induction false} SoundExtra(ru: Rules, a: Schema, b: Schema, op: string, at: string, v: Json, loose: Keys)
    requires ReceiverLeaf(ru, false, a) && SenderLeaf(false, b) && VariantFits(Response, a, b, loose)
    requires b.allOf.Absent? && Compatible(Response, KindOf(a), KindOf(b))
    requires CompareVariant(Response, a, b, op, at) == []
    requires Sends(ru, b, v, loose) && HasType(KindOf(b), v)
    ensures ExtraReceives(ru, false, a.extra, PropertiesOf(a), v)
    decreases Size(a), 1
  {
    hide Compare, CompareVariant, EnumChanges, LimitChanges;
    SilentVariant(Response, a, b, op, at);
    SilentObject(Response, a, b, op, at);
    SameShape(a, b, v);
    if v.Obj? && a.extra.MapOf? {
      var propsA, propsB := PropertiesOf(a), PropertiesOf(b);
      assert ExtraSends(ru, b.extra, propsB, v, OpenKeys(b, loose));
      assert MapChanges(Response, a, b, op, at) == [];
      assert KeysFit(Response, a, b, loose);
      forall k | k in v.fields && !Declares(propsA, k) ensures Receives(ru, false, a.extra.values, v.fields[k]) {
        NothingNew(a, b, loose, k);
        assert b.extra.MapOf?;
        Sound(ru, a.extra.values, b.extra.values, op, at + "{}", v.fields[k], NO_KEYS);
      }
    }
  }

  /**
   * Response soundness: when `compareSchemas` reports no change at all, the
   * released client can read every value the server now sends: required fields
   * are there, nothing is null that was not, and kinds, enum values and
   * branches are ones it knows.
   */
  lemma ResponsesStayReadable(ru: Rules, before: Schema, after: Schema, op: string, at: string, v: Json)
    requires WfReceiver(ru, false, before) && WfSender(false, after) && Fits(Response, before, after, NO_KEYS)
    requires Compare(Response, before, after, op, at) == []
    requires Sends(ru, after, v, NO_KEYS)
    ensures Receives(ru, false, before, v)
  {
    Sound(ru, before, after, op, at, v, NO_KEYS);
  }
}
