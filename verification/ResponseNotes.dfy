/**
 * A response diff with notes but nothing breaking: a released client copes with
 * all that the new schema sends. A value may be of an enum or a branch it does
 * not know, and anything at all where the new schema says anything; the rest it
 * reads as before.
 */
module ResponseNotes {
  import opened JsonValues
  import opened Schemas
  import opened Meaning
  import opened Disjunction
  import opened Pairing
  import opened Comparison
  import opened Fitting
  import opened ResponseSoundness

  // -- coping ---------------------------------------------------------------------------

  /**
   * A client of `before` copes with `v`, which a server of `after` sends: `null`
   * only where it was admitted, and a value of a branch it knows as it knows it.
   * No old branch is gone; a new one may have come.
   */
  ghost predicate Copes(ru: Rules, before: Schema, after: Schema, v: Json, loose: Keys)
    decreases Size(before), 3
  {
    var a, b := Alternatives(before), Alternatives(after);
    || a.any || b.any
    || (v.Null? && a.nullable)
    || (&& (forall i :: 0 <= i < |a.variants| ==> i in Pairs(Response, a.variants, b.variants))
        && exists j :: 0 <= j < |b.variants| && Sends(ru, b.variants[j], v, loose) && BranchCopes(ru, before, after, j, v, loose))
  }

  ghost predicate BranchCopes(ru: Rules, before: Schema, after: Schema, j: nat, v: Json, loose: Keys)
    requires j < |Alternatives(after).variants|
    decreases Size(before), 2
  {
    var va, vb := Alternatives(before).variants, Alternatives(after).variants;
    var pairs := Pairs(Response, va, vb);
    if j in pairs.Values then exists i :: i in pairs && pairs[i] == j && VariantCopes(ru, va[i], vb[j], v, loose)
    else 0 < |va| < |vb|
  }

  ghost predicate VariantCopes(ru: Rules, a: Schema, b: Schema, v: Json, loose: Keys)
    decreases Size(a), 1
  {
    if KindOf(a) == "allOf" then PartsCope(ru, a, b, v, loose.Plus(ListNames(ListOf(b.allOf))))
    else
      && HasType(KindOf(a), v) && RequiredMeets(a, v)
      && (v.Arr? && a.items.Some? ==>
            forall i :: 0 <= i < |v.items| ==> Copes(ru, a.items.value, OrAny(b.items), v.items[i], NO_KEYS))
      && PropertiesCope(ru, a, b, v)
      && (v.Obj? && a.extra.MapOf? ==>
            forall k :: k in v.fields && !Declares(PropertiesOf(a), k) ==>
              b.extra.MapOf? && Copes(ru, a.extra.values, b.extra.values, v.fields[k], NO_KEYS))
  }

  ghost predicate PartsCope(ru: Rules, a: Schema, b: Schema, v: Json, loose: Keys)
    decreases Size(a), 0
  {
    var partsA, partsB := ListOf(a.allOf), ListOf(b.allOf);
    |partsA| == |partsB| && forall i :: 0 <= i < |partsA| ==> Copes(ru, partsA[i], partsB[i], v, loose)
  }

  ghost predicate PropertiesCope(ru: Rules, a: Schema, b: Schema, v: Json)
    decreases Size(a), 0
  {
    v.Obj? ==> forall i :: 0 <= i < |PropertiesOf(a)| && PropertiesOf(a)[i].name in v.fields ==>
      var now := Lookup(PropertiesOf(b), PropertiesOf(a)[i].name);
      now.Some? && Copes(ru, PropertiesOf(a)[i].schema, now.value, v.fields[PropertiesOf(a)[i].name], NO_KEYS)
  }

  // -- what a quiet comparison says ----------------------------------------------------------

  lemma QuietCompare(before: Schema, after: Schema, op: string, at: string)
    requires !Alternatives(before).any && !Alternatives(after).any
    requires NothingBreaking(Compare(Response, before, after, op, at))
    ensures Alternatives(after).nullable ==> Alternatives(before).nullable
    ensures NothingBreaking(Concat(VariantSteps(Response, before, after, op, at)))
  {
    hide Alternatives, VariantSteps, NothingBreaking, NewBranchChanges;
    var a, b := Alternatives(before), Alternatives(after);
    var nulls, variants := NullChanges(Response, a, b, op, at), Concat(VariantSteps(Response, before, after, op, at));
    QuietParts(nulls + variants, NewBranchChanges(Response, a.variants, b.variants, op, at));
    QuietParts(nulls, variants);
    QuietWhen(!a.nullable && b.nullable, op, at);
    assert nulls == When(!a.nullable && b.nullable, Breaking, op, at);
  }

  lemma QuietBranch(before: Schema, after: Schema, i: nat, op: string, at: string)
    requires i < |Alternatives(before).variants| && NothingBreaking(Concat(VariantSteps(Response, before, after, op, at)))
    ensures NothingBreaking(VariantChange(Response, before, after, i, op, at))
    ensures i in Pairs(Response, Alternatives(before).variants, Alternatives(after).variants)
  {
    hide Alternatives, Pairs, CompareVariant;
    QuietStep(VariantSteps(Response, before, after, op, at), i);
    var lost := Change(Breaking, op, at);
    assert lost in [lost];
  }

  lemma QuietVariant(a: Schema, b: Schema, op: string, at: string)
    requires KindOf(a) != "allOf" && NothingBreaking(CompareVariant(Response, a, b, op, at))
    ensures KindOf(a) == "object" ==> NothingBreaking(ObjectChanges(Response, a, b, op, at))
    ensures KindOf(a) == "array" && a.items.Some? ==>
      NothingBreaking(Compare(Response, a.items.value, OrAny(b.items), op, at + "[]"))
  {
    hide NothingBreaking, ObjectChanges, EnumChanges, Compare;
    QuietParts(EnumChanges(Response, a, b, op, at) + RequestLimits(Response, a, b, op, at), ShapeChanges(Response, a, b, op, at));
  }

  lemma QuietPart(a: Schema, b: Schema, i: nat, op: string, at: string)
    requires KindOf(a) == "allOf" && NothingBreaking(CompareVariant(Response, a, b, op, at))
    ensures |ListOf(a.allOf)| == |ListOf(b.allOf)|
    ensures i < |ListOf(a.allOf)| ==>
      NothingBreaking(Compare(Response, ListOf(a.allOf)[i], ListOf(b.allOf)[i], op, at + "&" + NatText(i)))
  {
    hide Compare, NothingBreaking;
    if |ListOf(a.allOf)| == |ListOf(b.allOf)| {
      if i < |ListOf(a.allOf)| { QuietStep(PartSteps(Response, a, b, op, at), i); }
    } else {
      LostIsBreaking(op, at);
    }
  }

  lemma LostIsBreaking(op: string, at: string)
    ensures !NothingBreaking([Change(Breaking, op, at)])
  {
    assert Change(Breaking, op, at) in [Change(Breaking, op, at)];
  }

  lemma QuietObject(a: Schema, b: Schema, op: string, at: string)
    requires NothingBreaking(ObjectChanges(Response, a, b, op, at))
    ensures NothingBreaking(Concat(PropertySteps(Response, a, b, op, at))) && NothingBreaking(MapChanges(Response, a, b, op, at))
  {
    hide NothingBreaking, MapChanges, PropertySteps;
    var props := Concat(PropertySteps(Response, a, b, op, at));
    QuietParts(props + RequiredChanges(Response, a, b, op, at), MapChanges(Response, a, b, op, at));
    QuietParts(props, RequiredChanges(Response, a, b, op, at));
  }

  /** An old property is still there, and is required where it was. */
  lemma QuietProperty(a: Schema, b: Schema, i: nat, op: string, at: string) returns (s: Schema)
    requires i < |PropertiesOf(a)| && NothingBreaking(ObjectChanges(Response, a, b, op, at))
    ensures var p := PropertiesOf(a)[i];
      && Lookup(PropertiesOf(b), p.name) == Some(s)
      && (p.name in a.required ==> p.name in b.required)
      && NothingBreaking(Compare(Response, p.schema, s, op, at + "." + p.name))
  {
    hide NothingBreaking, Compare, Lookup;
    QuietObject(a, b, op, at);
    QuietStep(PropertySteps(Response, a, b, op, at), i);
    var p := PropertiesOf(a)[i];
    var where := at + "." + p.name;
    var now := Lookup(PropertiesOf(b), p.name);
    if now.None? {
      s := ANY;
      LostIsBreaking(op, where);
    } else {
      s := now.value;
      var dropped := p.name in a.required && p.name !in b.required;
      assert When(false, Breaking, op, where) == [];
      assert PropertyChange(Response, a, b, i, op, at) == When(dropped, Breaking, op, where) + Compare(Response, p.schema, s, op, where);
      QuietParts(When(dropped, Breaking, op, where), Compare(Response, p.schema, s, op, where));
      QuietWhen(dropped, op, where);
    }
  }

  lemma RequiredKept(a: Schema, b: Schema, v: Json, op: string, at: string)
    requires NothingBreaking(ObjectChanges(Response, a, b, op, at))
    requires RequiredDeclared(a) && RequiredMeets(b, v) && v.Obj?
    ensures RequiredMeets(a, v)
  {
    hide ObjectChanges, NothingBreaking, Compare;
    forall r | 0 <= r < |a.required| ensures a.required[r] in v.fields {
      var name := a.required[r];
      assert name in a.required;
      var i :| 0 <= i < |PropertiesOf(a)| && PropertiesOf(a)[i].name == name;
      var s := QuietProperty(a, b, i, op, at);
      assert name in b.required;
    }
  }

  // -- branches ----------------------------------------------------------------------------------

  /** A new branch beside all the old ones makes the list longer. */
  lemma OneMore(pairs: map<nat, nat>, n: nat, m: nat, j: nat)
    requires Injective(pairs) && Between(pairs, n, m) && (forall i :: 0 <= i < n ==> i in pairs)
    requires j < m && j !in pairs.Values
    ensures n < m
  {
    hide *;
    InjectiveSize(pairs);
    KeysBelow(pairs, n, m);
    assert j in Below(m);
    Fewer(pairs.Values, Below(m) - {j});
    assert |Below(m) - {j}| == m - 1;
  }

  lemma Fewer(a: set<nat>, b: set<nat>)
    requires a <= b
    ensures |a| <= |b|
  {
    assert |b - a| == |b| - |a|;
  }

  lemma SoundBranches(ru: Rules, before: Schema, after: Schema)
    requires WfReceiver(ru, false, before) && WfSender(false, after)
    ensures SoundPairs(Response, Alternatives(before).variants, Alternatives(after).variants,
                       Pairs(Response, Alternatives(before).variants, Alternatives(after).variants))
  {
    hide WfSender, WfReceiver, SenderLeaf, ReceiverLeaf, KindOf, Pairs, Alternatives, Compatible;
    var va, vb := Alternatives(before).variants, Alternatives(after).variants;
    ReceiverVariants(ru, false, before);
    SenderVariants(false, after);
    forall k | 0 <= k < |va| ensures Plain(KindOf(va[k])) { ReceiverKinds(ru, false, va[k]); }
    forall k | 0 <= k < |vb| ensures Plain(KindOf(vb[k])) { SenderKinds(false, vb[k]); }
    PairsSound(Response, va, vb);
  }

  // -- the induction -------------------------------------------------------------------------------

  lemma {:induction false} Coped(ru: Rules, before: Schema, after: Schema, op: string, at: string, v: Json, loose: Keys)
    requires WfReceiver(ru, false, before) && WfSender(false, after) && Fits(Response, before, after, loose)
    requires NothingBreaking(Compare(Response, before, after, op, at))
    requires Sends(ru, after, v, loose)
    ensures Copes(ru, before, after, v, loose)
    decreases Size(before), 4
  {
    hide Compare, CompareVariant, WfSender, WfReceiver, Sends, VariantFits, SenderLeaf, ReceiverLeaf, KindOf, Size, Pairs, Alternatives, BranchCopes, NothingBreaking;
    var a, b := Alternatives(before), Alternatives(after);
    SendsItsAlternatives(ru, false, after, v, loose);
    if !a.any && !b.any {
      QuietCompare(before, after, op, at);
      if !(v.Null? && a.nullable) {
        forall i | 0 <= i < |a.variants| ensures i in Pairs(Response, a.variants, b.variants) { QuietBranch(before, after, i, op, at); }
        var j :| 0 <= j < |b.variants| && Sends(ru, b.variants[j], v, loose);
        BranchCoped(ru, before, after, j, op, at, v, loose);
      }
    }
  }

  lemma {:induction false} BranchCoped(ru: Rules, before: Schema, after: Schema, j: nat, op: string, at: string, v: Json, loose: Keys)
    requires WfReceiver(ru, false, before) && WfSender(false, after) && Fits(Response, before, after, loose)
    requires !Alternatives(before).any && !Alternatives(after).any
    requires NothingBreaking(Concat(VariantSteps(Response, before, after, op, at)))
    requires forall i :: 0 <= i < |Alternatives(before).variants| ==>
      i in Pairs(Response, Alternatives(before).variants, Alternatives(after).variants)
    requires j < |Alternatives(after).variants| && Sends(ru, Alternatives(after).variants[j], v, loose)
    ensures BranchCopes(ru, before, after, j, v, loose)
    decreases Size(before), 3
  {
    hide Compare, CompareVariant, WfSender, WfReceiver, Sends, VariantFits, SenderLeaf, ReceiverLeaf, KindOf, Size, Pairs, Alternatives, VariantCopes, NothingBreaking, Compatible;
    var va, vb := Alternatives(before).variants, Alternatives(after).variants;
    var pairs := Pairs(Response, va, vb);
    SoundBranches(ru, before, after);
    if j in pairs.Values {
      var i :| i in pairs && pairs[i] == j;
      SenderVariants(false, after);
      ReceiverVariants(ru, false, before);
      QuietBranch(before, after, i, op, at);
      VariantCoped(ru, va[i], vb[j], op, VariantAt(before, after, i, at), v, loose);
    } else {
      OneMore(pairs, |va|, |vb|, j);
    }
  }

  lemma {:induction false} VariantCoped(ru: Rules, a: Schema, b: Schema, op: string, at: string, v: Json, loose: Keys)
    requires ReceiverLeaf(ru, false, a) && SenderLeaf(false, b) && VariantFits(Response, a, b, loose)
    requires Compatible(Response, KindOf(a), KindOf(b))
    requires NothingBreaking(CompareVariant(Response, a, b, op, at))
    requires Sends(ru, b, v, loose)
    ensures VariantCopes(ru, a, b, v, loose)
    decreases Size(a), 2
  {
    hide Compare, CompareVariant, VariantFits, Sends, Size, Own, NothingBreaking, Copes;
    AllOfKinds(ru, a, b);
    if KindOf(a) == "allOf" {
      PartsCoped(ru, a, b, op, at, v, loose);
    } else {
      KindSent(ru, false, b, v, loose);
      KindCoped(ru, a, b, op, at, v, loose);
      ItemsCoped(ru, a, b, op, at, v, loose);
      PropertiesCoped(ru, a, b, op, at, v, loose);
      MapCoped(ru, a, b, op, at, v, loose);
    }
  }

  lemma KindCoped(ru: Rules, a: Schema, b: Schema, op: string, at: string, v: Json, loose: Keys)
    requires ReceiverLeaf(ru, false, a) && KindOf(a) != "allOf" && Compatible(Response, KindOf(a), KindOf(b))
    requires NothingBreaking(CompareVariant(Response, a, b, op, at))
    requires Sends(ru, b, v, loose) && HasType(KindOf(b), v)
    ensures HasType(KindOf(a), v) && RequiredMeets(a, v)
  {
    hide Compare, CompareVariant, ObjectChanges, NothingBreaking;
    SameShape(a, b, v);
    if v.Obj? {
      QuietVariant(a, b, op, at);
      RequiredKept(a, b, v, op, at);
    }
  }

  lemma {:induction false} PartsCoped(ru: Rules, a: Schema, b: Schema, op: string, at: string, v: Json, loose: Keys)
    requires ReceiverLeaf(ru, false, a) && SenderLeaf(false, b) && VariantFits(Response, a, b, loose)
    requires KindOf(a) == "allOf" && a.allOf.Listed? && b.allOf.Listed?
    requires NothingBreaking(CompareVariant(Response, a, b, op, at))
    requires Sends(ru, b, v, loose)
    ensures PartsCope(ru, a, b, v, loose.Plus(ListNames(ListOf(b.allOf))))
    decreases Size(a), 1
  {
    hide Compare, CompareVariant, Copes, Fits, Own, NothingBreaking;
    var wide := loose.Plus(ListNames(b.allOf.list));
    QuietPart(a, b, 0, op, at);
    assert PartsFit(Response, a, b, wide);
    assert AllSend(ru, b.allOf, v, wide);
    forall i | 0 <= i < |a.allOf.list| ensures Copes(ru, a.allOf.list[i], b.allOf.list[i], v, wide) {
      QuietPart(a, b, i, op, at);
      Coped(ru, a.allOf.list[i], b.allOf.list[i], op, at + "&" + NatText(i), v, wide);
    }
  }

  lemma {:induction false} ItemsCoped(ru: Rules, a: Schema, b: Schema, op: string, at: string, v: Json, loose: Keys)
    requires ReceiverLeaf(ru, false, a) && SenderLeaf(false, b) && VariantFits(Response, a, b, loose)
    requires KindOf(a) != "allOf" && b.allOf.Absent? && Compatible(Response, KindOf(a), KindOf(b))
    requires NothingBreaking(CompareVariant(Response, a, b, op, at))
    requires Sends(ru, b, v, loose) && HasType(KindOf(b), v)
    ensures v.Arr? && a.items.Some? ==>
      forall i :: 0 <= i < |v.items| ==> Copes(ru, a.items.value, OrAny(b.items), v.items[i], NO_KEYS)
    decreases Size(a), 1
  {
    hide Compare, CompareVariant, Copes, NothingBreaking;
    SameShape(a, b, v);
    if v.Arr? && a.items.Some? {
      QuietVariant(a, b, op, at);
      var now := OrAny(b.items);
      assert ItemsSend(ru, b.items, v);
      forall i | 0 <= i < |v.items| ensures Copes(ru, a.items.value, now, v.items[i], NO_KEYS) {
        if b.items.None? { AnySends(ru, v.items[i]); }
        Coped(ru, a.items.value, now, op, at + "[]", v.items[i], NO_KEYS);
      }
    }
  }

  lemma {:induction false} PropertiesCoped(ru: Rules, a: Schema, b: Schema, op: string, at: string, v: Json, loose: Keys)
    requires ReceiverLeaf(ru, false, a) && SenderLeaf(false, b) && VariantFits(Response, a, b, loose)
    requires KindOf(a) != "allOf" && b.allOf.Absent? && Compatible(Response, KindOf(a), KindOf(b))
    requires NothingBreaking(CompareVariant(Response, a, b, op, at))
    requires Sends(ru, b, v, loose) && HasType(KindOf(b), v)
    ensures PropertiesCope(ru, a, b, v)
    decreases Size(a), 1
  {
    hide Compare, CompareVariant, ObjectChanges, Copes, NothingBreaking;
    SameShape(a, b, v);
    if v.Obj? {
      QuietVariant(a, b, op, at);
      var propsA := PropertiesOf(a);
      assert PropertiesSend(ru, b.properties, v);
      forall i | 0 <= i < |propsA| && propsA[i].name in v.fields
        ensures Lookup(PropertiesOf(b), propsA[i].name).Some?
        ensures Copes(ru, propsA[i].schema, Lookup(PropertiesOf(b), propsA[i].name).value, v.fields[propsA[i].name], NO_KEYS)
      {
        var name := propsA[i].name;
        var s := QuietProperty(a, b, i, op, at);
        PropertySent(ru, b, name, s, v);
        Coped(ru, propsA[i].schema, s, op, at + "." + name, v.fields[name], NO_KEYS);
      }
    }
  }

  lemma {:induction false} MapCoped(ru: Rules, a: Schema, b: Schema, op: string, at: string, v: Json, loose: Keys)
    requires ReceiverLeaf(ru, false, a) && SenderLeaf(false, b) && VariantFits(Response, a, b, loose)
    requires KindOf(a) != "allOf" && b.allOf.Absent? && Compatible(Response, KindOf(a), KindOf(b))
    requires NothingBreaking(CompareVariant(Response, a, b, op, at))
    requires Sends(ru, b, v, loose) && HasType(KindOf(b), v)
    ensures v.Obj? && a.extra.MapOf? ==>
      forall k :: k in v.fields && !Declares(PropertiesOf(a), k) ==>
        b.extra.MapOf? && Copes(ru, a.extra.values, b.extra.values, v.fields[k], NO_KEYS)
    decreases Size(a), 1
  {
    hide Compare, CompareVariant, ObjectChanges, Copes, NothingBreaking;
    SameShape(a, b, v);
    if v.Obj? && a.extra.MapOf? {
      QuietVariant(a, b, op, at);
      QuietObject(a, b, op, at);
      var propsA, propsB := PropertiesOf(a), PropertiesOf(b);
      assert ExtraSends(ru, b.extra, propsB, v, OpenKeys(b, loose));
      assert KeysFit(Response, a, b, loose);
      forall k | k in v.fields && !Declares(propsA, k)
        ensures b.extra.MapOf? && Copes(ru, a.extra.values, b.extra.values, v.fields[k], NO_KEYS)
      {
        NothingNew(a, b, loose, k);
        assert b.extra.MapOf?;
        Coped(ru, a.extra.values, b.extra.values, op, at + "{}", v.fields[k], NO_KEYS);
      }
    }
  }

  /**
   * When nothing in the response diff is breaking, a released client copes with
   * every value the server now sends, at any depth.
   */
  lemma NotesAside(ru: Rules, before: Schema, after: Schema, op: string, at: string, v: Json)
    requires WfReceiver(ru, false, before) && WfSender(false, after) && Fits(Response, before, after, NO_KEYS)
    requires NothingBreaking(Compare(Response, before, after, op, at))
    requires Sends(ru, after, v, NO_KEYS)
    ensures Copes(ru, before, after, v, NO_KEYS)
  {
    Coped(ru, before, after, op, at, v, NO_KEYS);
  }
}
