/** A schema compared with itself has nothing to report. */
module Reflexivity {
  import opened JsonValues
  import opened Schemas
  import opened Meaning
  import opened Pairing
  import opened Comparison
  import opened Fitting

  predicate SelfHere(s: Schema) {
    KnownTypes(s) && DistinctNames(PropertiesOf(s)) && s.limits.multipleOf != Some(0.0)
  }

  /** Every `multipleOf` is other than zero. */
  predicate WfSelf(s: Schema)
    decreases s
  {
    && SelfHere(s)
    && WfSelfProperties(s.properties)
    && (s.items.Some? ==> WfSelf(s.items.value))
    && (s.extra.MapOf? ==> WfSelf(s.extra.values))
    && WfSelves(s.anyOf) && WfSelves(s.oneOf) && WfSelves(s.allOf)
  }

  predicate WfSelfProperties(props: Properties)
    decreases props
  {
    props.Declared? ==> forall i :: 0 <= i < |props.list| ==> WfSelf(props.list[i].schema)
  }

  predicate WfSelves(branches: Branches)
    decreases branches
  {
    branches.Listed? ==> forall i :: 0 <= i < |branches.list| ==> WfSelf(branches.list[i])
  }

  predicate SelfLeaf(s: Schema) {
    && DistinctNames(PropertiesOf(s)) && s.limits.multipleOf != Some(0.0)
    && (s.types.One? ==> s.types.name in TYPE_NAMES)
    && WfSelfProperties(s.properties)
    && (s.items.Some? ==> WfSelf(s.items.value))
    && (s.extra.MapOf? ==> WfSelf(s.extra.values))
    && WfSelves(s.allOf)
  }

  lemma {:induction false} SelfVariants(s: Schema)
    requires WfSelf(s)
    ensures forall i :: 0 <= i < |Alternatives(s).variants| ==> SelfLeaf(Alternatives(s).variants[i])
    decreases s, 1
  {
    if Bare(s) {
    } else if s.anyOf.Listed? {
      SelfVariantsOf(s.anyOf.list);
    } else if s.oneOf.Listed? {
      SelfVariantsOf(s.oneOf.list);
    } else if s.types.Many? {
      var rest := Without(s.types.names, "null");
      forall i | 0 <= i < |rest| ensures SelfLeaf(s.(types := One(rest[i]))) { OneTypeIsSelf(s, rest[i]); }
      if |rest| == 1 { SplitIsSelf("null" in s.types.names, s.(types := One(rest[0]))); }
    } else {
      assert SelfLeaf(s);
      SplitIsSelf(false, s);
    }
  }

  lemma SplitIsSelf(nullable: bool, s: Schema)
    requires SelfLeaf(s)
    ensures forall i :: 0 <= i < |SplitNull(nullable, s).variants| ==> SelfLeaf(SplitNull(nullable, s).variants[i])
  {
  }

  lemma OneTypeIsSelf(s: Schema, name: string)
    requires WfSelf(s) && s.types.Many? && name in s.types.names && name != "null"
    ensures SelfLeaf(s.(types := One(name)))
  {
    var j :| 0 <= j < |s.types.names| && s.types.names[j] == name;
  }

  lemma {:induction false} SelfVariantsOf(ss: seq<Schema>)
    requires forall i :: 0 <= i < |ss| ==> WfSelf(ss[i])
    ensures forall i :: 0 <= i < |UnionOf(ss).variants| ==> SelfLeaf(UnionOf(ss).variants[i])
    decreases ss, 0
  {
    if ss != [] {
      SelfVariants(ss[0]);
      SelfVariantsOf(ss[1..]);
    }
  }

  // -- the pairing of a list with itself -----------------------------------------------

  function Identity(n: nat): (r: map<nat, nat>)
    ensures forall k :: k in r <==> 0 <= k < n
    ensures forall k :: k in r ==> r[k] == k
  {
    if n == 0 then map[] else Identity(n - 1)[n - 1 := n - 1]
  }

  lemma {:induction false} ByNameSelf(keys: seq<string>, i: nat)
    requires i <= |keys| && forall j, k :: 0 <= j < k < |keys| ==> keys[j] != keys[k]
    ensures ByName(keys, keys, i, Identity(i)) == Identity(|keys|)
    decreases |keys| - i
  {
    if i < |keys| {
      var j := IndexOf(keys, keys[i]);
      assert j == i;
      assert i !in Identity(i).Values;
      assert Identity(i)[i := i] == Identity(i + 1);
      ByNameSelf(keys, i + 1);
    }
  }

  lemma {:induction false} NoLeftovers(dir: Direction, va: seq<Schema>, vb: seq<Schema>, keysA: seq<string>, keysB: seq<string>, i: nat, pairs: map<nat, nat>)
    requires |keysA| == |va| && |keysB| == |vb| && i <= |va| && Between(pairs, |va|, |vb|)
    requires forall k :: i <= k < |va| ==> k in pairs
    ensures Leftovers(dir, va, vb, keysA, keysB, i, pairs) == pairs
    decreases |va| - i
  {
    if i < |va| {
      assert LeftoverStep(dir, va, vb, keysA, keysB, i, pairs) == pairs;
      NoLeftovers(dir, va, vb, keysA, keysB, i + 1, pairs);
    }
  }

  lemma SelfPairs(dir: Direction, variants: seq<Schema>)
    requires PlainKinds(variants)
    ensures Pairs(dir, variants, variants) == Identity(|variants|)
  {
    var keys := VariantKeys(variants);
    forall i, j | 0 <= i < j < |keys| ensures keys[i] != keys[j] { KeysDistinct(variants, i, j); }
    ByNameSelf(keys, 0);
    assert Identity(0) == map[];
    NoLeftovers(dir, variants, variants, keys, keys, 0, Identity(|keys|));
  }

  lemma SelfKinds(s: Schema)
    requires SelfLeaf(s)
    ensures Plain(KindOf(s))
  {
    PlainNames();
  }

  // -- the induction -----------------------------------------------------------------------

  /** `diff(S, S)` is empty, read in either direction. */
  lemma {:induction false} SelfSilent(dir: Direction, s: Schema, op: string, at: string)
    requires WfSelf(s)
    ensures Compare(dir, s, s, op, at) == []
    decreases Size(s), 3, 1
  {
    var variants := Alternatives(s).variants;
    if !Alternatives(s).any {
      SelfBranches(dir, s, op, at);
      forall k | 0 <= k < |variants| ensures k in Identity(|variants|).Values {
        assert Identity(|variants|)[k] == k;
      }
    }
  }

  lemma {:induction false} SelfBranches(dir: Direction, s: Schema, op: string, at: string)
    requires WfSelf(s)
    ensures Pairs(dir, Alternatives(s).variants, Alternatives(s).variants) == Identity(|Alternatives(s).variants|)
    ensures Concat(VariantSteps(dir, s, s, op, at)) == []
    decreases Size(s), 3, 0
  {
    hide CompareVariant;
    var variants := Alternatives(s).variants;
    SelfVariants(s);
    forall i | 0 <= i < |variants| ensures Plain(KindOf(variants[i])) { SelfKinds(variants[i]); }
    SelfPairs(dir, variants);
    var steps := VariantSteps(dir, s, s, op, at);
    forall i | 0 <= i < |variants| ensures steps[i] == [] {
      SelfVariantSilent(dir, variants[i], op, VariantAt(s, s, i, at));
    }
  }

  lemma SelfLimits(l: Limits, op: string, at: string)
    requires l.multipleOf != Some(0.0)
    ensures LimitChanges(l, l, op, at) == []
  {
    NothingNarrowed(l, l, op, at);
    if l.multipleOf.Some? {
      assert l.multipleOf.value / l.multipleOf.value == 1.0;
    }
  }

  lemma SelfEnum(dir: Direction, s: Schema, op: string, at: string)
    ensures EnumChanges(dir, s, s, op, at) == []
  {
  }

  lemma {:induction false} SelfVariantSilent(dir: Direction, s: Schema, op: string, at: string)
    requires SelfLeaf(s)
    ensures CompareVariant(dir, s, s, op, at) == []
    decreases Size(s), 2, 0
  {
    SelfEnum(dir, s, op, at);
    SelfLimits(s.limits, op, at);
    if KindOf(s) == "allOf" {
      SelfParts(dir, s, op, at);
    } else {
      if KindOf(s) == "object" { SelfObject(dir, s, op, at); }
      if KindOf(s) == "array" && s.items.Some? { SelfSilent(dir, s.items.value, op, at + "[]"); }
    }
  }

  lemma {:induction false} SelfObject(dir: Direction, s: Schema, op: string, at: string)
    requires SelfLeaf(s)
    ensures ObjectChanges(dir, s, s, op, at) == []
    decreases Size(s), 1, 0
  {
    var steps := PropertySteps(dir, s, s, op, at);
    forall i | 0 <= i < |steps| ensures steps[i] == [] {
      var p := PropertiesOf(s)[i];
      LookupAt(PropertiesOf(s), i);
      SelfSilent(dir, p.schema, op, at + "." + p.name);
    }
    assert NewlyRequired(s, s, op, at) == [];
    if s.extra.MapOf? { SelfSilent(dir, s.extra.values, op, at + "{}"); }
  }

  lemma {:induction false} SelfParts(dir: Direction, s: Schema, op: string, at: string)
    requires SelfLeaf(s)
    ensures Concat(PartSteps(dir, s, s, op, at)) == []
    decreases Size(s), 1, 0
  {
    var steps := PartSteps(dir, s, s, op, at);
    forall i | 0 <= i < |steps| ensures steps[i] == [] {
      SelfSilent(dir, s.allOf.list[i], op, at + "&" + NatText(i));
    }
  }

  // -- when it fails -------------------------------------------------------------------------

  /** A step of zero is reported against itself, and only that is. */
  lemma StepOfZero(l: Limits, op: string, at: string)
    ensures LimitChanges(l, l, op, at) == [] <==> l.multipleOf != Some(0.0)
  {
    NothingNarrowed(l, l, op, at);
    if l.multipleOf != Some(0.0) { SelfLimits(l, op, at); }
  }
}
