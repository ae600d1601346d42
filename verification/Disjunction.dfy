/** `alternatives` is a disjunctive form: it keeps what a schema means. */
module Disjunction {
  import opened JsonValues
  import opened Schemas
  import opened Meaning

  ghost predicate SomeReceives(ru: Rules, strict: bool, ss: seq<Schema>, v: Json) {
    exists i :: 0 <= i < |ss| && Receives(ru, strict, ss[i], v)
  }

  ghost predicate SomeSends(ru: Rules, ss: seq<Schema>, v: Json, loose: Keys) {
    exists i :: 0 <= i < |ss| && Sends(ru, ss[i], v, loose)
  }

  ghost predicate AltsReceive(ru: Rules, strict: bool, alts: Alts, v: Json) {
    (v.Null? && alts.nullable) || alts.any || SomeReceives(ru, strict, alts.variants, v)
  }

  ghost predicate AltsSend(ru: Rules, alts: Alts, v: Json, loose: Keys) {
    (v.Null? && alts.nullable) || alts.any || SomeSends(ru, alts.variants, v, loose)
  }

  // -- leaves ---------------------------------------------------------------------

  predicate NonNullKind(types: Types) {
    types.Untyped? || (types.One? && types.name in TYPE_NAMES && types.name != "null")
  }

  predicate IntersectionAlone(s: Schema) {
    s.allOf.Listed? ==> s == ANY.(allOf := s.allOf)
  }

  /** What is known of a variant on the writing side; no untyped one lists `null`. */
  predicate SenderLeaf(itemised: bool, s: Schema) {
    && SenderShape(itemised, s)
    && (s.types.Untyped? && EnumOf(s).Some? ==> Null !in EnumOf(s).value)
  }

  predicate SenderShape(itemised: bool, s: Schema) {
    && s.anyOf.Absent? && s.oneOf.Absent? && !Bare(s)
    && NonNullKind(s.types)
    && IntersectionAlone(s)
    && DistinctNames(PropertiesOf(s))
    && (s.types.Untyped? ==>
          && s.properties.Undeclared? && s.items.None? && s.extra.NoExtra?
          && (EnumOf(s).Some? ==> OneKind(Without(EnumOf(s).value, Null))))
    && (itemised && s.types == One("array") ==> s.items.Some?)
    && WfSenderProperties(itemised, s.properties)
    && (s.items.Some? ==> WfSender(itemised, s.items.value))
    && (s.extra.MapOf? ==> WfSender(itemised, s.extra.values))
    && WfSenders(itemised, s.allOf)
  }

  /** What is known of a variant on the reading side. */
  ghost predicate ReceiverLeaf(ru: Rules, strict: bool, s: Schema) {
    && s.anyOf.Absent? && s.oneOf.Absent? && !Bare(s)
    && NonNullKind(s.types)
    && IntersectionAlone(s)
    && DistinctNames(PropertiesOf(s))
    && (s.enumeration.None? || s.constant.None?)
    && RequiredDeclared(s)
    && WfReceiverProperties(ru, strict, s.properties)
    && (s.items.Some? ==> WfReceiver(ru, strict, s.items.value))
    && (s.extra.MapOf? ==> WfReceiver(ru, strict, s.extra.values))
    && WfReceivers(ru, strict, s.allOf)
  }

  lemma {:induction false} SenderVariants(itemised: bool, s: Schema)
    requires WfSender(itemised, s)
    ensures forall i :: 0 <= i < |Alternatives(s).variants| ==> SenderLeaf(itemised, Alternatives(s).variants[i])
    decreases s, 1
  {
    if Bare(s) {
    } else if s.anyOf.Listed? {
      SenderVariantsOf(itemised, s.anyOf.list);
    } else if s.oneOf.Listed? {
      SenderVariantsOf(itemised, s.oneOf.list);
    } else if s.types.Many? {
      var rest := Without(s.types.names, "null");
      forall i | 0 <= i < |rest| ensures SenderLeaf(itemised, s.(types := One(rest[i]))) {
        assert rest[i] in rest;
        assert rest[i] in s.types.names;
        SenderOneType(itemised, s, rest[i]);
      }
      if |rest| == 1 { SenderSplit(itemised, "null" in s.types.names, s.(types := One(rest[0]))); }
    } else if s.types != One("null") {
      SenderSplit(itemised, false, s);
    }
  }

  lemma SenderOneType(itemised: bool, s: Schema, t: string)
    requires WfSender(itemised, s) && s.types.Many? && t in s.types.names && t != "null"
    ensures SenderLeaf(itemised, s.(types := One(t)))
  {
    var i :| 0 <= i < |s.types.names| && s.types.names[i] == t;
  }

  lemma SenderSplit(itemised: bool, nullable: bool, s: Schema)
    requires SenderShape(itemised, s)
    ensures forall i :: 0 <= i < |SplitNull(nullable, s).variants| ==> SenderLeaf(itemised, SplitNull(nullable, s).variants[i])
  {
    var values := EnumOf(s);
    if values.Some? && Null in values.value {
      WithoutAbsent(Without(values.value, Null), Null);
    }
  }

  lemma {:induction false} WithoutAbsent(xs: seq<Json>, x: Json)
    requires x !in xs
    ensures Without(xs, x) == xs
  {
    if xs != [] { WithoutAbsent(xs[1..], x); }
  }

  lemma {:induction false} SenderVariantsOf(itemised: bool, ss: seq<Schema>)
    requires forall i :: 0 <= i < |ss| ==> WfSender(itemised, ss[i])
    ensures forall i :: 0 <= i < |UnionOf(ss).variants| ==> SenderLeaf(itemised, UnionOf(ss).variants[i])
    decreases ss, 0
  {
    if ss != [] {
      SenderVariants(itemised, ss[0]);
      SenderVariantsOf(itemised, ss[1..]);
    }
  }

  lemma {:induction false} ReceiverVariants(ru: Rules, strict: bool, s: Schema)
    requires WfReceiver(ru, strict, s)
    ensures forall i :: 0 <= i < |Alternatives(s).variants| ==> ReceiverLeaf(ru, strict, Alternatives(s).variants[i])
    decreases s, 1
  {
    if Bare(s) {
    } else if s.anyOf.Listed? {
      ReceiverVariantsOf(ru, strict, s.anyOf.list);
    } else if s.oneOf.Listed? {
      ReceiverVariantsOf(ru, strict, s.oneOf.list);
    } else if s.types.Many? {
      var rest := Without(s.types.names, "null");
      forall i | 0 <= i < |rest| ensures ReceiverLeaf(ru, strict, s.(types := One(rest[i]))) {
        assert rest[i] in rest;
        assert rest[i] in s.types.names;
        ReceiverOneType(ru, strict, s, rest[i]);
      }
      if |rest| == 1 { ReceiverSplit(ru, strict, "null" in s.types.names, s.(types := One(rest[0]))); }
    } else if s.types != One("null") {
      ReceiverSplit(ru, strict, false, s);
    }
  }

  lemma ReceiverOneType(ru: Rules, strict: bool, s: Schema, t: string)
    requires WfReceiver(ru, strict, s) && s.types.Many? && t in s.types.names && t != "null"
    ensures ReceiverLeaf(ru, strict, s.(types := One(t)))
  {
    var i :| 0 <= i < |s.types.names| && s.types.names[i] == t;
  }

  lemma ReceiverSplit(ru: Rules, strict: bool, nullable: bool, s: Schema)
    requires ReceiverLeaf(ru, strict, s)
    ensures forall i :: 0 <= i < |SplitNull(nullable, s).variants| ==> ReceiverLeaf(ru, strict, SplitNull(nullable, s).variants[i])
  {
  }

  lemma {:induction false} ReceiverVariantsOf(ru: Rules, strict: bool, ss: seq<Schema>)
    requires forall i :: 0 <= i < |ss| ==> WfReceiver(ru, strict, ss[i])
    ensures forall i :: 0 <= i < |UnionOf(ss).variants| ==> ReceiverLeaf(ru, strict, UnionOf(ss).variants[i])
    decreases ss, 0
  {
    if ss != [] {
      ReceiverVariants(ru, strict, ss[0]);
      ReceiverVariantsOf(ru, strict, ss[1..]);
    }
  }

  // -- the reading side -------------------------------------------------------------

  /** A value is accepted iff it is null where null is, or anything goes, or a variant accepts it. */
  lemma {:induction false} ReceivesIsItsAlternatives(ru: Rules, strict: bool, s: Schema, v: Json)
    requires WfReceiver(ru, strict, s)
    ensures Receives(ru, strict, s, v) <==> AltsReceive(ru, strict, Alternatives(s), v)
    decreases s, 1
  {
    hide Receives;
    if Bare(s) {
      BareReceives(ru, strict, s, v);
    } else if s.anyOf.Listed? {
      UnionReceives(ru, strict, s.anyOf.list, v);
      UnionIs(ru, strict, s, s.anyOf.list, v);
    } else if s.oneOf.Listed? {
      UnionReceives(ru, strict, s.oneOf.list, v);
      UnionIs(ru, strict, s, s.oneOf.list, v);
    } else {
      match s.types
      case Many(names) =>
        var rest := Without(names, "null");
        assert s.allOf.Absent?;
        assert forall t :: t in rest ==> t in names;
        assert |rest| == 1 ==> rest[0] in rest;
        if |rest| != 1 {
          TypeListReceives(ru, strict, s, rest, Alternatives(s).variants, v);
        } else {
          var one := s.(types := One(rest[0]));
          OneTypeLeft(ru, strict, s, rest[0], v);
          SplitReceives(ru, strict, "null" in names, s, one, v);
        }
      case One(name) =>
        if name != "null" { SplitReceives(ru, strict, false, s, s, v); } else { NullAlone(ru, strict, s, v); }
      case Untyped => SplitReceives(ru, strict, false, s, s, v);
    }
  }

  lemma NullAlone(ru: Rules, strict: bool, s: Schema, v: Json)
    requires WfReceiver(ru, strict, s) && s.types == One("null") && s.anyOf.Absent? && s.oneOf.Absent?
    ensures Receives(ru, strict, s, v) <==> AltsReceive(ru, strict, Alternatives(s), v)
  {
    if v.Null? { NullReceived(ru, strict, s); }
  }

  lemma UnionIs(ru: Rules, strict: bool, s: Schema, ss: seq<Schema>, v: Json)
    requires WfReceiver(ru, strict, s)
    requires s == ANY.(anyOf := Listed(ss)) || s == ANY.(oneOf := Listed(ss))
    ensures Receives(ru, strict, s, v) <==> SomeReceives(ru, strict, ss, v)
  {
    OwnOfAny(ru, strict, s, v);
    assert ItemsReceive(ru, strict, s.items, v) && PropertiesReceive(ru, strict, s.properties, v);
    assert ExtraReceives(ru, strict, s.extra, PropertiesOf(s), v) && AllReceive(ru, strict, s.allOf, v);
    if s.oneOf.Listed? {
      assert AnyReceives(ru, strict, s.anyOf, v);
      assert strict ==> Exclusive(ru, s);
      OneOfIs(ru, strict, s, v);
    } else {
      assert OneReceives(ru, strict, s.oneOf, v);
      assert AnyReceives(ru, strict, s.anyOf, v) <==> SomeReceives(ru, strict, ss, v);
    }
  }

  lemma OwnOfAny(ru: Rules, limited: bool, s: Schema, v: Json)
    requires s.types.Untyped? && s.enumeration.None? && s.constant.None? && s.required == []
    requires limited ==> s.limits == NO_LIMITS
    ensures Own(ru, limited, s, v)
  {
  }

  lemma OneOfIs(ru: Rules, strict: bool, s: Schema, v: Json)
    requires s.oneOf.Listed? && (strict ==> Exclusive(ru, s))
    ensures OneReceives(ru, strict, s.oneOf, v) <==> SomeReceives(ru, strict, s.oneOf.list, v)
  {
    if strict { ExactlyOneIs(ru, s, v); }
  }

  lemma ExactlyOneIs(ru: Rules, s: Schema, v: Json)
    requires s.oneOf.Listed? && Exclusive(ru, s)
    ensures OneReceives(ru, true, s.oneOf, v) <==> SomeReceives(ru, true, s.oneOf.list, v)
  {
    var ss := s.oneOf.list;
    if SomeReceives(ru, true, ss, v) {
      var i :| 0 <= i < |ss| && Receives(ru, true, ss[i], v);
      forall j | 0 <= j < |ss| && j != i ensures !Receives(ru, true, ss[j], v) {
        Only(ru, s, i, j, v);
      }
    }
  }

  lemma Only(ru: Rules, s: Schema, i: nat, j: nat, v: Json)
    requires s.oneOf.Listed? && Exclusive(ru, s) && i < |s.oneOf.list| && j < |s.oneOf.list| && i != j
    requires Receives(ru, true, s.oneOf.list[i], v)
    ensures !Receives(ru, true, s.oneOf.list[j], v)
  {
    if j < i && Receives(ru, true, s.oneOf.list[j], v) { assert false; }
  }

  /** A schema with no union inside, by its parts. */
  lemma LeafReceives(ru: Rules, strict: bool, s: Schema, v: Json)
    requires s.anyOf.Absent? && s.oneOf.Absent?
    ensures Receives(ru, strict, s, v) <==>
      && Own(ru, strict, s, v)
      && ItemsReceive(ru, strict, s.items, v)
      && PropertiesReceive(ru, strict, s.properties, v)
      && ExtraReceives(ru, strict, s.extra, PropertiesOf(s), v)
      && AllReceive(ru, strict, s.allOf, v)
  {
    assert AnyReceives(ru, strict, s.anyOf, v) && OneReceives(ru, strict, s.oneOf, v);
  }

  lemma {:induction false} UnionReceives(ru: Rules, strict: bool, ss: seq<Schema>, v: Json)
    requires forall i :: 0 <= i < |ss| ==> WfReceiver(ru, strict, ss[i])
    ensures SomeReceives(ru, strict, ss, v) <==> AltsReceive(ru, strict, UnionOf(ss), v)
    decreases ss, 0
  {
    hide Receives, WfReceiver, Alternatives;
    if ss != [] {
      ReceivesIsItsAlternatives(ru, strict, ss[0], v);
      UnionReceives(ru, strict, ss[1..], v);
      SomeOf(ru, strict, ss[..1], ss[1..], v);
      assert ss[..1] + ss[1..] == ss;
      SomeOf(ru, strict, Alternatives(ss[0]).variants, UnionOf(ss[1..]).variants, v);
    }
  }

  lemma SomeOf(ru: Rules, strict: bool, a: seq<Schema>, b: seq<Schema>, v: Json)
    ensures SomeReceives(ru, strict, a + b, v) <==> SomeReceives(ru, strict, a, v) || SomeReceives(ru, strict, b, v)
  {
    var c := a + b;
    if SomeReceives(ru, strict, a, v) {
      var i :| 0 <= i < |a| && Receives(ru, strict, a[i], v);
      assert c[i] == a[i];
    }
    if SomeReceives(ru, strict, b, v) {
      var i :| 0 <= i < |b| && Receives(ru, strict, b[i], v);
      assert c[|a| + i] == b[i];
    }
  }

  /** `s` has no sub-union, so only its `type` differs between the variants. */
  lemma SameButType(ru: Rules, strict: bool, s: Schema, t: Types, v: Json)
    requires s.anyOf.Absent? && s.oneOf.Absent? && s.allOf.Absent?
    requires TypeMeets(s.types, v) <==> TypeMeets(t, v)
    ensures Receives(ru, strict, s, v) <==> Receives(ru, strict, s.(types := t), v)
  {
    LeafReceives(ru, strict, s, v);
    LeafReceives(ru, strict, s.(types := t), v);
  }

  lemma BareReceives(ru: Rules, strict: bool, s: Schema, v: Json)
    requires WfReceiver(ru, strict, s) && Bare(s)
    ensures Receives(ru, strict, s, v)
  {
    OwnOfAny(ru, strict, s, v);
    assert ItemsReceive(ru, strict, s.items, v) && PropertiesReceive(ru, strict, s.properties, v);
    assert ExtraReceives(ru, strict, s.extra, PropertiesOf(s), v) && AllReceive(ru, strict, s.allOf, v);
    LeafReceives(ru, strict, s, v);
  }

  lemma NullReceived(ru: Rules, strict: bool, s: Schema)
    requires WfReceiver(ru, strict, s) && s.anyOf.Absent? && s.oneOf.Absent? && s.allOf.Absent?
    ensures Receives(ru, strict, s, Null) <==>
      TypeMeets(s.types, Null) && (EnumOf(s).Some? ==> Null in EnumOf(s).value)
  {
    assert ItemsReceive(ru, strict, s.items, Null) && PropertiesReceive(ru, strict, s.properties, Null);
    assert ExtraReceives(ru, strict, s.extra, PropertiesOf(s), Null) && AllReceive(ru, strict, s.allOf, Null);
    LeafReceives(ru, strict, s, Null);
  }

  lemma {:induction false} TypeListReceives(ru: Rules, strict: bool, s: Schema, rest: seq<string>, variants: seq<Schema>, v: Json)
    requires WfReceiver(ru, strict, s) && s.types.Many? && rest == Without(s.types.names, "null")
    requires |variants| == |rest| && forall j :: 0 <= j < |rest| ==> variants[j] == s.(types := One(rest[j]))
    requires s.anyOf.Absent? && s.oneOf.Absent? && s.allOf.Absent?
    ensures Receives(ru, strict, s, v) <==> AltsReceive(ru, strict, Alts("null" in s.types.names, false, variants), v)
  {
    hide Receives;
    if v.Null? {
      NullReceived(ru, strict, s);
      TypeListNull(s.types.names);
      forall j | 0 <= j < |variants| ensures !Receives(ru, strict, variants[j], v) {
        assert rest[j] in rest;
        WrongType(ru, strict, variants[j], v);
      }
    } else {
      if Receives(ru, strict, s, v) {
        var j := TypeReceived(ru, strict, s, rest, v);
        assert Receives(ru, strict, variants[j], v);
      }
      if SomeReceives(ru, strict, variants, v) {
        var j :| 0 <= j < |variants| && Receives(ru, strict, variants[j], v);
        HasSomeType(ru, strict, variants[j], v);
        assert rest[j] in rest;
        assert TypeMeets(s.types, v);
        SameButType(ru, strict, s, One(rest[j]), v);
      }
    }
  }

  lemma TypeReceived(ru: Rules, strict: bool, s: Schema, rest: seq<string>, v: Json) returns (j: nat)
    requires s.types.Many? && rest == Without(s.types.names, "null") && !v.Null?
    requires s.anyOf.Absent? && s.oneOf.Absent? && s.allOf.Absent?
    requires Receives(ru, strict, s, v)
    ensures j < |rest| && Receives(ru, strict, s.(types := One(rest[j])), v)
  {
    HasSomeType(ru, strict, s, v);
    j := TypeFound(s.types.names, rest, v);
    SameButType(ru, strict, s, One(rest[j]), v);
  }

  lemma TypeFound(names: seq<string>, rest: seq<string>, v: Json) returns (j: nat)
    requires rest == Without(names, "null") && !v.Null? && TypeMeets(Many(names), v)
    ensures j < |rest| && HasType(rest[j], v)
  {
    var i :| 0 <= i < |names| && HasType(names[i], v);
    assert names[i] in names;
    assert names[i] in rest;
    j :| 0 <= j < |rest| && rest[j] == names[i];
  }

  lemma TypeListNull(names: seq<string>)
    ensures TypeMeets(Many(names), Null) <==> "null" in names
  {
    if "null" in names {
      var i :| 0 <= i < |names| && names[i] == "null";
      assert HasType(names[i], Null);
    }
  }

  lemma WrongType(ru: Rules, strict: bool, s: Schema, v: Json)
    requires !TypeMeets(s.types, v)
    ensures !Receives(ru, strict, s, v)
  {
  }

  lemma HasSomeType(ru: Rules, strict: bool, s: Schema, v: Json)
    requires Receives(ru, strict, s, v)
    ensures TypeMeets(s.types, v)
  {
  }

  lemma OneTypeLeft(ru: Rules, strict: bool, s: Schema, t: string, v: Json)
    requires s.types.Many? && Without(s.types.names, "null") == [t]
    requires s.anyOf.Absent? && s.oneOf.Absent? && s.allOf.Absent?
    ensures !v.Null? ==> (Receives(ru, strict, s, v) <==> Receives(ru, strict, s.(types := One(t)), v))
  {
    assert t in Without(s.types.names, "null");
    if !v.Null? {
      forall i | 0 <= i < |s.types.names| && HasType(s.types.names[i], v) ensures s.types.names[i] == t {
        assert s.types.names[i] in Without(s.types.names, "null");
      }
      SameButType(ru, strict, s, One(t), v);
    }
  }

  /** `rest` is `s` with at most `null` taken off its `type`. */
  lemma {:induction false} SplitReceives(ru: Rules, strict: bool, nullable: bool, s: Schema, rest: Schema, v: Json)
    requires WfReceiver(ru, strict, s) && !Bare(s)
    requires s.anyOf.Absent? && s.oneOf.Absent?
    requires rest == s.(types := rest.types) && NonNullKind(rest.types)
    requires nullable <==> s.types.Many? && AdmitsNull(s.types)
    requires if s.types.Many? then s.allOf.Absent? && rest.types.One? else rest == s
    requires !v.Null? ==> (Receives(ru, strict, s, v) <==> Receives(ru, strict, rest, v))
    ensures Receives(ru, strict, s, v) <==> AltsReceive(ru, strict, SplitNull(nullable, rest), v)
  {
    hide Receives;
    var values := EnumOf(rest);
    var alts := SplitNull(nullable, rest);
    assert EnumOf(s) == values;
    if values.Some? && Null in values.value {
      var remaining := Without(values.value, Null);
      var kept := rest.(constant := None, enumeration := Some(remaining));
      if v.Null? {
        assert AdmitsNull(s.types);
        if s.types.Many? { TypeListNull(s.types.names); }
        NullReceived(ru, strict, s);
      } else {
        LeafReceives(ru, strict, rest, v);
        LeafReceives(ru, strict, kept, v);
        assert v in values.value <==> v in remaining;
        assert Own(ru, strict, rest, v) <==> Own(ru, strict, kept, v);
        if remaining != [] {
          assert alts.variants[0] == kept;
        }
      }
    } else {
      assert alts.variants[0] == rest;
      if v.Null? && s.types.Many? {
        NullReceived(ru, strict, s);
        TypeListNull(s.types.names);
        if rest.types.One? { WrongType(ru, strict, rest, v); }
      }
    }
  }

  // -- the writing side ----------------------------------------------------------------

  /** Every value sent is null where null is allowed, or falls under a variant. */
  lemma {:induction false} SendsItsAlternatives(ru: Rules, itemised: bool, s: Schema, v: Json, loose: Keys)
    requires WfSender(itemised, s) && Sends(ru, s, v, loose)
    ensures AltsSend(ru, Alternatives(s), v, loose)
    decreases s, 1
  {
    var alts := Alternatives(s);
    if Bare(s) {
    } else if s.anyOf.Listed? {
      UnionSends(ru, itemised, s.anyOf.list, v, loose);
    } else if s.oneOf.Listed? {
      UnionSends(ru, itemised, s.oneOf.list, v, loose);
    } else {
      match s.types
      case Many(names) => TypeListSends(ru, s, v, loose);
      case One(name) =>
        if name != "null" { SplitSends(ru, false, s, v, loose); }
      case Untyped => SplitSends(ru, false, s, v, loose);
    }
  }

  lemma {:induction false} TypeListSends(ru: Rules, s: Schema, v: Json, loose: Keys)
    requires s.types.Many? && s.anyOf.Absent? && s.oneOf.Absent? && s.allOf.Absent?
    requires Sends(ru, s, v, loose)
    ensures AltsSend(ru, Alternatives(s), v, loose)
  {
    var names := s.types.names;
    var rest := Without(names, "null");
    assert TypeMeets(s.types, v);
    if v.Null? {
      TypeListNull(names);
    } else {
      var j := TypeFound(names, rest, v);
      OneTypeSends(ru, s, rest[j], v, loose);
      if |rest| != 1 {
        assert Sends(ru, Alternatives(s).variants[j], v, loose);
      } else {
        SplitSends(ru, "null" in names, s.(types := One(rest[j])), v, loose);
      }
    }
  }

  lemma OneTypeSends(ru: Rules, s: Schema, t: string, v: Json, loose: Keys)
    requires s.types.Many? && s.anyOf.Absent? && s.oneOf.Absent? && s.allOf.Absent?
    requires Sends(ru, s, v, loose) && HasType(t, v)
    ensures Sends(ru, s.(types := One(t)), v, loose)
  {
  }

  lemma {:induction false} SplitSends(ru: Rules, nullable: bool, s: Schema, v: Json, loose: Keys)
    requires !Bare(s) && s.anyOf.Absent? && s.oneOf.Absent?
    requires Sends(ru, s, v, loose)
    ensures AltsSend(ru, SplitNull(nullable, s), v, loose)
  {
    var values := EnumOf(s);
    var alts := SplitNull(nullable, s);
    if values.Some? && Null in values.value {
      if !v.Null? {
        assert v in values.value;
        assert v in Without(values.value, Null);
        assert Sends(ru, alts.variants[0], v, loose);
      }
    } else {
      assert Sends(ru, alts.variants[0], v, loose);
    }
  }

  /** What falls under the first branch or under the others falls under their union. */
  lemma EitherSends(ru: Rules, ss: seq<Schema>, v: Json, loose: Keys)
    requires ss != []
    requires AltsSend(ru, Alternatives(ss[0]), v, loose) || AltsSend(ru, UnionOf(ss[1..]), v, loose)
    ensures AltsSend(ru, UnionOf(ss), v, loose)
  {
    hide Sends, Alternatives;
    var first, rest, all := Alternatives(ss[0]), UnionOf(ss[1..]), UnionOf(ss);
    if SomeSends(ru, first.variants, v, loose) {
      var j :| 0 <= j < |first.variants| && Sends(ru, first.variants[j], v, loose);
      assert all.variants[j] == first.variants[j];
    } else if SomeSends(ru, rest.variants, v, loose) {
      var j :| 0 <= j < |rest.variants| && Sends(ru, rest.variants[j], v, loose);
      assert all.variants[|first.variants| + j] == rest.variants[j];
    }
  }

  lemma {:induction false} UnionSends(ru: Rules, itemised: bool, ss: seq<Schema>, v: Json, loose: Keys)
    requires forall i :: 0 <= i < |ss| ==> WfSender(itemised, ss[i])
    requires SomeSends(ru, ss, v, loose)
    ensures AltsSend(ru, UnionOf(ss), v, loose)
    decreases ss, 0
  {
    hide Sends, WfSender, Alternatives, UnionOf, AltsSend;
    var i :| 0 <= i < |ss| && Sends(ru, ss[i], v, loose);
    if i == 0 {
      SendsItsAlternatives(ru, itemised, ss[0], v, loose);
    } else {
      assert ss[1..][i - 1] == ss[i];
      UnionSends(ru, itemised, ss[1..], v, loose);
    }
    EitherSends(ru, ss, v, loose);
  }
}
