/**
 * What one edit of a schema is reported as, for each edit the comparison's
 * documentation names, and wherever in a schema it is made.
 */
module Edits {
  import opened JsonValues
  import opened Schemas
  import opened Pairing
  import opened Comparison
  import opened Fitting
  import opened Reflexivity
  import opened LimitSets

  // -- schemas of one named type ------------------------------------------------------------

  /** One type other than `null`, or one and `null`; no union, no intersection. */
  predicate Typed(s: Schema) {
    && s.anyOf.Absent? && s.oneOf.Absent? && s.allOf.Absent?
    && (s.types.One? || (s.types.Many? && |s.types.names| == 2 && s.types.names[1] == "null"))
    && TypeName(s) in TYPE_NAMES && TypeName(s) != "null"
    && (EnumOf(s).Some? ==> Null !in EnumOf(s).value)
  }

  function TypeName(s: Schema): string
    requires s.types.One? || (s.types.Many? && |s.types.names| == 2)
  {
    if s.types.One? then s.types.name else s.types.names[0]
  }

  /** The schema without its `null`. */
  function Bared(s: Schema): Schema
    requires Typed(s)
  {
    s.(types := One(TypeName(s)))
  }

  lemma TypedAlternatives(s: Schema)
    requires Typed(s)
    ensures Alternatives(s) == Alts(s.types.Many?, false, [Bared(s)])
    ensures KindOf(Bared(s)) == TypeName(s)
  {
    if s.types.Many? {
      var names := s.types.names;
      var name := names[0];
      assert names[1..][0] == "null" && names[1..][1..] == [];
      assert Without(names[1..], "null") == Without(names[1..][1..], "null") == [];
      assert Without(names, "null") == [name] + Without(names[1..], "null") == [name];
      assert "null" == names[1] && "null" in names;
    }
  }

  /** Two schemas of one type differ by their `null` and as their variants do. */
  lemma TypedCompare(dir: Direction, a: Schema, b: Schema, op: string, at: string)
    requires Typed(a) && Typed(b) && TypeName(a) == TypeName(b)
    ensures Compare(dir, a, b, op, at) ==
      When(dir.Response? && a.types.One? && b.types.Many?, Breaking, op, at)
      + When(dir.Request? && a.types.Many? && b.types.One?, Breaking, op, at)
      + CompareVariant(dir, Bared(a), Bared(b), op, at)
  {
    hide CompareVariant, VariantSteps, Alternatives, KindOf;
    TypedAlternatives(a);
    TypedAlternatives(b);
    LoneVariantChanges(dir, a, b, Bared(a), Bared(b), op, at);
  }

  /** Parts of a comparison of two typed schemas other than arrays and objects. */
  lemma TypedParts(dir: Direction, a: Schema, b: Schema, op: string, at: string)
    requires Typed(a) && Typed(b) && TypeName(a) == TypeName(b)
    ensures CompareVariant(dir, Bared(a), Bared(b), op, at) ==
      EnumChanges(dir, Bared(a), Bared(b), op, at) + RequestLimits(dir, a, b, op, at) + ShapeChanges(dir, Bared(a), Bared(b), op, at)
  {
    hide EnumChanges, RequestLimits, ShapeChanges, KindOf, TYPE_NAMES;
    TypedAlternatives(a);
    SameLimits(dir, a, b, op, at);
    NotAllOf();
  }

  lemma NotAllOf()
    ensures "allOf" !in TYPE_NAMES
  {
  }

  lemma SameLimits(dir: Direction, a: Schema, b: Schema, op: string, at: string)
    requires Typed(a) && Typed(b)
    ensures RequestLimits(dir, Bared(a), Bared(b), op, at) == RequestLimits(dir, a, b, op, at)
  {
  }

  lemma BaredIsSelf(s: Schema)
    requires Typed(s) && WfSelf(s)
    ensures SelfLeaf(Bared(s))
  {
    SelfVariants(s);
    TypedAlternatives(s);
    assert Alternatives(s).variants[0] == Bared(s);
  }

  // -- one edit on its own --------------------------------------------------------------------

  /** `null` added or taken away. */
  lemma NullEdited(dir: Direction, s: Schema, op: string, at: string)
    requires Typed(s) && s.types.One? && WfSelf(s)
    ensures var withNull := s.(types := Many([s.types.name, "null"]));
      && Compare(dir, s, withNull, op, at) == (if dir.Response? then [Change(Breaking, op, at)] else [])
      && Compare(dir, withNull, s, op, at) == (if dir.Request? then [Change(Breaking, op, at)] else [])
  {
    hide CompareVariant, Compare, TYPE_NAMES;
    var withNull := s.(types := Many([s.types.name, "null"]));
    assert EnumOf(withNull) == EnumOf(s) && TypeName(withNull) == TypeName(s);
    assert Typed(withNull) && Bared(withNull) == Bared(s) == s;
    TypedCompare(dir, s, withNull, op, at);
    TypedCompare(dir, withNull, s, op, at);
    BaredIsSelf(s);
    SelfVariantSilent(dir, s, op, at);
  }

  /** Schemas of two types, of which neither direction takes one for the other. */
  lemma TypeEdited(dir: Direction, a: Schema, b: Schema, op: string, at: string)
    requires Typed(a) && Typed(b) && a.types.One? && b.types.One?
    requires !Compatible(dir, TypeName(a), TypeName(b))
    ensures Compare(dir, a, b, op, at) == [Change(Breaking, op, at)]
  {
    hide CompareVariant, KindOf, Alternatives;
    TypedAlternatives(a);
    TypedAlternatives(b);
    StrangersUnpaired(dir, a, b);
    var steps := VariantSteps(dir, a, b, op, at);
    assert steps == [[Change(Breaking, op, at)]] && steps[1..] == [];
  }

  lemma StrangersUnpaired(dir: Direction, a: Schema, b: Schema)
    requires !Compatible(dir, KindOf(a), KindOf(b))
    ensures Pairs(dir, [a], [b]) == map[]
  {
    LoneKey(a);
    LoneKey(b);
    var keysA, keysB := VariantKeys([a]), VariantKeys([b]);
    assert keysB[0] != keysA[0];
    assert NameStep(keysA, keysB, 0, map[]) == map[];
    assert ByName(keysA, keysB, 0, map[]) == ByName(keysA, keysB, 1, map[]) == map[];
    assert Candidates(dir, a, keysA[0], [b], keysB, {}, 1) == [];
    assert Candidates(dir, a, keysA[0], [b], keysB, {}, 0) == [];
    var none: map<nat, nat> := map[];
    assert none.Values == {};
    assert LeftoverStep(dir, [a], [b], keysA, keysB, 0, map[]) == map[];
    assert Leftovers(dir, [a], [b], keysA, keysB, 0, map[]) == Leftovers(dir, [a], [b], keysA, keysB, 1, map[]) == map[];
  }

  /** Limits of every kind: silent in a response, reported in a request exactly when one shuts something out. */
  lemma LimitsEdited(dir: Direction, s: Schema, limits: Limits, op: string, at: string)
    requires Typed(s) && WfSelf(s)
    ensures dir.Response? ==> Compare(dir, s, s.(limits := limits), op, at) == []
    ensures dir.Request? ==> (Compare(dir, s, s.(limits := limits), op, at) == [] <==> NoTighter(s.limits, limits))
  {
    hide CompareVariant, Compare, TYPE_NAMES, EnumChanges, ShapeChanges, LimitChanges, NoTighter;
    var t := s.(limits := limits);
    TypedCompare(dir, s, t, op, at);
    TypedParts(dir, s, t, op, at);
    LimitsExact(s.limits, limits, op, at);
    SelfButLimits(dir, s, t, op, at);
  }

  /** Limits aside a schema is compared as with itself. */
  lemma SelfButLimits(dir: Direction, s: Schema, t: Schema, op: string, at: string)
    requires Typed(s) && WfSelf(s) && t == s.(limits := t.limits)
    ensures EnumChanges(dir, Bared(s), Bared(t), op, at) == [] && ShapeChanges(dir, Bared(s), Bared(t), op, at) == []
  {
    hide CompareVariant, Compare, TYPE_NAMES;
    var v := Bared(s);
    BaredIsSelf(s);
    SelfEnum(dir, v, op, at);
    assert EnumChanges(dir, v, Bared(t), op, at) == EnumChanges(dir, v, v, op, at);
    SelfShape(dir, v, op, at);
    assert ShapeChanges(dir, v, Bared(t), op, at) == ShapeChanges(dir, v, v, op, at) by { ShapeOf(dir, v, v, Bared(t), op, at); }
  }

  lemma SelfShape(dir: Direction, s: Schema, op: string, at: string)
    requires SelfLeaf(s)
    ensures ShapeChanges(dir, s, s, op, at) == []
  {
    if KindOf(s) == "object" { SelfObject(dir, s, op, at); }
    if KindOf(s) == "array" && s.items.Some? { SelfSilent(dir, s.items.value, op, at + "[]"); }
  }

  /** The shape a schema is compared with is its properties, its items and its map. */
  lemma ShapeOf(dir: Direction, a: Schema, b: Schema, c: Schema, op: string, at: string)
    requires b.properties == c.properties && b.required == c.required && b.items == c.items && b.extra == c.extra
    ensures ShapeChanges(dir, a, b, op, at) == ShapeChanges(dir, a, c, op, at)
  {
    hide Compare, KindOf;
    assert PropertiesOf(b) == PropertiesOf(c);
    assert PropertySteps(dir, a, b, op, at) == PropertySteps(dir, a, c, op, at);
    assert RequiredSteps(a, b, op, at) == RequiredSteps(a, c, op, at);
    assert RequiredChanges(dir, a, b, op, at) == RequiredChanges(dir, a, c, op, at);
    assert MapChanges(dir, a, b, op, at) == MapChanges(dir, a, c, op, at);
    assert ObjectChanges(dir, a, b, op, at) == ObjectChanges(dir, a, c, op, at);
  }

  // -- which changes are there -------------------------------------------------------------------

  lemma {:induction false} InConcat(steps: seq<seq<Change>>, c: Change)
    ensures c in Concat(steps) <==> exists i: nat :: i < |steps| && c in steps[i]
    decreases |steps|
  {
    if steps != [] {
      InConcat(steps[1..], c);
      if i: nat :| i < |steps| && c in steps[i] {
        if i > 0 { assert c in steps[1..][i - 1]; }
      }
      if i: nat :| i < |steps[1..]| && c in steps[1..][i] { assert c in steps[i + 1]; }
    }
  }

  lemma InMissing(values: seq<Json>, known: seq<Json>, severity: Severity, op: string, at: string, c: Change)
    ensures c in MissingFrom(values, known, severity, op, at) <==> c == Change(severity, op, at) && exists v :: v in values && v !in known
  {
    var steps := MissingSteps(values, known, severity, op, at);
    InConcat(steps, c);
    forall i: nat | i < |steps| ensures c in steps[i] <==> c == Change(severity, op, at) && values[i] !in known {}
    if v :| v in values && v !in known {
      var i: nat :| i < |values| && values[i] == v;
      assert c == Change(severity, op, at) ==> c in steps[i];
    }
  }

  /** Some value that was listed is listed no more, or a list came where there was none. */
  ghost predicate ValuesLost(dir: Direction, before: Option<seq<Json>>, after: Option<seq<Json>>) {
    after.Some? && if before.Some? then exists v :: v in before.value && v !in after.value else dir.Request?
  }

  /** Some value is listed that was not, or the list is gone. */
  ghost predicate ValuesGained(before: Option<seq<Json>>, after: Option<seq<Json>>) {
    before.Some? && (after.None? || exists v :: v in after.value && v !in before.value)
  }

  /** A value lost is breaking in both directions; a value gained is a note in a response and nothing in a request. */
  lemma ValuesEdited(dir: Direction, s: Schema, values: Option<seq<Json>>, op: string, at: string)
    requires Typed(s) && WfSelf(s) && s.constant.None? && (values.Some? ==> Null !in values.value)
    ensures forall c :: c in Compare(dir, s, s.(enumeration := values), op, at) <==>
      || (c == Change(Breaking, op, at) && ValuesLost(dir, s.enumeration, values))
      || (c == Change(Notable, op, at) && dir.Response? && ValuesGained(s.enumeration, values))
  {
    hide CompareVariant, Compare, TYPE_NAMES, ShapeChanges, LimitChanges, ValuesLost, ValuesGained;
    var t := s.(enumeration := values);
    TypedCompare(dir, s, t, op, at);
    TypedParts(dir, s, t, op, at);
    BaredIsSelf(s);
    SelfLimits(s.limits, op, at);
    assert ShapeChanges(dir, Bared(s), Bared(t), op, at) == [] by {
      SelfShape(dir, Bared(s), op, at);
      ShapeOf(dir, Bared(s), Bared(s), Bared(t), op, at);
    }
    forall c ensures c in EnumChanges(dir, Bared(s), Bared(t), op, at) <==>
      || (c == Change(Breaking, op, at) && ValuesLost(dir, s.enumeration, values))
      || (c == Change(Notable, op, at) && dir.Response? && ValuesGained(s.enumeration, values))
    {
      EnumEdited(dir, Bared(s), Bared(t), op, at, c);
    }
  }

  lemma EnumEdited(dir: Direction, a: Schema, b: Schema, op: string, at: string, c: Change)
    requires a.constant.None? && b.constant.None?
    ensures c in EnumChanges(dir, a, b, op, at) <==>
      || (c == Change(Breaking, op, at) && ValuesLost(dir, a.enumeration, b.enumeration))
      || (c == Change(Notable, op, at) && dir.Response? && ValuesGained(a.enumeration, b.enumeration))
  {
    hide MissingFrom;
    if a.enumeration.Some? && b.enumeration.Some? {
      InMissing(a.enumeration.value, b.enumeration.value, Breaking, op, at, c);
      InMissing(b.enumeration.value, a.enumeration.value, Notable, op, at, c);
    }
  }

  // -- fields -----------------------------------------------------------------------------------

  /** The two objects differ only by which fields they have and which are required. */
  ghost predicate SameFields(s: Schema, t: Schema) {
    && t == s.(properties := t.properties, required := t.required)
    && forall i, j :: 0 <= i < |PropertiesOf(s)| && 0 <= j < |PropertiesOf(t)| && PropertiesOf(s)[i].name == PropertiesOf(t)[j].name ==>
         PropertiesOf(s)[i].schema == PropertiesOf(t)[j].schema
  }

  /**
   * The released client still sends or reads a field that is gone; it reads one
   * as always present that may now be absent; it leaves out one that is now
   * required.
   */
  predicate FieldBreaks(dir: Direction, s: Schema, t: Schema, name: string) {
    var was, isNow := Declares(PropertiesOf(s), name), Declares(PropertiesOf(t), name);
    || (was && !isNow)
    || (dir.Response? && was && isNow && name in s.required && name !in t.required)
    || (dir.Request? && isNow && name in t.required && !(was && name in s.required))
  }

  /** Fields added, removed, made required and made optional, any number at once. */
  lemma FieldsEdited(dir: Direction, s: Schema, t: Schema, op: string, at: string)
    requires Typed(s) && TypeName(s) == "object" && WfSelf(s) && SameFields(s, t)
    ensures forall c :: c in Compare(dir, s, t, op, at) <==>
      exists name :: c == Change(Breaking, op, at + "." + name) && FieldBreaks(dir, s, t, name)
  {
    hide CompareVariant, Compare, TYPE_NAMES, EnumChanges, LimitChanges, ObjectChanges, FieldBreaks;
    TypedCompare(dir, s, t, op, at);
    TypedParts(dir, s, t, op, at);
    BaredIsSelf(s);
    TypedAlternatives(s);
    SelfLimits(s.limits, op, at);
    SelfEnum(dir, Bared(s), op, at);
    assert EnumChanges(dir, Bared(s), Bared(t), op, at) == EnumChanges(dir, Bared(s), Bared(s), op, at) by { hide *; SameEnum(dir, s, t, op, at); }
    assert RequestLimits(dir, s, t, op, at) == [];
    BaredFields(s, t);
    forall c ensures c in ObjectChanges(dir, Bared(s), Bared(t), op, at) <==>
      exists name :: c == Change(Breaking, op, at + "." + name) && FieldBreaks(dir, s, t, name)
    {
      ObjectEdited(dir, Bared(s), Bared(t), op, at, c);
      BaredBreaks(dir, s, t);
    }
  }

  lemma SameEnum(dir: Direction, s: Schema, t: Schema, op: string, at: string)
    requires Typed(s) && t == s.(properties := t.properties, required := t.required) && Typed(t)
    ensures EnumChanges(dir, Bared(s), Bared(t), op, at) == EnumChanges(dir, Bared(s), Bared(s), op, at)
  {
  }

  lemma BaredFields(s: Schema, t: Schema)
    requires Typed(s) && SameFields(s, t)
    ensures Typed(t) && SameFields(Bared(s), Bared(t))
  {
    hide TYPE_NAMES;
    assert EnumOf(t) == EnumOf(s);
    assert PropertiesOf(Bared(s)) == PropertiesOf(s) && PropertiesOf(Bared(t)) == PropertiesOf(t);
  }

  lemma BaredBreaks(dir: Direction, s: Schema, t: Schema)
    requires Typed(s) && Typed(t)
    ensures forall name :: FieldBreaks(dir, Bared(s), Bared(t), name) <==> FieldBreaks(dir, s, t, name)
  {
  }

  lemma ObjectEdited(dir: Direction, s: Schema, t: Schema, op: string, at: string, c: Change)
    requires SelfLeaf(s) && SameFields(s, t)
    ensures c in ObjectChanges(dir, s, t, op, at) <==>
      exists name :: c == Change(Breaking, op, at + "." + name) && FieldBreaks(dir, s, t, name)
  {
    hide Compare, FieldBreaks, SelfLeaf, PropertySteps, NewlyRequired;
    assert t.extra == s.extra;
    hide SameFields;
    assert MapChanges(dir, s, t, op, at) == [] by { MapOfSelf(dir, s, t, op, at); }
    InConcat(PropertySteps(dir, s, t, op, at), c);
    forall i: nat | i < |PropertiesOf(s)|
      ensures c in PropertySteps(dir, s, t, op, at)[i] <==> BreaksAt(dir, s, t, i, op, at, c)
    {
      OldField(dir, s, t, i, op, at, c);
    }
    if dir.Request? { NewFields(s, t, op, at, c); }
    FieldsTogether(dir, s, t, op, at, c);
  }

  lemma OldField(dir: Direction, s: Schema, t: Schema, i: nat, op: string, at: string, c: Change)
    requires SelfLeaf(s) && SameFields(s, t) && i < |PropertiesOf(s)|
    ensures c in PropertyChange(dir, s, t, i, op, at) <==> BreaksAt(dir, s, t, i, op, at, c)
  {
    hide Compare, Lookup;
    var p := PropertiesOf(s)[i];
    var now := Lookup(PropertiesOf(t), p.name);
    assert Declares(PropertiesOf(s), p.name);
    if now.Some? {
      assert now.value == p.schema;
      SelfSilent(dir, p.schema, op, at + "." + p.name);
    }
  }

  /** A required field that was not there. */
  predicate Fresh(s: Schema, t: Schema, name: string) {
    !Declares(PropertiesOf(s), name) && Declares(PropertiesOf(t), name) && name in t.required
  }

  predicate BreaksAt(dir: Direction, s: Schema, t: Schema, i: nat, op: string, at: string, c: Change)
    requires i < |PropertiesOf(s)|
  {
    var name := PropertiesOf(s)[i].name; c == Change(Breaking, op, at + "." + name) && FieldBreaks(dir, s, t, name)
  }

  lemma NewFields(s: Schema, t: Schema, op: string, at: string, c: Change)
    ensures c in NewlyRequired(s, t, op, at) <==> exists name :: c == Change(Breaking, op, at + "." + name) && Fresh(s, t, name)
  {
    hide Declares;
    var steps := RequiredSteps(s, t, op, at);
    InConcat(steps, c);
    forall j: nat | j < |steps| ensures c in steps[j] <==> NewRequirement(s, t, j) && c == Change(Breaking, op, at + "." + PropertiesOf(t)[j].name) {}
    DeclaredAt(PropertiesOf(t));
  }

  lemma DeclaredAt(props: seq<Property>)
    ensures forall name :: Declares(props, name) <==> exists j: nat :: j < |props| && props[j].name == name
  {
  }

  /** An old field breaks as its own step says, a new one as a new requirement. */
  lemma FieldsTogether(dir: Direction, s: Schema, t: Schema, op: string, at: string, c: Change)
    ensures (exists name :: c == Change(Breaking, op, at + "." + name) && FieldBreaks(dir, s, t, name)) <==>
      || (exists i: nat :: i < |PropertiesOf(s)| && BreaksAt(dir, s, t, i, op, at, c))
      || (dir.Request? && exists name :: c == Change(Breaking, op, at + "." + name) && Fresh(s, t, name))
  {
    if name :| c == Change(Breaking, op, at + "." + name) && FieldBreaks(dir, s, t, name) {
      if Declares(PropertiesOf(s), name) {
        var i: nat :| i < |PropertiesOf(s)| && PropertiesOf(s)[i].name == name;
        assert BreaksAt(dir, s, t, i, op, at, c);
      }
    }
  }

  // -- any value, and maps ----------------------------------------------------------------------

  /** A schema widened to any value, and any value narrowed to a schema. */
  lemma AnyEdited(dir: Direction, s: Schema, op: string, at: string)
    requires !Alternatives(s).any
    ensures Compare(dir, s, ANY, op, at) == if dir.Response? then [Change(Notable, op, at)] else []
    ensures Compare(dir, ANY, s, op, at) == if dir.Request? then [Change(Breaking, op, at)] else []
  {
    assert Alternatives(ANY).any;
  }

  /** A map given up: breaking for who sends its keys, and for who reads nothing else. A map gained is silent. */
  lemma MapEdited(dir: Direction, s: Schema, extra: Extra, op: string, at: string)
    requires Typed(s) && TypeName(s) == "object" && WfSelf(s) && !(s.extra.MapOf? && extra.MapOf?)
    ensures Compare(dir, s, s.(extra := extra), op, at) ==
      if s.extra.MapOf? && (dir.Request? || PropertiesOf(s) == []) then [Change(Breaking, op, at + "{}")] else []
  {
    hide CompareVariant, Compare, TYPE_NAMES, EnumChanges, LimitChanges;
    var t := s.(extra := extra);
    assert EnumOf(t) == EnumOf(s);
    TypedCompare(dir, s, t, op, at);
    TypedParts(dir, s, t, op, at);
    BaredIsSelf(s);
    TypedAlternatives(s);
    SelfLimits(s.limits, op, at);
    SelfEnum(dir, Bared(s), op, at);
    assert EnumChanges(dir, Bared(s), Bared(t), op, at) == EnumChanges(dir, Bared(s), Bared(s), op, at) by { EnumByValues(dir, s, t, op, at); }
    MapAlone(dir, Bared(s), extra, op, at);
    assert Bared(t) == Bared(s).(extra := extra);
  }

  lemma EnumByValues(dir: Direction, s: Schema, t: Schema, op: string, at: string)
    requires Typed(s) && Typed(t) && EnumOf(s) == EnumOf(t)
    ensures EnumChanges(dir, Bared(s), Bared(t), op, at) == EnumChanges(dir, Bared(s), Bared(s), op, at)
  {
    assert EnumOf(Bared(s)) == EnumOf(s) && EnumOf(Bared(t)) == EnumOf(t);
  }

  lemma MapAlone(dir: Direction, s: Schema, extra: Extra, op: string, at: string)
    requires SelfLeaf(s) && !(s.extra.MapOf? && extra.MapOf?)
    ensures ObjectChanges(dir, s, s.(extra := extra), op, at) ==
      if s.extra.MapOf? && (dir.Request? || PropertiesOf(s) == []) then [Change(Breaking, op, at + "{}")] else []
  {
    hide Compare;
    var t := s.(extra := extra);
    SelfProperties(dir, s, op, at);
    assert PropertiesOf(t) == PropertiesOf(s);
    assert PropertySteps(dir, s, t, op, at) == PropertySteps(dir, s, s, op, at);
    assert RequiredSteps(s, t, op, at) == RequiredSteps(s, s, op, at);
  }

  lemma SelfProperties(dir: Direction, s: Schema, op: string, at: string)
    requires SelfLeaf(s)
    ensures Concat(PropertySteps(dir, s, s, op, at)) == [] && RequiredChanges(dir, s, s, op, at) == []
  {
    hide Compare;
    SelfObject(dir, s, op, at);
  }

  // -- wherever it is made ------------------------------------------------------------------------

  /** One step into a schema: a field by its place, the items of an array, the values of a map. */
  datatype Step = Field(index: nat) | Items | Values

  predicate Has(s: Schema, step: Step) {
    Typed(s) &&
    match step
    case Field(index) => TypeName(s) == "object" && s.properties.Declared? && index < |s.properties.list|
    case Items => TypeName(s) == "array" && s.items.Some?
    case Values => TypeName(s) == "object" && s.extra.MapOf?
  }

  function Part(s: Schema, step: Step): Schema
    requires Has(s, step)
  {
    match step
    case Field(index) => s.properties.list[index].schema
    case Items => s.items.value
    case Values => s.extra.values
  }

  /** The schema with another part there. */
  function With(s: Schema, step: Step, part: Schema): Schema
    requires Has(s, step)
  {
    match step
    case Field(index) => s.(properties := Declared(s.properties.list[index := s.properties.list[index].(schema := part)]))
    case Items => s.(items := Some(part))
    case Values => s.(extra := MapOf(part))
  }

  function Place(s: Schema, step: Step, at: string): string
    requires Has(s, step)
  {
    match step
    case Field(index) => at + "." + s.properties.list[index].name
    case Items => at + "[]"
    case Values => at + "{}"
  }

  predicate Leads(s: Schema, steps: seq<Step>)
    decreases steps
  {
    steps != [] ==> Has(s, steps[0]) && Leads(Part(s, steps[0]), steps[1..])
  }

  /** What is found behind all the steps. */
  function Inner(s: Schema, steps: seq<Step>): Schema
    requires Leads(s, steps)
    decreases steps
  {
    if steps == [] then s else Inner(Part(s, steps[0]), steps[1..])
  }

  function Edited(s: Schema, steps: seq<Step>, inner: Schema): Schema
    requires Leads(s, steps)
    decreases steps
  {
    if steps == [] then inner else With(s, steps[0], Edited(Part(s, steps[0]), steps[1..], inner))
  }

  function PlaceOf(s: Schema, steps: seq<Step>, at: string): string
    requires Leads(s, steps)
    decreases steps
  {
    if steps == [] then at else PlaceOf(Part(s, steps[0]), steps[1..], Place(s, steps[0], at))
  }

  lemma {:induction false} OneStep(steps: seq<seq<Change>>, k: nat)
    requires k < |steps| && forall i :: 0 <= i < |steps| && i != k ==> steps[i] == []
    ensures Concat(steps) == steps[k]
    decreases |steps|
  {
    if k == 0 {
      assert forall i :: 0 <= i < |steps[1..]| ==> steps[1..][i] == [];
      assert Concat(steps[1..]) == [];
    } else {
      OneStep(steps[1..], k - 1);
    }
  }

  lemma WithAlike(s: Schema, step: Step, part: Schema)
    requires Has(s, step)
    ensures var t := With(s, step, part);
      && Typed(t) && TypeName(t) == TypeName(s) && t.types == s.types && EnumOf(t) == EnumOf(s)
      && t.limits == s.limits && t.required == s.required
      && Bared(t) == With(Bared(s), step, part) && Has(Bared(s), step)
  {
    hide TYPE_NAMES;
  }

  /** One step down the part is compared, and nothing else differs. */
  lemma StepEdited(dir: Direction, s: Schema, step: Step, part: Schema, op: string, at: string)
    requires Has(s, step) && WfSelf(s)
    ensures Compare(dir, s, With(s, step, part), op, at) == Compare(dir, Part(s, step), part, op, Place(s, step, at))
  {
    hide CompareVariant, Compare, TYPE_NAMES, EnumChanges, LimitChanges, ObjectChanges, With, SelfLeaf, Bared;
    var t := With(s, step, part);
    WithAlike(s, step, part);
    TypedCompare(dir, s, t, op, at);
    TypedParts(dir, s, t, op, at);
    BaredIsSelf(s);
    TypedAlternatives(s);
    SelfLimits(s.limits, op, at) by { hide *; StepIsNotZero(s); }
    SelfEnum(dir, Bared(s), op, at);
    EnumByValues(dir, s, t, op, at);
    ShapeStep(dir, Bared(s), step, part, op, at);
    SamePart(s, step, at);
  }

  lemma StepIsNotZero(s: Schema)
    requires WfSelf(s)
    ensures s.limits.multipleOf != Some(0.0)
  {
  }

  lemma SamePart(s: Schema, step: Step, at: string)
    requires Has(s, step) && Has(Bared(s), step)
    ensures Part(Bared(s), step) == Part(s, step) && Place(Bared(s), step, at) == Place(s, step, at)
  {
  }

  lemma ShapeStep(dir: Direction, s: Schema, step: Step, part: Schema, op: string, at: string)
    requires Has(s, step) && SelfLeaf(s) && KindOf(s) == TypeName(s)
    ensures ShapeChanges(dir, s, With(s, step, part), op, at) == Compare(dir, Part(s, step), part, op, Place(s, step, at))
  {
    hide Compare, SelfLeaf;
    match step
    case Field(index) => FieldStep(dir, s, index, part, op, at);
    case Items =>
    case Values =>
      var t := With(s, step, part);
      SelfProperties(dir, s, op, at);
      assert PropertiesOf(t) == PropertiesOf(s);
      assert PropertySteps(dir, s, t, op, at) == PropertySteps(dir, s, s, op, at);
      assert RequiredSteps(s, t, op, at) == RequiredSteps(s, s, op, at);
      assert RequiredChanges(dir, s, t, op, at) == [];
      assert ObjectChanges(dir, s, t, op, at) == MapChanges(dir, s, t, op, at);
  }

  /** The step of each field: the edited one is compared, the others with themselves. */
  lemma EachField(dir: Direction, s: Schema, k: nat, part: Schema, i: nat, op: string, at: string)
    requires Has(s, Field(k)) && SelfLeaf(s) && i < |PropertiesOf(s)|
    ensures PropertyChange(dir, s, With(s, Field(k), part), i, op, at) ==
      if i == k then Compare(dir, s.properties.list[k].schema, part, op, at + "." + s.properties.list[k].name) else []
  {
    hide Compare, Lookup, TYPE_NAMES;
    var t := With(s, Field(k), part);
    var p := s.properties.list[i];
    assert t.properties.list[i].name == p.name;
    OtherSchema(s.properties.list, k, part);
    LookupAt(t.properties.list, i);
    SelfSilent(dir, p.schema, op, at + "." + p.name);
  }

  lemma OtherSchema(props: seq<Property>, k: nat, part: Schema)
    requires k < |props| && DistinctNames(props)
    ensures DistinctNames(props[k := props[k].(schema := part)])
  {
  }

  lemma FieldStep(dir: Direction, s: Schema, k: nat, part: Schema, op: string, at: string)
    requires Has(s, Field(k)) && SelfLeaf(s) && KindOf(s) == "object"
    ensures ShapeChanges(dir, s, With(s, Field(k), part), op, at) ==
      Compare(dir, s.properties.list[k].schema, part, op, at + "." + s.properties.list[k].name)
  {
    hide Compare, Lookup, Declares, SelfLeaf, PropertyChange, TYPE_NAMES;
    var t := With(s, Field(k), part);
    var steps := PropertySteps(dir, s, t, op, at);
    forall i: nat | i < |steps|
      ensures steps[i] == if i == k then Compare(dir, s.properties.list[k].schema, part, op, at + "." + s.properties.list[k].name) else []
    {
      EachField(dir, s, k, part, i, op, at);
    }
    OneStep(steps, k);
    SameNames(s.properties.list, t.properties.list);
    assert RequiredChanges(dir, s, t, op, at) == [];
    assert MapChanges(dir, s, t, op, at) == [] by { MapOfSelf(dir, s, t, op, at); }
  }

  lemma MapOfSelf(dir: Direction, s: Schema, t: Schema, op: string, at: string)
    requires SelfLeaf(s) && t.extra == s.extra
    ensures MapChanges(dir, s, t, op, at) == []
  {
    if s.extra.MapOf? { SelfSilent(dir, s.extra.values, op, at + "{}"); }
  }

  lemma SameNames(props: seq<Property>, others: seq<Property>)
    requires |props| == |others| && forall i :: 0 <= i < |props| ==> props[i].name == others[i].name
    ensures forall j :: 0 <= j < |others| ==> Declares(props, others[j].name)
  {
  }

  /**
   * An edit anywhere in a schema is reported as the edit itself, at the place
   * where it is made; all around it is silent.
   */
  lemma {:induction false} EditShowsThere(dir: Direction, s: Schema, steps: seq<Step>, inner: Schema, op: string, at: string)
    requires Leads(s, steps) && WfSelf(s)
    ensures Compare(dir, s, Edited(s, steps, inner), op, at) == Compare(dir, Inner(s, steps), inner, op, PlaceOf(s, steps, at))
    decreases steps
  {
    hide Compare, WfSelf, With, Place, Has, Part;
    if steps != [] {
      var part := Part(s, steps[0]);
      PartIsSelf(s, steps[0]);
      StepEdited(dir, s, steps[0], Edited(part, steps[1..], inner), op, at);
      EditShowsThere(dir, part, steps[1..], inner, op, Place(s, steps[0], at));
    }
  }

  lemma PartIsSelf(s: Schema, step: Step)
    requires Has(s, step) && WfSelf(s)
    ensures WfSelf(Part(s, step))
  {
  }
}
