/**
 * Why the soundness theorems ask what they ask: for each condition, two schemas
 * that break it and no other, that the diff finds nothing between, and a value
 * that one end writes and the other end refuses.
 */
module Counterexamples {
  import opened JsonValues
  import opened Schemas
  import opened Meaning
  import opened Disjunction
  import opened Pairing
  import opened Comparison
  import opened Fitting
  import opened Reflexivity

  function Typed(name: string): Schema {
    ANY.(types := One(name))
  }

  function Object(props: seq<Property>): Schema {
    Typed("object").(properties := Declared(props))
  }

  function MapTo(s: Schema): Schema {
    Typed("object").(extra := MapOf(s))
  }

  function Words(words: seq<Json>): Schema {
    ANY.(enumeration := Some(words))
  }

  /** What the request theorem asks of two schemas, clause by clause. */
  datatype Clause =
    | TypesKnown | NamesDistinct | UnionsAlone | OldSaysKind | OldHasItems | EmptyAlone
    | ConstOrEnum | NullAgreed | RequiredKnown | BranchesExclusive | SubSchemas | KeysAgree

  ghost predicate Holds(ru: Rules, c: Clause, before: Schema, after: Schema) {
    match c
    case TypesKnown => KnownTypes(before) && KnownTypes(after)
    case NamesDistinct => DistinctNames(PropertiesOf(before)) && DistinctNames(PropertiesOf(after))
    case UnionsAlone => StandsAlone(before) && StandsAlone(after)
    case OldSaysKind => SaysItsKind(before)
    case OldHasItems => ArraysHaveItems(before)
    case EmptyAlone => Bare(after) ==> after.required == [] && after.limits == NO_LIMITS
    case ConstOrEnum => after.enumeration.None? || after.constant.None?
    case NullAgreed => NullAgrees(after)
    case RequiredKnown => RequiredDeclared(after)
    case BranchesExclusive => Exclusive(ru, after)
    case SubSchemas => SendersBelow(before) && ReceiversBelow(ru, after)
    case KeysAgree => Fits(Request, before, after, NO_KEYS)
  }

  predicate SendersBelow(s: Schema) {
    && WfSenderProperties(true, s.properties)
    && (s.items.Some? ==> WfSender(true, s.items.value))
    && (s.extra.MapOf? ==> WfSender(true, s.extra.values))
    && WfSenders(true, s.anyOf) && WfSenders(true, s.oneOf) && WfSenders(true, s.allOf)
  }

  ghost predicate ReceiversBelow(ru: Rules, s: Schema) {
    && WfReceiverProperties(ru, true, s.properties)
    && (s.items.Some? ==> WfReceiver(ru, true, s.items.value))
    && (s.extra.MapOf? ==> WfReceiver(ru, true, s.extra.values))
    && WfReceivers(ru, true, s.anyOf) && WfReceivers(ru, true, s.oneOf) && WfReceivers(ru, true, s.allOf)
  }

  lemma SenderClauses(s: Schema)
    ensures WfSender(true, s) <==>
      KnownTypes(s) && DistinctNames(PropertiesOf(s)) && StandsAlone(s) && SaysItsKind(s) && ArraysHaveItems(s) && SendersBelow(s)
  {
    hide KnownTypes, DistinctNames, StandsAlone, SaysItsKind, ArraysHaveItems, WfSenderProperties, WfSenders;
  }

  lemma ReceiverClauses(ru: Rules, s: Schema)
    ensures WfReceiver(ru, true, s) <==>
      && KnownTypes(s) && DistinctNames(PropertiesOf(s)) && StandsAlone(s)
      && (Bare(s) ==> s.required == [] && s.limits == NO_LIMITS) && (s.enumeration.None? || s.constant.None?)
      && NullAgrees(s) && RequiredDeclared(s) && Exclusive(ru, s) && ReceiversBelow(ru, s)
  {
    hide KnownTypes, DistinctNames, StandsAlone, Bare, NullAgrees, RequiredDeclared, Exclusive, WfReceiverProperties, WfReceivers;
  }

  /** The clauses are what the theorem asks, no more and no less. */
  lemma ClausesAreAll(ru: Rules, before: Schema, after: Schema)
    ensures (forall c :: Holds(ru, c, before, after)) <==>
      WfSender(true, before) && WfReceiver(ru, true, after) && Fits(Request, before, after, NO_KEYS)
  {
    hide Fits, WfSender, WfReceiver, KnownTypes, DistinctNames, StandsAlone, SaysItsKind, ArraysHaveItems, SendersBelow;
    hide Bare, NullAgrees, RequiredDeclared, Exclusive, ReceiversBelow, PropertiesOf;
    SenderClauses(before);
    ReceiverClauses(ru, after);
    if forall c :: Holds(ru, c, before, after) {
      EachClause(ru, before, after);
    }
  }

  lemma EachClause(ru: Rules, before: Schema, after: Schema)
    requires forall c :: Holds(ru, c, before, after)
    ensures Holds(ru, TypesKnown, before, after) && Holds(ru, NamesDistinct, before, after)
    ensures Holds(ru, UnionsAlone, before, after) && Holds(ru, OldSaysKind, before, after)
    ensures Holds(ru, OldHasItems, before, after) && Holds(ru, EmptyAlone, before, after)
    ensures Holds(ru, ConstOrEnum, before, after) && Holds(ru, NullAgreed, before, after)
    ensures Holds(ru, RequiredKnown, before, after) && Holds(ru, BranchesExclusive, before, after)
    ensures Holds(ru, SubSchemas, before, after) && Holds(ru, KeysAgree, before, after)
  {
    hide Holds;
  }

  /** Of all clauses, `c` alone is broken. */
  ghost predicate Breaks(ru: Rules, c: Clause, before: Schema, after: Schema) {
    !Holds(ru, c, before, after) && forall d :: d != c ==> Holds(ru, d, before, after)
  }

  /** The diff passes the change, and lets through a value `v` that `after` refuses. */
  ghost predicate Slips(ru: Rules, before: Schema, after: Schema, v: Json, op: string, at: string) {
    && Compare(Request, before, after, op, at) == []
    && Sends(ru, before, v, NO_KEYS)
    && !Receives(ru, true, after, v)
  }

  ghost predicate Escapes(ru: Rules, c: Clause, before: Schema, after: Schema, v: Json, op: string, at: string) {
    Breaks(ru, c, before, after) && Slips(ru, before, after, v, op, at)
  }

  lemma TypedIsWf(ru: Rules, name: string, strict: bool := true)
    requires name in TYPE_NAMES && name != "array"
    ensures WfSender(strict, Typed(name)) && WfReceiver(ru, strict, Typed(name))
  {
    var s := Typed(name);
    assert WfSenderProperties(strict, s.properties) && WfReceiverProperties(ru, strict, s.properties);
    assert WfSenders(strict, Absent) && WfReceivers(ru, strict, Absent);
  }

  /** A schema with no sub-schema. */
  predicate Flat(s: Schema) {
    && PropertiesOf(s) == [] && s.items.None? && !s.extra.MapOf? && s.anyOf.Absent? && s.oneOf.Absent? && s.allOf.Absent?
  }

  lemma FlatBelow(ru: Rules, s: Schema)
    requires Flat(s)
    ensures SendersBelow(s) && ReceiversBelow(ru, s) && StandsAlone(s) && Exclusive(ru, s) && DistinctNames(PropertiesOf(s))
  {
    assert WfSenderProperties(true, s.properties) && WfReceiverProperties(ru, true, s.properties);
    assert WfSenders(true, Absent) && WfReceivers(ru, true, Absent);
  }

  // -- two schemas of one variant each ----------------------------------------------

  /** Two schemas of one variant each, of one kind, differ as their variants do. */
  lemma LoneVariants(dir: Direction, before: Schema, after: Schema, a: Schema, b: Schema, op: string, at: string)
    requires Alternatives(before).variants == [a] && Alternatives(after).variants == [b]
    requires !Alternatives(before).any && !Alternatives(after).any
    requires Alternatives(before).nullable == Alternatives(after).nullable
    requires KindOf(a) == KindOf(b)
    ensures Compare(dir, before, after, op, at) == CompareVariant(dir, a, b, op, at)
  {
    hide CompareVariant, VariantSteps, Alternatives, KindOf;
    LoneVariantChanges(dir, before, after, a, b, op, at);
    assert !IsUnion(before, after);
  }

  /** Two schemas of one variant each are silent iff each comparison of the variants is. */
  lemma LoneSilent(dir: Direction, before: Schema, after: Schema, a: Schema, b: Schema, op: string, at: string)
    requires Alternatives(before).variants == [a] && Alternatives(after).variants == [b]
    requires !Alternatives(before).any && !Alternatives(after).any
    requires Alternatives(before).nullable == Alternatives(after).nullable
    requires KindOf(a) == KindOf(b) && KindOf(a) != "allOf"
    ensures Compare(dir, before, after, op, at) == [] <==>
      && EnumChanges(dir, a, b, op, at) == []
      && (dir.Request? ==> LimitChanges(a.limits, b.limits, op, at) == [])
      && (KindOf(a) == "object" ==>
            && Concat(PropertySteps(dir, a, b, op, at)) == []
            && (dir.Request? ==> NewlyRequired(a, b, op, at) == [])
            && MapChanges(dir, a, b, op, at) == [])
      && (KindOf(a) == "array" && a.items.Some? ==> Compare(dir, a.items.value, OrAny(b.items), op, at + "[]") == [])
  {
    LoneVariants(dir, before, after, a, b, op, at);
    SilentVariant(dir, a, b, op, at);
    SilentObject(dir, a, b, op, at);
  }

  lemma ItemsBelow(ru: Rules, s: Schema)
    requires s.items.Some? && WfReceiver(ru, true, s.items.value) && Flat(s.(items := None))
    ensures ReceiversBelow(ru, s) && StandsAlone(s) && Exclusive(ru, s) && DistinctNames(PropertiesOf(s))
  {
    assert WfReceiverProperties(ru, true, s.properties) && WfReceivers(ru, true, Absent);
  }

  lemma UnionBelow(ru: Rules, s: Schema)
    requires s.anyOf.Listed? && Flat(s.(anyOf := Absent))
    requires forall i :: 0 <= i < |s.anyOf.list| ==> WfReceiver(ru, true, s.anyOf.list[i])
    ensures ReceiversBelow(ru, s) && Exclusive(ru, s) && DistinctNames(PropertiesOf(s))
  {
    assert WfReceiverProperties(ru, true, s.properties) && WfReceivers(ru, true, Absent) && WfReceivers(ru, true, s.anyOf);
  }

  /** Two schemas of one variant each fit as the variants do. */
  lemma LoneFit(dir: Direction, before: Schema, after: Schema, a: Schema, b: Schema, loose: Keys := NO_KEYS)
    requires Alternatives(before).variants == [a] && Alternatives(after).variants == [b]
    requires !Alternatives(before).any && !Alternatives(after).any && KindOf(a) == KindOf(b)
    ensures Fits(dir, before, after, loose) <==> VariantFits(dir, a, b, loose)
  {
    hide VariantFits, Pairs;
    LonePairs(dir, a, b);
    var va, vb := Alternatives(before).variants, Alternatives(after).variants;
    assert va[0] == a && vb[Pairs(dir, va, vb)[0]] == b;
  }

  /** Nothing is asked where either side is any value, or the old one only null. */
  lemma NothingToFit(before: Schema, after: Schema)
    requires Alternatives(after).any || Alternatives(before).variants == []
    ensures Fits(Request, before, after, NO_KEYS)
  {
  }

  lemma ScalarFit(a: Schema, b: Schema)
    requires KindOf(a) != "allOf" && KindOf(a) != "object" && (KindOf(a) == "array" ==> a.items.None?)
    ensures VariantFits(Request, a, b, NO_KEYS)
  {
  }

  /** Objects without properties that leave no key open. */
  lemma NothingOpen(a: Schema, b: Schema)
    requires KindOf(a) == KindOf(b) == "object" && PropertiesOf(a) == [] && PropertiesOf(b) == [] && a.extra.NoExtra?
    ensures VariantFits(Request, a, b, NO_KEYS)
  {
    assert KeysFit(Request, a, b, NO_KEYS);
  }

  // -- the writing end of a request -------------------------------------------------------

  /** An untyped `properties` schema allows values that are not objects at all. */
  lemma UntypedStructureEscapes(ru: Rules, op: string, at: string)
    ensures Escapes(ru, OldSaysKind, ANY.(properties := Declared([])), Object([]), Num(5.0), op, at)
  {
    hide Breaks, Slips;
    UntypedStructureBreaks(ru);
    UntypedStructureSlips(ru, op, at);
  }

  lemma UntypedStructureBreaks(ru: Rules)
    ensures Breaks(ru, OldSaysKind, ANY.(properties := Declared([])), Object([]))
  {
    var a, b := ANY.(properties := Declared([])), Object([]);
    hide Fits, DistinctNames, VariantFits, SendersBelow, ReceiversBelow, Exclusive, WfReceiver, WfSender;
    FlatBelow(ru, a);
    FlatBelow(ru, b);
    LoneFit(Request, a, b, a, b);
    NothingOpen(a, b);
  }

  lemma UntypedStructureSlips(ru: Rules, op: string, at: string)
    ensures Slips(ru, ANY.(properties := Declared([])), Object([]), Num(5.0), op, at)
  {
    UntypedIsSilent(op, at);
    ScalarSends(ru, ANY.(properties := Declared([])), Num(5.0));
  }

  lemma UntypedIsSilent(op: string, at: string)
    ensures Compare(Request, ANY.(properties := Declared([])), Object([]), op, at) == []
  {
    var a, b := ANY.(properties := Declared([])), Object([]);
    LoneSilent(Request, a, b, a, b, op, at);
    NothingNarrowed(a.limits, b.limits, op, at);
    assert NewlyRequired(a, b, op, at) == [] && PropertySteps(Request, a, b, op, at) == [];
  }

  /** A schema without a union or an intersection says nothing more of a value that holds no others. */
  lemma ScalarSends(ru: Rules, s: Schema, v: Json)
    requires s.anyOf.Absent? && s.oneOf.Absent? && s.allOf.Absent? && !v.Obj? && !v.Arr?
    requires Own(ru, true, s, v)
    ensures Sends(ru, s, v, NO_KEYS)
  {
    assert ItemsSend(ru, s.items, v) && PropertiesSend(ru, s.properties, v);
    assert ExtraSends(ru, s.extra, PropertiesOf(s), v, OpenKeys(s, NO_KEYS));
  }

  /** An untyped enum is taken to be of its first value's kind. */
  lemma MixedEnumEscapes(ru: Rules, op: string, at: string)
    ensures Escapes(ru, OldSaysKind, Words([Str("a"), Num(1.0)]), Typed("string"), Num(1.0), op, at)
  {
    hide Breaks, Slips;
    MixedEnumBreaks(ru);
    MixedEnumSlips(ru, op, at);
  }

  lemma MixedEnumBreaks(ru: Rules)
    ensures Breaks(ru, OldSaysKind, Words([Str("a"), Num(1.0)]), Typed("string"))
  {
    var a, b := Words([Str("a"), Num(1.0)]), Typed("string");
    hide Fits, DistinctNames, VariantFits, SendersBelow, ReceiversBelow, Exclusive, WfReceiver, WfSender;
    FlatBelow(ru, a);
    FlatBelow(ru, b);
    var words := [Str("a"), Num(1.0)];
    assert words[0] == Str("a") && words[1] == Num(1.0);
    WithoutAbsent(words, Null);
    LoneFit(Request, a, b, a, b);
    ScalarFit(a, b);
  }

  lemma MixedEnumSlips(ru: Rules, op: string, at: string)
    ensures Slips(ru, Words([Str("a"), Num(1.0)]), Typed("string"), Num(1.0), op, at)
  {
    hide Compare, Alternatives;
    var words := [Str("a"), Num(1.0)];
    assert words[0] == Str("a") && words[1] == Num(1.0);
    WithoutAbsent(words, Null);
    ScalarSends(ru, Words(words), Num(1.0));
    StringEnumIsSilent(words, op, at);
  }

  lemma StringEnumIsSilent(words: seq<Json>, op: string, at: string)
    requires Null !in words && words != [] && words[0].Str?
    ensures Compare(Request, Words(words), Typed("string"), op, at) == []
  {
    var a, b := Words(words), Typed("string");
    LoneSilent(Request, a, b, a, b, op, at);
    NothingNarrowed(a.limits, b.limits, op, at);
  }

  /** An array that does not describe its items is not compared with one that does. */
  lemma BareArrayEscapes(ru: Rules, op: string, at: string)
    ensures Escapes(ru, OldHasItems, Typed("array"), Typed("array").(items := Some(Typed("string"))), Arr([Num(1.0)]), op, at)
  {
    hide Breaks, Slips;
    BareArrayBreaks(ru);
    BareArraySlips(ru, op, at);
  }

  lemma BareArrayBreaks(ru: Rules)
    ensures Breaks(ru, OldHasItems, Typed("array"), Typed("array").(items := Some(Typed("string"))))
  {
    var a, b := Typed("array"), Typed("array").(items := Some(Typed("string")));
    hide Fits, DistinctNames, VariantFits, SendersBelow, ReceiversBelow, Exclusive, WfReceiver, WfSender;
    FlatBelow(ru, a);
    TypedIsWf(ru, "string");
    ItemsBelow(ru, b);
    LoneFit(Request, a, b, a, b);
    ScalarFit(a, b);
  }

  lemma BareArraySlips(ru: Rules, op: string, at: string)
    ensures Slips(ru, Typed("array"), Typed("array").(items := Some(Typed("string"))), Arr([Num(1.0)]), op, at)
  {
    var a, b := Typed("array"), Typed("array").(items := Some(Typed("string")));
    var v := Arr([Num(1.0)]);
    LoneSilent(Request, a, b, a, b, op, at);
    NothingNarrowed(a.limits, b.limits, op, at);
    PlainSends(ru, "array", v);
    NumberItemRefused(ru);
  }

  lemma NumberItemRefused(ru: Rules)
    ensures !Receives(ru, true, Typed("array").(items := Some(Typed("string"))), Arr([Num(1.0)]))
  {
    var items, v := Some(Typed("string")), Arr([Num(1.0)]);
    assert !Receives(ru, true, items.value, v.items[0]);
    assert !ItemsReceive(ru, true, items, v);
  }

  // -- the reading end of a request ----------------------------------------------------------

  lemma PlainSends(ru: Rules, name: string, v: Json)
    requires HasType(name, v) && !v.Obj?
    ensures Sends(ru, Typed(name), v, NO_KEYS)
  {
    var s := Typed(name);
    assert ItemsSend(ru, s.items, v) && PropertiesSend(ru, s.properties, v) && ExtraSends(ru, s.extra, [], v, NO_KEYS);
  }

  /** A limit without a type is taken to be no schema at all. */
  lemma LimitAloneEscapes(ru: Rules, op: string, at: string)
    ensures Escapes(ru, EmptyAlone, Typed("string"), ANY.(limits := NO_LIMITS.(minLength := Some(3))), Str("a"), op, at)
  {
    hide Breaks, Slips;
    LimitAloneBreaks(ru);
    LimitAloneSlips(ru, op, at);
  }

  lemma LimitAloneBreaks(ru: Rules)
    ensures Breaks(ru, EmptyAlone, Typed("string"), ANY.(limits := NO_LIMITS.(minLength := Some(3))))
  {
    var a, b := Typed("string"), ANY.(limits := NO_LIMITS.(minLength := Some(3)));
    hide Fits, DistinctNames;
    FlatBelow(ru, a);
    FlatBelow(ru, b);
    NothingToFit(a, b);
  }

  lemma LimitAloneSlips(ru: Rules, op: string, at: string)
    ensures Slips(ru, Typed("string"), ANY.(limits := NO_LIMITS.(minLength := Some(3))), Str("a"), op, at)
  {
    var a, b := Typed("string"), ANY.(limits := NO_LIMITS.(minLength := Some(3)));
    PlainSends(ru, "string", Str("a"));
    assert Alternatives(b).any && !Alternatives(a).any;
  }

  /** A keyword beside `anyOf` is not looked at. */
  lemma SiblingEscapes(ru: Rules, op: string, at: string)
    ensures Escapes(ru, UnionsAlone, Typed("string"), ANY.(anyOf := Listed([Typed("string")]), limits := NO_LIMITS.(minLength := Some(3))), Str("a"), op, at)
  {
    hide Breaks, Slips;
    SiblingBreaks(ru);
    SiblingSlips(ru, op, at);
  }

  lemma SiblingAlternatives(limits: Limits)
    ensures Alternatives(ANY.(anyOf := Listed([Typed("string")]), limits := limits)) == Alts(false, false, [Typed("string")])
  {
    var b := ANY.(anyOf := Listed([Typed("string")]), limits := limits);
    assert [Typed("string")][1..] == [];
    assert UnionOf([Typed("string")]).variants == [Typed("string")];
  }

  lemma SiblingBreaks(ru: Rules)
    ensures Breaks(ru, UnionsAlone, Typed("string"), ANY.(anyOf := Listed([Typed("string")]), limits := NO_LIMITS.(minLength := Some(3))))
  {
    var a, b := Typed("string"), ANY.(anyOf := Listed([Typed("string")]), limits := NO_LIMITS.(minLength := Some(3)));
    hide Fits, DistinctNames, VariantFits, SendersBelow, ReceiversBelow, Exclusive, WfReceiver, WfSender;
    FlatBelow(ru, a);
    TypedIsWf(ru, "string");
    UnionBelow(ru, b);
    SiblingAlternatives(b.limits);
    LoneFit(Request, a, b, a, a);
    ScalarFit(a, a);
  }

  lemma SiblingSlips(ru: Rules, op: string, at: string)
    ensures Slips(ru, Typed("string"), ANY.(anyOf := Listed([Typed("string")]), limits := NO_LIMITS.(minLength := Some(3))), Str("a"), op, at)
  {
    var a, b := Typed("string"), ANY.(anyOf := Listed([Typed("string")]), limits := NO_LIMITS.(minLength := Some(3)));
    assert [Typed("string")][1..] == [];
    assert UnionOf([Typed("string")]).variants == [Typed("string")];
    PlainSends(ru, "string", Str("a"));
    LoneSilent(Request, a, b, a, a, op, at);
    NothingNarrowed(a.limits, a.limits, op, at);
  }

  const SHORT := NO_LIMITS.(minLength := Some(3))
  const ONE_PART := ANY.(allOf := Listed([Typed("string")]))

  /** A keyword beside `allOf` is not looked at. */
  lemma AllOfSiblingEscapes(ru: Rules, op: string, at: string)
    ensures Escapes(ru, UnionsAlone, ONE_PART, ONE_PART.(limits := SHORT), Str("a"), op, at)
  {
    hide Breaks, Slips;
    AllOfSiblingBreaks(ru);
    AllOfSiblingSlips(ru, op, at);
  }

  lemma AllOfBelow(ru: Rules, s: Schema)
    requires s.allOf.Listed? && Flat(s.(allOf := Absent))
    requires forall i :: 0 <= i < |s.allOf.list| ==> WfSender(true, s.allOf.list[i]) && WfReceiver(ru, true, s.allOf.list[i])
    ensures SendersBelow(s) && ReceiversBelow(ru, s) && Exclusive(ru, s) && DistinctNames(PropertiesOf(s))
  {
    hide WfSender, WfReceiver;
    NothingBelow(ru);
    assert WfSenders(true, s.allOf) && WfReceivers(ru, true, s.allOf);
    assert WfSenderProperties(true, s.properties) && WfReceiverProperties(ru, true, s.properties);
  }

  lemma OnePartFits(a: Schema, b: Schema)
    requires a.allOf == b.allOf == Listed([Typed("string")])
    ensures VariantFits(Request, a, b, NO_KEYS)
  {
    hide Fits;
    var s := Typed("string");
    var loose := NO_KEYS.Plus(ListNames([s]));
    LoneFit(Request, s, s, s, s, loose);
    StringFits(s, loose);
    assert [s][0] == s;
    assert PartsFit(Request, a, b, loose);
  }

  lemma StringFits(s: Schema, loose: Keys)
    requires s == Typed("string")
    ensures VariantFits(Request, s, s, loose)
  {
  }

  lemma AllOfSiblingBreaks(ru: Rules)
    ensures Breaks(ru, UnionsAlone, ONE_PART, ONE_PART.(limits := SHORT))
  {
    var a, b := ONE_PART, ONE_PART.(limits := SHORT);
    hide Fits, DistinctNames, VariantFits, WfSender, WfReceiver;
    TypedIsWf(ru, "string");
    AllOfBelow(ru, a);
    AllOfBelow(ru, b);
    LoneFit(Request, a, b, a, b);
    OnePartFits(a, b);
  }

  lemma AllOfSiblingSlips(ru: Rules, op: string, at: string)
    ensures Slips(ru, ONE_PART, ONE_PART.(limits := SHORT), Str("a"), op, at)
  {
    var a, b := ONE_PART, ONE_PART.(limits := SHORT);
    var s := Typed("string");
    PlainSends(ru, "string", Str("a"));
    PartSends(ru, a, s, Str("a"));
    ShortRefused(ru, b);
    LoneVariants(Request, a, b, a, b, op, at);
    StringIsSilent(op, at + "&" + NatText(0));
    OnePartSilent(a, b, op, at);
  }

  lemma PartSends(ru: Rules, a: Schema, s: Schema, v: Json)
    requires a == ANY.(allOf := Listed([s])) && v.Str? && Sends(ru, s, v, NO_KEYS) && s == Typed("string")
    ensures Sends(ru, a, v, NO_KEYS)
  {
    var loose := NO_KEYS.Plus(ListNames([s]));
    assert Sends(ru, s, v, loose) by { LooseString(ru, v, loose); }
    assert AllSend(ru, a.allOf, v, loose) by { assert [s][0] == s; }
  }

  lemma LooseString(ru: Rules, v: Json, loose: Keys)
    requires v.Str?
    ensures Sends(ru, Typed("string"), v, loose)
  {
    var s := Typed("string");
    assert ItemsSend(ru, s.items, v) && PropertiesSend(ru, s.properties, v) && ExtraSends(ru, s.extra, [], v, OpenKeys(s, loose));
  }

  lemma ShortRefused(ru: Rules, b: Schema)
    requires b.limits == SHORT
    ensures !Receives(ru, true, b, Str("a"))
  {
  }

  lemma StringIsSilent(op: string, at: string)
    ensures Compare(Request, Typed("string"), Typed("string"), op, at) == []
  {
    var s := Typed("string");
    LoneSilent(Request, s, s, s, s, op, at);
    NothingNarrowed(s.limits, s.limits, op, at);
  }

  lemma OnePartSilent(a: Schema, b: Schema, op: string, at: string)
    requires a.allOf == b.allOf == Listed([Typed("string")])
    requires Compare(Request, Typed("string"), Typed("string"), op, at + "&" + NatText(0)) == []
    ensures CompareVariant(Request, a, b, op, at) == []
  {
    hide Compare;
    var steps := PartSteps(Request, a, b, op, at);
    assert [Typed("string")][0] == Typed("string");
    assert steps[0] == [];
  }

  /** `const` beside `enum` is not looked at. */
  lemma ConstBesideEnumEscapes(ru: Rules, op: string, at: string)
    ensures Escapes(ru, ConstOrEnum, Words([Str("a"), Str("b")]), Words([Str("a"), Str("b")]).(constant := Some(Str("a"))), Str("b"), op, at)
  {
    hide Breaks, Slips;
    ConstBesideEnumBreaks(ru);
    ConstBesideEnumSlips(ru, op, at);
  }

  lemma ConstBesideEnumBreaks(ru: Rules)
    ensures Breaks(ru, ConstOrEnum, Words([Str("a"), Str("b")]), Words([Str("a"), Str("b")]).(constant := Some(Str("a"))))
  {
    var a, b := Words([Str("a"), Str("b")]), Words([Str("a"), Str("b")]).(constant := Some(Str("a")));
    hide Fits, DistinctNames, VariantFits, SendersBelow, ReceiversBelow, Exclusive, WfReceiver, WfSender;
    FlatBelow(ru, a);
    FlatBelow(ru, b);
    var words := [Str("a"), Str("b")];
    assert words[0] == Str("a") && words[1] == Str("b");
    WithoutAbsent(words, Null);
    LoneFit(Request, a, b, a, b);
    ScalarFit(a, b);
  }

  lemma ConstBesideEnumSlips(ru: Rules, op: string, at: string)
    ensures Slips(ru, Words([Str("a"), Str("b")]), Words([Str("a"), Str("b")]).(constant := Some(Str("a"))), Str("b"), op, at)
  {
    var a := Words([Str("a"), Str("b")]);
    var b := a.(constant := Some(Str("a")));
    assert [Str("a"), Str("b")][1] == Str("b");
    ScalarSends(ru, a, Str("b"));
    SameEnumIsSilent([Str("a"), Str("b")], Some(Str("a")), op, at);
  }

  lemma SameEnumIsSilent(words: seq<Json>, constant: Option<Json>, op: string, at: string)
    requires Null !in words && words != []
    ensures Compare(Request, Words(words), Words(words).(constant := constant), op, at) == []
  {
    var a, b := Words(words), Words(words).(constant := constant);
    LoneSilent(Request, a, b, a, b, op, at);
    NothingNarrowed(a.limits, b.limits, op, at);
  }

  /** A nullable type whose enum leaves `null` out is taken to accept it. */
  lemma NullTypeEscapes(ru: Rules, op: string, at: string)
    ensures Escapes(ru, NullAgreed, Typed("null"), ANY.(types := Many(["string", "null"]), enumeration := Some([Str("a")])), Null, op, at)
  {
    hide Breaks, Slips;
    NullTypeBreaks(ru);
    NullTypeSlips(ru, op, at);
  }

  lemma NullTypeBreaks(ru: Rules)
    ensures Breaks(ru, NullAgreed, Typed("null"), ANY.(types := Many(["string", "null"]), enumeration := Some([Str("a")])))
  {
    var a, b := Typed("null"), ANY.(types := Many(["string", "null"]), enumeration := Some([Str("a")]));
    hide Fits, DistinctNames;
    FlatBelow(ru, a);
    FlatBelow(ru, b);
    var names := ["string", "null"];
    assert names[0] == "string" && names[1] == "null";
    NothingToFit(a, b);
  }

  lemma NullTypeSlips(ru: Rules, op: string, at: string)
    ensures Slips(ru, Typed("null"), ANY.(types := Many(["string", "null"]), enumeration := Some([Str("a")])), Null, op, at)
  {
    var a, b := Typed("null"), ANY.(types := Many(["string", "null"]), enumeration := Some([Str("a")]));
    var names := ["string", "null"];
    assert names[0] == "string" && names[1] == "null" && names[1..] == ["null"] && names[1..][1..] == [];
    assert Without(["null"], "null") == [];
    assert Without(names, "null") == ["string"];
    assert Alternatives(b).nullable;
    PlainSends(ru, "null", Null);
    assert Alternatives(a) == Alts(true, false, []);
    assert VariantSteps(Request, a, b, op, at) == [];
  }

  /** A required name that `properties` leaves out is not looked at. */
  lemma UndeclaredRequiredEscapes(ru: Rules, op: string, at: string)
    ensures Escapes(ru, RequiredKnown, Object([]), Object([]).(required := ["x"]), Obj(map[]), op, at)
  {
    hide Breaks, Slips;
    UndeclaredRequiredBreaks(ru);
    UndeclaredRequiredSlips(ru, op, at);
  }

  lemma UndeclaredRequiredBreaks(ru: Rules)
    ensures Breaks(ru, RequiredKnown, Object([]), Object([]).(required := ["x"]))
  {
    var a, b := Object([]), Object([]).(required := ["x"]);
    hide Fits, DistinctNames, VariantFits, SendersBelow, ReceiversBelow, Exclusive, WfReceiver, WfSender;
    FlatBelow(ru, a);
    FlatBelow(ru, b);
    assert b.required[0] == "x" && !Declares(PropertiesOf(b), "x");
    LoneFit(Request, a, b, a, b);
    NothingOpen(a, b);
  }

  lemma UndeclaredRequiredSlips(ru: Rules, op: string, at: string)
    ensures Slips(ru, Object([]), Object([]).(required := ["x"]), Obj(map[]), op, at)
  {
    var a, b, v := Object([]), Object([]).(required := ["x"]), Obj(map[]);
    LoneSilent(Request, a, b, a, b, op, at);
    NothingNarrowed(a.limits, b.limits, op, at);
    assert NewlyRequired(a, b, op, at) == [];
    ObjectSends(ru, a, v, NO_KEYS);
    RequiredRefuses(ru, b, "x");
  }

  lemma RequiredRefuses(ru: Rules, s: Schema, name: string)
    requires s.required == [name]
    ensures !Receives(ru, true, s, Obj(map[]))
  {
    var v := Obj(map[]);
    assert s.required[0] !in v.fields;
    assert !RequiredMeets(s, v);
  }

  const OVERLAP := [Typed("integer"), Typed("number")]

  lemma OverlapSilent(op: string, at: string)
    ensures Compare(Request, Typed("integer"), ANY.(oneOf := Listed(OVERLAP)), op, at) == []
  {
    var a, b := Typed("integer"), ANY.(oneOf := Listed(OVERLAP));
    OverlapAlternatives();
    OverlapPairs();
    NothingNarrowed(a.limits, a.limits, op, VariantAt(a, b, 0, at));
    assert VariantSteps(Request, a, b, op, at)[0] == CompareVariant(Request, a, a, op, VariantAt(a, b, 0, at)) == [];
  }

  /** `oneOf` is read as `anyOf`: a value of two branches is refused. */
  lemma OverlapEscapes(ru: Rules, op: string, at: string)
    ensures Escapes(ru, BranchesExclusive, Typed("integer"), ANY.(oneOf := Listed(OVERLAP)), Num(5.0), op, at)
  {
    hide Breaks, Slips;
    OverlapBreaks(ru);
    OverlapSlips(ru, op, at);
  }

  lemma OverlapAlternatives()
    ensures Alternatives(ANY.(oneOf := Listed(OVERLAP))) == Alts(false, false, OVERLAP)
    ensures Alternatives(Typed("integer")) == Alts(false, false, [Typed("integer")])
  {
    assert OVERLAP[1..] == [Typed("number")] && OVERLAP[1..][1..] == [];
    assert UnionOf(OVERLAP[1..]).variants == [Typed("number")];
  }

  lemma OverlapFits()
    ensures Fits(Request, Typed("integer"), ANY.(oneOf := Listed(OVERLAP)), NO_KEYS)
  {
    hide Alternatives, Pairs, VariantFits;
    OverlapAlternatives();
    OverlapPairs();
    assert OVERLAP[0] == Typed("integer") && OVERLAP == [Typed("integer"), Typed("number")];
    ScalarFit(Typed("integer"), Typed("integer"));
  }

  lemma IntegerIsWf(ru: Rules)
    ensures WfReceiver(ru, true, Typed("integer"))
  {
    hide WfReceiver, WfSender;
    TypedIsWf(ru, "integer");
  }

  lemma NumberIsWf(ru: Rules)
    ensures WfReceiver(ru, true, Typed("number"))
  {
    hide WfReceiver, WfSender;
    TypedIsWf(ru, "number");
  }

  lemma OverlapIsWf(ru: Rules)
    ensures ReceiversBelow(ru, ANY.(oneOf := Listed(OVERLAP))) && DistinctNames([])
  {
    hide WfReceiver, WfSender, ReceiversBelow;
    IntegerIsWf(ru);
    NumberIsWf(ru);
    TwoBelow(ru, Typed("integer"), Typed("number"));
  }

  lemma TwoBelow(ru: Rules, p: Schema, q: Schema)
    requires WfReceiver(ru, true, p) && WfReceiver(ru, true, q)
    ensures ReceiversBelow(ru, ANY.(oneOf := Listed([p, q])))
  {
    hide WfReceiver;
    NothingBelow(ru);
    assert WfReceivers(ru, true, Listed([p, q]));
  }

  lemma NothingBelow(ru: Rules)
    ensures WfSenders(true, Absent) && WfSenderProperties(true, Undeclared)
    ensures WfReceivers(ru, true, Absent) && WfReceiverProperties(ru, true, Undeclared)
  {
  }

  lemma OverlapExcludesNot(ru: Rules)
    ensures !Exclusive(ru, ANY.(oneOf := Listed(OVERLAP)))
  {
    hide Receives;
    ScalarReceives(ru, "integer", Num(5.0));
    ScalarReceives(ru, "number", Num(5.0));
    assert OVERLAP[0] == Typed("integer") && OVERLAP[1] == Typed("number");
  }

  lemma OverlapBreaks(ru: Rules)
    ensures Breaks(ru, BranchesExclusive, Typed("integer"), ANY.(oneOf := Listed(OVERLAP)))
  {
    var a, b := Typed("integer"), ANY.(oneOf := Listed(OVERLAP));
    hide Fits, DistinctNames, Exclusive, Receives;
    FlatBelow(ru, a);
    OverlapIsWf(ru);
    OverlapFits();
    OverlapExcludesNot(ru);
  }

  lemma OverlapSlips(ru: Rules, op: string, at: string)
    ensures Slips(ru, Typed("integer"), ANY.(oneOf := Listed(OVERLAP)), Num(5.0), op, at)
  {
    var b := ANY.(oneOf := Listed(OVERLAP));
    OverlapSilent(op, at);
    PlainSends(ru, "integer", Num(5.0));
    ScalarReceives(ru, "integer", Num(5.0));
    ScalarReceives(ru, "number", Num(5.0));
    TwoReceive(ru, b, Num(5.0));
  }

  lemma TwoReceive(ru: Rules, s: Schema, v: Json)
    requires s.oneOf.Listed? && |s.oneOf.list| == 2
    requires Receives(ru, true, s.oneOf.list[0], v) && Receives(ru, true, s.oneOf.list[1], v)
    ensures !Receives(ru, true, s, v)
  {
    assert !OneReceives(ru, true, s.oneOf, v);
  }

  lemma OverlapPairs()
    ensures Pairs(Request, [Typed("integer")], [Typed("integer"), Typed("number")]) == map[0 := 0]
  {
    var va, vb := [Typed("integer")], [Typed("integer"), Typed("number")];
    var keysA, keysB := VariantKeys(va), VariantKeys(vb);
    LoneKey(va[0]);
    assert vb[1..] == [Typed("number")] && vb[1..][1..] == [];
    assert CountKind(vb[1..], "integer") == 0 && CountKind(vb, "integer") == 1 && CountKind(vb, "object") == 0;
    assert keysB[0] == KeyAt(vb, 0) == "integer";
    assert NameStep(keysA, keysB, 0, map[]) == map[0 := 0];
    assert ByName(keysA, keysB, 0, map[]) == ByName(keysA, keysB, 1, map[0 := 0]) == map[0 := 0];
    assert Leftovers(Request, va, vb, keysA, keysB, 0, map[0 := 0])
        == Leftovers(Request, va, vb, keysA, keysB, 1, map[0 := 0]) == map[0 := 0];
  }

  lemma ScalarReceives(ru: Rules, name: string, v: Json)
    requires HasType(name, v) && !v.Obj? && !v.Arr?
    ensures Receives(ru, true, Typed(name), v)
  {
    var s := Typed(name);
    LeafReceives(ru, true, s, v);
    assert ItemsReceive(ru, true, s.items, v) && PropertiesReceive(ru, true, s.properties, v);
    assert ExtraReceives(ru, true, s.extra, [], v) && AllReceive(ru, true, s.allOf, v);
  }

  // -- keys one end leaves open and the other names --------------------------------------------

  /** `additionalProperties: true` turned `false` is not looked at. */
  lemma ClosedObjectEscapes(ru: Rules, op: string, at: string)
    ensures Escapes(ru, KeysAgree, Object([]).(extra := AnyExtra(true)), Object([]).(extra := AnyExtra(false)), Obj(map["x" := Null]), op, at)
  {
    hide Breaks, Slips;
    ClosedObjectBreaks(ru);
    ClosedObjectSlips(ru, op, at);
  }

  lemma ClosedObjectBreaks(ru: Rules)
    ensures Breaks(ru, KeysAgree, Object([]).(extra := AnyExtra(true)), Object([]).(extra := AnyExtra(false)))
  {
    var a, b := Object([]).(extra := AnyExtra(true)), Object([]).(extra := AnyExtra(false));
    hide Fits, DistinctNames;
    FlatBelow(ru, a);
    FlatBelow(ru, b);
    ClosingDoesNotFit();
  }

  lemma ClosedObjectSlips(ru: Rules, op: string, at: string)
    ensures Slips(ru, Object([]).(extra := AnyExtra(true)), Object([]).(extra := AnyExtra(false)), Obj(map["x" := Null]), op, at)
  {
    ClosingIsSilent(op, at);
    ClosingRefuses(ru);
    ClosingDoesNotFit();
  }

  lemma ClosingIsSilent(op: string, at: string)
    ensures Compare(Request, Object([]).(extra := AnyExtra(true)), Object([]).(extra := AnyExtra(false)), op, at) == []
  {
    var a, b := Object([]).(extra := AnyExtra(true)), Object([]).(extra := AnyExtra(false));
    LoneSilent(Request, a, b, a, b, op, at);
    NothingNarrowed(a.limits, b.limits, op, at);
  }

  lemma ClosingRefuses(ru: Rules)
    ensures Sends(ru, Object([]).(extra := AnyExtra(true)), Obj(map["x" := Null]), NO_KEYS)
    ensures !Receives(ru, true, Object([]).(extra := AnyExtra(false)), Obj(map["x" := Null]))
  {
    var a, b := Object([]).(extra := AnyExtra(true)), Object([]).(extra := AnyExtra(false));
    var v := Obj(map["x" := Null]);
    assert ItemsSend(ru, a.items, v) && PropertiesSend(ru, a.properties, v);
    assert ExtraSends(ru, a.extra, [], v, OpenKeys(a, NO_KEYS));
    assert "x" in v.fields && !Declares([], "x");
    assert !ExtraReceives(ru, true, b.extra, [], v);
  }

  lemma ClosingDoesNotFit()
    ensures !Fits(Request, Object([]).(extra := AnyExtra(true)), Object([]).(extra := AnyExtra(false)), NO_KEYS)
  {
    var a, b := Object([]).(extra := AnyExtra(true)), Object([]).(extra := AnyExtra(false));
    assert OpenKeys(a, NO_KEYS).Has("x") && !KeysFit(Request, a, b, NO_KEYS);
    LoneFits(a, b);
  }

  lemma LoneFits(a: Schema, b: Schema)
    requires Alternatives(a) == Alts(false, false, [a]) && Alternatives(b) == Alts(false, false, [b])
    requires KindOf(a) == KindOf(b) == "object"
    ensures Fits(Request, a, b, NO_KEYS) ==> KeysFit(Request, a, b, NO_KEYS)
  {
    LonePairs(Request, a, b);
    assert [a][0] == a && [b][0] == b;
    assert Fits(Request, a, b, NO_KEYS) ==> VariantFits(Request, [a][0], [b][Pairs(Request, [a], [b])[0]], NO_KEYS);
  }

  const X_INTEGER := Property("x", Typed("integer"))
  const X_STRING := Property("x", Typed("string"))
  const TWO_PARTS := [Object([]), Object([X_STRING])]
  const TWO_PARTS_LATER := [Object([X_INTEGER]), Object([X_STRING])]

  /** A part of an intersection that gains a name another part has already given a meaning. */
  lemma LooseNameEscapes(ru: Rules, op: string, at: string)
    ensures Escapes(ru, KeysAgree, ANY.(allOf := Listed(TWO_PARTS)), ANY.(allOf := Listed(TWO_PARTS_LATER)), Obj(map["x" := Str("s")]), op, at)
  {
    hide Breaks, Slips;
    LooseNameBreaks(ru);
    LooseNameSlips(ru, op, at);
  }

  lemma ObjectIsWf(ru: Rules, props: seq<Property>)
    requires DistinctNames(props)
    requires forall i :: 0 <= i < |props| ==> WfSender(true, props[i].schema) && WfReceiver(ru, true, props[i].schema)
    ensures WfSender(true, Object(props)) && WfReceiver(ru, true, Object(props))
  {
    hide KnownTypes;
    var s := Object(props);
    NothingBelow(ru);
    TypeIsKnown(s);
    assert WfSenderProperties(true, s.properties) && WfReceiverProperties(ru, true, s.properties);
  }

  lemma TypeIsKnown(s: Schema)
    requires s.types == One("object") || s.types == One("string")
    ensures KnownTypes(s)
  {
  }

  lemma LoosePartsAreWf(ru: Rules)
    ensures SendersBelow(ANY.(allOf := Listed(TWO_PARTS))) && ReceiversBelow(ru, ANY.(allOf := Listed(TWO_PARTS_LATER)))
    ensures DistinctNames([])
  {
    hide WfSender, WfReceiver;
    var a, b := ANY.(allOf := Listed(TWO_PARTS)), ANY.(allOf := Listed(TWO_PARTS_LATER));
    TypedIsWf(ru, "string");
    TypedIsWf(ru, "integer");
    ObjectIsWf(ru, []);
    ObjectIsWf(ru, [X_STRING]);
    ObjectIsWf(ru, [X_INTEGER]);
    NothingBelow(ru);
    assert WfSenders(true, a.allOf) && WfReceivers(ru, true, b.allOf);
  }

  lemma LooseNameDoesNotFit()
    ensures !Fits(Request, ANY.(allOf := Listed(TWO_PARTS)), ANY.(allOf := Listed(TWO_PARTS_LATER)), NO_KEYS)
  {
    hide Fits, Alternatives, Names, ListNames;
    var a, b := ANY.(allOf := Listed(TWO_PARTS)), ANY.(allOf := Listed(TWO_PARTS_LATER));
    var loose := NO_KEYS.Plus(ListNames(TWO_PARTS));
    LoneAllOf(TWO_PARTS);
    LoneAllOf(TWO_PARTS_LATER);
    LoneFit(Request, a, b, a, b);
    PartLosesName(loose) by { XIsNamed(); }
    assert TWO_PARTS[0] == Object([]) && TWO_PARTS_LATER[0] == Object([X_INTEGER]);
    assert !PartsFit(Request, a, b, loose);
  }

  lemma LoneAllOf(parts: seq<Schema>)
    ensures Alternatives(ANY.(allOf := Listed(parts))) == Alts(false, false, [ANY.(allOf := Listed(parts))])
  {
  }

  lemma LoneObject(props: seq<Property>)
    ensures Alternatives(Object(props)) == Alts(false, false, [Object(props)])
  {
  }

  lemma XIsNamed()
    ensures ListNames(TWO_PARTS).Has("x")
  {
    assert TWO_PARTS[1..] == [Object([X_STRING])];
    assert [X_STRING][0].name == "x";
    assert "x" in PropertyNames([X_STRING]);
    assert Names(Object([X_STRING])).Has("x") && ListNames(TWO_PARTS[1..]).Has("x");
  }

  lemma PartLosesName(loose: Keys)
    requires loose.Has("x")
    ensures !Fits(Request, Object([]), Object([X_INTEGER]), loose)
  {
    hide Fits, Alternatives;
    var a, b := Object([]), Object([X_INTEGER]);
    LoneObject([]);
    LoneObject([X_INTEGER]);
    LoneFit(Request, a, b, a, b, loose);
    assert OpenKeys(a, loose).Has("x") && PropertiesOf(b)[0].name == "x";
    assert !KeysFit(Request, a, b, loose);
  }

  lemma LooseNameBreaks(ru: Rules)
    ensures Breaks(ru, KeysAgree, ANY.(allOf := Listed(TWO_PARTS)), ANY.(allOf := Listed(TWO_PARTS_LATER)))
  {
    var a, b := ANY.(allOf := Listed(TWO_PARTS)), ANY.(allOf := Listed(TWO_PARTS_LATER));
    hide Fits, DistinctNames, WfSender, WfReceiver;
    LoosePartsAreWf(ru);
    LooseNameDoesNotFit();
  }

  lemma LooseNameSlips(ru: Rules, op: string, at: string)
    ensures Slips(ru, ANY.(allOf := Listed(TWO_PARTS)), ANY.(allOf := Listed(TWO_PARTS_LATER)), Obj(map["x" := Str("s")]), op, at)
  {
    LooseNameIsSilent(op, at);
    LooseNameSent(ru);
    LooseNameRefused(ru);
  }

  /** Two intersections are silent when each pair of parts is. */
  lemma LoneParts(pa: seq<Schema>, pb: seq<Schema>, op: string, at: string)
    requires |pa| == |pb|
    requires forall i :: 0 <= i < |pa| ==> Compare(Request, pa[i], pb[i], op, at + "&" + NatText(i)) == []
    ensures Compare(Request, ANY.(allOf := Listed(pa)), ANY.(allOf := Listed(pb)), op, at) == []
  {
    var a, b := ANY.(allOf := Listed(pa)), ANY.(allOf := Listed(pb));
    LoneVariants(Request, a, b, a, b, op, at);
    var steps := PartSteps(Request, a, b, op, at);
    assert forall i :: 0 <= i < |steps| ==> steps[i] == Compare(Request, pa[i], pb[i], op, at + "&" + NatText(i));
  }

  lemma LooseNameIsSilent(op: string, at: string)
    ensures Compare(Request, ANY.(allOf := Listed(TWO_PARTS)), ANY.(allOf := Listed(TWO_PARTS_LATER)), op, at) == []
  {
    hide Compare, Alternatives, NatText;
    PartGainsName(op, at + "&" + NatText(0), X_INTEGER);
    assert WfSelf(X_STRING.schema) && WfSelf(Object([X_STRING]));
    SelfSilent(Request, Object([X_STRING]), op, at + "&" + NatText(1));
    LoneParts(TWO_PARTS, TWO_PARTS_LATER, op, at);
  }

  lemma LooseNameSent(ru: Rules)
    ensures Sends(ru, ANY.(allOf := Listed(TWO_PARTS)), Obj(map["x" := Str("s")]), NO_KEYS)
  {
    var a, v := ANY.(allOf := Listed(TWO_PARTS)), Obj(map["x" := Str("s")]);
    var loose := NO_KEYS.Plus(ListNames(TWO_PARTS));
    XIsNamed();
    PlainSends(ru, "string", Str("s"));
    ObjectSends(ru, Object([]), v, loose);
    ObjectSends(ru, Object([X_STRING]), v, loose);
    assert AllSend(ru, a.allOf, v, loose);
  }

  lemma LooseNameRefused(ru: Rules)
    ensures !Receives(ru, true, ANY.(allOf := Listed(TWO_PARTS_LATER)), Obj(map["x" := Str("s")]))
  {
    var b, v := ANY.(allOf := Listed(TWO_PARTS_LATER)), Obj(map["x" := Str("s")]);
    assert !Receives(ru, true, X_INTEGER.schema, Str("s"));
    assert [X_INTEGER][0].name in v.fields && v.fields["x"] == Str("s");
    assert !PropertiesReceive(ru, true, Declared([X_INTEGER]), v);
    assert !Receives(ru, true, TWO_PARTS_LATER[0], v);
    assert !AllReceive(ru, true, b.allOf, v);
  }

  lemma ObjectSends(ru: Rules, s: Schema, v: Json, loose: Keys)
    requires s.properties.Declared? && s == Object(s.properties.list) && v.Obj?
    requires PropertiesSend(ru, s.properties, v) || s.properties.list == []
    requires forall k :: k in v.fields ==> loose.Has(k)
    ensures Sends(ru, s, v, loose)
  {
    assert PropertiesSend(ru, s.properties, v);
    assert ItemsSend(ru, s.items, v) && ExtraSends(ru, s.extra, s.properties.list, v, OpenKeys(s, loose));
  }

  lemma PartGainsName(op: string, at: string, x: Property)
    ensures Compare(Request, Object([]), Object([x]), op, at) == []
  {
    var a, b := Object([]), Object([x]);
    LoneSilent(Request, a, b, a, b, op, at);
    NothingNarrowed(a.limits, b.limits, op, at);
    assert NewlyRequired(a, b, op, at) == [];
  }

  ghost predicate AllAccepted(ru: Rules, a: Schema, b: Schema) {
    forall v :: Sends(ru, a, v, NO_KEYS) ==> Receives(ru, true, b, v)
  }

  /**
   * A map that gains a named property: the diff is silent, and the server still
   * accepts everything exactly when the new property accepts every map value.
   */
  lemma {:induction false} MapGainsName(ru: Rules, m: Schema, x: Property, op: string, at: string)
    requires Compare(Request, m, m, op, at + "{}") == []
    requires AllAccepted(ru, m, m)
    ensures Compare(Request, MapTo(m), MapTo(m).(properties := Declared([x])), op, at) == []
    ensures AllAccepted(ru, MapTo(m), MapTo(m).(properties := Declared([x]))) <==> AllAccepted(ru, m, x.schema)
  {
    var a, b := MapTo(m), MapTo(m).(properties := Declared([x]));
    GainingIsSilent(m, x, op, at);
    if AllAccepted(ru, m, x.schema) {
      forall v | Sends(ru, a, v, NO_KEYS) ensures Receives(ru, true, b, v) {
        MapReceived(ru, m, x, v);
      }
    }
    if AllAccepted(ru, a, b) {
      forall w | Sends(ru, m, w, NO_KEYS) ensures Receives(ru, true, x.schema, w) {
        OneEntry(ru, m, x, w);
      }
    }
  }

  lemma GainingIsSilent(m: Schema, x: Property, op: string, at: string)
    requires Compare(Request, m, m, op, at + "{}") == []
    ensures Compare(Request, MapTo(m), MapTo(m).(properties := Declared([x])), op, at) == []
  {
    var a, b := MapTo(m), MapTo(m).(properties := Declared([x]));
    LoneSilent(Request, a, b, a, b, op, at);
    NothingNarrowed(a.limits, b.limits, op, at);
    assert NewlyRequired(a, b, op, at) == [];
  }

  lemma MapReceived(ru: Rules, m: Schema, x: Property, v: Json)
    requires AllAccepted(ru, m, m) && AllAccepted(ru, m, x.schema)
    requires Sends(ru, MapTo(m), v, NO_KEYS)
    ensures Receives(ru, true, MapTo(m).(properties := Declared([x])), v)
  {
    var a, b := MapTo(m), MapTo(m).(properties := Declared([x]));
    LeafReceives(ru, true, b, v);
    assert v.Obj?;
    assert ExtraSends(ru, a.extra, [], v, OpenKeys(a, NO_KEYS));
    forall k | k in v.fields ensures Receives(ru, true, m, v.fields[k]) && Receives(ru, true, x.schema, v.fields[k]) {
      assert !Declares([], k) && Sends(ru, m, v.fields[k], NO_KEYS);
    }
    assert PropertiesReceive(ru, true, b.properties, v);
    assert ExtraReceives(ru, true, b.extra, [x], v);
    assert ItemsReceive(ru, true, b.items, v) && AllReceive(ru, true, b.allOf, v);
  }

  lemma OneEntry(ru: Rules, m: Schema, x: Property, w: Json)
    requires Sends(ru, m, w, NO_KEYS) && Receives(ru, true, m, w)
    ensures var v := Obj(map[x.name := w]);
      Sends(ru, MapTo(m), v, NO_KEYS)
      && (Receives(ru, true, MapTo(m).(properties := Declared([x])), v) <==> Receives(ru, true, x.schema, w))
  {
    var a, b, v := MapTo(m), MapTo(m).(properties := Declared([x])), Obj(map[x.name := w]);
    assert ItemsSend(ru, a.items, v) && PropertiesSend(ru, a.properties, v);
    assert ExtraSends(ru, a.extra, [], v, OpenKeys(a, NO_KEYS));
    LeafReceives(ru, true, b, v);
    assert [x][0].name in v.fields;
    assert Declares([x], x.name);
    assert PropertiesReceive(ru, true, b.properties, v) <==> Receives(ru, true, x.schema, w);
    assert ExtraReceives(ru, true, b.extra, [x], v);
    assert ItemsReceive(ru, true, b.items, v) && AllReceive(ru, true, b.allOf, v);
  }

  // -- the reading end of a response -----------------------------------------------------------

  /**
   * A field that was only ever `null` may become anything but `{}` in silence;
   * the client reads it exactly when it is still `null`.
   */
  lemma NullReader(ru: Rules, after: Schema, v: Json, op: string, at: string)
    requires !Alternatives(after).any
    ensures Compare(Response, Typed("null"), after, op, at) == []
    ensures Receives(ru, false, Typed("null"), v) <==> v.Null?
    ensures Fits(Response, Typed("null"), after, NO_KEYS) <==> Alternatives(after).variants == []
  {
    var a := Typed("null");
    assert Alternatives(a) == Alts(true, false, []);
    assert VariantSteps(Response, a, after, op, at) == [];
    LeafReceives(ru, false, a, v);
    assert ItemsReceive(ru, false, a.items, v) || v.Arr?;
    if v.Null? {
      assert PropertiesReceive(ru, false, a.properties, v) && ExtraReceives(ru, false, a.extra, [], v) && AllReceive(ru, false, a.allOf, v);
    }
  }

  /**
   * A map beside named properties that opens up to any value: nothing is
   * reported, and the client may read a value of another type.
   */
  lemma OpenedMapEscapes(ru: Rules, op: string, at: string)
    ensures var a := Object([X_STRING]).(extra := MapOf(Typed("string")));
      var b := Object([X_STRING]).(extra := AnyExtra(true));
      var v := Obj(map["q" := Num(5.0)]);
      && Compare(Response, a, b, op, at) == [] && Sends(ru, b, v, NO_KEYS) && !Receives(ru, false, a, v)
      && WfReceiver(ru, false, a) && WfSender(false, b) && !Fits(Response, a, b, NO_KEYS)
  {
    hide Compare, Sends, Receives, WfReceiver, WfSender, Fits;
    OpenedMapSilent(op, at);
    OpenedMapRefused(ru);
    ClosedMapIsWf(ru);
    OpenedMapIsWf(ru);
    OpenedMapDoesNotFit();
  }

  const CLOSED_MAP := Object([X_STRING]).(extra := MapOf(Typed("string")))
  const OPENED_MAP := Object([X_STRING]).(extra := AnyExtra(true))

  lemma StringAnswerIsSilent(op: string, at: string)
    ensures Compare(Response, Typed("string"), Typed("string"), op, at) == []
  {
    var s := Typed("string");
    LoneSilent(Response, s, s, s, s, op, at);
  }

  lemma OpenedMapSilent(op: string, at: string)
    ensures Compare(Response, CLOSED_MAP, OPENED_MAP, op, at) == []
  {
    hide Compare;
    var a, b := CLOSED_MAP, OPENED_MAP;
    LoneSilent(Response, a, b, a, b, op, at) by { LoneMaps(); }
    StringAnswerIsSilent(op, at + "." + "x");
    assert [X_STRING][0].name == "x" && PropertiesOf(a) == PropertiesOf(b) == [X_STRING];
    assert Lookup([X_STRING], "x") == Some(Typed("string"));
    assert PropertyChange(Response, a, b, 0, op, at) == [];
    assert Concat(PropertySteps(Response, a, b, op, at)) == [];
  }

  lemma LoneMaps()
    ensures Alternatives(CLOSED_MAP) == Alts(false, false, [CLOSED_MAP])
    ensures Alternatives(OPENED_MAP) == Alts(false, false, [OPENED_MAP])
  {
  }

  lemma OpenedMapRefused(ru: Rules)
    ensures Sends(ru, OPENED_MAP, Obj(map["q" := Num(5.0)]), NO_KEYS)
    ensures !Receives(ru, false, CLOSED_MAP, Obj(map["q" := Num(5.0)]))
  {
    var a, b, v := CLOSED_MAP, OPENED_MAP, Obj(map["q" := Num(5.0)]);
    assert [X_STRING][0].name == "x" && "x"[0] != "q"[0] && !Declares([X_STRING], "q") && "x" !in v.fields;
    assert ItemsSend(ru, b.items, v) && PropertiesSend(ru, b.properties, v);
    assert ExtraSends(ru, b.extra, [X_STRING], v, OpenKeys(b, NO_KEYS));
    assert v.fields["q"] == Num(5.0) && !Receives(ru, false, Typed("string"), Num(5.0));
    assert !ExtraReceives(ru, false, a.extra, [X_STRING], v);
  }

  lemma StringBothWays(ru: Rules)
    ensures WfReceiver(ru, false, Typed("string")) && WfSender(false, Typed("string"))
  {
    hide WfReceiver, WfSender;
    TypedIsWf(ru, "string", false);
  }

  lemma XBothWays(ru: Rules)
    ensures WfReceiverProperties(ru, false, Declared([X_STRING])) && WfSenderProperties(false, Declared([X_STRING]))
    ensures WfReceivers(ru, false, Absent) && WfSenders(false, Absent)
  {
    hide WfReceiver, WfSender;
    StringBothWays(ru);
  }

  lemma ClosedMapIsWf(ru: Rules)
    ensures WfReceiver(ru, false, CLOSED_MAP)
  {
    hide KnownTypes, WfReceivers, WfReceiverProperties;
    TypeIsKnown(CLOSED_MAP);
    XBothWays(ru);
    StringBothWays(ru);
    assert CLOSED_MAP.properties == Declared([X_STRING]);
  }

  lemma OpenedMapIsWf(ru: Rules)
    ensures WfSender(false, OPENED_MAP)
  {
    hide KnownTypes, WfSenders, WfSenderProperties;
    TypeIsKnown(OPENED_MAP);
    XBothWays(ru);
    assert OPENED_MAP.properties == Declared([X_STRING]);
  }

  lemma OpenedMapDoesNotFit()
    ensures !Fits(Response, CLOSED_MAP, OPENED_MAP, NO_KEYS)
  {
    hide Fits, Alternatives;
    LoneMaps();
    LoneFit(Response, CLOSED_MAP, OPENED_MAP, CLOSED_MAP, OPENED_MAP);
    assert [X_STRING][0].name == "x" && "x"[0] != "q"[0];
    assert OpenKeys(OPENED_MAP, NO_KEYS).Has("q") && !Declares([X_STRING], "q");
    assert !KeysFit(Response, CLOSED_MAP, OPENED_MAP, NO_KEYS);
  }
}
