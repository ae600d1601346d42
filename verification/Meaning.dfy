/**
 * What a schema means to the two ends of a connection, after JSON Schema draft
 * 2020-12 (Validation sections 6.1 to 6.5, Core sections 10.2 and 10.3).
 *
 * The end that writes a value is closed: it writes only the keys its schema
 * names, or the keys of a map. The end that reads one is open unless
 * `additionalProperties` says otherwise.
 */
module Meaning {
  import opened JsonValues
  import opened Schemas

  /** What `pattern` and `format` mean is left to the validator. */
  datatype Rules = Rules(pattern: (string, string) -> bool, format: (string, string) -> bool)

  // -- keywords that look at one value -------------------------------------------

  predicate TypeMeets(types: Types, v: Json) {
    match types
    case Untyped => true
    case One(name) => HasType(name, v)
    case Many(names) => exists i :: 0 <= i < |names| && HasType(names[i], v)
  }

  predicate ValuesMeet(s: Schema, v: Json) {
    && (s.enumeration.Some? ==> v in s.enumeration.value)
    && (s.constant.Some? ==> v == s.constant.value)
  }

  predicate LengthMeets(low: Option<int>, high: Option<int>, length: int) {
    && (low.Some? ==> low.value <= length)
    && (high.Some? ==> length <= high.value)
  }

  function Times(k: int, step: real): real {
    k as real * step
  }

  ghost predicate MultipleOf(n: real, step: real) {
    exists k: int :: n == Times(k, step)
  }

  predicate RangeMeets(l: Limits, n: real) {
    && (l.minimum.Some? ==> l.minimum.value <= n)
    && (l.exclusiveMinimum.Some? ==> l.exclusiveMinimum.value < n)
    && (l.maximum.Some? ==> n <= l.maximum.value)
    && (l.exclusiveMaximum.Some? ==> n < l.exclusiveMaximum.value)
  }

  ghost predicate LimitsMeet(ru: Rules, l: Limits, v: Json) {
    match v
    case Str(t) =>
      && LengthMeets(l.minLength, l.maxLength, |t|)
      && (l.pattern.Some? ==> ru.pattern(l.pattern.value, t))
      && (l.format.Some? ==> ru.format(l.format.value, t))
    case Num(n) => RangeMeets(l, n) && (l.multipleOf.Some? ==> MultipleOf(n, l.multipleOf.value))
    case Arr(items) => LengthMeets(l.minItems, l.maxItems, |items|)
    case _ => true
  }

  predicate RequiredMeets(s: Schema, v: Json) {
    v.Obj? ==> forall i :: 0 <= i < |s.required| ==> s.required[i] in v.fields
  }

  /** Everything but the sub-schemas. */
  ghost predicate Own(ru: Rules, limited: bool, s: Schema, v: Json) {
    && TypeMeets(s.types, v)
    && ValuesMeet(s, v)
    && RequiredMeets(s, v)
    && (limited ==> LimitsMeet(ru, s.limits, v))
  }

  // -- the reading end -------------------------------------------------------------

  /**
   * `strict`: the server validates `v` against `s`, all keywords, `oneOf` as
   * exactly one. Otherwise: a released client can read `v` as `s`; it checks
   * no limit and steps over keys it does not know.
   */
  ghost predicate Receives(ru: Rules, strict: bool, s: Schema, v: Json)
    decreases s
  {
    && Own(ru, strict, s, v)
    && ItemsReceive(ru, strict, s.items, v)
    && PropertiesReceive(ru, strict, s.properties, v)
    && ExtraReceives(ru, strict, s.extra, PropertiesOf(s), v)
    && AnyReceives(ru, strict, s.anyOf, v)
    && OneReceives(ru, strict, s.oneOf, v)
    && AllReceive(ru, strict, s.allOf, v)
  }

  ghost predicate ItemsReceive(ru: Rules, strict: bool, items: Option<Schema>, v: Json)
    decreases items
  {
    v.Arr? && items.Some? ==>
      forall i :: 0 <= i < |v.items| ==> Receives(ru, strict, items.value, v.items[i])
  }

  ghost predicate PropertiesReceive(ru: Rules, strict: bool, props: Properties, v: Json)
    decreases props
  {
    v.Obj? && props.Declared? ==>
      forall i :: 0 <= i < |props.list| && props.list[i].name in v.fields ==>
        Receives(ru, strict, props.list[i].schema, v.fields[props.list[i].name])
  }

  ghost predicate ExtraReceives(ru: Rules, strict: bool, extra: Extra, props: seq<Property>, v: Json)
    decreases extra
  {
    v.Obj? ==>
      match extra
      case NoExtra => true
      case AnyExtra(allowed) => strict && !allowed ==> forall k :: k in v.fields ==> Declares(props, k)
      case MapOf(values) =>
        forall k :: k in v.fields && !Declares(props, k) ==> Receives(ru, strict, values, v.fields[k])
  }

  ghost predicate AnyReceives(ru: Rules, strict: bool, anyOf: Branches, v: Json)
    decreases anyOf
  {
    anyOf.Listed? ==> exists i :: 0 <= i < |anyOf.list| && Receives(ru, strict, anyOf.list[i], v)
  }

  ghost predicate OneReceives(ru: Rules, strict: bool, oneOf: Branches, v: Json)
    decreases oneOf
  {
    oneOf.Listed? ==>
      exists i :: 0 <= i < |oneOf.list| && Receives(ru, strict, oneOf.list[i], v)
        && (strict ==> forall j :: 0 <= j < |oneOf.list| && j != i ==> !Receives(ru, strict, oneOf.list[j], v))
  }

  ghost predicate AllReceive(ru: Rules, strict: bool, allOf: Branches, v: Json)
    decreases allOf
  {
    allOf.Listed? ==> forall i :: 0 <= i < |allOf.list| ==> Receives(ru, strict, allOf.list[i], v)
  }

  // -- the writing end -------------------------------------------------------------

  /** A set of object keys: all of them, or the ones listed. */
  datatype Keys = Keys(every: bool, names: set<string>) {
    predicate Has(k: string) { every || k in names }
    function Plus(other: Keys): Keys { Keys(every || other.every, names + other.names) }
  }

  const NO_KEYS := Keys(false, {})

  function PropertyNames(props: seq<Property>): set<string> {
    set i | 0 <= i < |props| :: props[i].name
  }

  /** The object keys `s` knows about at its own level. */
  function Names(s: Schema): Keys
    decreases s, 1
  {
    Keys(s.extra.MapOf? || s.extra == AnyExtra(true), PropertyNames(PropertiesOf(s)))
    .Plus(if s.anyOf.Listed? then ListNames(s.anyOf.list) else NO_KEYS)
    .Plus(if s.oneOf.Listed? then ListNames(s.oneOf.list) else NO_KEYS)
    .Plus(if s.allOf.Listed? then ListNames(s.allOf.list) else NO_KEYS)
  }

  function ListNames(ss: seq<Schema>): Keys
    decreases ss, 0
  {
    if ss == [] then NO_KEYS else Names(ss[0]).Plus(ListNames(ss[1..]))
  }

  /** The undeclared keys `s` leaves open, where the schemas around it name `loose`. */
  function OpenKeys(s: Schema, loose: Keys): Keys {
    if s.extra == AnyExtra(true) then Keys(true, {})
    else if s.extra.NoExtra? then loose
    else NO_KEYS
  }

  /**
   * `v` conforms to `s` and holds no object key that neither `s` nor `loose`
   * (the other parts of an intersection) names. `{}` is any value.
   */
  ghost predicate Sends(ru: Rules, s: Schema, v: Json, loose: Keys)
    decreases s
  {
    Own(ru, true, s, v)
    && if Bare(s) then true
       else if s.anyOf.Listed? then SomeSend(ru, s.anyOf, v, loose)
       else if s.oneOf.Listed? then SomeSend(ru, s.oneOf, v, loose)
       else if s.allOf.Listed? then AllSend(ru, s.allOf, v, loose.Plus(ListNames(s.allOf.list)))
       else
         && ItemsSend(ru, s.items, v)
         && PropertiesSend(ru, s.properties, v)
         && ExtraSends(ru, s.extra, PropertiesOf(s), v, OpenKeys(s, loose))
  }

  ghost predicate ItemsSend(ru: Rules, items: Option<Schema>, v: Json)
    decreases items
  {
    v.Arr? && items.Some? ==>
      forall i :: 0 <= i < |v.items| ==> Sends(ru, items.value, v.items[i], NO_KEYS)
  }

  ghost predicate PropertiesSend(ru: Rules, props: Properties, v: Json)
    decreases props
  {
    v.Obj? && props.Declared? ==>
      forall i :: 0 <= i < |props.list| && props.list[i].name in v.fields ==>
        Sends(ru, props.list[i].schema, v.fields[props.list[i].name], NO_KEYS)
  }

  ghost predicate ExtraSends(ru: Rules, extra: Extra, props: seq<Property>, v: Json, open: Keys)
    decreases extra
  {
    v.Obj? ==>
      forall k :: k in v.fields && !Declares(props, k) ==>
        if extra.MapOf? then Sends(ru, extra.values, v.fields[k], NO_KEYS) else open.Has(k)
  }

  ghost predicate SomeSend(ru: Rules, branches: Branches, v: Json, loose: Keys)
    decreases branches
  {
    branches.Listed? && exists i :: 0 <= i < |branches.list| && Sends(ru, branches.list[i], v, loose)
  }

  ghost predicate AllSend(ru: Rules, parts: Branches, v: Json, loose: Keys)
    decreases parts
  {
    parts.Listed? && forall i :: 0 <= i < |parts.list| ==> Sends(ru, parts.list[i], v, loose)
  }

  // -- well-formed schemas -----------------------------------------------------------

  predicate KnownTypes(s: Schema) {
    match s.types
    case Untyped => true
    case One(name) => name in TYPE_NAMES
    case Many(names) => forall i :: 0 <= i < |names| ==> names[i] in TYPE_NAMES
  }

  /** `{}` stands alone when it means anything; a union or an intersection does always. */
  predicate StandsAlone(s: Schema) {
    && (s.anyOf.Listed? ==> s == ANY.(anyOf := s.anyOf))
    && (s.oneOf.Listed? ==> s == ANY.(oneOf := s.oneOf))
    && (s.allOf.Listed? ==> s == ANY.(allOf := s.allOf))
  }

  predicate AdmitsNull(types: Types) {
    match types
    case Untyped => true
    case One(name) => name == "null"
    case Many(names) => "null" in names
  }

  /** The type and the enum agree on `null`. */
  predicate NullAgrees(s: Schema) {
    var values := EnumOf(s);
    values.Some? ==>
      && (Null in values.value ==> AdmitsNull(s.types))
      && (!s.types.Untyped? && AdmitsNull(s.types) ==> Null in values.value)
  }

  /** A keyword that describes a structure says which; an untyped enum has one kind. */
  predicate SaysItsKind(s: Schema) {
    s.types.Untyped? ==>
      && s.properties.Undeclared? && s.items.None? && s.extra.NoExtra?
      && (EnumOf(s).Some? ==> OneKind(Without(EnumOf(s).value, Null)))
  }

  predicate OneKind(values: seq<Json>) {
    forall i :: 0 <= i < |values| ==> HasType(TypeOf(values[0]), values[i])
  }

  /** Where a typed array may be, its items are described. */
  predicate ArraysHaveItems(s: Schema) {
    match s.types
    case Untyped => true
    case One(name) => name == "array" ==> s.items.Some?
    case Many(names) => "array" in names ==> s.items.Some?
  }

  predicate RequiredDeclared(s: Schema) {
    forall i :: 0 <= i < |s.required| ==> Declares(PropertiesOf(s), s.required[i])
  }

  /** No value is accepted by two branches of a `oneOf`. */
  ghost predicate Exclusive(ru: Rules, s: Schema) {
    s.oneOf.Listed? ==>
      forall i, j, v :: 0 <= i < j < |s.oneOf.list| && Receives(ru, true, s.oneOf.list[i], v) ==>
        !Receives(ru, true, s.oneOf.list[j], v)
  }

  predicate SenderHere(s: Schema) {
    && KnownTypes(s)
    && DistinctNames(PropertiesOf(s))
    && StandsAlone(s)
    && SaysItsKind(s)
  }

  ghost predicate ReceiverHere(ru: Rules, strict: bool, s: Schema) {
    && KnownTypes(s)
    && DistinctNames(PropertiesOf(s))
    && StandsAlone(s)
    && (Bare(s) ==> s.required == [] && (strict ==> s.limits == NO_LIMITS))
    && (s.enumeration.None? || s.constant.None?)
    && NullAgrees(s)
    && RequiredDeclared(s)
    && (strict ==> Exclusive(ru, s))
  }

  /** A schema the writing end may have; `itemised` where its arrays must say their items. */
  predicate WfSender(itemised: bool, s: Schema)
    decreases s
  {
    && SenderHere(s)
    && (itemised ==> ArraysHaveItems(s))
    && WfSenderProperties(itemised, s.properties)
    && (s.items.Some? ==> WfSender(itemised, s.items.value))
    && (s.extra.MapOf? ==> WfSender(itemised, s.extra.values))
    && WfSenders(itemised, s.anyOf) && WfSenders(itemised, s.oneOf) && WfSenders(itemised, s.allOf)
  }

  predicate WfSenderProperties(itemised: bool, props: Properties)
    decreases props
  {
    props.Declared? ==> forall i :: 0 <= i < |props.list| ==> WfSender(itemised, props.list[i].schema)
  }

  predicate WfSenders(itemised: bool, branches: Branches)
    decreases branches
  {
    branches.Listed? ==> forall i :: 0 <= i < |branches.list| ==> WfSender(itemised, branches.list[i])
  }

  /** A schema the reading end may have. */
  ghost predicate WfReceiver(ru: Rules, strict: bool, s: Schema)
    decreases s
  {
    && ReceiverHere(ru, strict, s)
    && WfReceiverProperties(ru, strict, s.properties)
    && (s.items.Some? ==> WfReceiver(ru, strict, s.items.value))
    && (s.extra.MapOf? ==> WfReceiver(ru, strict, s.extra.values))
    && WfReceivers(ru, strict, s.anyOf) && WfReceivers(ru, strict, s.oneOf) && WfReceivers(ru, strict, s.allOf)
  }

  ghost predicate WfReceiverProperties(ru: Rules, strict: bool, props: Properties)
    decreases props
  {
    props.Declared? ==> forall i :: 0 <= i < |props.list| ==> WfReceiver(ru, strict, props.list[i].schema)
  }

  ghost predicate WfReceivers(ru: Rules, strict: bool, branches: Branches)
    decreases branches
  {
    branches.Listed? ==> forall i :: 0 <= i < |branches.list| ==> WfReceiver(ru, strict, branches.list[i])
  }
}
