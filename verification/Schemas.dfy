/**
 * JSON Schemas with the keywords the compatibility diff reads, and their
 * disjunctive form.
 */
module Schemas {
  import opened JsonValues

  /** The `type` keyword: absent, one name, or a list of names. */
  datatype Types = Untyped | One(name: string) | Many(names: seq<string>)

  /** The `additionalProperties` keyword: absent, a boolean, or a schema (a map). */
  datatype Extra = NoExtra | AnyExtra(allowed: bool) | MapOf(values: Schema)

  datatype Limits = Limits(
    minLength: Option<int>, maxLength: Option<int>,
    minItems: Option<int>, maxItems: Option<int>,
    minimum: Option<real>, exclusiveMinimum: Option<real>,
    maximum: Option<real>, exclusiveMaximum: Option<real>,
    pattern: Option<string>, format: Option<string>,
    multipleOf: Option<real>)

  datatype Property = Property(name: string, schema: Schema)

  /** The `properties` keyword, in the order written. */
  datatype Properties = Undeclared | Declared(list: seq<Property>)

  /** An `anyOf`, `oneOf` or `allOf` keyword. */
  datatype Branches = Absent | Listed(list: seq<Schema>)

  datatype Schema = Schema(
    types: Types,
    enumeration: Option<seq<Json>>,
    constant: Option<Json>,
    limits: Limits,
    properties: Properties,
    required: seq<string>,
    items: Option<Schema>,
    extra: Extra,
    anyOf: Branches,
    oneOf: Branches,
    allOf: Branches)

  const NO_LIMITS := Limits(None, None, None, None, None, None, None, None, None, None, None)

  /** `{}`: any value at all. */
  const ANY := Schema(Untyped, None, None, NO_LIMITS, Undeclared, [], None, NoExtra, Absent, Absent, Absent)

  function PropertiesOf(s: Schema): seq<Property> {
    if s.properties.Declared? then s.properties.list else []
  }

  function Lookup(props: seq<Property>, name: string): (r: Option<Schema>)
    ensures r.Some? <==> exists i :: 0 <= i < |props| && props[i].name == name
    ensures r.Some? ==> exists i :: 0 <= i < |props| && props[i] == Property(name, r.value)
  {
    if props == [] then None
    else if props[0].name == name then
      assert props[0] == Property(name, props[0].schema);
      Some(props[0].schema)
    else
      var rest := Lookup(props[1..], name);
      assert forall i :: 0 <= i < |props[1..]| ==> props[1..][i] == props[i + 1];
      rest
  }

  predicate Declares(props: seq<Property>, name: string) {
    exists i :: 0 <= i < |props| && props[i].name == name
  }

  /** A JavaScript object has each key once. */
  predicate DistinctNames(props: seq<Property>) {
    forall i, j :: 0 <= i < j < |props| ==> props[i].name != props[j].name
  }

  lemma LookupAt(props: seq<Property>, i: nat)
    requires i < |props| && DistinctNames(props)
    ensures Lookup(props, props[i].name) == Some(props[i].schema)
  {
    var r := Lookup(props, props[i].name);
    assert r.Some?;
    var j :| 0 <= j < |props| && props[j] == Property(props[i].name, r.value);
    assert j == i;
  }

  function EnumOf(s: Schema): Option<seq<Json>> {
    if s.enumeration.Some? then s.enumeration
    else if s.constant.Some? then Some([s.constant.value])
    else None
  }

  /** No keyword that makes it more than `{}`. */
  predicate Bare(s: Schema) {
    && s.anyOf.Absent? && s.oneOf.Absent? && s.allOf.Absent? && s.types.Untyped?
    && s.enumeration.None? && s.constant.None? && s.properties.Undeclared? && s.items.None?
    && s.extra.NoExtra?
  }

  // -- size: a measure that rebuilding a variant does not raise ----------------

  function Size(s: Schema): (n: nat)
    ensures n > 0
    decreases s, 1
  {
    1 + (if s.properties.Declared? then PropsSize(s.properties.list) else 0)
    + (if s.items.Some? then Size(s.items.value) else 0)
    + (if s.extra.MapOf? then Size(s.extra.values) else 0)
    + (if s.anyOf.Listed? then ListSize(s.anyOf.list) else 0)
    + (if s.oneOf.Listed? then ListSize(s.oneOf.list) else 0)
    + (if s.allOf.Listed? then ListSize(s.allOf.list) else 0)
  }

  function PropsSize(props: seq<Property>): (n: nat)
    ensures forall i :: 0 <= i < |props| ==> Size(props[i].schema) <= n
    decreases props, 0
  {
    if props == [] then 0
    else
      var rest := PropsSize(props[1..]);
      assert forall i :: 1 <= i < |props| ==> props[i] == props[1..][i - 1];
      Size(props[0].schema) + rest
  }

  function ListSize(ss: seq<Schema>): (n: nat)
    ensures forall i :: 0 <= i < |ss| ==> Size(ss[i]) <= n
    decreases ss, 0
  {
    if ss == [] then 0
    else
      var rest := ListSize(ss[1..]);
      assert forall i :: 1 <= i < |ss| ==> ss[i] == ss[1..][i - 1];
      Size(ss[0]) + rest
  }

  // -- alternatives -------------------------------------------------------------

  /** The disjunctive form: null, anything, or one of the non-null variants. */
  datatype Alts = Alts(nullable: bool, any: bool, variants: seq<Schema>)

  function Without<T(==, !new)>(xs: seq<T>, x: T): (r: seq<T>)
    ensures forall y :: y in r <==> y in xs && y != x
  {
    if xs == [] then [] else (if xs[0] == x then [] else [xs[0]]) + Without(xs[1..], x)
  }

  function Alternatives(s: Schema): (r: Alts)
    ensures forall i :: 0 <= i < |r.variants| ==> Size(r.variants[i]) <= Size(s)
    decreases s, 1
  {
    if Bare(s) then Alts(true, true, [])
    else if s.anyOf.Listed? then UnionOf(s.anyOf.list)
    else if s.oneOf.Listed? then UnionOf(s.oneOf.list)
    else
      match s.types
      case Many(names) =>
        var rest := Without(names, "null");
        if |rest| != 1 then Alts("null" in names, false, seq(|rest|, i requires 0 <= i < |rest| => s.(types := One(rest[i]))))
        else SplitNull("null" in names, s.(types := One(rest[0])))
      case One(name) =>
        if name == "null" then Alts(true, false, []) else SplitNull(false, s)
      case Untyped => SplitNull(false, s)
  }

  function UnionOf(ss: seq<Schema>): (r: Alts)
    ensures forall i :: 0 <= i < |r.variants| ==> Size(r.variants[i]) <= ListSize(ss)
    decreases ss, 0
  {
    if ss == [] then Alts(false, false, [])
    else
      var first := Alternatives(ss[0]);
      var rest := UnionOf(ss[1..]);
      Alts(first.nullable || rest.nullable, first.any || rest.any, first.variants + rest.variants)
  }

  /** Takes `null` out of an enum. */
  function SplitNull(nullable: bool, s: Schema): (r: Alts)
    ensures forall i :: 0 <= i < |r.variants| ==> Size(r.variants[i]) <= Size(s)
  {
    var values := EnumOf(s);
    if values.Some? && Null in values.value then
      var remaining := Without(values.value, Null);
      Alts(true, false, if remaining == [] then [] else [s.(constant := None, enumeration := Some(remaining))])
    else Alts(nullable, false, [s])
  }

  function KindOf(s: Schema): string {
    if s.allOf.Listed? then "allOf"
    else if s.types.One? then s.types.name
    else if s.properties.Declared? || !s.extra.NoExtra? then "object"
    else if s.items.Some? then "array"
    else
      var values := EnumOf(s);
      if values.Some? && values.value != [] then TypeOf(values.value[0]) else "any"
  }

  function SingleValue(s: Option<Schema>): Option<Json> {
    if s.None? then None
    else
      var values := EnumOf(s.value);
      if values.Some? && |values.value| == 1 then Some(values.value[0]) else None
  }
}
