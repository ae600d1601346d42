/**
 * Schemas as an OpenAPI document writes them, what the baseline keeps of them,
 * and what the comparison reads.
 */
module Slimming {
  import opened Schemas
  import J = JsonValues
  import Comparison
  import Pairing

  /** A JSON value whose object keys keep their order. */
  datatype Raw = Null | Bool(b: bool) | Num(n: real) | Str(s: string) | Arr(items: seq<Raw>) | Obj(fields: seq<Field>)

  datatype Field = Field(key: string, value: Raw)

  function Place(fields: seq<Field>, key: string): (i: nat)
    ensures i <= |fields| && (i < |fields| ==> fields[i].key == key)
  {
    if fields == [] || fields[0].key == key then 0 else 1 + Place(fields[1..], key)
  }

  function Get(fields: seq<Field>, key: string): J.Option<Raw> {
    var i := Place(fields, key);
    if i < |fields| then J.Some(fields[i].value) else J.None
  }

  // -- slimming ------------------------------------------------------------------------

  const SCALAR_KEYWORDS := [
    "type", "enum", "const", "required", "pattern", "format", "minLength", "maxLength", "minimum", "maximum",
    "exclusiveMinimum", "exclusiveMaximum", "minItems", "maxItems", "multipleOf"]

  function Kept(fields: seq<Field>, keys: seq<string>): seq<Field> {
    if keys == [] then []
    else (if Get(fields, keys[0]).Some? then [Field(keys[0], Get(fields, keys[0]).value)] else []) + Kept(fields, keys[1..])
  }

  function Slim(r: Raw): Raw
    decreases r, 1
  {
    if !r.Obj? then Obj([])
    else
      Obj(Kept(r.fields, SCALAR_KEYWORDS) + SlimProperties(r) + SlimItems(r) + SlimExtra(r)
          + SlimList(r, "anyOf") + SlimList(r, "oneOf") + SlimList(r, "allOf"))
  }

  function SlimProperties(r: Raw): seq<Field>
    requires r.Obj?
    decreases r, 0
  {
    var i := Place(r.fields, "properties");
    if i < |r.fields| && r.fields[i].value.Obj? then
      var props := r.fields[i].value.fields;
      [Field("properties", Obj(seq(|props|, k requires 0 <= k < |props| => Field(props[k].key, Slim(props[k].value)))))]
    else []
  }

  function SlimItems(r: Raw): seq<Field>
    requires r.Obj?
    decreases r, 0
  {
    var i := Place(r.fields, "items");
    if i < |r.fields| then [Field("items", Slim(r.fields[i].value))] else []
  }

  function SlimExtra(r: Raw): seq<Field>
    requires r.Obj?
    decreases r, 0
  {
    var i := Place(r.fields, "additionalProperties");
    if i == |r.fields| then []
    else
      var extra := r.fields[i].value;
      [Field("additionalProperties", if extra.Bool? then extra else Slim(extra))]
  }

  function SlimList(r: Raw, key: string): seq<Field>
    requires r.Obj?
    decreases r, 0
  {
    var i := Place(r.fields, key);
    if i < |r.fields| && r.fields[i].value.Arr? then
      var list := r.fields[i].value.items;
      [Field(key, Arr(seq(|list|, k requires 0 <= k < |list| => Slim(list[k]))))]
    else []
  }

  // -- what is read --------------------------------------------------------------------------

  function ToJson(r: Raw): J.Json {
    match r
    case Null => J.Null
    case Bool(b) => J.Bool(b)
    case Num(n) => J.Num(n)
    case Str(s) => J.Str(s)
    case Arr(items) => J.Arr(seq(|items|, k requires 0 <= k < |items| => ToJson(items[k])))
    case Obj(fields) => J.Obj(ToFields(fields))
  }

  function ToFields(fields: seq<Field>): map<string, J.Json> {
    if fields == [] then map[] else ToFields(fields[1..])[fields[0].key := ToJson(fields[0].value)]
  }

  function Texts(items: seq<Raw>): seq<string> {
    if items == [] then [] else (if items[0].Str? then [items[0].s] else []) + Texts(items[1..])
  }

  function TypesIn(o: J.Option<Raw>): Types {
    if o.Some? && o.value.Str? then One(o.value.s)
    else if o.Some? && o.value.Arr? then Many(Texts(o.value.items))
    else Untyped
  }

  function Int(o: J.Option<Raw>): J.Option<int> {
    if o.Some? && o.value.Num? then J.Some(o.value.n.Floor) else J.None
  }

  function Real(o: J.Option<Raw>): J.Option<real> {
    if o.Some? && o.value.Num? then J.Some(o.value.n) else J.None
  }

  function TextIn(o: J.Option<Raw>): J.Option<string> {
    if o.Some? && o.value.Str? then J.Some(o.value.s) else J.None
  }

  function LimitsIn(f: seq<Field>): Limits {
    Limits(Int(Get(f, "minLength")), Int(Get(f, "maxLength")), Int(Get(f, "minItems")), Int(Get(f, "maxItems")),
           Real(Get(f, "minimum")), Real(Get(f, "exclusiveMinimum")), Real(Get(f, "maximum")), Real(Get(f, "exclusiveMaximum")),
           TextIn(Get(f, "pattern")), TextIn(Get(f, "format")), Real(Get(f, "multipleOf")))
  }

  function Values(o: J.Option<Raw>): J.Option<seq<J.Json>> {
    if o.Some? && o.value.Arr?
    then J.Some(seq(|o.value.items|, k requires 0 <= k < |o.value.items| => ToJson(o.value.items[k])))
    else J.None
  }

  predicate AllTexts(o: J.Option<Raw>) {
    o.Some? ==> o.value.Arr? && forall i :: 0 <= i < |o.value.items| ==> o.value.items[i].Str?
  }

  predicate Number(o: J.Option<Raw>) {
    o.Some? ==> o.value.Num?
  }

  predicate Count(o: J.Option<Raw>) {
    o.Some? ==> o.value.Num? && J.Integral(o.value.n)
  }

  predicate IsText(o: J.Option<Raw>) {
    o.Some? ==> o.value.Str?
  }

  /** The keywords that hold no schema have the types JSON Schema gives them. */
  predicate TypedKeywords(f: seq<Field>) {
    && (IsText(Get(f, "type")) || AllTexts(Get(f, "type")))
    && (Get(f, "enum").Some? ==> Get(f, "enum").value.Arr?) && AllTexts(Get(f, "required"))
    && Count(Get(f, "minLength")) && Count(Get(f, "maxLength")) && Count(Get(f, "minItems")) && Count(Get(f, "maxItems"))
    && Number(Get(f, "minimum")) && Number(Get(f, "exclusiveMinimum"))
    && Number(Get(f, "maximum")) && Number(Get(f, "exclusiveMaximum")) && Number(Get(f, "multipleOf"))
    && IsText(Get(f, "pattern")) && IsText(Get(f, "format"))
  }

  /**
   * Every keyword has its type, and every sub-schema is an object: JSON Schema
   * also has the schemas `true` and `false`, which the comparison tells from
   * `{}` in some places and cannot read in others.
   */
  predicate Proper(r: Raw)
    decreases r, 1
  {
    && r.Obj? && TypedKeywords(r.fields)
    && ProperProperties(r) && ProperItems(r) && ProperExtra(r)
    && ProperList(r, "anyOf") && ProperList(r, "oneOf") && ProperList(r, "allOf")
  }

  predicate ProperProperties(r: Raw)
    requires r.Obj?
    decreases r, 0
  {
    var i := Place(r.fields, "properties");
    i < |r.fields| ==>
      && r.fields[i].value.Obj?
      && forall k :: 0 <= k < |r.fields[i].value.fields| ==> Proper(r.fields[i].value.fields[k].value)
  }

  predicate ProperItems(r: Raw)
    requires r.Obj?
    decreases r, 0
  {
    var i := Place(r.fields, "items");
    i < |r.fields| ==> Proper(r.fields[i].value)
  }

  predicate ProperExtra(r: Raw)
    requires r.Obj?
    decreases r, 0
  {
    var i := Place(r.fields, "additionalProperties");
    i < |r.fields| ==> r.fields[i].value.Bool? || Proper(r.fields[i].value)
  }

  predicate ProperList(r: Raw, key: string)
    requires r.Obj?
    decreases r, 0
  {
    var i := Place(r.fields, key);
    i < |r.fields| ==>
      && r.fields[i].value.Arr?
      && forall k :: 0 <= k < |r.fields[i].value.items| ==> Proper(r.fields[i].value.items[k])
  }

  /** The schema the comparison sees. */
  function Read(r: Raw): Schema
    requires Proper(r)
    decreases r, 1
  {
    Schema(
      TypesIn(Get(r.fields, "type")),
      Values(Get(r.fields, "enum")),
      if Get(r.fields, "const").Some? then J.Some(ToJson(Get(r.fields, "const").value)) else J.None,
      LimitsIn(r.fields),
      ReadProperties(r),
      if Get(r.fields, "required").Some? && Get(r.fields, "required").value.Arr?
      then Texts(Get(r.fields, "required").value.items) else [],
      ReadItems(r),
      ReadExtra(r),
      ReadList(r, "anyOf"), ReadList(r, "oneOf"), ReadList(r, "allOf"))
  }

  function ReadProperties(r: Raw): Properties
    requires r.Obj? && ProperProperties(r)
    decreases r, 0
  {
    var i := Place(r.fields, "properties");
    if i < |r.fields| then
      var props := r.fields[i].value.fields;
      Declared(seq(|props|, k requires 0 <= k < |props| => Property(props[k].key, Read(props[k].value))))
    else Undeclared
  }

  function ReadItems(r: Raw): J.Option<Schema>
    requires r.Obj? && ProperItems(r)
    decreases r, 0
  {
    var i := Place(r.fields, "items");
    if i < |r.fields| then J.Some(Read(r.fields[i].value)) else J.None
  }

  function ReadExtra(r: Raw): Extra
    requires r.Obj? && ProperExtra(r)
    decreases r, 0
  {
    var i := Place(r.fields, "additionalProperties");
    if i == |r.fields| then NoExtra
    else
      var extra := r.fields[i].value;
      if extra.Bool? then AnyExtra(extra.b) else MapOf(Read(extra))
  }

  function ReadList(r: Raw, key: string): Branches
    requires r.Obj? && ProperList(r, key)
    decreases r, 0
  {
    var i := Place(r.fields, key);
    if i < |r.fields| then
      var list := r.fields[i].value.items;
      Listed(seq(|list|, k requires 0 <= k < |list| => Read(list[k])))
    else Absent
  }

  // -- slimming is invisible ------------------------------------------------------------------

  lemma {:induction false} GetJoined(a: seq<Field>, b: seq<Field>, key: string)
    ensures Get(a + b, key) == if Get(a, key).Some? then Get(a, key) else Get(b, key)
  {
    if a == [] {
      assert a + b == b;
    } else {
      assert (a + b)[1..] == a[1..] + b;
      GetJoined(a[1..], b, key);
    }
  }

  lemma {:induction false} GetKept(fields: seq<Field>, keys: seq<string>, key: string)
    ensures Get(Kept(fields, keys), key) == if key in keys then Get(fields, key) else J.None
  {
    if keys != [] {
      GetKept(fields, keys[1..], key);
      var first := if Get(fields, keys[0]).Some? then [Field(keys[0], Get(fields, keys[0]).value)] else [];
      GetJoined(first, Kept(fields, keys[1..]), key);
    }
  }

  predicate OnlyKey(fields: seq<Field>, key: string) {
    |fields| <= 1 && forall i :: 0 <= i < |fields| ==> fields[i].key == key
  }

  lemma GetOnly(fields: seq<Field>, own: string, key: string)
    requires OnlyKey(fields, own)
    ensures Get(fields, key) == if key == own && fields != [] then J.Some(fields[0].value) else J.None
  {
  }

  /** What a slim schema holds under each keyword. */
  lemma GetSlim(r: Raw, key: string)
    requires r.Obj?
    ensures key in SCALAR_KEYWORDS ==> Get(Slim(r).fields, key) == Get(r.fields, key)
    ensures key == "properties" ==> Get(Slim(r).fields, key) == Get(SlimProperties(r), key)
    ensures key == "items" ==> Get(Slim(r).fields, key) == Get(SlimItems(r), key)
    ensures key == "additionalProperties" ==> Get(Slim(r).fields, key) == Get(SlimExtra(r), key)
    ensures key == "anyOf" || key == "oneOf" || key == "allOf" ==> Get(Slim(r).fields, key) == Get(SlimList(r, key), key)
  {
    hide Get, SlimProperties, SlimItems, SlimExtra, SlimList, Kept;
    var a, b, c, d := Kept(r.fields, SCALAR_KEYWORDS), SlimProperties(r), SlimItems(r), SlimExtra(r);
    var e, f, g := SlimList(r, "anyOf"), SlimList(r, "oneOf"), SlimList(r, "allOf");
    GetJoined(a + b + c + d + e + f, g, key);
    GetJoined(a + b + c + d + e, f, key);
    GetJoined(a + b + c + d, e, key);
    GetJoined(a + b + c, d, key);
    GetJoined(a + b, c, key);
    GetJoined(a, b, key);
    GetKept(r.fields, SCALAR_KEYWORDS, key);
    SlimParts(r);
    GetOnly(b, "properties", key);
    GetOnly(c, "items", key);
    GetOnly(d, "additionalProperties", key);
    GetOnly(e, "anyOf", key);
    GetOnly(f, "oneOf", key);
    GetOnly(g, "allOf", key);
  }

  lemma SlimParts(r: Raw)
    requires r.Obj?
    ensures OnlyKey(SlimProperties(r), "properties") && OnlyKey(SlimItems(r), "items")
    ensures OnlyKey(SlimExtra(r), "additionalProperties")
    ensures forall key :: OnlyKey(SlimList(r, key), key)
  {
  }

  lemma SlimIsObject(r: Raw)
    ensures Slim(r).Obj?
  {
  }

  predicate SameUnder(a: seq<Field>, b: seq<Field>, keys: seq<string>) {
    forall i :: 0 <= i < |keys| ==> Get(a, keys[i]) == Get(b, keys[i])
  }

  lemma {:induction false} ScalarsRead(r: Raw)
    requires r.Obj?
    ensures Slim(r).Obj? && SameUnder(Slim(r).fields, r.fields, SCALAR_KEYWORDS)
  {
    hide Get, Slim;
    SlimIsObject(r);
    forall i | 0 <= i < |SCALAR_KEYWORDS| ensures Get(Slim(r).fields, SCALAR_KEYWORDS[i]) == Get(r.fields, SCALAR_KEYWORDS[i]) {
      GetSlim(r, SCALAR_KEYWORDS[i]);
    }
  }

  lemma {:induction false} KeptSame(a: seq<Field>, b: seq<Field>, keys: seq<string>)
    requires SameUnder(a, b, keys)
    ensures Kept(a, keys) == Kept(b, keys)
  {
    if keys != [] { KeptSame(a, b, keys[1..]); }
  }

  lemma Under(a: seq<Field>, b: seq<Field>, i: nat, key: string)
    requires SameUnder(a, b, SCALAR_KEYWORDS) && i < |SCALAR_KEYWORDS| && SCALAR_KEYWORDS[i] == key
    ensures Get(a, key) == Get(b, key)
  {
    hide Get;
  }

  lemma SameLimits(a: seq<Field>, b: seq<Field>)
    requires SameUnder(a, b, SCALAR_KEYWORDS)
    ensures LimitsIn(a) == LimitsIn(b)
  {
    hide Get, Int, Real, TextIn, SameUnder;
    Under(a, b, 4, "pattern");
    Under(a, b, 5, "format");
    Under(a, b, 6, "minLength");
    Under(a, b, 7, "maxLength");
    Under(a, b, 8, "minimum");
    Under(a, b, 9, "maximum");
    Under(a, b, 10, "exclusiveMinimum");
    Under(a, b, 11, "exclusiveMaximum");
    Under(a, b, 12, "minItems");
    Under(a, b, 13, "maxItems");
    Under(a, b, 14, "multipleOf");
  }

  // -- slimming twice ---------------------------------------------------------------------------

  lemma {:induction false} PropertiesTwice(r: Raw)
    requires r.Obj?
    ensures Slim(r).Obj? && SlimProperties(Slim(r)) == SlimProperties(r)
    decreases r, 0, 0
  {
    hide Slim;
    GetSlim(r, "properties");
    SlimIsObject(r);
    var i := Place(r.fields, "properties");
    if i < |r.fields| && r.fields[i].value.Obj? {
      var props := r.fields[i].value.fields;
      forall k | 0 <= k < |props| ensures Slim(Slim(props[k].value)) == Slim(props[k].value) { SlimTwice(props[k].value); }
      assert SlimProperties(Slim(r))[0].value.fields == SlimProperties(r)[0].value.fields;
    }
  }

  lemma {:induction false} ItemsTwice(r: Raw)
    requires r.Obj?
    ensures Slim(r).Obj? && SlimItems(Slim(r)) == SlimItems(r)
    decreases r, 0, 0
  {
    hide Slim;
    GetSlim(r, "items");
    SlimIsObject(r);
    var i := Place(r.fields, "items");
    if i < |r.fields| { SlimTwice(r.fields[i].value); }
  }

  lemma {:induction false} ExtraTwice(r: Raw)
    requires r.Obj?
    ensures Slim(r).Obj? && SlimExtra(Slim(r)) == SlimExtra(r)
    decreases r, 0, 0
  {
    hide Slim;
    GetSlim(r, "additionalProperties");
    SlimIsObject(r);
    var i := Place(r.fields, "additionalProperties");
    if i < |r.fields| {
      SlimIsObject(r.fields[i].value);
      SlimTwice(r.fields[i].value);
    }
  }

  lemma {:induction false} ListTwice(r: Raw, key: string)
    requires r.Obj? && (key == "anyOf" || key == "oneOf" || key == "allOf")
    ensures Slim(r).Obj? && SlimList(Slim(r), key) == SlimList(r, key)
    decreases r, 0, 0
  {
    hide Slim;
    GetSlim(r, key);
    SlimIsObject(r);
    var i := Place(r.fields, key);
    if i < |r.fields| && r.fields[i].value.Arr? {
      var list := r.fields[i].value.items;
      forall k | 0 <= k < |list| ensures Slim(Slim(list[k])) == Slim(list[k]) { SlimTwice(list[k]); }
      assert SlimList(Slim(r), key)[0].value.items == SlimList(r, key)[0].value.items;
    }
  }

  /** Slimming again changes nothing, whatever the value. */
  lemma {:induction false} SlimTwice(r: Raw)
    ensures Slim(Slim(r)) == Slim(r)
    decreases r, 1
  {
    hide Slim, SlimProperties, SlimItems, SlimExtra, SlimList, SameUnder;
    SlimIsObject(r);
    if r.Obj? {
      ScalarsRead(r);
      PropertiesTwice(r);
      ItemsTwice(r);
      ExtraTwice(r);
      ListTwice(r, "anyOf");
      ListTwice(r, "oneOf");
      ListTwice(r, "allOf");
      SameSlim(Slim(r), r);
    } else {
      NotAnObject(r);
    }
  }

  lemma {:induction false} SameSlim(t: Raw, r: Raw)
    requires t.Obj? && r.Obj? && SameUnder(t.fields, r.fields, SCALAR_KEYWORDS)
    requires SlimProperties(t) == SlimProperties(r) && SlimItems(t) == SlimItems(r) && SlimExtra(t) == SlimExtra(r)
    requires SlimList(t, "anyOf") == SlimList(r, "anyOf") && SlimList(t, "oneOf") == SlimList(r, "oneOf")
    requires SlimList(t, "allOf") == SlimList(r, "allOf")
    ensures Slim(t) == Slim(r)
  {
    hide Get, Place, SlimProperties, SlimItems, SlimExtra, SlimList, Kept;
    KeptSame(t.fields, r.fields, SCALAR_KEYWORDS);
  }

  lemma {:induction false} KeptNothing(keys: seq<string>)
    ensures Kept([], keys) == []
  {
    if keys != [] { KeptNothing(keys[1..]); }
  }

  lemma NothingHeld(key: string)
    ensures SlimProperties(Obj([])) == [] && SlimItems(Obj([])) == [] && SlimExtra(Obj([])) == []
    ensures SlimList(Obj([]), key) == []
  {
  }

  lemma {:induction false} NotAnObject(r: Raw)
    requires !r.Obj?
    ensures Slim(r) == Obj([]) && Slim(Obj([])) == Obj([])
  {
    hide Get, Place, Kept, SlimProperties, SlimItems, SlimExtra, SlimList;
    KeptNothing(SCALAR_KEYWORDS);
    NothingHeld("anyOf");
    NothingHeld("oneOf");
    NothingHeld("allOf");
  }

  // -- slimming keeps what is read ------------------------------------------------------------------

  lemma {:induction false} PropertiesRead(r: Raw)
    requires r.Obj? && ProperProperties(r)
    ensures Slim(r).Obj? && ProperProperties(Slim(r)) && ReadProperties(Slim(r)) == ReadProperties(r)
    decreases r, 0, 0
  {
    hide Slim, Read, Proper;
    GetSlim(r, "properties");
    SlimIsObject(r);
    var i := Place(r.fields, "properties");
    if i < |r.fields| {
      var props := r.fields[i].value.fields;
      forall k | 0 <= k < |props| ensures Proper(Slim(props[k].value)) && Read(Slim(props[k].value)) == Read(props[k].value) {
        SlimReads(props[k].value);
      }
    }
  }

  lemma {:induction false} ItemsRead(r: Raw)
    requires r.Obj? && ProperItems(r)
    ensures Slim(r).Obj? && ProperItems(Slim(r)) && ReadItems(Slim(r)) == ReadItems(r)
    decreases r, 0, 0
  {
    hide Slim, Read, Proper;
    GetSlim(r, "items");
    SlimIsObject(r);
    var i := Place(r.fields, "items");
    if i < |r.fields| { SlimReads(r.fields[i].value); }
  }

  lemma {:induction false} ExtraRead(r: Raw)
    requires r.Obj? && ProperExtra(r)
    ensures Slim(r).Obj? && ProperExtra(Slim(r)) && ReadExtra(Slim(r)) == ReadExtra(r)
    decreases r, 0, 0
  {
    hide Slim, Read, Proper;
    GetSlim(r, "additionalProperties");
    SlimIsObject(r);
    var i := Place(r.fields, "additionalProperties");
    if i < |r.fields| && !r.fields[i].value.Bool? {
      SlimIsObject(r.fields[i].value);
      SlimReads(r.fields[i].value);
    }
  }

  lemma {:induction false} ListRead(r: Raw, key: string)
    requires r.Obj? && (key == "anyOf" || key == "oneOf" || key == "allOf") && ProperList(r, key)
    ensures Slim(r).Obj? && ProperList(Slim(r), key) && ReadList(Slim(r), key) == ReadList(r, key)
    decreases r, 0, 0
  {
    hide Slim, Read, Proper;
    GetSlim(r, key);
    SlimIsObject(r);
    var i := Place(r.fields, key);
    if i < |r.fields| {
      var list := r.fields[i].value.items;
      forall k | 0 <= k < |list| ensures Proper(Slim(list[k])) && Read(Slim(list[k])) == Read(list[k]) { SlimReads(list[k]); }
    }
  }

  lemma SameTyped(a: seq<Field>, b: seq<Field>)
    requires SameUnder(a, b, SCALAR_KEYWORDS) && TypedKeywords(b)
    ensures TypedKeywords(a)
  {
    hide Get, AllTexts, Number, Count, IsText, SameUnder;
    Under(a, b, 0, "type");
    Under(a, b, 1, "enum");
    Under(a, b, 3, "required");
    Under(a, b, 4, "pattern");
    Under(a, b, 5, "format");
    Under(a, b, 6, "minLength");
    Under(a, b, 7, "maxLength");
    Under(a, b, 8, "minimum");
    Under(a, b, 9, "maximum");
    Under(a, b, 10, "exclusiveMinimum");
    Under(a, b, 11, "exclusiveMaximum");
    Under(a, b, 12, "minItems");
    Under(a, b, 13, "maxItems");
    Under(a, b, 14, "multipleOf");
  }

  lemma {:induction false} SameRead(t: Raw, r: Raw)
    requires Proper(t) && Proper(r) && SameUnder(t.fields, r.fields, SCALAR_KEYWORDS)
    requires ReadProperties(t) == ReadProperties(r) && ReadItems(t) == ReadItems(r) && ReadExtra(t) == ReadExtra(r)
    requires ReadList(t, "anyOf") == ReadList(r, "anyOf") && ReadList(t, "oneOf") == ReadList(r, "oneOf")
    requires ReadList(t, "allOf") == ReadList(r, "allOf")
    ensures Read(t) == Read(r)
  {
    hide Get, Place, ReadProperties, ReadItems, ReadExtra, ReadList, TypesIn, Values, LimitsIn, ToJson, Texts, SameUnder;
    hide TypedKeywords, ProperProperties, ProperItems, ProperExtra, ProperList;
    SameLimits(t.fields, r.fields);
    Under(t.fields, r.fields, 0, "type");
    Under(t.fields, r.fields, 1, "enum");
    Under(t.fields, r.fields, 2, "const");
    Under(t.fields, r.fields, 3, "required");
  }

  /** Slimming keeps every keyword the comparison reads, at every depth. */
  lemma {:induction false} SlimReads(r: Raw)
    requires Proper(r)
    ensures Proper(Slim(r)) && Read(Slim(r)) == Read(r)
    decreases r, 1
  {
    hide Slim, Read, ReadProperties, ReadItems, ReadExtra, ReadList, TypedKeywords, SameUnder;
    hide ProperProperties, ProperItems, ProperExtra, ProperList;
    ScalarsRead(r);
    SameTyped(Slim(r).fields, r.fields);
    PropertiesRead(r);
    ItemsRead(r);
    ExtraRead(r);
    ListRead(r, "anyOf");
    ListRead(r, "oneOf");
    ListRead(r, "allOf");
    SameRead(Slim(r), r);
  }

  /**
   * Where every sub-schema is an object, comparing what the baseline stores
   * gives the changes that comparing the documents gives.
   */
  lemma SlimmingIsInvisible(dir: Pairing.Direction, before: Raw, after: Raw, op: string, at: string)
    requires Proper(before) && Proper(after)
    ensures Proper(Slim(before)) && Proper(Slim(after))
    ensures Comparison.Compare(dir, Read(Slim(before)), Read(Slim(after)), op, at)
      == Comparison.Compare(dir, Read(before), Read(after), op, at)
  {
    hide Comparison.Compare, Read, Slim, Proper;
    SlimReads(before);
    SlimReads(after);
  }

  // -- nothing else is kept ---------------------------------------------------------------------

  /** The keywords that are kept as they are written. */
  const PLAIN_KEYWORDS := {
    "type", "enum", "const", "required", "pattern", "format", "minLength", "maxLength", "minItems", "maxItems",
    "minimum", "maximum", "exclusiveMinimum", "exclusiveMaximum", "multipleOf"}

  /** Every keyword, at every depth, is one the comparison reads. */
  predicate Lean(r: Raw)
    decreases r
  {
    r.Obj? && forall i :: 0 <= i < |r.fields| ==> LeanField(r.fields[i])
  }

  predicate LeanField(f: Field)
    decreases f
  {
    || f.key in PLAIN_KEYWORDS
    || (f.key == "properties" && f.value.Obj? && forall k :: 0 <= k < |f.value.fields| ==> Lean(f.value.fields[k].value))
    || (f.key == "items" && Lean(f.value))
    || (f.key == "additionalProperties" && (f.value.Bool? || Lean(f.value)))
    || ((f.key == "anyOf" || f.key == "oneOf" || f.key == "allOf") && f.value.Arr?
        && forall k :: 0 <= k < |f.value.items| ==> Lean(f.value.items[k]))
  }

  lemma PlainIsScalar(key: string)
    ensures key in SCALAR_KEYWORDS <==> key in PLAIN_KEYWORDS
  {
  }

  lemma {:induction false} KeptIsPlain(fields: seq<Field>, keys: seq<string>)
    requires forall key :: key in keys ==> key in SCALAR_KEYWORDS
    ensures forall f :: f in Kept(fields, keys) ==> LeanField(f)
    decreases keys
  {
    hide SCALAR_KEYWORDS, PLAIN_KEYWORDS;
    if keys != [] {
      PlainIsScalar(keys[0]);
      KeptIsPlain(fields, keys[1..]);
    }
  }

  lemma {:induction false} PropertiesAreLean(r: Raw)
    requires r.Obj?
    ensures forall f :: f in SlimProperties(r) ==> LeanField(f)
    decreases r, 0
  {
    hide PLAIN_KEYWORDS;
    var i := Place(r.fields, "properties");
    if i < |r.fields| && r.fields[i].value.Obj? {
      var props := r.fields[i].value.fields;
      forall k | 0 <= k < |props| ensures Lean(Slim(props[k].value)) { SlimIsLean(props[k].value); }
    }
  }

  lemma {:induction false} ListIsLean(r: Raw, key: string)
    requires r.Obj? && (key == "anyOf" || key == "oneOf" || key == "allOf")
    ensures forall f :: f in SlimList(r, key) ==> LeanField(f)
    decreases r, 0
  {
    hide PLAIN_KEYWORDS;
    var i := Place(r.fields, key);
    if i < |r.fields| && r.fields[i].value.Arr? {
      var list := r.fields[i].value.items;
      forall k | 0 <= k < |list| ensures Lean(Slim(list[k])) { SlimIsLean(list[k]); }
    }
  }

  lemma {:induction false} OneIsLean(r: Raw)
    requires r.Obj?
    ensures forall f :: f in SlimItems(r) ==> LeanField(f)
    ensures forall f :: f in SlimExtra(r) ==> LeanField(f)
    decreases r, 0
  {
    hide PLAIN_KEYWORDS;
    var i, j := Place(r.fields, "items"), Place(r.fields, "additionalProperties");
    if i < |r.fields| { SlimIsLean(r.fields[i].value); }
    if j < |r.fields| { SlimIsLean(r.fields[j].value); }
  }

  /** Slimming leaves nothing the comparison does not read, at any depth. */
  lemma {:induction false} SlimIsLean(r: Raw)
    ensures Lean(Slim(r))
    decreases r, 1
  {
    if r.Obj? {
      hide LeanField, Kept, SlimProperties, SlimItems, SlimExtra, SlimList, SCALAR_KEYWORDS;
      KeptIsPlain(r.fields, SCALAR_KEYWORDS);
      PropertiesAreLean(r);
      OneIsLean(r);
      ListIsLean(r, "anyOf");
      ListIsLean(r, "oneOf");
      ListIsLean(r, "allOf");
      forall i | 0 <= i < |Slim(r).fields| ensures LeanField(Slim(r).fields[i]) {
        assert Slim(r).fields[i] in Slim(r).fields;
      }
    }
  }
}
