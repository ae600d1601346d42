/**
 * Sub-schemas that are not objects: JSON Schema has `true` and `false`. What
 * the comparison does where it finds one, and that slimming, which puts `{}`
 * in their place, shows.
 */
module BooleanSchemas {
  import opened Schemas
  import opened Slimming
  import opened Pairing
  import opened Comparison
  import J = JsonValues

  /** A comparison can also fail: `in` throws on anything but an object or an array. */
  datatype Outcome = Reports(changes: seq<Change>) | TypeError

  predicate Falsy(r: Raw) {
    r.Null? || r == Bool(false) || r == Num(0.0) || r == Str("")
  }

  predicate Known(r: Raw) {
    r.Obj? ==> Proper(r)
  }

  /** An array has none of the keywords, so it reads as `{}`. */
  function Held(r: Raw): Schema
    requires Known(r)
  {
    if r.Obj? then Read(r) else ANY
  }

  function CompareHeld(dir: Direction, a: Raw, b: Raw, op: string, at: string): Outcome
    requires Known(a) && Known(b)
  {
    if (a.Obj? || a.Arr?) && (b.Obj? || b.Arr?) then Reports(Compare(dir, Held(a), Held(b), op, at)) else TypeError
  }

  /** The items of two arrays, as `compareVariant` takes them. */
  function ItemsStep(dir: Direction, a: Raw, b: Raw, op: string, at: string): Outcome
    requires a.Obj? && b.Obj? && ItemsKnown(a) && ItemsKnown(b)
  {
    var x, y := Get(a.fields, "items"), Get(b.fields, "items");
    if x.None? || !x.value.Obj? then Reports([])
    else if y.None? || y.value.Null? then Reports(Compare(dir, Held(x.value), ANY, op, at + "[]"))
    else CompareHeld(dir, x.value, y.value, op, at + "[]")
  }

  predicate ItemsKnown(r: Raw)
    requires r.Obj?
  {
    Get(r.fields, "items").Some? ==> Known(Get(r.fields, "items").value)
  }

  function Props(r: Raw): seq<Field>
    requires r.Obj?
  {
    var props := Get(r.fields, "properties");
    if props.Some? && props.value.Obj? then props.value.fields else []
  }

  predicate PropsKnown(r: Raw)
    requires r.Obj?
  {
    forall k :: 0 <= k < |Props(r)| ==> Known(Props(r)[k].value)
  }

  function RequiredIn(r: Raw): seq<string>
    requires r.Obj?
  {
    var names := Get(r.fields, "required");
    if names.Some? && names.value.Arr? then Texts(names.value.items) else []
  }

  /** One property of `a` against `b`, as `compareObjects` takes it: a falsy one counts as removed. */
  function PropertyStep(dir: Direction, a: Raw, b: Raw, i: nat, op: string, at: string): Outcome
    requires a.Obj? && b.Obj? && PropsKnown(a) && PropsKnown(b) && i < |Props(a)|
  {
    var p := Props(a)[i];
    var where := at + "." + p.key;
    var now := Get(Props(b), p.key);
    if now.None? || Falsy(now.value) then Reports([Change(Breaking, op, where)])
    else
      match CompareHeld(dir, p.value, now.value, op, where)
      case TypeError => TypeError
      case Reports(changes) =>
        Reports(When(dir.Response? && p.key in RequiredIn(a) && p.key !in RequiredIn(b), Breaking, op, where)
                + When(dir.Request? && p.key !in RequiredIn(a) && p.key in RequiredIn(b), Breaking, op, where)
                + changes)
  }

  // -- on objects the tests answer as the schema read -------------------------------------------

  lemma ProperItem(r: Raw)
    requires Proper(r)
    ensures r.Obj? && ItemsKnown(r)
    ensures Get(r.fields, "items").Some? ==>
      Get(r.fields, "items").value.Obj? && Read(r).items == J.Some(Read(Get(r.fields, "items").value))
    ensures Get(r.fields, "items").None? ==> Read(r).items == J.None
  {
    hide TypedKeywords, LimitsIn;
    assert ReadItems(r) == Read(r).items;
  }

  /** Where every sub-schema is an object, items are compared as `Compare` has it. */
  lemma ItemsAsRead(dir: Direction, a: Raw, b: Raw, op: string, at: string)
    requires Proper(a) && Proper(b)
    ensures ItemsKnown(a) && ItemsKnown(b)
    ensures ItemsStep(dir, a, b, op, at) ==
      Reports(if Read(a).items.Some? then Compare(dir, Read(a).items.value, OrAny(Read(b).items), op, at + "[]") else [])
  {
    hide Compare, Read, Proper;
    ProperItem(a);
    ProperItem(b);
  }

  lemma ProperProps(r: Raw)
    requires Proper(r)
    ensures r.Obj? && PropsKnown(r) && |PropertiesOf(Read(r))| == |Props(r)|
    ensures forall k :: 0 <= k < |Props(r)| ==>
      Props(r)[k].value.Obj? && PropertiesOf(Read(r))[k] == Property(Props(r)[k].key, Read(Props(r)[k].value))
    ensures Read(r).required == RequiredIn(r)
  {
    hide TypedKeywords, LimitsIn;
    assert ReadProperties(r) == Read(r).properties;
  }

  lemma {:induction false} LookupIsGet(props: seq<Property>, fields: seq<Field>, key: string)
    requires |props| == |fields| && forall k :: 0 <= k < |props| ==> props[k].name == fields[k].key
    ensures var i := Place(fields, key);
      Lookup(props, key) == if i < |fields| then J.Some(props[i].schema) else J.None
  {
    if props != [] && fields[0].key != key { LookupIsGet(props[1..], fields[1..], key); }
  }

  /** Where every sub-schema is an object, properties are compared as `PropertyChange` has it. */
  lemma PropertyAsRead(dir: Direction, a: Raw, b: Raw, i: nat, op: string, at: string)
    requires Proper(a) && Proper(b) && i < |Props(a)|
    ensures PropsKnown(a) && PropsKnown(b) && |PropertiesOf(Read(a))| == |Props(a)|
    ensures PropertyStep(dir, a, b, i, op, at) == Reports(PropertyChange(dir, Read(a), Read(b), i, op, at))
  {
    hide Compare, Read, Proper, Lookup, Props, RequiredIn;
    ProperProps(a);
    ProperProps(b);
    LookupIsGet(PropertiesOf(Read(b)), Props(b), Props(a)[i].key);
  }

  // -- where one is not, slimming shows -----------------------------------------------------------

  lemma SlimFlag(b: bool)
    ensures Slim(Bool(b)) == Obj([]) && Proper(Obj([])) && Read(Obj([])) == ANY
  {
    hide Slim;
    NotAnObject(Bool(b));
    EmptyIsProper();
  }

  lemma EmptyIsProper()
    ensures Proper(Obj([])) && Read(Obj([])) == ANY
  {
    hide TypedKeywords, LimitsIn;
    assert TypedKeywords([]) && LimitsIn([]) == NO_LIMITS by { EmptyIsTyped(); }
  }

  lemma EmptyIsTyped()
    ensures TypedKeywords([]) && LimitsIn([]) == NO_LIMITS
  {
  }

  lemma SlimItem(r: Raw)
    requires r.Obj? && Get(r.fields, "items").Some?
    ensures Slim(r).Obj? && Get(Slim(r).fields, "items") == J.Some(Slim(Get(r.fields, "items").value))
  {
    hide Slim;
    GetSlim(r, "items");
    SlimIsObject(r);
  }

  lemma SlimProps(r: Raw)
    requires r.Obj?
    ensures Slim(r).Obj? && |Props(Slim(r))| == |Props(r)|
    ensures forall k :: 0 <= k < |Props(r)| ==> Props(Slim(r))[k] == Field(Props(r)[k].key, Slim(Props(r)[k].value))
  {
    hide Slim;
    GetSlim(r, "properties");
    SlimIsObject(r);
  }

  lemma AnyNarrowed(s: Schema, op: string, at: string)
    requires !Alternatives(s).any
    ensures Compare(Request, ANY, s, op, at) == [Change(Breaking, op, at)]
  {
  }

  lemma AnyWidened(s: Schema, op: string, at: string)
    ensures Compare(Request, s, ANY, op, at) == []
  {
  }

  lemma ProperIsObject(r: Raw)
    requires Proper(r)
    ensures r.Obj?
  {
  }

  predicate ItemsAre(r: Raw, items: Raw) {
    r.Obj? && Get(r.fields, "items") == J.Some(items)
  }

  lemma ItemsStepOf(dir: Direction, a: Raw, b: Raw, x: Raw, y: Raw, op: string, at: string)
    requires ItemsAre(a, x) && ItemsAre(b, y) && Known(x) && Known(y) && !y.Null?
    ensures ItemsKnown(a) && ItemsKnown(b)
    ensures ItemsStep(dir, a, b, op, at) == if x.Obj? then CompareHeld(dir, x, y, op, at + "[]") else Reports([])
  {
    hide CompareHeld, Proper, Known;
  }

  /**
   * Old items `true`: the documents' own comparison leaves the new items
   * alone, the comparison of the slim forms reports them as narrowed.
   */
  lemma ItemsTrueShows(a: Raw, b: Raw, s: Raw, op: string, at: string)
    requires ItemsAre(a, Bool(true)) && ItemsAre(b, s) && Proper(s) && !Alternatives(Read(s)).any
    ensures ItemsKnown(a) && ItemsKnown(b) && ItemsStep(Request, a, b, op, at) == Reports([])
    ensures Slim(a).Obj? && Slim(b).Obj? && ItemsKnown(Slim(a)) && ItemsKnown(Slim(b))
    ensures ItemsStep(Request, Slim(a), Slim(b), op, at) == Reports([Change(Breaking, op, at + "[]")])
  {
    hide Slim, Read, Proper, Compare, ItemsStep, Get, ItemsKnown;
    ProperIsObject(s);
    ItemsStepOf(Request, a, b, Bool(true), s, op, at);
    SlimItem(a);
    SlimItem(b);
    SlimFlag(true);
    SlimReads(s);
    SlimIsObject(s);
    ItemsStepOf(Request, Slim(a), Slim(b), Obj([]), Slim(s), op, at);
    AnyNarrowed(Read(s), op, at + "[]");
  }

  /** New items `true`: the documents' own comparison throws, that of the slim forms does not. */
  lemma NewItemsTrueThrows(dir: Direction, a: Raw, b: Raw, s: Raw, op: string, at: string)
    requires ItemsAre(a, s) && ItemsAre(b, Bool(true)) && Proper(s)
    ensures ItemsKnown(a) && ItemsKnown(b) && ItemsStep(dir, a, b, op, at) == TypeError
    ensures Slim(a).Obj? && Slim(b).Obj? && ItemsKnown(Slim(a)) && ItemsKnown(Slim(b))
    ensures ItemsStep(dir, Slim(a), Slim(b), op, at).Reports?
  {
    hide Slim, Read, Compare, ItemsStep, Get, ItemsKnown;
    ItemsStepOf(dir, a, b, s, Bool(true), op, at);
    SlimItem(a);
    SlimItem(b);
    SlimFlag(true);
    SlimReads(s);
    SlimIsObject(s);
    ItemsStepOf(dir, Slim(a), Slim(b), Slim(s), Obj([]), op, at);
  }

  lemma OneProp(props: seq<Field>, value: Raw)
    requires |props| == 1 && props[0] == Field("x", value)
    ensures Get(props, "x") == J.Some(value)
  {
  }

  /**
   * A property that becomes `false`: the documents' own comparison reports it
   * as removed, that of the slim forms takes it for widened.
   */
  lemma FalsePropertyShows(a: Raw, b: Raw, s: Raw, op: string, at: string)
    requires a.Obj? && b.Obj? && Props(a) == [Field("x", s)] && Props(b) == [Field("x", Bool(false))]
    requires Proper(s) && RequiredIn(Slim(a)) == RequiredIn(Slim(b))
    ensures PropsKnown(a) && PropsKnown(b)
    ensures PropertyStep(Request, a, b, 0, op, at) == Reports([Change(Breaking, op, at + ".x")])
    ensures Slim(a).Obj? && Slim(b).Obj? && PropsKnown(Slim(a)) && PropsKnown(Slim(b)) && |Props(Slim(a))| == 1
    ensures PropertyStep(Request, Slim(a), Slim(b), 0, op, at) == Reports([])
  {
    hide Slim, Read, Proper, Compare, Props, RequiredIn, Get;
    ProperIsObject(s);
    SlimProps(a);
    SlimProps(b);
    SlimFlag(false);
    SlimReads(s);
    SlimIsObject(s);
    AnyWidened(Read(s), op, at + ".x");
    OneProp(Props(b), Bool(false));
    OneProp(Props(Slim(b)), Obj([]));
    assert at + "." + "x" == at + ".x";
  }

  // -- exactly where it shows ------------------------------------------------------------------------

  /** All that `in`, `isRecord`, `Array.isArray`, `typeof` and `!` can tell of what stands at a place. */
  datatype Sort = Missing | Record | List | Flag(b: bool) | Other

  function SortOf(o: J.Option<Raw>): Sort {
    if o.None? then Missing
    else
      match o.value
      case Obj(_) => Record
      case Arr(_) => List
      case Bool(b) => Flag(b)
      case _ => Other
  }

  ghost predicate SameSort(r: Raw, t: Raw, key: string)
    requires r.Obj? && t.Obj?
  {
    SortOf(Get(r.fields, key)) == SortOf(Get(t.fields, key))
  }

  function Members(r: Raw, key: string): seq<Raw>
    requires r.Obj?
  {
    var o := Get(r.fields, key);
    if o.Some? && o.value.Arr? then o.value.items else []
  }

  ghost predicate SameMembers(r: Raw, t: Raw, key: string)
    requires r.Obj? && t.Obj?
  {
    && SameSort(r, t, key) && |Members(r, key)| == |Members(t, key)|
    && forall k :: 0 <= k < |Members(r, key)| ==> SortOf(J.Some(Members(r, key)[k])) == SortOf(J.Some(Members(t, key)[k]))
  }

  /** The tests of the comparison answer the same on both, wherever a sub-schema can stand. */
  ghost predicate SameTests(r: Raw, t: Raw)
    requires r.Obj? && t.Obj?
  {
    && SameSort(r, t, "items") && SameSort(r, t, "additionalProperties")
    && SameSort(r, t, "properties") && |Props(r)| == |Props(t)|
    && (forall k :: 0 <= k < |Props(r)| ==> SortOf(J.Some(Props(r)[k].value)) == SortOf(J.Some(Props(t)[k].value)))
    && SameMembers(r, t, "anyOf") && SameMembers(r, t, "oneOf") && SameMembers(r, t, "allOf")
  }

  ghost predicate ListHoldsObjects(r: Raw, key: string)
    requires r.Obj?
  {
    var o := Get(r.fields, key);
    o.Some? ==> o.value.Arr? && forall k :: 0 <= k < |o.value.items| ==> o.value.items[k].Obj?
  }

  /** Every place for a sub-schema holds an object (or, for `additionalProperties`, a boolean). */
  ghost predicate HoldsObjects(r: Raw)
    requires r.Obj?
  {
    && SortOf(Get(r.fields, "items")) in {Missing, Record}
    && SortOf(Get(r.fields, "additionalProperties")) in {Missing, Record, Flag(true), Flag(false)}
    && SortOf(Get(r.fields, "properties")) in {Missing, Record}
    && (forall k :: 0 <= k < |Props(r)| ==> Props(r)[k].value.Obj?)
    && ListHoldsObjects(r, "anyOf") && ListHoldsObjects(r, "oneOf") && ListHoldsObjects(r, "allOf")
  }

  lemma ItemsTest(r: Raw)
    requires r.Obj?
    ensures Slim(r).Obj?
    ensures SameSort(r, Slim(r), "items") <==> SortOf(Get(r.fields, "items")) in {Missing, Record}
  {
    hide Slim;
    SlimIsObject(r);
    GetSlim(r, "items");
    var i := Place(r.fields, "items");
    if i < |r.fields| { SlimIsObject(r.fields[i].value); }
  }

  lemma ExtraTest(r: Raw)
    requires r.Obj?
    ensures Slim(r).Obj?
    ensures SameSort(r, Slim(r), "additionalProperties") <==>
      SortOf(Get(r.fields, "additionalProperties")) in {Missing, Record, Flag(true), Flag(false)}
  {
    hide Slim;
    SlimIsObject(r);
    GetSlim(r, "additionalProperties");
    var i := Place(r.fields, "additionalProperties");
    if i < |r.fields| { SlimIsObject(r.fields[i].value); }
  }

  lemma PropertiesTest(r: Raw)
    requires r.Obj?
    ensures Slim(r).Obj?
    ensures SameSort(r, Slim(r), "properties") <==> SortOf(Get(r.fields, "properties")) in {Missing, Record}
  {
    hide Slim;
    SlimIsObject(r);
    GetSlim(r, "properties");
  }

  lemma PropertyValuesTest(r: Raw)
    requires r.Obj?
    ensures Slim(r).Obj? && |Props(r)| == |Props(Slim(r))|
    ensures forall k :: 0 <= k < |Props(r)| ==> Props(Slim(r))[k].value.Obj?
  {
    hide Slim, Props;
    SlimProps(r);
    forall k | 0 <= k < |Props(r)| ensures Slim(Props(r)[k].value).Obj? { SlimIsObject(Props(r)[k].value); }
  }

  lemma SlimMembers(r: Raw, key: string)
    requires r.Obj? && (key == "anyOf" || key == "oneOf" || key == "allOf")
    ensures Slim(r).Obj? && |Members(Slim(r), key)| == |Members(r, key)|
    ensures forall k :: 0 <= k < |Members(r, key)| ==> Members(Slim(r), key)[k] == Slim(Members(r, key)[k])
    ensures SameSort(r, Slim(r), key) <==> SortOf(Get(r.fields, key)) in {Missing, List}
  {
    hide Slim;
    SlimIsObject(r);
    GetSlim(r, key);
  }

  lemma ListTest(r: Raw, key: string)
    requires r.Obj? && (key == "anyOf" || key == "oneOf" || key == "allOf")
    ensures Slim(r).Obj? && (SameMembers(r, Slim(r), key) <==> ListHoldsObjects(r, key))
  {
    hide Slim, Get, SameSort;
    SlimMembers(r, key);
    forall k | 0 <= k < |Members(r, key)|
      ensures SortOf(J.Some(Members(Slim(r), key)[k])) == Record
    {
      SlimIsObject(Members(r, key)[k]);
    }
  }

  /** On one schema, slimming changes no answer of the tests if and only if each place holds what it should. */
  lemma SlimKeepsTestsHere(r: Raw)
    requires r.Obj?
    ensures Slim(r).Obj? && (SameTests(r, Slim(r)) <==> HoldsObjects(r))
  {
    hide Slim, SameMembers, ListHoldsObjects, SameSort, Props, Get;
    ItemsTest(r);
    ExtraTest(r);
    PropertiesTest(r);
    PropertyValuesTest(r);
    ListTest(r, "anyOf");
    ListTest(r, "oneOf");
    ListTest(r, "allOf");
  }

  // -- at every depth --------------------------------------------------------------------------------

  /** The tests answer the same on both, and on all sub-schemas that stand at the same places. */
  ghost predicate SameTestsDeep(r: Raw, t: Raw)
    decreases r, 1
  {
    && SortOf(J.Some(r)) == SortOf(J.Some(t))
    && (r.Obj? ==>
          && SameTests(r, t)
          && SameBelow(r, t, "items") && SameBelow(r, t, "additionalProperties") && SameProperties(r, t)
          && SameBranches(r, t, "anyOf") && SameBranches(r, t, "oneOf") && SameBranches(r, t, "allOf"))
  }

  ghost predicate SameBelow(r: Raw, t: Raw, key: string)
    requires r.Obj? && t.Obj?
    decreases r, 0
  {
    var i := Place(r.fields, key);
    i < |r.fields| && Get(t.fields, key).Some? ==> SameTestsDeep(r.fields[i].value, Get(t.fields, key).value)
  }

  ghost predicate SameProperties(r: Raw, t: Raw)
    requires r.Obj? && t.Obj?
    decreases r, 0
  {
    var i := Place(r.fields, "properties");
    i < |r.fields| && r.fields[i].value.Obj? ==>
      forall k :: 0 <= k < |r.fields[i].value.fields| && k < |Props(t)| ==>
        SameTestsDeep(r.fields[i].value.fields[k].value, Props(t)[k].value)
  }

  ghost predicate SameBranches(r: Raw, t: Raw, key: string)
    requires r.Obj? && t.Obj?
    decreases r, 0
  {
    var i := Place(r.fields, key);
    i < |r.fields| && r.fields[i].value.Arr? ==>
      forall k :: 0 <= k < |r.fields[i].value.items| && k < |Members(t, key)| ==>
        SameTestsDeep(r.fields[i].value.items[k], Members(t, key)[k])
  }

  /** Every sub-schema, at every depth, is an object (or a boolean for `additionalProperties`). */
  ghost predicate ObjectsDeep(r: Raw)
    decreases r, 1
  {
    && r.Obj? && HoldsObjects(r)
    && ObjectsBelow(r, "items") && ObjectsBelow(r, "additionalProperties") && ObjectProperties(r)
    && ObjectBranches(r, "anyOf") && ObjectBranches(r, "oneOf") && ObjectBranches(r, "allOf")
  }

  ghost predicate ObjectsBelow(r: Raw, key: string)
    requires r.Obj?
    decreases r, 0
  {
    var i := Place(r.fields, key);
    i < |r.fields| && r.fields[i].value.Obj? ==> ObjectsDeep(r.fields[i].value)
  }

  ghost predicate ObjectProperties(r: Raw)
    requires r.Obj?
    decreases r, 0
  {
    var i := Place(r.fields, "properties");
    i < |r.fields| && r.fields[i].value.Obj? ==>
      forall k :: 0 <= k < |r.fields[i].value.fields| ==> ObjectsDeep(r.fields[i].value.fields[k].value)
  }

  ghost predicate ObjectBranches(r: Raw, key: string)
    requires r.Obj?
    decreases r, 0
  {
    var i := Place(r.fields, key);
    i < |r.fields| && r.fields[i].value.Arr? ==>
      forall k :: 0 <= k < |r.fields[i].value.items| ==> ObjectsDeep(r.fields[i].value.items[k])
  }

  lemma {:induction false} BelowDeep(r: Raw, key: string)
    requires r.Obj? && (key == "items" || key == "additionalProperties")
    requires SortOf(Get(r.fields, key)) in {Missing, Record} || (key == "additionalProperties" && SortOf(Get(r.fields, key)).Flag?)
    ensures Slim(r).Obj? && (SameBelow(r, Slim(r), key) <==> ObjectsBelow(r, key))
    decreases r, 0
  {
    hide Slim, SameTestsDeep, ObjectsDeep;
    SlimIsObject(r);
    GetSlim(r, key);
    var i := Place(r.fields, key);
    if i < |r.fields| {
      if r.fields[i].value.Obj? { SlimKeepsTests(r.fields[i].value); } else { FlagsAgree(r.fields[i].value); }
    }
  }

  lemma FlagsAgree(r: Raw)
    requires r.Bool?
    ensures SameTestsDeep(r, r)
  {
  }

  lemma {:induction false} PropertiesDeep(r: Raw)
    requires r.Obj?
    ensures Slim(r).Obj? && (SameProperties(r, Slim(r)) <==> ObjectProperties(r))
    decreases r, 0
  {
    hide Slim, SameTestsDeep, ObjectsDeep;
    SlimIsObject(r);
    SlimProps(r);
    var i := Place(r.fields, "properties");
    if i < |r.fields| && r.fields[i].value.Obj? {
      var fields := r.fields[i].value.fields;
      assert Props(r) == fields;
      forall k | 0 <= k < |fields| ensures SameTestsDeep(fields[k].value, Slim(fields[k].value)) <==> ObjectsDeep(fields[k].value) {
        SlimKeepsTests(fields[k].value);
      }
    }
  }

  lemma {:induction false} BranchesDeep(r: Raw, key: string)
    requires r.Obj? && (key == "anyOf" || key == "oneOf" || key == "allOf")
    ensures Slim(r).Obj? && (SameBranches(r, Slim(r), key) <==> ObjectBranches(r, key))
    decreases r, 0
  {
    hide Slim, SameTestsDeep, ObjectsDeep;
    SlimMembers(r, key);
    var i := Place(r.fields, key);
    if i < |r.fields| && r.fields[i].value.Arr? {
      var items := r.fields[i].value.items;
      assert Members(r, key) == items;
      forall k | 0 <= k < |items| ensures SameTestsDeep(items[k], Slim(items[k])) <==> ObjectsDeep(items[k]) {
        SlimKeepsTests(items[k]);
      }
    }
  }

  /**
   * Slimming changes no answer of the comparison's tests, on a schema and all
   * below it, if and only if every sub-schema at every depth is an object.
   */
  lemma {:induction false} SlimKeepsTests(r: Raw)
    ensures SameTestsDeep(r, Slim(r)) <==> ObjectsDeep(r)
    decreases r, 1
  {
    SlimIsObject(r);
    hide Slim, SameTests, HoldsObjects, SameBelow, SameProperties, SameBranches, ObjectsBelow, ObjectProperties, ObjectBranches;
    if r.Obj? {
      SlimKeepsTestsHere(r);
      if HoldsObjects(r) {
        PlacesHold(r);
        BelowDeep(r, "items");
        BelowDeep(r, "additionalProperties");
        PropertiesDeep(r);
        BranchesDeep(r, "anyOf");
        BranchesDeep(r, "oneOf");
        BranchesDeep(r, "allOf");
      }
    }
  }

  lemma PlacesHold(r: Raw)
    requires r.Obj? && HoldsObjects(r)
    ensures SortOf(Get(r.fields, "items")) in {Missing, Record}
    ensures SortOf(Get(r.fields, "additionalProperties")) in {Missing, Record} || SortOf(Get(r.fields, "additionalProperties")).Flag?
  {
  }

  // -- what `Proper` asks --------------------------------------------------------------------------------

  /** The other keywords have the types JSON Schema gives them, at every depth. */
  predicate TypedDeep(r: Raw)
    decreases r, 1
  {
    r.Obj? ==>
      && TypedKeywords(r.fields)
      && TypedBelow(r, "items") && TypedBelow(r, "additionalProperties") && TypedProperties(r)
      && TypedBranches(r, "anyOf") && TypedBranches(r, "oneOf") && TypedBranches(r, "allOf")
  }

  predicate TypedBelow(r: Raw, key: string)
    requires r.Obj?
    decreases r, 0
  {
    var i := Place(r.fields, key);
    i < |r.fields| ==> TypedDeep(r.fields[i].value)
  }

  predicate TypedProperties(r: Raw)
    requires r.Obj?
    decreases r, 0
  {
    var i := Place(r.fields, "properties");
    i < |r.fields| && r.fields[i].value.Obj? ==>
      forall k :: 0 <= k < |r.fields[i].value.fields| ==> TypedDeep(r.fields[i].value.fields[k].value)
  }

  predicate TypedBranches(r: Raw, key: string)
    requires r.Obj?
    decreases r, 0
  {
    var i := Place(r.fields, key);
    i < |r.fields| && r.fields[i].value.Arr? ==>
      forall k :: 0 <= k < |r.fields[i].value.items| ==> TypedDeep(r.fields[i].value.items[k])
  }

  lemma {:induction false} ProperBelow(r: Raw)
    requires r.Obj?
    ensures ProperItems(r) <==>
      SortOf(Get(r.fields, "items")) in {Missing, Record} && ObjectsBelow(r, "items") && TypedBelow(r, "items")
    ensures ProperExtra(r) <==>
      && SortOf(Get(r.fields, "additionalProperties")) in {Missing, Record, Flag(true), Flag(false)}
      && ObjectsBelow(r, "additionalProperties") && TypedBelow(r, "additionalProperties")
    decreases r, 0
  {
    hide Proper, ObjectsDeep, TypedDeep;
    var i, j := Place(r.fields, "items"), Place(r.fields, "additionalProperties");
    if i < |r.fields| { ProperIffObjects(r.fields[i].value); }
    if i < |r.fields| && !r.fields[i].value.Obj? { NeverProper(r.fields[i].value); }
    if j < |r.fields| { ProperIffObjects(r.fields[j].value); }
    if j < |r.fields| && !r.fields[j].value.Obj? { NeverProper(r.fields[j].value); }
  }

  lemma NeverProper(r: Raw)
    requires !r.Obj?
    ensures !Proper(r) && TypedDeep(r)
  {
  }

  lemma IsAnObject(r: Raw)
    requires Proper(r) || ObjectsDeep(r)
    ensures r.Obj?
  {
  }

  lemma {:induction false} ProperPropertiesIff(r: Raw)
    requires r.Obj?
    ensures ProperProperties(r) <==>
      && SortOf(Get(r.fields, "properties")) in {Missing, Record}
      && (forall k :: 0 <= k < |Props(r)| ==> Props(r)[k].value.Obj?)
      && ObjectProperties(r) && TypedProperties(r)
    decreases r, 0
  {
    hide Proper, ObjectsDeep, TypedDeep;
    var i := Place(r.fields, "properties");
    if i < |r.fields| && r.fields[i].value.Obj? {
      var fields := r.fields[i].value.fields;
      assert Props(r) == fields;
      forall k | 0 <= k < |fields|
        ensures Proper(fields[k].value) <==> ObjectsDeep(fields[k].value) && TypedDeep(fields[k].value)
        ensures Proper(fields[k].value) ==> fields[k].value.Obj?
      {
        ProperIffObjects(fields[k].value);
        if Proper(fields[k].value) { IsAnObject(fields[k].value); }
      }
    }
  }

  lemma {:induction false} ProperListIff(r: Raw, key: string)
    requires r.Obj?
    ensures ProperList(r, key) <==> ListHoldsObjects(r, key) && ObjectBranches(r, key) && TypedBranches(r, key)
    decreases r, 0
  {
    hide Proper, ObjectsDeep, TypedDeep;
    var i := Place(r.fields, key);
    if i < |r.fields| && r.fields[i].value.Arr? {
      var items := r.fields[i].value.items;
      forall k | 0 <= k < |items|
        ensures Proper(items[k]) <==> ObjectsDeep(items[k]) && TypedDeep(items[k])
        ensures Proper(items[k]) ==> items[k].Obj?
      {
        ProperIffObjects(items[k]);
        if Proper(items[k]) { IsAnObject(items[k]); }
      }
    }
  }

  /** A document is what `SlimmingIsInvisible` asks if and only if its sub-schemas are objects and its keywords have their types. */
  lemma {:induction false} ProperIffObjects(r: Raw)
    ensures Proper(r) <==> ObjectsDeep(r) && TypedDeep(r)
    decreases r, 1
  {
    hide ObjectsBelow, ObjectProperties, ObjectBranches, TypedBelow, TypedProperties, TypedBranches, TypedKeywords;
    hide ProperProperties, ProperItems, ProperExtra, ProperList, ListHoldsObjects, Props, Get;
    if r.Obj? {
      ProperBelow(r);
      ProperPropertiesIff(r);
      ProperListIff(r, "anyOf");
      ProperListIff(r, "oneOf");
      ProperListIff(r, "allOf");
    }
  }
}
