/** Every change between two schemas, in the order the diff reports them. */
module Comparison {
  import opened JsonValues
  import opened Schemas
  import opened Pairing

  datatype Severity = Breaking | Notable

  datatype Change = Change(severity: Severity, op: string, at: string)

  predicate AllBreaking(changes: seq<Change>) {
    forall c :: c in changes ==> c.severity.Breaking?
  }

  function When(condition: bool, severity: Severity, op: string, at: string): seq<Change> {
    if condition then [Change(severity, op, at)] else []
  }

  function Unless(condition: bool, severity: Severity, op: string, at: string): seq<Change> {
    When(!condition, severity, op, at)
  }

  /** The changes of a loop: one list after the other. */
  function Concat(steps: seq<seq<Change>>): (r: seq<Change>)
    ensures r == [] <==> forall i :: 0 <= i < |steps| ==> steps[i] == []
    ensures (forall i :: 0 <= i < |steps| ==> AllBreaking(steps[i])) ==> AllBreaking(r)
  {
    if steps == [] then []
    else
      assert forall i :: 1 <= i < |steps| ==> steps[i] == steps[1..][i - 1];
      steps[0] + Concat(steps[1..])
  }

  lemma {:induction false} ConcatSnoc(steps: seq<seq<Change>>, n: nat)
    requires n < |steps|
    ensures Concat(steps[..n + 1]) == Concat(steps[..n]) + steps[n]
  {
    if n == 0 {
      assert steps[..1][1..] == [] && steps[..0] == [];
    } else {
      ConcatSnoc(steps[1..], n - 1);
      assert steps[..n + 1][1..] == steps[1..][..n] && steps[..n][1..] == steps[1..][..n - 1];
    }
  }

  function OrAny(s: Option<Schema>): Schema {
    if s.Some? then s.value else ANY
  }

  function ListOf(branches: Branches): seq<Schema> {
    if branches.Listed? then branches.list else []
  }

  // -- enums and limits ----------------------------------------------------------

  /** One change for each of `values` that is not in `known`. */
  function MissingSteps(values: seq<Json>, known: seq<Json>, severity: Severity, op: string, at: string): (r: seq<seq<Change>>)
    ensures |r| == |values| && forall i :: 0 <= i < |r| ==> r[i] == Unless(values[i] in known, severity, op, at)
  {
    seq(|values|, i requires 0 <= i < |values| => Unless(values[i] in known, severity, op, at))
  }

  function MissingFrom(values: seq<Json>, known: seq<Json>, severity: Severity, op: string, at: string): (r: seq<Change>)
    ensures severity.Breaking? ==> AllBreaking(r)
    ensures r == [] <==> forall i :: 0 <= i < |values| ==> values[i] in known
  {
    var steps := MissingSteps(values, known, severity, op, at);
    assert forall i :: 0 <= i < |values| ==> (steps[i] == [] <==> values[i] in known);
    Concat(steps)
  }

  function ValueChanges(dir: Direction, valuesA: seq<Json>, valuesB: seq<Json>, op: string, at: string): (r: seq<Change>)
    ensures dir.Request? ==> AllBreaking(r)
  {
    MissingFrom(valuesA, valuesB, Breaking, op, at)
    + if dir.Response? then MissingFrom(valuesB, valuesA, Notable, op, at) else []
  }

  function EnumChanges(dir: Direction, a: Schema, b: Schema, op: string, at: string): (r: seq<Change>)
    ensures dir.Request? ==> AllBreaking(r)
  {
    var valuesA, valuesB := EnumOf(a), EnumOf(b);
    if valuesA.Some? && valuesB.Some? then ValueChanges(dir, valuesA.value, valuesB.value, op, at)
    else
      When(valuesA.Some? && valuesB.None? && dir.Response?, Notable, op, at)
      + When(valuesA.None? && valuesB.Some? && dir.Request?, Breaking, op, at)
  }

  datatype Bound = Bound(value: real, exclusive: bool)

  function LowerBound(l: Limits): Option<Bound> {
    if l.exclusiveMinimum.Some? && (l.minimum.None? || l.exclusiveMinimum.value >= l.minimum.value)
    then Some(Bound(l.exclusiveMinimum.value, true))
    else if l.minimum.Some? then Some(Bound(l.minimum.value, false))
    else None
  }

  function UpperBound(l: Limits): Option<Bound> {
    if l.exclusiveMaximum.Some? && (l.maximum.None? || l.exclusiveMaximum.value <= l.maximum.value)
    then Some(Bound(l.exclusiveMaximum.value, true))
    else if l.maximum.Some? then Some(Bound(l.maximum.value, false))
    else None
  }

  predicate LengthNarrowed(before: Option<int>, after: Option<int>, lower: bool) {
    after.Some? && (before.None? || if lower then after.value > before.value else after.value < before.value)
  }

  predicate LowerNarrowed(low: Option<Bound>, now: Option<Bound>) {
    now.Some? &&
    (low.None? || now.value.value > low.value.value
     || (now.value.value == low.value.value && now.value.exclusive && !low.value.exclusive))
  }

  predicate UpperNarrowed(high: Option<Bound>, now: Option<Bound>) {
    now.Some? &&
    (high.None? || now.value.value < high.value.value
     || (now.value.value == high.value.value && now.value.exclusive && !high.value.exclusive))
  }

  predicate TextNarrowed(before: Option<string>, after: Option<string>) {
    after.Some? && after != before
  }

  /** `x % y !== 0`, where the remainder by zero is not a number. */
  predicate LeavesRemainder(x: real, y: real) {
    y == 0.0 || !Integral(x / y)
  }

  predicate StepNarrowed(before: Option<real>, after: Option<real>) {
    after.Some? && (before.None? || LeavesRemainder(before.value, after.value))
  }

  /** Which limits are tighter in `b`, in the order they are compared. */
  function Narrowings(a: Limits, b: Limits): (r: seq<bool>)
    ensures |r| == 9
  {
    [ LengthNarrowed(a.minLength, b.minLength, true),
      LengthNarrowed(a.maxLength, b.maxLength, false),
      LengthNarrowed(a.minItems, b.minItems, true),
      LengthNarrowed(a.maxItems, b.maxItems, false),
      LowerNarrowed(LowerBound(a), LowerBound(b)),
      UpperNarrowed(UpperBound(a), UpperBound(b)),
      TextNarrowed(a.pattern, b.pattern),
      TextNarrowed(a.format, b.format),
      StepNarrowed(a.multipleOf, b.multipleOf) ]
  }

  function LimitSteps(a: Limits, b: Limits, op: string, at: string): (r: seq<seq<Change>>)
    ensures |r| == 9 && forall i :: 0 <= i < 9 ==> r[i] == When(Narrowings(a, b)[i], Breaking, op, at)
  {
    seq(9, i requires 0 <= i < 9 => When(Narrowings(a, b)[i], Breaking, op, at))
  }

  /** Only a request is validated in production, so only a request can be narrowed. */
  function LimitChanges(a: Limits, b: Limits, op: string, at: string): (r: seq<Change>)
    ensures AllBreaking(r)
    ensures r == [] <==> forall i :: 0 <= i < 9 ==> !Narrowings(a, b)[i]
  {
    var steps := LimitSteps(a, b, op, at);
    assert forall i :: 0 <= i < 9 ==> (steps[i] == [] <==> !Narrowings(a, b)[i]);
    Concat(steps)
  }

  /** A silent comparison narrows no limit. */
  lemma NothingNarrowed(a: Limits, b: Limits, op: string, at: string)
    ensures LimitChanges(a, b, op, at) == [] <==>
      && !LengthNarrowed(a.minLength, b.minLength, true) && !LengthNarrowed(a.maxLength, b.maxLength, false)
      && !LengthNarrowed(a.minItems, b.minItems, true) && !LengthNarrowed(a.maxItems, b.maxItems, false)
      && !LowerNarrowed(LowerBound(a), LowerBound(b)) && !UpperNarrowed(UpperBound(a), UpperBound(b))
      && !TextNarrowed(a.pattern, b.pattern) && !TextNarrowed(a.format, b.format)
      && !StepNarrowed(a.multipleOf, b.multipleOf)
  {
    var n := Narrowings(a, b);
    assert (forall i :: 0 <= i < 9 ==> !n[i]) <==>
      !n[0] && !n[1] && !n[2] && !n[3] && !n[4] && !n[5] && !n[6] && !n[7] && !n[8];
  }

  // -- schemas ---------------------------------------------------------------------

  function Compare(dir: Direction, before: Schema, after: Schema, op: string, at: string): (r: seq<Change>)
    ensures dir.Request? ==> AllBreaking(r)
    decreases Size(before), 4, 0
  {
    var a, b := Alternatives(before), Alternatives(after);
    if a.any || b.any then AnyChanges(dir, a, b, op, at)
    else
      NullChanges(dir, a, b, op, at)
      + Concat(VariantSteps(dir, before, after, op, at))
      + NewBranchChanges(dir, a.variants, b.variants, op, at)
  }

  function AnyChanges(dir: Direction, a: Alts, b: Alts, op: string, at: string): (r: seq<Change>)
    ensures dir.Request? ==> AllBreaking(r)
  {
    When(dir.Request? && a.any && !b.any, Breaking, op, at) + When(dir.Response? && !a.any && b.any, Notable, op, at)
  }

  function NullChanges(dir: Direction, a: Alts, b: Alts, op: string, at: string): (r: seq<Change>)
    ensures dir.Request? ==> AllBreaking(r)
  {
    When(dir.Response? && !a.nullable && b.nullable, Breaking, op, at)
    + When(dir.Request? && a.nullable && !b.nullable, Breaking, op, at)
  }

  function NewBranchChanges(dir: Direction, va: seq<Schema>, vb: seq<Schema>, op: string, at: string): (r: seq<Change>)
    ensures dir.Request? ==> r == []
  {
    if dir.Response? && (|va| > 1 || |vb| > 1) && va != []
    then UnknownChanges(|vb|, Pairs(dir, va, vb).Values, op, at) else []
  }

  predicate IsUnion(before: Schema, after: Schema) {
    |Alternatives(before).variants| > 1 || |Alternatives(after).variants| > 1
  }

  function VariantAt(before: Schema, after: Schema, i: nat, at: string): string
    requires i < |Alternatives(before).variants|
  {
    if IsUnion(before, after) then at + "<" + KeyAt(Alternatives(before).variants, i) + ">" else at
  }

  /** The changes of the old branches, one by one. */
  function VariantSteps(dir: Direction, before: Schema, after: Schema, op: string, at: string): (r: seq<seq<Change>>)
    ensures |r| == |Alternatives(before).variants|
    ensures forall i :: 0 <= i < |r| ==> r[i] == VariantChange(dir, before, after, i, op, at)
    ensures dir.Request? ==> forall i :: 0 <= i < |r| ==> AllBreaking(r[i])
    decreases Size(before), 3, 1
  {
    var n := |Alternatives(before).variants|;
    seq(n, i requires 0 <= i < n => VariantChange(dir, before, after, i, op, at))
  }

  function VariantChange(dir: Direction, before: Schema, after: Schema, i: nat, op: string, at: string): (r: seq<Change>)
    requires i < |Alternatives(before).variants|
    ensures dir.Request? ==> AllBreaking(r)
    decreases Size(before), 3, 0
  {
    var va, vb := Alternatives(before).variants, Alternatives(after).variants;
    var pairs := Pairs(dir, va, vb);
    if i in pairs
    then CompareVariant(dir, va[i], vb[pairs[i]], op, VariantAt(before, after, i, at))
    else [Change(Breaking, op, at)]
  }

  /** One note for each new branch that no old branch became. */
  function UnknownSteps(count: nat, matched: set<nat>, op: string, at: string): (r: seq<seq<Change>>)
    ensures |r| == count && forall j :: 0 <= j < count ==> r[j] == Unless(j in matched, Notable, op, at)
  {
    seq(count, j requires 0 <= j < count => Unless(j in matched, Notable, op, at))
  }

  function UnknownChanges(count: nat, matched: set<nat>, op: string, at: string): (r: seq<Change>)
    ensures r == [] <==> forall k :: 0 <= k < count ==> k in matched
  {
    var steps := UnknownSteps(count, matched, op, at);
    assert forall k :: 0 <= k < count ==> (steps[k] == [] <==> k in matched);
    Concat(steps)
  }

  function CompareVariant(dir: Direction, a: Schema, b: Schema, op: string, at: string): (r: seq<Change>)
    ensures dir.Request? ==> AllBreaking(r)
    decreases Size(a), 2, 0
  {
    var kind := KindOf(a);
    if kind == "allOf" then
      if |ListOf(a.allOf)| != |ListOf(b.allOf)| then [Change(Breaking, op, at)]
      else Concat(PartSteps(dir, a, b, op, at))
    else
      EnumChanges(dir, a, b, op, at) + RequestLimits(dir, a, b, op, at) + ShapeChanges(dir, a, b, op, at)
  }

  function RequestLimits(dir: Direction, a: Schema, b: Schema, op: string, at: string): (r: seq<Change>)
    ensures dir.Request? ==> AllBreaking(r)
  {
    if dir.Request? then LimitChanges(a.limits, b.limits, op, at) else []
  }

  function ShapeChanges(dir: Direction, a: Schema, b: Schema, op: string, at: string): (r: seq<Change>)
    ensures dir.Request? ==> AllBreaking(r)
    decreases Size(a), 1, 2
  {
    if KindOf(a) == "object" then ObjectChanges(dir, a, b, op, at)
    else if KindOf(a) == "array" && a.items.Some? then Compare(dir, a.items.value, OrAny(b.items), op, at + "[]")
    else []
  }

  function PartSteps(dir: Direction, a: Schema, b: Schema, op: string, at: string): (r: seq<seq<Change>>)
    requires |ListOf(a.allOf)| == |ListOf(b.allOf)|
    ensures |r| == |ListOf(a.allOf)|
    ensures forall i :: 0 <= i < |r| ==>
      r[i] == Compare(dir, ListOf(a.allOf)[i], ListOf(b.allOf)[i], op, at + "&" + NatText(i))
    ensures dir.Request? ==> forall i :: 0 <= i < |r| ==> AllBreaking(r[i])
    decreases Size(a), 1, 0
  {
    var n := |ListOf(a.allOf)|;
    seq(n, i requires 0 <= i < n => Compare(dir, ListOf(a.allOf)[i], ListOf(b.allOf)[i], op, at + "&" + NatText(i)))
  }

  function ObjectChanges(dir: Direction, a: Schema, b: Schema, op: string, at: string): (r: seq<Change>)
    ensures dir.Request? ==> AllBreaking(r)
    decreases Size(a), 1, 1
  {
    Concat(PropertySteps(dir, a, b, op, at)) + RequiredChanges(dir, a, b, op, at) + MapChanges(dir, a, b, op, at)
  }

  function RequiredChanges(dir: Direction, a: Schema, b: Schema, op: string, at: string): (r: seq<Change>)
    ensures dir.Request? ==> AllBreaking(r)
  {
    if dir.Request? then NewlyRequired(a, b, op, at) else []
  }

  function MapChanges(dir: Direction, a: Schema, b: Schema, op: string, at: string): (r: seq<Change>)
    ensures dir.Request? ==> AllBreaking(r)
    decreases Size(a), 0, 0
  {
    if a.extra.MapOf? then
      if b.extra.MapOf? then Compare(dir, a.extra.values, b.extra.values, op, at + "{}")
      else When(dir.Request? || PropertiesOf(a) == [], Breaking, op, at + "{}")
    else []
  }

  function PropertySteps(dir: Direction, a: Schema, b: Schema, op: string, at: string): (r: seq<seq<Change>>)
    ensures |r| == |PropertiesOf(a)|
    ensures forall i :: 0 <= i < |r| ==> r[i] == PropertyChange(dir, a, b, i, op, at)
    ensures dir.Request? ==> forall i :: 0 <= i < |r| ==> AllBreaking(r[i])
    decreases Size(a), 1, 0
  {
    var n := |PropertiesOf(a)|;
    seq(n, i requires 0 <= i < n => PropertyChange(dir, a, b, i, op, at))
  }

  function PropertyChange(dir: Direction, a: Schema, b: Schema, i: nat, op: string, at: string): (r: seq<Change>)
    requires i < |PropertiesOf(a)|
    ensures dir.Request? ==> AllBreaking(r)
    decreases Size(a), 0, 0
  {
    var p := PropertiesOf(a)[i];
    var where := at + "." + p.name;
    var now := Lookup(PropertiesOf(b), p.name);
    if now.None? then [Change(Breaking, op, where)]
    else
      When(dir.Response? && p.name in a.required && p.name !in b.required, Breaking, op, where)
      + When(dir.Request? && p.name !in a.required && p.name in b.required, Breaking, op, where)
      + Compare(dir, p.schema, now.value, op, where)
  }

  /** The required fields of `b` that `a` does not have. */
  predicate NewRequirement(a: Schema, b: Schema, j: nat)
    requires j < |PropertiesOf(b)|
  {
    !Declares(PropertiesOf(a), PropertiesOf(b)[j].name) && PropertiesOf(b)[j].name in b.required
  }

  function RequiredSteps(a: Schema, b: Schema, op: string, at: string): (r: seq<seq<Change>>)
    ensures |r| == |PropertiesOf(b)|
    ensures forall j :: 0 <= j < |r| ==> r[j] == When(NewRequirement(a, b, j), Breaking, op, at + "." + PropertiesOf(b)[j].name)
  {
    var n := |PropertiesOf(b)|;
    seq(n, j requires 0 <= j < n => When(NewRequirement(a, b, j), Breaking, op, at + "." + PropertiesOf(b)[j].name))
  }

  function NewlyRequired(a: Schema, b: Schema, op: string, at: string): (r: seq<Change>)
    ensures AllBreaking(r)
    ensures r == [] <==> forall j :: 0 <= j < |PropertiesOf(b)| ==>
      Declares(PropertiesOf(a), PropertiesOf(b)[j].name) || PropertiesOf(b)[j].name !in b.required
  {
    var steps := RequiredSteps(a, b, op, at);
    assert forall j :: 0 <= j < |steps| ==> (steps[j] != [] <==> NewRequirement(a, b, j));
    Concat(steps)
  }

  // -- nothing breaking ------------------------------------------------------------------

  ghost predicate NothingBreaking(changes: seq<Change>) {
    forall c :: c in changes ==> c.severity != Breaking
  }

  lemma QuietParts(a: seq<Change>, b: seq<Change>)
    requires NothingBreaking(a + b)
    ensures NothingBreaking(a) && NothingBreaking(b)
  {
    assert forall c :: c in a ==> c in a + b;
    assert forall c :: c in b ==> c in a + b;
  }

  lemma QuietWhen(condition: bool, op: string, at: string)
    ensures NothingBreaking(When(condition, Breaking, op, at)) <==> !condition
  {
    assert condition ==> Change(Breaking, op, at) in When(condition, Breaking, op, at);
  }

  lemma {:induction false} QuietStep(steps: seq<seq<Change>>, i: nat)
    requires i < |steps| && NothingBreaking(Concat(steps))
    ensures NothingBreaking(steps[i])
  {
    QuietParts(steps[0], Concat(steps[1..]));
    if i > 0 { QuietStep(steps[1..], i - 1); }
  }
}
