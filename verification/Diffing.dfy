/**
 * The diff as it runs: every comparison pushes its findings onto one shared
 * list. Each method is proved to push exactly what `Comparison` and `Surfaces`
 * say, in that order.
 */
module Diffing {
  import opened JsonValues
  import opened Schemas
  import opened Pairing
  import opened Comparison
  import opened Surfaces
  import opened UrlShapes
  import opened ChangeOrder

  class ChangeList {
    var items: seq<Change>

    constructor ()
      ensures items == []
    {
      items := [];
    }
  }

  /** Where the findings of one operation go. */
  datatype Sink = Sink(op: string, out: ChangeList)

  method Add(sink: Sink, severity: Severity, at: string)
    modifies sink.out
    ensures sink.out.items == old(sink.out.items) + [Change(severity, sink.op, at)]
  {
    sink.out.items := sink.out.items + [Change(severity, sink.op, at)];
  }

  lemma Pushed(start: seq<Change>, sofar: seq<Change>, step: seq<Change>)
    ensures (start + sofar) + step == start + (sofar + step)
  {
  }

  /** One more step of a loop has been pushed. */
  lemma PushedStep(start: seq<Change>, steps: seq<seq<Change>>, i: nat)
    requires i < |steps|
    ensures (start + Concat(steps[..i])) + steps[i] == start + Concat(steps[..i + 1])
  {
    ConcatSnoc(steps, i);
    Pushed(start, Concat(steps[..i]), steps[i]);
  }

  method AddWhen(condition: bool, sink: Sink, severity: Severity, at: string)
    modifies sink.out
    ensures sink.out.items == old(sink.out.items) + When(condition, severity, sink.op, at)
  {
    if condition { Add(sink, severity, at); }
  }

  // -- pairing ---------------------------------------------------------------------

  /** `matched` is the set of the branches taken so far, kept beside the map. */
  method PairByName(keysA: seq<string>, keysB: seq<string>) returns (pairs: map<nat, nat>, matched: set<nat>)
    ensures pairs == ByName(keysA, keysB, 0, map[]) && matched == pairs.Values
  {
    pairs, matched := map[], {};
    for i := 0 to |keysA|
      invariant Between(pairs, |keysA|, |keysB|) && matched == pairs.Values
      invariant forall k :: k in pairs ==> k < i
      invariant ByName(keysA, keysB, i, pairs) == ByName(keysA, keysB, 0, map[])
    {
      var j := IndexOf(keysB, keysA[i]);
      if j >= 0 && j !in matched {
        ValuesGrow(pairs, i, j);
        pairs := pairs[i := j];
        matched := matched + {j};
      }
    }
  }

  method PairVariants(dir: Direction, va: seq<Schema>, vb: seq<Schema>) returns (pairs: map<nat, nat>, matched: set<nat>)
    ensures pairs == Pairs(dir, va, vb) && matched == pairs.Values
  {
    var keysA, keysB := VariantKeys(va), VariantKeys(vb);
    pairs, matched := PairByName(keysA, keysB);
    ghost var named := pairs;
    for i := 0 to |va|
      invariant Between(pairs, |va|, |vb|) && matched == pairs.Values
      invariant Leftovers(dir, va, vb, keysA, keysB, i, pairs) == Leftovers(dir, va, vb, keysA, keysB, 0, named)
    {
      if i !in pairs {
        var found := Candidates(dir, va[i], keysA[i], vb, keysB, matched, 0);
        if |found| == 1 {
          assert found[0] in found;
          ValuesGrow(pairs, i, found[0]);
          pairs := pairs[i := found[0]];
          matched := matched + {found[0]};
        }
      }
    }
  }

  lemma ValuesGrow(pairs: map<nat, nat>, i: nat, j: nat)
    requires i !in pairs
    ensures pairs[i := j].Values == pairs.Values + {j}
  {
    var more := pairs[i := j];
    assert more[i] == j;
    forall x | x in pairs.Values ensures x in more.Values {
      var k :| k in pairs && pairs[k] == x;
      assert more[k] == x;
    }
  }

  // -- schemas ------------------------------------------------------------------------

  method CompareSchemas(dir: Direction, before: Schema, after: Schema, at: string, sink: Sink)
    modifies sink.out
    ensures sink.out.items == old(sink.out.items) + Compare(dir, before, after, sink.op, at)
    decreases Size(before), 3
  {
    var a, b := Alternatives(before), Alternatives(after);
    ghost var start, op := sink.out.items, sink.op;
    if a.any || b.any {
      CompareAny(dir, a, b, at, sink);
      return;
    }
    CompareNull(dir, a, b, at, sink);
    var pairs, matched := PairVariants(dir, a.variants, b.variants);
    CompareBranches(dir, before, after, pairs, at, sink);
    ghost var sofar := NullChanges(dir, a, b, op, at);
    Pushed(start, sofar, Concat(VariantSteps(dir, before, after, op, at)));
    sofar := sofar + Concat(VariantSteps(dir, before, after, op, at));
    AddNewBranches(dir, a.variants, b.variants, matched, at, sink);
    Pushed(start, sofar, NewBranchChanges(dir, a.variants, b.variants, op, at));
  }

  method CompareAny(dir: Direction, a: Alts, b: Alts, at: string, sink: Sink)
    modifies sink.out
    ensures sink.out.items == old(sink.out.items) + AnyChanges(dir, a, b, sink.op, at)
  {
    ghost var start, op := sink.out.items, sink.op;
    var narrowed, widened := dir.Request? && a.any && !b.any, dir.Response? && !a.any && b.any;
    AddWhen(narrowed, sink, Breaking, at);
    AddWhen(widened, sink, Notable, at);
    Pushed(start, When(narrowed, Breaking, op, at), When(widened, Notable, op, at));
  }

  method CompareNull(dir: Direction, a: Alts, b: Alts, at: string, sink: Sink)
    modifies sink.out
    ensures sink.out.items == old(sink.out.items) + NullChanges(dir, a, b, sink.op, at)
  {
    ghost var start, op := sink.out.items, sink.op;
    var made, refused := dir.Response? && !a.nullable && b.nullable, dir.Request? && a.nullable && !b.nullable;
    AddWhen(made, sink, Breaking, at);
    AddWhen(refused, sink, Breaking, at);
    Pushed(start, When(made, Breaking, op, at), When(refused, Breaking, op, at));
  }

  method AddNewBranches(dir: Direction, va: seq<Schema>, vb: seq<Schema>, matched: set<nat>, at: string, sink: Sink)
    requires matched == Pairs(dir, va, vb).Values
    modifies sink.out
    ensures sink.out.items == old(sink.out.items) + NewBranchChanges(dir, va, vb, sink.op, at)
  {
    if dir.Response? {
      var union := |va| > 1 || |vb| > 1;
      if union && |va| > 0 { AddUnknown(|vb|, matched, at, sink); }
    }
  }

  method CompareBranches(dir: Direction, before: Schema, after: Schema, pairs: map<nat, nat>, at: string, sink: Sink)
    requires pairs == Pairs(dir, Alternatives(before).variants, Alternatives(after).variants)
    modifies sink.out
    ensures sink.out.items == old(sink.out.items) + Concat(VariantSteps(dir, before, after, sink.op, at))
    decreases Size(before), 2, 1
  {
    hide VariantChange;
    var va := Alternatives(before).variants;
    ghost var start, steps := sink.out.items, VariantSteps(dir, before, after, sink.op, at);
    for i := 0 to |va|
      invariant sink.out.items == start + Concat(steps[..i])
    {
      CompareBranch(dir, before, after, pairs, i, at, sink);
      PushedStep(start, steps, i);
    }
    assert steps[..|va|] == steps;
  }

  method CompareBranch(dir: Direction, before: Schema, after: Schema, pairs: map<nat, nat>, i: nat, at: string, sink: Sink)
    requires i < |Alternatives(before).variants|
    requires pairs == Pairs(dir, Alternatives(before).variants, Alternatives(after).variants)
    modifies sink.out
    ensures sink.out.items == old(sink.out.items) + VariantChange(dir, before, after, i, sink.op, at)
    decreases Size(before), 2, 0
  {
    var va, vb := Alternatives(before).variants, Alternatives(after).variants;
    if i in pairs {
      CompareVariants(dir, va[i], vb[pairs[i]], VariantAt(before, after, i, at), sink);
    } else {
      Add(sink, Breaking, at);
    }
  }

  method AddUnknown(count: nat, matched: set<nat>, at: string, sink: Sink)
    modifies sink.out
    ensures sink.out.items == old(sink.out.items) + UnknownChanges(count, matched, sink.op, at)
  {
    ghost var start, steps := sink.out.items, UnknownSteps(count, matched, sink.op, at);
    for j := 0 to count
      invariant sink.out.items == start + Concat(steps[..j])
    {
      AddWhen(j !in matched, sink, Notable, at);
      PushedStep(start, steps, j);
    }
    assert steps[..count] == steps;
  }

  method CompareVariants(dir: Direction, a: Schema, b: Schema, at: string, sink: Sink)
    modifies sink.out
    ensures sink.out.items == old(sink.out.items) + CompareVariant(dir, a, b, sink.op, at)
    decreases Size(a), 1
  {
    var kind := KindOf(a);
    if kind == "allOf" {
      var partsA, partsB := ListOf(a.allOf), ListOf(b.allOf);
      if |partsA| != |partsB| {
        Add(sink, Breaking, at);
      } else {
        CompareParts(dir, a, b, at, sink);
      }
      return;
    }
    ghost var start, op := sink.out.items, sink.op;
    CompareEnums(dir, a, b, at, sink);
    CompareLimitsIn(dir, a, b, at, sink);
    ghost var sofar := EnumChanges(dir, a, b, op, at);
    Pushed(start, sofar, RequestLimits(dir, a, b, op, at));
    sofar := sofar + RequestLimits(dir, a, b, op, at);
    CompareShapes(dir, a, b, at, sink);
    Pushed(start, sofar, ShapeChanges(dir, a, b, op, at));
  }

  method CompareLimitsIn(dir: Direction, a: Schema, b: Schema, at: string, sink: Sink)
    modifies sink.out
    ensures sink.out.items == old(sink.out.items) + RequestLimits(dir, a, b, sink.op, at)
  {
    if dir.Request? { CompareLimits(a.limits, b.limits, at, sink); }
  }

  method CompareShapes(dir: Direction, a: Schema, b: Schema, at: string, sink: Sink)
    modifies sink.out
    ensures sink.out.items == old(sink.out.items) + ShapeChanges(dir, a, b, sink.op, at)
    decreases Size(a), 0, 3
  {
    var kind := KindOf(a);
    if kind == "object" { CompareObjects(dir, a, b, at, sink); }
    if kind == "array" && a.items.Some? {
      CompareSchemas(dir, a.items.value, OrAny(b.items), at + "[]", sink);
    }
  }

  method CompareParts(dir: Direction, a: Schema, b: Schema, at: string, sink: Sink)
    requires |ListOf(a.allOf)| == |ListOf(b.allOf)|
    modifies sink.out
    ensures sink.out.items == old(sink.out.items) + Concat(PartSteps(dir, a, b, sink.op, at))
    decreases Size(a), 0, 0
  {
    var partsA, partsB := ListOf(a.allOf), ListOf(b.allOf);
    ghost var start, steps := sink.out.items, PartSteps(dir, a, b, sink.op, at);
    for i := 0 to |partsA|
      invariant sink.out.items == start + Concat(steps[..i])
    {
      CompareSchemas(dir, partsA[i], partsB[i], at + "&" + NatText(i), sink);
      PushedStep(start, steps, i);
    }
    assert steps[..|partsA|] == steps;
  }

  method AddMissing(values: seq<Json>, known: seq<Json>, severity: Severity, at: string, sink: Sink)
    modifies sink.out
    ensures sink.out.items == old(sink.out.items) + MissingFrom(values, known, severity, sink.op, at)
  {
    ghost var start, steps := sink.out.items, MissingSteps(values, known, severity, sink.op, at);
    for i := 0 to |values|
      invariant sink.out.items == start + Concat(steps[..i])
    {
      AddWhen(values[i] !in known, sink, severity, at);
      PushedStep(start, steps, i);
    }
    assert steps[..|values|] == steps;
  }

  method CompareEnums(dir: Direction, a: Schema, b: Schema, at: string, sink: Sink)
    modifies sink.out
    ensures sink.out.items == old(sink.out.items) + EnumChanges(dir, a, b, sink.op, at)
  {
    var valuesA, valuesB := EnumOf(a), EnumOf(b);
    if valuesA.Some? && valuesB.Some? {
      CompareValues(dir, valuesA.value, valuesB.value, at, sink);
      return;
    }
    var lost, gained := valuesA.Some? && valuesB.None? && dir.Response?, valuesA.None? && valuesB.Some? && dir.Request?;
    ghost var start, op := sink.out.items, sink.op;
    AddWhen(lost, sink, Notable, at);
    AddWhen(gained, sink, Breaking, at);
    Pushed(start, When(lost, Notable, op, at), When(gained, Breaking, op, at));
  }

  method CompareValues(dir: Direction, valuesA: seq<Json>, valuesB: seq<Json>, at: string, sink: Sink)
    modifies sink.out
    ensures sink.out.items == old(sink.out.items) + ValueChanges(dir, valuesA, valuesB, sink.op, at)
  {
    ghost var start, op := sink.out.items, sink.op;
    AddMissing(valuesA, valuesB, Breaking, at, sink);
    if dir.Response? {
      AddMissing(valuesB, valuesA, Notable, at, sink);
      Pushed(start, MissingFrom(valuesA, valuesB, Breaking, op, at), MissingFrom(valuesB, valuesA, Notable, op, at));
    }
  }

  method CompareLimits(a: Limits, b: Limits, at: string, sink: Sink)
    modifies sink.out
    ensures sink.out.items == old(sink.out.items) + LimitChanges(a, b, sink.op, at)
  {
    var narrowed := Narrowings(a, b);
    ghost var start, steps := sink.out.items, LimitSteps(a, b, sink.op, at);
    for i := 0 to 9
      invariant sink.out.items == start + Concat(steps[..i])
    {
      AddWhen(narrowed[i], sink, Breaking, at);
      PushedStep(start, steps, i);
    }
    assert steps[..9] == steps;
  }

  method CompareObjects(dir: Direction, a: Schema, b: Schema, at: string, sink: Sink)
    modifies sink.out
    ensures sink.out.items == old(sink.out.items) + ObjectChanges(dir, a, b, sink.op, at)
    decreases Size(a), 0, 2
  {
    ghost var start, op := sink.out.items, sink.op;
    CompareProperties(dir, a, b, at, sink);
    AddNewlyRequired(dir, a, b, at, sink);
    ghost var sofar := Concat(PropertySteps(dir, a, b, op, at));
    Pushed(start, sofar, RequiredChanges(dir, a, b, op, at));
    sofar := sofar + RequiredChanges(dir, a, b, op, at);
    CompareMaps(dir, a, b, at, sink);
    Pushed(start, sofar, MapChanges(dir, a, b, op, at));
  }

  method CompareMaps(dir: Direction, a: Schema, b: Schema, at: string, sink: Sink)
    modifies sink.out
    ensures sink.out.items == old(sink.out.items) + MapChanges(dir, a, b, sink.op, at)
    decreases Size(a), 0, 0
  {
    if a.extra.MapOf? {
      if b.extra.MapOf? {
        CompareSchemas(dir, a.extra.values, b.extra.values, at + "{}", sink);
      } else if dir.Request? || |PropertiesOf(a)| == 0 {
        Add(sink, Breaking, at + "{}");
      }
    }
  }

  method CompareProperties(dir: Direction, a: Schema, b: Schema, at: string, sink: Sink)
    modifies sink.out
    ensures sink.out.items == old(sink.out.items) + Concat(PropertySteps(dir, a, b, sink.op, at))
    decreases Size(a), 0, 1
  {
    hide PropertyChange;
    ghost var start, steps := sink.out.items, PropertySteps(dir, a, b, sink.op, at);
    for i := 0 to |PropertiesOf(a)|
      invariant sink.out.items == start + Concat(steps[..i])
    {
      CompareOne(dir, a, b, i, at, sink);
      PushedStep(start, steps, i);
    }
    assert steps[..|PropertiesOf(a)|] == steps;
  }

  method CompareOne(dir: Direction, a: Schema, b: Schema, i: nat, at: string, sink: Sink)
    requires i < |PropertiesOf(a)|
    modifies sink.out
    ensures sink.out.items == old(sink.out.items) + PropertyChange(dir, a, b, i, sink.op, at)
    decreases Size(a), 0, 0
  {
    ghost var start, op := sink.out.items, sink.op;
    var p := PropertiesOf(a)[i];
    var where := at + "." + p.name;
    var now := Lookup(PropertiesOf(b), p.name);
    if now.None? {
      Add(sink, Breaking, where);
    } else {
      var optional := dir.Response? && p.name in a.required && p.name !in b.required;
      var required := dir.Request? && p.name !in a.required && p.name in b.required;
      AddWhen(optional, sink, Breaking, where);
      AddWhen(required, sink, Breaking, where);
      ghost var sofar := When(optional, Breaking, op, where) + When(required, Breaking, op, where);
      assert sink.out.items == start + sofar;
      CompareSchemas(dir, p.schema, now.value, where, sink);
      Pushed(start, sofar, Compare(dir, p.schema, now.value, op, where));
    }
  }

  method AddNewlyRequired(dir: Direction, a: Schema, b: Schema, at: string, sink: Sink)
    modifies sink.out
    ensures sink.out.items == old(sink.out.items) + RequiredChanges(dir, a, b, sink.op, at)
  {
    if !dir.Request? { return; }
    var propsA, propsB := PropertiesOf(a), PropertiesOf(b);
    ghost var start, steps := sink.out.items, RequiredSteps(a, b, sink.op, at);
    for j := 0 to |propsB|
      invariant sink.out.items == start + Concat(steps[..j])
    {
      var name := propsB[j].name;
      AddWhen(!Declares(propsA, name) && name in b.required, sink, Breaking, at + "." + name);
      PushedStep(start, steps, j);
    }
    assert steps[..|propsB|] == steps;
  }

  // -- operations -------------------------------------------------------------------------

  /** The parameters sent by name, as a map that keeps the order of insertion. */
  method OthersOf(params: seq<Param>) returns (entries: seq<Param>)
    ensures entries == Others(params)
  {
    entries := [];
    for i := 0 to |params|
      invariant OthersFrom(params, i, entries) == Others(params)
    {
      if params[i].place != "path" { entries := Put(entries, params[i]); }
    }
  }

  method CompareParams(before: Operation, after: Operation, sink: Sink)
    modifies sink.out
    ensures sink.out.items == old(sink.out.items) + ParamChanges(before, after, sink.op)
  {
    ghost var start, op := sink.out.items, sink.op;
    var pathA, pathB := PathParams(before.params), PathParams(after.params);
    ComparePath(pathA, pathB, sink);
    ghost var sofar := Concat(PathSteps(pathA, pathB, op));
    var otherA := OthersOf(before.params);
    var otherB := OthersOf(after.params);
    CompareOthers(otherA, otherB, sink);
    Pushed(start, sofar, Concat(OtherSteps(otherA, otherB, op)));
    sofar := sofar + Concat(OtherSteps(otherA, otherB, op));
    AddNewParams(otherA, otherB, sink);
    Pushed(start, sofar, Concat(NewParamSteps(otherA, otherB, op)));
  }

  method ComparePath(a: seq<Param>, b: seq<Param>, sink: Sink)
    modifies sink.out
    ensures sink.out.items == old(sink.out.items) + Concat(PathSteps(a, b, sink.op))
  {
    ghost var start, steps := sink.out.items, PathSteps(a, b, sink.op);
    for i := 0 to |a|
      invariant sink.out.items == start + Concat(steps[..i])
    {
      if i < |b| {
        CompareSchemas(Request, a[i].schema, b[i].schema, "path {" + a[i].name + "}", sink);
      }
      PushedStep(start, steps, i);
    }
    assert steps[..|a|] == steps;
  }

  method CompareOthers(a: seq<Param>, b: seq<Param>, sink: Sink)
    modifies sink.out
    ensures sink.out.items == old(sink.out.items) + Concat(OtherSteps(a, b, sink.op))
  {
    ghost var start, steps := sink.out.items, OtherSteps(a, b, sink.op);
    for i := 0 to |a|
      invariant sink.out.items == start + Concat(steps[..i])
    {
      CompareOther(a[i], b, sink);
      PushedStep(start, steps, i);
    }
    assert steps[..|a|] == steps;
  }

  method CompareOther(p: Param, b: seq<Param>, sink: Sink)
    modifies sink.out
    ensures sink.out.items == old(sink.out.items) + OtherChange(p, b, sink.op)
  {
    ghost var start, op := sink.out.items, sink.op;
    var now := Named(b, NameOf(p));
    if now.None? {
      Add(sink, Breaking, NameOf(p));
    } else {
      AddWhen(!p.required && now.value.required, sink, Breaking, NameOf(p));
      CompareSchemas(Request, p.schema, now.value.schema, NameOf(p), sink);
      Pushed(start, When(!p.required && now.value.required, Breaking, op, NameOf(p)),
             Compare(Request, p.schema, now.value.schema, op, NameOf(p)));
    }
  }

  method AddNewParams(a: seq<Param>, b: seq<Param>, sink: Sink)
    modifies sink.out
    ensures sink.out.items == old(sink.out.items) + Concat(NewParamSteps(a, b, sink.op))
  {
    ghost var start, steps := sink.out.items, NewParamSteps(a, b, sink.op);
    for j := 0 to |b|
      invariant sink.out.items == start + Concat(steps[..j])
    {
      AddWhen(Named(a, NameOf(b[j])).None? && b[j].required, sink, Breaking, NameOf(b[j]));
      PushedStep(start, steps, j);
    }
    assert steps[..|b|] == steps;
  }

  method CompareBody(before: Operation, after: Operation, sink: Sink)
    modifies sink.out
    ensures sink.out.items == old(sink.out.items) + BodyChanges(before, after, sink.op)
  {
    if before.body.Some? && after.body.None? {
      Add(sink, Breaking, "body");
    } else if before.body.None? && after.body.Some? {
      AddWhen(|after.body.value.required| > 0, sink, Breaking, "body");
    } else if before.body.Some? && after.body.Some? {
      CompareSchemas(Request, before.body.value, after.body.value, "body", sink);
    }
  }

  method CompareResponse(before: Operation, after: Operation, sink: Sink)
    modifies sink.out
    ensures sink.out.items == old(sink.out.items) + ResponseChanges(before, after, sink.op)
  {
    ghost var start, op := sink.out.items, sink.op;
    var moved := before.status != after.status;
    AddWhen(moved, sink, Notable, "response");
    ghost var sofar := When(moved, Notable, op, "response");
    if before.response.Some? && after.response.None? {
      Add(sink, Breaking, "response");
      Pushed(start, sofar, [Change(Breaking, op, "response")]);
    } else if before.response.Some? && after.response.Some? {
      CompareSchemas(Response, before.response.value, after.response.value, "response", sink);
      Pushed(start, sofar, Compare(Response, before.response.value, after.response.value, op, "response"));
    }
  }

  method CompareOperation(before: Operation, after: Operation, sink: Sink)
    modifies sink.out
    ensures sink.out.items == old(sink.out.items) + OperationChanges(before, after, sink.op)
  {
    ghost var start, op := sink.out.items, sink.op;
    CompareParams(before, after, sink);
    CompareBody(before, after, sink);
    Pushed(start, ParamChanges(before, after, op), BodyChanges(before, after, op));
    CompareResponse(before, after, sink);
    Pushed(start, ParamChanges(before, after, op) + BodyChanges(before, after, op), ResponseChanges(before, after, op));
  }

  /** The current operations by URL shape; a later one replaces an earlier one. */
  method IndexByShape(current: seq<Entry>) returns (byShape: map<string, Operation>)
    ensures forall shape :: shape in byShape <==> ByShape(current, shape).Some?
    ensures forall shape :: shape in byShape ==> ByShape(current, shape) == Some(byShape[shape])
  {
    byShape := map[];
    for i := 0 to |current|
      invariant forall shape :: shape in byShape <==> ByShape(current[..i], shape).Some?
      invariant forall shape :: shape in byShape ==> ByShape(current[..i], shape) == Some(byShape[shape])
    {
      assert current[..i + 1][..i] == current[..i];
      byShape := byShape[UrlShape(current[i].key) := current[i].operation];
    }
    assert current[..|current|] == current;
  }

  method CompareEntry(before: Entry, current: seq<Entry>, byShape: map<string, Operation>, sink: Sink)
    requires sink.op == before.key
    requires forall shape :: shape in byShape <==> ByShape(current, shape).Some?
    requires forall shape :: shape in byShape ==> ByShape(current, shape) == Some(byShape[shape])
    modifies sink.out
    ensures sink.out.items == old(sink.out.items) + EntryChanges(before, current)
  {
    var shape := UrlShape(before.key);
    if shape !in byShape {
      Add(sink, Breaking, "operation");
    } else {
      CompareOperation(before.operation, byShape[shape], sink);
    }
  }

  method DiffSurfaces(baseline: seq<Entry>, current: seq<Entry>) returns (changes: seq<Change>)
    ensures changes == Diff(baseline, current)
  {
    var byShape := IndexByShape(current);
    var out := new ChangeList();
    ghost var steps := EntrySteps(baseline, current);
    for i := 0 to |baseline|
      invariant fresh(out)
      invariant out.items == Concat(steps[..i])
    {
      CompareEntry(baseline[i], current, byShape, Sink(baseline[i].key, out));
      ConcatSnoc(steps, i);
    }
    assert steps[..|baseline|] == steps;
    changes := Of(Breaking, out.items) + Of(Notable, out.items);
  }
}
