/** What a branch of a union added or removed is reported as. */
module BranchEdits {
  import opened JsonValues
  import opened Schemas
  import opened Pairing
  import opened Comparison
  import opened Fitting
  import opened Reflexivity
  import opened UnionOrder
  import Edits

  /** Unions of at least two branches on one side, without `any` and with the same `null`. */
  ghost predicate Unions(before: Schema, after: Schema) {
    var a, b := Alternatives(before), Alternatives(after);
    && !a.any && !b.any && a.nullable == b.nullable && IsUnion(before, after) && a.variants != []
    && (forall i :: 0 <= i < |a.variants| ==> SelfLeaf(a.variants[i]))
    && PlainKinds(a.variants) && PlainKinds(b.variants)
  }

  /** Branches of one name are one schema, and no branch left over could be another left over. */
  ghost predicate SameByName(dir: Direction, xs: seq<Schema>, ys: seq<Schema>) {
    && (forall i, j :: 0 <= i < |xs| && 0 <= j < |ys| && KeyAt(xs, i) == KeyAt(ys, j) ==> xs[i] == ys[j])
    && forall i, j :: 0 <= i < |xs| && 0 <= j < |ys| && KeyAt(xs, i) !in VariantKeys(ys) && KeyAt(ys, j) !in VariantKeys(xs) ==>
         !Candidate(dir, xs[i], KeyAt(xs, i), ys[j], KeyAt(ys, j))
  }

  lemma {:induction false} NoneFound(dir: Direction, s: Schema, key: string, ys: seq<Schema>, keys: seq<string>, taken: set<nat>, j: nat)
    requires |keys| == |ys| && j <= |ys|
    requires forall k :: 0 <= k < |ys| && k !in taken ==> !Candidate(dir, s, key, ys[k], keys[k])
    ensures Candidates(dir, s, key, ys, keys, taken, j) == []
    decreases |ys| - j
  {
    hide Candidate;
    if j < |ys| { NoneFound(dir, s, key, ys, keys, taken, j + 1); }
  }

  lemma {:induction false} NothingFound(dir: Direction, xs: seq<Schema>, ys: seq<Schema>, keysA: seq<string>, keysB: seq<string>, i: nat, pairs: map<nat, nat>)
    requires |keysA| == |xs| && |keysB| == |ys| && i <= |xs| && Between(pairs, |xs|, |ys|)
    requires forall k, j :: 0 <= k < |xs| && 0 <= j < |ys| && k !in pairs && j !in pairs.Values ==> !Candidate(dir, xs[k], keysA[k], ys[j], keysB[j])
    ensures Leftovers(dir, xs, ys, keysA, keysB, i, pairs) == pairs
    decreases |xs| - i
  {
    hide Candidate;
    if i < |xs| {
      if i !in pairs { NoneFound(dir, xs[i], keysA[i], ys, keysB, pairs.Values, 0); }
      NothingFound(dir, xs, ys, keysA, keysB, i + 1, pairs);
    }
  }

  /** Who is paired is paired by name, and a new branch is paired when its name was there. */
  lemma PairedByName(dir: Direction, xs: seq<Schema>, ys: seq<Schema>)
    requires PlainKinds(xs) && PlainKinds(ys) && SameByName(dir, xs, ys)
    ensures NamePairs(VariantKeys(xs), VariantKeys(ys), |xs|, Pairs(dir, xs, ys))
    ensures forall j :: 0 <= j < |ys| ==> (j in Pairs(dir, xs, ys).Values <==> KeyAt(ys, j) in VariantKeys(xs))
  {
    hide KeyAt, PlainKinds, ByName, Leftovers, VariantKeys, Candidate;
    var keysA, keysB := VariantKeys(xs), VariantKeys(ys);
    KeysAreDistinct(xs);
    KeysAreDistinct(ys);
    ByNameExact(keysA, keysB, 0, map[]);
    var pairs := ByName(keysA, keysB, 0, map[]);
    forall j: nat | j < |ys| ensures j in pairs.Values <==> keysB[j] in keysA {
      if keysB[j] in keysA {
        var i := Find(keysA, keysB[j]);
        SamePlace(keysB, pairs[i], j);
      }
    }
    NothingFound(dir, xs, ys, keysA, keysB, 0, pairs);
  }

  /** The step of an old branch: nothing when its name is still there, breaking when not. */
  lemma OldBranch(dir: Direction, before: Schema, after: Schema, i: nat, op: string, at: string)
    requires Unions(before, after) && i < |Alternatives(before).variants|
    requires SameByName(dir, Alternatives(before).variants, Alternatives(after).variants)
    ensures VariantChange(dir, before, after, i, op, at) ==
      if KeyAt(Alternatives(before).variants, i) in VariantKeys(Alternatives(after).variants) then [] else [Change(Breaking, op, at)]
  {
    hide Alternatives, Pairs, CompareVariant, VariantAt, PlainKinds, SelfLeaf, KeyAt, VariantKeys, Candidate;
    var xs, ys := Alternatives(before).variants, Alternatives(after).variants;
    PairedByName(dir, xs, ys);
    var keysA, keysB := VariantKeys(xs), VariantKeys(ys);
    assert keysA[i] == KeyAt(xs, i);
    if keysA[i] in keysB {
      var j := Pairs(dir, xs, ys)[i];
      assert keysB[j] == KeyAt(ys, j) && xs[i] == ys[j];
      SelfVariantSilent(dir, xs[i], op, VariantAt(before, after, i, at));
    }
  }

  lemma InUnknown(count: nat, matched: set<nat>, op: string, at: string, c: Change)
    ensures c in UnknownChanges(count, matched, op, at) <==> c == Change(Notable, op, at) && exists j: nat :: j < count && j !in matched
  {
    var steps := UnknownSteps(count, matched, op, at);
    Edits.InConcat(steps, c);
    forall j: nat | j < count ensures c in steps[j] <==> c == Change(Notable, op, at) && j !in matched {}
  }

  ghost predicate NameLost(xs: seq<Schema>, ys: seq<Schema>) {
    exists i: nat :: i < |xs| && KeyAt(xs, i) !in VariantKeys(ys)
  }

  lemma InOldSteps(dir: Direction, before: Schema, after: Schema, op: string, at: string, c: Change)
    requires Unions(before, after) && SameByName(dir, Alternatives(before).variants, Alternatives(after).variants)
    ensures c in Concat(VariantSteps(dir, before, after, op, at)) <==>
      c == Change(Breaking, op, at) && NameLost(Alternatives(before).variants, Alternatives(after).variants)
  {
    hide Alternatives, Unions, SameByName, KeyAt, VariantKeys, VariantChange;
    var xs, ys := Alternatives(before).variants, Alternatives(after).variants;
    var steps := VariantSteps(dir, before, after, op, at);
    Edits.InConcat(steps, c);
    forall i: nat | i < |xs| ensures c in steps[i] <==> c == Change(Breaking, op, at) && KeyAt(xs, i) !in VariantKeys(ys) {
      OldBranch(dir, before, after, i, op, at);
    }
  }

  lemma InNewSteps(dir: Direction, before: Schema, after: Schema, op: string, at: string, c: Change)
    requires Unions(before, after) && SameByName(dir, Alternatives(before).variants, Alternatives(after).variants)
    ensures var xs, ys := Alternatives(before).variants, Alternatives(after).variants;
      c in NewBranchChanges(dir, xs, ys, op, at) <==> c == Change(Notable, op, at) && dir.Response? && NameLost(ys, xs)
  {
    hide Alternatives, Pairs, SelfLeaf, PlainKinds, SameByName, KeyAt, VariantKeys, UnknownChanges;
    var xs, ys := Alternatives(before).variants, Alternatives(after).variants;
    PairedByName(dir, xs, ys);
    InUnknown(|ys|, Pairs(dir, xs, ys).Values, op, at, c);
  }

  /** A branch lost is breaking in both directions; a branch gained is a note in a response and nothing in a request. */
  lemma NamesEdited(dir: Direction, before: Schema, after: Schema, op: string, at: string)
    requires Unions(before, after) && SameByName(dir, Alternatives(before).variants, Alternatives(after).variants)
    ensures var xs, ys := Alternatives(before).variants, Alternatives(after).variants;
      forall c :: c in Compare(dir, before, after, op, at) <==>
        || (c == Change(Breaking, op, at) && NameLost(xs, ys))
        || (c == Change(Notable, op, at) && dir.Response? && NameLost(ys, xs))
  {
    hide Alternatives, SameByName, NameLost, NewBranchChanges, VariantSteps;
    var xs, ys := Alternatives(before).variants, Alternatives(after).variants;
    NothingOfNull(dir, before, after, op, at);
    hide Compare, Unions;
    forall c ensures c in Compare(dir, before, after, op, at) <==>
        || (c == Change(Breaking, op, at) && NameLost(xs, ys))
        || (c == Change(Notable, op, at) && dir.Response? && NameLost(ys, xs))
    {
      InOldSteps(dir, before, after, op, at, c);
      InNewSteps(dir, before, after, op, at, c);
    }
  }

  lemma NothingOfNull(dir: Direction, before: Schema, after: Schema, op: string, at: string)
    requires Unions(before, after)
    ensures Compare(dir, before, after, op, at) ==
      Concat(VariantSteps(dir, before, after, op, at))
      + NewBranchChanges(dir, Alternatives(before).variants, Alternatives(after).variants, op, at)
  {
    hide Alternatives, VariantSteps, NewBranchChanges, SelfLeaf, PlainKinds, IsUnion;
    assert NullChanges(dir, Alternatives(before), Alternatives(after), op, at) == [];
  }

  // -- branches of a kind each -----------------------------------------------------------------------

  predicate KindsDiffer(ss: seq<Schema>) {
    forall i, j :: 0 <= i < j < |ss| ==> KindOf(ss[i]) != KindOf(ss[j])
  }

  predicate HasKind(ss: seq<Schema>, kind: string) {
    exists i :: 0 <= i < |ss| && KindOf(ss[i]) == kind
  }

  lemma {:induction false} CountOf(ss: seq<Schema>, kind: string)
    requires KindsDiffer(ss)
    ensures CountKind(ss, kind) <= 1
    ensures CountKind(ss, kind) == 0 <==> !HasKind(ss, kind)
    decreases ss
  {
    hide KindOf;
    if ss != [] {
      CountOf(ss[1..], kind);
      if i :| 0 <= i < |ss| && KindOf(ss[i]) == kind {
        if i > 0 { assert KindOf(ss[1..][i - 1]) == kind; }
      }
      if i :| 0 <= i < |ss[1..]| && KindOf(ss[1..][i]) == kind { assert KindOf(ss[i + 1]) == kind; }
    }
  }

  lemma KeysAreKinds(ss: seq<Schema>, i: nat)
    requires KindsDiffer(ss) && i < |ss|
    ensures KeyAt(ss, i) == KindOf(ss[i])
  {
    hide KindOf;
    CountOf(ss, KindOf(ss[i]));
    CountOf(ss, "object");
  }

  lemma KindIsKey(ss: seq<Schema>, kind: string)
    requires KindsDiffer(ss)
    ensures kind in VariantKeys(ss) <==> HasKind(ss, kind)
  {
    hide KindOf, KeyAt;
    forall i: nat | i < |ss| ensures VariantKeys(ss)[i] == KindOf(ss[i]) { KeysAreKinds(ss, i); }
    if HasKind(ss, kind) {
      var i: nat :| i < |ss| && KindOf(ss[i]) == kind;
      assert VariantKeys(ss)[i] == kind;
    }
  }

  /** Kinds kept keep their schema, and no kind lost is taken for one gained. */
  ghost predicate SameByKind(dir: Direction, xs: seq<Schema>, ys: seq<Schema>) {
    && (forall i, j :: 0 <= i < |xs| && 0 <= j < |ys| && KindOf(xs[i]) == KindOf(ys[j]) ==> xs[i] == ys[j])
    && forall i, j :: 0 <= i < |xs| && 0 <= j < |ys| && !HasKind(ys, KindOf(xs[i])) && !HasKind(xs, KindOf(ys[j])) ==>
         !Compatible(dir, KindOf(xs[i]), KindOf(ys[j]))
  }

  /** Branches of different kinds, some lost, some gained. */
  lemma KindsEdited(dir: Direction, before: Schema, after: Schema, op: string, at: string)
    requires Unions(before, after)
    requires KindsDiffer(Alternatives(before).variants) && KindsDiffer(Alternatives(after).variants)
    requires SameByKind(dir, Alternatives(before).variants, Alternatives(after).variants)
    ensures var xs, ys := Alternatives(before).variants, Alternatives(after).variants;
      forall c :: c in Compare(dir, before, after, op, at) <==>
        || (c == Change(Breaking, op, at) && exists i: nat :: i < |xs| && !HasKind(ys, KindOf(xs[i])))
        || (c == Change(Notable, op, at) && dir.Response? && exists j: nat :: j < |ys| && !HasKind(xs, KindOf(ys[j])))
  {
    hide Alternatives, Compare, Unions, KindsDiffer, KindOf, KeyAt, VariantKeys, HasKind, Compatible;
    var xs, ys := Alternatives(before).variants, Alternatives(after).variants;
    forall i: nat | i < |xs| ensures KeyAt(xs, i) == KindOf(xs[i]) && (KindOf(xs[i]) in VariantKeys(ys) <==> HasKind(ys, KindOf(xs[i]))) {
      KeysAreKinds(xs, i);
      KindIsKey(ys, KindOf(xs[i]));
    }
    forall j: nat | j < |ys| ensures KeyAt(ys, j) == KindOf(ys[j]) && (KindOf(ys[j]) in VariantKeys(xs) <==> HasKind(xs, KindOf(ys[j]))) {
      KeysAreKinds(ys, j);
      KindIsKey(xs, KindOf(ys[j]));
    }
    hide TagAgrees, Plain;
    NamesEdited(dir, before, after, op, at);
  }

  // -- objects told apart by a tag --------------------------------------------------------------------

  /** Two or more objects, told apart by this property alone. */
  ghost predicate TaggedBy(ss: seq<Schema>, name: string) {
    |ss| > 1 && (forall i :: 0 <= i < |ss| ==> IsObject(ss[i])) && OnlyTag(ss, name)
  }

  function TagText(s: Schema, name: string): string {
    var tag := TagOf(s, name); if tag.Some? then Text(tag.value) else ""
  }

  predicate HasTag(ss: seq<Schema>, name: string, text: string) {
    exists i :: 0 <= i < |ss| && TagText(ss[i], name) == text
  }

  lemma {:induction false} AllObjects(ss: seq<Schema>)
    requires forall i :: 0 <= i < |ss| ==> IsObject(ss[i])
    ensures CountKind(ss, "object") == |ss| && (ss != [] ==> FirstObject(ss) == Some(ss[0]))
    decreases ss
  {
    if ss != [] { AllObjects(ss[1..]); }
  }

  lemma TagIsFound(ss: seq<Schema>, name: string)
    requires TaggedBy(ss, name)
    ensures Discriminator(ss) == Some(name)
  {
    hide KindOf, TagOf, CountKind, FirstObject;
    AllObjects(ss);
    var props := PropertiesOf(ss[0]);
    TagIsDeclared(ss[0], name);
    var i :| 0 <= i < |props| && props[i].name == name;
    assert Discriminates(ss, props[i].name);
    assert FirstDiscriminator(ss, props).Some?;
  }

  lemma TagIsDeclared(s: Schema, name: string)
    requires TagOf(s, name).Some?
    ensures exists i :: 0 <= i < |PropertiesOf(s)| && PropertiesOf(s)[i].name == name
  {
  }

  lemma KeyIsTag(ss: seq<Schema>, name: string, i: nat)
    requires TaggedBy(ss, name) && i < |ss|
    ensures KeyAt(ss, i) == KeyText("object", Some((name, TagText(ss[i], name))), true, 0) && !Plain(KeyAt(ss, i))
  {
    hide KeyAt, Discriminator, OnlyTag;
    TagIsFound(ss, name);
    TaggedKey(ss, name, i);
  }

  lemma TagIsKey(ss: seq<Schema>, name: string, text: string)
    requires TaggedBy(ss, name)
    ensures KeyText("object", Some((name, text)), true, 0) in VariantKeys(ss) <==> HasTag(ss, name, text)
  {
    hide KeyAt, TagText, TaggedBy, KeyText;
    var key := KeyText("object", Some((name, text)), true, 0);
    forall i: nat | i < |ss| ensures VariantKeys(ss)[i] == key <==> TagText(ss[i], name) == text {
      KeyIsTag(ss, name, i);
      if VariantKeys(ss)[i] == key {
        SameTagText(name, TagText(ss[i], name), text);
      }
    }
    if HasTag(ss, name, text) {
      var i: nat :| i < |ss| && TagText(ss[i], name) == text;
      assert VariantKeys(ss)[i] == key;
    }
  }

  lemma SameTagText(name: string, x: string, y: string)
    requires KeyText("object", Some((name, x)), true, 0) == KeyText("object", Some((name, y)), true, 0)
    ensures x == y
  {
    TaggedText(name, x, 0);
    TaggedText(name, y, 0);
    hide KeyText;
    TagTextsDistinct(name, x, y);
  }

  /** Branches of a discriminated union, some lost, some gained. */
  lemma TagsEdited(dir: Direction, before: Schema, after: Schema, name: string, op: string, at: string)
    requires Unions(before, after)
    requires TaggedBy(Alternatives(before).variants, name) && TaggedBy(Alternatives(after).variants, name)
    requires var xs, ys := Alternatives(before).variants, Alternatives(after).variants;
      forall i, j :: 0 <= i < |xs| && 0 <= j < |ys| && TagText(xs[i], name) == TagText(ys[j], name) ==> xs[i] == ys[j]
    ensures var xs, ys := Alternatives(before).variants, Alternatives(after).variants;
      forall c :: c in Compare(dir, before, after, op, at) <==>
        || (c == Change(Breaking, op, at) && exists i: nat :: i < |xs| && !HasTag(ys, name, TagText(xs[i], name)))
        || (c == Change(Notable, op, at) && dir.Response? && exists j: nat :: j < |ys| && !HasTag(xs, name, TagText(ys[j], name)))
  {
    hide Alternatives, Compare, Unions, KeyAt, VariantKeys, HasTag, TaggedBy, TagText, Plain, TagAgrees, Compatible, KeyText;
    var xs, ys := Alternatives(before).variants, Alternatives(after).variants;
    forall i: nat | i < |xs| ensures KeyAt(xs, i) in VariantKeys(ys) <==> HasTag(ys, name, TagText(xs[i], name)) {
      KeyIsTag(xs, name, i);
      TagIsKey(ys, name, TagText(xs[i], name));
    }
    forall j: nat | j < |ys| ensures KeyAt(ys, j) in VariantKeys(xs) <==> HasTag(xs, name, TagText(ys[j], name)) {
      KeyIsTag(ys, name, j);
      TagIsKey(xs, name, TagText(ys[j], name));
    }
    forall i, j | 0 <= i < |xs| && 0 <= j < |ys|
      ensures KeyAt(xs, i) == KeyAt(ys, j) ==> xs[i] == ys[j]
      ensures !Candidate(dir, xs[i], KeyAt(xs, i), ys[j], KeyAt(ys, j))
    {
      KeyIsTag(xs, name, i);
      KeyIsTag(ys, name, j);
      if KeyAt(xs, i) == KeyAt(ys, j) { SameTagText(name, TagText(xs[i], name), TagText(ys[j], name)); }
    }
    NamesEdited(dir, before, after, op, at);
  }
}
