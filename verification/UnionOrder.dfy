/**
 * What reordering the branches of a union changes: a tagged branch and the only
 * branch of a kind are found again, the other branches are compared by
 * position.
 */
module UnionOrder {
  import opened JsonValues
  import opened Schemas
  import opened Pairing
  import opened Comparison
  import opened Fitting
  import opened Reflexivity

  /** The same elements in another order. */
  ghost predicate Reordered<T>(xs: seq<T>, ys: seq<T>) {
    multiset(xs) == multiset(ys)
  }

  function OneOf(ss: seq<Schema>): Schema {
    ANY.(oneOf := Listed(ss))
  }

  /** The same union, with its branches in another order. */
  ghost predicate BranchesReordered(before: Schema, after: Schema) {
    || (&& before.anyOf.Listed? && after.anyOf.Listed? && after == before.(anyOf := after.anyOf)
        && Reordered(before.anyOf.list, after.anyOf.list))
    || (&& before.anyOf.Absent? && before.oneOf.Listed? && after.oneOf.Listed? && after == before.(oneOf := after.oneOf)
        && Reordered(before.oneOf.list, after.oneOf.list))
  }

  // -- reordered lists ---------------------------------------------------------------------

  lemma SameElements<T>(xs: seq<T>, ys: seq<T>)
    requires Reordered(xs, ys)
    ensures |xs| == |ys| && forall x :: x in xs <==> x in ys
  {
    assert |multiset(xs)| == |xs| && |multiset(ys)| == |ys|;
    forall x ensures x in xs <==> x in ys {
      assert x in xs <==> x in multiset(xs);
      assert x in ys <==> x in multiset(ys);
    }
  }

  lemma Find<T>(ss: seq<T>, s: T) returns (i: nat)
    requires s in ss
    ensures i < |ss| && ss[i] == s
  {
    i :| 0 <= i < |ss| && ss[i] == s;
  }

  lemma Cancelled<T(!new)>(x: T, rest: seq<T>, a: seq<T>, b: seq<T>)
    requires Reordered([x] + rest, a + ([x] + b))
    ensures Reordered(rest, a + b)
  {
    assert multiset([x] + rest) == multiset{x} + multiset(rest);
    assert multiset(a + ([x] + b)) == multiset{x} + (multiset(a) + multiset(b));
    assert multiset(a + b) == multiset(a) + multiset(b);
    TakenOut(multiset{x}, multiset(rest), multiset(a) + multiset(b));
  }

  lemma TakenOut<T(!new)>(x: multiset<T>, m: multiset<T>, n: multiset<T>)
    requires x + m == x + n
    ensures m == n
  {
    forall e ensures m[e] == n[e] {
      assert (x + m)[e] == x[e] + m[e] && (x + n)[e] == x[e] + n[e];
    }
  }

  lemma CutAt<T>(ss: seq<T>, j: nat)
    requires j < |ss|
    ensures ss == ss[..j] + ([ss[j]] + ss[j + 1..])
  {
  }

  /** Where the first element stands in the other order. */
  lemma FirstRemoved<T(!new)>(xs: seq<T>, ys: seq<T>) returns (a: seq<T>, b: seq<T>)
    requires Reordered(xs, ys) && xs != []
    ensures ys == a + ([xs[0]] + b) && Reordered(xs[1..], a + b)
  {
    hide Reordered;
    SameElements(xs, ys);
    assert xs[0] in xs;
    var j := Find(ys, xs[0]);
    a, b := ys[..j], ys[j + 1..];
    CutAt(ys, j);
    assert xs == [xs[0]] + xs[1..];
    Cancelled(xs[0], xs[1..], a, b);
  }

  lemma Twice<T>(ss: seq<T>, i: nat, j: nat)
    requires i < j < |ss| && ss[i] == ss[j]
    ensures multiset(ss)[ss[i]] >= 2
  {
    assert ss == ss[..j] + ss[j..];
    assert ss[..j][i] == ss[i] && ss[j..][0] == ss[j];
  }

  lemma {:induction false} TwoPlaces<T>(ss: seq<T>, s: T) returns (i: nat, j: nat)
    requires multiset(ss)[s] >= 2
    ensures i < j < |ss| && ss[i] == ss[j] == s
  {
    assert s in multiset(ss);
    i := Find(ss, s);
    var others := ss[..i] + ss[i + 1..];
    assert ss == ss[..i] + [ss[i]] + ss[i + 1..];
    assert multiset(others)[s] >= 1;
    var k := Find(others, s);
    if k < i {
      assert others[k] == ss[k];
      i, j := k, i;
    } else {
      assert others[k] == ss[k + 1];
      j := k + 1;
    }
  }

  // -- what does not depend on the order -----------------------------------------------------

  lemma {:induction false} CountSplit(a: seq<Schema>, b: seq<Schema>, kind: string)
    ensures CountKind(a + b, kind) == CountKind(a, kind) + CountKind(b, kind)
  {
    if a == [] {
      assert a + b == b;
    } else {
      assert (a + b)[1..] == a[1..] + b;
      CountSplit(a[1..], b, kind);
    }
  }

  lemma {:induction false} CountReordered(xs: seq<Schema>, ys: seq<Schema>, kind: string)
    requires Reordered(xs, ys)
    ensures CountKind(xs, kind) == CountKind(ys, kind)
    decreases xs
  {
    hide KindOf;
    SameElements(xs, ys);
    if xs != [] {
      var a, b := FirstRemoved(xs, ys);
      CountReordered(xs[1..], a + b, kind);
      CountSplit(a, [xs[0]] + b, kind);
      CountSplit(a, b, kind);
      assert ([xs[0]] + b)[1..] == b;
    }
  }

  lemma DiscriminatesReordered(xs: seq<Schema>, ys: seq<Schema>, name: string)
    requires Reordered(xs, ys) && Discriminates(xs, name)
    ensures Discriminates(ys, name)
  {
    hide KindOf, TagOf, Reordered;
    SameElements(xs, ys);
    forall j | 0 <= j < |ys| && IsObject(ys[j]) ensures TagOf(ys[j], name).Some? {
      var i := Find(xs, ys[j]);
    }
    forall j, k | 0 <= j < k < |ys| && IsObject(ys[j]) && IsObject(ys[k])
      ensures Text(TagOf(ys[j], name).value) != Text(TagOf(ys[k], name).value)
    {
      TagsDiffer(xs, ys, name, j, k);
    }
  }

  lemma TagsDiffer(xs: seq<Schema>, ys: seq<Schema>, name: string, j: nat, k: nat)
    requires Reordered(xs, ys) && Discriminates(xs, name) && j < k < |ys| && IsObject(ys[j]) && IsObject(ys[k])
    ensures TagOf(ys[j], name).Some? && TagOf(ys[k], name).Some?
    ensures Text(TagOf(ys[j], name).value) != Text(TagOf(ys[k], name).value)
  {
    hide KindOf, TagOf;
    SameElements(xs, ys);
    var x := Find(xs, ys[j]);
    var y := Find(xs, ys[k]);
    if ys[j] == ys[k] {
      Twice(ys, j, k);
      var a, b := TwoPlaces(xs, ys[j]);
    }
  }

  lemma {:induction false} FirstObjectIs(ss: seq<Schema>)
    requires CountKind(ss, "object") > 0
    ensures FirstObject(ss).Some? && FirstObject(ss).value in ss && IsObject(FirstObject(ss).value)
  {
    hide KindOf;
    if !IsObject(ss[0]) {
      FirstObjectIs(ss[1..]);
      var i := Find(ss[1..], FirstObject(ss).value);
      assert ss[i + 1] == FirstObject(ss).value;
    }
  }

  /** A property that tells the objects apart does so in any order, so a tagged union stays one. */
  lemma StillTagged(xs: seq<Schema>, ys: seq<Schema>)
    requires Reordered(xs, ys) && Discriminator(xs).Some?
    ensures Discriminator(ys).Some?
  {
    hide KindOf, Reordered, Discriminates;
    var name := Discriminator(xs).value;
    CountReordered(xs, ys, "object");
    DiscriminatesReordered(xs, ys, name);
    FirstObjectIs(ys);
    var first := FirstObject(ys).value;
    FirstHasTag(ys, first, name);
    var props := PropertiesOf(first);
    var i :| 0 <= i < |props| && props[i].name == name;
  }

  lemma FirstHasTag(ss: seq<Schema>, s: Schema, name: string)
    requires Discriminates(ss, name) && s in ss && IsObject(s)
    ensures Declares(PropertiesOf(s), name)
  {
    var i := Find(ss, s);
    assert Lookup(PropertiesOf(s), name).Some?;
  }

  // -- which names meet ------------------------------------------------------------------------

  /** One of several of its kind, with no tag to tell it by. */
  predicate Crowded(ss: seq<Schema>, i: nat)
    requires i < |ss|
  {
    CountKind(ss, KindOf(ss[i])) > 1 && !(IsObject(ss[i]) && Discriminator(ss).Some?)
  }

  /** No tag property has a name with the separator of a branch's name. */
  predicate PlainTag(ss: seq<Schema>) {
    Discriminator(ss).Some? ==> '=' !in Discriminator(ss).value
  }

  lemma CrowdedKey(ss: seq<Schema>, i: nat)
    requires i < |ss| && Crowded(ss, i)
    ensures KeyAt(ss, i) == KindOf(ss[i]) + "#" + NatText(i) && !Plain(KeyAt(ss, i))
  {
    hide KindOf, CountKind, Discriminator;
    assert KeyAt(ss, i)[|KindOf(ss[i])|] == '#';
  }

  lemma LoneKeyIs(ss: seq<Schema>, i: nat)
    requires i < |ss| && !Crowded(ss, i) && !(IsObject(ss[i]) && Discriminator(ss).Some?)
    ensures KeyAt(ss, i) == KindOf(ss[i])
  {
    hide KindOf, CountKind, Discriminator;
  }

  lemma TaggedKey(ss: seq<Schema>, name: string, i: nat)
    requires Discriminator(ss) == Some(name) && i < |ss| && IsObject(ss[i])
    ensures TagOf(ss[i], name).Some?
    ensures KeyAt(ss, i) == KeyText("object", Some((name, Text(TagOf(ss[i], name).value))), true, i)
    ensures !Plain(KeyAt(ss, i))
  {
    assert Discriminates(ss, name);
    hide KindOf, CountKind, Discriminator, TagOf, Plain;
    TaggedText(name, Text(TagOf(ss[i], name).value), i);
  }

  lemma TaggedText(name: string, value: string, i: nat)
    ensures !Plain(KeyText("object", Some((name, value)), true, i))
    ensures forall crowded :: KeyText("object", Some((name, value)), crowded, i) == KeyText("object", Some((name, value)), true, i)
  {
    assert KeyText("object", Some((name, value)), true, i)[6] == '(';
  }

  lemma TagRead(name: string, value: string)
    requires '=' !in name
    ensures var key := KeyText("object", Some((name, value)), true, 0); |key| > 7 && Prefix(key[7..], {'='}) == name
  {
    var key := KeyText("object", Some((name, value)), true, 0);
    var tail := "=" + value + ")";
    assert key == "object(" + (name + tail);
    assert key[7..] == name + tail;
    PrefixOf(name, tail, {'='});
  }

  /** The names of two tagged branches agree exactly when tag and branch do. */
  lemma TaggedMeet(xs: seq<Schema>, ys: seq<Schema>, i: nat, j: nat)
    requires Reordered(xs, ys) && i < |xs| && j < |ys| && IsObject(xs[i]) && IsObject(ys[j])
    requires Discriminator(xs).Some? && Discriminator(ys).Some? && PlainTag(xs) && PlainTag(ys)
    ensures KeyAt(xs, i) == KeyAt(ys, j) <==> Discriminator(xs) == Discriminator(ys) && xs[i] == ys[j]
  {
    hide KindOf, KeyAt, Reordered, Discriminator, TagOf;
    var x, y := Discriminator(xs).value, Discriminator(ys).value;
    TaggedKey(xs, x, i);
    TaggedKey(ys, y, j);
    var textX, textY := Text(TagOf(xs[i], x).value), Text(TagOf(ys[j], y).value);
    TagRead(x, textX);
    TagRead(y, textY);
    if KeyAt(xs, i) == KeyAt(ys, j) {
      TagTextsDistinct(x, textX, textY);
      SameElements(xs, ys);
      var k := Find(xs, ys[j]);
      SameTag(xs, x, i, k);
    }
  }

  lemma SameTag(ss: seq<Schema>, name: string, i: nat, k: nat)
    requires Discriminator(ss) == Some(name) && i < |ss| && k < |ss| && IsObject(ss[i]) && IsObject(ss[k])
    ensures TagOf(ss[i], name).Some? && TagOf(ss[k], name).Some?
    ensures Text(TagOf(ss[i], name).value) == Text(TagOf(ss[k], name).value) ==> i == k
  {
    assert Discriminates(ss, name);
    hide KindOf, TagOf, Discriminator;
  }

  /** A crowded branch meets only what stands at its place. */
  lemma CrowdedMeet(xs: seq<Schema>, ys: seq<Schema>, i: nat, j: nat)
    requires Reordered(xs, ys) && PlainKinds(xs) && PlainKinds(ys) && i < |xs| && j < |ys| && Crowded(xs, i)
    requires Discriminator(xs).Some? <==> Discriminator(ys).Some?
    ensures KeyAt(xs, i) == KeyAt(ys, j) <==> i == j && KindOf(xs[i]) == KindOf(ys[j])
  {
    hide KindOf, CountKind, KeyAt, Discriminator, PlainKinds;
    CrowdedKey(xs, i);
    if KeyAt(xs, i) == KeyAt(ys, j) { SameKeySameKind(xs, i, ys, j); }
    if KindOf(xs[i]) == KindOf(ys[j]) {
      CountReordered(xs, ys, KindOf(xs[i]));
      CrowdedKey(ys, j);
      if KeyAt(xs, i) == KeyAt(ys, j) { IndexTextsDistinct(KindOf(xs[i]), i, j); }
    }
  }

  /** The only branch of a kind meets itself. */
  lemma LoneMeet(xs: seq<Schema>, ys: seq<Schema>, i: nat, j: nat)
    requires Reordered(xs, ys) && PlainKinds(xs) && PlainKinds(ys) && i < |xs| && j < |ys|
    requires !Crowded(xs, i) && !(IsObject(xs[i]) && Discriminator(xs).Some?)
    requires Discriminator(xs).Some? <==> Discriminator(ys).Some?
    ensures KeyAt(xs, i) == KeyAt(ys, j) <==> xs[i] == ys[j]
  {
    hide KindOf, CountKind, KeyAt, Discriminator, PlainKinds;
    LoneKeyIs(xs, i);
    if KeyAt(xs, i) == KeyAt(ys, j) { SameKeySameKind(xs, i, ys, j); }
    if KindOf(xs[i]) == KindOf(ys[j]) {
      CountReordered(xs, ys, KindOf(xs[i]));
      LoneKeyIs(ys, j);
      SameElements(xs, ys);
      var k := Find(ys, xs[i]);
      if k < j { CountAtLeast(ys, k, j); } else if j < k { CountAtLeast(ys, j, k); }
    }
  }

  /** Whether the `i`-th old branch meets the `j`-th new one. */
  predicate Meets(xs: seq<Schema>, ys: seq<Schema>, i: nat, j: nat)
    requires i < |xs| && j < |ys|
  {
    if Crowded(xs, i) then i == j && KindOf(xs[i]) == KindOf(ys[j])
    else xs[i] == ys[j] && (IsObject(xs[i]) ==> Discriminator(xs) == Discriminator(ys))
  }

  lemma NamesMeet(xs: seq<Schema>, ys: seq<Schema>, i: nat, j: nat)
    requires Reordered(xs, ys) && PlainKinds(xs) && PlainKinds(ys) && PlainTag(xs) && PlainTag(ys) && i < |xs| && j < |ys|
    ensures KeyAt(xs, i) == KeyAt(ys, j) <==> Meets(xs, ys, i, j)
  {
    hide KindOf, CountKind, KeyAt, Discriminator, PlainKinds, PlainTag, Reordered, IsObject;
    if Discriminator(xs).Some? { StillTagged(xs, ys); }
    SwapReordered(xs, ys);
    if Discriminator(ys).Some? { StillTagged(ys, xs); }
    if Crowded(xs, i) {
      CrowdedMeet(xs, ys, i, j);
    } else if IsObject(xs[i]) && Discriminator(xs).Some? {
      if IsObject(ys[j]) {
        TaggedMeet(xs, ys, i, j);
      } else if KeyAt(xs, i) == KeyAt(ys, j) {
        SameKeySameKind(xs, i, ys, j);
        SameKind(xs[i], ys[j]);
      }
    } else {
      LoneMeet(xs, ys, i, j);
    }
  }

  lemma SameKind(a: Schema, b: Schema)
    requires KindOf(a) == KindOf(b)
    ensures IsObject(a) <==> IsObject(b)
  {
  }

  // -- the pairing of a reordered list -----------------------------------------------------------

  predicate AllDistinct(keys: seq<string>) {
    forall i, j :: 0 <= i < j < |keys| ==> keys[i] != keys[j]
  }

  /** The first `i` old names are paired with their equals. */
  ghost predicate NamePairs(keysA: seq<string>, keysB: seq<string>, i: nat, pairs: map<nat, nat>) {
    && Between(pairs, |keysA|, |keysB|)
    && (forall k :: k in pairs <==> 0 <= k < i && k < |keysA| && keysA[k] in keysB)
    && (forall k :: k in pairs ==> keysB[pairs[k]] == keysA[k])
  }

  lemma NamePairsStep(keysA: seq<string>, keysB: seq<string>, i: nat, pairs: map<nat, nat>)
    requires AllDistinct(keysA) && i < |keysA| && NamePairs(keysA, keysB, i, pairs)
    ensures NamePairs(keysA, keysB, i + 1, NameStep(keysA, keysB, i, pairs))
  {
    var j := IndexOf(keysB, keysA[i]);
    if j >= 0 { assert j !in pairs.Values; }
  }

  lemma {:induction false} ByNameExact(keysA: seq<string>, keysB: seq<string>, i: nat, pairs: map<nat, nat>)
    requires AllDistinct(keysA) && i <= |keysA| && NamePairs(keysA, keysB, i, pairs)
    ensures NamePairs(keysA, keysB, |keysA|, ByName(keysA, keysB, i, pairs))
    decreases |keysA| - i
  {
    hide NamePairs, NameStep, AllDistinct;
    assert Between(pairs, |keysA|, |keysB|) by { PairsAreBetween(keysA, keysB, i, pairs); }
    if i < |keysA| {
      NamePairsStep(keysA, keysB, i, pairs);
      ByNameExact(keysA, keysB, i + 1, NameStep(keysA, keysB, i, pairs));
    }
  }

  lemma PairsAreBetween(keysA: seq<string>, keysB: seq<string>, i: nat, pairs: map<nat, nat>)
    requires NamePairs(keysA, keysB, i, pairs)
    ensures Between(pairs, |keysA|, |keysB|)
  {
  }

  /** Where no plain name is left on either side, nothing more is paired. */
  lemma {:induction false} NothingLeft(dir: Direction, xs: seq<Schema>, ys: seq<Schema>, keysA: seq<string>, keysB: seq<string>, i: nat, pairs: map<nat, nat>)
    requires |keysA| == |xs| && |keysB| == |ys| && i <= |xs| && Between(pairs, |xs|, |ys|)
    requires forall k :: 0 <= k < |keysA| && k !in pairs ==> !Plain(keysA[k])
    requires forall k :: 0 <= k < |keysB| && k !in pairs.Values ==> !Plain(keysB[k])
    ensures Leftovers(dir, xs, ys, keysA, keysB, i, pairs) == pairs
    decreases |xs| - i
  {
    hide Candidate;
    if i < |xs| {
      if i !in pairs { NoCandidates(dir, xs[i], keysA[i], ys, keysB, pairs.Values, 0); }
      NothingLeft(dir, xs, ys, keysA, keysB, i + 1, pairs);
    }
  }

  lemma {:induction false} NoCandidates(dir: Direction, s: Schema, key: string, ys: seq<Schema>, keys: seq<string>, taken: set<nat>, j: nat)
    requires |keys| == |ys| && !Plain(key) && j <= |ys|
    requires forall k :: 0 <= k < |keys| && k !in taken ==> !Plain(keys[k])
    ensures Candidates(dir, s, key, ys, keys, taken, j) == []
    decreases |ys| - j
  {
    if j < |ys| { NoCandidates(dir, s, key, ys, keys, taken, j + 1); }
  }

  /** A branch whose name is not found again has no plain name. */
  lemma LostIsNotPlain(xs: seq<Schema>, ys: seq<Schema>, i: nat)
    requires Reordered(xs, ys) && PlainKinds(xs) && PlainKinds(ys) && PlainTag(xs) && PlainTag(ys) && i < |xs|
    requires KeyAt(xs, i) !in VariantKeys(ys)
    ensures !Plain(KeyAt(xs, i))
  {
    hide KindOf, CountKind, KeyAt, Discriminator, PlainKinds, PlainTag, Reordered, IsObject, Plain;
    if Crowded(xs, i) {
      CrowdedKey(xs, i);
    } else if IsObject(xs[i]) && Discriminator(xs).Some? {
      TaggedKey(xs, Discriminator(xs).value, i);
    } else {
      LoneIsFound(xs, ys, i);
    }
  }

  lemma LoneIsFound(xs: seq<Schema>, ys: seq<Schema>, i: nat)
    requires Reordered(xs, ys) && PlainKinds(xs) && PlainKinds(ys) && i < |xs|
    requires !Crowded(xs, i) && !(IsObject(xs[i]) && Discriminator(xs).Some?)
    ensures KeyAt(xs, i) in VariantKeys(ys)
  {
    hide KindOf, CountKind, KeyAt, Discriminator, PlainKinds, Reordered, IsObject;
    SameElements(xs, ys);
    var j := Find(ys, xs[i]);
    SwapReordered(xs, ys);
    if Discriminator(xs).Some? { StillTagged(xs, ys); }
    if Discriminator(ys).Some? { StillTagged(ys, xs); }
    LoneMeet(xs, ys, i, j);
    assert VariantKeys(ys)[j] == KeyAt(ys, j);
  }

  lemma KeysAreDistinct(ss: seq<Schema>)
    requires PlainKinds(ss)
    ensures AllDistinct(VariantKeys(ss))
  {
    hide KeyAt, PlainKinds;
    forall i, j | 0 <= i < j < |ss| ensures VariantKeys(ss)[i] != VariantKeys(ss)[j] { KeysDistinct(ss, i, j); }
  }

  /** What was not paired by name is not paired at all. */
  lemma PairsAreNames(dir: Direction, xs: seq<Schema>, ys: seq<Schema>)
    requires Reordered(xs, ys) && PlainKinds(xs) && PlainKinds(ys) && PlainTag(xs) && PlainTag(ys)
    ensures NamePairs(VariantKeys(xs), VariantKeys(ys), |xs|, Pairs(dir, xs, ys))
  {
    hide KeyAt, Discriminator, PlainKinds, PlainTag, Reordered, Plain, ByName, Leftovers, VariantKeys;
    var keysA, keysB := VariantKeys(xs), VariantKeys(ys);
    KeysAreDistinct(xs);
    KeysAreDistinct(ys);
    ByNameExact(keysA, keysB, 0, map[]);
    var pairs := ByName(keysA, keysB, 0, map[]);
    forall k | 0 <= k < |keysA| && k !in pairs ensures !Plain(keysA[k]) { LostIsNotPlain(xs, ys, k); }
    forall k | 0 <= k < |keysB| && k !in pairs.Values ensures !Plain(keysB[k]) {
      if keysB[k] in keysA {
        var i := Find(keysA, keysB[k]);
        SamePlace(keysB, pairs[i], k);
        assert false;
      }
      SwapReordered(xs, ys);
      LostIsNotPlain(ys, xs, k);
    }
    NothingLeft(dir, xs, ys, keysA, keysB, 0, pairs);
  }

  lemma SamePlace(keys: seq<string>, i: nat, j: nat)
    requires AllDistinct(keys) && i < |keys| && j < |keys| && keys[i] == keys[j]
    ensures i == j
  {
  }

  lemma SwapReordered<T>(xs: seq<T>, ys: seq<T>)
    requires Reordered(xs, ys)
    ensures Reordered(ys, xs)
  {
  }

  /** The pairs are the branches that meet. */
  lemma PairsMeet(dir: Direction, xs: seq<Schema>, ys: seq<Schema>, i: nat)
    requires Reordered(xs, ys) && PlainKinds(xs) && PlainKinds(ys) && PlainTag(xs) && PlainTag(ys) && i < |xs|
    ensures var pairs := Pairs(dir, xs, ys);
      && (i in pairs <==> exists j :: 0 <= j < |ys| && Meets(xs, ys, i, j))
      && (i in pairs ==> Meets(xs, ys, i, pairs[i]))
  {
    hide KeyAt, Discriminator, PlainKinds, PlainTag, Reordered, Pairs, Meets;
    PairsAreNames(dir, xs, ys);
    var keysA, keysB := VariantKeys(xs), VariantKeys(ys);
    forall j | 0 <= j < |ys| ensures keysA[i] == keysB[j] <==> Meets(xs, ys, i, j) { NamesMeet(xs, ys, i, j); }
    if keysA[i] in keysB { var j := Find(keysB, keysA[i]); }
  }

  // -- the theorem ---------------------------------------------------------------------------------

  /** Every branch that is one of several of its kind, without a tag, has kept its place, or one that compares equal took it. */
  ghost predicate InPlace(dir: Direction, before: Schema, after: Schema, op: string, at: string)
    requires |Alternatives(before).variants| == |Alternatives(after).variants|
  {
    var xs, ys := Alternatives(before).variants, Alternatives(after).variants;
    forall i :: 0 <= i < |xs| && Crowded(xs, i) ==>
      KindOf(ys[i]) == KindOf(xs[i]) && CompareVariant(dir, xs[i], ys[i], op, VariantAt(before, after, i, at)) == []
  }

  ghost predicate Moved(xs: seq<Schema>, ys: seq<Schema>)
    requires |xs| == |ys|
  {
    exists i :: 0 <= i < |xs| && Crowded(xs, i) && KindOf(ys[i]) != KindOf(xs[i])
  }

  ghost predicate SameAlternatives(before: Schema, after: Schema) {
    var a, b := Alternatives(before), Alternatives(after);
    && !a.any && !b.any && a.nullable == b.nullable && Reordered(a.variants, b.variants)
    && |a.variants| == |b.variants|
    && PlainTag(a.variants) && PlainTag(b.variants)
    && (forall i :: 0 <= i < |a.variants| ==> SelfLeaf(a.variants[i]))
    && PlainKinds(a.variants) && PlainKinds(b.variants)
  }

  lemma StepIs(dir: Direction, before: Schema, after: Schema, i: nat, op: string, at: string)
    requires SameAlternatives(before, after) && i < |Alternatives(before).variants|
    ensures var xs, ys := Alternatives(before).variants, Alternatives(after).variants;
      && (Crowded(xs, i) && KindOf(ys[i]) == KindOf(xs[i]) ==>
            VariantChange(dir, before, after, i, op, at) == CompareVariant(dir, xs[i], ys[i], op, VariantAt(before, after, i, at)))
      && (Crowded(xs, i) && KindOf(ys[i]) != KindOf(xs[i]) ==> VariantChange(dir, before, after, i, op, at) == [Change(Breaking, op, at)])
      && (!Crowded(xs, i) && (IsObject(xs[i]) ==> Discriminator(xs) == Discriminator(ys)) ==>
            VariantChange(dir, before, after, i, op, at) == [])
      && (!Crowded(xs, i) && IsObject(xs[i]) && Discriminator(xs) != Discriminator(ys) ==>
            VariantChange(dir, before, after, i, op, at) == [Change(Breaking, op, at)])
  {
    hide Alternatives, Pairs, CompareVariant, VariantAt, Reordered, PlainKinds, PlainTag, SelfLeaf, Crowded, KindOf, Discriminator, IsObject;
    var xs, ys := Alternatives(before).variants, Alternatives(after).variants;
    PairsMeet(dir, xs, ys, i);
    SameElements(xs, ys);
    if Crowded(xs, i) {
      if KindOf(ys[i]) == KindOf(xs[i]) { assert Meets(xs, ys, i, i); }
    } else {
      var j := Find(ys, xs[i]);
      SelfVariantSilent(dir, xs[i], op, VariantAt(before, after, i, at));
      if IsObject(xs[i]) ==> Discriminator(xs) == Discriminator(ys) { assert Meets(xs, ys, i, j); }
    }
  }

  lemma LostBreaks(dir: Direction, before: Schema, after: Schema, i: nat, op: string, at: string)
    requires !Alternatives(before).any && !Alternatives(after).any && i < |Alternatives(before).variants|
    requires VariantChange(dir, before, after, i, op, at) == [Change(Breaking, op, at)]
    ensures exists c :: c in Compare(dir, before, after, op, at) && c.severity.Breaking?
  {
    hide Alternatives, VariantChange, VariantSteps;
    var steps := VariantSteps(dir, before, after, op, at);
    var c := Change(Breaking, op, at);
    assert c in steps[i];
    StepIsIn(steps, i, c);
    assert c in Compare(dir, before, after, op, at);
  }

  lemma {:induction false} StepIsIn(steps: seq<seq<Change>>, i: nat, c: Change)
    requires i < |steps| && c in steps[i]
    ensures c in Concat(steps)
  {
    if i > 0 { StepIsIn(steps[1..], i - 1, c); }
  }

  lemma SilentSteps(dir: Direction, before: Schema, after: Schema, op: string, at: string)
    requires !Alternatives(before).any && !Alternatives(after).any && Compare(dir, before, after, op, at) == []
    ensures forall i :: 0 <= i < |Alternatives(before).variants| ==> VariantChange(dir, before, after, i, op, at) == []
  {
    hide Alternatives, VariantChange, VariantSteps;
    forall i | 0 <= i < |Alternatives(before).variants| ensures VariantChange(dir, before, after, i, op, at) == [] {
      SilentBranch(dir, before, after, i, op, at);
    }
  }

  /** Where every old branch is paired, so is every new one. */
  lemma AllPaired(dir: Direction, before: Schema, after: Schema, op: string, at: string)
    requires SameAlternatives(before, after)
    requires forall i :: 0 <= i < |Alternatives(before).variants| ==> VariantChange(dir, before, after, i, op, at) == []
    ensures Compare(dir, before, after, op, at) == []
  {
    hide Alternatives, Pairs, CompareVariant, VariantAt, Reordered, PlainKinds, PlainTag, SelfLeaf;
    var xs, ys := Alternatives(before).variants, Alternatives(after).variants;
    var pairs := Pairs(dir, xs, ys);
    PairsSound(dir, xs, ys);
    forall i | 0 <= i < |xs| ensures i in pairs { assert VariantChange(dir, before, after, i, op, at) == []; }
    NothingOver(pairs, |xs|);
    assert Concat(VariantSteps(dir, before, after, op, at)) == [];
    assert UnknownChanges(|ys|, pairs.Values, op, at) == [];
  }

  /**
   * Reordering the variants of a union changes nothing if and only if both
   * orders pick the same tag and every crowded variant is in its place; where
   * the tags differ or another kind took the place, it is reported as breaking.
   */
  lemma ReorderingExact(dir: Direction, before: Schema, after: Schema, op: string, at: string)
    requires SameAlternatives(before, after)
    ensures var xs, ys := Alternatives(before).variants, Alternatives(after).variants;
      && (Compare(dir, before, after, op, at) == [] <==> Discriminator(xs) == Discriminator(ys) && InPlace(dir, before, after, op, at))
      && (Discriminator(xs) != Discriminator(ys) || Moved(xs, ys) ==>
            exists c :: c in Compare(dir, before, after, op, at) && c.severity.Breaking?)
  {
    hide Alternatives, Compare, CompareVariant, VariantAt, VariantChange, Reordered, PlainKinds, PlainTag, SelfLeaf, Crowded, KindOf, Discriminator, IsObject;
    var xs, ys := Alternatives(before).variants, Alternatives(after).variants;
    if Discriminator(xs) != Discriminator(ys) {
      var i := LostTag(xs, ys);
      StepIs(dir, before, after, i, op, at);
      LostBreaks(dir, before, after, i, op, at);
    } else if Moved(xs, ys) {
      var i :| 0 <= i < |xs| && Crowded(xs, i) && KindOf(ys[i]) != KindOf(xs[i]);
      StepIs(dir, before, after, i, op, at);
      LostBreaks(dir, before, after, i, op, at);
    } else {
      forall i | 0 <= i < |xs| && !Crowded(xs, i) ensures VariantChange(dir, before, after, i, op, at) == [] {
        StepIs(dir, before, after, i, op, at);
      }
      forall i | 0 <= i < |xs| && Crowded(xs, i)
        ensures KindOf(ys[i]) == KindOf(xs[i])
        ensures VariantChange(dir, before, after, i, op, at) == CompareVariant(dir, xs[i], ys[i], op, VariantAt(before, after, i, at))
      {
        StepIs(dir, before, after, i, op, at);
      }
      if Compare(dir, before, after, op, at) == [] { SilentSteps(dir, before, after, op, at); }
      if InPlace(dir, before, after, op, at) { AllPaired(dir, before, after, op, at); }
    }
  }

  /** An object whose tag is another one in the new order. */
  lemma LostTag(xs: seq<Schema>, ys: seq<Schema>) returns (i: nat)
    requires Reordered(xs, ys) && Discriminator(xs) != Discriminator(ys)
    ensures i < |xs| && IsObject(xs[i]) && !Crowded(xs, i)
  {
    hide KindOf, Discriminates;
    if Discriminator(ys).Some? { StillTagged(ys, xs); }
    FirstObjectIs(xs);
    i := Find(xs, FirstObject(xs).value);
  }

  // -- documents -----------------------------------------------------------------------------------

  lemma {:induction false} UnionSplit(a: seq<Schema>, b: seq<Schema>)
    ensures UnionOf(a + b).variants == UnionOf(a).variants + UnionOf(b).variants
    ensures UnionOf(a + b).any == (UnionOf(a).any || UnionOf(b).any)
    ensures UnionOf(a + b).nullable == (UnionOf(a).nullable || UnionOf(b).nullable)
    decreases a
  {
    hide Alternatives;
    if a == [] {
      assert a + b == b;
    } else {
      assert (a + b)[1..] == a[1..] + b;
      UnionSplit(a[1..], b);
    }
  }

  lemma UnionFirst(ss: seq<Schema>)
    requires ss != []
    ensures UnionOf(ss).variants == Alternatives(ss[0]).variants + UnionOf(ss[1..]).variants
    ensures UnionOf(ss).any == (Alternatives(ss[0]).any || UnionOf(ss[1..]).any)
    ensures UnionOf(ss).nullable == (Alternatives(ss[0]).nullable || UnionOf(ss[1..]).nullable)
  {
  }

  /** A union by its branches before, at and after one of them. */
  lemma UnionAround(a: seq<Schema>, x: Schema, b: seq<Schema>)
    ensures UnionOf(a + ([x] + b)).variants == UnionOf(a).variants + (Alternatives(x).variants + UnionOf(b).variants)
    ensures UnionOf(a + b).variants == UnionOf(a).variants + UnionOf(b).variants
    ensures UnionOf(a + ([x] + b)).any == (Alternatives(x).any || UnionOf(a + b).any)
    ensures UnionOf(a + ([x] + b)).nullable == (Alternatives(x).nullable || UnionOf(a + b).nullable)
  {
    hide Alternatives, UnionOf;
    UnionSplit(a, b);
    UnionSplit(a, [x] + b);
    assert ([x] + b)[1..] == b;
    UnionFirst([x] + b);
  }

  lemma {:induction false} UnionReordered(ss: seq<Schema>, tt: seq<Schema>)
    requires Reordered(ss, tt)
    ensures Reordered(UnionOf(ss).variants, UnionOf(tt).variants)
    ensures UnionOf(ss).any == UnionOf(tt).any && UnionOf(ss).nullable == UnionOf(tt).nullable
    decreases ss
  {
    SameElements(ss, tt);
    if ss == [] {
      assert tt == [];
    } else {
      hide *;
      var a, b := FirstRemoved(ss, tt);
      UnionReordered(ss[1..], a + b);
      UnionAround(a, ss[0], b);
      UnionFirst(ss);
      PutBack(UnionOf(a).variants, Alternatives(ss[0]).variants, UnionOf(b).variants, UnionOf(ss[1..]).variants);
    }
  }

  lemma PutBack<T>(a: seq<T>, b: seq<T>, c: seq<T>, d: seq<T>)
    requires Reordered(d, a + c)
    ensures Reordered(b + d, a + (b + c))
  {
  }

  /** Reordered branches are reordered variants. */
  lemma BranchesAlternatives(before: Schema, after: Schema)
    requires BranchesReordered(before, after)
    ensures var a, b := Alternatives(before), Alternatives(after);
      a.any == b.any && a.nullable == b.nullable && Reordered(a.variants, b.variants)
  {
    hide Reordered, UnionOf;
    if before.anyOf.Listed? {
      UnionReordered(before.anyOf.list, after.anyOf.list);
    } else {
      UnionReordered(before.oneOf.list, after.oneOf.list);
    }
  }

  lemma VariantsAreSelf(before: Schema, after: Schema)
    requires WfSelf(before) && Reordered(Alternatives(before).variants, Alternatives(after).variants)
    ensures forall i :: 0 <= i < |Alternatives(before).variants| ==> SelfLeaf(Alternatives(before).variants[i])
    ensures PlainKinds(Alternatives(before).variants) && PlainKinds(Alternatives(after).variants)
  {
    hide Alternatives, KindOf, Plain, SelfLeaf, WfSelf, Reordered;
    var xs, ys := Alternatives(before).variants, Alternatives(after).variants;
    SelfVariants(before);
    SameElements(xs, ys);
    forall i | 0 <= i < |xs| ensures Plain(KindOf(xs[i])) { SelfKinds(xs[i]); }
    forall j | 0 <= j < |ys| ensures Plain(KindOf(ys[j])) {
      var i := Find(xs, ys[j]);
    }
  }

  /** Tag names without the separator. */
  predicate PlainTags(before: Schema, after: Schema) {
    PlainTag(Alternatives(before).variants) && PlainTag(Alternatives(after).variants)
  }

  lemma SameUnion(before: Schema, after: Schema)
    requires WfSelf(before) && BranchesReordered(before, after) && PlainTags(before, after) && !Alternatives(before).any
    ensures SameAlternatives(before, after)
  {
    hide Alternatives, KindOf, PlainTag, SelfLeaf, WfSelf, Reordered, BranchesReordered;
    BranchesAlternatives(before, after);
    VariantsAreSelf(before, after);
    SameElements(Alternatives(before).variants, Alternatives(after).variants);
  }

  /**
   * Reordering the branches of a union, `anyOf` or `oneOf`, of any kinds and
   * nested as they may be: silent if and only if anything is accepted anyway, or
   * both orders pick the same tag and every crowded variant is in its place.
   */
  lemma ReorderingBranches(dir: Direction, before: Schema, after: Schema, op: string, at: string)
    requires WfSelf(before) && BranchesReordered(before, after) && PlainTags(before, after)
    ensures |Alternatives(before).variants| == |Alternatives(after).variants|
    ensures Compare(dir, before, after, op, at) == [] <==>
      || Alternatives(before).any
      || (&& Discriminator(Alternatives(before).variants) == Discriminator(Alternatives(after).variants)
          && InPlace(dir, before, after, op, at))
  {
    BranchesAlternatives(before, after);
    SameElements(Alternatives(before).variants, Alternatives(after).variants);
    hide Alternatives, PlainTags, WfSelf, Reordered, BranchesReordered, InPlace, Discriminator, SameAlternatives;
    if Alternatives(before).any {
      AnyIsSilent(dir, before, after, op, at);
    } else {
      SameUnion(before, after);
      ReorderingExact(dir, before, after, op, at);
    }
  }

  lemma AnyIsSilent(dir: Direction, before: Schema, after: Schema, op: string, at: string)
    requires Alternatives(before).any && Alternatives(after).any
    ensures Compare(dir, before, after, op, at) == []
  {
  }

  /** No two branches but tagged objects are of one kind. */
  predicate OnlyTagsCrowd(ss: seq<Schema>) {
    forall i :: 0 <= i < |ss| ==> !Crowded(ss, i)
  }

  /**
   * Where only tagged objects share a kind, whatever stands beside them,
   * reordering changes nothing if and only if both orders pick the same tag; if
   * they do not, it is reported as breaking.
   */
  lemma ReorderingByTag(dir: Direction, before: Schema, after: Schema, op: string, at: string)
    requires WfSelf(before) && BranchesReordered(before, after) && PlainTags(before, after) && !Alternatives(before).any
    requires OnlyTagsCrowd(Alternatives(before).variants)
    ensures var xs, ys := Alternatives(before).variants, Alternatives(after).variants;
      && (Compare(dir, before, after, op, at) == [] <==> Discriminator(xs) == Discriminator(ys))
      && (Discriminator(xs) != Discriminator(ys) ==> exists c :: c in Compare(dir, before, after, op, at) && c.severity.Breaking?)
  {
    SameUnion(before, after);
    hide Compare, Alternatives, PlainTags, WfSelf, Reordered, BranchesReordered, Discriminator, SameAlternatives, Crowded, CompareVariant;
    assert |Alternatives(before).variants| == |Alternatives(after).variants| by { SameLengths(before, after); }
    ReorderingExact(dir, before, after, op, at);
  }

  lemma SameLengths(before: Schema, after: Schema)
    requires SameAlternatives(before, after)
    ensures |Alternatives(before).variants| == |Alternatives(after).variants|
  {
  }

  /** `name` tells the objects apart, and nothing else does. */
  ghost predicate OnlyTag(ss: seq<Schema>, name: string) {
    && Discriminates(ss, name)
    && forall other :: Discriminates(ss, other) ==> other == name
  }

  lemma OnlyTagAnyOrder(xs: seq<Schema>, ys: seq<Schema>, name: string)
    requires Reordered(xs, ys) && OnlyTag(xs, name)
    ensures Discriminator(xs) == Discriminator(ys)
  {
    hide Discriminates, KindOf, Reordered;
    if Discriminator(xs).Some? { StillTagged(xs, ys); }
    SwapReordered(xs, ys);
    if Discriminator(ys).Some? {
      StillTagged(ys, xs);
      DiscriminatesReordered(ys, xs, Discriminator(ys).value);
    }
  }

  /** Objects told apart by one property alone, beside branches that are the only ones of their kind. */
  lemma ReorderingIsSilent(dir: Direction, before: Schema, after: Schema, name: string, op: string, at: string)
    requires WfSelf(before) && BranchesReordered(before, after) && PlainTags(before, after) && !Alternatives(before).any
    requires OnlyTagsCrowd(Alternatives(before).variants) && OnlyTag(Alternatives(before).variants, name)
    ensures Compare(dir, before, after, op, at) == []
  {
    hide Compare, Alternatives, PlainTags, WfSelf, Reordered, BranchesReordered, Discriminator, OnlyTagsCrowd, OnlyTag;
    BranchesAlternatives(before, after);
    OnlyTagAnyOrder(Alternatives(before).variants, Alternatives(after).variants, name);
    ReorderingByTag(dir, before, after, op, at);
  }

  lemma {:induction false} SingleVariants(ss: seq<Schema>)
    requires forall s :: s in ss ==> Alternatives(s) == Alts(false, false, [s])
    ensures UnionOf(ss) == Alts(false, false, ss)
  {
    hide Alternatives;
    if ss != [] {
      SingleVariants(ss[1..]);
      assert [ss[0]] + ss[1..] == ss;
    }
  }

  lemma OneOfIs(ss: seq<Schema>)
    ensures Alternatives(OneOf(ss)) == UnionOf(ss)
  {
  }

  lemma OneOfReordered(xs: seq<Schema>, ys: seq<Schema>)
    requires Reordered(xs, ys)
    ensures BranchesReordered(OneOf(xs), OneOf(ys))
  {
    hide Reordered;
    assert OneOf(ys) == OneOf(xs).(oneOf := Listed(ys));
  }

  /** One object needs no tag. */
  lemma NoTag(p: Schema, q: Schema, r: Schema)
    requires !(IsObject(p) && IsObject(q)) && !(IsObject(q) && IsObject(r)) && !(IsObject(p) && IsObject(r))
    ensures Discriminator([p, q, r]) == None
  {
    hide KindOf;
    assert [p, q, r][1..] == [q, r] && [q, r][1..] == [r] && [r][1..] == [];
    assert CountKind([r], "object") == if IsObject(r) then 1 else 0;
    assert CountKind([q, r], "object") == (if IsObject(q) then 1 else 0) + CountKind([r], "object");
    assert CountKind([p, q, r], "object") <= 1;
  }

  /** A branch that is the only one of its kind, moved past two that share one, is reported as breaking. */
  lemma MovedPastBreaks(dir: Direction, p: Schema, q: Schema, lone: Schema, op: string, at: string)
    requires forall s :: s in [p, q, lone] ==> Alternatives(s) == Alts(false, false, [s])
    requires WfSelf(OneOf([p, q, lone])) && KindOf(p) == KindOf(q) != KindOf(lone) && !IsObject(p)
    ensures exists c :: c in Compare(dir, OneOf([p, q, lone]), OneOf([lone, p, q]), op, at) && c.severity.Breaking?
  {
    hide *;
    ThreeOrders(p, q, lone);
    NoTags(p, q, lone);
    TagsArePlain(OneOf([p, q, lone]), OneOf([lone, p, q]));
    SameUnion(OneOf([p, q, lone]), OneOf([lone, p, q]));
    LoneComesFirst(p, q, lone);
    ReorderingExact(dir, OneOf([p, q, lone]), OneOf([lone, p, q]), op, at);
  }

  lemma ThreeOrders(p: Schema, q: Schema, lone: Schema)
    requires forall s :: s in [p, q, lone] ==> Alternatives(s) == Alts(false, false, [s])
    ensures Alternatives(OneOf([p, q, lone])) == Alts(false, false, [p, q, lone])
    ensures Alternatives(OneOf([lone, p, q])) == Alts(false, false, [lone, p, q])
    ensures BranchesReordered(OneOf([p, q, lone]), OneOf([lone, p, q]))
  {
    hide Alternatives, OneOf, UnionOf, BranchesReordered;
    var xs, ys := [p, q, lone], [lone, p, q];
    assert Reordered(xs, ys);
    SingleVariants(xs);
    SingleVariants(ys);
    OneOfIs(xs);
    OneOfIs(ys);
    OneOfReordered(xs, ys);
  }

  lemma NoTags(p: Schema, q: Schema, lone: Schema)
    requires KindOf(p) == KindOf(q) && !IsObject(p)
    ensures Discriminator([p, q, lone]) == None && Discriminator([lone, p, q]) == None
  {
    hide KindOf, Discriminator;
    SameKind(p, q);
    NoTag(p, q, lone);
    NoTag(lone, p, q);
  }

  lemma LoneComesFirst(p: Schema, q: Schema, lone: Schema)
    requires KindOf(p) == KindOf(q) != KindOf(lone) && !IsObject(p)
    ensures Moved([p, q, lone], [lone, p, q])
  {
    hide KindOf, CountKind, Discriminator;
    CountAtLeast([p, q, lone], 0, 1);
    assert Crowded([p, q, lone], 0) && KindOf([lone, p, q][0]) != KindOf([p, q, lone][0]);
  }

  // -- kinds that stay in their places ----------------------------------------------------------------

  ghost predicate SameKinds(xs: seq<Schema>, ys: seq<Schema>) {
    |xs| == |ys| && forall i :: 0 <= i < |xs| ==> KindOf(xs[i]) == KindOf(ys[i])
  }

  lemma {:induction false} CountByKinds(xs: seq<Schema>, ys: seq<Schema>, kind: string)
    requires SameKinds(xs, ys)
    ensures CountKind(xs, kind) == CountKind(ys, kind)
    decreases xs
  {
    hide KindOf;
    if xs != [] { CountByKinds(xs[1..], ys[1..], kind); }
  }

  lemma UntaggedKeys(xs: seq<Schema>, ys: seq<Schema>)
    requires SameKinds(xs, ys) && Discriminator(xs).None? && Discriminator(ys).None?
    ensures VariantKeys(xs) == VariantKeys(ys)
  {
    hide KindOf, CountKind, Discriminator;
    forall i | 0 <= i < |xs| ensures KeyAt(xs, i) == KeyAt(ys, i) { CountByKinds(xs, ys, KindOf(xs[i])); }
  }

  lemma UntaggedPairs(dir: Direction, xs: seq<Schema>, ys: seq<Schema>)
    requires SameKinds(xs, ys) && Discriminator(xs).None? && Discriminator(ys).None? && PlainKinds(xs)
    ensures Pairs(dir, xs, ys) == Identity(|xs|)
  {
    hide SameKinds, VariantKeys, ByName, Leftovers, Discriminator, PlainKinds;
    var keys := VariantKeys(xs);
    UntaggedKeys(xs, ys);
    KeysAreDistinct(xs);
    ByNameSelf(keys, 0);
    assert Identity(0) == map[];
    SameLength(xs, ys);
    NoLeftovers(dir, xs, ys, keys, keys, 0, Identity(|keys|));
  }

  lemma SameLength(xs: seq<Schema>, ys: seq<Schema>)
    requires SameKinds(xs, ys)
    ensures |xs| == |ys|
  {
  }

  /** Without a tag, variants of the same kinds in the same places are compared place by place. */
  lemma UntaggedByPosition(dir: Direction, before: Schema, after: Schema, op: string, at: string)
    requires var a, b := Alternatives(before), Alternatives(after);
      && !a.any && !b.any && a.nullable == b.nullable
      && SameKinds(a.variants, b.variants) && PlainKinds(a.variants)
      && Discriminator(a.variants).None? && Discriminator(b.variants).None?
    ensures var xs, ys := Alternatives(before).variants, Alternatives(after).variants;
      && |xs| == |ys|
      && (Compare(dir, before, after, op, at) == [] <==>
            forall i :: 0 <= i < |xs| ==> CompareVariant(dir, xs[i], ys[i], op, VariantAt(before, after, i, at)) == [])
  {
    hide CompareVariant, Pairs, VariantAt, Alternatives, VariantSteps, SameKinds, PlainKinds, Discriminator;
    var xs, ys := Alternatives(before).variants, Alternatives(after).variants;
    UntaggedPairs(dir, xs, ys);
    SameLength(xs, ys);
    var steps := VariantSteps(dir, before, after, op, at);
    forall i | 0 <= i < |xs| ensures steps[i] == CompareVariant(dir, xs[i], ys[i], op, VariantAt(before, after, i, at)) {}
    forall j | 0 <= j < |ys| ensures j in Identity(|xs|).Values { assert Identity(|xs|)[j] == j; }
  }

  // -- two properties that could be the tag -----------------------------------------------------

  function Only(x: string): Schema {
    ANY.(enumeration := Some([Str(x)]))
  }

  function Tagged(first: string, x: string, second: string, y: string): Schema {
    ANY.(types := One("object"), properties := Declared([Property(first, Only(x)), Property(second, Only(y))]))
  }

  lemma TaggedIsSelf(first: string, x: string, second: string, y: string)
    requires first != second
    ensures WfSelf(Tagged(first, x, second, y)) && IsObject(Tagged(first, x, second, y))
    ensures Alternatives(Tagged(first, x, second, y)) == Alts(false, false, [Tagged(first, x, second, y)])
  {
    var s := Tagged(first, x, second, y);
    assert WfSelves(Absent);
    assert WfSelf(Only(x)) && WfSelf(Only(y));
    assert WfSelfProperties(s.properties);
  }

  lemma TagsOf(first: string, x: string, second: string, y: string)
    requires first != second
    ensures TagOf(Tagged(first, x, second, y), first) == Some(Str(x))
    ensures TagOf(Tagged(first, x, second, y), second) == Some(Str(y))
  {
    var props := PropertiesOf(Tagged(first, x, second, y));
    assert props[1..][0] == props[1];
  }

  lemma TwoObjects(p: Schema, q: Schema)
    requires IsObject(p) && IsObject(q)
    ensures CountKind([p, q], "object") == 2 && FirstObject([p, q]) == Some(p)
  {
    hide KindOf;
    assert [p, q][1..] == [q] && [q][1..] == [];
    assert CountKind([q], "object") == 1;
  }

  lemma FirstListed(p: Schema, q: Schema, first: string, x: string, second: string, y: string, z: string)
    requires p == Tagged(first, x, second, y) && first != second && IsObject(q)
    requires TagOf(q, first) == Some(Str(z)) && x != z
    ensures Discriminator([p, q]) == Some(first)
  {
    hide Lookup, TagOf, KindOf, CountKind;
    TagsOf(first, x, second, y);
    TaggedIsSelf(first, x, second, y);
    TwoObjects(p, q);
    assert Discriminates([p, q], first);
    assert PropertiesOf(p)[0].name == first;
  }

  /**
   * Two branches that two properties tell apart. When the second branch lists
   * the other property first, swapping the branches reads as both removed;
   * when it lists the same one first, swapping them changes nothing.
   */
  lemma TwoTagsReordered(dir: Direction, f: string, s: string, a: string, b: string, c: string, d: string, op: string, at: string)
    requires f != s && '=' !in f && '=' !in s && a != c && b != d
    ensures var p, q := Tagged(f, a, s, b), Tagged(f, c, s, d);
      Compare(dir, OneOf([p, q]), OneOf([q, p]), op, at) == []
    ensures var p, q := Tagged(f, a, s, b), Tagged(s, d, f, c);
      exists change :: change in Compare(dir, OneOf([p, q]), OneOf([q, p]), op, at) && change.severity.Breaking?
  {
    hide Compare, Tagged, Discriminator, WfSelf, OneOf, TagOf, Alternatives, KindOf;
    var p, same, other := Tagged(f, a, s, b), Tagged(f, c, s, d), Tagged(s, d, f, c);
    TaggedIsSelf(f, a, s, b);
    TaggedIsSelf(f, c, s, d);
    TaggedIsSelf(s, d, f, c);
    TagsOf(f, a, s, b);
    TagsOf(f, c, s, d);
    TagsOf(s, d, f, c);
    FirstListed(p, same, f, a, s, b, c);
    FirstListed(same, p, f, c, s, d, a);
    FirstListed(p, other, f, a, s, b, c);
    FirstListed(other, p, s, d, f, c, b);
    SwapByTag(dir, p, same, f, f, op, at);
    SwapByTag(dir, p, other, f, s, op, at);
  }

  lemma TwoBranchesAreSelf(p: Schema, q: Schema)
    requires WfSelf(p) && WfSelf(q)
    ensures WfSelf(OneOf([p, q]))
  {
    assert WfSelves(Absent) && WfSelves(Listed([p, q]));
  }

  lemma NoneCrowded(p: Schema, q: Schema)
    requires IsObject(p) && IsObject(q) && Discriminator([p, q]).Some?
    ensures OnlyTagsCrowd([p, q])
  {
    hide KindOf, Discriminator, CountKind;
  }

  lemma SwapByTag(dir: Direction, p: Schema, q: Schema, x: string, y: string, op: string, at: string)
    requires WfSelf(p) && WfSelf(q) && IsObject(p) && IsObject(q)
    requires forall s :: s in [p, q] ==> Alternatives(s) == Alts(false, false, [s])
    requires Discriminator([p, q]) == Some(x) && Discriminator([q, p]) == Some(y) && '=' !in x && '=' !in y
    ensures x == y ==> Compare(dir, OneOf([p, q]), OneOf([q, p]), op, at) == []
    ensures x != y ==> exists c :: c in Compare(dir, OneOf([p, q]), OneOf([q, p]), op, at) && c.severity.Breaking?
  {
    hide *;
    TwoOrders(p, q);
    TwoBranchesAreSelf(p, q);
    NoneCrowded(p, q);
    TagsArePlain(OneOf([p, q]), OneOf([q, p]));
    ReorderingByTag(dir, OneOf([p, q]), OneOf([q, p]), op, at);
  }

  lemma TwoOrders(p: Schema, q: Schema)
    requires forall s :: s in [p, q] ==> Alternatives(s) == Alts(false, false, [s])
    ensures Alternatives(OneOf([p, q])) == Alts(false, false, [p, q]) && Alternatives(OneOf([q, p])) == Alts(false, false, [q, p])
    ensures BranchesReordered(OneOf([p, q]), OneOf([q, p]))
  {
    hide Alternatives, OneOf, UnionOf, BranchesReordered;
    var xs, ys := [p, q], [q, p];
    assert Reordered(xs, ys);
    SingleVariants(xs);
    SingleVariants(ys);
    OneOfIs(xs);
    OneOfIs(ys);
    OneOfReordered(xs, ys);
  }

  lemma TagsArePlain(before: Schema, after: Schema)
    requires Discriminator(Alternatives(before).variants).Some? ==> '=' !in Discriminator(Alternatives(before).variants).value
    requires Discriminator(Alternatives(after).variants).Some? ==> '=' !in Discriminator(Alternatives(after).variants).value
    ensures PlainTags(before, after)
  {
    hide Alternatives, Discriminator;
  }
}
