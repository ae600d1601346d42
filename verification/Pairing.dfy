/**
 * Which branch of the old schema became which branch of the new one: by a
 * stable name first, then by being the only candidate left of a kind.
 */
module Pairing {
  import opened JsonValues
  import opened Schemas

  datatype Direction = Request | Response

  // -- names -----------------------------------------------------------------------

  predicate IsObject(s: Schema) {
    KindOf(s) == "object"
  }

  function CountKind(variants: seq<Schema>, kind: string): nat {
    if variants == [] then 0
    else (if KindOf(variants[0]) == kind then 1 else 0) + CountKind(variants[1..], kind)
  }

  function FirstObject(variants: seq<Schema>): Option<Schema> {
    if variants == [] then None
    else if IsObject(variants[0]) then Some(variants[0])
    else FirstObject(variants[1..])
  }

  function TagOf(s: Schema, name: string): Option<Json> {
    SingleValue(Lookup(PropertiesOf(s), name))
  }

  /** Every object branch has one value for `name`, and no two the same text. */
  predicate Discriminates(variants: seq<Schema>, name: string) {
    && (forall i :: 0 <= i < |variants| && IsObject(variants[i]) ==> TagOf(variants[i], name).Some?)
    && (forall i, j :: 0 <= i < j < |variants| && IsObject(variants[i]) && IsObject(variants[j]) ==>
          Text(TagOf(variants[i], name).value) != Text(TagOf(variants[j], name).value))
  }

  function FirstDiscriminator(variants: seq<Schema>, props: seq<Property>): (r: Option<string>)
    ensures r.Some? ==> Discriminates(variants, r.value) && Declares(props, r.value)
    ensures r.None? ==> forall i :: 0 <= i < |props| ==> !Discriminates(variants, props[i].name)
  {
    if props == [] then None
    else if Discriminates(variants, props[0].name) then Some(props[0].name)
    else
      assert forall i :: 1 <= i < |props| ==> props[i] == props[1..][i - 1];
      FirstDiscriminator(variants, props[1..])
  }

  function Discriminator(variants: seq<Schema>): (r: Option<string>)
    ensures r.Some? ==> Discriminates(variants, r.value)
  {
    var first := FirstObject(variants);
    if CountKind(variants, "object") > 1 && first.Some?
    then FirstDiscriminator(variants, PropertiesOf(first.value))
    else None
  }

  /** `object(tag=value)` of a tagged branch, the kind and index of one of several, or the kind. */
  function KeyText(kind: string, tag: Option<(string, string)>, crowded: bool, i: nat): string {
    if kind == "object" && tag.Some? then "object(" + tag.value.0 + "=" + tag.value.1 + ")"
    else if crowded then kind + "#" + NatText(i)
    else kind
  }

  function Tag(variants: seq<Schema>, i: nat): Option<(string, string)>
    requires i < |variants|
  {
    var name := Discriminator(variants);
    if name.Some? && IsObject(variants[i])
    then Some((name.value, Text(TagOf(variants[i], name.value).value)))
    else None
  }

  function KeyAt(variants: seq<Schema>, i: nat): string
    requires i < |variants|
  {
    var kind := KindOf(variants[i]);
    KeyText(kind, Tag(variants, i), CountKind(variants, kind) > 1, i)
  }

  function VariantKeys(variants: seq<Schema>): (keys: seq<string>)
    ensures |keys| == |variants|
    ensures forall i :: 0 <= i < |keys| ==> keys[i] == KeyAt(variants, i)
  {
    seq(|variants|, i requires 0 <= i < |variants| => KeyAt(variants, i))
  }

  // -- reading a name ----------------------------------------------------------------

  predicate Plain(key: string) {
    '(' !in key && '#' !in key
  }

  function Prefix(key: string, stops: set<char>): (r: string)
    ensures r <= key
    ensures forall c :: c in r ==> c !in stops
    ensures r == key || key[|r|] in stops
  {
    if key == [] || key[0] in stops then [] else [key[0]] + Prefix(key[1..], stops)
  }

  const LINE_ENDS := {'\n', '\r', '\U{2028}', '\U{2029}'}

  /** The name and value of `object(name=value)`. */
  function ParseTag(key: string): Option<(string, string)> {
    if "object(" <= key && key[|key| - 1] == ')' then
      var inner := key[7..|key| - 1];
      var name := Prefix(inner, {'='});
      if |name| == 0 || |name| == |inner| then None
      else
        var value := inner[|name| + 1..];
        if exists c :: c in value && c in LINE_ENDS then None else Some((name, value))
    else None
  }

  // -- pairs ------------------------------------------------------------------------

  function IndexOf(keys: seq<string>, key: string): (r: int)
    ensures -1 <= r < |keys|
    ensures r >= 0 ==> keys[r] == key && key !in keys[..r]
    ensures r < 0 ==> key !in keys
  {
    if keys == [] then -1
    else if keys[0] == key then 0
    else
      var rest := IndexOf(keys[1..], key);
      assert rest >= 0 ==> keys[..rest + 1] == [keys[0]] + keys[1..][..rest];
      if rest < 0 then -1 else rest + 1
  }

  predicate Between(pairs: map<nat, nat>, a: nat, b: nat) {
    forall i :: i in pairs ==> i < a && pairs[i] < b
  }

  /** Pairs by name, from branch `i` of the old schema on. */
  function ByName(keysA: seq<string>, keysB: seq<string>, i: nat, pairs: map<nat, nat>): (r: map<nat, nat>)
    requires i <= |keysA|
    requires Between(pairs, |keysA|, |keysB|)
    ensures Between(r, |keysA|, |keysB|)
    decreases |keysA| - i
  {
    if i == |keysA| then pairs
    else ByName(keysA, keysB, i + 1, NameStep(keysA, keysB, i, pairs))
  }

  function NameStep(keysA: seq<string>, keysB: seq<string>, i: nat, pairs: map<nat, nat>): (r: map<nat, nat>)
    requires i < |keysA|
    requires Between(pairs, |keysA|, |keysB|)
    ensures Between(r, |keysA|, |keysB|)
  {
    var j := IndexOf(keysB, keysA[i]);
    if j >= 0 && j !in pairs.Values then pairs[i := j] else pairs
  }

  /** Integers are numbers: a request may widen to `number`, a response may narrow to `integer`. */
  predicate Compatible(dir: Direction, kindA: string, kindB: string) {
    || kindA == kindB
    || (dir.Request? && kindA == "integer" && kindB == "number")
    || (dir.Response? && kindA == "number" && kindB == "integer")
  }

  /** A lone object against a tagged branch: its own tag must agree. */
  predicate TagAgrees(a: Schema, keyA: string, b: Schema, keyB: string) {
    var tagA, tagB := ParseTag(keyA), ParseTag(keyB);
    if tagA.Some? then Owns(b, tagA.value)
    else if tagB.Some? then Owns(a, tagB.value)
    else true
  }

  predicate Owns(s: Schema, tag: (string, string)) {
    var own := TagOf(s, tag.0);
    own.None? || Text(own.value) == tag.1
  }

  predicate Candidate(dir: Direction, a: Schema, keyA: string, b: Schema, keyB: string) {
    && Compatible(dir, KindOf(a), KindOf(b))
    && (Plain(keyA) || Plain(keyB))
    && TagAgrees(a, keyA, b, keyB)
  }

  /** The free branches of the new schema, from `j` on, that `a` may have become. */
  function Candidates(dir: Direction, a: Schema, keyA: string, vb: seq<Schema>, keysB: seq<string>, taken: set<nat>, j: nat): (r: seq<nat>)
    requires |keysB| == |vb| && j <= |vb|
    ensures forall k :: k in r ==> j <= k < |vb| && k !in taken && Candidate(dir, a, keyA, vb[k], keysB[k])
    decreases |vb| - j
  {
    if j == |vb| then []
    else
      (if j !in taken && Candidate(dir, a, keyA, vb[j], keysB[j]) then [j] else [])
      + Candidates(dir, a, keyA, vb, keysB, taken, j + 1)
  }

  function LeftoverStep(dir: Direction, va: seq<Schema>, vb: seq<Schema>, keysA: seq<string>, keysB: seq<string>, i: nat, pairs: map<nat, nat>): (r: map<nat, nat>)
    requires |keysA| == |va| && |keysB| == |vb| && i < |va|
    requires Between(pairs, |va|, |vb|)
    ensures Between(r, |va|, |vb|)
  {
    if i in pairs then pairs
    else
      var found := Candidates(dir, va[i], keysA[i], vb, keysB, pairs.Values, 0);
      if |found| == 1 then assert found[0] in found; pairs[i := found[0]] else pairs
  }

  function Leftovers(dir: Direction, va: seq<Schema>, vb: seq<Schema>, keysA: seq<string>, keysB: seq<string>, i: nat, pairs: map<nat, nat>): (r: map<nat, nat>)
    requires |keysA| == |va| && |keysB| == |vb| && i <= |va|
    requires Between(pairs, |va|, |vb|)
    ensures Between(r, |va|, |vb|)
    decreases |va| - i
  {
    if i == |va| then pairs
    else Leftovers(dir, va, vb, keysA, keysB, i + 1, LeftoverStep(dir, va, vb, keysA, keysB, i, pairs))
  }

  function Pairs(dir: Direction, va: seq<Schema>, vb: seq<Schema>): (r: map<nat, nat>)
    ensures Between(r, |va|, |vb|)
  {
    var keysA, keysB := VariantKeys(va), VariantKeys(vb);
    Leftovers(dir, va, vb, keysA, keysB, 0, ByName(keysA, keysB, 0, map[]))
  }

  // -- what the pairing keeps ------------------------------------------------------------

  ghost predicate Injective(pairs: map<nat, nat>) {
    forall i, j :: i in pairs && j in pairs && i != j ==> pairs[i] != pairs[j]
  }

  /** Paired branches exist, are paired once, and are of compatible kinds. */
  ghost predicate SoundPairs(dir: Direction, va: seq<Schema>, vb: seq<Schema>, pairs: map<nat, nat>) {
    && Injective(pairs)
    && forall i :: i in pairs ==> i < |va| && pairs[i] < |vb| && Compatible(dir, KindOf(va[i]), KindOf(vb[pairs[i]]))
  }

  /** A kind's name holds neither `(` nor `#`. */
  predicate PlainKinds(variants: seq<Schema>) {
    forall i :: 0 <= i < |variants| ==> Plain(KindOf(variants[i]))
  }

  lemma KindOfKey(kind: string, tag: Option<(string, string)>, crowded: bool, i: nat)
    requires Plain(kind)
    ensures Prefix(KeyText(kind, tag, crowded, i), {'(', '#'}) == kind
  {
    var key := KeyText(kind, tag, crowded, i);
    var tail := key[|kind|..];
    assert key == kind + tail;
    PrefixOf(kind, tail, {'(', '#'});
  }

  lemma {:induction false} PrefixOf(word: string, tail: string, stops: set<char>)
    requires forall c :: c in word ==> c !in stops
    requires tail == "" || tail[0] in stops
    ensures Prefix(word + tail, stops) == word
  {
    if word == "" {
      assert word + tail == tail;
    } else {
      assert (word + tail)[1..] == word[1..] + tail;
      PrefixOf(word[1..], tail, stops);
    }
  }

  lemma {:induction false} NatTextDistinct(a: nat, b: nat)
    requires NatText(a) == NatText(b)
    ensures a == b
  {
    var digits := "0123456789";
    assert forall x: nat :: x >= 10 ==> |NatText(x)| == |NatText(x / 10)| + 1 && |NatText(x / 10)| > 0;
    if a >= 10 && b >= 10 {
      var s, t := NatText(a / 10), NatText(b / 10);
      assert (s + [digits[a % 10]])[..|s|] == s && (t + [digits[b % 10]])[..|t|] == t;
      assert (s + [digits[a % 10]])[|s|] == digits[a % 10] && (t + [digits[b % 10]])[|t|] == digits[b % 10];
      NatTextDistinct(a / 10, b / 10);
    }
  }

  lemma {:induction false} CountAtLeast(variants: seq<Schema>, i: nat, j: nat)
    requires i < j < |variants| && KindOf(variants[i]) == KindOf(variants[j])
    ensures CountKind(variants, KindOf(variants[i])) > 1
  {
    if i == 0 {
      CountSome(variants[1..], j - 1);
    } else {
      CountAtLeast(variants[1..], i - 1, j - 1);
    }
  }

  lemma {:induction false} CountSome(variants: seq<Schema>, i: nat)
    requires i < |variants|
    ensures CountKind(variants, KindOf(variants[i])) > 0
  {
    if i > 0 { CountSome(variants[1..], i - 1); }
  }

  lemma TagTextsDistinct(name: string, x: string, y: string)
    requires KeyText("object", Some((name, x)), false, 0) == KeyText("object", Some((name, y)), false, 0)
    ensures x == y
  {
    var head := "object(" + name + "=";
    assert (head + x + ")")[|head|..][..|x|] == x && (head + y + ")")[|head|..][..|y|] == y;
  }

  lemma IndexTextsDistinct(kind: string, i: nat, j: nat)
    requires kind + "#" + NatText(i) == kind + "#" + NatText(j)
    ensures i == j
  {
    var head := kind + "#";
    assert (head + NatText(i))[|head|..] == NatText(i) && (head + NatText(j))[|head|..] == NatText(j);
    NatTextDistinct(i, j);
  }

  /** A key never names two branches. */
  lemma {:induction false} KeysDistinct(variants: seq<Schema>, i: nat, j: nat)
    requires PlainKinds(variants) && i < j < |variants|
    ensures KeyAt(variants, i) != KeyAt(variants, j)
  {
    var kind := KindOf(variants[i]);
    KindOfKey(kind, Tag(variants, i), CountKind(variants, kind) > 1, i);
    KindOfKey(KindOf(variants[j]), Tag(variants, j), CountKind(variants, KindOf(variants[j])) > 1, j);
    if kind == KindOf(variants[j]) && KeyAt(variants, i) == KeyAt(variants, j) {
      CountAtLeast(variants, i, j);
      var name := Discriminator(variants);
      if kind == "object" && name.Some? {
        assert Discriminates(variants, name.value);
        TagTextsDistinct(name.value, Tag(variants, i).value.1, Tag(variants, j).value.1);
      } else {
        IndexTextsDistinct(kind, i, j);
      }
    }
  }

  lemma AddPair(dir: Direction, va: seq<Schema>, vb: seq<Schema>, pairs: map<nat, nat>, i: nat, j: nat)
    requires SoundPairs(dir, va, vb, pairs) && i !in pairs && j !in pairs.Values
    requires i < |va| && j < |vb| && Compatible(dir, KindOf(va[i]), KindOf(vb[j]))
    ensures SoundPairs(dir, va, vb, pairs[i := j])
  {
    hide Compatible, KindOf;
    assert forall k :: k in pairs ==> pairs[k] in pairs.Values;
  }

  lemma NameStepSound(dir: Direction, va: seq<Schema>, vb: seq<Schema>, keysA: seq<string>, keysB: seq<string>, i: nat, pairs: map<nat, nat>)
    requires PlainKinds(va) && PlainKinds(vb) && i < |va| && keysA == VariantKeys(va) && keysB == VariantKeys(vb)
    requires Between(pairs, |keysA|, |keysB|) && SoundPairs(dir, va, vb, pairs) && i !in pairs
    ensures SoundPairs(dir, va, vb, NameStep(keysA, keysB, i, pairs))
    ensures forall k :: k in NameStep(keysA, keysB, i, pairs) ==> k in pairs || k == i
  {
    var j := IndexOf(keysB, keysA[i]);
    if j >= 0 && j !in pairs.Values {
      SameKeySameKind(va, i, vb, j);
      AddPair(dir, va, vb, pairs, i, j);
    }
  }

  lemma {:induction false} ByNameSound(dir: Direction, va: seq<Schema>, vb: seq<Schema>, keysA: seq<string>, keysB: seq<string>, i: nat, pairs: map<nat, nat>)
    requires PlainKinds(va) && PlainKinds(vb) && i <= |va| && keysA == VariantKeys(va) && keysB == VariantKeys(vb)
    requires Between(pairs, |keysA|, |keysB|) && SoundPairs(dir, va, vb, pairs) && forall k :: k in pairs ==> k < i
    ensures SoundPairs(dir, va, vb, ByName(keysA, keysB, i, pairs))
    decreases |va| - i
  {
    hide SoundPairs, KeyAt, KindOf, PlainKinds, VariantKeys, NameStep;
    if i < |va| {
      NameStepSound(dir, va, vb, keysA, keysB, i, pairs);
      ByNameSound(dir, va, vb, keysA, keysB, i + 1, NameStep(keysA, keysB, i, pairs));
    }
  }

  lemma SameKeySameKind(va: seq<Schema>, i: nat, vb: seq<Schema>, j: nat)
    requires PlainKinds(va) && PlainKinds(vb) && i < |va| && j < |vb| && KeyAt(va, i) == KeyAt(vb, j)
    ensures KindOf(va[i]) == KindOf(vb[j])
  {
    KindOfKey(KindOf(va[i]), Tag(va, i), CountKind(va, KindOf(va[i])) > 1, i);
    KindOfKey(KindOf(vb[j]), Tag(vb, j), CountKind(vb, KindOf(vb[j])) > 1, j);
  }

  lemma {:induction false} LeftoversSound(dir: Direction, va: seq<Schema>, vb: seq<Schema>, keysA: seq<string>, keysB: seq<string>, i: nat, pairs: map<nat, nat>)
    requires |keysA| == |va| && |keysB| == |vb| && i <= |va|
    requires SoundPairs(dir, va, vb, pairs)
    ensures SoundPairs(dir, va, vb, Leftovers(dir, va, vb, keysA, keysB, i, pairs))
    decreases |va| - i
  {
    if i < |va| {
      var found := Candidates(dir, va[i], keysA[i], vb, keysB, pairs.Values, 0);
      if i !in pairs && |found| == 1 {
        assert found[0] in found;
        AddPair(dir, va, vb, pairs, i, found[0]);
      }
      LeftoversSound(dir, va, vb, keysA, keysB, i + 1, LeftoverStep(dir, va, vb, keysA, keysB, i, pairs));
    }
  }

  /** The pairing is one to one and never joins branches of incompatible kinds. */
  lemma PairsSound(dir: Direction, va: seq<Schema>, vb: seq<Schema>)
    requires PlainKinds(va) && PlainKinds(vb)
    ensures SoundPairs(dir, va, vb, Pairs(dir, va, vb))
  {
    var keysA, keysB := VariantKeys(va), VariantKeys(vb);
    ByNameSound(dir, va, vb, keysA, keysB, 0, map[]);
    LeftoversSound(dir, va, vb, keysA, keysB, 0, ByName(keysA, keysB, 0, map[]));
  }

  // -- a one-to-one pairing of lists of one length leaves nothing over ---------------------------------

  function Below(n: nat): (r: set<nat>)
    ensures |r| == n && forall i: nat :: i in r <==> i < n
  {
    if n == 0 then {} else Below(n - 1) + {n - 1}
  }

  lemma {:induction false} InjectiveSize(pairs: map<nat, nat>)
    requires Injective(pairs)
    ensures |pairs.Values| == |pairs.Keys|
    decreases |pairs.Keys|
  {
    if pairs.Keys != {} {
      var k :| k in pairs;
      var others := map i | i in pairs && i != k :: pairs[i];
      assert others.Keys == pairs.Keys - {k};
      assert pairs.Values == others.Values + {pairs[k]} by {
        forall v | v in pairs.Values ensures v in others.Values + {pairs[k]} {
          var i :| i in pairs && pairs[i] == v;
          if i != k { assert others[i] == v; }
        }
      }
      assert pairs[k] !in others.Values;
      InjectiveSize(others);
    } else {
      assert pairs == map[];
    }
  }

  lemma FullSubset(a: set<nat>, b: set<nat>)
    requires a <= b && |a| == |b|
    ensures a == b
  {
    assert |b - a| == |b| - |a|;
  }

  lemma KeysBelow(pairs: map<nat, nat>, n: nat, m: nat)
    requires Between(pairs, n, m) && forall i :: 0 <= i < n ==> i in pairs
    ensures pairs.Keys == Below(n) && pairs.Values <= Below(m)
  {
    hide Below;
    forall v | v in pairs.Values ensures v in Below(m) { var i :| i in pairs && pairs[i] == v; }
  }

  lemma NothingOver(pairs: map<nat, nat>, n: nat)
    requires Injective(pairs) && Between(pairs, n, n) && forall i :: 0 <= i < n ==> i in pairs
    ensures forall j :: 0 <= j < n ==> j in pairs.Values
  {
    hide *;
    InjectiveSize(pairs);
    KeysBelow(pairs, n, n);
    FullSubset(pairs.Values, Below(n));
    assert forall j: nat :: j < n ==> j in Below(n);
  }
}
