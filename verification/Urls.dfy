/** Query strings of the API client, and how the server reads them back. */
module Urls {
  import opened JsonValues
  import opened KeyOrder
  import opened PercentText

  // -- the query -----------------------------------------------------------------------

  /** One value of a query: a `Date` by its ISO text, another object by its JSON, the rest by `String`. */
  datatype Scalar = Undefined | Nil | Truth(b: bool) | Instant(iso: string) | Other(json: string) | Plain(text: string)

  datatype QueryValue = Single(item: Scalar) | Array(items: seq<Scalar>)

  type Query = map<string, QueryValue>

  datatype Pair = Pair(key: string, text: string)

  function ScalarText(v: Scalar): Option<string> {
    match v
    case Undefined => None
    case Nil => None
    case Truth(b) => Some(if b then "true" else "false")
    case Instant(iso) => Some(iso)
    case Other(json) => Some(json)
    case Plain(text) => if text == "" then None else Some(text)
  }

  function Items(v: QueryValue): seq<Scalar> {
    match v
    case Single(item) => [item]
    case Array(items) => items
  }

  /** The pairs of one key: the items present, in order. */
  function KeyPairs(k: string, items: seq<Scalar>): seq<Pair> {
    if items == [] then []
    else (if ScalarText(items[0]).Some? then [Pair(k, ScalarText(items[0]).value)] else []) + KeyPairs(k, items[1..])
  }

  function PairsOf(q: Query, keys: seq<string>): seq<Pair>
    requires forall i :: 0 <= i < |keys| ==> keys[i] in q
  {
    if keys == [] then [] else KeyPairs(keys[0], Items(q[keys[0]])) + PairsOf(q, keys[1..])
  }

  function Segment(p: Pair): string {
    Encode(p.key) + "=" + Encode(p.text)
  }

  function Segments(pairs: seq<Pair>): (r: seq<string>)
    ensures |r| == |pairs|
  {
    if pairs == [] then [] else [Segment(pairs[0])] + Segments(pairs[1..])
  }

  function Joined(segments: seq<string>): string {
    if segments == [] then ""
    else if |segments| == 1 then segments[0]
    else segments[0] + "&" + Joined(segments[1..])
  }

  function Written(pairs: seq<Pair>): string {
    if pairs == [] then "" else "?" + Joined(Segments(pairs))
  }

  /** The keys of a query as `Object.keys` lists them: each once, in some order. */
  ghost predicate Lists(keys: seq<string>, q: Query) {
    && Distinct(keys)
    && (forall k :: k in keys <==> k in q)
  }

  lemma {:induction false} SegmentsAppend(a: seq<Pair>, b: seq<Pair>)
    ensures Segments(a + b) == Segments(a) + Segments(b)
  {
    if a == [] {
      assert a + b == b;
    } else {
      assert (a + b)[1..] == a[1..] + b;
      SegmentsAppend(a[1..], b);
    }
  }

  lemma {:induction false} PairsFrom(q: Query, keys: seq<string>, i: nat)
    requires i < |keys| && forall j :: 0 <= j < |keys| ==> keys[j] in q
    ensures PairsOf(q, keys[i..]) == KeyPairs(keys[i], Items(q[keys[i]])) + PairsOf(q, keys[i + 1..])
  {
    assert keys[i..][0] == keys[i] && keys[i..][1..] == keys[i + 1..];
  }

  lemma {:induction false} KeyPairsFrom(k: string, items: seq<Scalar>, i: nat)
    requires i < |items|
    ensures KeyPairs(k, items[i..])
      == (if ScalarText(items[i]).Some? then [Pair(k, ScalarText(items[i]).value)] else []) + KeyPairs(k, items[i + 1..])
  {
    assert items[i..][0] == items[i] && items[i..][1..] == items[i + 1..];
  }

  lemma {:induction false} OnePair(p: Pair)
    ensures Segments([p]) == [Encode(p.key) + "=" + Encode(p.text)]
    ensures Segments([]) == [] && forall k :: KeyPairs(k, []) == []
    ensures forall q :: PairsOf(q, []) == []
  {
  }

  method SerialiseQuery(q: Query, keys: seq<string>) returns (text: string)
    requires Lists(keys, q)
    ensures text == Written(PairsOf(q, Sort(keys)))
  {
    hide PairsOf, KeyPairs, Segments, Joined, Sort, Encode;
    var sorted := Sort(keys);
    var pairs: seq<string> := [];
    ghost var taken: seq<Pair> := [];
    assert forall i :: 0 <= i < |sorted| ==> sorted[i] in sorted;
    OnePair(Pair("", ""));
    for i := 0 to |sorted|
      invariant pairs == Segments(taken)
      invariant taken + PairsOf(q, sorted[i..]) == PairsOf(q, sorted)
    {
      var key := sorted[i];
      var values := Items(q[key]);
      PairsFrom(q, sorted, i);
      ghost var before := taken;
      for j := 0 to |values|
        invariant pairs == Segments(taken)
        invariant taken + KeyPairs(key, values[j..]) == before + KeyPairs(key, values)
      {
        KeyPairsFrom(key, values, j);
        var text := ScalarText(values[j]);
        if text.Some? {
          ghost var p := Pair(key, text.value);
          OnePair(p);
          SegmentsAppend(taken, [p]);
          pairs := pairs + [Encode(key) + "=" + Encode(text.value)];
          taken := taken + [p];
        }
      }
      assert values[|values|..] == [];
      assert taken == before + KeyPairs(key, values);
      assert taken + PairsOf(q, sorted[i + 1..]) == before + (KeyPairs(key, values) + PairsOf(q, sorted[i + 1..]));
    }
    assert sorted[|sorted|..] == [];
    assert taken == PairsOf(q, sorted);
    text := if |pairs| > 0 then "?" + Joined(pairs) else "";
  }

  // -- reading it back (URL Standard, section 5.1) ------------------------------------------

  function ReadSegment(s: string): Option<Pair> {
    var i := First(s, '=');
    var key := Decode(s[..i], true);
    var text := Decode(if i < |s| then s[i + 1..] else "", true);
    if key.Some? && text.Some? then Some(Pair(key.value, text.value)) else None
  }

  /** The form parser; `None` when some bytes are not UTF-8. */
  function ReadForm(s: string): Option<seq<Pair>>
    decreases |s|
  {
    if s == "" then Some([])
    else
      var i := First(s, '&');
      var rest := ReadForm(if i < |s| then s[i + 1..] else "");
      if rest.None? then None
      else if i == 0 then rest
      else
        var p := ReadSegment(s[..i]);
        if p.None? then None else Some([p.value] + rest.value)
  }

  lemma SegmentReads(p: Pair)
    ensures ReadSegment(Segment(p)) == Some(p)
    ensures Segment(p) != "" && Without(Segment(p), '&')
  {
    hide Encode, Decode;
    var a, b := Encode(p.key), Encode(p.text);
    EncodedWithout(p.key, '=');
    EncodedWithout(p.key, '&');
    EncodedWithout(p.text, '&');
    FirstAfter(a, '=', b);
    var s := Segment(p);
    assert s == a + ['='] + b;
    assert s[..|a|] == a && s[|a| + 1..] == b;
    DecodeEncoded(p.key, true);
    DecodeEncoded(p.text, true);
  }

  lemma {:induction false} FormReadsBack(pairs: seq<Pair>)
    ensures ReadForm(Joined(Segments(pairs))) == Some(pairs)
  {
    hide ReadSegment, Segment;
    if pairs != [] {
      var head, tail := Segment(pairs[0]), Segments(pairs[1..]);
      var rest := Joined(tail);
      SegmentReads(pairs[0]);
      FirstAfter(head, '&', rest);
      FormReadsBack(pairs[1..]);
      assert Segments(pairs)[1..] == tail;
      assert pairs == [pairs[0]] + pairs[1..];
      var s := Joined(Segments(pairs));
      if tail == [] {
        assert s == head && s[..|s|] == s;
      } else {
        assert s == head + ['&'] + rest;
        assert s[..|head|] == head && s[|head| + 1..] == rest;
      }
    }
  }

  /** All the texts of a key, in order. */
  function GetAll(pairs: seq<Pair>, k: string): seq<string> {
    if pairs == [] then []
    else (if pairs[0].key == k then [pairs[0].text] else []) + GetAll(pairs[1..], k)
  }

  function Texts(items: seq<Scalar>): seq<string> {
    if items == [] then []
    else (if ScalarText(items[0]).Some? then [ScalarText(items[0]).value] else []) + Texts(items[1..])
  }

  lemma {:induction false} GetAllAppend(a: seq<Pair>, b: seq<Pair>, k: string)
    ensures GetAll(a + b, k) == GetAll(a, k) + GetAll(b, k)
  {
    if a == [] {
      assert a + b == b;
    } else {
      assert (a + b)[1..] == a[1..] + b;
      GetAllAppend(a[1..], b, k);
    }
  }

  lemma {:induction false} GetAllOfKey(key: string, items: seq<Scalar>, k: string)
    ensures GetAll(KeyPairs(key, items), k) == if k == key then Texts(items) else []
  {
    if items != [] {
      var tail := KeyPairs(key, items[1..]);
      GetAllOfKey(key, items[1..], k);
      if ScalarText(items[0]).Some? {
        var p := Pair(key, ScalarText(items[0]).value);
        assert KeyPairs(key, items) == [p] + tail;
        assert ([p] + tail)[1..] == tail;
      } else {
        assert KeyPairs(key, items) == tail;
      }
    }
  }

  lemma {:induction false} GetAllOf(q: Query, keys: seq<string>, k: string)
    requires Distinct(keys) && forall i :: 0 <= i < |keys| ==> keys[i] in q
    ensures GetAll(PairsOf(q, keys), k) == if k in keys then Texts(Items(q[k])) else []
  {
    if keys != [] {
      var head := KeyPairs(keys[0], Items(q[keys[0]]));
      GetAllAppend(head, PairsOf(q, keys[1..]), k);
      GetAllOfKey(keys[0], Items(q[keys[0]]), k);
      GetAllOf(q, keys[1..], k);
      assert keys == [keys[0]] + keys[1..];
    }
  }

  /** A flag as the server reads it. */
  function ReadFlag(text: string): Option<bool> {
    if text == "true" then Some(true) else if text == "false" then Some(false) else None
  }

  /** The text gives the value back. */
  predicate GivesBack(text: string, v: Scalar) {
    match v
    case Truth(b) => ReadFlag(text) == Some(b)
    case Instant(iso) => text == iso
    case Other(json) => text == json
    case Plain(own) => text == own
    case _ => false
  }

  /** The items that are there at all: not `undefined`, `null` or empty. */
  function Present(items: seq<Scalar>): seq<Scalar> {
    if items == [] then []
    else (if items[0] in {Undefined, Nil, Plain("")} then [] else [items[0]]) + Present(items[1..])
  }

  /** Every item present has its text, in order, and the text gives it back. */
  lemma {:induction false} TextsGiveBack(items: seq<Scalar>)
    ensures |Texts(items)| == |Present(items)|
    ensures forall i :: 0 <= i < |Texts(items)| ==> GivesBack(Texts(items)[i], Present(items)[i])
  {
    if items != [] {
      TextsGiveBack(items[1..]);
      var v := items[0];
      assert ScalarText(v).None? <==> v in {Undefined, Nil, Plain("")};
      assert ScalarText(v).Some? ==> GivesBack(ScalarText(v).value, v);
    }
  }

  datatype Seen = NotSent | OneText(text: string) | ManyTexts(texts: seq<string>)

  /** What the server makes of a key: one text, or an array when the key is repeated. */
  function ServerReads(pairs: seq<Pair>, k: string): Seen {
    var texts := GetAll(pairs, k);
    if texts == [] then NotSent else if |texts| == 1 then OneText(texts[0]) else ManyTexts(texts)
  }

  /**
   * The server reads, under every key, exactly the values present, in their
   * order; a key with none is not sent.
   */
  lemma QueryRoundTrip(q: Query, keys: seq<string>, k: string)
    requires Lists(keys, q)
    ensures var text := Written(PairsOf(q, Sort(keys)));
      var pairs := ReadForm(if text == "" then "" else text[1..]);
      var texts := if k in q then Texts(Items(q[k])) else [];
      && pairs.Some? && GetAll(pairs.value, k) == texts
      && ServerReads(pairs.value, k) == (if texts == [] then NotSent else if |texts| == 1 then OneText(texts[0]) else ManyTexts(texts))
    ensures var texts := if k in q then Texts(Items(q[k])) else []; var items := if k in q then Present(Items(q[k])) else [];
      |texts| == |items| && forall i :: 0 <= i < |texts| ==> GivesBack(texts[i], items[i])
  {
    if k in q { TextsGiveBack(Items(q[k])); }
    hide Texts, Present, GivesBack;
    var sorted := Sort(keys);
    SortAscends(keys);
    AscendingIsDistinct(sorted);
    assert forall i :: 0 <= i < |sorted| ==> sorted[i] in sorted;
    var pairs := PairsOf(q, sorted);
    FormReadsBack(pairs);
    GetAllOf(q, sorted, k);
    var joined := Joined(Segments(pairs));
    assert pairs == [] ==> joined == "";
    assert ("?" + joined)[1..] == joined;
  }

  lemma AscendingIsDistinct(keys: seq<string>)
    requires Ascending(keys)
    ensures Distinct(keys)
  {
    forall i, j | 0 <= i < j < |keys| ensures keys[i] != keys[j] {
      NotBeforeItself(keys[i]);
    }
  }

  /** One query, one URL: the order in which its keys were written does not show. */
  lemma KeyOrderDoesNotShow(q: Query, keys: seq<string>, others: seq<string>)
    requires Lists(keys, q) && Lists(others, q)
    ensures Written(PairsOf(q, Sort(keys))) == Written(PairsOf(q, Sort(others)))
  {
    SortAscends(keys);
    SortAscends(others);
    OneAscendingList(Sort(keys), Sort(others));
  }
}
