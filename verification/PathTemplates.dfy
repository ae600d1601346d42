/**
 * Paths of the API client: a template's placeholders are filled with
 * percent-encoded values, and can be read back when the template keeps them
 * apart.
 */
module PathTemplates {
  import opened JsonValues
  import opened PercentText

  datatype Built = Path(path: string) | Missing(name: string)

  predicate NameStart(c: char) {
    'a' <= c <= 'z' || 'A' <= c <= 'Z' || c == '_'
  }

  predicate NameChar(c: char) {
    NameStart(c) || '0' <= c <= '9'
  }

  /** How far a name goes. */
  function NameLength(s: string): (n: nat)
    ensures n <= |s|
  {
    if s == "" || !NameChar(s[0]) then 0 else 1 + NameLength(s[1..])
  }

  predicate Placeholder(s: string) {
    |s| > 1 && s[0] == ':' && NameStart(s[1])
  }

  function Before(text: string, b: Built): Built {
    if b.Path? then Path(text + b.path) else b
  }

  /** A value that is absent or empty is missing. */
  predicate Given(params: map<string, string>, name: string) {
    name in params && params[name] != ""
  }

  function BuildPath(path: string, params: map<string, string>): Built
    decreases |path|
  {
    if path == "" then Path("")
    else if Placeholder(path) then
      var n := NameLength(path[1..]);
      var name := path[1..1 + n];
      if Given(params, name) then Before(Encode(params[name]), BuildPath(path[1 + n..], params)) else Missing(name)
    else Before([path[0]], BuildPath(path[1..], params))
  }

  // -- templates ----------------------------------------------------------------------------

  /** Literal text, then a placeholder, and so on; literal text at the end. */
  datatype Template = End(text: string) | Hole(text: string, name: string, rest: Template)

  function Prefixed(c: char, t: Template): Template {
    match t
    case End(text) => End([c] + text)
    case Hole(text, name, rest) => Hole([c] + text, name, rest)
  }

  function Parse(path: string): Template
    decreases |path|
  {
    if path == "" then End("")
    else if Placeholder(path) then
      var n := NameLength(path[1..]);
      Hole("", path[1..1 + n], Parse(path[1 + n..]))
    else Prefixed(path[0], Parse(path[1..]))
  }

  predicate AllGiven(t: Template, params: map<string, string>) {
    t.Hole? ==> Given(params, t.name) && AllGiven(t.rest, params)
  }

  function Filled(t: Template, params: map<string, string>): string
    requires AllGiven(t, params)
  {
    match t
    case End(text) => text
    case Hole(text, name, rest) => text + Encode(params[name]) + Filled(rest, params)
  }

  function FirstMissing(t: Template, params: map<string, string>): string
    requires !AllGiven(t, params)
  {
    if !Given(params, t.name) then t.name else FirstMissing(t.rest, params)
  }

  lemma PrefixedFilled(c: char, t: Template, params: map<string, string>)
    ensures AllGiven(Prefixed(c, t), params) <==> AllGiven(t, params)
    ensures AllGiven(t, params) ==> Filled(Prefixed(c, t), params) == [c] + Filled(t, params)
    ensures !AllGiven(t, params) ==> FirstMissing(Prefixed(c, t), params) == FirstMissing(t, params)
  {
    hide Encode;
    if AllGiven(t, params) && t.Hole? {
      assert ([c] + t.text) + Encode(params[t.name]) + Filled(t.rest, params)
        == [c] + (t.text + Encode(params[t.name]) + Filled(t.rest, params));
    }
  }

  /**
   * A path is built if and only if every value is given, and then it is the
   * template with its placeholders filled; else the first value missing is
   * named.
   */
  lemma {:induction false} BuildsFilled(path: string, params: map<string, string>)
    ensures BuildPath(path, params) ==
      if AllGiven(Parse(path), params) then Path(Filled(Parse(path), params)) else Missing(FirstMissing(Parse(path), params))
    decreases |path|
  {
    hide Encode;
    if path == "" {
    } else if Placeholder(path) {
      var n := NameLength(path[1..]);
      var t := Parse(path[1 + n..]);
      BuildsFilled(path[1 + n..], params);
      if AllGiven(Parse(path), params) {
        var e := Encode(params[path[1..1 + n]]);
        assert "" + e + Filled(t, params) == e + Filled(t, params);
      }
    } else {
      BuildsFilled(path[1..], params);
      PrefixedFilled(path[0], Parse(path[1..]), params);
    }
  }

  // -- reading the values back -----------------------------------------------------------------

  /** The longest beginning an encoded value could hold. */
  function PlainPrefix(s: string): (r: string)
    ensures r <= s
  {
    if s == "" || !Plain(s[0]) then "" else [s[0]] + PlainPrefix(s[1..])
  }

  /** The values a path carries, read against its template: a map from names to values. */
  function ReadBack(t: Template, s: string): Option<map<string, string>> {
    match t
    case End(text) => if s == text then Some(map[]) else None
    case Hole(text, name, rest) =>
      if !(text <= s) then None
      else
        var tail := s[|text|..];
        var n := EncodedLength(rest, tail);
        if n < 0 || n > |tail| then None
        else
          var value := Decode(tail[..n], false);
          var others := ReadBack(rest, tail[n..]);
          if value.None? || others.None? then None else Some(others.value[name := value.value])
  }

  /** Where the value ends: before the literal text that ends the path, or before the text that starts with what no value holds. */
  function EncodedLength(rest: Template, tail: string): int {
    if rest.End? then |tail| - |rest.text| else |PlainPrefix(tail)| - |PlainPrefix(rest.text)|
  }

  /** Between every two neighbouring placeholders stands a character no encoded value has. */
  predicate Separated(t: Template) {
    t.Hole? ==>
      && (t.rest.Hole? ==> |PlainPrefix(t.rest.text)| < |t.rest.text|)
      && Separated(t.rest)
  }

  function Values(t: Template, params: map<string, string>): map<string, string>
    requires AllGiven(t, params)
  {
    match t
    case End(_) => map[]
    case Hole(_, name, rest) => Values(rest, params)[name := params[name]]
  }

  lemma {:induction false} PlainPrefixOf(e: string, text: string, more: string)
    requires forall i :: 0 <= i < |e| ==> Plain(e[i])
    requires |PlainPrefix(text)| < |text|
    ensures PlainPrefix(e + (text + more)) == e + PlainPrefix(text)
    decreases |e|
  {
    hide Plain;
    if e == "" {
      assert e + (text + more) == text + more && e + PlainPrefix(text) == PlainPrefix(text);
      PlainPrefixStops(text, more);
    } else {
      PlainPrefixOf(e[1..], text, more);
      PlainPrefixStep(e, text + more);
      assert [e[0]] + (e[1..] + PlainPrefix(text)) == e + PlainPrefix(text);
    }
  }

  lemma PlainPrefixStep(e: string, tail: string)
    requires e != "" && Plain(e[0])
    ensures PlainPrefix(e + tail) == [e[0]] + PlainPrefix(e[1..] + tail)
  {
    assert (e + tail)[1..] == e[1..] + tail && (e + tail)[0] == e[0];
  }

  lemma {:induction false} PlainPrefixStops(text: string, more: string)
    requires |PlainPrefix(text)| < |text|
    ensures PlainPrefix(text + more) == PlainPrefix(text)
  {
    assert (text + more)[0] == text[0];
    if Plain(text[0]) {
      assert (text + more)[1..] == text[1..] + more;
      PlainPrefixStops(text[1..], more);
    }
  }

  lemma ValueEnds(rest: Template, e: string, params: map<string, string>)
    requires AllGiven(rest, params) && (forall i :: 0 <= i < |e| ==> Plain(e[i]))
    requires rest.Hole? ==> |PlainPrefix(rest.text)| < |rest.text|
    ensures EncodedLength(rest, e + Filled(rest, params)) == |e|
  {
    hide Encode;
    if rest.Hole? {
      var more := Encode(params[rest.name]) + Filled(rest.rest, params);
      assert Filled(rest, params) == rest.text + more;
      PlainPrefixOf(e, rest.text, more);
    }
  }

  /** Where the placeholders are kept apart, every value is read back. */
  lemma {:induction false} ReadsBack(t: Template, params: map<string, string>)
    requires Separated(t) && AllGiven(t, params)
    ensures ReadBack(t, Filled(t, params)) == Some(Values(t, params))
  {
    hide Encode, Decode, EncodedLength;
    if t.Hole? {
      var e, rest := Encode(params[t.name]), Filled(t.rest, params);
      var s := Filled(t, params);
      assert s == t.text + (e + rest);
      assert s[..|t.text|] == t.text && s[|t.text|..] == e + rest;
      EncodedIsPlain(params[t.name]);
      ValueEnds(t.rest, e, params);
      assert (e + rest)[..|e|] == e && (e + rest)[|e|..] == rest;
      DecodeEncoded(params[t.name], false);
      ReadsBack(t.rest, params);
    }
  }

  // -- and exactly then -------------------------------------------------------------------------

  function Names(t: Template): seq<string> {
    if t.End? then [] else [t.name] + Names(t.rest)
  }

  predicate Distinct(names: seq<string>) {
    forall i, j :: 0 <= i < j < |names| ==> names[i] != names[j]
  }

  predicate NoPercent(t: Template) {
    '%' !in t.text && (t.Hole? ==> NoPercent(t.rest))
  }

  /** No two sets of values build one path. */
  ghost predicate Recoverable(t: Template) {
    forall p, q :: AllGiven(t, p) && AllGiven(t, q) && Filled(t, p) == Filled(t, q) ==> Values(t, p) == Values(t, q)
  }

  lemma {:induction false} SameValues(t: Template, p: map<string, string>, q: map<string, string>)
    requires AllGiven(t, p)
    requires forall name :: name in Names(t) ==> name in p && name in q && p[name] == q[name]
    ensures AllGiven(t, q) && Filled(t, p) == Filled(t, q) && Values(t, p) == Values(t, q)
  {
    hide Encode;
    if t.Hole? {
      assert forall name :: name in Names(t.rest) ==> name in Names(t);
      assert t.name in Names(t);
      SameValues(t.rest, p, q);
    }
  }

  lemma {:induction false} ValuesAreNamed(t: Template, p: map<string, string>)
    requires AllGiven(t, p)
    ensures forall name :: name in Values(t, p) <==> name in Names(t)
    ensures forall name :: name in Values(t, p) ==> name in p && Values(t, p)[name] == p[name]
  {
    if t.Hole? { ValuesAreNamed(t.rest, p); }
  }

  lemma {:induction false} KeptIsEncoded(s: string)
    requires forall i :: 0 <= i < |s| ==> Kept(s[i])
    ensures Encode(s) == s
  {
    if s != "" {
      KeptIsEncoded(s[1..]);
      assert s == [s[0]] + s[1..];
    }
  }

  lemma {:induction false} AllPlain(s: string)
    requires |PlainPrefix(s)| == |s|
    ensures forall i :: 0 <= i < |s| ==> Plain(s[i])
  {
    if s != "" { AllPlain(s[1..]); }
  }

  function SomeValue(names: seq<string>): map<string, string> {
    map name | name in names :: "v"
  }

  lemma {:induction false} SomeGiven(t: Template, p: map<string, string>)
    requires forall name :: name in Names(t) ==> Given(p, name)
    ensures AllGiven(t, p)
  {
    if t.Hole? {
      assert t.name in Names(t) && forall name :: name in Names(t.rest) ==> name in Names(t);
      SomeGiven(t.rest, p);
    }
  }

  /** Two values of placeholders that only kept characters `w` stand between. */
  function FirstPair(t: Template): map<string, string>
    requires t.Hole? && t.rest.Hole?
  {
    SomeValue(Names(t))[t.name := "x"][t.rest.name := "y" + t.rest.text + "z"]
  }

  function SecondPair(t: Template): map<string, string>
    requires t.Hole? && t.rest.Hole?
  {
    SomeValue(Names(t))[t.name := "x" + t.rest.text + "y"][t.rest.name := "z"]
  }

  lemma RestNames(t: Template)
    requires t.Hole? && Distinct(Names(t))
    ensures Distinct(Names(t.rest)) && t.name !in Names(t.rest)
    ensures forall name :: name in Names(t) <==> name == t.name || name in Names(t.rest)
  {
    var names, rest := Names(t), Names(t.rest);
    forall i, j | 0 <= i < j < |rest| ensures rest[i] != rest[j] { assert names[i + 1] != names[j + 1]; }
    forall i | 0 <= i < |rest| ensures rest[i] != t.name { assert names[0] != names[i + 1]; }
  }

  lemma PairsGiven(t: Template)
    requires t.Hole? && t.rest.Hole? && Distinct(Names(t))
    ensures AllGiven(t, FirstPair(t)) && AllGiven(t, SecondPair(t))
    ensures AllGiven(t.rest.rest, FirstPair(t)) && AllGiven(t.rest.rest, SecondPair(t))
    ensures Filled(t.rest.rest, FirstPair(t)) == Filled(t.rest.rest, SecondPair(t))
  {
    hide Filled, Values;
    RestNames(t);
    RestNames(t.rest);
    SomeGiven(t, FirstPair(t));
    SomeGiven(t, SecondPair(t));
    SameValues(t.rest.rest, FirstPair(t), SecondPair(t));
  }

  lemma PairTexts(text: string, w: string, more: string)
    ensures text + "x" + (w + ("y" + w + "z") + more) == text + ("x" + w + "y") + (w + "z" + more)
  {
    assert text + "x" + (w + ("y" + w + "z") + more) == text + "x" + w + "y" + w + "z" + more;
  }

  /** Kept characters alone do not keep two placeholders apart. */
  lemma NeighboursRunTogether(t: Template)
    requires t.Hole? && t.rest.Hole? && Distinct(Names(t))
    requires forall i :: 0 <= i < |t.rest.text| ==> Kept(t.rest.text[i])
    ensures var p, q := FirstPair(t), SecondPair(t);
      && AllGiven(t, p) && AllGiven(t, q) && Filled(t, p) == Filled(t, q) && Values(t, p) != Values(t, q)
  {
    hide Encode, Names, SomeValue;
    var p, q, w := FirstPair(t), SecondPair(t), t.rest.text;
    PairsGiven(t);
    RestNames(t);
    assert t.name != t.rest.name by { FirstName(t.rest); }
    KeptIsEncoded("x");
    KeptIsEncoded("z");
    KeptIsEncoded("y" + w + "z");
    KeptIsEncoded("x" + w + "y");
    var more := Filled(t.rest.rest, p);
    assert Filled(t, p) == t.text + "x" + (w + ("y" + w + "z") + more);
    assert Filled(t, q) == t.text + ("x" + w + "y") + (w + "z" + more);
    PairTexts(t.text, w, more);
    assert Values(t, p)[t.name] == "x" && Values(t, q)[t.name] == "x" + w + "y";
  }

  lemma FirstName(t: Template)
    requires t.Hole?
    ensures t.name in Names(t)
  {
  }

  lemma {:induction false} RunsTogether(t: Template) returns (p: map<string, string>, q: map<string, string>)
    requires Distinct(Names(t)) && NoPercent(t) && !Separated(t)
    ensures AllGiven(t, p) && AllGiven(t, q) && Filled(t, p) == Filled(t, q) && Values(t, p) != Values(t, q)
  {
    hide Filled, Values, Names, Distinct;
    RestNames(t);
    if t.rest.Hole? && |PlainPrefix(t.rest.text)| == |t.rest.text| {
      AllPlain(t.rest.text);
      NeighboursRunTogether(t);
      p, q := FirstPair(t), SecondPair(t);
    } else {
      var a, b := RunsTogether(t.rest);
      p, q := a[t.name := "v"], b[t.name := "v"];
      StillTogether(t, a, b);
    }
  }

  lemma StillTogether(t: Template, a: map<string, string>, b: map<string, string>)
    requires t.Hole? && t.name !in Names(t.rest) && AllGiven(t.rest, a) && AllGiven(t.rest, b)
    requires Filled(t.rest, a) == Filled(t.rest, b) && Values(t.rest, a) != Values(t.rest, b)
    ensures var p, q := a[t.name := "v"], b[t.name := "v"];
      && AllGiven(t, p) && AllGiven(t, q) && Filled(t, p) == Filled(t, q) && Values(t, p) != Values(t, q)
  {
    hide Filled, Values, Names, AllGiven, Encode;
    WithOneMore(t, a);
    WithOneMore(t, b);
    ValuesAreNamed(t.rest, a);
    ValuesAreNamed(t.rest, b);
    var x, y := Values(t.rest, a), Values(t.rest, b);
    assert t.name !in x && t.name !in y;
    assert x == x[t.name := "v"] - {t.name} && y == y[t.name := "v"] - {t.name};
  }

  lemma WithOneMore(t: Template, a: map<string, string>)
    requires t.Hole? && t.name !in Names(t.rest) && AllGiven(t.rest, a)
    ensures var p := a[t.name := "v"];
      && AllGiven(t, p) && Filled(t, p) == t.text + Encode("v") + Filled(t.rest, a)
      && Values(t, p) == Values(t.rest, a)[t.name := "v"]
  {
    ValuesAreNamed(t.rest, a);
    SameValues(t.rest, a, a[t.name := "v"]);
  }

  /**
   * The values can be told from the path if and only if between every two
   * neighbouring placeholders stands a character no encoded value has.
   */
  lemma RecoverableIffSeparated(t: Template)
    requires Distinct(Names(t)) && NoPercent(t)
    ensures Recoverable(t) <==> Separated(t)
  {
    hide Filled, Values, Separated, AllGiven;
    if Separated(t) {
      forall p, q | AllGiven(t, p) && AllGiven(t, q) && Filled(t, p) == Filled(t, q) ensures Values(t, p) == Values(t, q) {
        ReadsBack(t, p);
        ReadsBack(t, q);
      }
    } else {
      var p, q := RunsTogether(t);
    }
  }

  /** A path is built if and only if every value is given, and a separated template gives every value back. */
  lemma PathRoundTrip(path: string, params: map<string, string>)
    ensures BuildPath(path, params).Path? <==> AllGiven(Parse(path), params)
    ensures BuildPath(path, params).Path? && Separated(Parse(path)) ==>
      ReadBack(Parse(path), BuildPath(path, params).path) == Some(Values(Parse(path), params))
  {
    hide Filled, Values, Separated, AllGiven, Parse, ReadBack, BuildPath;
    BuildsFilled(path, params);
    if AllGiven(Parse(path), params) && Separated(Parse(path)) { ReadsBack(Parse(path), params); }
  }
}
