/** The shape of an operation's key: its text with every placeholder's name taken out. */
module UrlShapes {
  import opened Pairing

  /** Every `{name}` of the key replaced by `{}`. */
  function UrlShape(key: string): string
    decreases |key|
  {
    if key == "" then ""
    else if key[0] == '{' then
      var name := Prefix(key[1..], {'}'});
      if name == "" || |name| == |key| - 1 then [key[0]] + UrlShape(key[1..])
      else "{}" + UrlShape(key[|name| + 2..])
    else [key[0]] + UrlShape(key[1..])
  }

  function Placeholders(shape: string): nat {
    if |shape| < 2 then 0
    else (if shape[..2] == "{}" then 1 else 0) + Placeholders(shape[1..])
  }

  // -- keys as they are written -----------------------------------------------------------

  /** Literal text, then placeholders, each with the text behind it. */
  datatype Key = End(text: string) | Slot(text: string, name: string, rest: Key)

  function Written(k: Key): string {
    match k
    case End(text) => text
    case Slot(text, name, rest) => text + ("{" + name + "}" + Written(rest))
  }

  /** No brace in the literal texts, and names that are not empty and close nothing. */
  predicate WellWritten(k: Key) {
    && '{' !in k.text && '}' !in k.text
    && (k.Slot? ==> k.name != "" && '}' !in k.name && WellWritten(k.rest))
  }

  /** The texts between the placeholders. */
  function Literals(k: Key): seq<string> {
    if k.End? then [k.text] else [k.text] + Literals(k.rest)
  }

  function Unnamed(k: Key): string {
    match k
    case End(text) => text
    case Slot(text, _, rest) => text + ("{}" + Unnamed(rest))
  }

  lemma {:induction false} ShapeOfText(text: string, tail: string)
    requires '{' !in text
    ensures UrlShape(text + tail) == text + UrlShape(tail)
  {
    if text == "" {
      assert text + tail == tail;
    } else {
      assert (text + tail)[1..] == text[1..] + tail;
      ShapeOfText(text[1..], tail);
    }
  }

  lemma ShapeOfSlot(name: string, tail: string)
    requires name != "" && '}' !in name
    ensures UrlShape("{" + name + "}" + tail) == "{}" + UrlShape(tail)
  {
    var key := "{" + name + "}" + tail;
    assert key[1..] == name + ("}" + tail);
    PrefixOf(name, "}" + tail, {'}'});
    assert key[|name| + 2..] == tail;
  }

  /** The shape of a key is the key without its names. */
  lemma {:induction false} ShapeOfWritten(k: Key)
    requires WellWritten(k)
    ensures UrlShape(Written(k)) == Unnamed(k)
  {
    match k
    case End(text) =>
      assert text + "" == text;
      ShapeOfText(text, "");
    case Slot(text, name, rest) =>
      ShapeOfText(text, "{" + name + "}" + Written(rest));
      ShapeOfSlot(name, Written(rest));
      ShapeOfWritten(rest);
  }

  lemma UnnamedStarts(k: Key)
    requires WellWritten(k)
    ensures k.End? ==> '{' !in Unnamed(k) && Unnamed(k) == k.text
    ensures k.Slot? ==> Prefix(Unnamed(k), {'{'}) == k.text && Unnamed(k) == k.text + ("{}" + Unnamed(k.rest))
  {
    if k.Slot? { PrefixOf(k.text, "{}" + Unnamed(k.rest), {'{'}); }
  }

  lemma {:induction false} SameUnnamed(k: Key, l: Key)
    requires WellWritten(k) && WellWritten(l)
    ensures Unnamed(k) == Unnamed(l) <==> Literals(k) == Literals(l)
    decreases k
  {
    hide Unnamed, Literals;
    UnnamedStarts(k);
    UnnamedStarts(l);
    LiteralsStart(k);
    LiteralsStart(l);
    if k.Slot? && l.Slot? {
      SameUnnamed(k.rest, l.rest);
      if Unnamed(k) == Unnamed(l) {
        Behind(k.text, "{}", Unnamed(k.rest));
        Behind(l.text, "{}", Unnamed(l.rest));
      }
    } else if k.Slot? != l.Slot? {
      var slotted := if k.Slot? then k else l;
      assert Unnamed(slotted)[|slotted.text|] == '{';
    }
  }

  lemma Behind(a: string, b: string, c: string)
    ensures (a + (b + c))[|a| + |b|..] == c
  {
  }

  lemma LiteralsStart(k: Key)
    ensures |Literals(k)| >= 1 && Literals(k)[0] == k.text
    ensures k.End? ==> Literals(k) == [k.text]
    ensures k.Slot? ==> Literals(k) == [k.text] + Literals(k.rest) && Literals(k)[1..] == Literals(k.rest) && |Literals(k)| > 1
  {
    if k.Slot? { LiteralsStart(k.rest); }
  }

  /** Two keys have one shape if and only if their literal texts are equal, whatever the names. */
  lemma SameShapeIff(k: Key, l: Key)
    requires WellWritten(k) && WellWritten(l)
    ensures UrlShape(Written(k)) == UrlShape(Written(l)) <==> Literals(k) == Literals(l)
  {
    ShapeOfWritten(k);
    ShapeOfWritten(l);
    SameUnnamed(k, l);
  }

  lemma {:induction false} PlainPlaceholders(text: string, tail: string)
    requires '{' !in text
    ensures Placeholders(text + tail) == Placeholders(tail)
  {
    if text == "" {
      assert text + tail == tail;
    } else {
      assert (text + tail)[1..] == text[1..] + tail;
      assert |text + tail| >= 2 ==> (text + tail)[..2][0] == text[0];
      PlainPlaceholders(text[1..], tail);
    }
  }

  /** As many placeholders as there are names. */
  lemma {:induction false} PlaceholdersOfWritten(k: Key)
    requires WellWritten(k)
    ensures Placeholders(UrlShape(Written(k))) == |Literals(k)| - 1
  {
    ShapeOfWritten(k);
    match k
    case End(text) =>
      assert text + "" == text;
      PlainPlaceholders(text, "");
    case Slot(text, name, rest) =>
      var tail := "{}" + Unnamed(rest);
      PlainPlaceholders(text, tail);
      assert tail[..2] == "{}" && tail[1..] == "}" + Unnamed(rest);
      PlainPlaceholders("}", Unnamed(rest));
      ShapeOfWritten(rest);
      PlaceholdersOfWritten(rest);
  }

  /** One route: the same literal texts around placeholders of whatever names. */
  ghost predicate SameRoute(x: string, y: string) {
    exists k: Key, l: Key ::
      WellWritten(k) && WellWritten(l) && Written(k) == x && Written(l) == y && Literals(k) == Literals(l)
  }

  ghost predicate IsWritten(x: string) {
    exists k: Key :: WellWritten(k) && Written(k) == x
  }

  /** For keys that are well written, one shape is one route. */
  lemma ShapeIsRoute(x: string, y: string)
    requires IsWritten(x) && IsWritten(y)
    ensures UrlShape(x) == UrlShape(y) <==> SameRoute(x, y)
  {
    hide WellWritten, Written, Literals;
    var k: Key :| WellWritten(k) && Written(k) == x;
    var l: Key :| WellWritten(l) && Written(l) == y;
    SameShapeIff(k, l);
    if SameRoute(x, y) {
      var m: Key, n: Key :| WellWritten(m) && WellWritten(n) && Written(m) == x && Written(n) == y && Literals(m) == Literals(n);
      SameShapeIff(m, n);
    }
  }
}
