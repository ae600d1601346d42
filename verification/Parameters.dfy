/**
 * Parameters as they are written, and which of them take a transaction: those
 * named `tx`, and those whose whole type is `Tx` or `DbOrTx`.
 */
module Parameters {
  import opened JsonValues
  import opened MaskRules
  import opened TxPatterns

  const MODIFIER_WORDS := ["public", "private", "protected", "readonly"]

  /** A modifier and the white space behind it. */
  datatype Modifier = Modifier(word: string, gap: string)

  /**
   * A parameter by its parts. `optional`: the white space behind a question
   * mark; `typed`: what stands behind the colon; `rest`: a default, or what
   * else may follow.
   */
  datatype Written = Written(
    before: string, dots: bool, modifier: Option<Modifier>, name: string, gap: string,
    optional: Option<string>, typed: Option<string>, rest: string)

  predicate White(text: string) {
    forall k :: 0 <= k < |text| ==> text[k] in SPACES
  }

  predicate IsWord(text: string) {
    text != "" && forall k :: 0 <= k < |text| ==> IsWordChar(text[k])
  }

  function TypeText(w: Written): string {
    (if w.typed.Some? then ":" + w.typed.value else "") + w.rest
  }

  function Tail(w: Written): string {
    (if w.optional.Some? then "?" + w.optional.value else "") + TypeText(w)
  }

  function NameText(w: Written): string {
    w.name + (w.gap + Tail(w))
  }

  function ModifierText(w: Written): string {
    (if w.modifier.Some? then w.modifier.value.word + w.modifier.value.gap else "") + NameText(w)
  }

  /** The parameter without the white space before it. */
  function Core(w: Written): string {
    (if w.dots then "..." else "") + ModifierText(w)
  }

  function TextOf(w: Written): string {
    w.before + Core(w)
  }

  /** What follows is not a piece of what is written before it. */
  predicate RestFits(w: Written) {
    w.rest == "" ||
    if w.typed.Some? then w.rest[0] == '='
    else
      && w.rest[0] !in SPACES && w.rest[0] != ':'
      && (w.optional.None? ==> w.rest[0] != '?' && (w.gap == "" ==> !IsWordChar(w.rest[0])))
  }

  predicate ModifierFits(w: Written) {
    if w.modifier.Some? then w.modifier.value.word in MODIFIER_WORDS && w.modifier.value.gap != "" && White(w.modifier.value.gap)
    else w.name in MODIFIER_WORDS ==> w.gap == ""
  }

  predicate WellFormed(w: Written) {
    && White(w.before) && ModifierFits(w)
    && IsWord(w.name) && White(w.gap) && (w.optional.Some? ==> White(w.optional.value))
    && (w.typed.Some? ==> '=' !in w.typed.value) && RestFits(w)
  }

  /** A word and nothing else, white space aside. */
  ghost predicate Padded(text: string, word: string) {
    exists a: string, b: string :: White(a) && White(b) && text == a + word + b
  }

  /** The whole type is a transaction's. */
  ghost predicate TxType(text: string) {
    Padded(text, "Tx") || Padded(text, "DbOrTx")
  }

  ghost predicate TakesIt(w: Written) {
    w.name == "tx" || (w.typed.Some? && TxType(w.typed.value))
  }

  /** A parameter that takes a transaction, as it may be written. */
  ghost predicate TxParameter(raw: string) {
    exists w: Written :: WellFormed(w) && TextOf(w) == raw && TakesIt(w)
  }

  // -- reading words and white space --------------------------------------------------------------

  lemma {:induction false} WordEndsAt(text: string, i: nat, end: nat)
    requires i <= end <= |text| && forall k :: i <= k < end ==> IsWordChar(text[k])
    requires end < |text| ==> !IsWordChar(text[end])
    ensures WordEnd(text, i) == end
    decreases end - i
  {
    hide IsWordChar;
    if i < end { WordEndsAt(text, i + 1, end); }
  }

  lemma {:induction false} SpacesEndAt(text: string, i: nat, end: nat)
    requires i <= end <= |text| && forall k :: i <= k < end ==> text[k] in SPACES
    requires end < |text| ==> text[end] !in SPACES
    ensures SkipSpaces(text, i) == end
    decreases end - i
  {
    hide SPACES;
    if i < end { SpacesEndAt(text, i + 1, end); }
  }

  lemma SpaceIsNoWord(c: char)
    requires c in SPACES
    ensures !IsWordChar(c) && c != '.' && c != '?' && c != ':' && c != '='
  {
  }

  /** What the end of a text that is not all white space loses. */
  lemma {:induction false} TrimEndBehind(a: string, b: string)
    ensures TrimEnd(b) != "" ==> TrimEnd(a + b) == a + TrimEnd(b)
    ensures TrimEnd(b) == "" ==> TrimEnd(a + b) == TrimEnd(a)
    decreases |b|
  {
    hide SPACES;
    if b == "" {
      assert a + b == a;
    } else if b[|b| - 1] in SPACES {
      assert (a + b)[..|a + b| - 1] == a + b[..|b| - 1];
      TrimEndBehind(a, b[..|b| - 1]);
    }
  }

  lemma {:induction false} TrimEndOfWhite(text: string)
    ensures White(text) <==> TrimEnd(text) == ""
    decreases |text|
  {
    hide SPACES;
    if text != "" && text[|text| - 1] in SPACES {
      TrimEndOfWhite(text[..|text| - 1]);
      assert White(text) <==> White(text[..|text| - 1]);
    }
  }

  lemma {:induction false} TrimEndLeaves(text: string)
    ensures exists b: string :: White(b) && text == TrimEnd(text) + b
    decreases |text|
  {
    hide SPACES;
    if text != "" && text[|text| - 1] in SPACES {
      var init := text[..|text| - 1];
      TrimEndLeaves(init);
      var b :| White(b) && init == TrimEnd(init) + b;
      var more := b + [text[|text| - 1]];
      assert White(more);
      assert text == init + [text[|text| - 1]] == TrimEnd(text) + more;
    } else {
      assert White("") && text == text + "";
    }
  }

  /** Trimming takes the white space off both ends. */
  lemma TrimmedBoth(a: string, word: string, b: string)
    requires White(a) && White(b) && IsWord(word)
    ensures Trim(a + word + b) == word
  {
    hide IsWordChar, SPACES;
    if word[0] in SPACES { SpaceIsNoWord(word[0]); }
    if word[|word| - 1] in SPACES { SpaceIsNoWord(word[|word| - 1]); }
    var text := a + word + b;
    SpacesEndAt(text, 0, |a|);
    assert text[|a|..] == word + b;
    TrimEndOfWhite(b);
    TrimEndBehind(word, b);
  }

  lemma TypeWords()
    ensures IsWord("Tx") && IsWord("DbOrTx")
    ensures forall word: string :: word in TX_TYPES <==> word == "Tx" || word == "DbOrTx"
  {
  }

  lemma PaddedIsTrimmed(text: string, word: string)
    requires IsWord(word)
    ensures Trim(text) == word <==> Padded(text, word)
  {
    hide IsWordChar, SPACES, IsWord;
    if Padded(text, word) {
      var a: string, b: string :| White(a) && White(b) && text == a + word + b;
      TrimmedBoth(a, word, b);
    }
    if Trim(text) == word {
      var n := SkipSpaces(text, 0);
      TrimEndLeaves(text[n..]);
      var b: string :| White(b) && text[n..] == word + b;
      assert White(text[..n]) && text == text[..n] + word + b;
    }
  }

  lemma TypeIsTrimmed(text: string)
    ensures Trim(text) in TX_TYPES <==> TxType(text)
  {
    hide IsWordChar, SPACES, TX_TYPES, IsWord, Padded, Trim;
    TypeWords();
    PaddedIsTrimmed(text, "Tx");
    PaddedIsTrimmed(text, "DbOrTx");
  }

  // -- the parts are found -------------------------------------------------------------------------

  lemma {:induction false} BeforeSign(a: string, b: string, c: char)
    requires c !in a && (b != "" ==> b[0] == c)
    ensures Before(a + b, c) == a
    decreases |a|
  {
    if a == "" {
      assert a + b == b;
    } else {
      assert (a + b)[1..] == a[1..] + b;
      BeforeSign(a[1..], b, c);
    }
  }

  /** The parameter with nothing around it. */
  predicate Bare(w: Written) {
    && WellFormed(w) && w.before == ""
    && (w.rest == "" ==>
         if w.typed.Some? then TrimEnd(w.typed.value) == w.typed.value
         else if w.optional.Some? then w.optional.value == "" else w.gap == "")
  }

  /** What may follow a name, and what may follow its white space. */
  lemma AfterName(w: Written)
    requires WellFormed(w)
    ensures w.gap + Tail(w) != "" ==> !IsWordChar((w.gap + Tail(w))[0])
    ensures Tail(w) != "" ==> Tail(w)[0] !in SPACES
    ensures TypeText(w) != "" ==> TypeText(w)[0] !in SPACES
    ensures At(TypeText(w), 0) == Some(':') <==> w.typed.Some?
    ensures At(Tail(w), 0) == Some('?') <==> w.optional.Some?
  {
    hide SPACES, MODIFIER_WORDS;
    SignsAreNoSpaces();
    if w.gap != "" { SpaceIsNoWord(w.gap[0]); }
  }

  lemma SignsAreNoSpaces()
    ensures '?' !in SPACES && ':' !in SPACES && '=' !in SPACES && '.' !in SPACES
  {
  }

  /** White space, and what stands behind it. */
  lemma SpacesThen(param: string, start: nat, gap: string, rest: string)
    requires start <= |param| && param[start..] == gap + rest && White(gap) && (rest != "" ==> rest[0] !in SPACES)
    ensures var end := SkipSpaces(param, start);
      && end == start + |gap| && param[end..] == rest && At(param, end) == At(rest, 0)
      && (rest != "" ==> param[end + 1..] == rest[1..])
  {
    hide SPACES;
    var end := start + |gap|;
    forall m | start <= m < |param| ensures param[m] == (gap + rest)[m - start] { assert param[start..][m - start] == param[m]; }
    assert param[end..] == rest;
    SpacesEndAt(param, start, end);
  }

  /** Behind the white space after a name: the question mark, the colon, and the type up to a default. */
  lemma TailIsRead(param: string, i: nat, w: Written)
    requires WellFormed(w) && i <= |param| && param[i..] == Tail(w)
    ensures var j := SkipSpaces(param, if At(param, i) == Some('?') then i + 1 else i);
      && (At(param, j) == Some(':') <==> w.typed.Some?)
      && (w.typed.Some? ==> Before(param[j + 1..], '=') == w.typed.value)
  {
    hide SPACES, IsWordChar, RestFits, ModifierFits, MODIFIER_WORDS, Before, TypeText;
    AfterName(w);
    if w.typed.Some? { TypeParts(w); }
    if w.optional.Some? {
      assert param[i + 1..] == param[i..][1..] == w.optional.value + TypeText(w);
      SpacesThen(param, i + 1, w.optional.value, TypeText(w));
    } else {
      assert param[i..] == "" + TypeText(w);
      SpacesThen(param, i, "", TypeText(w));
    }
  }

  /** A name, and where the white space behind it ends. */
  lemma NameIsRead(w: Written)
    requires WellFormed(w)
    ensures var param := NameText(w); var n := |w.name|;
      && n > 0 && WordEnd(param, 0) == n && param[..n] == w.name
      && SkipSpaces(param, n) == n + |w.gap| <= |param| && param[n + |w.gap|..] == Tail(w)
  {
    hide SPACES, IsWordChar, RestFits, ModifierFits, MODIFIER_WORDS;
    AfterName(w);
    hide Tail, TypeText;
    var param, n := NameText(w), |w.name|;
    WordEndsAt(param, 0, n);
    assert param[n + |w.gap|..] == Tail(w);
    SpacesEndAt(param, n, n + |w.gap|);
  }

  lemma TypeParts(w: Written)
    requires w.typed.Some? && '=' !in w.typed.value && RestFits(w)
    ensures |TypeText(w)| > 0 && Before(TypeText(w)[1..], '=') == w.typed.value
  {
    assert TypeText(w)[1..] == w.typed.value + w.rest;
    BeforeSign(w.typed.value, w.rest, '=');
  }

  lemma SameModifiers(word: string)
    ensures word in MODIFIER_WORDS <==> word in MODIFIERS
    ensures word in MODIFIER_WORDS ==> IsWord(word)
  {
  }

  lemma DropsWord(word: string, gap: string, rest: string)
    requires word in MODIFIERS && IsWord(word) && gap != "" && White(gap) && (rest != "" ==> rest[0] !in SPACES)
    ensures DropModifier(word + gap + rest) == rest
  {
    hide SPACES, IsWordChar, MODIFIERS;
    var text := word + gap + rest;
    SpaceIsNoWord(gap[0]);
    WordEndsAt(text, 0, |word|);
    SpacesEndAt(text, |word|, |word| + |gap|);
    assert text[..|word|] == word && text[|word| + |gap|..] == rest;
  }

  lemma KeepsWord(word: string, rest: string)
    requires IsWord(word) && (rest != "" ==> !IsWordChar(rest[0])) && (word in MODIFIERS && rest != "" ==> rest[0] !in SPACES)
    ensures DropModifier(word + rest) == word + rest
  {
    hide SPACES, IsWordChar, MODIFIERS;
    var text := word + rest;
    WordEndsAt(text, 0, |word|);
    assert text[..|word|] == word;
    if word in MODIFIERS { SpacesEndAt(text, |word|, |word|); }
  }

  lemma ModifierIsDropped(w: Written)
    requires WellFormed(w)
    ensures DropModifier(ModifierText(w)) == NameText(w)
  {
    hide SPACES, IsWordChar, MODIFIER_WORDS, MODIFIERS, RestFits, DropModifier;
    AfterName(w);
    hide Tail;
    if w.modifier.Some? {
      SameModifiers(w.modifier.value.word);
      if w.name[0] in SPACES { SpaceIsNoWord(w.name[0]); }
      assert NameText(w)[0] == w.name[0];
      DropsWord(w.modifier.value.word, w.modifier.value.gap, NameText(w));
    } else {
      SameModifiers(w.name);
      assert w.gap == "" ==> w.gap + Tail(w) == Tail(w);
      assert ModifierText(w) == w.name + (w.gap + Tail(w));
      KeepsWord(w.name, w.gap + Tail(w));
    }
  }

  lemma DotsFirst(text: string)
    ensures StartsAt(text, 0, "...") ==> |text| >= 3 && text[0] == '.' && text == "..." + text[3..]
  {
    if StartsAt(text, 0, "...") { assert text[0..3] == "..." && text[0] == text[0..3][0]; }
  }

  lemma DotsAreDropped(w: Written)
    requires WellFormed(w)
    ensures (if StartsAt(Core(w), 0, "...") then Core(w)[3..] else Core(w)) == ModifierText(w)
  {
    hide SPACES, MODIFIER_WORDS, RestFits, Tail;
    if w.dots {
      assert Core(w)[0..3] == "..." && Core(w)[3..] == ModifierText(w);
    } else {
      if w.modifier.Some? { SameModifiers(w.modifier.value.word); }
      var first := if w.modifier.Some? then w.modifier.value.word[0] else w.name[0];
      assert Core(w)[0] == first && IsWordChar(first);
      DotsFirst(Core(w));
    }
  }

  /** What is left when white space is trimmed is read as it is written. */
  lemma CoreIsRead(raw: string, w: Written)
    requires WellFormed(w) && Trim(raw) == Core(w)
    ensures IsTx(raw) <==> TakesIt(w)
  {
    hide SPACES, IsWordChar, WellFormed, TX_TYPES, DropModifier, Core, ModifierText, NameText, Tail, TypeText, TxType, Trim, Before, WordEnd;
    hide SkipSpaces, StartsAt, White, IsWord;
    DotsAreDropped(w);
    ModifierIsDropped(w);
    NameIsRead(w);
    TailIsRead(NameText(w), |w.name| + |w.gap|, w);
    if w.typed.Some? { TypeIsTrimmed(w.typed.value); }
  }

  // -- white space at the end ----------------------------------------------------------------------

  lemma TrimsLast(a: string, b: string)
    requires a != "" && a[|a| - 1] !in SPACES
    ensures TrimEnd(a + b) == a + TrimEnd(b)
  {
    hide SPACES;
    TrimEndBehind(a, b);
    assert a + "" == a;
  }

  lemma PaddedMore(text: string, word: string, after: string)
    requires Padded(text, word) && White(after)
    ensures Padded(text + after, word)
  {
    hide SPACES;
    var a: string, b: string :| White(a) && White(b) && text == a + word + b;
    assert White(b + after) && text + after == a + word + (b + after);
  }

  /** Trimming its end makes no difference to a word and white space around it. */
  lemma SamePadded(text: string, word: string)
    requires IsWord(word)
    ensures Padded(TrimEnd(text), word) <==> Padded(text, word)
  {
    hide SPACES, IsWordChar, IsWord, White;
    TrimEndLeaves(text);
    var end :| White(end) && text == TrimEnd(text) + end;
    if Padded(TrimEnd(text), word) { PaddedMore(TrimEnd(text), word, end); }
    if Padded(text, word) {
      var a: string, b: string :| White(a) && White(b) && text == a + word + b;
      PaddedTrims(a, word, b);
    }
  }

  lemma PaddedTrims(a: string, word: string, b: string)
    requires White(a) && White(b) && IsWord(word)
    ensures Padded(TrimEnd(a + word + b), word)
  {
    hide SPACES, IsWordChar;
    if word[|word| - 1] in SPACES { SpaceIsNoWord(word[|word| - 1]); }
    TrimEndOfWhite(b);
    var solid := a + word;
    assert solid[|solid| - 1] == word[|word| - 1];
    TrimsLast(solid, b);
    assert White("") && TrimEnd(solid + b) == a + word + "";
  }

  lemma SameType(text: string)
    ensures TxType(TrimEnd(text)) <==> TxType(text)
  {
    hide Padded, IsWord, TX_TYPES;
    TypeWords();
    SamePadded(text, "Tx");
    SamePadded(text, "DbOrTx");
  }

  /** The part the parameter ends in. */
  function EndOf(w: Written): string {
    if w.rest != "" then w.rest else if w.typed.Some? then w.typed.value else if w.optional.Some? then w.optional.value else w.gap
  }

  function WithEnd(w: Written, end: string): Written {
    if w.rest != "" then w.(rest := end)
    else if w.typed.Some? then w.(typed := Some(end))
    else if w.optional.Some? then w.(optional := Some(end))
    else w.(gap := end)
  }

  lemma TailEnds(w: Written, end: string)
    ensures WithEnd(w, end).gap + Tail(WithEnd(w, end)) == WithEnd(w, "").gap + Tail(WithEnd(w, "")) + end
  {
    var v, u := WithEnd(w, ""), WithEnd(w, end);
    if w.rest != "" {
      assert TypeText(u) == TypeText(v) + end;
      assert Tail(u) == Tail(v) + end;
    } else if w.typed.Some? {
      assert TypeText(u) == ":" + end && TypeText(v) == ":";
      assert Tail(u) == Tail(v) + end;
    } else if w.optional.Some? {
      assert TypeText(u) == "" && TypeText(v) == "";
      assert Tail(u) == "?" + end && Tail(v) == "?";
    } else {
      assert Tail(u) == "" && Tail(v) == "";
    }
  }

  lemma SameStart(w: Written, end: string)
    ensures var u := WithEnd(w, end); u.before == w.before && u.dots == w.dots && u.modifier == w.modifier && u.name == w.name
  {
  }

  lemma Reassociated(a: string, b: string, c: string)
    ensures a + (b + c) == a + b + c
  {
  }

  lemma NameEnds(w: Written, end: string)
    ensures NameText(WithEnd(w, end)) == NameText(WithEnd(w, "")) + end
  {
    TailEnds(w, end);
    SameStart(w, end);
    SameStart(w, "");
    var v := WithEnd(w, "");
    Reassociated(w.name, v.gap + Tail(v), end);
    hide Tail, WithEnd;
  }

  lemma CoreEnds(w: Written, end: string)
    ensures Core(WithEnd(w, end)) == Core(WithEnd(w, "")) + end
  {
    NameEnds(w, end);
    SameStart(w, end);
    SameStart(w, "");
    hide NameText, WithEnd;
    var v := WithEnd(w, "");
    var before := if w.modifier.Some? then w.modifier.value.word + w.modifier.value.gap else "";
    Reassociated(before, NameText(v), end);
    Reassociated(if w.dots then "..." else "", ModifierText(v), end);
  }

  /** Trimmed at its end a parameter is still well-formed and means the same. */
  lemma EndTrimmed(w: Written)
    requires WellFormed(w)
    ensures WellFormed(WithEnd(w, TrimEnd(EndOf(w)))) && (TakesIt(WithEnd(w, TrimEnd(EndOf(w)))) <==> TakesIt(w))
  {
    hide SPACES, IsWordChar, MODIFIER_WORDS, TxType;
    var end := EndOf(w);
    TrimEndLeaves(end);
    TrimEndOfWhite(end);
    SignsAreNoSpaces();
    if w.rest == "" && w.typed.Some? {
      SameType(w.typed.value);
    }
  }

  /** Without its end a parameter ends in a character that is not white space. */
  lemma EndsSolid(w: Written)
    requires WellFormed(w)
    ensures var text := Core(WithEnd(w, "")); text != "" && (w.rest == "" ==> text[|text| - 1] !in SPACES)
  {
    hide SPACES, IsWordChar, MODIFIER_WORDS;
    var v := WithEnd(w, "");
    SignsAreNoSpaces();
    if w.name[|w.name| - 1] in SPACES { SpaceIsNoWord(w.name[|w.name| - 1]); }
    assert w.rest == "" ==> NameText(v)[|NameText(v)| - 1] !in SPACES;
    hide NameText;
  }

  lemma TrimmedCore(w: Written)
    requires WellFormed(w)
    ensures Trim(TextOf(w)) == Core(WithEnd(w, TrimEnd(EndOf(w))))
  {
    hide SPACES, IsWordChar, MODIFIER_WORDS, Core;
    var end := EndOf(w);
    FirstIsSolid(w);
    SpacesEndAt(TextOf(w), 0, |w.before|);
    assert TextOf(w)[|w.before|..] == Core(w);
    assert WithEnd(w, end) == w;
    CoreEnds(w, end);
    CoreEnds(w, TrimEnd(end));
    EndsSolid(w);
    TrimEndOfWhite(end);
    if w.rest != "" {
      SignsAreNoSpaces();
      TrimEndBehind(Core(WithEnd(w, "")), end);
    } else {
      TrimsLast(Core(WithEnd(w, "")), end);
    }
  }

  lemma FirstIsSolid(w: Written)
    requires WellFormed(w)
    ensures Core(w) != "" && Core(w)[0] !in SPACES
  {
    hide SPACES, IsWordChar, MODIFIER_WORDS, RestFits, Tail;
    SignsAreNoSpaces();
    if w.modifier.Some? { SameModifiers(w.modifier.value.word); }
    var first := if w.dots then '.' else if w.modifier.Some? then w.modifier.value.word[0] else w.name[0];
    assert Core(w)[0] == first;
    if first in SPACES { SpaceIsNoWord(first); }
  }

  /** However a parameter is written, it takes a transaction exactly by its name or its whole type. */
  lemma WrittenIsRead(w: Written)
    requires WellFormed(w)
    ensures IsTx(TextOf(w)) <==> TakesIt(w)
  {
    hide WellFormed, TakesIt, TextOf, IsTx, Trim, Core, EndOf, WithEnd;
    EndTrimmed(w);
    TrimmedCore(w);
    CoreIsRead(TextOf(w), WithEnd(w, TrimEnd(EndOf(w))));
  }

  // -- nothing else takes a transaction -----------------------------------------------------------

  lemma {:induction false} WordRun(text: string, i: nat)
    requires i <= |text|
    ensures forall k :: i <= k < WordEnd(text, i) ==> IsWordChar(text[k])
    ensures WordEnd(text, i) < |text| ==> !IsWordChar(text[WordEnd(text, i)])
    decreases |text| - i
  {
    hide IsWordChar;
    if i < |text| && IsWordChar(text[i]) { WordRun(text, i + 1); }
  }

  lemma {:induction false} SpaceRun(text: string, i: nat)
    requires i <= |text|
    ensures SkipSpaces(text, i) < |text| ==> text[SkipSpaces(text, i)] !in SPACES
    decreases |text| - i
  {
    hide SPACES;
    if i < |text| && text[i] in SPACES { SpaceRun(text, i + 1); }
  }

  lemma {:induction false} BeforeRun(text: string, c: char)
    ensures var n := |Before(text, c)|;
      n <= |text| && text == Before(text, c) + text[n..] && c !in Before(text, c) && (n < |text| ==> text[n] == c)
    decreases |text|
  {
    if text != "" && text[0] != c { BeforeRun(text[1..], c); }
  }

  /** The type and what follows it, where a colon stands. */
  lemma ReadType(text: string) returns (typed: Option<string>, rest: string)
    ensures text == (if typed.Some? then ":" + typed.value else "") + rest
    ensures typed == if At(text, 0) == Some(':') then Some(Before(text[1..], '=')) else None
    ensures typed.Some? ==> '=' !in typed.value && (rest != "" ==> rest[0] == '=')
  {
    hide Before;
    if At(text, 0) == Some(':') {
      BeforeRun(text[1..], '=');
      var name := Before(text[1..], '=');
      typed, rest := Some(name), text[1..][|name|..];
      assert text == ":" + text[1..];
    } else {
      typed, rest := None, text;
    }
  }

  /** Question mark, type and rest are what is read from `i` on. */
  predicate TailReadAt(param: string, i: nat, w: Written)
    requires i <= |param|
  {
    var j := SkipSpaces(param, if At(param, i) == Some('?') then i + 1 else i);
    && (w.optional.Some? <==> At(param, i) == Some('?'))
    && w.typed == (if At(param, j) == Some(':') then Some(Before(param[j + 1..], '=')) else None)
    && (if w.typed.None? then w.rest == param[j..] else w.rest == "" || w.rest[0] == '=')
  }

  /** What stands from `i` on, behind the white space after a name. */
  lemma ReadTail(param: string, i: nat) returns (w: Written)
    requires i <= |param| && (i < |param| ==> param[i] !in SPACES)
    ensures param[i..] == Tail(w) && (w.optional.Some? ==> White(w.optional.value)) && (w.typed.Some? ==> '=' !in w.typed.value)
    ensures TailReadAt(param, i, w)
  {
    hide SPACES, Before, SkipSpaces;
    if i < |param| { SpacesEndAt(param, i, i); }
    var start := if At(param, i) == Some('?') then i + 1 else i;
    var j := SkipSpaces(param, start);
    var gap := param[start..j];
    assert White(gap);
    var typed, rest := ReadType(param[j..]);
    assert At(param[j..], 0) == At(param, j) && (j < |param| ==> param[j..][1..] == param[j + 1..]);
    w := Written("", false, None, "", "", if start > i then Some(gap) else None, typed, rest);
    assert TypeText(w) == param[j..];
    if start > i { assert param[i..] == "?" + gap + param[j..]; }
  }

  /** The parts of what stands behind dots and modifier. */
  lemma ReadParts(param: string) returns (w: Written)
    requires WordEnd(param, 0) > 0
    ensures NameText(w) == param && w.modifier.None? && w.before == "" && !w.dots
    ensures IsWord(w.name) && White(w.gap) && (w.optional.Some? ==> White(w.optional.value))
    ensures (w.typed.Some? ==> '=' !in w.typed.value) && RestFits(w)
    ensures w.name == param[..WordEnd(param, 0)] && |w.gap| == SkipSpaces(param, WordEnd(param, 0)) - WordEnd(param, 0)
    ensures TailReadAt(param, SkipSpaces(param, |w.name|), w)
  {
    hide SPACES, IsWordChar, Before, WordEnd, SkipSpaces, TypeText, IsWord, White, RestFits, TailReadAt;
    var n := WordEnd(param, 0);
    var i := SkipSpaces(param, n);
    NameAndGap(param);
    SpaceRun(param, n);
    var tail := ReadTail(param, i);
    w := Written("", false, None, param[..n], param[n..i], tail.optional, tail.typed, tail.rest);
    SameTail(tail, w);
    assert TailReadAt(param, i, w) by { SameReading(param, i, tail, w); }
    hide Tail;
    assert NameText(w) == param by { Sliced(param, n, i); }
    hide NameText;
    assert |w.name| == n && |w.gap| == i - n;
    RestIsLeft(param, w);
  }

  lemma Sliced(param: string, n: nat, i: nat)
    requires n <= i <= |param|
    ensures param == param[..n] + (param[n..i] + param[i..])
  {
  }

  lemma NameAndGap(param: string)
    requires WordEnd(param, 0) > 0
    ensures var n := WordEnd(param, 0); IsWord(param[..n]) && White(param[n..SkipSpaces(param, n)])
  {
    hide SPACES, IsWordChar, WordEnd, SkipSpaces;
    WordRun(param, 0);
  }

  /** What is read last is not a piece of what is read before it. */
  lemma RestIsLeft(param: string, w: Written)
    requires var n := WordEnd(param, 0); var i := SkipSpaces(param, n); |w.gap| == i - n && TailReadAt(param, i, w)
    ensures RestFits(w)
  {
    hide SPACES, IsWordChar, WordEnd, SkipSpaces, Before;
    var n := WordEnd(param, 0);
    var i := SkipSpaces(param, n);
    var start := if At(param, i) == Some('?') then i + 1 else i;
    WordRun(param, 0);
    SpaceRun(param, n);
    SpaceRun(param, start);
    if start == i && i < |param| { SpacesEndAt(param, i, i); }
  }

  lemma SameTail(w: Written, v: Written)
    requires v.optional == w.optional && v.typed == w.typed && v.rest == w.rest
    ensures Tail(v) == Tail(w)
  {
  }

  lemma SameReading(param: string, i: nat, w: Written, v: Written)
    requires i <= |param| && v.optional == w.optional && v.typed == w.typed && v.rest == w.rest
    ensures TailReadAt(param, i, v) <==> TailReadAt(param, i, w)
  {
  }

  /** The modifier that is dropped. */
  lemma ReadModifier(text: string) returns (modifier: Option<Modifier>)
    ensures text == (if modifier.Some? then modifier.value.word + modifier.value.gap else "") + DropModifier(text)
    ensures modifier.Some? ==> modifier.value.word in MODIFIER_WORDS && modifier.value.gap != "" && White(modifier.value.gap)
    ensures modifier.None? && text[..WordEnd(text, 0)] in MODIFIER_WORDS ==> SkipSpaces(text, WordEnd(text, 0)) == WordEnd(text, 0)
  {
    hide SPACES, MODIFIERS, MODIFIER_WORDS, WordEnd, SkipSpaces;
    var n := WordEnd(text, 0);
    var next := SkipSpaces(text, n);
    SameModifiers(text[..n]);
    modifier := if text[..n] in MODIFIERS && next > n then Some(Modifier(text[..n], text[n..next])) else None;
    if modifier.Some? { assert text == text[..n] + text[n..next] + text[next..]; }
  }

  /** The parameter behind dots and modifier. */
  function Stripped(raw: string): string {
    var whole := Trim(raw);
    DropModifier(if StartsAt(whole, 0, "...") then whole[3..] else whole)
  }

  /** What is read of a parameter that takes a transaction says so. */
  lemma ReadTakesIt(raw: string, w: Written)
    requires IsTx(raw)
    requires var param := Stripped(raw); w.name == param[..WordEnd(param, 0)] && TailReadAt(param, SkipSpaces(param, |w.name|), w)
    ensures TakesIt(w)
  {
    hide SPACES, WordEnd, SkipSpaces, Before, Trim, DropModifier, TX_TYPES, TxType, StartsAt;
    assert |w.name| == WordEnd(Stripped(raw), 0);
    if w.typed.Some? { TypeIsTrimmed(w.typed.value); }
  }

  lemma TxHasName(raw: string)
    requires IsTx(raw)
    ensures WordEnd(Stripped(raw), 0) > 0
  {
    hide SPACES, WordEnd, SkipSpaces, Before, Trim, DropModifier, TX_TYPES, StartsAt;
  }

  /** Whatever takes a transaction is written so. */
  lemma ReadIsWritten(raw: string)
    requires IsTx(raw)
    ensures TxParameter(raw)
  {
    hide SPACES, IsWordChar, WordEnd, SkipSpaces, Trim, DropModifier, MODIFIER_WORDS, IsTx, TakesIt, TxParameter, IsWord;
    hide RestFits, Tail, NameText, TailReadAt;
    var whole := Trim(raw);
    DotsFirst(whole);
    var dots := StartsAt(whole, 0, "...");
    var text := if dots then whole[3..] else whole;
    hide StartsAt;
    TxHasName(raw);
    var modifier := ReadModifier(text);
    var w := ReadParts(DropModifier(text));
    ReadTakesIt(raw, w);
    var v := w.(dots := dots, modifier := modifier);
    SameName(w, v);
    assert modifier.None? ==> DropModifier(text) == text;
    assert ModifierText(v) == text;
    assert ModifierFits(v);
    WhiteAround(raw, v);
  }

  lemma SameName(w: Written, v: Written)
    requires v == w.(dots := v.dots, modifier := v.modifier)
    ensures NameText(v) == NameText(w) && (RestFits(v) <==> RestFits(w)) && (TakesIt(v) <==> TakesIt(w))
  {
  }

  /** White space at either end belongs to the parameter. */
  lemma WhiteAround(raw: string, v: Written)
    requires WellFormed(v) && v.before == "" && TakesIt(v) && Core(v) == Trim(raw)
    ensures TxParameter(raw)
  {
    hide SPACES, IsWordChar, Core, EndOf, WithEnd, WellFormed, TakesIt, TrimEnd;
    var n := SkipSpaces(raw, 0);
    TrimEndLeaves(raw[n..]);
    var after :| White(after) && raw[n..] == Trim(raw) + after;
    var end := EndOf(v) + after;
    OwnEnd(v);
    CoreEnds(v, EndOf(v));
    CoreEnds(v, end);
    MoreWhite(v, after);
    var w := WithEnd(v, end).(before := raw[..n]);
    Indented(WithEnd(v, end), raw[..n]);
    assert TextOf(w) == raw[..n] + (Trim(raw) + after) == raw;
  }

  lemma OwnEnd(v: Written)
    ensures WithEnd(v, EndOf(v)) == v
  {
  }

  lemma Indented(v: Written, before: string)
    requires White(before)
    ensures Core(v.(before := before)) == Core(v)
    ensures WellFormed(v) ==> WellFormed(v.(before := before))
    ensures TakesIt(v) ==> TakesIt(v.(before := before))
  {
    hide SPACES, IsWordChar, MODIFIER_WORDS, TxType;
  }

  lemma MoreWhite(v: Written, after: string)
    requires WellFormed(v) && TakesIt(v) && White(after)
    ensures WellFormed(WithEnd(v, EndOf(v) + after)) && TakesIt(WithEnd(v, EndOf(v) + after))
  {
    hide SPACES, IsWordChar, MODIFIER_WORDS, TxType;
    if '=' in after { SignsAreNoSpaces(); }
    TxIsNoModifier();
    if v.rest == "" && v.typed.Some? && TxType(v.typed.value) { TypeWithWhite(v.typed.value, after); }
  }

  lemma TxIsNoModifier()
    ensures "tx" !in MODIFIER_WORDS
  {
  }

  lemma TypeWithWhite(text: string, after: string)
    requires TxType(text) && White(after)
    ensures TxType(text + after)
  {
    hide Padded;
    if Padded(text, "Tx") { PaddedMore(text, "Tx", after); } else { PaddedMore(text, "DbOrTx", after); }
  }

  /** Exactly the parameters written so take a transaction. */
  lemma TxIffWritten(raw: string)
    ensures IsTx(raw) <==> TxParameter(raw)
  {
    hide IsTx, TakesIt, WellFormed, TextOf;
    if IsTx(raw) { ReadIsWritten(raw); }
    if TxParameter(raw) {
      var w: Written :| WellFormed(w) && TextOf(w) == raw && TakesIt(w);
      WrittenIsRead(w);
    }
  }
}
