/**
 * What the scan finds, as it is written: the keyword before a parenthesis, the
 * tokens that stand alone, `tx ??`, and a whole function that takes a
 * transaction.
 */
module TxSpellings {
  import opened JsonValues
  import opened MaskRules
  import opened Lookback
  import opened TxPatterns
  import opened Parameters
  import PoolReaches

  // -- keywords ----------------------------------------------------------------------------------

  const CONTROL_WORDS := ["if", "for", "while", "switch", "catch", "with", "return"]

  /** A whole word at the end of a text, white space aside. */
  ghost predicate EndsInWord(text: string, word: string) {
    exists w: nat, k: nat :: LastAt(text, k) && WordAt(text, w, k) && text[w..k + 1] == word
  }

  lemma LastWordMeans(text: string, word: string)
    requires word != ""
    ensures EndsInWord(text, word) <==> LastWord(TrimEnd(text)) == word
  {
    hide SPACES, TrimEnd, LastWord, WordAt;
    Trimmed(text);
    var n := |TrimEnd(text)|;
    if n > 0 {
      var k := n - 1;
      LastWordAt(text, k);
      assert LastAt(text, k);
      forall m: nat | LastAt(text, m) ensures m == k {}
    } else {
      NoWordLeft(text);
    }
  }

  lemma NoWordLeft(text: string)
    requires TrimEnd(text) == ""
    ensures LastWord(TrimEnd(text)) == ""
  {
  }

  lemma SameControlWords(word: string)
    ensures word in CONTROL_WORDS <==> word in KEYWORDS_BEFORE_PAREN
    ensures word in CONTROL_WORDS ==> word != ""
  {
  }

  /** The forty characters before a parenthesis. */
  function Window(t: string, open: nat): string
    requires open <= |t|
  {
    t[if open < 40 then 0 else open - 40..open]
  }

  /** A parenthesis counts as a statement's when one of the words stands before it. */
  lemma KeywordMeans(t: string, open: nat)
    requires open <= |t|
    ensures KeywordBefore(t, open) <==> exists word :: word in CONTROL_WORDS && EndsInWord(Window(t, open), word)
  {
    hide EndsInWord, KEYWORDS_BEFORE_PAREN, CONTROL_WORDS, TrimEnd, LastWord;
    var last := LastWord(TrimEnd(Window(t, open)));
    SameControlWords(last);
    forall word: string | word in CONTROL_WORDS ensures EndsInWord(Window(t, open), word) <==> last == word {
      SameControlWords(word);
      LastWordMeans(Window(t, open), word);
    }
  }

  // -- tokens --------------------------------------------------------------------------------------

  /** `word`, white space, `sign`. */
  ghost predicate Spaced(text: string, word: string, sign: string) {
    exists gap: string :: White(gap) && text == word + gap + sign
  }

  /** A reach for the pool, as it is written. */
  ghost predicate ReachText(text: string) {
    text == "ctx.db" || Spaced(text, "ctx.config.get", "(") || Spaced(text, "ctx.config.getRaw", "(") || Spaced(text, "ctx.withTx", "(")
  }

  /** From `i` on stand a word, white space up to `j`, and there the sign. */
  lemma SpacedAt(t: string, i: nat, end: nat, word: string, sign: string)
    requires i <= end <= |t| && sign != "" && sign[0] !in SPACES
    ensures Spaced(t[i..end], word, sign) <==>
      && StartsAt(t, i, word) && i + |word| <= |t|
      && var j := SkipSpaces(t, i + |word|); StartsAt(t, j, sign) && end == j + |sign|
  {
    hide SPACES;
    var text := t[i..end];
    if Spaced(text, word, sign) {
      var gap: string :| White(gap) && text == word + gap + sign;
      var j := i + |word| + |gap|;
      SliceParts(t, i, end, word, gap, sign);
      SpacesEndAt(t, i + |word|, j);
    }
    if StartsAt(t, i, word) && i + |word| <= |t| {
      var j := SkipSpaces(t, i + |word|);
      if StartsAt(t, j, sign) && end == j + |sign| {
        var gap := t[i + |word|..j];
        assert text == t[i..i + |word|] + gap + t[j..end];
        assert White(gap);
      }
    }
  }

  lemma SliceParts(t: string, i: nat, end: nat, word: string, gap: string, sign: string)
    requires i <= end <= |t| && t[i..end] == word + gap + sign
    ensures var a, b := i + |word|, i + |word| + |gap|; b + |sign| == end && t[i..a] == word && t[a..b] == gap && t[b..end] == sign
    ensures forall k :: i + |word| <= k < i + |word| + |gap| ==> t[k] == gap[k - i - |word|]
    ensures sign != "" ==> t[i + |word| + |gap|] == sign[0]
  {
    var a, b := i + |word|, i + |word| + |gap|;
    var text := t[i..end];
    ThreeParts(word, gap, sign);
    SliceOfSlice(t, i, end, 0, |word|);
    SliceOfSlice(t, i, end, |word|, |word| + |gap|);
    SliceOfSlice(t, i, end, |word| + |gap|, |text|);
    forall k | a <= k < b ensures t[k] == gap[k - a] { assert t[a..b][k - a] == t[k]; }
    if sign != "" { assert t[b..end][0] == t[b]; }
  }

  lemma ThreeParts(a: string, b: string, c: string)
    ensures var text := a + b + c; text[0..|a|] == a && text[|a|..|a| + |b|] == b && text[|a| + |b|..|text|] == c
  {
    assert a + b + c == a + (b + c);
  }

  lemma SliceOfSlice(t: string, i: nat, end: nat, x: nat, y: nat)
    requires i <= end <= |t| && x <= y <= end - i
    ensures t[i..end][x..y] == t[i + x..i + y]
  {
    var a, b := t[i..end][x..y], t[i + x..i + y];
    forall k | 0 <= k < y - x ensures a[k] == b[k] { assert t[i..end][x + k] == t[i + x + k]; }
  }

  lemma SignsStart()
    ensures '(' !in SPACES && '=' !in SPACES
  {
  }

  lemma OneSign(t: string, j: nat)
    ensures StartsAt(t, j, "(") <==> At(t, j) == Some('(')
    ensures StartsAt(t, j, "=>") <==> ArrowAt(t, j)
  {
    if j + 1 <= |t| { assert t[j..j + 1] == [t[j]]; }
    if j + 2 <= |t| { assert t[j..j + 2] == [t[j], t[j + 1]]; }
  }

  /** `tx`, white space, `=>`. */
  lemma BareArrowMeans(t: string, i: nat, end: nat)
    ensures TokenEnd(BareArrow, t, i) == Some(end) <==> i <= end <= |t| && Spaced(t[i..end], "tx", "=>")
  {
    hide SPACES, Spaced;
    SignsStart();
    if i <= end <= |t| { SpacedAt(t, i, end, "tx", "=>"); }
    if i + 2 <= |t| { OneSign(t, SkipSpaces(t, i + 2)); }
  }

  lemma CallMeans(t: string, i: nat, end: nat, word: string)
    requires i <= end <= |t|
    ensures Spaced(t[i..end], word, "(") <==> StartsAt(t, i, word) && CallEnd(t, i + |word|) == Some(end)
  {
    hide SPACES, Spaced, SkipSpaces;
    SignsStart();
    SpacedAt(t, i, end, word, "(");
    if i + |word| <= |t| { OneSign(t, SkipSpaces(t, i + |word|)); }
  }

  lemma FirstLetters(t: string, i: nat)
    ensures StartsAt(t, i, "ctx.config.get") ==> t[i + 4] == 'c'
    ensures StartsAt(t, i, "ctx.db") ==> t[i + 4] == 'd'
    ensures StartsAt(t, i, "ctx.withTx") ==> t[i + 4] == 'w'
  {
    if StartsAt(t, i, "ctx.config.get") { assert t[i..i + 14][4] == t[i + 4]; }
    if StartsAt(t, i, "ctx.db") { assert t[i..i + 6][4] == t[i + 4]; }
    if StartsAt(t, i, "ctx.withTx") { assert t[i..i + 10][4] == t[i + 4]; }
  }

  lemma RawFollows(t: string, i: nat)
    ensures StartsAt(t, i, "ctx.config.getRaw") <==> StartsAt(t, i, "ctx.config.get") && StartsAt(t, i + 14, "Raw")
    ensures StartsAt(t, i + 14, "Raw") ==> CallEnd(t, i + 14).None?
  {
    if i + 17 <= |t| {
      assert t[i..i + 17] == t[i..i + 14] + t[i + 14..i + 17];
      assert "ctx.config.getRaw" == "ctx.config.get" + "Raw";
      assert t[i..i + 17][..14] == t[i..i + 14] && t[i..i + 17][14..] == t[i + 14..i + 17];
      assert "ctx.config.getRaw"[..14] == "ctx.config.get" && "ctx.config.getRaw"[14..] == "Raw";
    }
    if StartsAt(t, i + 14, "Raw") {
      assert t[i + 14..i + 17][0] == t[i + 14] == 'R';
      assert 'R' !in SPACES;
      SpacesEndAt(t, i + 14, i + 14);
    }
  }

  /** A reach by its prefix alone. */
  lemma ReachByPrefix(t: string, i: nat, end: nat)
    requires i <= end <= |t|
    ensures ReachText(t[i..end]) <==>
      || (StartsAt(t, i, "ctx.db") && end == i + 6)
      || (StartsAt(t, i, "ctx.config.get") && CallEnd(t, i + 14) == Some(end))
      || (StartsAt(t, i, "ctx.config.get") && StartsAt(t, i + 14, "Raw") && CallEnd(t, i + 17) == Some(end))
      || (StartsAt(t, i, "ctx.withTx") && CallEnd(t, i + 10) == Some(end))
  {
    hide CallEnd, Spaced;
    CallMeans(t, i, end, "ctx.config.get");
    CallMeans(t, i, end, "ctx.config.getRaw");
    CallMeans(t, i, end, "ctx.withTx");
    RawFollows(t, i);
  }

  /** Exactly the four ways to reach for the pool, `ctx.db` only as a whole name. */
  lemma PoolReachMeans(t: string, i: nat, end: nat)
    ensures TokenEnd(PoolReach, t, i) == Some(end) <==>
      && i <= end <= |t| && ReachText(t[i..end])
      && (t[i..end] == "ctx.db" ==> end == |t| || !IsWordChar(t[end]))
  {
    hide CallEnd, ReachText, IsWordChar;
    FirstLetters(t, i);
    RawFollows(t, i);
    if i <= end <= |t| {
      ReachByPrefix(t, i, end);
      OnlyWhole(t, i, end);
    }
  }

  lemma OnlyWhole(t: string, i: nat, end: nat)
    requires i <= end <= |t|
    ensures t[i..end] == "ctx.db" <==> StartsAt(t, i, "ctx.db") && end == i + 6
  {
  }

  // -- tx ?? ----------------------------------------------------------------------------------------

  /** `tx ??` and white space at the end, where `tx` is no end of a longer word; a `$` before it makes none. */
  ghost predicate TxOrText(before: string) {
    exists head: string, a: string, b: string ::
      && White(a) && White(b) && before == head + "tx" + a + "??" + b
      && (head == "" || !IsWordChar(head[|head| - 1]) || head[|head| - 1] == '$')
  }

  /** A text trimmed is the text without the white space at its end. */
  lemma TrimmedIs(text: string, code: string)
    requires code == "" || code[|code| - 1] !in SPACES
    ensures TrimEnd(text) == code <==> exists b: string :: White(b) && text == code + b
  {
    hide SPACES, TrimEnd;
    if b: string :| White(b) && text == code + b {
      TrimEndOfWhite(b);
      TrimEndBehind(code, b);
      TrimEndStays(code);
    }
    if TrimEnd(text) == code { TrimEndLeaves(text); }
  }

  lemma TrimEndStays(code: string)
    requires code == "" || code[|code| - 1] !in SPACES
    ensures TrimEnd(code) == code
  {
  }

  lemma TxOrMeans(before: string)
    ensures PoolReaches.EndsInTxOr(before) <==> TxOrText(before)
  {
    if PoolReaches.EndsInTxOr(before) { TxOrIsWritten(before); }
    if TxOrText(before) {
      hide IsWordChar, SPACES, PoolReaches.EndsInTxOr;
      var head: string, a: string, b: string :| White(a) && White(b) && before == head + "tx" + a + "??" + b
        && (head == "" || !IsWordChar(head[|head| - 1]) || head[|head| - 1] == '$');
      TxOrIsRead(before, head, a, b);
    }
  }

  lemma TxOrIsWritten(before: string)
    requires PoolReaches.EndsInTxOr(before)
    ensures TxOrText(before)
  {
    hide SPACES, TrimEnd, IsWordChar, TxOrText, White;
    var code := TrimEnd(before);
    var rest := code[..|code| - 2];
    var operand := TrimEnd(rest);
    var head := operand[..|operand| - 2];
    TrimEndLeaves(before);
    TrimEndLeaves(rest);
    var b: string :| White(b) && before == code + b;
    var a: string :| White(a) && rest == operand + a;
    assert code == rest + "??" by { EndsSo(code, "??"); }
    assert operand == head + "tx" by { EndsSo(operand, "tx"); }
    assert head != "" ==> head[|head| - 1] == operand[|operand| - 3];
    TxOrAssembled(head, a, b);
    assert before == head + "tx" + a + "??" + b;
  }

  lemma EndsSo(text: string, tail: string)
    requires |tail| <= |text| && text[|text| - |tail|..] == tail
    ensures text == text[..|text| - |tail|] + tail
  {
  }

  lemma TxOrAssembled(head: string, a: string, b: string)
    requires White(a) && White(b) && (head == "" || !IsWordChar(head[|head| - 1]) || head[|head| - 1] == '$')
    ensures TxOrText(head + "tx" + a + "??" + b)
  {
  }

  lemma TxOrIsRead(before: string, head: string, a: string, b: string)
    requires White(a) && White(b) && before == head + "tx" + a + "??" + b
    requires head == "" || !IsWordChar(head[|head| - 1]) || head[|head| - 1] == '$'
    ensures PoolReaches.EndsInTxOr(before)
  {
    hide SPACES, TrimEnd, IsWordChar;
    var operand := head + "tx";
    var rest := operand + a;
    var code := rest + "??";
    LettersAreSolid();
    assert code[|code| - 1] == '?' && operand[|operand| - 1] == 'x';
    assert before == code + b;
    TrimmedIs(before, code);
    TrimmedIs(rest, operand);
    assert code[..|code| - 2] == rest && code[|code| - 2..] == "??";
    assert operand[|operand| - 2..] == "tx";
    assert head != "" ==> operand[|operand| - 3] == head[|head| - 1];
  }

  lemma LettersAreSolid()
    ensures '?' !in SPACES && 'x' !in SPACES
  {
  }
}
