/** Where a slash starts a regular expression: by what stands before it, said of the text. */
module Lookback {
  import opened MaskRules

  /** The operators and openers behind which an operand comes. */
  const OPENERS := "(,=:[!&|?{};+-*%<>~^"

  /** The words behind which an operand comes. */
  const OPENING_WORDS := ["return", "typeof", "case", "do", "else", "in", "of", "void"]

  /** The last character that is not white space stands at `k`. */
  ghost predicate LastAt(text: string, k: nat) {
    k < |text| && text[k] !in SPACES && forall m :: k < m < |text| ==> text[m] in SPACES
  }

  /** A whole word from `w` to `k`. */
  ghost predicate WordAt(text: string, w: nat, k: nat) {
    && w <= k < |text|
    && (forall m :: w <= m <= k ==> IsWordChar(text[m]))
    && (w > 0 ==> !IsWordChar(text[w - 1]))
  }

  /** Behind this text comes an operand: nothing, an opener, or one of the words comes before. */
  ghost predicate OperandExpected(text: string) {
    || (forall k :: 0 <= k < |text| ==> text[k] in SPACES)
    || exists k: nat :: LastAt(text, k)
         && (text[k] in OPENERS || exists w: nat :: WordAt(text, w, k) && text[w..k + 1] in OPENING_WORDS)
  }

  lemma {:induction false} Trimmed(text: string)
    ensures var n := |TrimEnd(text)|;
      && n <= |text| && TrimEnd(text) == text[..n]
      && (forall m :: n <= m < |text| ==> text[m] in SPACES)
      && (n > 0 ==> text[n - 1] !in SPACES)
  {
    if text != "" && text[|text| - 1] in SPACES {
      var init := text[..|text| - 1];
      Trimmed(init);
      var n := |TrimEnd(init)|;
      assert init[..n] == text[..n];
      forall m | n <= m < |text| ensures text[m] in SPACES {
        if m < |init| { assert init[m] == text[m]; }
      }
    } else {
      assert text[..|text|] == text;
    }
  }

  lemma {:induction false} LastWordIs(code: string)
    ensures var n := |LastWord(code)|;
      && n <= |code| && LastWord(code) == code[|code| - n..]
      && (forall m :: |code| - n <= m < |code| ==> IsWordChar(code[m]))
      && (n < |code| ==> !IsWordChar(code[|code| - n - 1]))
  {
    hide IsWordChar;
    if code != "" && IsWordChar(code[|code| - 1]) {
      var init := code[..|code| - 1];
      LastWordIs(init);
      var n := |LastWord(init)|;
      assert code[|code| - n - 1..] == init[|init| - n..] + [code[|code| - 1]];
      forall m | |code| - n - 1 <= m < |code| ensures IsWordChar(code[m]) {
        if m < |init| { assert init[m] == code[m]; }
      }
      if n < |init| { assert init[|init| - n - 1] == code[|init| - n - 1]; }
    }
  }

  lemma SameOpeners(c: char)
    ensures c in OPENERS <==> c in REGEX_PRECEDERS
  {
  }

  lemma SameWords(word: string)
    ensures word in OPENING_WORDS <==> word in REGEX_KEYWORDS
  {
  }

  /** The word that ends a text is the one whole word at its end. */
  lemma LastWordAt(text: string, k: nat)
    requires k < |text|
    ensures var word := LastWord(text[..k + 1]); var start := k + 1 - |word|;
      && start >= 0 && text[start..k + 1] == word && (word != "" ==> WordAt(text, start, k))
      && forall w: nat :: WordAt(text, w, k) ==> w == start
  {
    hide IsWordChar, LastWord;
    var code := text[..k + 1];
    LastWordIs(code);
    var start := k + 1 - |LastWord(code)|;
    assert forall m :: 0 <= m <= k ==> code[m] == text[m];
    assert code[start..] == text[start..k + 1];
    forall w: nat | WordAt(text, w, k) ensures w == start { WordStart(text, w, start, k); }
  }

  lemma WordIsLast(text: string, k: nat)
    requires LastAt(text, k)
    ensures (exists w: nat :: WordAt(text, w, k) && text[w..k + 1] in OPENING_WORDS) <==> LastWord(text[..k + 1]) in REGEX_KEYWORDS
  {
    hide OPENING_WORDS, REGEX_KEYWORDS, SPACES, LastWord, WordAt;
    LastWordAt(text, k);
    SameWords(LastWord(text[..k + 1]));
    NoEmptyWord();
  }

  /** A word has one start. */
  lemma WordStart(text: string, w: nat, start: nat, k: nat)
    requires WordAt(text, w, k) && start <= k + 1 && (forall m :: start <= m <= k ==> IsWordChar(text[m]))
    requires start > 0 ==> !IsWordChar(text[start - 1])
    ensures w == start
  {
    hide IsWordChar;
  }

  lemma NoEmptyWord()
    ensures "" !in REGEX_KEYWORDS
  {
  }

  /** The lookback finds exactly the places where an operand is expected. */
  lemma LookbackMeans(text: string)
    ensures RegexAfter(text) <==> OperandExpected(text)
  {
    hide LastWord, TrimEnd, REGEX_PRECEDERS, REGEX_KEYWORDS, OPENERS, OPENING_WORDS, SPACES;
    Trimmed(text);
    var n := |TrimEnd(text)|;
    if n > 0 {
      var k := n - 1;
      assert LastAt(text, k);
      WordIsLast(text, k);
      SameOpeners(text[k]);
      forall m: nat | LastAt(text, m) ensures m == k {}
    }
  }
}
