/** What the mask promises of every source text. */
module MaskLaws {
  import opened JsonValues
  import opened MaskRules

  /** The reading of the first `k` characters. */
  function Upto(source: string, k: nat): Reading
    requires k <= |source|
  {
    if k == 0 then Reading("", START) else Next(source, k - 1, Upto(source, k - 1))
  }

  function StateAt(source: string, k: nat): State
    requires k <= |source|
  {
    Upto(source, k).state
  }

  /** Whether character `k` is code or a delimiter of what is not. */
  predicate Kept(source: string, k: nat)
    requires k < |source|
  {
    Step(StateAt(source, k), source[k], At(source, k + 1), Upto(source, k).masked).1
  }

  lemma {:induction false} UptoReads(source: string, k: nat)
    requires k <= |source|
    ensures Read(source, k, Upto(source, k)) == ReadAll(source)
  {
    if k > 0 { UptoReads(source, k - 1); }
  }

  function MaskedAt(source: string, k: nat): char
    requires k < |source|
  {
    if Kept(source, k) then source[k] else Blank(source[k])
  }

  lemma UptoNext(source: string, k: nat)
    requires k < |source|
    ensures Upto(source, k + 1).masked == Upto(source, k).masked + [MaskedAt(source, k)]
  {
  }

  lemma {:induction false} UptoMasked(source: string, k: nat)
    requires k <= |source|
    ensures |Upto(source, k).masked| == k
    ensures forall i :: 0 <= i < k ==> Upto(source, k).masked[i] == MaskedAt(source, i)
  {
    hide MaskedAt, Next;
    if k > 0 {
      UptoMasked(source, k - 1);
      UptoNext(source, k - 1);
    }
  }

  /**
   * The mask is as long as the source; each of its characters is the source's
   * where that is kept and a space where it is not, and no newline moves.
   */
  lemma MaskIsPointwise(source: string)
    ensures |MaskOf(source)| == |source|
    ensures forall k :: 0 <= k < |source| ==>
      && MaskOf(source)[k] == (if Kept(source, k) then source[k] else Blank(source[k]))
      && (MaskOf(source)[k] == source[k] || (MaskOf(source)[k] == ' ' && !Kept(source, k)))
      && (MaskOf(source)[k] == '\n' <==> source[k] == '\n')
  {
    UptoReads(source, |source|);
    UptoMasked(source, |source|);
  }

  /** When the method's output is one character too long. */
  lemma TooLong(source: string)
    ensures EndsInRegexEscape(source) <==>
      && source != "" && source[|source| - 1] == '\\'
      && StateAt(source, |source| - 1).mode.Regex? && !StateAt(source, |source| - 1).mode.escaped
  {
    UptoReads(source, |source|);
  }

  /** A slash and a backslash are such a text. */
  lemma TooLongWitness()
    ensures EndsInRegexEscape("/\\")
  {
    var source := "/\\";
    assert Upto(source, 1).state == State(Regex(false, false), []);
    TooLong(source);
  }

  // -- text the scan takes for plain code ------------------------------------------------------

  /** No quote, no comment, and every slash divides for the lookback. */
  predicate PlainText(source: string) {
    forall i :: 0 <= i < |source| ==>
      && source[i] !in {'\'', '"', '`'}
      && (source[i] == '/' ==> At(source, i + 1) != Some('/') && At(source, i + 1) != Some('*') && !RegexAfter(source[..i]))
  }

  lemma {:induction false} PlainUpto(source: string, k: nat)
    requires PlainText(source) && k <= |source|
    ensures Upto(source, k) == Reading(source[..k], START)
  {
    hide RegexAfter;
    if k > 0 {
      PlainUpto(source, k - 1);
      assert source[..k] == source[..k - 1] + [source[k - 1]];
    }
  }

  /** Such a text is its own mask. */
  lemma PlainTextStays(source: string)
    requires PlainText(source)
    ensures MaskOf(source) == source && !EndsInRegexEscape(source)
  {
    hide PlainText;
    PlainUpto(source, |source|);
    UptoReads(source, |source|);
    assert source[..|source|] == source;
  }

  // -- what is not code goes away ------------------------------------------------------------

  /** The inside of a literal in `quote`s: no bare quote, newline or backslash; a backslash takes one more. */
  predicate LiteralBody(source: string, from: nat, end: nat, quote: char)
    requires from <= end <= |source|
    decreases end - from
  {
    from == end ||
    (if source[from] == '\\' then from + 1 < end && LiteralBody(source, from + 2, end, quote)
     else source[from] != quote && source[from] != '\n' && LiteralBody(source, from + 1, end, quote))
  }

  lemma {:induction false} InsideLiteral(source: string, from: nat, end: nat, quote: char)
    requires from <= end <= |source| && LiteralBody(source, from, end, quote) && quote != '\\'
    requires StateAt(source, from).mode == Quoted(quote, false)
    ensures StateAt(source, end) == StateAt(source, from)
    ensures forall k :: from <= k < end ==> !Kept(source, k)
    decreases end - from
  {
    if from < end {
      if source[from] == '\\' {
        assert StateAt(source, from + 1).mode == Quoted(quote, true);
        InsideLiteral(source, from + 2, end, quote);
      } else {
        InsideLiteral(source, from + 1, end, quote);
      }
    }
  }

  /** A string literal in the code is blank between its quotes, and the code goes on after it. */
  lemma LiteralIsMasked(source: string, i: nat, j: nat)
    requires i < j < |source| && StateAt(source, i).mode == Code
    requires (source[i] == '\'' || source[i] == '"') && source[j] == source[i] && LiteralBody(source, i + 1, j, source[i])
    ensures Kept(source, i) && Kept(source, j) && forall k :: i < k < j ==> !Kept(source, k)
    ensures StateAt(source, j + 1) == StateAt(source, i)
  {
    assert StateAt(source, i + 1) == State(Quoted(source[i], false), StateAt(source, i).templates);
    InsideLiteral(source, i + 1, j, source[i]);
  }

  lemma {:induction false} InsideBlock(source: string, from: nat, end: nat)
    requires from <= end < |source| && StateAt(source, from).mode == BlockComment
    requires forall k :: from <= k < end ==> !(source[k] == '*' && source[k + 1] == '/')
    ensures StateAt(source, end) == StateAt(source, from)
    ensures forall k :: from <= k < end ==> !Kept(source, k)
    decreases end - from
  {
    if from < end { InsideBlock(source, from + 1, end); }
  }

  /** A block comment is blank from its first slash to its last, whatever it holds. */
  lemma BlockCommentIsMasked(source: string, i: nat, j: nat)
    requires i + 2 <= j < |source| - 1 && StateAt(source, i).mode == Code
    requires source[i] == '/' && source[i + 1] == '*' && source[j] == '*' && source[j + 1] == '/'
    requires forall k :: i + 2 <= k < j ==> !(source[k] == '*' && source[k + 1] == '/')
    ensures forall k :: i <= k < j + 2 ==> !Kept(source, k)
    ensures StateAt(source, j + 2) == StateAt(source, i)
  {
    var templates := StateAt(source, i).templates;
    assert StateAt(source, i + 1) == State(BlockOpen, templates);
    assert StateAt(source, i + 2) == State(BlockComment, templates);
    InsideBlock(source, i + 2, j);
    assert StateAt(source, j + 1) == State(BlockClose, templates);
  }

  lemma {:induction false} InsideLine(source: string, from: nat, end: nat)
    requires from <= end <= |source| && StateAt(source, from).mode == LineComment
    requires forall k :: from <= k < end ==> source[k] != '\n'
    ensures StateAt(source, end) == StateAt(source, from)
    ensures forall k :: from <= k < end ==> !Kept(source, k)
    decreases end - from
  {
    if from < end { InsideLine(source, from + 1, end); }
  }

  /** A line comment is blank up to its newline. */
  lemma LineCommentIsMasked(source: string, i: nat, j: nat)
    requires i + 2 <= j < |source| && StateAt(source, i).mode == Code
    requires source[i] == '/' && source[i + 1] == '/' && source[j] == '\n'
    requires forall k :: i <= k < j ==> source[k] != '\n'
    ensures forall k :: i <= k < j ==> !Kept(source, k)
    ensures Kept(source, j) && StateAt(source, j + 1) == StateAt(source, i)
  {
    InsideLine(source, i + 1, j);
  }

  // -- text of a template -----------------------------------------------------------------------

  /** Text of a template: no backtick, no dollar-brace; a backslash takes one more. */
  predicate TemplateBody(source: string, from: nat, end: nat)
    requires from <= end <= |source|
    decreases end - from
  {
    from == end ||
    (if source[from] == '\\' then from + 1 < end && TemplateBody(source, from + 2, end)
     else source[from] != '`' && !(source[from] == '$' && At(source, from + 1) == Some('{')) && TemplateBody(source, from + 1, end))
  }

  lemma {:induction false} InsideTemplate(source: string, from: nat, end: nat)
    requires from <= end <= |source| && TemplateBody(source, from, end)
    requires StateAt(source, from).mode == TemplateText(false)
    ensures StateAt(source, end) == StateAt(source, from)
    ensures forall k :: from <= k < end ==> !Kept(source, k)
    decreases end - from
  {
    if from < end {
      if source[from] == '\\' {
        assert StateAt(source, from + 1).mode == TemplateText(true);
        InsideTemplate(source, from + 2, end);
      } else {
        InsideTemplate(source, from + 1, end);
      }
    }
  }
}
