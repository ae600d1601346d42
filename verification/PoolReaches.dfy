/** Where a function that takes a transaction reaches for the pool: the whole scan of a source. */
module PoolReaches {
  import opened JsonValues
  import opened MaskRules
  import opened MaskLaws
  import MaskGrammar
  import opened Masking
  import opened Brackets
  import opened TxPatterns
  import opened TxScan

  datatype Reach = Reach(offset: nat, construct: string, line: nat, within: TxFunction)

  /** The text before an offset ends in `tx ??`. */
  predicate EndsInTxOr(before: string) {
    var code := TrimEnd(before);
    var operand := TrimEnd(code[..if |code| < 2 then 0 else |code| - 2]);
    && |code| >= 2 && code[|code| - 2..] == "??"
    && |operand| >= 2 && operand[|operand| - 2..] == "tx"
    && (|operand| == 2 || !IsWordChar(operand[|operand| - 3]) || operand[|operand| - 3] == '$')
  }

  /** Joins the caller's transaction, and takes the pool only where there is none. */
  predicate Excused(t: string, m: Found) {
    m.start <= |t| && StartsAt(t, m.start, "ctx.db") && EndsInTxOr(t[..m.start])
  }

  function WithoutSpaces(text: string): string {
    if text == "" then ""
    else (if text[0] in SPACES then "" else [text[0]]) + WithoutSpaces(text[1..])
  }

  function LineOf(source: string, offset: nat): nat
    requires offset <= |source|
  {
    if offset == 0 then 1 else LineOf(source, offset - 1) + if source[offset - 1] == '\n' then 1 else 0
  }

  /** `fn` takes a transaction, and `offset` is in its body. */
  ghost predicate Around(t: string, fn: TxFunction, offset: nat) {
    IsTxFunction(t, fn) && Contains(fn, offset)
  }

  /** A reach to report: found, not excused, and in the body of a function that takes a transaction. */
  ghost predicate Reaches(t: string, m: Found) {
    m in Matches(PoolReach, t, 0) && !Excused(t, m) && exists fn :: Around(t, fn, m.start)
  }

  /** What is reported of it: the construct, its line and a body around it that starts last. */
  ghost predicate Describes(source: string, t: string, m: Found, r: Reach) {
    && m.start <= m.end <= |t| && m.start <= |source|
    && r.offset == m.start && r.construct == WithoutSpaces(t[m.start..m.end]) && r.line == LineOf(source, m.start)
    && Around(t, r.within, m.start)
    && forall fn :: Around(t, fn, m.start) ==> fn.bodyStart <= r.within.bodyStart
  }

  ghost function Due(t: string): Found -> bool {
    m => Reaches(t, m)
  }

  ghost function Fits(source: string, t: string): (Found, Reach) -> bool {
    (m, r) => Describes(source, t, m, r)
  }

  /** `reaches` fit exactly those of the first `k` matches that are due, in order. */
  ghost predicate ReportsUpto(found: seq<Found>, k: nat, reaches: seq<Reach>, due: Found -> bool, fits: (Found, Reach) -> bool)
    requires k <= |found|
  {
    && (forall i :: 0 <= i < k && due(found[i]) ==> Mentions(reaches, found[i].start))
    && (forall r :: r in reaches ==> exists i :: 0 <= i < k && Answers(found[i], r, due, fits))
    && (forall i, j :: 0 <= i < j < |reaches| ==> reaches[i].offset < reaches[j].offset)
  }

  predicate Mentions(reaches: seq<Reach>, offset: nat) {
    exists r :: r in reaches && r.offset == offset
  }

  predicate Answers(m: Found, r: Reach, due: Found -> bool, fits: (Found, Reach) -> bool) {
    due(m) && r.offset == m.start && fits(m, r)
  }

  lemma ReportsNone(found: seq<Found>, due: Found -> bool, fits: (Found, Reach) -> bool)
    ensures ReportsUpto(found, 0, [], due, fits)
  {
  }

  lemma NothingToReport(found: seq<Found>, k: nat, reaches: seq<Reach>, due: Found -> bool, fits: (Found, Reach) -> bool)
    requires k < |found| && ReportsUpto(found, k, reaches, due, fits) && !due(found[k])
    ensures ReportsUpto(found, k + 1, reaches, due, fits)
  {
    hide Mentions, Answers;
  }

  lemma OneReported(found: seq<Found>, k: nat, reaches: seq<Reach>, due: Found -> bool, fits: (Found, Reach) -> bool, r: Reach)
    requires k < |found| && forall i, j :: 0 <= i < j < |found| ==> found[i].start < found[j].start
    requires ReportsUpto(found, k, reaches, due, fits)
    requires due(found[k]) && fits(found[k], r) && r.offset == found[k].start
    ensures ReportsUpto(found, k + 1, reaches + [r], due, fits)
  {
    hide Answers;
    var more := reaches + [r];
    assert Answers(found[k], r, due, fits) by { AnswersIt(found[k], r, due, fits); }
    forall i | 0 <= i < k + 1 && due(found[i]) ensures Mentions(more, found[i].start) { StillMentioned(reaches, r, found[i].start); }
    forall q | q in reaches ensures q.offset < r.offset {
      var i :| 0 <= i < k && Answers(found[i], q, due, fits);
      AnswersIt(found[i], q, due, fits);
    }
    assert forall i :: 0 <= i < |reaches| ==> more[i] in reaches;
  }

  lemma AnswersIt(m: Found, r: Reach, due: Found -> bool, fits: (Found, Reach) -> bool)
    ensures Answers(m, r, due, fits) <==> due(m) && r.offset == m.start && fits(m, r)
  {
  }

  lemma StillMentioned(reaches: seq<Reach>, r: Reach, offset: nat)
    ensures Mentions(reaches + [r], offset) <==> Mentions(reaches, offset) || r.offset == offset
  {
    var more := reaches + [r];
    if Mentions(reaches, offset) {
      var q :| q in reaches && q.offset == offset;
      assert q in more;
    }
    assert r in more;
  }

  /** What is mentioned are the places of the matches that are due. */
  lemma MentionedIffDue(found: seq<Found>, reaches: seq<Reach>, due: Found -> bool, fits: (Found, Reach) -> bool, o: nat)
    requires ReportsUpto(found, |found|, reaches, due, fits)
    ensures Mentions(reaches, o) <==> exists m :: m in found && due(m) && m.start == o
  {
    if r :| r in reaches && r.offset == o {
      var i :| 0 <= i < |found| && Answers(found[i], r, due, fits);
    }
  }

  lemma FoundApart(p: Pattern, t: string)
    ensures var found := Matches(p, t, 0); forall i, j :: 0 <= i < j < |found| ==> found[i].start < found[j].start
  {
    hide Matches, TokenEnd;
    var found := Matches(p, t, 0);
    forall i, j | 0 <= i < j < |found| ensures found[i].start < found[j].start {
      MatchesAscend(p, t, 0, i, j);
      assert found[i] in found;
    }
  }

  function MaskedText(source: string): string {
    MaskOf(source) + if EndsInRegexEscape(source) then " " else ""
  }

  method LineNumber(source: string, offset: nat) returns (line: nat)
    requires offset <= |source|
    ensures line == LineOf(source, offset)
  {
    line := 1;
    for i := 0 to offset
      invariant line == LineOf(source, i)
    {
      if source[i] == '\n' { line := line + 1; }
    }
  }

  /** What one match is reported as, if at all. */
  method ReportOn(source: string, masked: string, functions: seq<TxFunction>, m: Found) returns (r: Option<Reach>)
    requires masked == MaskedText(source) && m in Matches(PoolReach, masked, 0)
    requires forall fn :: fn in functions <==> IsTxFunction(masked, fn)
    ensures r.Some? <==> Reaches(masked, m)
    ensures r.Some? ==> r.value.offset == m.start && Describes(source, masked, m, r.value)
  {
    hide Matches, TokenEnd, IsTxFunction, MaskedText;
    var innermost := Innermost(functions, m.start);
    if innermost.None? {
      assert forall fn :: Around(masked, fn, m.start) ==> fn in functions;
      return None;
    }
    assert Around(masked, innermost.value, m.start);
    if Excused(masked, m) { return None; }
    InSource(source, m);
    var line := LineNumber(source, m.start);
    r := Some(Reach(m.start, WithoutSpaces(masked[m.start..m.end]), line, innermost.value));
  }

  /** `reaches` are the report of the whole scan. */
  ghost predicate Reported(source: string, reaches: seq<Reach>) {
    var t := MaskedText(source);
    var found := Matches(PoolReach, t, 0);
    ReportsUpto(found, |found|, reaches, Due(t), Fits(source, t))
  }

  /** Every reach for the pool from inside a function that takes a transaction, with the body around it that starts last. */
  method FindPoolReaches(source: string) returns (reaches: seq<Reach>)
    ensures Reported(source, reaches)
  {
    hide Matches, TokenEnd, IsTxFunction, Describes, ByStart, MaskOf, EndsInRegexEscape, ReportsUpto;
    var masked := MaskSource(source);
    var functions := FindTxFunctions(masked);
    var found := Matches(PoolReach, masked, 0);
    FoundApart(PoolReach, masked);
    ghost var due, fits := Due(masked), Fits(source, masked);
    ReportsNone(found, due, fits);
    reaches := [];
    for k := 0 to |found|
      invariant ReportsUpto(found, k, reaches, due, fits)
    {
      var r := ReportOn(source, masked, functions, found[k]);
      if r.Some? {
        OneReported(found, k, reaches, due, fits, r.value);
        reaches := reaches + [r.value];
      } else {
        NothingToReport(found, k, reaches, due, fits);
      }
    }
  }

  // -- what a report means ----------------------------------------------------------------------

  /** The character at the start of a match is one of the source's. */
  lemma InSource(source: string, m: Found)
    requires Token(PoolReach, MaskedText(source), m)
    ensures m.start < |source| == |MaskOf(source)|
  {
    hide TokenEnd, MaskOf;
    FirstLetter(PoolReach, MaskedText(source), m.start);
    MaskIsPointwise(source);
  }

  /**
   * A reach is reported exactly when it stands alone in the masked text, is not
   * every second one of reaches back to back, is not excused, and lies in the
   * body of a function that takes a transaction.
   */
  lemma ReportedIff(source: string, reaches: seq<Reach>, o: nat)
    requires Reported(source, reaches)
    ensures var t := MaskedText(source);
      Mentions(reaches, o) <==> exists m: Found :: m.start == o && Stands(t, m)
  {
    hide Matches, Behind, Token, Reaches, Stands, Describes, Mentions, MaskedText, ReportsUpto;
    var t := MaskedText(source);
    MentionedIffDue(Matches(PoolReach, t, 0), reaches, Due(t), Fits(source, t), o);
    forall m: Found ensures Stands(t, m) <==> m in Matches(PoolReach, t, 0) && Due(t)(m) { StandsIff(t, m); }
  }

  /** Stands alone, is not the second of two back to back, is not excused, and is in a body. */
  ghost predicate Stands(t: string, m: Found) {
    Token(PoolReach, t, m) && !Behind(PoolReach, t, m.start) && !Excused(t, m) && exists fn :: Around(t, fn, m.start)
  }

  lemma StandsIff(t: string, m: Found)
    ensures Reaches(t, m) <==> Stands(t, m)
    ensures Reaches(t, m) ==> m in Matches(PoolReach, t, 0)
  {
    hide Matches, Behind, Token, Excused, Around;
    FoundUnlessBehind(PoolReach, t, m);
  }

  /**
   * In a text that is code, its slashes clear, a match reads nothing but code:
   * no character of it, white space apart, is in a comment, a string, the text
   * of a template or a regular expression.
   */
  lemma ReachesAreCode(source: string, code: MaskGrammar.Code, m: Found, k: nat)
    requires MaskGrammar.Parses(source, code) && MaskGrammar.SlashesClear(source, code)
    requires m in Matches(PoolReach, MaskedText(source), 0) && m.start <= k < m.end && MaskedText(source)[k] !in SPACES
    ensures k < |source| && k < |MaskGrammar.Keeps(code)| && MaskGrammar.Keeps(code)[k] && MaskedText(source)[k] == source[k]
  {
    hide Matches, MaskOf, EndsInRegexEscape, Kept, MaskGrammar.Keeps, MaskGrammar.SlashesClear, MaskGrammar.IsCode;
    MaskGrammar.TextIsMasked(source, code);
  }

  /** Where the masked text is well bracketed, the body reported is the smallest around the reach. */
  lemma WithinIsSmallest(source: string, m: Found, r: Reach, fn: TxFunction)
    requires var t := MaskedText(source); Balanced(t) && Describes(source, t, m, r) && Around(t, fn, r.offset)
    ensures Within(BodyOf(r.within), BodyOf(fn))
  {
    hide Matches, FunctionAt, ArrowFunction, Balanced, MaskedText;
    LastIsInnermost(MaskedText(source), r.within, fn, r.offset);
  }

  // -- a slash behind a parenthesis ------------------------------------------------------------------

  const IN_REGEX := "tx=>{if(a)/ctx.db/.test(s)}"

  lemma InRegexStart()
    ensures |IN_REGEX| == 27
    ensures var t := IN_REGEX; t[0] == 't' && t[1] == 'x' && t[2] == '=' && t[3] == '>' && t[4] == '{' && t[5] == 'i' && t[6] == 'f' && t[7] == '(' && t[8] == 'a' && t[9] == ')'
  {
  }

  lemma InRegexMiddle()
    ensures |IN_REGEX| == 27
    ensures var t := IN_REGEX; t[10] == '/' && t[11] == 'c' && t[12] == 't' && t[13] == 'x' && t[14] == '.' && t[15] == 'd' && t[16] == 'b' && t[17] == '/'
  {
  }

  lemma InRegexEnd()
    ensures |IN_REGEX| == 27
    ensures var t := IN_REGEX; t[18] == '.' && t[19] == 't' && t[20] == 'e' && t[21] == 's' && t[22] == 't' && t[23] == '(' && t[24] == 's' && t[25] == ')' && t[26] == '}'
  {
  }

  lemma InRegexLetters()
    ensures |IN_REGEX| == 27
    ensures var t := IN_REGEX; t[0] == 't' && t[1] == 'x' && t[2] == '=' && t[3] == '>' && t[4] == '{' && t[5] == 'i' && t[6] == 'f' && t[7] == '(' && t[8] == 'a' && t[9] == ')'
    ensures var t := IN_REGEX; t[10] == '/' && t[11] == 'c' && t[12] == 't' && t[13] == 'x' && t[14] == '.' && t[15] == 'd' && t[16] == 'b' && t[17] == '/'
    ensures var t := IN_REGEX; t[18] == '.' && t[19] == 't' && t[20] == 'e' && t[21] == 's' && t[22] == 't' && t[23] == '(' && t[24] == 's' && t[25] == ')' && t[26] == '}'
  {
    hide IN_REGEX;
    InRegexStart();
    InRegexMiddle();
    InRegexEnd();
  }

  lemma InRegexIsPlain()
    ensures PlainText(IN_REGEX) && |IN_REGEX| == 27
  {
    hide RegexAfter, IN_REGEX;
    InRegexLetters();
    Divides(10);
    Divides(17);
  }

  /** Behind a parenthesis, and behind a word that is no keyword, the lookback takes a slash for a division. */
  lemma Divides(i: nat)
    requires i == 10 || i == 17
    ensures i < |IN_REGEX| && !RegexAfter(IN_REGEX[..i])
  {
    hide IN_REGEX;
    InRegexLetters();
    var before := IN_REGEX[..i];
    assert TrimEnd(before) == before;
    if i == 17 {
      assert before[..16][..15] == before[..15] && before[..15][14] == '.';
      assert LastWord(before[..15]) == "";
      assert LastWord(before[..16]) == "d";
      assert LastWord(before) == "db";
    } else {
      assert LastWord(before) == "";
    }
  }

  lemma InRegexToken()
    ensures Token(PoolReach, IN_REGEX, Found(11, 17))
  {
    hide IN_REGEX;
    InRegexLetters();
    var t := IN_REGEX;
    assert t[11..17] == "ctx.db";
    assert t[11..25][4] == 'd' && !StartsAt(t, 11, "ctx.config.get");
  }

  lemma InRegexIsFree()
    ensures !Behind(PoolReach, IN_REGEX, 11) && !Excused(IN_REGEX, Found(11, 17))
  {
    hide TokenEnd, IN_REGEX;
    InRegexLetters();
    var t := IN_REGEX;
    forall s: nat | s < 11 ensures TokenEnd(PoolReach, t, s) != Some(11) {
      if TokenEnd(PoolReach, t, s) == Some(11) { LastLetter(t, s); }
    }
    assert TrimEnd(t[..11]) == t[..11];
    assert t[..11][9..][0] == ')';
  }

  /** A reach ends in a parenthesis or in `db`. */
  lemma LastLetter(t: string, i: nat)
    requires TokenEnd(PoolReach, t, i).Some?
    ensures t[TokenEnd(PoolReach, t, i).value - 1] == '(' || t[TokenEnd(PoolReach, t, i).value - 1] == 'b'
  {
    if StartsAt(t, i, "ctx.db") { assert t[i..i + 6][5] == t[i + 5]; }
  }

  lemma {:induction false} NoneBetween(t: string, i: nat, j: nat, open: char, close: char, depth: int)
    requires i <= j <= |t| && forall k :: i <= k < j ==> t[k] != open && t[k] != close
    ensures MatchFrom(t, i, open, close, depth) == MatchFrom(t, j, open, close, depth)
    decreases j - i
  {
    if i < j { NoneBetween(t, i + 1, j, open, close, depth); }
  }

  lemma InRegexMatch()
    ensures Match(IN_REGEX, 4) == 26
  {
    hide IN_REGEX;
    InRegexLetters();
    var t := IN_REGEX;
    assert forall k :: 5 <= k < 26 ==> t[k] != '{' && t[k] != '}';
    NoneBetween(t, 5, 26, '{', '}', 1);
  }

  lemma InRegexArrow()
    ensures TokenEnd(BareArrow, IN_REGEX, 0) == Some(4)
  {
    hide IN_REGEX;
    InRegexLetters();
    var t := IN_REGEX;
    assert t[0..2] == "tx";
  }

  lemma InRegexFunction()
    ensures ArrowFunction(IN_REGEX, Found(0, 4)) == Some(TxFunction(0, 4, 26))
  {
    hide Match, ArrowFunction, IN_REGEX;
    InRegexLetters();
    InRegexMatch();
    BlockFunction(IN_REGEX, Found(0, 4), 26);
  }

  lemma BlockFunction(t: string, m: Found, end: nat)
    requires m.end < |t| && t[m.end] == '{' && Match(t, m.end) == end
    ensures ArrowFunction(t, m) == Some(TxFunction(m.start, m.end, end))
  {
    hide Match, EndFrom;
  }

  /**
   * The slash of a regular expression behind the parenthesis of an `if` is taken
   * for a division, so the reach inside that regular expression is reported.
   */
  lemma RegexReachReported(reaches: seq<Reach>)
    requires Reported(IN_REGEX, reaches)
    ensures IN_REGEX[10] == '/' && IN_REGEX[17] == '/' && MaskGrammar.PatternBody(IN_REGEX, 11, 17, false)
    ensures MaskedText(IN_REGEX) == IN_REGEX && Mentions(reaches, 11)
  {
    InRegexBody();
    hide *;
    InRegexIsItself();
    InRegexStands();
    ReportedIff(IN_REGEX, reaches, 11);
  }

  lemma InRegexBody()
    ensures |IN_REGEX| == 27 && IN_REGEX[10] == '/' && IN_REGEX[17] == '/' && MaskGrammar.PatternBody(IN_REGEX, 11, 17, false)
  {
    hide IN_REGEX;
    InRegexLetters();
    var t := IN_REGEX;
    assert MaskGrammar.PatternBody(t, 16, 17, false);
    assert MaskGrammar.PatternBody(t, 15, 17, false);
    assert MaskGrammar.PatternBody(t, 14, 17, false);
    assert MaskGrammar.PatternBody(t, 13, 17, false);
    assert MaskGrammar.PatternBody(t, 12, 17, false);
  }

  lemma InRegexIsItself()
    ensures MaskedText(IN_REGEX) == IN_REGEX
  {
    hide MaskOf, EndsInRegexEscape, PlainText, IN_REGEX;
    InRegexIsPlain();
    PlainTextStays(IN_REGEX);
  }

  lemma InRegexStands()
    ensures Stands(IN_REGEX, Found(11, 17))
  {
    hide Token, TokenEnd, Behind, Excused, Matches, ArrowFunction, FunctionAt, IN_REGEX;
    InRegexLetters();
    InRegexToken();
    InRegexIsFree();
    InRegexArrow();
    InRegexFunction();
    FirstIsFound(BareArrow, IN_REGEX, 4);
    assert IsTxFunction(IN_REGEX, TxFunction(0, 4, 26));
    assert Around(IN_REGEX, TxFunction(0, 4, 26), 11);
  }
}
