/**
 * `maskSource` as it runs: an array of characters blanked in place, an offset
 * that jumps over each comment, string, template text and regular expression,
 * and a stack of open templates. It computes what `MaskRules` says one
 * character at a time.
 */
module Masking {
  import opened JsonValues
  import opened MaskRules

  // -- lookback -----------------------------------------------------------------------

  /** The last character of the masked text that is not a space, and the word it ends. */
  method PreviousSignificant(out: array<char>, at: nat) returns (last: Option<char>, word: string)
    requires at <= out.Length
    ensures var code := TrimEnd(out[..at]);
      && (last.None? <==> code == "")
      && (last.Some? ==> last.value == code[|code| - 1])
      && word == LastWord(code)
  {
    ghost var text := out[..at];
    assert text[..at] == text;
    var j := at;
    while j > 0 && out[j - 1] in SPACES
      invariant 0 <= j <= at && TrimEnd(text) == TrimEnd(text[..j])
    {
      assert text[..j][..j - 1] == text[..j - 1];
      j := j - 1;
    }
    if j == 0 { return None, ""; }
    ghost var code := text[..j];
    assert TrimEnd(text) == code;
    last := Some(out[j - 1]);
    word := WordBefore(out, j, code);
  }

  method WordBefore(out: array<char>, j: nat, ghost code: string) returns (word: string)
    requires j <= out.Length && code == out[..j]
    ensures word == LastWord(code)
  {
    assert code[..j] == code;
    var k := j;
    while k > 0 && IsWordChar(out[k - 1])
      invariant 0 <= k <= j && LastWord(code) == LastWord(code[..k]) + code[k..]
    {
      assert code[..k][..k - 1] == code[..k - 1];
      assert code[k - 1..] == [code[k - 1]] + code[k..];
      k := k - 1;
    }
    assert LastWord(code[..k]) == "";
    word := out[k..j];
    assert word == code[k..];
  }

  // -- scanning ahead --------------------------------------------------------------------

  lemma BlanksGrow(source: string, from: nat, j: nat)
    requires from <= j < |source|
    ensures Blanks(source[from..j]) + [Blank(source[j])] == Blanks(source[from..j + 1])
  {
  }

  /** The reading that has blanked `source[from..j]` and stays in `mode`; past the end, `late`. */
  ghost function Skipped(source: string, from: nat, j: nat, masked: string, mode: Mode, late: Mode, templates: seq<nat>): Reading
    requires from <= |source| && from <= j <= |source| + 1
  {
    if j <= |source|
    then Read(source, j, Reading(masked + Blanks(source[from..j]), State(mode, templates)))
    else Reading(masked + Blanks(source[from..]), State(late, templates))
  }

  lemma SkipOne(source: string, from: nat, j: nat, masked: string, mode: Mode, after: Mode, late: Mode, templates: seq<nat>)
    requires from <= j < |source|
    requires Step(State(mode, templates), source[j], At(source, j + 1), masked + Blanks(source[from..j])) == (State(after, templates), false)
    ensures Skipped(source, from, j, masked, mode, late, templates) == Skipped(source, from, j + 1, masked, after, late, templates)
  {
    BlanksGrow(source, from, j);
    assert masked + Blanks(source[from..j]) + [Blank(source[j])] == masked + Blanks(source[from..j + 1]);
  }

  /** A backslash and the character after it, which may be missing. */
  lemma SkipEscape(source: string, from: nat, j: nat, masked: string, mode: Mode, escaped: Mode, templates: seq<nat>)
    requires from <= j < |source|
    requires Step(State(mode, templates), source[j], At(source, j + 1), masked + Blanks(source[from..j])) == (State(escaped, templates), false)
    requires j + 1 < |source| ==>
      Step(State(escaped, templates), source[j + 1], At(source, j + 2), masked + Blanks(source[from..j + 1])) == (State(mode, templates), false)
    ensures Skipped(source, from, j, masked, mode, escaped, templates) == Skipped(source, from, j + 2, masked, mode, escaped, templates)
  {
    SkipOne(source, from, j, masked, mode, escaped, escaped, templates);
    if j + 1 < |source| {
      SkipOne(source, from, j + 1, masked, escaped, mode, escaped, templates);
    } else {
      assert source[from..j + 1] == source[from..];
    }
  }

  method ScanQuoted(source: string, from: nat, quote: char, ghost masked: string, ghost templates: seq<nat>) returns (j: nat)
    requires from <= |source| && quote != '\\'
    ensures from <= j <= |source| + 1
    ensures j < |source| ==> source[j] == quote || source[j] == '\n'
    ensures Skipped(source, from, from, masked, Quoted(quote, false), Quoted(quote, true), templates)
         == Skipped(source, from, j, masked, Quoted(quote, false), Quoted(quote, true), templates)
  {
    j := from;
    while j < |source| && source[j] != quote && source[j] != '\n'
      invariant from <= j <= |source| + 1
      invariant Skipped(source, from, from, masked, Quoted(quote, false), Quoted(quote, true), templates)
             == Skipped(source, from, j, masked, Quoted(quote, false), Quoted(quote, true), templates)
    {
      if source[j] == '\\' {
        SkipEscape(source, from, j, masked, Quoted(quote, false), Quoted(quote, true), templates);
        j := j + 2;
      } else {
        SkipOne(source, from, j, masked, Quoted(quote, false), Quoted(quote, false), Quoted(quote, true), templates);
        j := j + 1;
      }
    }
  }

  method ScanRegex(source: string, from: nat, ghost masked: string, ghost templates: seq<nat>) returns (j: nat, inClass: bool)
    requires from <= |source|
    ensures from <= j <= |source| + 1
    ensures j < |source| ==> source[j] == '\n' || (source[j] == '/' && !inClass)
    ensures Skipped(source, from, from, masked, Regex(false, false), Regex(false, true), templates)
         == Skipped(source, from, j, masked, Regex(inClass, false), Regex(inClass, true), templates)
  {
    j, inClass := from, false;
    while j < |source| && source[j] != '\n'
      invariant from <= j <= |source| + 1
      invariant Skipped(source, from, from, masked, Regex(false, false), Regex(false, true), templates)
             == Skipped(source, from, j, masked, Regex(inClass, false), Regex(inClass, true), templates)
    {
      var d := source[j];
      if d == '\\' {
        SkipEscape(source, from, j, masked, Regex(inClass, false), Regex(inClass, true), templates);
        j := j + 2;
        continue;
      }
      if d == '/' && !inClass { break; }
      var after := if d == '[' then true else if d == ']' then false else inClass;
      SkipOne(source, from, j, masked, Regex(inClass, false), Regex(after, false), Regex(after, true), templates);
      inClass := after;
      j := j + 1;
    }
  }

  /** The text of a template: stops at its backtick or at a dollar-brace, or runs to the end. */
  method ScanTemplate(source: string, from: nat, ghost masked: string, ghost templates: seq<nat>) returns (j: nat)
    requires from <= |source|
    ensures from <= j <= |source| + 1
    ensures j < |source| ==> source[j] == '`' || (source[j] == '$' && At(source, j + 1) == Some('{'))
    ensures Skipped(source, from, from, masked, TemplateText(false), TemplateText(true), templates)
         == Skipped(source, from, j, masked, TemplateText(false), TemplateText(true), templates)
  {
    j := from;
    while j < |source|
      invariant from <= j <= |source| + 1
      invariant Skipped(source, from, from, masked, TemplateText(false), TemplateText(true), templates)
             == Skipped(source, from, j, masked, TemplateText(false), TemplateText(true), templates)
    {
      var c := source[j];
      if c == '\\' {
        SkipEscape(source, from, j, masked, TemplateText(false), TemplateText(true), templates);
        j := j + 2;
        continue;
      }
      if c == '`' || (c == '$' && At(source, j + 1) == Some('{')) { return; }
      SkipOne(source, from, j, masked, TemplateText(false), TemplateText(false), TemplateText(true), templates);
      j := j + 1;
    }
  }

  /** Where the line ends, looking from `start` on. */
  method LineEnd(source: string, from: nat, start: nat, ghost masked: string, ghost templates: seq<nat>) returns (j: nat)
    requires from <= start <= |source|
    ensures start <= j <= |source| && (j < |source| ==> source[j] == '\n')
    ensures Skipped(source, from, start, masked, LineComment, LineComment, templates)
         == Skipped(source, from, j, masked, LineComment, LineComment, templates)
  {
    j := start;
    while j < |source| && source[j] != '\n'
      invariant start <= j <= |source|
      invariant Skipped(source, from, start, masked, LineComment, LineComment, templates)
             == Skipped(source, from, j, masked, LineComment, LineComment, templates)
    {
      SkipOne(source, from, j, masked, LineComment, LineComment, LineComment, templates);
      j := j + 1;
    }
  }

  /** Where the next star-slash ends, looking from `start` on. */
  method BlockEnd(source: string, from: nat, start: nat, ghost masked: string, ghost templates: seq<nat>)
    returns (j: nat, closed: bool)
    requires from <= start <= |source|
    ensures start <= j <= |source| && (!closed ==> j == |source|)
    ensures Skipped(source, from, start, masked, BlockComment, BlockComment, templates)
         == Skipped(source, from, j, masked, if closed then Code else BlockComment, BlockComment, templates)
  {
    j := start;
    while j < |source|
      invariant start <= j <= |source|
      invariant Skipped(source, from, start, masked, BlockComment, BlockComment, templates)
             == Skipped(source, from, j, masked, BlockComment, BlockComment, templates)
    {
      if source[j] == '*' && At(source, j + 1) == Some('/') {
        SkipOne(source, from, j, masked, BlockComment, BlockClose, BlockComment, templates);
        SkipOne(source, from, j + 1, masked, BlockClose, Code, BlockComment, templates);
        return j + 2, true;
      }
      SkipOne(source, from, j, masked, BlockComment, BlockComment, BlockComment, templates);
      j := j + 1;
    }
    closed := false;
  }

  // -- blanking -----------------------------------------------------------------------------

  /**
   * Blanks `out[from..to]`. Cells at `length` and after do not exist yet, and
   * writing one makes the text that much longer.
   */
  method BlankCells(out: array<char>, length: nat, from: nat, to: nat) returns (longer: nat)
    requires from <= length <= out.Length && from <= to && to <= out.Length && to <= length + 1
    modifies out
    ensures longer == if from < to && to > length then to else length
    ensures forall k :: 0 <= k < out.Length ==>
      out[k] == if from <= k < to then (if k < length then Blank(old(out[k])) else ' ') else old(out[k])
  {
    longer := length;
    for k := from to to
      invariant longer == if from < k && k > length then k else length
      invariant forall l :: 0 <= l < out.Length ==>
        out[l] == if from <= l < k then (if l < length then Blank(old(out[l])) else ' ') else old(out[l])
    {
      if k >= longer || out[k] != '\n' {
        out[k] := ' ';
        if k >= longer { longer := k + 1; }
      }
    }
  }

  // -- the whole text ------------------------------------------------------------------------

  /**
   * Up to offset `i` the text is masked, from there on it is as it was, and the
   * scan is in code; or the scan is over.
   */
  ghost predicate Inv(source: string, out: array<char>, length: nat, i: nat, templates: seq<nat>)
    reads out
  {
    var n := |source|;
    && out.Length == n + 1
    && if i < n then
         && length == n && out[i..n] == source[i..n]
         && Read(source, i, Reading(out[..i], State(Code, templates))) == ReadAll(source)
       else
         && out[..n] == MaskOf(source)
         && length == (if EndsInRegexEscape(source) then n + 1 else n)
         && (length == n + 1 ==> out[n] == ' ')
  }

  /** What a scan ahead leaves to do: blank from `from` up to `j`, and go on at `j` in `mode`. */
  ghost predicate Ahead(source: string, out: array<char>, length: nat, from: nat, j: nat, mode: Mode, late: Mode, templates: seq<nat>)
    reads out
  {
    && out.Length == |source| + 1 && length == |source|
    && from <= |source| && from <= j <= |source| + 1
    && out[from..|source|] == source[from..]
    && Skipped(source, from, j, out[..from], mode, late, templates) == ReadAll(source)
  }

  method BlankAhead(source: string, out: array<char>, length: nat, from: nat, j: nat, ghost mode: Mode, ghost late: Mode, ghost templates: seq<nat>)
    requires Ahead(source, out, length, from, j, mode, late, templates)
    modifies out
    ensures j <= |source| ==>
      && out[..j] == old(out[..from]) + Blanks(source[from..j])
      && out[j..|source|] == source[j..]
      && Read(source, j, Reading(out[..j], State(mode, templates))) == ReadAll(source)
    ensures j > |source| ==> Reading(out[..|source|], State(late, templates)) == ReadAll(source)
  {
    var to := if j <= |source| then j else |source|;
    var same := BlankCells(out, length, from, to);
    forall k | from <= k < to ensures out[k] == Blanks(source[from..to])[k - from] {
      assert old(out[k]) == old(out[from..|source|])[k - from] == source[from..][k - from];
    }
    assert out[..to] == old(out[..from]) + Blanks(source[from..to]);
    assert source[from..|source|] == source[from..];
    if j <= |source| {
      assert out[j..|source|] == old(out[j..|source|]) == old(out[from..|source|])[j - from..];
      assert source[from..][j - from..] == source[j..];
    }
  }

  /** The scan ran into the end of the text. */
  lemma Finished(source: string, out: array<char>, length: nat, i: nat, mode: Mode, templates: seq<nat>)
    requires out.Length == |source| + 1 && length == |source| <= i
    requires Reading(out[..|source|], State(mode, templates)) == ReadAll(source)
    requires !(mode.Regex? && mode.escaped)
    ensures Inv(source, out, length, i, templates)
  {
  }

  /** The scan goes on in code at offset `i`, or is over there. */
  lemma GoOn(source: string, out: array<char>, length: nat, i: nat, templates: seq<nat>)
    requires out.Length == |source| + 1 && length == |source| && i <= |source|
    requires out[i..|source|] == source[i..]
    requires Read(source, i, Reading(out[..i], State(Code, templates))) == ReadAll(source)
    ensures Inv(source, out, length, i, templates)
  {
    assert source[i..|source|] == source[i..];
  }

  /** One kept character. */
  lemma Keep(source: string, out: array<char>, i: nat, st: State, after: State)
    requires i < |source| && out.Length == |source| + 1 && out[i..|source|] == source[i..]
    requires Read(source, i, Reading(out[..i], st)) == ReadAll(source)
    requires Step(st, source[i], At(source, i + 1), out[..i]) == (after, true)
    ensures out[i + 1..|source|] == source[i + 1..]
    ensures Read(source, i + 1, Reading(out[..i + 1], after)) == ReadAll(source)
  {
    assert out[i] == out[i..|source|][0] == source[i];
    assert out[..i + 1] == out[..i] + [source[i]];
    assert out[i..|source|][1..] == out[i + 1..|source|] && source[i..][1..] == source[i + 1..];
  }

  method MaskLineComment(source: string, out: array<char>, length: nat, i: nat, templates: seq<nat>) returns (next: nat)
    requires i < |source| && Inv(source, out, length, i, templates)
    requires source[i] == '/' && At(source, i + 1) == Some('/')
    modifies out
    ensures i < next && Inv(source, out, length, next, templates)
  {
    Origin(source, out, length, i, Code, LineComment, templates);
    SkipOne(source, i, i, out[..i], Code, LineComment, LineComment, templates);
    next := LineEnd(source, i, i + 1, out[..i], templates);
    BlankAhead(source, out, length, i, next, LineComment, LineComment, templates);
    if next < |source| {
      // The newline is read as code: it stays, and code goes on after it.
      assert Next(source, next, Reading(out[..next], State(LineComment, templates)))
          == Next(source, next, Reading(out[..next], State(Code, templates)));
      GoOn(source, out, length, next, templates);
    } else {
      Finished(source, out, length, next, LineComment, templates);
    }
  }

  /** Nothing is skipped yet. */
  lemma Origin(source: string, out: array<char>, length: nat, i: nat, mode: Mode, late: Mode, templates: seq<nat>)
    requires i <= |source| && out.Length == |source| + 1 && length == |source| && out[i..|source|] == source[i..]
    requires Read(source, i, Reading(out[..i], State(mode, templates))) == ReadAll(source)
    ensures Ahead(source, out, length, i, i, mode, late, templates)
  {
    assert source[i..i] == "" && out[..i] + Blanks("") == out[..i];
  }

  method MaskBlockComment(source: string, out: array<char>, length: nat, i: nat, templates: seq<nat>) returns (next: nat)
    requires i < |source| && Inv(source, out, length, i, templates)
    requires source[i] == '/' && At(source, i + 1) == Some('*')
    modifies out
    ensures i < next && Inv(source, out, length, next, templates)
  {
    assert source[i..|source|] == source[i..];
    Origin(source, out, length, i, Code, BlockComment, templates);
    SkipOne(source, i, i, out[..i], Code, BlockOpen, BlockComment, templates);
    SkipOne(source, i, i + 1, out[..i], BlockOpen, BlockComment, BlockComment, templates);
    var closed;
    next, closed := BlockEnd(source, i, i + 2, out[..i], templates);
    BlankAhead(source, out, length, i, next, if closed then Code else BlockComment, BlockComment, templates);
    if closed {
      GoOn(source, out, length, next, templates);
    } else {
      Finished(source, out, length, next, BlockComment, templates);
    }
  }

  method MaskQuoted(source: string, out: array<char>, length: nat, i: nat, templates: seq<nat>) returns (next: nat)
    requires i < |source| && Inv(source, out, length, i, templates)
    requires source[i] == '\'' || source[i] == '"'
    modifies out
    ensures i < next && Inv(source, out, length, next, templates)
  {
    var quote := source[i];
    assert source[i..|source|] == source[i..];
    Keep(source, out, i, State(Code, templates), State(Quoted(quote, false), templates));
    Origin(source, out, length, i + 1, Quoted(quote, false), Quoted(quote, true), templates);
    var j := ScanQuoted(source, i + 1, quote, out[..i + 1], templates);
    BlankAhead(source, out, length, i + 1, j, Quoted(quote, false), Quoted(quote, true), templates);
    next := j + 1;
    if j < |source| {
      Keep(source, out, j, State(Quoted(quote, false), templates), State(Code, templates));
      GoOn(source, out, length, next, templates);
    } else {
      Finished(source, out, length, next, Quoted(quote, j > |source|), templates);
    }
  }

  /** A regular expression is not clamped to the text: an escape at its very end blanks one cell too many. */
  method MaskRegex(source: string, out: array<char>, length: nat, i: nat, templates: seq<nat>)
    returns (next: nat, longer: nat)
    requires i < |source| && Inv(source, out, length, i, templates)
    requires CodeStep(templates, source[i], At(source, i + 1), out[..i]) == (State(Regex(false, false), templates), true)
    modifies out
    ensures i < next && Inv(source, out, longer, next, templates)
  {
    assert source[i..|source|] == source[i..];
    Keep(source, out, i, State(Code, templates), State(Regex(false, false), templates));
    Origin(source, out, length, i + 1, Regex(false, false), Regex(false, true), templates);
    var j, inClass := ScanRegex(source, i + 1, out[..i + 1], templates);
    ghost var was := out[..];
    BlankAhead(source, out, length, i + 1, j, Regex(inClass, false), Regex(inClass, true), templates);
    next, longer := j + 1, length;
    if j < |source| {
      Keep(source, out, j, State(Regex(inClass, false), templates), State(Code, templates));
      GoOn(source, out, length, next, templates);
    } else if j == |source| {
      Finished(source, out, length, next, Regex(inClass, false), templates);
    } else {
      ghost var masked := out[..|source|];
      longer := BlankCells(out, length, |source|, j);
      assert out[..|source|] == masked;
    }
  }

  /** The text of a template from `from` on; the stack loses its top at the backtick. */
  method MaskTemplate(source: string, out: array<char>, length: nat, from: nat, templates: seq<nat>)
    returns (next: nat, left: seq<nat>)
    requires from <= |source| && out.Length == |source| + 1 && length == |source| && templates != []
    requires out[from..|source|] == source[from..]
    requires Read(source, from, Reading(out[..from], State(TemplateText(false), templates))) == ReadAll(source)
    modifies out
    ensures from <= next && Inv(source, out, length, next, left)
  {
    Origin(source, out, length, from, TemplateText(false), TemplateText(true), templates);
    var j := ScanTemplate(source, from, out[..from], templates);
    BlankAhead(source, out, length, from, j, TemplateText(false), TemplateText(true), templates);
    left := templates;
    if j >= |source| {
      next := |source|;
      Finished(source, out, length, next, TemplateText(j > |source|), templates);
    } else if source[j] == '`' {
      Keep(source, out, j, State(TemplateText(false), templates), State(Code, Pop(templates)));
      next, left := j + 1, templates[..|templates| - 1];
      GoOn(source, out, length, next, left);
    } else {
      Keep(source, out, j, State(TemplateText(false), templates), State(TemplateOpen, templates));
      Keep(source, out, j + 1, State(TemplateOpen, templates), State(Code, Pop(templates) + [0]));
      next, left := j + 2, templates[|templates| - 1 := 0];
      assert left == Pop(templates) + [0];
      GoOn(source, out, length, next, left);
    }
  }

  /** Any other character of the code: it stays, and a brace moves the depth of the open template. */
  method MaskCode(source: string, out: array<char>, length: nat, i: nat, templates: seq<nat>)
    returns (next: nat, longer: nat, left: seq<nat>)
    requires i < |source| && Inv(source, out, length, i, templates)
    requires source[i] != '\'' && source[i] != '"'
    requires source[i] == '/' ==> At(source, i + 1) != Some('/') && At(source, i + 1) != Some('*')
    modifies out
    ensures i < next && Inv(source, out, longer, next, left)
  {
    var c := source[i];
    next, longer, left := i + 1, length, templates;
    assert source[i..|source|] == source[i..];
    if c == '`' {
      left := templates + [0];
      Keep(source, out, i, State(Code, templates), State(TemplateText(false), left));
      next, left := MaskTemplate(source, out, length, i + 1, left);
      return;
    }
    if |templates| > 0 {
      var top := |templates| - 1;
      if c == '{' {
        left := templates[top := templates[top] + 1];
        assert left == Pop(templates) + [templates[top] + 1];
      } else if c == '}' {
        if templates[top] == 0 {
          Keep(source, out, i, State(Code, templates), State(TemplateText(false), templates));
          next, left := MaskTemplate(source, out, length, i + 1, templates);
          return;
        }
        left := templates[top := templates[top] - 1];
        assert left == Pop(templates) + [templates[top] - 1];
      }
    }
    if c == '/' {
      var last, word := PreviousSignificant(out, i);
      var isRegex := last.None? || last.value in REGEX_PRECEDERS || word in REGEX_KEYWORDS;
      assert isRegex <==> RegexAfter(out[..i]);
      if isRegex {
        next, longer := MaskRegex(source, out, length, i, templates);
        return;
      }
    }
    Keep(source, out, i, State(Code, templates), State(Code, left));
    GoOn(source, out, length, next, left);
  }

  /**
   * The mask of `source`: what `MaskRules` leaves of it, and one space more
   * when the text ends right after a backslash in a regular expression.
   */
  method MaskSource(source: string) returns (masked: string)
    ensures masked == MaskOf(source) + if EndsInRegexEscape(source) then " " else ""
  {
    var n := |source|;
    var out := new char[n + 1](_ => ' ');
    forall k | 0 <= k < n { out[k] := source[k]; }
    var length: nat, i: nat, templates: seq<nat> := n, 0, [];
    assert out[..0] == "" && out[0..n] == source[0..n] == source[0..];
    GoOn(source, out, length, 0, []);
    while i < n
      invariant Inv(source, out, length, i, templates)
      decreases n - i
    {
      var c := source[i];
      if c == '/' && At(source, i + 1) == Some('/') {
        i := MaskLineComment(source, out, length, i, templates);
      } else if c == '/' && At(source, i + 1) == Some('*') {
        i := MaskBlockComment(source, out, length, i, templates);
      } else if c == '\'' || c == '"' {
        i := MaskQuoted(source, out, length, i, templates);
      } else {
        i, length, templates := MaskCode(source, out, length, i, templates);
      }
    }
    masked := out[..length];
    assert masked == out[..n] + out[n..length];
  }
}
