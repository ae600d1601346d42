/**
 * Which characters of a TypeScript source are code, read one character at a
 * time: comments, strings, the text of templates and regular expressions are
 * not.
 */
module MaskRules {
  import opened JsonValues

  datatype Mode =
    | Code
    | LineComment
    | BlockOpen       // at the star of an opening slash-star
    | BlockComment
    | BlockClose      // at the slash of a closing star-slash
    | Quoted(quote: char, escaped: bool)
    | TemplateText(escaped: bool)
    | TemplateOpen    // at the brace of a dollar-brace
    | Regex(inClass: bool, escaped: bool)

  /** `templates`: for each open template, the brace depth of its current expression. */
  datatype State = State(mode: Mode, templates: seq<nat>)

  const START := State(Code, [])

  // -- what stands before a slash ------------------------------------------------------

  const SPACES := {' ', '\t', '\n', '\r', '\U{b}', '\U{c}', '\U{a0}', '\U{feff}', '\U{1680}', '\U{2000}', '\U{2001}',
    '\U{2002}', '\U{2003}', '\U{2004}', '\U{2005}', '\U{2006}', '\U{2007}', '\U{2008}', '\U{2009}', '\U{200a}',
    '\U{2028}', '\U{2029}', '\U{202f}', '\U{205f}', '\U{3000}'}

  const REGEX_PRECEDERS := {'(', ',', '=', ':', '[', '!', '&', '|', '?', '{', '}', ';', '+', '-', '*', '%', '<', '>', '~', '^'}

  const REGEX_KEYWORDS := {"return", "typeof", "case", "do", "else", "in", "of", "void"}

  predicate IsWordChar(c: char) {
    'a' <= c <= 'z' || 'A' <= c <= 'Z' || '0' <= c <= '9' || c == '_' || c == '$'
  }

  function TrimEnd(text: string): string {
    if text == "" || text[|text| - 1] !in SPACES then text else TrimEnd(text[..|text| - 1])
  }

  /** The word `text` ends in. */
  function LastWord(text: string): string {
    if text == "" || !IsWordChar(text[|text| - 1]) then "" else LastWord(text[..|text| - 1]) + [text[|text| - 1]]
  }

  /** Whether a slash after this masked text starts a regular expression rather than divides. */
  predicate RegexAfter(masked: string) {
    var code := TrimEnd(masked);
    code == "" || code[|code| - 1] in REGEX_PRECEDERS || LastWord(code) in REGEX_KEYWORDS
  }

  // -- one character -------------------------------------------------------------------

  /** The state after `c`, and whether `c` stays. */
  function Step(st: State, c: char, next: Option<char>, masked: string): (State, bool) {
    match st.mode
    case Code => CodeStep(st.templates, c, next, masked)
    case LineComment => if c == '\n' then (st.(mode := Code), true) else (st, false)
    case BlockOpen => (st.(mode := BlockComment), false)
    case BlockComment => (if c == '*' && next == Some('/') then st.(mode := BlockClose) else st, false)
    case BlockClose => (st.(mode := Code), false)
    case Quoted(quote, escaped) =>
      if escaped then (st.(mode := Quoted(quote, false)), false)
      else if c == quote || c == '\n' then (st.(mode := Code), true)
      else (st.(mode := Quoted(quote, c == '\\')), false)
    case TemplateText(escaped) =>
      if escaped then (st.(mode := TemplateText(false)), false)
      else if c == '`' then (State(Code, Pop(st.templates)), true)
      else if c == '$' && next == Some('{') then (st.(mode := TemplateOpen), true)
      else (st.(mode := TemplateText(c == '\\')), false)
    case TemplateOpen => (State(Code, Pop(st.templates) + [0]), true)
    case Regex(inClass, escaped) =>
      if escaped then (st.(mode := Regex(inClass, false)), false)
      else if c == '\n' || (c == '/' && !inClass) then (st.(mode := Code), true)
      else if c == '\\' then (st.(mode := Regex(inClass, true)), false)
      else (st.(mode := Regex(if c == '[' then true else if c == ']' then false else inClass, false)), false)
  }

  function Pop(templates: seq<nat>): seq<nat> {
    if templates == [] then [] else templates[..|templates| - 1]
  }

  function CodeStep(templates: seq<nat>, c: char, next: Option<char>, masked: string): (State, bool) {
    if c == '/' && next == Some('/') then (State(LineComment, templates), false)
    else if c == '/' && next == Some('*') then (State(BlockOpen, templates), false)
    else if c == '\'' || c == '"' then (State(Quoted(c, false), templates), true)
    else if c == '`' then (State(TemplateText(false), templates + [0]), true)
    else if templates != [] && c == '{' then (State(Code, Pop(templates) + [templates[|templates| - 1] + 1]), true)
    else if templates != [] && c == '}' then
      var depth := templates[|templates| - 1];
      (if depth == 0 then State(TemplateText(false), templates) else State(Code, Pop(templates) + [depth - 1]), true)
    else if c == '/' && RegexAfter(masked) then (State(Regex(false, false), templates), true)
    else (State(Code, templates), true)
  }

  function Blank(c: char): char {
    if c == '\n' then c else ' '
  }

  function Blanks(text: string): (r: string)
    ensures |r| == |text| && forall k :: 0 <= k < |text| ==> r[k] == Blank(text[k])
  {
    seq(|text|, k requires 0 <= k < |text| => Blank(text[k]))
  }

  function At(source: string, i: nat): Option<char> {
    if i < |source| then Some(source[i]) else None
  }

  // -- the whole text ---------------------------------------------------------------------

  datatype Reading = Reading(masked: string, state: State)

  function Next(source: string, i: nat, r: Reading): Reading
    requires i < |source|
  {
    var (st, kept) := Step(r.state, source[i], At(source, i + 1), r.masked);
    Reading(r.masked + [if kept then source[i] else Blank(source[i])], st)
  }

  /** Reads on from offset `i`. */
  function Read(source: string, i: nat, r: Reading): Reading
    requires i <= |source|
    decreases |source| - i
  {
    if i == |source| then r else Read(source, i + 1, Next(source, i, r))
  }

  function ReadAll(source: string): Reading {
    Read(source, 0, Reading("", START))
  }

  /** The text ends right after a backslash inside a regular expression. */
  predicate EndsInRegexEscape(source: string) {
    var mode := ReadAll(source).state.mode;
    mode.Regex? && mode.escaped
  }

  /** What masking leaves of `source`. */
  function MaskOf(source: string): string {
    ReadAll(source).masked
  }
}
