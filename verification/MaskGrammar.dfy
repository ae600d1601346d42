/**
 * Source text by a grammar of its own: code with literals, comments, regular
 * expressions, braces and templates, templates with code inside them, to any
 * depth. Whether a slash divides or starts a regular expression the grammar
 * leaves open; the mask keeps exactly what it says is code when the scan reads
 * each slash as it does.
 */
module MaskGrammar {
  import opened JsonValues
  import opened MaskRules
  import opened MaskLaws
  import opened Lookback

  /** Code, by its pieces in order; a width counts what lies between the delimiters. */
  datatype Code =
    | Done
    | Plain(rest: Code)
    | Literal(width: nat, rest: Code)
    | LineNote(width: nat, rest: Code)
    | BlockNote(width: nat, rest: Code)
    | Pattern(width: nat, rest: Code)
    | Curly(inner: Code, rest: Code)
    | Ticks(text: Template, rest: Code)

  /** A template behind its first backtick: text, then an expression, and so on; text and a backtick at the end. */
  datatype Template = Last(width: nat) | Expression(width: nat, inner: Code, rest: Template)

  function Blanked(width: nat): (r: seq<bool>)
    ensures |r| == width && forall k :: 0 <= k < width ==> !r[k]
  {
    seq(width, k => false)
  }

  /** Which characters of the code are kept. */
  function Keeps(code: Code): seq<bool> {
    match code
    case Done => []
    case Plain(rest) => [true] + Keeps(rest)
    case Literal(width, rest) => [true] + Blanked(width) + [true] + Keeps(rest)
    case LineNote(width, rest) => Blanked(width + 2) + [true] + Keeps(rest)
    case BlockNote(width, rest) => Blanked(width + 4) + Keeps(rest)
    case Pattern(width, rest) => [true] + Blanked(width) + [true] + Keeps(rest)
    case Curly(inner, rest) => [true] + Keeps(inner) + [true] + Keeps(rest)
    case Ticks(text, rest) => [true] + KeepsTemplate(text) + Keeps(rest)
  }

  function KeepsTemplate(t: Template): seq<bool> {
    match t
    case Last(width) => Blanked(width) + [true]
    case Expression(width, inner, rest) => Blanked(width) + [true, true] + Keeps(inner) + [true] + KeepsTemplate(rest)
  }

  predicate Is(source: string, i: nat, c: char) {
    At(source, i) == Some(c)
  }

  /** A character that starts nothing else; a slash here divides. */
  predicate PlainAt(source: string, i: nat)
    requires i <= |source|
  {
    && i < |source| && source[i] !in {'\'', '"', '`', '{', '}'}
    && (source[i] == '/' ==> !Is(source, i + 1, '/') && !Is(source, i + 1, '*'))
  }

  /** The inside of a regular expression: a slash only in a class, no newline; a backslash takes one more. */
  predicate PatternBody(source: string, from: nat, end: nat, inClass: bool)
    requires from <= end <= |source|
    decreases end - from
  {
    if from == end then !inClass
    else if source[from] == '\\' then from + 1 < end && PatternBody(source, from + 2, end, inClass)
    else
      && source[from] != '\n' && (source[from] == '/' ==> inClass)
      && PatternBody(source, from + 1, end, if source[from] == '[' then true else if source[from] == ']' then false else inClass)
  }

  /** The source from `i` on starts with this code. */
  predicate IsCode(source: string, i: nat, code: Code)
    requires i <= |source|
    decreases code
  {
    match code
    case Done => true
    case Plain(rest) => PlainAt(source, i) && IsCode(source, i + 1, rest)
    case Literal(width, rest) =>
      var j := i + 1 + width;
      && j < |source| && (source[i] == '\'' || source[i] == '"') && source[j] == source[i]
      && LiteralBody(source, i + 1, j, source[i]) && IsCode(source, j + 1, rest)
    case LineNote(width, rest) =>
      var j := i + 2 + width;
      && j < |source| && source[i] == '/' && source[i + 1] == '/' && source[j] == '\n'
      && (forall k :: i <= k < j ==> source[k] != '\n') && IsCode(source, j + 1, rest)
    case BlockNote(width, rest) =>
      var j := i + 2 + width;
      && j + 1 < |source| && source[i] == '/' && source[i + 1] == '*' && source[j] == '*' && source[j + 1] == '/'
      && (forall k :: i + 2 <= k < j ==> !(source[k] == '*' && source[k + 1] == '/')) && IsCode(source, j + 2, rest)
    case Pattern(width, rest) =>
      var j := i + 1 + width;
      && j < |source| && source[i] == '/' && !Is(source, i + 1, '/') && !Is(source, i + 1, '*')
      && PatternBody(source, i + 1, j, false) && source[j] == '/' && IsCode(source, j + 1, rest)
    case Curly(inner, rest) =>
      var j := i + 1 + |Keeps(inner)|;
      && j < |source| && source[i] == '{' && IsCode(source, i + 1, inner) && source[j] == '}' && IsCode(source, j + 1, rest)
    case Ticks(text, rest) =>
      var j := i + 1 + |KeepsTemplate(text)|;
      && i < |source| && j <= |source| && source[i] == '`' && IsTemplate(source, i + 1, text) && IsCode(source, j, rest)
  }

  predicate IsTemplate(source: string, i: nat, t: Template)
    requires i <= |source|
    decreases t
  {
    match t
    case Last(width) =>
      var j := i + width;
      j < |source| && TemplateBody(source, i, j) && source[j] == '`'
    case Expression(width, inner, rest) =>
      var j := i + width;
      var end := j + 2 + |Keeps(inner)|;
      && end < |source| && TemplateBody(source, i, j) && source[j] == '$' && source[j + 1] == '{'
      && IsCode(source, j + 2, inner) && source[end] == '}' && IsTemplate(source, end + 1, rest)
  }

  // -- slashes --------------------------------------------------------------------------------

  /** A slash that divides or starts a regular expression. */
  datatype Slash = Slash(at: nat, regex: bool)

  /** How wide the first piece of code is. */
  function Width(code: Code): (r: nat)
    requires !code.Done?
    ensures |Keeps(code)| == r + |Keeps(code.rest)|
  {
    match code
    case Plain(_) => 1
    case Literal(width, _) => width + 2
    case LineNote(width, _) => width + 3
    case BlockNote(width, _) => width + 4
    case Pattern(width, _) => width + 2
    case Curly(inner, _) => |Keeps(inner)| + 2
    case Ticks(text, _) => |KeepsTemplate(text)| + 1
  }

  function FirstSlashes(source: string, i: nat, code: Code): set<Slash>
    requires !code.Done?
    decreases code, 0
  {
    match code
    case Plain(_) => if Is(source, i, '/') then {Slash(i, false)} else {}
    case Pattern(_, _) => {Slash(i, true)}
    case Curly(inner, _) => Slashes(source, i + 1, inner)
    case Ticks(text, _) => TemplateSlashes(source, i + 1, text)
    case _ => {}
  }

  /** The slashes of code that starts at `i`, those of its inner code included. */
  function Slashes(source: string, i: nat, code: Code): set<Slash>
    decreases code, 1
  {
    if code.Done? then {} else FirstSlashes(source, i, code) + Slashes(source, i + Width(code), code.rest)
  }

  function TemplateSlashes(source: string, i: nat, t: Template): set<Slash>
    decreases t
  {
    match t
    case Last(_) => {}
    case Expression(width, inner, rest) =>
      Slashes(source, i + width + 2, inner) + TemplateSlashes(source, i + width + 3 + |Keeps(inner)|, rest)
  }

  /** Each slash is looked upon as what it is. */
  ghost predicate ReadRight(look: nat -> bool, slashes: set<Slash>) {
    forall s :: s in slashes ==> look(s.at) == s.regex
  }

  /** The first `n` characters, blank where the flags say so. */
  function Shown(source: string, flags: seq<bool>, n: nat): (r: string)
    requires n <= |source| && n <= |flags|
    ensures |r| == n && forall k :: 0 <= k < n ==> r[k] == if flags[k] then source[k] else Blank(source[k])
  {
    seq(n, k requires 0 <= k < n => if flags[k] then source[k] else Blank(source[k]))
  }

  /** Where an operand is expected by what stands before in the text as the flags show it. */
  ghost function Expects(source: string, flags: seq<bool>): nat -> bool {
    (p: nat) => p <= |source| && p <= |flags| && OperandExpected(Shown(source, flags, p))
  }

  // -- the mask follows -----------------------------------------------------------------------

  /** From `i` on the mask keeps what the flags say. */
  ghost predicate Follows(source: string, i: nat, flags: seq<bool>) {
    i + |flags| <= |source| && forall k :: i <= k < i + |flags| ==> Kept(source, k) == flags[k - i]
  }

  lemma Joined(source: string, i: nat, a: seq<bool>, b: seq<bool>)
    requires Follows(source, i, a) && Follows(source, i + |a|, b)
    ensures Follows(source, i, a + b)
  {
    hide Kept;
    forall k | i <= k < i + |a + b| ensures Kept(source, k) == (a + b)[k - i] {
      if k < i + |a| {
        assert (a + b)[k - i] == a[k - i];
      } else {
        assert (a + b)[k - i] == b[k - (i + |a|)];
      }
    }
  }

  lemma Silent(source: string, i: nat, width: nat)
    requires i + width <= |source| && forall k :: i <= k < i + width ==> !Kept(source, k)
    ensures Follows(source, i, Blanked(width))
  {
    hide Kept;
  }

  lemma Loud(source: string, i: nat)
    requires i < |source| && Kept(source, i)
    ensures Follows(source, i, [true])
  {
    hide Kept;
  }

  /** A delimiter, what is blank, and a delimiter. */
  lemma Between(source: string, i: nat, width: nat)
    requires i + width + 1 < |source| && Kept(source, i) && Kept(source, i + 1 + width)
    requires forall k :: i < k < i + 1 + width ==> !Kept(source, k)
    ensures Follows(source, i, [true] + Blanked(width) + [true])
  {
    hide Kept, Follows;
    Loud(source, i);
    Silent(source, i + 1, width);
    Loud(source, i + 1 + width);
    Joined(source, i, [true], Blanked(width));
    Joined(source, i, [true] + Blanked(width), [true]);
  }

  /** The mask keeps of the first `n` characters what the flags say. */
  ghost predicate Agrees(source: string, flags: seq<bool>, n: nat) {
    n <= |source| && n <= |flags| && forall k :: 0 <= k < n ==> Kept(source, k) == flags[k]
  }

  lemma AgreedIsShown(source: string, flags: seq<bool>, n: nat)
    requires Agrees(source, flags, n)
    ensures Upto(source, n).masked == Shown(source, flags, n)
  {
    hide Kept, Upto;
    UptoMasked(source, n);
  }

  /** Where the mask agrees so far, `look` answers as the scan does. */
  ghost predicate Trusted(source: string, flags: seq<bool>, look: nat -> bool) {
    forall p: nat :: Agrees(source, flags, p) ==> look(p) == RegexAfter(Upto(source, p).masked)
  }

  lemma LookbackIsTrusted(source: string, flags: seq<bool>)
    ensures Trusted(source, flags, Expects(source, flags))
  {
    hide RegexAfter, OperandExpected, Upto, Kept;
    forall p: nat | Agrees(source, flags, p) ensures Expects(source, flags)(p) == RegexAfter(Upto(source, p).masked) {
      AgreedIsShown(source, flags, p);
      LookbackMeans(Upto(source, p).masked);
    }
  }

  /** The mask agrees up to `i`, where the flags go on with these. */
  ghost predicate Ready(source: string, flags: seq<bool>, look: nat -> bool, i: nat, keeps: seq<bool>) {
    && |flags| == |source| && i + |keeps| <= |source|
    && Agrees(source, flags, i) && Trusted(source, flags, look)
    && flags[i..i + |keeps|] == keeps
  }

  lemma ReadyFirst(source: string, flags: seq<bool>, look: nat -> bool, i: nat, a: seq<bool>, b: seq<bool>)
    requires Ready(source, flags, look, i, a + b)
    ensures Ready(source, flags, look, i, a)
  {
    hide Agrees, Trusted;
    assert flags[i..i + |a + b|][..|a|] == flags[i..i + |a|];
  }

  lemma ReadyNext(source: string, flags: seq<bool>, look: nat -> bool, i: nat, a: seq<bool>, b: seq<bool>)
    requires Ready(source, flags, look, i, a + b) && Follows(source, i, a)
    ensures Ready(source, flags, look, i + |a|, b)
  {
    hide Kept, Trusted;
    ReadyFirst(source, flags, look, i, a, b);
    assert flags[i..i + |a + b|][|a|..] == flags[i + |a|..i + |a| + |b|];
    forall k | 0 <= k < i + |a| ensures Kept(source, k) == flags[k] {
      if k >= i { assert flags[i..i + |a|][k - i] == flags[k]; }
    }
  }

  /** How the scan reads a slash at `i`. */
  lemma SlashLooked(source: string, flags: seq<bool>, look: nat -> bool, i: nat, keeps: seq<bool>)
    requires Ready(source, flags, look, i, keeps)
    ensures look(i) == RegexAfter(Upto(source, i).masked)
  {
    hide RegexAfter, Upto;
  }

  lemma {:induction false} InsidePattern(source: string, from: nat, end: nat, inClass: bool)
    requires from <= end <= |source| && PatternBody(source, from, end, inClass)
    requires StateAt(source, from).mode == Regex(inClass, false)
    ensures StateAt(source, end) == StateAt(source, from).(mode := Regex(false, false))
    ensures forall k :: from <= k < end ==> !Kept(source, k)
    decreases end - from
  {
    if from < end {
      if source[from] == '\\' {
        assert StateAt(source, from + 1) == StateAt(source, from).(mode := Regex(inClass, true));
        assert StateAt(source, from + 2) == StateAt(source, from);
        InsidePattern(source, from + 2, end, inClass);
      } else {
        InsidePattern(source, from + 1, end, if source[from] == '[' then true else if source[from] == ']' then false else inClass);
      }
    }
  }

  lemma PatternIsMasked(source: string, i: nat, j: nat)
    requires i < j < |source| && StateAt(source, i).mode == Code
    requires source[i] == '/' && !Is(source, i + 1, '/') && !Is(source, i + 1, '*') && source[j] == '/'
    requires RegexAfter(Upto(source, i).masked) && PatternBody(source, i + 1, j, false)
    ensures Kept(source, i) && Kept(source, j) && forall k :: i < k < j ==> !Kept(source, k)
    ensures StateAt(source, j + 1) == StateAt(source, i)
  {
    assert StateAt(source, i + 1) == State(Regex(false, false), StateAt(source, i).templates) && Kept(source, i);
    InsidePattern(source, i + 1, j, false);
  }

  lemma PlainIsKept(source: string, i: nat)
    requires i < |source| && PlainAt(source, i) && StateAt(source, i).mode == Code
    requires source[i] == '/' ==> !RegexAfter(Upto(source, i).masked)
    ensures Kept(source, i) && StateAt(source, i + 1) == StateAt(source, i)
  {
  }

  /** Inside braces the innermost template counts one more. */
  function Deeper(templates: seq<nat>): seq<nat> {
    if templates == [] then [] else Pop(templates) + [templates[|templates| - 1] + 1]
  }

  lemma BraceOpens(source: string, i: nat)
    requires i < |source| && source[i] == '{' && StateAt(source, i).mode == Code
    ensures Kept(source, i) && StateAt(source, i + 1) == State(MaskRules.Code, Deeper(StateAt(source, i).templates))
  {
  }

  lemma BraceCloses(source: string, j: nat, templates: seq<nat>)
    requires j < |source| && source[j] == '}' && StateAt(source, j) == State(MaskRules.Code, Deeper(templates))
    ensures Kept(source, j) && StateAt(source, j + 1) == State(MaskRules.Code, templates)
  {
  }

  lemma TickOpens(source: string, i: nat)
    requires i < |source| && source[i] == '`' && StateAt(source, i).mode == Code
    ensures Kept(source, i) && StateAt(source, i + 1) == State(TemplateText(false), StateAt(source, i).templates + [0])
  {
  }

  lemma TickCloses(source: string, j: nat, templates: seq<nat>)
    requires j < |source| && source[j] == '`' && StateAt(source, j) == State(TemplateText(false), templates + [0])
    ensures Kept(source, j) && StateAt(source, j + 1) == State(MaskRules.Code, templates)
  {
    assert Pop(templates + [0]) == templates;
  }

  lemma ExpressionOpens(source: string, j: nat, templates: seq<nat>)
    requires j + 1 < |source| && source[j] == '$' && source[j + 1] == '{'
    requires StateAt(source, j) == State(TemplateText(false), templates + [0])
    ensures Kept(source, j) && Kept(source, j + 1) && StateAt(source, j + 2) == State(MaskRules.Code, templates + [0])
  {
    assert StateAt(source, j + 1) == State(TemplateOpen, templates + [0]);
    assert Pop(templates + [0]) == templates;
  }

  lemma ExpressionCloses(source: string, j: nat, templates: seq<nat>)
    requires j < |source| && source[j] == '}' && StateAt(source, j) == State(MaskRules.Code, templates + [0])
    ensures Kept(source, j) && StateAt(source, j + 1) == State(TemplateText(false), templates + [0])
  {
  }

  /** After a piece of code the rest follows. */
  lemma PieceThenRest(source: string, i: nat, piece: seq<bool>, rest: Code)
    requires i + |piece| <= |source| && Follows(source, i, piece) && StateAt(source, i + |piece|) == StateAt(source, i)
    requires Follows(source, i + |piece|, Keeps(rest)) && StateAt(source, i + |piece| + |Keeps(rest)|) == StateAt(source, i + |piece|)
    ensures Follows(source, i, piece + Keeps(rest))
    ensures StateAt(source, i + |piece + Keeps(rest)|) == StateAt(source, i)
  {
    hide Follows, Keeps, StateAt;
    Joined(source, i, piece, Keeps(rest));
  }

  lemma PlainAtIsInside(source: string, i: nat)
    requires i <= |source| && PlainAt(source, i)
    ensures i < |source|
  {
  }

  lemma {:induction false} CurlyFollows(source: string, flags: seq<bool>, look: nat -> bool, i: nat, inner: Code)
    requires i + 1 + |Keeps(inner)| < |source| && StateAt(source, i).mode == MaskRules.Code
    requires source[i] == '{' && IsCode(source, i + 1, inner) && source[i + 1 + |Keeps(inner)|] == '}'
    requires Ready(source, flags, look, i, [true] + Keeps(inner) + [true]) && ReadRight(look, Slashes(source, i + 1, inner))
    ensures Follows(source, i, [true] + Keeps(inner) + [true])
    ensures StateAt(source, i + |Keeps(inner)| + 2) == StateAt(source, i)
    decreases inner, 4
  {
    hide StateAt, Follows, Kept, IsCode, Keeps, Deeper, Slashes, Ready, ReadRight;
    var j := i + 1 + |Keeps(inner)|;
    BraceOpens(source, i);
    Loud(source, i);
    ReadyFirst(source, flags, look, i, [true] + Keeps(inner), [true]);
    ReadyNext(source, flags, look, i, [true], Keeps(inner));
    CodeFollows(source, flags, look, i + 1, inner);
    BraceCloses(source, j, StateAt(source, i).templates);
    Loud(source, j);
    Joined(source, i, [true], Keeps(inner));
    Joined(source, i, [true] + Keeps(inner), [true]);
  }

  /** What the first piece of code keeps; the scan is then where it was, and the rest follows. */
  ghost predicate First(source: string, i: nat, code: Code, piece: seq<bool>)
    requires !code.Done?
  {
    && |piece| == Width(code)
    && i + |piece| <= |source| && Follows(source, i, piece) && StateAt(source, i + |piece|) == StateAt(source, i)
    && Keeps(code) == piece + Keeps(code.rest) && IsCode(source, i + |piece|, code.rest)
  }

  lemma PlainFirst(source: string, i: nat, code: Code) returns (piece: seq<bool>)
    requires i <= |source| && code.Plain? && IsCode(source, i, code) && StateAt(source, i).mode == MaskRules.Code
    requires Is(source, i, '/') ==> !RegexAfter(Upto(source, i).masked)
    ensures First(source, i, code, piece)
  {
    hide StateAt, Follows, Kept, PlainAt, RegexAfter, Upto;
    piece := [true];
    PlainAtIsInside(source, i);
    PlainIsKept(source, i);
    Loud(source, i);
  }

  lemma LiteralFirst(source: string, i: nat, code: Code) returns (piece: seq<bool>)
    requires i <= |source| && code.Literal? && IsCode(source, i, code) && StateAt(source, i).mode == MaskRules.Code
    ensures First(source, i, code, piece)
  {
    hide StateAt, Follows, Kept, LiteralBody;
    piece := [true] + Blanked(code.width) + [true];
    LiteralIsMasked(source, i, i + 1 + code.width);
    Between(source, i, code.width);
  }

  lemma LineNoteParts(source: string, i: nat, code: Code)
    requires i <= |source| && code.LineNote? && IsCode(source, i, code)
    ensures var j := i + 2 + code.width;
      && j < |source| && source[i] == '/' && source[i + 1] == '/' && source[j] == '\n'
      && (forall k :: i <= k < j ==> source[k] != '\n') && IsCode(source, j + 1, code.rest)
    ensures Keeps(code) == Blanked(code.width + 2) + [true] + Keeps(code.rest)
  {
  }

  lemma LineNoteFirst(source: string, i: nat, code: Code) returns (piece: seq<bool>)
    requires i <= |source| && code.LineNote? && IsCode(source, i, code) && StateAt(source, i).mode == MaskRules.Code
    ensures First(source, i, code, piece)
  {
    hide StateAt, Follows, Kept, IsCode, Keeps;
    LineNoteParts(source, i, code);
    piece := Blanked(code.width + 2) + [true];
    LineCommentIsMasked(source, i, i + 2 + code.width);
    Silent(source, i, code.width + 2);
    Loud(source, i + 2 + code.width);
    Joined(source, i, Blanked(code.width + 2), [true]);
  }

  lemma BlockNoteParts(source: string, i: nat, code: Code)
    requires i <= |source| && code.BlockNote? && IsCode(source, i, code)
    ensures var j := i + 2 + code.width;
      && j + 1 < |source| && source[i] == '/' && source[i + 1] == '*' && source[j] == '*' && source[j + 1] == '/'
      && (forall k :: i + 2 <= k < j ==> !(source[k] == '*' && source[k + 1] == '/')) && IsCode(source, j + 2, code.rest)
    ensures Keeps(code) == Blanked(code.width + 4) + Keeps(code.rest)
  {
  }

  lemma BlockNoteFirst(source: string, i: nat, code: Code) returns (piece: seq<bool>)
    requires i <= |source| && code.BlockNote? && IsCode(source, i, code) && StateAt(source, i).mode == MaskRules.Code
    ensures First(source, i, code, piece)
  {
    hide StateAt, Follows, Kept, IsCode, Keeps;
    BlockNoteParts(source, i, code);
    piece := Blanked(code.width + 4);
    BlockCommentIsMasked(source, i, i + 2 + code.width);
    Silent(source, i, code.width + 4);
  }

  lemma PatternFirst(source: string, i: nat, code: Code) returns (piece: seq<bool>)
    requires i <= |source| && code.Pattern? && IsCode(source, i, code) && StateAt(source, i).mode == MaskRules.Code
    requires RegexAfter(Upto(source, i).masked)
    ensures First(source, i, code, piece)
  {
    hide StateAt, Follows, Kept, PatternBody, RegexAfter;
    piece := [true] + Blanked(code.width) + [true];
    PatternIsMasked(source, i, i + 1 + code.width);
    Between(source, i, code.width);
  }

  lemma CurlyParts(source: string, i: nat, code: Code)
    requires i <= |source| && code.Curly? && IsCode(source, i, code)
    ensures var j := i + 1 + |Keeps(code.inner)|;
      && j < |source| && source[i] == '{' && IsCode(source, i + 1, code.inner) && source[j] == '}' && IsCode(source, j + 1, code.rest)
    ensures Keeps(code) == [true] + Keeps(code.inner) + [true] + Keeps(code.rest)
  {
  }

  lemma {:induction false} CurlyFirst(source: string, flags: seq<bool>, look: nat -> bool, i: nat, code: Code) returns (piece: seq<bool>)
    requires i <= |source| && code.Curly? && IsCode(source, i, code) && StateAt(source, i).mode == MaskRules.Code
    requires Ready(source, flags, look, i, Keeps(code)) && ReadRight(look, FirstSlashes(source, i, code))
    ensures First(source, i, code, piece)
    decreases code, 0
  {
    hide StateAt, Follows, Kept, IsCode, Keeps, Ready, ReadRight;
    CurlyParts(source, i, code);
    piece := [true] + Keeps(code.inner) + [true];
    ReadyFirst(source, flags, look, i, piece, Keeps(code.rest));
    CurlyFollows(source, flags, look, i, code.inner);
  }

  lemma TicksParts(source: string, i: nat, code: Code)
    requires i <= |source| && code.Ticks? && IsCode(source, i, code)
    ensures var j := i + 1 + |KeepsTemplate(code.text)|;
      && i < |source| && j <= |source| && source[i] == '`' && IsTemplate(source, i + 1, code.text) && IsCode(source, j, code.rest)
    ensures Keeps(code) == [true] + KeepsTemplate(code.text) + Keeps(code.rest)
  {
  }

  lemma {:induction false} TicksFirst(source: string, flags: seq<bool>, look: nat -> bool, i: nat, code: Code) returns (piece: seq<bool>)
    requires i <= |source| && code.Ticks? && IsCode(source, i, code) && StateAt(source, i).mode == MaskRules.Code
    requires Ready(source, flags, look, i, Keeps(code)) && ReadRight(look, FirstSlashes(source, i, code))
    ensures First(source, i, code, piece)
    decreases code, 0
  {
    hide StateAt, Follows, Kept, IsCode, Keeps, KeepsTemplate, IsTemplate, Ready, ReadRight;
    TicksParts(source, i, code);
    piece := [true] + KeepsTemplate(code.text);
    TickOpens(source, i);
    Loud(source, i);
    ReadyFirst(source, flags, look, i, piece, Keeps(code.rest));
    ReadyNext(source, flags, look, i, [true], KeepsTemplate(code.text));
    TemplateFollows(source, flags, look, i + 1, code.text, StateAt(source, i).templates);
    Joined(source, i, [true], KeepsTemplate(code.text));
  }

  /** The first piece of code, when its slashes are read right. */
  lemma {:induction false} PieceFollows(source: string, flags: seq<bool>, look: nat -> bool, i: nat, code: Code) returns (piece: seq<bool>)
    requires i <= |source| && IsCode(source, i, code) && StateAt(source, i).mode == MaskRules.Code && !code.Done?
    requires Ready(source, flags, look, i, Keeps(code)) && ReadRight(look, FirstSlashes(source, i, code))
    ensures First(source, i, code, piece)
    decreases code, 1
  {
    hide *;
    match code
    case Plain(_) =>
      SlashLooked(source, flags, look, i, Keeps(code));
      PlainSlash(look, source, i, code);
      piece := PlainFirst(source, i, code);
    case Literal(_, _) => piece := LiteralFirst(source, i, code);
    case LineNote(_, _) => piece := LineNoteFirst(source, i, code);
    case BlockNote(_, _) => piece := BlockNoteFirst(source, i, code);
    case Pattern(_, _) =>
      SlashLooked(source, flags, look, i, Keeps(code));
      PatternSlash(look, source, i, code);
      piece := PatternFirst(source, i, code);
    case Curly(_, _) => piece := CurlyFirst(source, flags, look, i, code);
    case Ticks(_, _) => piece := TicksFirst(source, flags, look, i, code);
  }

  lemma PlainSlash(look: nat -> bool, source: string, i: nat, code: Code)
    requires code.Plain?
    ensures ReadRight(look, FirstSlashes(source, i, code)) <==> (Is(source, i, '/') ==> !look(i))
  {
    if Is(source, i, '/') { assert Slash(i, false) in FirstSlashes(source, i, code); }
  }

  lemma PatternSlash(look: nat -> bool, source: string, i: nat, code: Code)
    requires code.Pattern?
    ensures ReadRight(look, FirstSlashes(source, i, code)) <==> look(i)
  {
    assert Slash(i, true) in FirstSlashes(source, i, code);
  }

  lemma SlashesSplit(look: nat -> bool, source: string, i: nat, code: Code)
    requires !code.Done?
    ensures ReadRight(look, Slashes(source, i, code)) <==>
      ReadRight(look, FirstSlashes(source, i, code)) && ReadRight(look, Slashes(source, i + Width(code), code.rest))
  {
    hide FirstSlashes, Width;
  }

  /** Code whose slashes are read right is masked by its grammar, and the scan is then where it was. */
  lemma {:induction false} CodeFollows(source: string, flags: seq<bool>, look: nat -> bool, i: nat, code: Code)
    requires i <= |source| && IsCode(source, i, code) && StateAt(source, i).mode == MaskRules.Code
    requires Ready(source, flags, look, i, Keeps(code)) && ReadRight(look, Slashes(source, i, code))
    ensures Follows(source, i, Keeps(code)) && StateAt(source, i + |Keeps(code)|) == StateAt(source, i)
    decreases code, 2
  {
    hide StateAt, IsCode, Kept, Ready, ReadRight, Slashes, FirstSlashes, Width;
    if !code.Done? {
      hide Follows, Keeps;
      SlashesSplit(look, source, i, code);
      var piece := PieceFollows(source, flags, look, i, code);
      ReadyNext(source, flags, look, i, piece, Keeps(code.rest));
      CodeFollows(source, flags, look, i + |piece|, code.rest);
      PieceThenRest(source, i, piece, code.rest);
    }
  }

  lemma {:induction false} TemplateFollows(source: string, flags: seq<bool>, look: nat -> bool, i: nat, t: Template, templates: seq<nat>)
    requires i <= |source| && IsTemplate(source, i, t) && StateAt(source, i) == State(TemplateText(false), templates + [0])
    requires Ready(source, flags, look, i, KeepsTemplate(t)) && ReadRight(look, TemplateSlashes(source, i, t))
    ensures Follows(source, i, KeepsTemplate(t))
    ensures StateAt(source, i + |KeepsTemplate(t)|) == State(MaskRules.Code, templates)
    decreases t, 1
  {
    hide StateAt, Follows, Kept, Keeps, IsCode, Ready, ReadRight, Slashes;
    var j := i + t.width;
    TextBody(source, i, t);
    InsideTemplate(source, i, j);
    Silent(source, i, t.width);
    match t
    case Last(width) =>
      TickCloses(source, j, templates);
      Loud(source, j);
      Joined(source, i, Blanked(width), [true]);
    case Expression(width, inner, rest) =>
      var middle := [true, true] + Keeps(inner) + [true];
      assert KeepsTemplate(t) == Blanked(width) + (middle + KeepsTemplate(rest));
      ReadyNext(source, flags, look, i, Blanked(width), middle + KeepsTemplate(rest));
      ReadyFirst(source, flags, look, j, middle, KeepsTemplate(rest));
      ExpressionSlashes(look, source, i, t);
      ExpressionFollows(source, flags, look, j, inner, templates);
      ReadyNext(source, flags, look, j, middle, KeepsTemplate(rest));
      TemplateFollows(source, flags, look, j + |middle|, rest, templates);
      Joined(source, j, middle, KeepsTemplate(rest));
      Joined(source, i, Blanked(width), middle + KeepsTemplate(rest));
  }

  lemma ExpressionSlashes(look: nat -> bool, source: string, i: nat, t: Template)
    requires t.Expression?
    ensures ReadRight(look, TemplateSlashes(source, i, t)) <==>
      && ReadRight(look, Slashes(source, i + t.width + 2, t.inner))
      && ReadRight(look, TemplateSlashes(source, i + t.width + 3 + |Keeps(t.inner)|, t.rest))
  {
    hide Slashes, Keeps;
  }

  lemma TextBody(source: string, i: nat, t: Template)
    requires i <= |source| && IsTemplate(source, i, t)
    ensures i + t.width < |source| && TemplateBody(source, i, i + t.width)
  {
  }

  lemma {:induction false} ExpressionFollows(source: string, flags: seq<bool>, look: nat -> bool, j: nat, inner: Code, templates: seq<nat>)
    requires j + 2 + |Keeps(inner)| < |source| && StateAt(source, j) == State(TemplateText(false), templates + [0])
    requires source[j] == '$' && source[j + 1] == '{' && IsCode(source, j + 2, inner) && source[j + 2 + |Keeps(inner)|] == '}'
    requires Ready(source, flags, look, j, [true, true] + Keeps(inner) + [true]) && ReadRight(look, Slashes(source, j + 2, inner))
    ensures Follows(source, j, [true, true] + Keeps(inner) + [true])
    ensures StateAt(source, j + 3 + |Keeps(inner)|) == State(TemplateText(false), templates + [0])
    decreases inner, 4
  {
    hide StateAt, Follows, Kept, IsCode, Keeps, Ready, ReadRight, Slashes;
    var end := j + 2 + |Keeps(inner)|;
    ExpressionOpens(source, j, templates);
    Loud(source, j);
    Loud(source, j + 1);
    Joined(source, j, [true], [true]);
    assert [true] + [true] == [true, true];
    ReadyFirst(source, flags, look, j, [true, true] + Keeps(inner), [true]);
    ReadyNext(source, flags, look, j, [true, true], Keeps(inner));
    CodeFollows(source, flags, look, j + 2, inner);
    ExpressionCloses(source, end, templates);
    Loud(source, end);
    Joined(source, j, [true, true], Keeps(inner));
    Joined(source, j, [true, true] + Keeps(inner), [true]);
  }

  // -- when the mask follows ------------------------------------------------------------------

  /** Behind each slash that divides its line goes on. */
  predicate LineGoesOn(source: string, slashes: set<Slash>) {
    forall s :: s in slashes && !s.regex ==> s.at + 1 < |source| && source[s.at + 1] != '\n'
  }

  lemma MisreadDivision(source: string, i: nat)
    requires i + 1 < |source| && source[i] == '/' && source[i + 1] !in {'/', '*', '\n'}
    requires StateAt(source, i).mode == MaskRules.Code && RegexAfter(Upto(source, i).masked)
    ensures !Kept(source, i + 1)
  {
    assert StateAt(source, i + 1).mode == Regex(false, false);
  }

  lemma MisreadPattern(source: string, i: nat)
    requires i + 1 < |source| && source[i] == '/' && source[i + 1] !in {'/', '*'}
    requires StateAt(source, i).mode == MaskRules.Code && !RegexAfter(Upto(source, i).masked)
    ensures Kept(source, i + 1)
  {
    assert StateAt(source, i + 1) == StateAt(source, i);
  }

  /** Code that does not start with a comment starts with something kept. */
  lemma StartsKept(source: string, i: nat, code: Code)
    requires i < |source| && IsCode(source, i, code) && !code.Done? && source[i] != '/'
    ensures |Keeps(code)| > 0 && Keeps(code)[0]
  {
  }

  lemma SecondFlag(source: string, flags: seq<bool>, look: nat -> bool, i: nat, code: Code)
    requires Ready(source, flags, look, i, Keeps(code)) && !code.Done? && |Keeps(code)| > 1
    ensures i + 1 < |source| && flags[i + 1] == Keeps(code)[1]
  {
    hide Keeps, Agrees, Trusted;
    assert flags[i..i + |Keeps(code)|][1] == flags[i + 1];
  }

  lemma PlainOnlyIf(source: string, flags: seq<bool>, look: nat -> bool, i: nat, code: Code)
    requires i <= |source| && code.Plain? && IsCode(source, i, code) && StateAt(source, i).mode == MaskRules.Code
    requires Ready(source, flags, look, i, Keeps(code)) && Agrees(source, flags, |source|)
    requires i + |Keeps(code)| < |source| ==> flags[i + |Keeps(code)|]
    requires LineGoesOn(source, FirstSlashes(source, i, code))
    ensures ReadRight(look, FirstSlashes(source, i, code))
  {
    hide StateAt, Kept, Ready, ReadRight, RegexAfter, Upto, Trusted;
    PlainSlash(look, source, i, code);
    if Is(source, i, '/') && look(i) {
      assert Slash(i, false) in FirstSlashes(source, i, code);
      SlashLooked(source, flags, look, i, Keeps(code));
      MisreadDivision(source, i);
      if !code.rest.Done? {
        StartsKept(source, i + 1, code.rest);
        SecondFlag(source, flags, look, i, code);
      }
    }
  }

  lemma PatternParts(source: string, i: nat, code: Code)
    requires i <= |source| && code.Pattern? && IsCode(source, i, code)
    ensures i + 1 < |source| && source[i] == '/' && source[i + 1] !in {'/', '*'}
    ensures |Keeps(code)| > 1 && !Keeps(code)[1]
  {
    assert code.width > 0;
  }

  lemma PatternOnlyIf(source: string, flags: seq<bool>, look: nat -> bool, i: nat, code: Code)
    requires code.Pattern? && i <= |source| && IsCode(source, i, code) && StateAt(source, i).mode == MaskRules.Code
    requires Ready(source, flags, look, i, Keeps(code)) && Agrees(source, flags, |source|)
    ensures ReadRight(look, FirstSlashes(source, i, code))
  {
    hide StateAt, Kept, Ready, ReadRight, RegexAfter, Upto, Trusted, Keeps, IsCode;
    PatternSlash(look, source, i, code);
    PatternParts(source, i, code);
    if !look(i) {
      SlashLooked(source, flags, look, i, Keeps(code));
      MisreadPattern(source, i);
      SecondFlag(source, flags, look, i, code);
    }
  }

  lemma LastFlag(source: string, flags: seq<bool>, look: nat -> bool, i: nat, keeps: seq<bool>)
    requires Ready(source, flags, look, i, keeps + [true])
    ensures i + |keeps| < |source| && flags[i + |keeps|]
  {
    hide Agrees, Trusted;
    assert flags[i..i + |keeps + [true]|][|keeps|] == flags[i + |keeps|];
  }

  lemma {:induction false} CurlyOnlyIf(source: string, flags: seq<bool>, look: nat -> bool, i: nat, code: Code)
    requires code.Curly? && i <= |source| && IsCode(source, i, code) && StateAt(source, i).mode == MaskRules.Code
    requires Ready(source, flags, look, i, Keeps(code)) && Agrees(source, flags, |source|)
    requires LineGoesOn(source, FirstSlashes(source, i, code))
    ensures ReadRight(look, FirstSlashes(source, i, code))
    decreases code, 0
  {
    hide StateAt, Follows, Kept, IsCode, Keeps, Ready, ReadRight, Deeper, Slashes, LineGoesOn;
    CurlyParts(source, i, code);
    ReadyFirst(source, flags, look, i, [true] + Keeps(code.inner) + [true], Keeps(code.rest));
    LastFlag(source, flags, look, i, [true] + Keeps(code.inner));
    ReadyFirst(source, flags, look, i, [true] + Keeps(code.inner), [true]);
    BraceOpens(source, i);
    Loud(source, i);
    ReadyNext(source, flags, look, i, [true], Keeps(code.inner));
    OnlyIfRead(source, flags, look, i + 1, code.inner);
  }

  lemma {:induction false} TicksOnlyIf(source: string, flags: seq<bool>, look: nat -> bool, i: nat, code: Code)
    requires code.Ticks? && i <= |source| && IsCode(source, i, code) && StateAt(source, i).mode == MaskRules.Code
    requires Ready(source, flags, look, i, Keeps(code)) && Agrees(source, flags, |source|)
    requires LineGoesOn(source, FirstSlashes(source, i, code))
    ensures ReadRight(look, FirstSlashes(source, i, code))
    decreases code, 0
  {
    hide StateAt, Follows, Kept, IsCode, Keeps, KeepsTemplate, IsTemplate, Ready, ReadRight, TemplateSlashes, LineGoesOn;
    TicksParts(source, i, code);
    ReadyFirst(source, flags, look, i, [true] + KeepsTemplate(code.text), Keeps(code.rest));
    TickOpens(source, i);
    Loud(source, i);
    ReadyNext(source, flags, look, i, [true], KeepsTemplate(code.text));
    TemplateOnlyIf(source, flags, look, i + 1, code.text, StateAt(source, i).templates);
  }

  lemma NothingRead(look: nat -> bool, source: string, i: nat, code: Code)
    requires code.Literal? || code.LineNote? || code.BlockNote?
    ensures ReadRight(look, FirstSlashes(source, i, code))
  {
  }

  lemma GoesOnSplit(source: string, i: nat, code: Code)
    requires !code.Done? && LineGoesOn(source, Slashes(source, i, code))
    ensures LineGoesOn(source, FirstSlashes(source, i, code)) && LineGoesOn(source, Slashes(source, i + Width(code), code.rest))
  {
    hide FirstSlashes, Width;
  }

  /** Where the mask follows the grammar to the end of the text, the scan has read every slash as the grammar does. */
  lemma {:induction false} OnlyIfRead(source: string, flags: seq<bool>, look: nat -> bool, i: nat, code: Code)
    requires i <= |source| && IsCode(source, i, code) && StateAt(source, i).mode == MaskRules.Code
    requires Ready(source, flags, look, i, Keeps(code)) && Agrees(source, flags, |source|)
    requires i + |Keeps(code)| < |source| ==> flags[i + |Keeps(code)|]
    requires LineGoesOn(source, Slashes(source, i, code))
    ensures ReadRight(look, Slashes(source, i, code))
    decreases code, 2
  {
    hide StateAt, IsCode, Kept, Ready, ReadRight, FirstSlashes, Width, LineGoesOn, Agrees, Follows, Keeps;
    if code.Done? {
      assert ReadRight(look, {}) by { NoSlashes(look); }
    } else {
      hide Slashes;
      GoesOnSplit(source, i, code);
      FirstOnlyIf(source, flags, look, i, code);
      SlashesSplit(look, source, i, code);
      var piece := PieceFollows(source, flags, look, i, code);
      ReadyNext(source, flags, look, i, piece, Keeps(code.rest));
      OnlyIfRead(source, flags, look, i + |piece|, code.rest);
    }
  }

  lemma NoSlashes(look: nat -> bool)
    ensures ReadRight(look, {})
  {
  }

  lemma {:induction false} FirstOnlyIf(source: string, flags: seq<bool>, look: nat -> bool, i: nat, code: Code)
    requires i <= |source| && IsCode(source, i, code) && StateAt(source, i).mode == MaskRules.Code && !code.Done?
    requires Ready(source, flags, look, i, Keeps(code)) && Agrees(source, flags, |source|)
    requires i + |Keeps(code)| < |source| ==> flags[i + |Keeps(code)|]
    requires LineGoesOn(source, FirstSlashes(source, i, code))
    ensures ReadRight(look, FirstSlashes(source, i, code))
    decreases code, 1
  {
    hide *;
    match code
    case Plain(_) => PlainOnlyIf(source, flags, look, i, code);
    case Pattern(_, _) => PatternOnlyIf(source, flags, look, i, code);
    case Curly(_, _) => CurlyOnlyIf(source, flags, look, i, code);
    case Ticks(_, _) => TicksOnlyIf(source, flags, look, i, code);
    case _ => NothingRead(look, source, i, code);
  }

  lemma TemplateGoesOn(source: string, i: nat, t: Template)
    requires t.Expression? && LineGoesOn(source, TemplateSlashes(source, i, t))
    ensures LineGoesOn(source, Slashes(source, i + t.width + 2, t.inner))
    ensures LineGoesOn(source, TemplateSlashes(source, i + t.width + 3 + |Keeps(t.inner)|, t.rest))
  {
    hide Slashes, Keeps;
  }

  lemma ExpressionParts(source: string, i: nat, t: Template)
    requires i <= |source| && t.Expression? && IsTemplate(source, i, t)
    ensures var j := i + t.width; var end := j + 2 + |Keeps(t.inner)|;
      && end < |source| && source[j] == '$' && source[j + 1] == '{' && source[end] == '}'
      && IsCode(source, j + 2, t.inner) && IsTemplate(source, end + 1, t.rest)
    ensures KeepsTemplate(t) == Blanked(t.width) + ([true, true] + Keeps(t.inner) + [true] + KeepsTemplate(t.rest))
  {
    hide IsCode, Keeps;
    assert KeepsTemplate(t) == Blanked(t.width) + [true, true] + Keeps(t.inner) + [true] + KeepsTemplate(t.rest);
  }

  lemma {:induction false} TemplateOnlyIf(source: string, flags: seq<bool>, look: nat -> bool, i: nat, t: Template, templates: seq<nat>)
    requires i <= |source| && IsTemplate(source, i, t) && StateAt(source, i) == State(TemplateText(false), templates + [0])
    requires Ready(source, flags, look, i, KeepsTemplate(t)) && Agrees(source, flags, |source|)
    requires LineGoesOn(source, TemplateSlashes(source, i, t))
    ensures ReadRight(look, TemplateSlashes(source, i, t))
    decreases t, 1
  {
    hide StateAt, Follows, Kept, Keeps, IsCode, Ready, ReadRight, Slashes, LineGoesOn, Agrees, IsTemplate, KeepsTemplate;
    if t.Last? {
      NoSlashes(look);
    } else {
      hide TemplateSlashes;
      var j := i + t.width;
      var middle := [true, true] + Keeps(t.inner) + [true];
      TextBody(source, i, t);
      InsideTemplate(source, i, j);
      Silent(source, i, t.width);
      ExpressionParts(source, i, t);
      TemplateGoesOn(source, i, t);
      ReadyNext(source, flags, look, i, Blanked(t.width), middle + KeepsTemplate(t.rest));
      ReadyFirst(source, flags, look, j, middle, KeepsTemplate(t.rest));
      ExpressionOnlyIf(source, flags, look, j, t.inner, templates);
      ExpressionFollows(source, flags, look, j, t.inner, templates);
      ReadyNext(source, flags, look, j, middle, KeepsTemplate(t.rest));
      TemplateOnlyIf(source, flags, look, j + |middle|, t.rest, templates);
      ExpressionSlashes(look, source, i, t);
    }
  }

  lemma {:induction false} ExpressionOnlyIf(source: string, flags: seq<bool>, look: nat -> bool, j: nat, inner: Code, templates: seq<nat>)
    requires j + 2 + |Keeps(inner)| < |source| && StateAt(source, j) == State(TemplateText(false), templates + [0])
    requires source[j] == '$' && source[j + 1] == '{' && IsCode(source, j + 2, inner)
    requires Ready(source, flags, look, j, [true, true] + Keeps(inner) + [true]) && Agrees(source, flags, |source|)
    requires LineGoesOn(source, Slashes(source, j + 2, inner))
    ensures ReadRight(look, Slashes(source, j + 2, inner))
    decreases inner, 4
  {
    hide StateAt, Follows, Kept, IsCode, Keeps, Ready, ReadRight, Slashes, LineGoesOn, Agrees;
    ExpressionOpens(source, j, templates);
    Loud(source, j);
    Loud(source, j + 1);
    Joined(source, j, [true], [true]);
    assert [true] + [true] == [true, true];
    LastFlag(source, flags, look, j, [true, true] + Keeps(inner));
    ReadyFirst(source, flags, look, j, [true, true] + Keeps(inner), [true]);
    ReadyNext(source, flags, look, j, [true, true], Keeps(inner));
    OnlyIfRead(source, flags, look, j + 2, inner);
  }

  // -- whole texts --------------------------------------------------------------------------------

  /** `source` is this code from end to end. */
  predicate Parses(source: string, code: Code) {
    IsCode(source, 0, code) && |Keeps(code)| == |source|
  }

  /** What the grammar keeps before each slash expects an operand where a regular expression starts, and only there. */
  ghost predicate SlashesClear(source: string, code: Code) {
    ReadRight(Expects(source, Keeps(code)), Slashes(source, 0, code))
  }

  lemma StartIsReady(source: string, code: Code)
    requires Parses(source, code)
    ensures Ready(source, Keeps(code), Expects(source, Keeps(code)), 0, Keeps(code))
    ensures StateAt(source, 0).mode == MaskRules.Code
  {
    hide IsCode, Keeps, Expects, Trusted, Kept;
    LookbackIsTrusted(source, Keeps(code));
    assert Keeps(code)[0..|Keeps(code)|] == Keeps(code);
  }

  /** The mask of a text that is code, its slashes clear, keeps exactly what its grammar says is code. */
  lemma TextIsMasked(source: string, code: Code)
    requires Parses(source, code) && SlashesClear(source, code)
    ensures |MaskOf(source)| == |source|
    ensures forall k :: 0 <= k < |source| ==> Kept(source, k) == Keeps(code)[k]
    ensures MaskOf(source) == Shown(source, Keeps(code), |source|)
  {
    hide IsCode, Keeps, Kept, Expects, Ready, ReadRight, Slashes;
    StartIsReady(source, code);
    CodeFollows(source, Keeps(code), Expects(source, Keeps(code)), 0, code);
    MaskIsPointwise(source);
  }

  /**
   * The mask keeps exactly what the grammar says if and only if what stands
   * before each slash tells the divisions from the regular expressions.
   */
  lemma MaskedIffClear(source: string, code: Code)
    requires Parses(source, code) && LineGoesOn(source, Slashes(source, 0, code))
    ensures (forall k :: 0 <= k < |source| ==> Kept(source, k) == Keeps(code)[k]) <==> SlashesClear(source, code)
  {
    hide IsCode, Keeps, Kept, Expects, Ready, ReadRight, Slashes, LineGoesOn, SlashesClear;
    if SlashesClear(source, code) { TextIsMasked(source, code); }
    if forall k :: 0 <= k < |source| ==> Kept(source, k) == Keeps(code)[k] {
      StartIsReady(source, code);
      assert Agrees(source, Keeps(code), |source|);
      OnlyIfRead(source, Keeps(code), Expects(source, Keeps(code)), 0, code);
      assert SlashesClear(source, code) by { ClearMeans(source, code); }
    }
  }

  lemma ClearMeans(source: string, code: Code)
    ensures SlashesClear(source, code) <==> ReadRight(Expects(source, Keeps(code)), Slashes(source, 0, code))
  {
  }

  // -- code in the middle of a text ------------------------------------------------------------------

  /** Where an operand is expected by what stands before in the text as masked so far. */
  ghost function ExpectsMasked(source: string): nat -> bool {
    (p: nat) => p <= |source| && OperandExpected(Upto(source, p).masked)
  }

  lemma MaskedIsTrusted(source: string, flags: seq<bool>)
    ensures Trusted(source, flags, ExpectsMasked(source))
  {
    hide RegexAfter, OperandExpected, Upto, Kept;
    forall p: nat | Agrees(source, flags, p) ensures ExpectsMasked(source)(p) == RegexAfter(Upto(source, p).masked) {
      LookbackMeans(Upto(source, p).masked);
    }
  }

  /** What the mask keeps up to `n`. */
  function KeptUpto(source: string, n: nat): (r: seq<bool>)
    requires n <= |source|
    ensures |r| == n && forall k :: 0 <= k < n ==> r[k] == Kept(source, k)
  {
    seq(n, k requires 0 <= k < n => Kept(source, k))
  }

  lemma InTheMiddle(source: string, i: nat, keeps: seq<bool>)
    requires i + |keeps| <= |source|
    ensures exists flags :: Ready(source, flags, ExpectsMasked(source), i, keeps)
  {
    hide Kept, Trusted, ExpectsMasked;
    var flags := KeptUpto(source, i) + keeps + seq(|source| - i - |keeps|, k => false);
    assert flags[i..i + |keeps|] == keeps;
    assert Agrees(source, flags, i);
    MaskedIsTrusted(source, flags);
    assert Ready(source, flags, ExpectsMasked(source), i, keeps);
  }

  lemma RestIsCode(source: string, i: nat, code: Code)
    requires i <= |source| && IsCode(source, i, code) && !code.Done?
    ensures i + Width(code) <= |source| && IsCode(source, i + Width(code), code.rest)
  {
    hide PatternBody, LiteralBody, IsTemplate, Keeps, KeepsTemplate, PlainAt;
    match code
    case Plain(_) => PlainAtIsInside(source, i);
    case _ =>
  }

  lemma {:induction false} CodeFits(source: string, i: nat, code: Code)
    requires i <= |source| && IsCode(source, i, code)
    ensures i + |Keeps(code)| <= |source|
    decreases code
  {
    hide IsCode, Width;
    if !code.Done? {
      hide Keeps;
      RestIsCode(source, i, code);
      CodeFits(source, i + Width(code), code.rest);
    }
  }

  /**
   * From wherever the scan is in code: code whose slashes it reads right keeps
   * what its grammar says, and the scan is then where it was, at any depth of
   * templates and braces.
   */
  lemma CodeIsMasked(source: string, i: nat, code: Code)
    requires i <= |source| && IsCode(source, i, code) && StateAt(source, i).mode == MaskRules.Code
    requires ReadRight(ExpectsMasked(source), Slashes(source, i, code))
    ensures Follows(source, i, Keeps(code)) && StateAt(source, i + |Keeps(code)|) == StateAt(source, i)
  {
    CodeFits(source, i, code);
    hide IsCode, Keeps, Kept, Ready, ReadRight, Slashes, ExpectsMasked, StateAt, Follows;
    InTheMiddle(source, i, Keeps(code));
    var flags :| Ready(source, flags, ExpectsMasked(source), i, Keeps(code));
    CodeFollows(source, flags, ExpectsMasked(source), i, code);
  }

  // -- one slash --------------------------------------------------------------------------------------

  /** The body of a regular expression is blank if and only if an operand is expected before its slash. */
  lemma SlashDecides(source: string, i: nat, j: nat)
    requires i + 1 < j < |source| && StateAt(source, i).mode == MaskRules.Code
    requires source[i] == '/' && source[i + 1] != '*' && source[j] == '/' && PatternBody(source, i + 1, j, false)
    ensures (forall k :: i < k < j ==> !Kept(source, k)) <==> OperandExpected(Upto(source, i).masked)
  {
    hide Kept, StateAt, RegexAfter, OperandExpected, Upto;
    LookbackMeans(Upto(source, i).masked);
    BodyStart(source, i + 1, j);
    if RegexAfter(Upto(source, i).masked) {
      PatternIsMasked(source, i, j);
    } else {
      MisreadPattern(source, i);
    }
  }

  lemma BodyStart(source: string, from: nat, end: nat)
    requires from < end <= |source| && PatternBody(source, from, end, false)
    ensures source[from] != '/'
  {
  }
}
