/**
 * Path filters of the release workflow: a glob is compiled to the text of a
 * regular expression, and the last pattern that matches a path decides.
 */
module Globs {
  import opened JsonValues

  // -- regular expressions (ECMA-262, section 22.2.1) ------------------------------------

  datatype Class = Exactly(c: char) | AnyButNewline | AnyButSlash

  datatype Atom = One(only: Class) | Group(terms: seq<Term>)

  datatype Term = Once(atom: Atom) | Many(atom: Atom) | Maybe(atom: Atom)

  predicate Newline(c: char) {
    c == '\n' || c == '\r' || c == '\U{2028}' || c == '\U{2029}'
  }

  predicate In(c: char, only: Class) {
    match only
    case Exactly(d) => c == d
    case AnyButNewline => !Newline(c)
    case AnyButSlash => c != '/'
  }

  predicate MatchAtom(a: Atom, s: string)
    decreases a, |s|
  {
    match a
    case One(only) => |s| == 1 && In(s[0], only)
    case Group(terms) => MatchAll(terms, s)
  }

  predicate MatchTerm(t: Term, s: string)
    decreases t, |s|
  {
    match t
    case Once(a) => MatchAtom(a, s)
    case Many(a) => s == "" || exists k :: 0 < k <= |s| && MatchAtom(a, s[..k]) && MatchTerm(t, s[k..])
    case Maybe(a) => s == "" || MatchAtom(a, s)
  }

  predicate MatchAll(ts: seq<Term>, s: string)
    decreases ts, |s|
  {
    if ts == [] then s == ""
    else exists k :: 0 <= k <= |s| && MatchTerm(ts[0], s[..k]) && MatchAll(ts[1..], s[k..])
  }

  predicate Quantifier(c: char) {
    c == '*' || c == '?' || c == '+' || c == '{'
  }

  predicate SyntaxCharacter(c: char) {
    c in {'^', '$', '\\', '.', '*', '+', '?', '(', ')', '[', ']', '{', '}', '|'}
  }

  datatype Parsed<T> = Fail | Read(value: T, rest: string)

  function ParseAtom(text: string): (r: Parsed<Atom>)
    ensures r.Read? ==> |r.rest| < |text|
    decreases |text|, 0
  {
    if text == "" then Fail
    else if "(?:" <= text then
      var inner := ParseTerms(text[3..]);
      if inner.Read? && inner.rest != "" && inner.rest[0] == ')' then Read(Group(inner.value), inner.rest[1..]) else Fail
    else if "[^/]" <= text then Read(One(AnyButSlash), text[4..])
    else if text[0] == '.' then Read(One(AnyButNewline), text[1..])
    else if text[0] == '\\' then
      if |text| > 1 && (SyntaxCharacter(text[1]) || text[1] == '/') then Read(One(Exactly(text[1])), text[2..]) else Fail
    else if SyntaxCharacter(text[0]) then Fail
    else Read(One(Exactly(text[0])), text[1..])
  }

  function ParseTerm(text: string): (r: Parsed<Term>)
    ensures r.Read? ==> |r.rest| < |text|
    decreases |text|, 1
  {
    var a := ParseAtom(text);
    if a.Fail? then Fail
    else if a.rest != "" && a.rest[0] == '*' then Quantified(Many(a.value), a.rest[1..])
    else if a.rest != "" && a.rest[0] == '?' then Quantified(Maybe(a.value), a.rest[1..])
    else Quantified(Once(a.value), a.rest)
  }

  /** A quantifier is not itself quantified; a lazy one is outside this grammar. */
  function Quantified(t: Term, rest: string): Parsed<Term> {
    if rest != "" && Quantifier(rest[0]) then Fail else Read(t, rest)
  }

  /** Terms up to the end, a `)` or a `$`. */
  function ParseTerms(text: string): (r: Parsed<seq<Term>>)
    ensures r.Read? ==> |r.rest| <= |text|
    decreases |text|, 2
  {
    if text == "" || text[0] == ')' || text[0] == '$' then Read([], text)
    else
      var t := ParseTerm(text);
      if t.Fail? then Fail
      else
        var ts := ParseTerms(t.rest);
        if ts.Fail? then Fail else Read([t.value] + ts.value, ts.rest)
  }

  /** What `new RegExp(pattern).test(s)` answers for a pattern of the form `^...$`. */
  predicate Tests(pattern: string, s: string) {
    && "^" <= pattern
    && var r := ParseTerms(pattern[1..]);
       r.Read? && r.rest == "$" && MatchAll(r.value, s)
  }

  // -- globs ---------------------------------------------------------------------------------

  /**
   * What a glob means: `**` spans directories, `**` with a slash after it is
   * any directories or none, `*` and `?` stay inside one name.
   */
  predicate GlobMatches(glob: string, path: string)
    decreases |glob|
  {
    if glob == "" then path == ""
    else if "**/" <= glob then
      exists k :: 0 <= k <= |path| && (k == 0 || path[k - 1] == '/') && GlobMatches(glob[3..], path[k..])
    else if "**" <= glob then exists k :: 0 <= k <= |path| && GlobMatches(glob[2..], path[k..])
    else if glob[0] == '*' then
      exists k :: 0 <= k <= |path| && (forall j :: 0 <= j < k ==> path[j] != '/') && GlobMatches(glob[1..], path[k..])
    else if glob[0] == '?' then path != "" && path[0] != '/' && GlobMatches(glob[1..], path[1..])
    else path != "" && path[0] == glob[0] && GlobMatches(glob[1..], path[1..])
  }

  predicate Escaped(c: char) {
    c in {'.', '+', '^', '$', '{', '}', '(', ')', '|', '[', ']', '\\'}
  }

  function Literal(c: char): string {
    if Escaped(c) then ['\\', c] else [c]
  }

  /** How many characters of the glob the next piece takes. */
  function Width(glob: string): nat
    requires glob != ""
    ensures 0 < Width(glob) <= |glob|
  {
    if "**/" <= glob then 3 else if "**" <= glob then 2 else 1
  }

  function Piece(glob: string): string
    requires glob != ""
  {
    if "**/" <= glob then "(?:.*/)?"
    else if "**" <= glob then ".*"
    else if glob[0] == '*' then "[^/]*"
    else if glob[0] == '?' then "[^/]"
    else Literal(glob[0])
  }

  function Compiled(glob: string): string {
    if glob == "" then "" else Piece(glob) + Compiled(glob[Width(glob)..])
  }

  lemma Stars(rest: string)
    ensures "**" <= rest <==> |rest| >= 2 && rest[0] == '*' && rest[1] == '*'
    ensures "**/" <= rest <==> |rest| >= 3 && rest[0] == '*' && rest[1] == '*' && rest[2] == '/'
  {
    if |rest| >= 2 && rest[0] == '*' && rest[1] == '*' { assert rest[..2] == "**"; }
    if |rest| >= 3 && rest[0] == '*' && rest[1] == '*' && rest[2] == '/' { assert rest[..3] == "**/"; }
  }

  lemma {:induction false} PieceFrom(rest: string)
    requires rest != ""
    ensures var twice := |rest| >= 2 && rest[0] == '*' && rest[1] == '*';
      var slash := |rest| >= 3 && rest[2] == '/';
      && Width(rest) == (if twice then (if slash then 3 else 2) else 1)
      && Piece(rest) ==
        if twice then (if slash then "(?:.*/)?" else ".*")
        else if rest[0] == '*' then "[^/]*"
        else if rest[0] == '?' then "[^/]"
        else Literal(rest[0])
  {
    hide Literal;
    Stars(rest);
  }

  lemma {:induction false} CompiledFrom(glob: string, i: nat)
    requires i < |glob|
    ensures var twice := glob[i] == '*' && i + 1 < |glob| && glob[i + 1] == '*';
      var slash := i + 2 < |glob| && glob[i + 2] == '/';
      var width := if twice then (if slash then 3 else 2) else 1;
      var piece :=
        if twice then (if slash then "(?:.*/)?" else ".*")
        else if glob[i] == '*' then "[^/]*"
        else if glob[i] == '?' then "[^/]"
        else Literal(glob[i]);
      Compiled(glob[i..]) == piece + Compiled(glob[i + width..])
  {
    hide Literal, Piece, Width;
    var rest := glob[i..];
    PieceFrom(rest);
    assert rest[Width(rest)..] == glob[i + Width(rest)..];
  }

  method GlobToRegExp(glob: string) returns (pattern: string)
    ensures pattern == "^" + Compiled(glob) + "$"
  {
    hide Compiled, Literal;
    var out := "";
    var i := 0;
    while i < |glob|
      invariant 0 <= i <= |glob|
      invariant out + Compiled(glob[i..]) == Compiled(glob)
    {
      CompiledFrom(glob, i);
      var ch := glob[i];
      if ch == '*' && i + 1 < |glob| && glob[i + 1] == '*' {
        if i + 2 < |glob| && glob[i + 2] == '/' {
          out := out + "(?:.*/)?";
          i := i + 2;
        } else {
          out := out + ".*";
          i := i + 1;
        }
      } else if ch == '*' {
        out := out + "[^/]*";
      } else if ch == '?' {
        out := out + "[^/]";
      } else {
        out := out + Literal(ch);
      }
      i := i + 1;
    }
    NothingCompiled();
    assert glob[i..] == "";
    pattern := "^" + out + "$";
  }

  lemma {:induction false} NothingCompiled()
    ensures Compiled("") == ""
  {
  }

  // -- the compiled text reads back -----------------------------------------------------------

  const ANY_DIRECTORIES := Maybe(Group([Many(One(AnyButNewline)), Once(One(Exactly('/')))]))

  function PieceTerm(glob: string): Term
    requires glob != ""
  {
    if "**/" <= glob then ANY_DIRECTORIES
    else if "**" <= glob then Many(One(AnyButNewline))
    else if glob[0] == '*' then Many(One(AnyButSlash))
    else if glob[0] == '?' then Once(One(AnyButSlash))
    else Once(One(Exactly(glob[0])))
  }

  function Terms(glob: string): seq<Term> {
    if glob == "" then [] else [PieceTerm(glob)] + Terms(glob[Width(glob)..])
  }

  /** A text that can follow a term without changing it. */
  predicate Follows(tail: string) {
    tail != "" && !Quantifier(tail[0])
  }

  lemma Unlike(a: string, b: string)
    requires a != "" && b != "" && a[0] != b[0]
    ensures !(a <= b)
  {
  }

  lemma ReadRun(tail: string)
    requires Follows(tail)
    ensures ParseTerm(".*" + tail) == Read(Many(One(AnyButNewline)), tail)
  {
    var text := ".*" + tail;
    assert text[1..] == "*" + tail && text[1..][1..] == tail;
    Unlike("(?:", text);
    Unlike("[^/]", text);
    assert ParseAtom(text) == Read(One(AnyButNewline), text[1..]);
  }

  lemma ReadPlain(c: char, tail: string)
    requires Follows(tail) && !SyntaxCharacter(c)
    ensures ParseTerm([c] + tail) == Read(Once(One(Exactly(c))), tail)
  {
    assert ([c] + tail)[1..] == tail;
    assert ParseAtom([c] + tail) == Read(One(Exactly(c)), tail);
  }

  lemma {:induction false} ReadOne(text: string, t: Term, rest: string, ts: seq<Term>, end: string)
    requires text != "" && text[0] != ')' && text[0] != '$'
    requires ParseTerm(text) == Read(t, rest) && ParseTerms(rest) == Read(ts, end)
    ensures ParseTerms(text) == Read([t] + ts, end)
  {
    hide ParseTerm;
  }

  lemma {:induction false} ReadNone(text: string)
    requires text != "" && text[0] == ')'
    ensures ParseTerms(text) == Read([], text)
  {
  }

  lemma {:induction false} ReadGroup(inner: string, tail: string, ts: seq<Term>)
    requires Follows(tail) && ParseTerms(inner) == Read(ts, ")?" + tail)
    ensures ParseTerm("(?:" + inner) == Read(Maybe(Group(ts)), tail)
  {
    hide ParseTerms;
    var text, close := "(?:" + inner, ")?" + tail;
    assert text[3..] == inner && close[1..] == "?" + tail && close[1..][1..] == tail;
    assert ParseAtom(text) == Read(Group(ts), close[1..]);
  }

  lemma ReadDirectories(tail: string)
    requires Follows(tail)
    ensures ParseTerm("(?:.*/)?" + tail) == Read(ANY_DIRECTORIES, tail)
  {
    hide ParseTerm, ParseTerms;
    var run, slash := Many(One(AnyButNewline)), Once(One(Exactly('/')));
    var close := ")?" + tail;
    var mid := ['/'] + close;
    var inner := ".*" + mid;
    assert [slash] + [] == [slash] && [run] + [slash] == [run, slash];
    ReadNone(close);
    ReadPlain('/', close);
    ReadOne(mid, slash, close, [], close);
    ReadRun(mid);
    ReadOne(inner, run, mid, [slash], close);
    ReadGroup(inner, tail, [run, slash]);
    assert "(?:" + inner == "(?:.*/)?" + tail;
  }

  /** Each piece reads back as its term, whatever follows. */
  lemma ReadPiece(glob: string, tail: string)
    requires glob != "" && Follows(tail)
    ensures ParseTerm(Piece(glob) + tail) == Read(PieceTerm(glob), tail)
  {
    if "**/" <= glob {
      ReadDirectories(tail);
    } else if "**" <= glob {
      ReadRun(tail);
    } else if glob[0] == '*' {
      var text := "[^/]*" + tail;
      assert text[4..] == "*" + tail && text[4..][1..] == tail;
    } else if glob[0] == '?' {
      var text := "[^/]" + tail;
      assert text[4..] == tail;
    } else if Escaped(glob[0]) {
      var text := ['\\', glob[0]] + tail;
      assert text[2..] == tail;
    } else {
      ReadPlain(glob[0], tail);
    }
  }

  lemma PieceStarts(glob: string)
    requires glob != ""
    ensures Piece(glob) != "" && !Quantifier(Piece(glob)[0]) && Piece(glob)[0] != ')' && Piece(glob)[0] != '$'
  {
  }

  /** The compiled text is read as exactly the terms the glob stands for: the escaping is exact. */
  lemma {:induction false} CompiledReadsBack(glob: string)
    ensures ParseTerms(Compiled(glob) + "$") == Read(Terms(glob), "$")
    decreases |glob|
  {
    hide ParseTerm;
    if glob != "" {
      var rest := glob[Width(glob)..];
      var tail := Compiled(rest) + "$";
      CompiledReadsBack(rest);
      if rest != "" { PieceStarts(rest); }
      PieceStarts(glob);
      ReadPiece(glob, tail);
      assert Compiled(glob) + "$" == Piece(glob) + tail;
    }
  }

  // -- and matches what the glob does ------------------------------------------------------------

  predicate OneLine(path: string) {
    forall i :: 0 <= i < |path| ==> !Newline(path[i])
  }

  lemma {:induction false} RunOf(only: Class, s: string)
    ensures MatchTerm(Many(One(only)), s) <==> forall i :: 0 <= i < |s| ==> In(s[i], only)
    decreases |s|
  {
    var t := Many(One(only));
    if s != "" {
      assert s[..1] == [s[0]];
      RunOf(only, s[1..]);
      if In(s[0], only) && MatchTerm(t, s[1..]) {
        assert MatchAtom(One(only), s[..1]) && MatchTerm(t, s[1..]);
      }
      forall i | 0 < i < |s| ensures s[i] == s[1..][i - 1] {}
    }
  }

  lemma OneCharacter(t: Term, c: char, s: string)
    requires t == Once(One(Exactly(c)))
    ensures MatchAll([t], s) <==> s == [c]
  {
    assert [t][1..] == [];
    if s == [c] {
      assert s[..1] == [c] && s[1..] == "";
      assert MatchAtom(t.atom, s[..1]);
      assert MatchTerm(t, s[..1]) && MatchAll([t][1..], s[1..]);
    }
    if MatchAll([t], s) {
      var k :| 0 <= k <= |s| && MatchTerm([t][0], s[..k]) && MatchAll([t][1..], s[k..]);
      assert s[k..] == "" && s == s[..k] && MatchAtom(t.atom, s[..k]);
    }
  }

  lemma Directories(s: string)
    requires OneLine(s)
    ensures MatchTerm(ANY_DIRECTORIES, s) <==> s == "" || s[|s| - 1] == '/'
  {
    var run, slash := Many(One(AnyButNewline)), Once(One(Exactly('/')));
    var ts := [run, slash];
    assert ts[1..] == [slash];
    if s != "" && s[|s| - 1] == '/' {
      var k := |s| - 1;
      RunOf(AnyButNewline, s[..k]);
      OneCharacter(slash, '/', s[k..]);
      assert s[k..] == "/";
      assert MatchTerm(run, s[..k]) && MatchAll(ts[1..], s[k..]);
    }
    if MatchAll(ts, s) {
      var k :| 0 <= k <= |s| && MatchTerm(run, s[..k]) && MatchAll(ts[1..], s[k..]);
      OneCharacter(slash, '/', s[k..]);
      assert s[k..] == "/" && s == s[..k] + s[k..];
    }
  }

  /** The part of a path one piece takes. */
  predicate Takes(glob: string, s: string)
    requires glob != ""
  {
    if "**/" <= glob then s == "" || s[|s| - 1] == '/'
    else if "**" <= glob then true
    else if glob[0] == '*' then forall j :: 0 <= j < |s| ==> s[j] != '/'
    else if glob[0] == '?' then |s| == 1 && s[0] != '/'
    else s == [glob[0]]
  }

  lemma PieceTakes(glob: string, s: string)
    requires glob != "" && OneLine(s)
    ensures MatchTerm(PieceTerm(glob), s) <==> Takes(glob, s)
  {
    if "**/" <= glob {
      Directories(s);
    } else if "**" <= glob {
      RunOf(AnyButNewline, s);
    } else if glob[0] == '*' {
      RunOf(AnyButSlash, s);
    }
  }

  /** A glob matches when its first piece takes some beginning and the rest matches the rest. */
  lemma {:induction false} GlobByPieces(glob: string, path: string)
    requires glob != ""
    ensures GlobMatches(glob, path) <==>
      exists k :: 0 <= k <= |path| && Takes(glob, path[..k]) && GlobMatches(glob[Width(glob)..], path[k..])
  {
    var rest := glob[Width(glob)..];
    if "**/" <= glob || "**" <= glob || glob[0] == '*' {
      forall k | 0 <= k <= |path|
        ensures Takes(glob, path[..k]) <==>
          if "**/" <= glob then k == 0 || path[k - 1] == '/'
          else "**" <= glob || forall j :: 0 <= j < k ==> path[j] != '/'
      {
        forall j | 0 <= j < k ensures path[..k][j] == path[j] {}
      }
    } else {
      if GlobMatches(glob, path) {
        assert Takes(glob, path[..1]) && GlobMatches(rest, path[1..]);
      }
      if k :| 0 <= k <= |path| && Takes(glob, path[..k]) && GlobMatches(rest, path[k..]) {
        assert |path[..k]| == 1 && path[..k][0] == path[0];
      }
    }
  }

  lemma {:induction false} TermsMatch(glob: string, path: string)
    requires OneLine(path)
    ensures MatchAll(Terms(glob), path) <==> GlobMatches(glob, path)
    decreases |glob|
  {
    hide MatchTerm, GlobMatches, Takes;
    if glob == "" {
      NoGlob(path);
    } else {
      var rest := glob[Width(glob)..];
      GlobByPieces(glob, path);
      assert Terms(glob)[1..] == Terms(rest);
      forall k | 0 <= k <= |path|
        ensures MatchTerm(PieceTerm(glob), path[..k]) <==> Takes(glob, path[..k])
        ensures MatchAll(Terms(rest), path[k..]) <==> GlobMatches(rest, path[k..])
      {
        PieceTakes(glob, path[..k]);
        TermsMatch(rest, path[k..]);
      }
    }
  }

  lemma {:induction false} NoGlob(path: string)
    ensures GlobMatches("", path) <==> path == ""
  {
  }

  /** On every path without line breaks the regular expression matches exactly when the glob does. */
  lemma GlobIsKept(glob: string, path: string)
    requires OneLine(path)
    ensures Tests("^" + Compiled(glob) + "$", path) <==> GlobMatches(glob, path)
  {
    CompiledReadsBack(glob);
    TermsMatch(glob, path);
    assert ("^" + Compiled(glob) + "$")[1..] == Compiled(glob) + "$";
  }

  // -- filters --------------------------------------------------------------------------------------

  datatype Kind = Paths | PathsIgnore | NoFilter

  datatype Filter = Filter(kind: Kind, patterns: seq<string>)

  predicate Negated(pattern: string) {
    "!" <= pattern
  }

  predicate PatternMatches(pattern: string, file: string) {
    GlobMatches(if Negated(pattern) then pattern[1..] else pattern, file)
  }

  /** The last pattern the file matches. */
  predicate Last(patterns: seq<string>, file: string, k: nat) {
    && k < |patterns| && PatternMatches(patterns[k], file)
    && forall j :: k < j < |patterns| ==> !PatternMatches(patterns[j], file)
  }

  method TriggersOn(filter: Option<Filter>, file: string) returns (triggers: bool)
    requires OneLine(file)
    ensures filter.None? ==> !triggers
    ensures filter.Some? && filter.value.kind.NoFilter? ==> triggers
    ensures filter.Some? && filter.value.kind.Paths? ==>
      (triggers <==> exists k: nat :: Last(filter.value.patterns, file, k) && !Negated(filter.value.patterns[k]))
    ensures filter.Some? && filter.value.kind.PathsIgnore? ==>
      (!triggers <==> exists k: nat :: Last(filter.value.patterns, file, k) && !Negated(filter.value.patterns[k]))
  {
    if filter.None? { return false; }
    if filter.value.kind.NoFilter? { return true; }
    var patterns := filter.value.patterns;
    var matched: Option<bool> := None;
    ghost var at: nat := 0;
    for i := 0 to |patterns|
      invariant matched.None? ==> forall j :: 0 <= j < i ==> !PatternMatches(patterns[j], file)
      invariant matched.Some? ==> at < i && matched.value == !Negated(patterns[at]) && PatternMatches(patterns[at], file)
      invariant matched.Some? ==> forall j :: at < j < i ==> !PatternMatches(patterns[j], file)
    {
      var negated := Negated(patterns[i]);
      var glob := if negated then patterns[i][1..] else patterns[i];
      var pattern := GlobToRegExp(glob);
      GlobIsKept(glob, file);
      if Tests(pattern, file) {
        matched := Some(!negated);
        at := i;
      }
    }
    assert matched.Some? ==> Last(patterns, file, at);
    assert matched.Some? ==> forall k: nat :: Last(patterns, file, k) ==> k == at;
    triggers := if filter.value.kind.Paths? then matched == Some(true) else matched != Some(true);
  }
}
