/** The functions that take a transaction, and the innermost one around an offset. */
module TxScan {
  import opened JsonValues
  import opened MaskRules
  import opened Brackets
  import opened TxPatterns

  datatype TxFunction = TxFunction(start: nat, bodyStart: nat, bodyEnd: nat)

  function BodyOf(fn: TxFunction): Body {
    Body(fn.bodyStart, fn.bodyEnd)
  }

  // -- parameters -----------------------------------------------------------------------

  /** How a character moves the nesting of a parameter list; the `>` of an arrow does not. */
  function Nesting(text: string, i: nat): int
    requires i < |text|
  {
    if text[i] in {'(', '[', '{', '<'} then 1
    else if text[i] in {')', ']', '}', '>'} && !(text[i] == '>' && i > 0 && text[i - 1] == '=') then -1
    else 0
  }

  function DepthUpto(text: string, i: nat): int
    requires i <= |text|
  {
    if i == 0 then 0 else DepthUpto(text, i - 1) + Nesting(text, i - 1)
  }

  /** A comma with nothing open. */
  predicate Cut(text: string, i: nat)
    requires i < |text|
  {
    text[i] == ',' && DepthUpto(text, i) == 0
  }

  /** `parts` are what lies between the `cuts`. */
  ghost predicate CutAt(text: string, upto: nat, cuts: seq<nat>, parts: seq<string>)
    requires upto <= |text|
  {
    && |parts| == |cuts|
    && (forall m :: 0 <= m < |cuts| ==> cuts[m] < upto && Cut(text, cuts[m]))
    && (forall m, n :: 0 <= m < n < |cuts| ==> cuts[m] < cuts[n])
    && (forall i :: 0 <= i < upto && Cut(text, i) ==> i in cuts)
    && (forall m :: 0 <= m < |cuts| ==> parts[m] == text[(if m == 0 then 0 else cuts[m - 1] + 1)..cuts[m]])
  }

  lemma NoneCut(text: string)
    ensures CutAt(text, 0, [], []) && DepthUpto(text, 0) == 0
  {
  }

  lemma DepthNext(text: string, i: nat)
    requires i < |text|
    ensures DepthUpto(text, i + 1) == DepthUpto(text, i) + Nesting(text, i)
    ensures text[i] == ',' ==> Nesting(text, i) == 0
  {
  }

  lemma NoCut(text: string, i: nat, cuts: seq<nat>, parts: seq<string>)
    requires i < |text| && CutAt(text, i, cuts, parts) && !Cut(text, i)
    ensures CutAt(text, i + 1, cuts, parts)
  {
  }

  lemma OneMoreCut(text: string, i: nat, cuts: seq<nat>, parts: seq<string>, from: nat)
    requires i < |text| && CutAt(text, i, cuts, parts) && Cut(text, i)
    requires from == (if |cuts| == 0 then 0 else cuts[|cuts| - 1] + 1) && from <= i
    ensures CutAt(text, i + 1, cuts + [i], parts + [text[from..i]])
  {
    hide Cut;
    var more := cuts + [i];
    assert more[|cuts|] == i;
  }

  /** `cuts` are all the commas with nothing open, and `parts` the texts between them. */
  ghost predicate SplitAt(text: string, cuts: seq<nat>, parts: seq<string>) {
    && |parts| == |cuts| + 1 && CutAt(text, |text|, cuts, parts[..|cuts|])
    && var last := if |cuts| == 0 then 0 else cuts[|cuts| - 1] + 1;
       last <= |text| && parts[|cuts|] == text[last..]
  }

  /** Splits at exactly the commas with nothing open, losing nothing else. */
  method TopLevelParts(text: string) returns (parts: seq<string>)
    ensures exists cuts :: SplitAt(text, cuts, parts)
  {
    hide CutAt, DepthUpto, Nesting;
    parts := [];
    ghost var cuts: seq<nat> := [];
    var depth, from := 0, 0;
    NoneCut(text);
    for i := 0 to |text|
      invariant 0 <= from <= i && depth == DepthUpto(text, i) && |parts| == |cuts|
      invariant from == if |cuts| == 0 then 0 else cuts[|cuts| - 1] + 1
      invariant CutAt(text, i, cuts, parts)
    {
      if text[i] == ',' && depth == 0 {
        OneMoreCut(text, i, cuts, parts, from);
        DepthNext(text, i);
        parts, cuts := parts + [text[from..i]], cuts + [i];
        from := i + 1;
      } else {
        NoCut(text, i, cuts, parts);
        DepthNext(text, i);
        depth := depth + Nesting(text, i);
      }
    }
    ghost var done := parts;
    parts := parts + [text[from..]];
    assert parts[..|cuts|] == done;
    assert SplitAt(text, cuts, parts);
  }

  /** `text[a..b]` lies between two neighbouring cuts, or the ends of the text. */
  ghost predicate Part(text: string, a: nat, b: nat) {
    && a <= b <= |text|
    && (a > 0 ==> Cut(text, a - 1))
    && (b < |text| ==> Cut(text, b))
    && forall i :: a <= i < b ==> !Cut(text, i)
  }

  function StartOf(cuts: seq<nat>, m: nat): nat
    requires m <= |cuts|
  {
    if m == 0 then 0 else cuts[m - 1] + 1
  }

  function EndOf(text: string, cuts: seq<nat>, m: nat): nat
    requires m <= |cuts|
  {
    if m < |cuts| then cuts[m] else |text|
  }

  /** No cut lies between two that follow each other. */
  lemma Neighbours(text: string, cuts: seq<nat>, parts: seq<string>, m: nat)
    requires SplitAt(text, cuts, parts) && m <= |cuts|
    ensures StartOf(cuts, m) <= EndOf(text, cuts, m) <= |text|
    ensures forall i :: StartOf(cuts, m) <= i < EndOf(text, cuts, m) ==> !Cut(text, i)
  {
    hide Cut;
    forall n | 0 <= n < |cuts| ensures cuts[n] < StartOf(cuts, m) || EndOf(text, cuts, m) <= cuts[n] {
      assert n < m ==> cuts[n] <= cuts[m - 1];
      assert m < |cuts| && n >= m ==> cuts[m] <= cuts[n];
    }
  }

  lemma PartNumber(text: string, cuts: seq<nat>, parts: seq<string>, m: nat)
    requires SplitAt(text, cuts, parts) && m < |parts|
    ensures var a, b := StartOf(cuts, m), EndOf(text, cuts, m); Part(text, a, b) && parts[m] == text[a..b]
  {
    hide Cut;
    Neighbours(text, cuts, parts, m);
    if m < |cuts| { assert parts[m] == parts[..|cuts|][m]; }
  }

  lemma NumberOfPart(text: string, cuts: seq<nat>, parts: seq<string>, a: nat, b: nat) returns (m: nat)
    requires SplitAt(text, cuts, parts) && Part(text, a, b)
    ensures m < |parts| && a == StartOf(cuts, m) && b == EndOf(text, cuts, m)
  {
    hide Cut;
    m := 0;
    if a > 0 {
      assert a - 1 in cuts;
      var n :| 0 <= n < |cuts| && cuts[n] == a - 1;
      m := n + 1;
    }
    Neighbours(text, cuts, parts, m);
  }

  /** The parts are what lies between neighbouring cuts. */
  lemma PartsAreBetweenCuts(text: string, cuts: seq<nat>, parts: seq<string>, part: string)
    requires SplitAt(text, cuts, parts)
    ensures part in parts <==> exists a: nat, b: nat :: Part(text, a, b) && text[a..b] == part
  {
    hide SplitAt, Cut;
    if part in parts {
      var m :| 0 <= m < |parts| && parts[m] == part;
      PartNumber(text, cuts, parts, m);
    }
    if a: nat, b: nat :| Part(text, a, b) && text[a..b] == part {
      var m := NumberOfPart(text, cuts, parts, a, b);
      PartNumber(text, cuts, parts, m);
    }
  }

  // -- where the body starts ------------------------------------------------------------------

  /** The end of a return type, or none when a `;` or a top-level comma comes first. */
  function TypeEnd(t: string, i: nat, depth: int, seen: bool): (r: Option<nat>)
    requires i <= |t|
    ensures r.Some? ==> i <= r.value <= |t|
    decreases |t| - i
  {
    if i == |t| then Some(i)
    else if ArrowAt(t, i) then if depth == 0 then Some(i) else TypeEnd(t, i + 2, depth, seen)
    else if t[i] == '{' && depth == 0 && seen then Some(i)
    else if t[i] in {'<', '(', '[', '{'} then TypeEnd(t, i + 1, depth + 1, true)
    else if t[i] in {'>', ')', ']', '}'} then TypeEnd(t, i + 1, depth - 1, true)
    else if t[i] == ';' || (t[i] == ',' && depth == 0) then None
    else TypeEnd(t, i + 1, depth, seen || t[i] !in SPACES)
  }

  /** How many brackets the type has open after the characters from `from` up to `i`. */
  function Level(t: string, from: nat, i: nat): int
    requires from <= i <= |t|
  {
    DepthUpto(t, i) - DepthUpto(t, from)
  }

  /** Something other than white space was read. */
  predicate Begun(t: string, from: nat, i: nat)
    requires from <= i <= |t|
  {
    exists k :: from <= k < i && t[k] !in SPACES
  }

  /** An arrow with nothing open, or the brace of a body behind a type. */
  predicate TypeStops(t: string, from: nat, i: nat)
    requires from <= i < |t|
  {
    Level(t, from, i) == 0 && (ArrowAt(t, i) || (t[i] == '{' && Begun(t, from, i)))
  }

  /** A declaration without a body, or a comma that ends the member. */
  predicate NoBody(t: string, from: nat, i: nat)
    requires from <= i < |t|
  {
    t[i] == ';' || (t[i] == ',' && Level(t, from, i) == 0)
  }

  /** Nothing has ended the type before `i`. */
  ghost predicate TypeGoesOn(t: string, from: nat, i: nat)
    requires from <= i <= |t|
  {
    forall k :: from <= k < i ==> !TypeStops(t, from, k) && !NoBody(t, from, k)
  }

  lemma LevelStep(t: string, from: nat, i: nat)
    requires from <= i < |t|
    ensures Level(t, from, i + 1) == Level(t, from, i) + Nesting(t, i)
    ensures Begun(t, from, i + 1) <==> Begun(t, from, i) || t[i] !in SPACES
  {
  }

  /** A level other than zero comes from a bracket. */
  lemma {:induction false} LevelBegins(t: string, from: nat, i: nat)
    requires from <= i <= |t| && Level(t, from, i) != 0
    ensures Begun(t, from, i)
    decreases i
  {
    if i > from {
      LevelStep(t, from, i - 1);
      if Level(t, from, i - 1) != 0 { LevelBegins(t, from, i - 1); }
    }
  }

  /** The loop at `i` is where a plain reading of the type is. */
  ghost predicate InType(t: string, from: nat, i: nat, depth: int, seen: bool) {
    && 0 < from <= i <= |t| && t[from - 1] != '='
    && depth == Level(t, from, i) && (seen <==> Begun(t, from, i))
    && TypeGoesOn(t, from, i) && !(i < |t| && t[i] == '>' && t[i - 1] == '=')
  }

  lemma InnerArrow(t: string, from: nat, i: nat, depth: int, seen: bool)
    requires InType(t, from, i, depth, seen) && ArrowAt(t, i) && depth != 0
    ensures InType(t, from, i + 2, depth, seen)
  {
    hide DepthUpto;
    LevelBegins(t, from, i);
    LevelStep(t, from, i);
    LevelStep(t, from, i + 1);
  }

  lemma NextInType(t: string, from: nat, i: nat, depth: int, seen: bool)
    requires InType(t, from, i, depth, seen) && i < |t| && !ArrowAt(t, i) && !TypeStops(t, from, i) && !NoBody(t, from, i)
    ensures InType(t, from, i + 1, depth + Nesting(t, i), seen || t[i] !in SPACES)
  {
    hide DepthUpto;
    LevelStep(t, from, i);
  }

  /**
   * A return type ends at the first arrow with nothing open, at the first such
   * brace behind something, or with the text; there is none if and only if a
   * semicolon or a comma with nothing open comes before all of these.
   */
  lemma {:induction false} TypeEndIsFirst(t: string, from: nat, i: nat, depth: int, seen: bool)
    requires InType(t, from, i, depth, seen)
    ensures var r := TypeEnd(t, i, depth, seen);
      && (r.Some? ==> TypeGoesOn(t, from, r.value) && (r.value == |t| || TypeStops(t, from, r.value)))
      && (r.None? ==> exists k :: from <= k < |t| && NoBody(t, from, k) && TypeGoesOn(t, from, k))
    decreases |t| - i
  {
    hide DepthUpto, Begun, TypeGoesOn;
    if i < |t| {
      if ArrowAt(t, i) {
        if depth != 0 {
          InnerArrow(t, from, i, depth, seen);
          TypeEndIsFirst(t, from, i + 2, depth, seen);
        }
      } else if !(t[i] == '{' && depth == 0 && seen) && !(t[i] == ';' || (t[i] == ',' && depth == 0)) {
        NextInType(t, from, i, depth, seen);
        TypeEndIsFirst(t, from, i + 1, depth + Nesting(t, i), seen || t[i] !in SPACES);
      }
    }
  }

  /** The one place where a type ends. */
  lemma ReturnTypeEnds(t: string, from: nat, r: nat)
    requires 0 < from <= |t| && t[from - 1] == ':'
    ensures TypeEnd(t, from, 0, false) == Some(r) <==>
      from <= r <= |t| && TypeGoesOn(t, from, r) && (r == |t| || TypeStops(t, from, r))
  {
    hide DepthUpto;
    TypeEndIsFirst(t, from, from, 0, false);
    hide TypeEnd;
  }

  function AfterType(t: string, close: nat): (r: Option<nat>)
    requires close < |t|
    ensures r.Some? ==> close < r.value <= |t|
  {
    var i := SkipSpaces(t, close + 1);
    if At(t, i) == Some(':') then TypeEnd(t, i + 1, 0, false) else Some(i)
  }

  /** After a parameter list's `)`: the brace of a block, or what follows the arrow. */
  function BodyStart(t: string, close: nat): (r: Option<nat>)
    requires close < |t|
    ensures r.Some? ==> close < r.value <= |t|
  {
    var i := AfterType(t, close);
    if i.None? then None
    else if At(t, i.value) == Some('{') then i
    else if ArrowAt(t, i.value) then Some(SkipSpaces(t, i.value + 2))
    else None
  }

  method SkipSpace(masked: string, at: nat) returns (i: nat)
    requires at <= |masked|
    ensures i == SkipSpaces(masked, at)
  {
    i := at;
    while i < |masked| && masked[i] in SPACES
      invariant at <= i <= |masked| && SkipSpaces(masked, i) == SkipSpaces(masked, at)
    {
      i := i + 1;
    }
  }

  method ReturnTypeEnd(masked: string, from: nat) returns (end: Option<nat>)
    requires from <= |masked|
    ensures end == TypeEnd(masked, from, 0, false)
  {
    var i, depth, seenType := from, 0, false;
    while i < |masked|
      invariant from <= i <= |masked|
      invariant TypeEnd(masked, i, depth, seenType) == TypeEnd(masked, from, 0, false)
    {
      var c := masked[i];
      if ArrowAt(masked, i) {
        if depth == 0 { break; }
        i := i + 2;
        continue;
      }
      if c == '{' && depth == 0 && seenType { break; }
      if c == '<' || c == '(' || c == '[' || c == '{' {
        depth := depth + 1;
      } else if c == '>' || c == ')' || c == ']' || c == '}' {
        depth := depth - 1;
      } else if c == ';' || (c == ',' && depth == 0) {
        return None;
      }
      if c !in SPACES { seenType := true; }
      i := i + 1;
    }
    return Some(i);
  }

  method BodyAfterParams(masked: string, close: nat) returns (start: Option<nat>)
    requires close < |masked|
    ensures start == BodyStart(masked, close)
  {
    var i := SkipSpace(masked, close + 1);
    if At(masked, i) == Some(':') {
      var end := ReturnTypeEnd(masked, i + 1);
      if end.None? { return None; }
      i := end.value;
    }
    if At(masked, i) == Some('{') { return Some(i); }
    if ArrowAt(masked, i) {
      i := SkipSpace(masked, i + 2);
      return Some(i);
    }
    return None;
  }

  // -- the functions --------------------------------------------------------------------------

  /** Some top-level parameter is a transaction. */
  ghost predicate TakesTx(params: string) {
    exists a: nat, b: nat :: Part(params, a, b) && IsTx(params[a..b])
  }

  method CheckTakesTx(params: string) returns (r: bool)
    ensures r == TakesTx(params)
  {
    var parts := TopLevelParts(params);
    ghost var cuts :| SplitAt(params, cuts, parts);
    r := exists i :: 0 <= i < |parts| && IsTx(parts[i]);
    if r {
      ghost var i :| 0 <= i < |parts| && IsTx(parts[i]);
      PartNumber(params, cuts, parts, i);
    }
    if a: nat, b: nat :| Part(params, a, b) && IsTx(params[a..b]) {
      PartsAreBetweenCuts(params, cuts, parts, params[a..b]);
    }
  }

  function BodyAt(t: string, start: nat, bodyStart: nat): (r: Option<TxFunction>)
    requires bodyStart <= |t|
    ensures r.Some? ==> IsBody(t, BodyOf(r.value)) && r.value.start == start && r.value.bodyStart == bodyStart
  {
    if bodyStart < |t| && t[bodyStart] == '{' then
      var end := Match(t, bodyStart);
      if end == -1 then None else Some(TxFunction(start, bodyStart, end))
    else Some(TxFunction(start, bodyStart, EndFrom(t, bodyStart, 0)))
  }

  /** The function whose parameter list opens at `open`, if it takes a transaction. */
  ghost function FunctionAt(t: string, open: nat): (r: Option<TxFunction>)
    requires open < |t|
    ensures r.Some? ==> IsBody(t, BodyOf(r.value)) && r.value.start == open
  {
    if t[open] != '(' then None
    else
      var close := Match(t, open);
      if close == -1 || !TakesTx(t[open + 1..close]) || KeywordBefore(t, open) then None
      else
        var start := BodyStart(t, close);
        if start.None? then None else BodyAt(t, open, start.value)
  }

  /** The functions among the parentheses from `i` on, in order. */
  ghost function FunctionsFrom(t: string, i: nat): (r: seq<TxFunction>)
    requires i <= |t|
    ensures forall fn :: fn in r ==> IsBody(t, BodyOf(fn))
    decreases |t| - i
  {
    if i == |t| then []
    else
      var here := FunctionAt(t, i);
      (if here.Some? then [here.value] else []) + FunctionsFrom(t, i + 1)
  }

  /** The function of a bare `tx =>`. */
  function ArrowFunction(t: string, m: Found): (r: Option<TxFunction>)
    requires m.end <= |t|
    ensures r.Some? ==> IsBody(t, BodyOf(r.value)) && r.value.start == m.start
  {
    BodyAt(t, m.start, SkipSpaces(t, m.end))
  }

  /** The functions of the bare arrows from the `k`-th on. */
  function BareFunctions(t: string, arrows: seq<Found>, k: nat): (r: seq<TxFunction>)
    requires k <= |arrows| && forall m :: m in arrows ==> m.end <= |t|
    ensures forall fn :: fn in r ==> IsBody(t, BodyOf(fn))
    decreases |arrows| - k
  {
    if k == |arrows| then []
    else
      var here := ArrowFunction(t, arrows[k]);
      (if here.Some? then [here.value] else []) + BareFunctions(t, arrows, k + 1)
  }

  /** A function that takes a transaction, by its parameter list or as a bare arrow that is found. */
  ghost predicate IsTxFunction(t: string, fn: TxFunction) {
    || (fn.start < |t| && FunctionAt(t, fn.start) == Some(fn))
    || exists m :: m in Matches(BareArrow, t, 0) && ArrowFunction(t, m) == Some(fn)
  }

  method BodyEndAt(masked: string, start: nat, bodyStart: nat) returns (fn: Option<TxFunction>)
    requires bodyStart <= |masked|
    ensures fn == BodyAt(masked, start, bodyStart)
  {
    if bodyStart < |masked| && masked[bodyStart] == '{' {
      var end := Matching(masked, bodyStart);
      if end == -1 { return None; }
      return Some(TxFunction(start, bodyStart, end));
    }
    var end := ExpressionEnd(masked, bodyStart);
    return Some(TxFunction(start, bodyStart, end));
  }

  method FunctionOpenedAt(masked: string, open: nat) returns (fn: Option<TxFunction>)
    requires open < |masked| && masked[open] == '('
    ensures fn == FunctionAt(masked, open)
  {
    var close := Matching(masked, open);
    if close == -1 { return None; }
    var takesTx := CheckTakesTx(masked[open + 1..close]);
    if !takesTx { return None; }
    if KeywordBefore(masked, open) { return None; }
    var start := BodyAfterParams(masked, close);
    if start.None? { return None; }
    fn := BodyEndAt(masked, open, start.value);
  }

  method FindParenthesised(masked: string) returns (found: seq<TxFunction>)
    ensures found == FunctionsFrom(masked, 0)
  {
    hide FunctionAt;
    found := [];
    for i := 0 to |masked|
      invariant found + FunctionsFrom(masked, i) == FunctionsFrom(masked, 0)
    {
      ghost var was := found;
      var fn: Option<TxFunction> := None;
      if masked[i] == '(' { fn := FunctionOpenedAt(masked, i); } else { NotOpened(masked, i); }
      if fn.Some? { found := found + [fn.value]; }
      assert found + FunctionsFrom(masked, i + 1) == was + FunctionsFrom(masked, i);
    }
  }

  lemma NotOpened(t: string, i: nat)
    requires i < |t| && t[i] != '('
    ensures FunctionAt(t, i) == None
  {
  }

  method FindBare(masked: string) returns (found: seq<TxFunction>)
    ensures found == BareFunctions(masked, Matches(BareArrow, masked, 0), 0)
  {
    hide BodyAt, Matches, TokenEnd, IsBody, BareFunctions;
    var arrows := Matches(BareArrow, masked, 0);
    found := [];
    for k := 0 to |arrows|
      invariant found + BareFunctions(masked, arrows, k) == BareFunctions(masked, arrows, 0)
    {
      var bodyStart := SkipSpace(masked, arrows[k].end);
      var fn := BodyEndAt(masked, arrows[k].start, bodyStart);
      OneMoreFunction(masked, arrows, k, found);
      if fn.Some? { found := found + [fn.value]; }
    }
    assert found + BareFunctions(masked, arrows, |arrows|) == found by { NoMoreFunctions(masked, arrows); }
  }

  lemma NoMoreFunctions(t: string, arrows: seq<Found>)
    requires forall m :: m in arrows ==> m.end <= |t|
    ensures BareFunctions(t, arrows, |arrows|) == []
  {
  }

  lemma OneMoreFunction(t: string, arrows: seq<Found>, k: nat, found: seq<TxFunction>)
    requires k < |arrows| && forall m :: m in arrows ==> m.end <= |t|
    ensures var here := ArrowFunction(t, arrows[k]);
      (found + if here.Some? then [here.value] else []) + BareFunctions(t, arrows, k + 1) == found + BareFunctions(t, arrows, k)
  {
    hide ArrowFunction, IsBody;
  }

  /** In order of where they start, no two at one place. */
  predicate ByStart(fs: seq<TxFunction>) {
    forall i, j :: 0 <= i < j < |fs| ==> fs[i].start < fs[j].start
  }

  function Insert(fs: seq<TxFunction>, fn: TxFunction): (r: seq<TxFunction>)
    requires ByStart(fs) && forall g :: g in fs ==> g.start != fn.start
    ensures ByStart(r) && forall g :: g in r <==> g in fs || g == fn
  {
    if fs == [] || fs[|fs| - 1].start < fn.start then fs + [fn]
    else
      var rest := Insert(fs[..|fs| - 1], fn);
      assert forall g :: g in fs <==> g in fs[..|fs| - 1] || g == fs[|fs| - 1];
      assert forall i :: 0 <= i < |rest| ==> rest[i] in rest;
      rest + [fs[|fs| - 1]]
  }

  /** Two sorted lists with no start in common, sorted together. */
  function Merged(fs: seq<TxFunction>, more: seq<TxFunction>): (r: seq<TxFunction>)
    requires ByStart(fs) && ByStart(more) && forall f, g :: f in fs && g in more ==> f.start != g.start
    ensures ByStart(r) && forall g :: g in r <==> g in fs || g in more
  {
    if more == [] then fs
    else
      var before := more[..|more| - 1];
      assert forall g :: g in more <==> g in before || g == more[|more| - 1];
      Insert(Merged(fs, before), more[|more| - 1])
  }

  lemma NoneByStart()
    ensures ByStart([])
  {
  }

  lemma FirstByStart(fn: TxFunction, rest: seq<TxFunction>)
    requires ByStart(rest) && forall g :: g in rest ==> fn.start < g.start
    ensures ByStart([fn] + rest)
  {
    var all := [fn] + rest;
    forall i, j | 0 <= i < j < |all| ensures all[i].start < all[j].start {
      assert rest[j - 1] in rest;
    }
  }

  lemma {:induction false} FunctionsByStart(t: string, i: nat)
    requires i <= |t|
    ensures ByStart(FunctionsFrom(t, i))
    ensures forall fn :: fn in FunctionsFrom(t, i) <==> i <= fn.start < |t| && FunctionAt(t, fn.start) == Some(fn)
    decreases |t| - i
  {
    hide FunctionAt, IsBody, ByStart;
    if i == |t| {
      NoneByStart();
    } else {
      FunctionsByStart(t, i + 1);
      assert [] + FunctionsFrom(t, i + 1) == FunctionsFrom(t, i + 1);
      if FunctionAt(t, i).Some? { FirstByStart(FunctionAt(t, i).value, FunctionsFrom(t, i + 1)); }
    }
  }

  lemma {:induction false} ArrowsMember(t: string, arrows: seq<Found>, k: nat, fn: TxFunction)
    requires k <= |arrows| && forall m :: m in arrows ==> m.end <= |t|
    ensures fn in BareFunctions(t, arrows, k) <==> exists m :: m in arrows[k..] && ArrowFunction(t, m) == Some(fn)
    decreases |arrows| - k
  {
    hide ArrowFunction, IsBody;
    if k < |arrows| {
      ArrowsMember(t, arrows, k + 1, fn);
      assert arrows[k..] == [arrows[k]] + arrows[k + 1..];
    }
  }

  lemma {:induction false} ArrowsByStart(t: string, arrows: seq<Found>, k: nat)
    requires k <= |arrows| && forall m :: m in arrows ==> m.end <= |t|
    requires forall i, j :: 0 <= i < j < |arrows| ==> arrows[i].start < arrows[j].start
    ensures ByStart(BareFunctions(t, arrows, k))
    decreases |arrows| - k
  {
    hide ArrowFunction, IsBody, ByStart;
    if k == |arrows| {
      NoneByStart();
    } else {
      ArrowsByStart(t, arrows, k + 1);
      var rest := BareFunctions(t, arrows, k + 1);
      assert [] + rest == rest;
      if ArrowFunction(t, arrows[k]).Some? {
        forall g | g in rest ensures arrows[k].start < g.start { ArrowsMember(t, arrows, k + 1, g); }
        FirstByStart(ArrowFunction(t, arrows[k]).value, rest);
      }
    }
  }

  lemma ArrowsApart(t: string)
    ensures var arrows := Matches(BareArrow, t, 0); forall i, j :: 0 <= i < j < |arrows| ==> arrows[i].start < arrows[j].start
  {
    var arrows := Matches(BareArrow, t, 0);
    forall i, j | 0 <= i < j < |arrows| ensures arrows[i].start < arrows[j].start {
      MatchesAscend(BareArrow, t, 0, i, j);
      assert arrows[i] in arrows;
    }
  }

  /** All functions that take a transaction, in the order they start. */
  method FindTxFunctions(masked: string) returns (found: seq<TxFunction>)
    ensures ByStart(found) && forall fn :: fn in found <==> IsTxFunction(masked, fn)
  {
    var parens := FindParenthesised(masked);
    var bare := FindBare(masked);
    FunctionsByStart(masked, 0);
    ArrowsApart(masked);
    var arrows := Matches(BareArrow, masked, 0);
    ArrowsByStart(masked, arrows, 0);
    assert arrows[0..] == arrows;
    forall fn ensures fn in bare <==> exists m :: m in arrows && ArrowFunction(masked, m) == Some(fn) {
      ArrowsMember(masked, arrows, 0, fn);
    }
    StartsDiffer(masked, parens, bare);
    found := Merged(parens, bare);
  }

  /** One starts at a parenthesis, the other at a letter. */
  lemma StartsDiffer(t: string, parens: seq<TxFunction>, bare: seq<TxFunction>)
    requires forall fn :: fn in parens ==> fn.start < |t| && FunctionAt(t, fn.start) == Some(fn)
    requires forall fn :: fn in bare ==> exists m :: m in Matches(BareArrow, t, 0) && ArrowFunction(t, m) == Some(fn)
    ensures forall f, g :: f in parens && g in bare ==> f.start != g.start
  {
    hide Matches, ArrowFunction, FunctionAt, TokenEnd, IsBody;
    forall f, g | f in parens && g in bare ensures f.start != g.start {
      var m :| m in Matches(BareArrow, t, 0) && ArrowFunction(t, m) == Some(g);
      FirstLetter(BareArrow, t, m.start);
      if t[f.start] != '(' { NotOpened(t, f.start); }
    }
  }

  // -- the innermost one --------------------------------------------------------------------------

  predicate Contains(fn: TxFunction, offset: nat) {
    fn.bodyStart <= offset < fn.bodyEnd
  }

  /** Of the functions around `offset`, the one whose body starts last. */
  method Innermost(functions: seq<TxFunction>, offset: nat) returns (r: Option<TxFunction>)
    ensures r.None? <==> forall fn :: fn in functions ==> !Contains(fn, offset)
    ensures r.Some? ==> r.value in functions && Contains(r.value, offset)
    ensures r.Some? ==> forall fn :: fn in functions && Contains(fn, offset) ==> fn.bodyStart <= r.value.bodyStart
  {
    r := None;
    for i := 0 to |functions|
      invariant r.None? <==> forall fn :: fn in functions[..i] ==> !Contains(fn, offset)
      invariant r.Some? ==> r.value in functions[..i] && Contains(r.value, offset)
      invariant r.Some? ==> forall fn :: fn in functions[..i] && Contains(fn, offset) ==> fn.bodyStart <= r.value.bodyStart
    {
      assert functions[..i + 1] == functions[..i] + [functions[i]];
      if Contains(functions[i], offset) && (r.None? || functions[i].bodyStart >= r.value.bodyStart) {
        r := Some(functions[i]);
      }
    }
    assert functions[..|functions|] == functions;
  }

  /** The body that starts last around an offset lies within every other body around it. */
  lemma LastIsInnermost(t: string, fn: TxFunction, other: TxFunction, offset: nat)
    requires Balanced(t) && IsBody(t, BodyOf(fn)) && IsBody(t, BodyOf(other))
    requires Contains(fn, offset) && Contains(other, offset) && other.bodyStart <= fn.bodyStart
    ensures Within(BodyOf(fn), BodyOf(other))
  {
    BodiesNest(t, BodyOf(fn), BodyOf(other));
  }
}
