/**
 * The functions that take a transaction, by their text: a parameter list that
 * takes one, behind no keyword, with a body behind it; or a bare `tx =>`.
 */
module TxFunctions {
  import opened JsonValues
  import opened MaskRules
  import opened Brackets
  import opened TxPatterns
  import opened TxScan
  import opened Parameters
  import opened TxSpellings

  /** White space from `a` to `b`, and no more of it at `b`. */
  ghost predicate Gap(t: string, a: nat, b: nat) {
    a <= b <= |t| && (forall k :: a <= k < b ==> t[k] in SPACES) && (b < |t| ==> t[b] !in SPACES)
  }

  /** `e` is behind the parameter list and its return type, if it has one. */
  ghost predicate TypeOver(t: string, close: nat, e: nat)
    requires close < |t|
  {
    exists i: nat :: Gap(t, close + 1, i) &&
      if i < |t| && t[i] == ':' then i + 1 <= e <= |t| && TypeGoesOn(t, i + 1, e) && (e == |t| || TypeStops(t, i + 1, e))
      else e == i
  }

  /** The body starts at the brace behind, or at what follows the arrow behind. */
  ghost predicate BodyBehind(t: string, close: nat, start: nat)
    requires close < |t|
  {
    exists e: nat :: TypeOver(t, close, e) &&
      ((At(t, e) == Some('{') && start == e) || (ArrowAt(t, e) && Gap(t, e + 2, start)))
  }

  /** A block to its partner brace, an expression as far as it stays in its brackets. */
  ghost predicate BodyEnds(t: string, start: nat, end: nat)
    requires Balanced(t)
  {
    start <= end <= |t| &&
    if start < |t| && t[start] == '{' then end < |t| && Partner(t, start, end) else Stays(t, Height(t, start), start, end)
  }

  lemma GapIsSkipped(t: string, a: nat, b: nat)
    requires a <= |t|
    ensures Gap(t, a, b) <==> SkipSpaces(t, a) == b
  {
    SpaceRun(t, a);
    if Gap(t, a, b) { SpacesEndAt(t, a, b); }
  }

  lemma TypeOverMeans(t: string, close: nat, e: nat)
    requires close < |t|
    ensures TypeOver(t, close, e) <==> AfterType(t, close) == Some(e)
  {
    hide Gap, SkipSpaces, TypeGoesOn, TypeStops, TypeEnd;
    var from := close + 1;
    var i := SkipSpaces(t, from);
    forall k: nat ensures Gap(t, from, k) <==> k == i { GapIsSkipped(t, from, k); }
    if i < |t| && t[i] == ':' { ReturnTypeEnds(t, i + 1, e); }
  }

  lemma BodyBehindMeans(t: string, close: nat, start: nat)
    requires close < |t|
    ensures BodyBehind(t, close, start) <==> BodyStart(t, close) == Some(start)
  {
    hide Gap, SkipSpaces, TypeOver, AfterType;
    forall e: nat ensures TypeOver(t, close, e) <==> AfterType(t, close) == Some(e) { TypeOverMeans(t, close, e); }
    if AfterType(t, close).Some? {
      var e := AfterType(t, close).value;
      if ArrowAt(t, e) { GapIsSkipped(t, e + 2, start); }
    }
  }

  /** Two ends of one expression are one. */
  lemma OneStay(t: string, floor: nat, i: nat, r: nat, s: nat)
    requires i <= r <= |t| && i <= s <= |t| && Balanced(t) && Stays(t, floor, i, r) && Stays(t, floor, i, s)
    ensures r == s
  {
    hide Height, Balanced, StackAt;
    var k := if r < s then r else s;
    if k < |t| && IsClose(t[k]) { CloserLowers(t, k); }
  }

  lemma BodyEndsMeans(t: string, start: nat, end: nat)
    requires Balanced(t) && start <= |t|
    ensures BodyEnds(t, start, end) <==> IsBody(t, Body(start, end))
  {
    hide Height, Balanced, StackAt, Partner, Stays, Match, EndFrom;
    if start < |t| && t[start] == '{' {
      MatchingIsPartner(t, start);
      if end < |t| && Partner(t, start, end) { OnePartner(t, start, Match(t, start), end); }
    } else {
      ExpressionStays(t, Height(t, start), start, 0);
      if start <= end <= |t| && Stays(t, Height(t, start), start, end) { OneStay(t, Height(t, start), start, EndFrom(t, start, 0), end); }
    }
  }

  lemma BodyAtMeans(t: string, fn: TxFunction)
    requires fn.bodyStart <= |t|
    ensures BodyAt(t, fn.start, fn.bodyStart) == Some(fn) <==> IsBody(t, BodyOf(fn))
  {
    hide Match, EndFrom;
  }

  // -- by a parameter list ----------------------------------------------------------------------------

  ghost predicate Listed(t: string, fn: TxFunction, close: nat)
    requires Balanced(t)
  {
    && fn.start < close < |t| && t[fn.start] == '(' && Partner(t, fn.start, close)
    && TakesTx(t[fn.start + 1..close])
    && !(exists word :: word in CONTROL_WORDS && EndsInWord(Window(t, fn.start), word))
    && BodyBehind(t, close, fn.bodyStart) && BodyEnds(t, fn.bodyStart, fn.bodyEnd)
  }

  lemma ListedMeans(t: string, fn: TxFunction)
    requires Balanced(t)
    ensures (fn.start < |t| && FunctionAt(t, fn.start) == Some(fn)) <==> exists close: nat :: Listed(t, fn, close)
  {
    hide Balanced, Partner, BodyBehind, BodyEnds, TakesTx, EndsInWord, CONTROL_WORDS, KeywordBefore, IsBody, BodyStart, BodyAt, Match, Window;
    if fn.start < |t| && t[fn.start] == '(' {
      MatchingIsPartner(t, fn.start);
      var close := Match(t, fn.start);
      KeywordMeans(t, fn.start);
      BodyBehindMeans(t, close, fn.bodyStart);
      if fn.bodyStart <= |t| {
        BodyEndsMeans(t, fn.bodyStart, fn.bodyEnd);
        BodyAtMeans(t, fn);
      }
      BodyStartIsIn(t, close, fn);
      forall other: nat | Listed(t, fn, other) ensures other == close { OnePartner(t, fn.start, close, other); }
      assert Listed(t, fn, close) <==> FunctionAt(t, fn.start) == Some(fn);
    }
  }

  lemma BodyStartIsIn(t: string, close: nat, fn: TxFunction)
    requires close < |t|
    ensures BodyStart(t, close) == Some(fn.bodyStart) ==> fn.bodyStart <= |t|
    ensures BodyStart(t, close).Some? && BodyAt(t, fn.start, BodyStart(t, close).value) == Some(fn) ==> BodyStart(t, close) == Some(fn.bodyStart)
  {
    hide Match, EndFrom, IsBody;
  }

  // -- by a bare arrow ---------------------------------------------------------------------------------

  /** `tx =>` that stands alone and does not start right behind another that is found. */
  ghost predicate Bare(t: string, fn: TxFunction, end: nat)
    requires Balanced(t)
  {
    && fn.start <= end <= |t| && Alone(t, fn.start) && Spaced(t[fn.start..end], "tx", "=>") && !Behind(BareArrow, t, fn.start)
    && Gap(t, end, fn.bodyStart) && BodyEnds(t, fn.bodyStart, fn.bodyEnd)
  }

  lemma BareMeans(t: string, fn: TxFunction, m: Found)
    requires Balanced(t) && m.start == fn.start
    ensures m in Matches(BareArrow, t, 0) ==> m.end <= |t|
    ensures (m in Matches(BareArrow, t, 0) && ArrowFunction(t, m) == Some(fn)) <==> Bare(t, fn, m.end)
  {
    hide Balanced, BodyEnds, IsBody, BodyAt, Matches, Behind, Gap, Spaced, TokenEnd, Alone, SkipSpaces;
    FoundUnlessBehind(BareArrow, t, m);
    BareArrowMeans(t, m.start, m.end);
    if m.end <= |t| {
      GapIsSkipped(t, m.end, fn.bodyStart);
      SkippedIsIn(t, m.end);
      ArrowBody(t, fn, m.end);
    }
  }

  lemma SkippedIsIn(t: string, i: nat)
    requires i <= |t|
    ensures SkipSpaces(t, i) <= |t|
  {
  }

  lemma ArrowBody(t: string, fn: TxFunction, end: nat)
    requires Balanced(t) && end <= |t|
    ensures BodyAt(t, fn.start, SkipSpaces(t, end)) == Some(fn) <==>
      SkipSpaces(t, end) == fn.bodyStart && BodyEnds(t, fn.bodyStart, fn.bodyEnd)
  {
    hide Balanced, BodyEnds, IsBody, BodyAt, SkipSpaces;
    SkippedIsIn(t, end);
    var start := SkipSpaces(t, end);
    BodyStartKept(t, fn, start);
    if start == fn.bodyStart {
      BodyEndsMeans(t, fn.bodyStart, fn.bodyEnd);
      BodyAtMeans(t, fn);
    }
  }

  lemma BodyStartKept(t: string, fn: TxFunction, start: nat)
    requires start <= |t|
    ensures BodyAt(t, fn.start, start) == Some(fn) ==> start == fn.bodyStart
  {
    hide Match, EndFrom, IsBody;
  }

  /**
   * In well-bracketed text the functions found are exactly those written so: a
   * list that takes a transaction and a body behind it, or a bare arrow.
   */
  lemma TxFunctionIff(t: string, fn: TxFunction)
    requires Balanced(t)
    ensures IsTxFunction(t, fn) <==> (exists close: nat :: Listed(t, fn, close)) || (exists end: nat :: Bare(t, fn, end))
  {
    hide Balanced, Listed, Bare, FunctionAt, ArrowFunction, Matches;
    ListedMeans(t, fn);
    forall end: nat ensures Bare(t, fn, end) <==> Found(fn.start, end) in Matches(BareArrow, t, 0) && ArrowIs(t, fn, end) {
      BareMeans(t, fn, Found(fn.start, end));
    }
    if m :| m in Matches(BareArrow, t, 0) && ArrowFunction(t, m) == Some(fn) {
      assert m == Found(fn.start, m.end);
      assert Bare(t, fn, m.end);
    }
    if end: nat :| Bare(t, fn, end) {
      assert Found(fn.start, end) in Matches(BareArrow, t, 0);
    }
  }

  ghost predicate ArrowIs(t: string, fn: TxFunction, end: nat) {
    end <= |t| && ArrowFunction(t, Found(fn.start, end)) == Some(fn)
  }
}
