/**
 * Bracket matching and function bodies in masked text. The matcher counts one
 * kind of bracket only; on well-bracketed text that finds the true partner, and
 * the bodies it delimits nest.
 */
module Brackets {
  import opened JsonValues

  predicate IsOpen(c: char) {
    c == '(' || c == '[' || c == '{'
  }

  predicate IsClose(c: char) {
    c == ')' || c == ']' || c == '}'
  }

  function CloseOf(c: char): Option<char> {
    if c == '(' then Some(')') else if c == '[' then Some(']') else if c == '{' then Some('}') else None
  }

  // -- well-bracketed text -------------------------------------------------------------

  /** The brackets open after the first `k` characters; none when they do not match up. */
  function StackAt(t: string, k: nat): Option<seq<char>>
    requires k <= |t|
  {
    if k == 0 then Some([])
    else
      var before := StackAt(t, k - 1);
      if before.None? then None else Push(before.value, t[k - 1])
  }

  function Push(stack: seq<char>, c: char): Option<seq<char>> {
    if IsOpen(c) then Some(stack + [c])
    else if IsClose(c) then
      if stack != [] && CloseOf(stack[|stack| - 1]) == Some(c) then Some(stack[..|stack| - 1]) else None
    else Some(stack)
  }

  predicate Balanced(t: string) {
    StackAt(t, |t|) == Some([])
  }

  lemma {:induction false} PrefixesOpen(t: string, k: nat, n: nat)
    requires k <= n <= |t| && StackAt(t, n).Some?
    ensures StackAt(t, k).Some?
    decreases n - k
  {
    if k < n { PrefixesOpen(t, k, n - 1); }
  }

  /** How many brackets are open after `k` characters of a balanced text. */
  function Height(t: string, k: nat): nat
    requires k <= |t| && Balanced(t)
  {
    PrefixesOpen(t, k, |t|);
    |StackAt(t, k).value|
  }

  lemma HeightStep(t: string, k: nat)
    requires Balanced(t) && k < |t|
    ensures Height(t, k + 1) == if IsOpen(t[k]) then Height(t, k) + 1 else if IsClose(t[k]) then Height(t, k) - 1 else Height(t, k)
  {
    PrefixesOpen(t, k, |t|);
    PrefixesOpen(t, k + 1, |t|);
  }

  // -- matching -----------------------------------------------------------------------------

  /** The first offset from `i` on where the count of `open` minus `close` comes back to zero. */
  function MatchFrom(t: string, i: nat, open: char, close: char, depth: int): (r: int)
    ensures r == -1 || i <= r < |t|
    decreases |t| - i
  {
    if i >= |t| then -1
    else if t[i] == open then MatchFrom(t, i + 1, open, close, depth + 1)
    else if t[i] == close then if depth == 1 then i else MatchFrom(t, i + 1, open, close, depth - 1)
    else MatchFrom(t, i + 1, open, close, depth)
  }

  function Match(t: string, at: nat): (r: int)
    requires at < |t|
    ensures r == -1 || at < r < |t|
  {
    var close := CloseOf(t[at]);
    if close.None? then -1 else MatchFrom(t, at, t[at], close.value, 0)
  }

  method Matching(masked: string, at: nat) returns (r: int)
    requires at < |masked|
    ensures r == Match(masked, at)
  {
    var open := masked[at];
    var close := CloseOf(open);
    if close.None? { return -1; }
    var depth := 0;
    for i := at to |masked|
      invariant MatchFrom(masked, i, open, close.value, depth) == Match(masked, at)
    {
      var c := masked[i];
      if c == open {
        depth := depth + 1;
      } else if c == close.value {
        depth := depth - 1;
        if depth == 0 { return i; }
      }
    }
    return -1;
  }

  /** `r` closes the bracket at `at`: between them that bracket is never closed, after it things are as before. */
  ghost predicate Partner(t: string, at: nat, r: nat)
    requires at < |t| && r < |t| && Balanced(t)
  {
    && at < r
    && CloseOf(t[at]) == Some(t[r])
    && StackAt(t, r + 1) == StackAt(t, at)
    && forall k :: at < k <= r ==> Height(t, k) > Height(t, at)
  }

  /** Inside the bracket at `at`, after `k` characters, with `depth` brackets of its kind open. */
  ghost predicate Inside(t: string, at: nat, k: nat, depth: int)
    requires at < k <= |t| && Balanced(t)
  {
    && StackAt(t, at).Some? && StackAt(t, k).Some?
    && var base, now := StackAt(t, at).value, StackAt(t, k).value;
       && |now| > |base| && now[..|base| + 1] == base + [t[at]]
       && depth == multiset(now[|base|..])[t[at]]
  }

  /** The bracket itself is closed here. */
  lemma ClosesHere(t: string, at: nat, k: nat, depth: int)
    requires Balanced(t) && at < k < |t| && Inside(t, at, k, depth) && StackAt(t, k + 1).Some?
    requires IsClose(t[k]) && |StackAt(t, k).value| == |StackAt(t, at).value| + 1
    ensures CloseOf(t[at]) == Some(t[k]) && StackAt(t, k + 1) == StackAt(t, at) && depth == 1
  {
    var base, now := StackAt(t, at).value, StackAt(t, k).value;
    assert now == now[..|base| + 1] == base + [t[at]];
    assert now[|base|..] == [t[at]];
  }

  /** A balanced text does not end inside a bracket. */
  lemma NotAtEnd(t: string, at: nat, k: nat, depth: int)
    requires at < k <= |t| && Balanced(t) && Inside(t, at, k, depth)
    ensures k < |t| && Height(t, k) > Height(t, at)
  {
  }

  lemma {:induction false} FindsPartner(t: string, at: nat, k: nat, depth: int) returns (r: nat)
    requires Balanced(t) && at < k <= |t| && IsOpen(t[at])
    requires Inside(t, at, k, depth)
    ensures k <= r < |t| && MatchFrom(t, k, t[at], CloseOf(t[at]).value, depth) == r
    ensures CloseOf(t[at]) == Some(t[r]) && StackAt(t, r + 1) == StackAt(t, at)
    ensures forall l :: k <= l <= r ==> Height(t, l) > Height(t, at)
    decreases |t| - k
  {
    NotAtEnd(t, at, k, depth);
    PrefixesOpen(t, k + 1, |t|);
    var c := t[k];
    if IsClose(c) && |StackAt(t, k).value| == |StackAt(t, at).value| + 1 {
      ClosesHere(t, at, k, depth);
      r := k;
    } else {
      var more := if c == t[at] then depth + 1 else if Some(c) == CloseOf(t[at]) then depth - 1 else depth;
      InsideStep(t, at, k, depth, more);
      hide StackAt, Inside, Height;
      r := FindsPartner(t, at, k + 1, more);
    }
  }

  /** One character further in, not closing the bracket itself. */
  lemma InsideStep(t: string, at: nat, k: nat, depth: int, more: int)
    requires Balanced(t) && at < k < |t| && IsOpen(t[at]) && Inside(t, at, k, depth) && StackAt(t, k + 1).Some?
    requires !(IsClose(t[k]) && |StackAt(t, k).value| == |StackAt(t, at).value| + 1)
    requires more == if t[k] == t[at] then depth + 1 else if Some(t[k]) == CloseOf(t[at]) then depth - 1 else depth
    ensures Inside(t, at, k + 1, more) && (Some(t[k]) == CloseOf(t[at]) ==> depth > 1)
  {
    PushInside(StackAt(t, at).value, StackAt(t, k).value, t[at], t[k]);
  }

  /** Pushing onto, or popping from, what stands above `base` and its bracket. */
  lemma PushInside(base: seq<char>, now: seq<char>, bracket: char, c: char)
    requires IsOpen(bracket) && |now| > |base| && now[..|base| + 1] == base + [bracket]
    requires Push(now, c).Some? && !(IsClose(c) && |now| == |base| + 1)
    ensures var after := Push(now, c).value;
      && |after| > |base| && after[..|base| + 1] == base + [bracket]
      && multiset(after[|base|..])[bracket]
         == (if c == bracket then 1 else if Some(c) == CloseOf(bracket) then -1 else 0) + multiset(now[|base|..])[bracket]
      && (Some(c) == CloseOf(bracket) ==> multiset(now[|base|..])[bracket] > 1)
  {
    var n, after := |base|, Push(now, c).value;
    var inner := now[n..];
    assert inner[0] == now[..n + 1][n] == bracket;
    if IsOpen(c) {
      assert after[n..] == inner + [c];
      assert after[..n + 1] == now[..n + 1];
    } else if IsClose(c) {
      var rest := inner[..|inner| - 1];
      assert inner == rest + [now[|now| - 1]];
      assert after[n..] == rest;
      assert after[..n + 1] == now[..n + 1];
      assert rest == [bracket] + rest[1..];
    }
  }

  /** On balanced text, counting one kind of bracket finds the true partner. */
  lemma MatchingIsPartner(t: string, at: nat)
    requires Balanced(t) && at < |t| && IsOpen(t[at])
    ensures 0 <= Match(t, at) < |t| && Partner(t, at, Match(t, at))
  {
    PrefixesOpen(t, at, |t|);
    PrefixesOpen(t, at + 1, |t|);
    var base := StackAt(t, at).value;
    assert StackAt(t, at + 1).value == base + [t[at]];
    assert (base + [t[at]])[|base|..] == [t[at]];
    var r := FindsPartner(t, at, at + 1, 1);
  }

  /** A bracket has one partner. */
  lemma OnePartner(t: string, at: nat, r: nat, s: nat)
    requires at < |t| && r < |t| && s < |t| && Balanced(t) && Partner(t, at, r) && Partner(t, at, s)
    ensures r == s
  {
    assert Height(t, r + 1) == Height(t, at) == Height(t, s + 1);
  }

  // -- the end of an expression -----------------------------------------------------------------

  predicate Separates(c: char) {
    c == ',' || c == ';'
  }

  /** The first unmatched closer from `i` on, or a separator with nothing open; else the end. */
  function EndFrom(t: string, i: nat, depth: nat): (r: nat)
    requires i <= |t|
    ensures i <= r <= |t|
    decreases |t| - i
  {
    if i == |t| then i
    else if IsOpen(t[i]) then EndFrom(t, i + 1, depth + 1)
    else if IsClose(t[i]) then if depth == 0 then i else EndFrom(t, i + 1, depth - 1)
    else if Separates(t[i]) && depth == 0 then i
    else EndFrom(t, i + 1, depth)
  }

  method ExpressionEnd(masked: string, from: nat) returns (r: nat)
    requires from <= |masked|
    ensures r == EndFrom(masked, from, 0)
  {
    var depth := 0;
    for i := from to |masked|
      invariant depth >= 0 && EndFrom(masked, i, depth) == EndFrom(masked, from, 0)
    {
      var c := masked[i];
      if IsOpen(c) {
        depth := depth + 1;
      } else if IsClose(c) {
        if depth == 0 { return i; }
        depth := depth - 1;
      } else if Separates(c) && depth == 0 {
        return i;
      }
    }
    return |masked|;
  }

  /** From `i` to `r` no fewer than `floor` brackets are open; no separator stands at that level; `r` ends there. */
  ghost predicate Stays(t: string, floor: nat, i: nat, r: nat)
    requires i <= r <= |t| && Balanced(t)
  {
    && (forall k :: i <= k <= r ==> Height(t, k) >= floor)
    && (forall k :: i <= k < r && Height(t, k) == floor ==> !Separates(t[k]))
    && (r < |t| ==> Height(t, r) == floor && (IsClose(t[r]) || Separates(t[r])))
  }

  lemma StaysLonger(t: string, floor: nat, i: nat, r: nat)
    requires i < r <= |t| && Balanced(t) && Stays(t, floor, i + 1, r)
    requires Height(t, i) >= floor && (Height(t, i) == floor ==> !Separates(t[i]))
    ensures Stays(t, floor, i, r)
  {
    hide Height, Balanced;
  }

  /** An expression never goes below the brackets it starts in, and stops at their level. */
  lemma {:induction false} ExpressionStays(t: string, floor: nat, i: nat, depth: nat)
    requires Balanced(t) && i <= |t| && Height(t, i) == floor + depth
    ensures Stays(t, floor, i, EndFrom(t, i, depth))
    decreases |t| - i
  {
    hide Height, Balanced, Stays, StackAt;
    if i == |t| {
      StopsHere(t, floor, i);
    } else {
      HeightStep(t, i);
      var r := EndFrom(t, i, depth);
      if IsOpen(t[i]) {
        ExpressionStays(t, floor, i + 1, depth + 1);
        StaysLonger(t, floor, i, r);
      } else if IsClose(t[i]) && depth > 0 {
        ExpressionStays(t, floor, i + 1, depth - 1);
        StaysLonger(t, floor, i, r);
      } else if !IsClose(t[i]) && !(Separates(t[i]) && depth == 0) {
        ExpressionStays(t, floor, i + 1, depth);
        StaysLonger(t, floor, i, r);
      } else {
        StopsHere(t, floor, i);
      }
    }
  }

  lemma StopsHere(t: string, floor: nat, i: nat)
    requires Balanced(t) && i <= |t| && Height(t, i) >= floor
    requires i < |t| ==> Height(t, i) == floor && (IsClose(t[i]) || Separates(t[i]))
    ensures Stays(t, floor, i, i)
  {
  }

  // -- bodies nest --------------------------------------------------------------------------------

  /** A function's body, from `start` up to `end`. */
  datatype Body = Body(start: nat, end: nat)

  /** A block from its brace to the matching one, or an expression to its end. */
  predicate IsBody(t: string, b: Body) {
    && b.start <= b.end <= |t|
    && if b.start < |t| && t[b.start] == '{' then Match(t, b.start) == b.end else EndFrom(t, b.start, 0) == b.end
  }

  lemma BodyHeights(t: string, b: Body)
    requires Balanced(t) && IsBody(t, b)
    ensures b.start < |t| && t[b.start] == '{' ==>
      && b.end < |t| && Height(t, b.end + 1) == Height(t, b.start)
      && forall k :: b.start < k <= b.end ==> Height(t, k) > Height(t, b.start)
    ensures !(b.start < |t| && t[b.start] == '{') ==>
      && (forall k :: b.start <= k <= b.end ==> Height(t, k) >= Height(t, b.start))
      && (forall k :: b.start <= k < b.end && Height(t, k) == Height(t, b.start) ==> !Separates(t[k]))
      && (b.end < |t| ==> Height(t, b.end) == Height(t, b.start) && (IsClose(t[b.end]) || Separates(t[b.end])))
  {
    if b.start < |t| && t[b.start] == '{' {
      MatchingIsPartner(t, b.start);
    } else {
      ExpressionStays(t, Height(t, b.start), b.start, 0);
    }
  }

  lemma CloserLowers(t: string, k: nat)
    requires Balanced(t) && k < |t| && IsClose(t[k])
    ensures Height(t, k + 1) == Height(t, k) - 1
  {
    HeightStep(t, k);
  }

  /** A body that starts inside another ends inside it. */
  lemma StartsInsideEndsInside(t: string, a: Body, b: Body)
    requires Balanced(t) && IsBody(t, a) && IsBody(t, b) && a.start < b.start < a.end
    ensures b.end <= a.end
  {
    BodyHeights(t, a);
    BodyHeights(t, b);
    if a.end < |t| && IsClose(t[a.end]) { CloserLowers(t, a.end); }
    if t[a.start] == '{' {
      assert Height(t, b.start) > Height(t, a.start);
    } else {
      assert Height(t, b.start) >= Height(t, a.start);
    }
  }

  predicate Within(inner: Body, outer: Body) {
    outer.start <= inner.start && inner.end <= outer.end
  }

  predicate Apart(a: Body, b: Body) {
    a.end <= b.start || b.end <= a.start
  }

  /** Any two bodies of one text are nested or apart. */
  lemma BodiesNest(t: string, a: Body, b: Body)
    requires Balanced(t) && IsBody(t, a) && IsBody(t, b)
    ensures Apart(a, b) || Within(a, b) || Within(b, a)
  {
    if a.start < b.start < a.end {
      StartsInsideEndsInside(t, a, b);
    } else if b.start < a.start < b.end {
      StartsInsideEndsInside(t, b, a);
    }
  }
}
