/**
 * Parameter lists as they are written: parameters whose brackets close, with
 * commas between. They are split into just these, and the list takes a
 * transaction exactly when one of them does.
 */
module ParameterLists {
  import opened JsonValues
  import opened TxPatterns
  import opened TxScan
  import opened Parameters

  const OPENING := "([{<"
  const CLOSING := ")]}>"

  datatype Piece = Char(c: char) | Arrow | Group(open: char, inner: seq<Piece>, close: char)

  function PieceText(p: Piece): string
    decreases p
  {
    match p
    case Char(c) => [c]
    case Arrow => "=>"
    case Group(open, inner, close) => [open] + Spell(inner) + [close]
  }

  function Spell(ps: seq<Piece>): string
    decreases ps
  {
    if ps == [] then "" else PieceText(ps[0]) + Spell(ps[1..])
  }

  /** Brackets in pairs; an equals sign right before a closing `>` would make it an arrow. */
  predicate Closed(ps: seq<Piece>)
    decreases ps
  {
    forall k :: 0 <= k < |ps| ==> ClosedPiece(ps[k])
  }

  predicate ClosedPiece(p: Piece)
    decreases p
  {
    match p
    case Char(c) => c !in OPENING && c !in CLOSING
    case Arrow => true
    case Group(open, inner, close) =>
      && (exists k :: 0 <= k < 4 && open == OPENING[k] && close == CLOSING[k])
      && Closed(inner) && (close == '>' ==> Spell(inner) == "" || Spell(inner)[|Spell(inner)| - 1] != '=')
  }

  /** Commas only inside brackets. */
  ghost predicate OneParameter(text: string) {
    exists ps :: Closed(ps) && Char(',') !in ps && Spell(ps) == text
  }

  function Join(parts: seq<string>): string
    requires parts != []
  {
    if |parts| == 1 then parts[0] else Join(parts[..|parts| - 1]) + "," + parts[|parts| - 1]
  }

  // -- nesting --------------------------------------------------------------------------------

  lemma {:induction false} DepthBefore(a: string, b: string, i: nat)
    requires i <= |a|
    ensures DepthUpto(a + b, i) == DepthUpto(a, i)
    decreases i
  {
    if i > 0 { DepthBefore(a, b, i - 1); }
  }

  lemma {:induction false} DepthBehind(a: string, b: string, k: nat)
    requires k <= |b| && (b != "" && b[0] == '>' ==> a == "" || a[|a| - 1] != '=')
    ensures DepthUpto(a + b, |a| + k) == DepthUpto(a, |a|) + DepthUpto(b, k)
    decreases k
  {
    if k == 0 {
      DepthBefore(a, b, |a|);
    } else {
      DepthBehind(a, b, k - 1);
    }
  }

  /** Nothing is left open, no bracket closes too early, and no text before it makes its start an arrow. */
  ghost predicate Level0(text: string, commas: bool) {
    && (text != "" ==> text[0] != '>')
    && DepthUpto(text, |text|) == 0
    && (forall i :: 0 <= i <= |text| ==> DepthUpto(text, i) >= 0)
    && (commas || forall i :: 0 <= i < |text| ==> !Cut(text, i))
  }

  lemma Level0Joined(a: string, b: string, commas: bool)
    requires Level0(a, commas) && Level0(b, commas)
    ensures Level0(a + b, commas)
  {
    hide DepthUpto;
    forall i | 0 <= i <= |a + b|
      ensures DepthUpto(a + b, i) == if i <= |a| then DepthUpto(a, i) else DepthUpto(b, i - |a|)
    {
      if i <= |a| { DepthBefore(a, b, i); } else { DepthBehind(a, b, i - |a|); }
    }
    DepthBehind(a, b, |b|);
    if !commas {
      forall i | 0 <= i < |a + b| ensures !Cut(a + b, i) {
        if i < |a| {
          assert !Cut(a, i) && (a + b)[i] == a[i];
        } else {
          assert !Cut(b, i - |a|) && (a + b)[i] == b[i - |a|];
          DepthBehind(a, b, i - |a|);
        }
      }
    }
  }

  lemma InBrackets(open: char, inner: string, close: char)
    requires Level0(inner, true) && exists k :: 0 <= k < 4 && open == OPENING[k] && close == CLOSING[k]
    requires close == '>' ==> inner == "" || inner[|inner| - 1] != '='
    ensures Level0([open] + inner + [close], false)
  {
    var text := [open] + inner + [close];
    var most := [open] + inner;
    assert text[0] == open && text[|text| - 1] == close && text[|text| - 2] == if inner == "" then open else inner[|inner| - 1];
    OneBracket(open);
    hide DepthUpto;
    forall k | 0 <= k <= |inner| ensures DepthUpto(text, k + 1) == 1 + DepthUpto(inner, k) {
      DepthBehind([open], inner, k);
      DepthBefore(most, [close], k + 1);
    }
    DepthNext(text, |text| - 1);
    DepthBefore([], text, 0);
    assert DepthUpto(text, 0) == 0 by { DepthStart(text); }
    assert forall i :: 1 <= i < |text| ==> DepthUpto(text, i) == 1 + DepthUpto(inner, i - 1);
  }

  lemma DepthStart(text: string)
    ensures DepthUpto(text, 0) == 0
  {
  }

  lemma OneBracket(open: char)
    ensures open in OPENING ==> DepthUpto([open], 1) == 1
  {
    DepthStart([open]);
  }

  lemma {:induction false} PiecesAreLevel(ps: seq<Piece>, commas: bool)
    requires Closed(ps) && (commas || Char(',') !in ps)
    ensures Level0(Spell(ps), commas)
    decreases ps
  {
    hide Level0;
    if ps == [] {
      EmptyIsLevel(commas);
    } else {
      PieceIsLevel(ps[0], commas);
      PiecesAreLevel(ps[1..], commas);
      Level0Joined(PieceText(ps[0]), Spell(ps[1..]), commas);
    }
  }

  lemma EmptyIsLevel(commas: bool)
    ensures Level0("", commas)
  {
  }

  lemma {:induction false} PieceIsLevel(p: Piece, commas: bool)
    requires ClosedPiece(p) && (commas || p != Char(','))
    ensures Level0(PieceText(p), commas)
    decreases p
  {
    match p
    case Char(c) => CharIsLevel(c, commas);
    case Arrow => ArrowIsLevel(commas);
    case Group(open, inner, close) =>
      hide Level0;
      PiecesAreLevel(inner, true);
      InBrackets(open, Spell(inner), close);
      MoreCommas([open] + Spell(inner) + [close], commas);
  }

  lemma MoreCommas(text: string, commas: bool)
    requires Level0(text, false)
    ensures Level0(text, commas)
  {
  }

  lemma CharIsLevel(c: char, commas: bool)
    requires c !in OPENING && c !in CLOSING && (commas || c != ',')
    ensures Level0([c], commas)
  {
    NoBracket(c);
    DepthStart([c]);
    DepthNext([c], 0);
  }

  lemma NoBracket(c: char)
    requires c !in OPENING && c !in CLOSING
    ensures Nesting([c], 0) == 0 && c != '>'
  {
    assert c != OPENING[0] && c != OPENING[1] && c != OPENING[2] && c != OPENING[3];
    assert c != CLOSING[0] && c != CLOSING[1] && c != CLOSING[2] && c != CLOSING[3];
  }

  lemma ArrowIsLevel(commas: bool)
    ensures Level0("=>", commas)
  {
    DepthStart("=>");
    DepthNext("=>", 0);
    DepthNext("=>", 1);
  }

  // -- splitting --------------------------------------------------------------------------------

  lemma OneIsLevel(text: string)
    requires OneParameter(text)
    ensures Level0(text, false)
  {
    hide Level0;
    var ps :| Closed(ps) && Char(',') !in ps && Spell(ps) == text;
    PiecesAreLevel(ps, false);
  }

  /** The commas between the parts are where the list is cut. */
  lemma {:induction false} JoinIsCut(parts: seq<string>) returns (cuts: seq<nat>)
    requires parts != [] && forall i :: 0 <= i < |parts| ==> OneParameter(parts[i])
    ensures SplitAt(Join(parts), cuts, parts) && DepthUpto(Join(parts), |Join(parts)|) == 0
    decreases |parts|
  {
    hide OneParameter, DepthUpto, Nesting;
    var last := parts[|parts| - 1];
    OneIsLevel(last);
    if |parts| == 1 {
      cuts := [];
      assert parts[..0] == [] && Join(parts)[0..] == parts[0];
    } else {
      var init := parts[..|parts| - 1];
      var before := JoinIsCut(init);
      cuts := before + [|Join(init)|];
      OneMorePart(init, before, last);
      assert init + [last] == parts;
    }
  }

  /** One more part behind a comma. */
  lemma OneMorePart(init: seq<string>, cuts: seq<nat>, last: string)
    requires init != [] && SplitAt(Join(init), cuts, init) && DepthUpto(Join(init), |Join(init)|) == 0 && Level0(last, false)
    ensures var text := Join(init) + "," + last;
      SplitAt(text, cuts + [|Join(init)|], init + [last]) && DepthUpto(text, |text|) == 0
  {
    hide DepthUpto, Nesting, Join;
    var head := Join(init);
    var text := head + "," + last;
    var n := |head|;
    assert text == head + ("," + last) && text[n] == ',';
    forall i | 0 <= i <= n ensures DepthUpto(text, i) == DepthUpto(head, i) { DepthBefore(head, "," + last, i); }
    DepthNext(text, n);
    DepthBefore(text[..n + 1], last, n + 1);
    assert text == text[..n + 1] + last;
    forall k | 0 <= k <= |last| ensures DepthUpto(text, n + 1 + k) == DepthUpto(last, k) { DepthBehind(text[..n + 1], last, k); }
    CutsInHead(head, "," + last, cuts, init[..|cuts|]);
    var from := if |cuts| == 0 then 0 else cuts[|cuts| - 1] + 1;
    assert init == init[..|cuts|] + [text[from..n]] by { SliceOfHead(head, "," + last, from, n); }
    hide Cut;
    OneMoreCut(text, n, cuts, init[..|cuts|], from);
    NoneBehind(text, n + 1, cuts + [n], init, last);
  }

  lemma CutBefore(head: string, tail: string, i: nat)
    requires i < |head|
    ensures Cut(head + tail, i) <==> Cut(head, i)
  {
    DepthBefore(head, tail, i);
  }

  lemma CutsInHead(head: string, tail: string, cuts: seq<nat>, parts: seq<string>)
    requires CutAt(head, |head|, cuts, parts)
    ensures CutAt(head + tail, |head|, cuts, parts)
  {
    hide Cut;
    var text := head + tail;
    forall i: nat | i < |head| ensures Cut(text, i) <==> Cut(head, i) { CutBefore(head, tail, i); }
    forall m: nat | m < |cuts| ensures parts[m] == text[(if m == 0 then 0 else cuts[m - 1] + 1)..cuts[m]] {
      var a := if m == 0 then 0 else cuts[m - 1] + 1;
      assert m > 0 ==> cuts[m - 1] < cuts[m];
      SliceOfHead(head, tail, a, cuts[m]);
    }
  }

  lemma SliceOfHead(head: string, tail: string, a: nat, b: nat)
    requires a <= b <= |head|
    ensures (head + tail)[a..b] == head[a..b]
  {
  }

  lemma NoneBehind(text: string, from: nat, cuts: seq<nat>, init: seq<string>, last: string)
    requires from <= |text| && cuts != [] && cuts[|cuts| - 1] + 1 == from && |init| == |cuts|
    requires CutAt(text, from, cuts, init) && text[from..] == last
    requires Level0(last, false) && forall k :: 0 <= k <= |last| ==> DepthUpto(text, from + k) == DepthUpto(last, k)
    ensures SplitAt(text, cuts, init + [last]) && DepthUpto(text, |text|) == 0
  {
    hide DepthUpto;
    forall i: nat | from <= i < |text| ensures !Cut(text, i) { NoCutBehind(text, from, last, i); }
    assert DepthUpto(text, from + |last|) == DepthUpto(last, |last|);
    hide Cut;
    CutsToTheEnd(text, from, cuts, init);
    assert (init + [last])[..|cuts|] == init;
  }

  lemma NoCutBehind(text: string, from: nat, last: string, i: nat)
    requires from <= i < |text| && text[from..] == last
    requires Level0(last, false) && forall k :: 0 <= k <= |last| ==> DepthUpto(text, from + k) == DepthUpto(last, k)
    ensures !Cut(text, i)
  {
    hide DepthUpto;
    var k := i - from;
    assert text[i] == text[from..][k] && !Cut(last, k) && DepthUpto(text, from + k) == DepthUpto(last, k);
  }

  lemma CutsToTheEnd(text: string, from: nat, cuts: seq<nat>, parts: seq<string>)
    requires from <= |text| && CutAt(text, from, cuts, parts) && forall i: nat :: from <= i < |text| ==> !Cut(text, i)
    ensures CutAt(text, |text|, cuts, parts)
  {
    hide Cut;
  }

  predicate Ascends(a: seq<nat>) {
    forall m, n :: 0 <= m < n < |a| ==> a[m] < a[n]
  }

  lemma LastIsMost(a: seq<nat>, i: nat)
    requires Ascends(a) && a != []
    ensures i in a ==> i <= a[|a| - 1]
    ensures i in a[..|a| - 1] <==> i in a && i != a[|a| - 1]
  {
  }

  lemma {:induction false} OneAscent(a: seq<nat>, b: seq<nat>)
    requires Ascends(a) && Ascends(b) && (forall i: nat :: i in a <==> i in b)
    ensures a == b
    decreases |a|
  {
    assert (a != [] ==> a[0] in a) && (b != [] ==> b[0] in b);
    if a != [] && b != [] {
      var x, y := a[|a| - 1], b[|b| - 1];
      LastIsMost(a, y);
      LastIsMost(b, x);
      assert x in a && y in b;
      var c, d := a[..|a| - 1], b[..|b| - 1];
      forall i: nat ensures i in c <==> i in d {
        LastIsMost(a, i);
        LastIsMost(b, i);
      }
      OneAscent(c, d);
      assert a == c + [x] && b == d + [y];
    }
  }

  /** A text is split in one way. */
  lemma OneSplit(text: string, cuts: seq<nat>, parts: seq<string>, cuts': seq<nat>, parts': seq<string>)
    requires SplitAt(text, cuts, parts) && SplitAt(text, cuts', parts')
    ensures parts == parts'
  {
    hide Cut;
    OneAscent(cuts, cuts');
    forall m: nat | m < |parts| ensures parts[m] == parts'[m] {
      PartNumber(text, cuts, parts, m);
      PartNumber(text, cuts', parts', m);
    }
  }

  /** Splitting gives back the parameters a list is made of. */
  lemma SplitIsJoined(parts: seq<string>, cuts: seq<nat>, found: seq<string>)
    requires parts != [] && forall i :: 0 <= i < |parts| ==> OneParameter(parts[i])
    requires SplitAt(Join(parts), cuts, found)
    ensures found == parts
  {
    hide SplitAt, OneParameter, Join;
    var own := JoinIsCut(parts);
    OneSplit(Join(parts), own, parts, cuts, found);
  }

  /** A list takes a transaction if and only if one of its parameters does, as it is written. */
  lemma ListTakesTx(parts: seq<string>)
    requires parts != [] && forall i :: 0 <= i < |parts| ==> OneParameter(parts[i])
    ensures TakesTx(Join(parts)) <==> exists i :: 0 <= i < |parts| && TxParameter(parts[i])
  {
    hide SplitAt, OneParameter, Join, IsTx, TxParameter, Cut;
    var text := Join(parts);
    var cuts := JoinIsCut(parts);
    forall part: string ensures part in parts <==> exists a: nat, b: nat :: Part(text, a, b) && text[a..b] == part {
      PartsAreBetweenCuts(text, cuts, parts, part);
    }
    forall part: string ensures IsTx(part) <==> TxParameter(part) { TxIffWritten(part); }
    if TakesTx(text) {
      var a: nat, b: nat :| Part(text, a, b) && IsTx(text[a..b]);
      assert text[a..b] in parts;
    }
    if i :| 0 <= i < |parts| && TxParameter(parts[i]) {
      assert parts[i] in parts;
    }
  }
}
