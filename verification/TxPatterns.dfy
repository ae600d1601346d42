/** What the scan's regular expressions find in masked text. */
module TxPatterns {
  import opened JsonValues
  import opened MaskRules

  function SkipSpaces(t: string, i: nat): (r: nat)
    requires i <= |t|
    ensures i <= r <= |t| && forall k :: i <= k < r ==> t[k] in SPACES
    decreases |t| - i
  {
    if i < |t| && t[i] in SPACES then SkipSpaces(t, i + 1) else i
  }

  function Trim(text: string): string {
    TrimEnd(text[SkipSpaces(text, 0)..])
  }

  predicate StartsAt(t: string, i: nat, word: string) {
    i + |word| <= |t| && t[i..i + |word|] == word
  }

  predicate ArrowAt(t: string, i: nat) {
    At(t, i) == Some('=') && At(t, i + 1) == Some('>')
  }

  // -- a parameter ---------------------------------------------------------------------

  const TX_TYPES := {"Tx", "DbOrTx"}
  const MODIFIERS := {"public", "private", "protected", "readonly"}

  /** The end of the word at the start of a text. */
  function WordEnd(text: string, i: nat): (r: nat)
    requires i <= |text|
    ensures i <= r <= |text|
    decreases |text| - i
  {
    if i < |text| && IsWordChar(text[i]) then WordEnd(text, i + 1) else i
  }

  function DropModifier(text: string): string {
    var n := WordEnd(text, 0);
    var next := SkipSpaces(text, n);
    if text[..n] in MODIFIERS && next > n then text[next..] else text
  }

  function Before(text: string, c: char): string {
    if text == "" || text[0] == c then "" else [text[0]] + Before(text[1..], c)
  }

  /** A parameter named `tx`, or of exactly one of the transaction types. */
  predicate IsTx(raw: string) {
    var whole := Trim(raw);
    var param := DropModifier(if StartsAt(whole, 0, "...") then whole[3..] else whole);
    var n := WordEnd(param, 0);
    var i := SkipSpaces(param, n);
    var j := SkipSpaces(param, if At(param, i) == Some('?') then i + 1 else i);
    n > 0 && (param[..n] == "tx" || (At(param, j) == Some(':') && Trim(Before(param[j + 1..], '=')) in TX_TYPES))
  }

  const KEYWORDS_BEFORE_PAREN := {"if", "for", "while", "switch", "catch", "with", "return"}

  /** Whether the last word of the forty characters before a parenthesis is a keyword. */
  predicate KeywordBefore(t: string, open: nat)
    requires open <= |t|
  {
    LastWord(TrimEnd(t[if open < 40 then 0 else open - 40..open])) in KEYWORDS_BEFORE_PAREN
  }

  // -- tokens that stand alone ------------------------------------------------------------

  datatype Pattern = BareArrow | PoolReach

  /** A call: white space and the parenthesis. */
  function CallEnd(t: string, i: nat): (r: Option<nat>)
    requires i <= |t|
    ensures r.Some? ==> i < r.value <= |t| && r.value == SkipSpaces(t, i) + 1
  {
    var open := SkipSpaces(t, i);
    if At(t, open) == Some('(') then Some(open + 1) else None
  }

  /** Where a token that starts at `i` ends: `tx =>`, or a reach for the pool. */
  function TokenEnd(p: Pattern, t: string, i: nat): (r: Option<nat>)
    ensures r.Some? ==> i < r.value <= |t|
  {
    match p
    case BareArrow =>
      if !StartsAt(t, i, "tx") then None
      else
        var arrow := SkipSpaces(t, i + 2);
        if ArrowAt(t, arrow) then Some(arrow + 2) else None
    case PoolReach =>
      if StartsAt(t, i, "ctx.config.get") then CallEnd(t, if StartsAt(t, i + 14, "Raw") then i + 17 else i + 14)
      else if StartsAt(t, i, "ctx.db") then if i + 6 < |t| && IsWordChar(t[i + 6]) then None else Some(i + 6)
      else if StartsAt(t, i, "ctx.withTx") then CallEnd(t, i + 10)
      else None
  }

  /** No word, `$` or dot before. */
  predicate Alone(t: string, i: nat)
    requires i <= |t|
  {
    i == 0 || (!IsWordChar(t[i - 1]) && t[i - 1] != '.')
  }

  datatype Found = Found(start: nat, end: nat)

  predicate Token(p: Pattern, t: string, m: Found) {
    m.start <= |t| && Alone(t, m.start) && TokenEnd(p, t, m.start) == Some(m.end)
  }

  /**
   * The matches from `from` on. A match takes the character before its token,
   * so it cannot use one that the match before has taken.
   */
  function Matches(p: Pattern, t: string, from: nat): (r: seq<Found>)
    requires from <= |t|
    ensures forall m :: m in r ==> Token(p, t, m) && (m.start > from || from == 0)
    decreases |t| - from
  {
    if from == 0 && TokenEnd(p, t, 0).Some? then [Found(0, TokenEnd(p, t, 0).value)] + Matches(p, t, TokenEnd(p, t, 0).value)
    else if from == |t| then []
    else if Alone(t, from + 1) && TokenEnd(p, t, from + 1).Some? then
      [Found(from + 1, TokenEnd(p, t, from + 1).value)] + Matches(p, t, TokenEnd(p, t, from + 1).value)
    else Matches(p, t, from + 1)
  }

  /** They come in order and do not overlap. */
  lemma {:induction false} MatchesAscend(p: Pattern, t: string, from: nat, i: nat, j: nat)
    requires from <= |t| && i < j < |Matches(p, t, from)|
    ensures Matches(p, t, from)[i].end <= Matches(p, t, from)[j].start
    decreases |t| - from
  {
    hide TokenEnd;
    if from == 0 && TokenEnd(p, t, 0).Some? {
      var end := TokenEnd(p, t, 0).value;
      if i > 0 { MatchesAscend(p, t, end, i - 1, j - 1); }
      AscendsAfter(Found(0, end), Matches(p, t, end), i, j);
    } else if Alone(t, from + 1) && TokenEnd(p, t, from + 1).Some? {
      var end := TokenEnd(p, t, from + 1).value;
      if i > 0 { MatchesAscend(p, t, end, i - 1, j - 1); }
      AscendsAfter(Found(from + 1, end), Matches(p, t, end), i, j);
    } else {
      MatchesAscend(p, t, from + 1, i, j);
    }
  }

  lemma AscendsAfter(first: Found, rest: seq<Found>, i: nat, j: nat)
    requires i < j <= |rest| && forall m :: m in rest ==> first.end <= m.start
    requires i > 0 ==> rest[i - 1].end <= rest[j - 1].start
    ensures ([first] + rest)[i].end <= ([first] + rest)[j].start
  {
    assert rest[j - 1] in rest;
  }

  /** The letter a token starts with. */
  lemma FirstLetter(p: Pattern, t: string, i: nat)
    requires TokenEnd(p, t, i).Some?
    ensures i < |t| && t[i] == if p == BareArrow then 't' else 'c'
  {
    var word := if p == BareArrow then "tx" else if StartsAt(t, i, "ctx.config.get") then "ctx.config.get"
      else if StartsAt(t, i, "ctx.db") then "ctx.db" else "ctx.withTx";
    assert StartsAt(t, i, word);
    assert t[i] == t[i..i + |word|][0];
  }

  /** A word that starts with `ctx.` has a `c` elsewhere only behind the dot. */
  lemma LetterInWord(t: string, s: nat, word: string, i: nat)
    requires StartsAt(t, s, word) && s < i < s + |word| && t[i] == 'c'
    requires word == "ctx.config.get" || word == "ctx.db" || word == "ctx.withTx"
    ensures !Alone(t, i)
  {
    var k := i - s;
    assert t[i] == t[s..s + |word|][k] && t[i - 1] == t[s..s + |word|][k - 1];
    assert word[k] == 'c' ==> word[k - 1] == '.';
  }

  lemma LetterInCall(t: string, i: nat, k: nat)
    requires i <= k < |t| && CallEnd(t, i).Some? && k < CallEnd(t, i).value
    ensures t[k] in SPACES || t[k] == '('
  {
  }

  lemma RawLetters(t: string, at: nat, i: nat)
    requires StartsAt(t, at, "Raw") && at <= i < at + 3
    ensures t[i] != 'c'
  {
    assert t[i] == t[at..at + 3][i - at];
  }

  /** No token that stands alone starts inside another. */
  lemma NoneInside(p: Pattern, t: string, m: Found, i: nat)
    requires Token(p, t, m) && m.start < i < m.end
    ensures !(Alone(t, i) && TokenEnd(p, t, i).Some?)
  {
    if Alone(t, i) && TokenEnd(p, t, i).Some? {
      FirstLetter(p, t, i);
      if p == BareArrow { NoArrowInside(t, m, i); } else { NoReachInside(t, m, i); }
    }
  }

  lemma NoArrowInside(t: string, m: Found, i: nat)
    requires Token(BareArrow, t, m) && m.start < i < m.end
    ensures t[i] != 't'
  {
    var s := m.start;
    assert t[s + 1] == t[s..s + 2][1] == 'x';
    var arrow := SkipSpaces(t, s + 2);
    assert s + 2 <= i < arrow ==> t[i] in SPACES;
  }

  lemma NoReachInside(t: string, m: Found, i: nat)
    requires Token(PoolReach, t, m) && m.start < i < m.end && t[i] == 'c'
    ensures !Alone(t, i)
  {
    hide Alone, CallEnd;
    var s := m.start;
    var word := if StartsAt(t, s, "ctx.config.get") then "ctx.config.get"
      else if StartsAt(t, s, "ctx.db") then "ctx.db" else "ctx.withTx";
    if i < s + |word| {
      LetterInWord(t, s, word, i);
    } else if word == "ctx.withTx" {
      LetterInCall(t, s + 10, i);
    } else {
      assert word == "ctx.config.get";
      var after := if StartsAt(t, s + 14, "Raw") then s + 17 else s + 14;
      if i < after {
        RawLetters(t, s + 14, i);
      } else {
        LetterInCall(t, after, i);
      }
    }
  }

  /** A match ends right where the token starts, and has taken the character it needs before it. */
  ghost predicate Touched(p: Pattern, t: string, from: nat, start: nat)
    requires from <= |t|
  {
    exists m :: m in Matches(p, t, from) && m.end == start
  }

  /** Exactly the tokens that stand alone are found, but for one right behind a match. */
  lemma {:induction false} FoundUnlessTouched(p: Pattern, t: string, from: nat, m: Found)
    requires from <= |t|
    ensures m in Matches(p, t, from) <==> Token(p, t, m) && (m.start > from || from == 0) && !Touched(p, t, from, m.start)
    decreases |t| - from, 1
  {
    hide TokenEnd;
    var f := Found(if from == 0 && TokenEnd(p, t, 0).Some? then 0 else from + 1, 0);
    if f.start > |t| {
    } else if f.start == 0 || (Alone(t, from + 1) && TokenEnd(p, t, from + 1).Some?) {
      FirstFound(p, t, from, f.(end := TokenEnd(p, t, f.start).value), m);
    } else {
      FoundUnlessTouched(p, t, from + 1, m);
    }
  }

  lemma FirstFound(p: Pattern, t: string, from: nat, f: Found, m: Found)
    requires from < f.end <= |t| && Token(p, t, f) && Matches(p, t, from) == [f] + Matches(p, t, f.end)
    requires f.start == 0 == from || (f.start == from + 1 && (from == 0 ==> TokenEnd(p, t, 0).None?))
    ensures m in Matches(p, t, from) <==> Token(p, t, m) && (m.start > from || from == 0) && !Touched(p, t, from, m.start)
    decreases |t| - from, 0
  {
    hide TokenEnd, Alone, Matches;
    FoundUnlessTouched(p, t, f.end, m);
    if Token(p, t, m) && f.start < m.start < f.end { NoneInside(p, t, f, m.start); }
    assert f in Matches(p, t, from);
    assert forall g :: g in Matches(p, t, from) <==> g == f || g in Matches(p, t, f.end);
  }

  /**
   * Of tokens that stand back to back, each starting where the one before
   * ends, every second one is behind: the one before it is found and has taken
   * the character it needs.
   */
  ghost predicate Behind(p: Pattern, t: string, start: nat) {
    exists s: nat :: s < start && Token(p, t, Found(s, start)) && !Behind(p, t, s)
  }

  /** Exactly the tokens that stand alone are found, but for every second of those back to back. */
  lemma {:induction false} FoundUnlessBehind(p: Pattern, t: string, m: Found)
    ensures m in Matches(p, t, 0) <==> Token(p, t, m) && !Behind(p, t, m.start)
    decreases m.start
  {
    hide TokenEnd, Alone, Matches;
    FoundUnlessTouched(p, t, 0, m);
    forall s: nat | s < m.start ensures Found(s, m.start) in Matches(p, t, 0) <==> Token(p, t, Found(s, m.start)) && !Behind(p, t, s) {
      FoundUnlessBehind(p, t, Found(s, m.start));
    }
    if Touched(p, t, 0, m.start) {
      var g :| g in Matches(p, t, 0) && g.end == m.start;
      assert g == Found(g.start, m.start) && g.start < m.start;
    }
  }

  const NESTED := "ctx.withTx(ctx.db)"

  /** The second reach stands in the argument of the first, and is not found. */
  lemma SecondReachMissed()
    ensures Token(PoolReach, NESTED, Found(11, 17)) && Found(0, 11) in Matches(PoolReach, NESTED, 0)
    ensures Found(11, 17) !in Matches(PoolReach, NESTED, 0)
  {
    hide TokenEnd, Matches, Alone;
    NestedTokens();
    FirstIsFound(PoolReach, NESTED, 11);
    FoundUnlessTouched(PoolReach, NESTED, 0, Found(11, 17));
  }

  lemma NestedTokens()
    ensures TokenEnd(PoolReach, NESTED, 0) == Some(11) && Token(PoolReach, NESTED, Found(11, 17))
  {
    var t := NESTED;
    assert t[0..10] == "ctx.withTx" && t[0..6] == "ctx.wi" && t[11..17] == "ctx.db";
    assert !StartsAt(t, 0, "ctx.db") && !StartsAt(t, 0, "ctx.config.get") && !StartsAt(t, 11, "ctx.config.get");
  }

  lemma FirstIsFound(p: Pattern, t: string, end: nat)
    requires TokenEnd(p, t, 0) == Some(end)
    ensures Found(0, end) in Matches(p, t, 0)
  {
    hide TokenEnd;
  }
}
