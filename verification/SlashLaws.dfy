/**
 * A slash by what stands before it in the source: behind nothing, an opener or
 * one of the words it starts a regular expression, whose body is blank; behind
 * an operand it divides.
 */
module SlashLaws {
  import opened MaskRules
  import opened MaskLaws
  import opened Lookback
  import opened MaskGrammar

  /** Nothing but white space and what is masked. */
  ghost predicate Skipped(source: string, from: nat, end: nat)
    requires end <= |source|
  {
    forall m: nat :: from <= m < end ==> source[m] in SPACES || !Kept(source, m)
  }

  /** The last code before `i` stands at `k`. */
  ghost predicate CodeBefore(source: string, k: nat, i: nat)
    requires i <= |source|
  {
    k < i && Kept(source, k) && source[k] !in SPACES && Skipped(source, k + 1, i)
  }

  /** A whole word of code from `w` to `k`. */
  ghost predicate WordOfCode(source: string, w: nat, k: nat) {
    && w <= k < |source|
    && (forall m: nat :: w <= m <= k ==> Kept(source, m) && IsWordChar(source[m]))
    && (w > 0 ==> !(Kept(source, w - 1) && IsWordChar(source[w - 1])))
  }

  /** At `k` stands an opener, or one of the words ends. */
  ghost predicate Opens(source: string, k: nat)
    requires k < |source|
  {
    source[k] in OPENERS || exists w: nat :: WordOfCode(source, w, k) && source[w..k + 1] in OPENING_WORDS
  }

  /** What is masked shows as white space. */
  lemma ShowsAs(source: string, m: nat, i: nat)
    requires m < i <= |source|
    ensures |Upto(source, i).masked| == i
    ensures Upto(source, i).masked[m] == if Kept(source, m) then source[m] else Blank(source[m])
    ensures Upto(source, i).masked[m] in SPACES <==> source[m] in SPACES || !Kept(source, m)
    ensures IsWordChar(Upto(source, i).masked[m]) <==> Kept(source, m) && IsWordChar(source[m])
  {
    hide Kept, Upto;
    UptoMasked(source, i);
  }

  lemma ShowsAll(source: string, i: nat)
    requires i <= |source|
    ensures var masked := Upto(source, i).masked;
      && |masked| == i
      && (forall m: nat :: m < i ==> masked[m] == if Kept(source, m) then source[m] else Blank(source[m]))
      && (forall m: nat :: m < i ==> (masked[m] in SPACES <==> source[m] in SPACES || !Kept(source, m)))
      && (forall m: nat :: m < i ==> (IsWordChar(masked[m]) <==> Kept(source, m) && IsWordChar(source[m])))
  {
    hide Kept, Upto, SPACES, IsWordChar;
    UptoMasked(source, i);
    forall m: nat | m < i
      ensures var masked := Upto(source, i).masked;
        && masked[m] == (if Kept(source, m) then source[m] else Blank(source[m]))
        && (masked[m] in SPACES <==> source[m] in SPACES || !Kept(source, m))
        && (IsWordChar(masked[m]) <==> Kept(source, m) && IsWordChar(source[m]))
    {
      ShowsAs(source, m, i);
    }
  }

  lemma OpensAsShown(source: string, k: nat, i: nat)
    requires i <= |source| && CodeBefore(source, k, i)
    ensures LastAt(Upto(source, i).masked, k)
    ensures Opens(source, k) <==>
      var masked := Upto(source, i).masked;
      masked[k] in OPENERS || exists w: nat :: WordAt(masked, w, k) && masked[w..k + 1] in OPENING_WORDS
  {
    hide Kept, Upto, SPACES, IsWordChar, OPENERS, OPENING_WORDS, Blank;
    ShowsAll(source, i);
    var masked := Upto(source, i).masked;
    forall w: nat | w <= k
      ensures WordAt(masked, w, k) <==> WordOfCode(source, w, k)
      ensures WordAt(masked, w, k) ==> masked[w..k + 1] == source[w..k + 1]
    {
    }
  }

  /** An operand is expected behind nothing, and behind code that opens. */
  lemma ExpectedBehind(source: string, i: nat)
    requires i <= |source|
    ensures Skipped(source, 0, i) ==> OperandExpected(Upto(source, i).masked)
    ensures forall k: nat :: CodeBefore(source, k, i) ==> (OperandExpected(Upto(source, i).masked) <==> Opens(source, k))
  {
    hide Kept, Upto, SPACES, IsWordChar, OPENERS, OPENING_WORDS, Blank, Opens, WordAt;
    ShowsAll(source, i);
    forall k: nat | CodeBefore(source, k, i) ensures OperandExpected(Upto(source, i).masked) <==> Opens(source, k) {
      OpensAsShown(source, k, i);
      forall m: nat | LastAt(Upto(source, i).masked, m) ensures m == k {}
    }
  }

  /** Behind nothing, an opener or one of the words a slash starts a regular expression: its body is blank and code goes on behind it. */
  lemma PatternBehind(source: string, i: nat, j: nat)
    requires i + 1 < j < |source| && StateAt(source, i).mode == MaskRules.Code
    requires source[i] == '/' && source[i + 1] != '*' && source[j] == '/' && PatternBody(source, i + 1, j, false)
    requires Skipped(source, 0, i) || exists k: nat :: CodeBefore(source, k, i) && Opens(source, k)
    ensures Kept(source, i) && Kept(source, j) && forall m :: i < m < j ==> !Kept(source, m)
    ensures StateAt(source, j + 1) == StateAt(source, i)
  {
    hide Kept, StateAt, Upto, RegexAfter, OperandExpected, CodeBefore, Opens, Skipped;
    ExpectedBehind(source, i);
    LookbackMeans(Upto(source, i).masked);
    BodyStart(source, i + 1, j);
    PatternIsMasked(source, i, j);
  }

  /** Behind any other code a slash divides: it is kept, and code goes on right behind it. */
  lemma DivisionBehind(source: string, i: nat, k: nat)
    requires i < |source| && StateAt(source, i).mode == MaskRules.Code
    requires source[i] == '/' && !Is(source, i + 1, '/') && !Is(source, i + 1, '*')
    requires CodeBefore(source, k, i) && !Opens(source, k)
    ensures Kept(source, i) && StateAt(source, i + 1) == StateAt(source, i)
  {
    hide Kept, StateAt, Upto, RegexAfter, OperandExpected, CodeBefore, Opens, Skipped;
    ExpectedBehind(source, i);
    LookbackMeans(Upto(source, i).masked);
    PlainIsKept(source, i);
  }
}
