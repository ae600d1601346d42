/**
 * A limit is reported exactly when it shuts something out: said by what the
 * old and the new limits admit, one limit at a time.
 */
module LimitSets {
  import opened JsonValues
  import opened Schemas
  import opened Meaning
  import opened Pairing
  import opened Comparison
  import opened RequestSoundness

  predicate AboveMeets(l: Limits, n: real) {
    && (l.minimum.Some? ==> l.minimum.value <= n)
    && (l.exclusiveMinimum.Some? ==> l.exclusiveMinimum.value < n)
  }

  predicate BelowMeets(l: Limits, n: real) {
    && (l.maximum.Some? ==> n <= l.maximum.value)
    && (l.exclusiveMaximum.Some? ==> n < l.exclusiveMaximum.value)
  }

  /** Each length, number and step the old limits admit, the new ones admit too; a pattern or format stays or goes. */
  ghost predicate NoTighter(a: Limits, b: Limits) {
    && (forall n: int :: LengthMeets(a.minLength, None, n) ==> LengthMeets(b.minLength, None, n))
    && (forall n: int :: LengthMeets(None, a.maxLength, n) ==> LengthMeets(None, b.maxLength, n))
    && (forall n: int :: LengthMeets(a.minItems, None, n) ==> LengthMeets(b.minItems, None, n))
    && (forall n: int :: LengthMeets(None, a.maxItems, n) ==> LengthMeets(None, b.maxItems, n))
    && (forall n: real :: AboveMeets(a, n) ==> AboveMeets(b, n))
    && (forall n: real :: BelowMeets(a, n) ==> BelowMeets(b, n))
    && (b.pattern.None? || b.pattern == a.pattern) && (b.format.None? || b.format == a.format)
    && (b.multipleOf.None? || Divides(b.multipleOf.value, a.multipleOf))
  }

  /** Every multiple of the old step is one of the new, which is not zero. */
  ghost predicate Divides(step: real, before: Option<real>) {
    step != 0.0 && before.Some? && forall n: real :: MultipleOf(n, before.value) ==> MultipleOf(n, step)
  }

  lemma LowLengthExact(low: Option<int>, now: Option<int>)
    ensures LengthNarrowed(low, now, true) <==> exists n: int :: LengthMeets(low, None, n) && !LengthMeets(now, None, n)
  {
    if LengthNarrowed(low, now, true) { assert LengthMeets(low, None, now.value - 1) && !LengthMeets(now, None, now.value - 1); }
  }

  lemma HighLengthExact(high: Option<int>, now: Option<int>)
    ensures LengthNarrowed(high, now, false) <==> exists n: int :: LengthMeets(None, high, n) && !LengthMeets(None, now, n)
  {
    if LengthNarrowed(high, now, false) { assert LengthMeets(None, high, now.value + 1) && !LengthMeets(None, now, now.value + 1); }
  }

  lemma LowerExact(a: Limits, b: Limits)
    ensures LowerNarrowed(LowerBound(a), LowerBound(b)) <==> exists n: real :: AboveMeets(a, n) && !AboveMeets(b, n)
  {
    if !LowerNarrowed(LowerBound(a), LowerBound(b)) {
      forall n: real | AboveMeets(a, n) ensures AboveMeets(b, n) { LowerKept(a, b, n); }
    } else {
      var low, now := LowerBound(a), LowerBound(b).value;
      var n := if low.None? then now.value - 1.0
        else if now.value == low.value.value then now.value
        else (low.value.value + now.value) / 2.0;
      assert AboveMeets(a, n) && !AboveMeets(b, n);
    }
  }

  lemma UpperExact(a: Limits, b: Limits)
    ensures UpperNarrowed(UpperBound(a), UpperBound(b)) <==> exists n: real :: BelowMeets(a, n) && !BelowMeets(b, n)
  {
    if !UpperNarrowed(UpperBound(a), UpperBound(b)) {
      forall n: real | BelowMeets(a, n) ensures BelowMeets(b, n) { UpperKept(a, b, n); }
    } else {
      var high, now := UpperBound(a), UpperBound(b).value;
      var n := if high.None? then now.value + 1.0
        else if now.value == high.value.value then now.value
        else (high.value.value + now.value) / 2.0;
      assert BelowMeets(a, n) && !BelowMeets(b, n);
    }
  }

  lemma StepExact(before: Option<real>, after: Option<real>)
    ensures StepNarrowed(before, after) <==> after.Some? && !Divides(after.value, before)
  {
    if after.Some? && before.Some? && after.value != 0.0 {
      if !LeavesRemainder(before.value, after.value) {
        forall n: real | MultipleOf(n, before.value) ensures MultipleOf(n, after.value) { StepKept(n, before.value, after.value); }
      } else if Divides(after.value, before) {
        assert before.value == Times(1, before.value);
        assert MultipleOf(before.value, before.value);
        var k: int :| before.value == Times(k, after.value);
        Quotient(before.value, k, after.value);
      }
    }
  }

  lemma Quotient(n: real, k: int, step: real)
    requires step != 0.0 && n == Times(k, step)
    ensures Integral(n / step)
  {
    assert n / step == k as real;
  }

  /** The limits of a request are silent exactly when none shuts anything out. */
  lemma LimitsExact(a: Limits, b: Limits, op: string, at: string)
    ensures LimitChanges(a, b, op, at) == [] <==> NoTighter(a, b)
  {
    hide LengthNarrowed, LowerNarrowed, UpperNarrowed, StepNarrowed, LengthMeets, AboveMeets, BelowMeets, Divides, LowerBound, UpperBound, LimitChanges;
    NothingNarrowed(a, b, op, at);
    LowLengthExact(a.minLength, b.minLength);
    HighLengthExact(a.maxLength, b.maxLength);
    LowLengthExact(a.minItems, b.minItems);
    HighLengthExact(a.maxItems, b.maxItems);
    LowerExact(a, b);
    UpperExact(a, b);
    StepExact(a.multipleOf, b.multipleOf);
  }

  /**
   * Lengths are compared as numbers: a lower bound of zero is reported where
   * there was none, although no text and no array falls below it.
   */
  lemma LengthOfZeroReported(ru: Rules, a: Limits, op: string, at: string)
    requires a.minLength.None?
    ensures var b := a.(minLength := Some(0));
      LimitChanges(a, b, op, at) != [] && forall v: Json :: LimitsMeet(ru, a, v) ==> LimitsMeet(ru, b, v)
  {
    NothingNarrowed(a, a.(minLength := Some(0)), op, at);
  }
}
