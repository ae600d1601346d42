/**
 * How the API client reports that the session has ended: many calls can be
 * refused at once, and the handler is to hear of it once.
 */
module SignOuts {

  /** What happens to a client, in order. Calls are numbered as they are sent. */
  datatype Event = Sent | Refused(call: nat) | Answered(call: nat)

  datatype State = State(sent: nat, covers: nat)

  function Next(s: State, e: Event): State {
    match e
    case Sent => s.(sent := s.sent + 1)
    case Refused(call) => if call > s.covers then s.(covers := s.sent) else s
    case Answered(_) => s
  }

  function After(run: seq<Event>): State {
    if run == [] then State(0, 0) else Next(After(run[..|run| - 1]), run[|run| - 1])
  }

  /** A call is answered only when it has been sent. */
  predicate Possible(run: seq<Event>) {
    forall i :: 0 <= i < |run| && !run[i].Sent? ==> 1 <= run[i].call <= After(run[..i]).sent
  }

  /** At this point of the run the handler is called. */
  predicate FiresAt(run: seq<Event>, i: nat) {
    i < |run| && run[i].Refused? && run[i].call > After(run[..i]).covers
  }

  class Client {
    var sent: nat
    var unauthorizedCovers: nat
    ghost var past: seq<Event>

    ghost predicate Valid()
      reads this
    {
      State(sent, unauthorizedCovers) == After(past) && Possible(past)
    }

    constructor ()
      ensures Valid() && past == []
    {
      sent := 0;
      unauthorizedCovers := 0;
      past := [];
    }

    method Send() returns (call: nat)
      requires Valid()
      modifies this
      ensures Valid() && past == old(past) + [Sent] && call == After(past).sent
    {
      sent := sent + 1;
      call := sent;
      Extend(past, Sent);
      past := past + [Sent];
    }

    method Refuse(call: nat) returns (fires: bool)
      requires Valid() && 1 <= call <= sent
      modifies this
      ensures Valid() && past == old(past) + [Refused(call)] && fires == FiresAt(past, |old(past)|)
    {
      ghost var before := past;
      Extend(past, Refused(call));
      past := past + [Refused(call)];
      assert past[..|before|] == before;
      if call <= unauthorizedCovers { return false; }
      unauthorizedCovers := sent;
      return true;
    }
  }

  lemma Extend(run: seq<Event>, e: Event)
    requires Possible(run) && (!e.Sent? ==> 1 <= e.call <= After(run).sent)
    ensures Possible(run + [e]) && After(run + [e]) == Next(After(run), e)
  {
    var longer := run + [e];
    assert longer[..|run|] == run;
    forall i | 0 <= i < |longer| && !longer[i].Sent? ensures 1 <= longer[i].call <= After(longer[..i]).sent {
      if i < |run| { assert longer[..i] == run[..i]; }
    }
  }

  // -- over every run ------------------------------------------------------------------

  lemma {:induction false} CoversSentOnly(run: seq<Event>)
    ensures After(run).covers <= After(run).sent
    decreases |run|
  {
    if run != [] { CoversSentOnly(run[..|run| - 1]); }
  }

  /** As a run goes on, more is sent and more is covered. */
  lemma {:induction false} OnlyGrows(run: seq<Event>, i: nat)
    requires i <= |run|
    ensures After(run[..i]).sent <= After(run).sent && After(run[..i]).covers <= After(run).covers
    decreases |run|
  {
    if i < |run| {
      var init := run[..|run| - 1];
      OnlyGrows(init, i);
      assert init[..i] == run[..i];
      CoversSentOnly(init);
    } else {
      assert run[..i] == run;
    }
  }

  lemma OneStep(run: seq<Event>, i: nat)
    requires i < |run|
    ensures After(run[..i + 1]) == Next(After(run[..i]), run[i])
  {
    assert run[..i + 1][..i] == run[..i];
  }

  lemma GrowsBetween(run: seq<Event>, i: nat, j: nat)
    requires i <= j <= |run|
    ensures After(run[..i]).sent <= After(run[..j]).sent && After(run[..i]).covers <= After(run[..j]).covers
  {
    OnlyGrows(run[..j], i);
    assert run[..j][..i] == run[..i];
  }

  /**
   * Of the calls in flight when the handler is called, none calls it again: a
   * later firing is by a call sent after the earlier one.
   */
  lemma OncePerBurst(run: seq<Event>, i: nat, j: nat)
    requires Possible(run) && FiresAt(run, i) && FiresAt(run, j) && i < j
    ensures run[j].call > After(run[..i]).sent
    ensures After(run[..i]).sent < After(run[..j]).sent
  {
    OneStep(run, i);
    GrowsBetween(run, i + 1, j);
  }

  /** Where the last firing before the end of the run was. */
  lemma {:induction false} CoveredByFiring(run: seq<Event>, call: nat) returns (i: nat)
    requires Possible(run) && 1 <= call <= After(run).covers
    ensures FiresAt(run, i) && call <= After(run[..i]).sent
    decreases |run|
  {
    var init := run[..|run| - 1];
    forall k | 0 <= k < |init| ensures init[..k] == run[..k] {}
    if FiresAt(run, |run| - 1) {
      i := |run| - 1;
    } else {
      i := CoveredByFiring(init, call);
    }
  }

  /**
   * No refusal is missed: the handler is called between the sending of a
   * refused call and its answer, the answer included.
   */
  lemma EveryRefusalIsHeard(run: seq<Event>, j: nat) returns (i: nat)
    requires Possible(run) && j < |run| && run[j].Refused?
    ensures i <= j && FiresAt(run, i) && run[j].call <= After(run[..i]).sent
  {
    if FiresAt(run, j) {
      i := j;
    } else {
      var before := run[..j];
      forall k | 0 <= k < j ensures before[..k] == run[..k] {}
      i := CoveredByFiring(before, run[j].call);
    }
  }

  function Firings(run: seq<Event>): nat {
    if run == [] then 0
    else Firings(run[..|run| - 1]) + if FiresAt(run, |run| - 1) then 1 else 0
  }

  /** The handler is never called more often than calls are sent. */
  lemma {:induction false} NoMoreThanCovered(run: seq<Event>)
    requires Possible(run)
    ensures Firings(run) <= After(run).covers <= After(run).sent
    decreases |run|
  {
    if run != [] {
      var init := run[..|run| - 1];
      forall k | 0 <= k < |init| ensures init[..k] == run[..k] {}
      NoMoreThanCovered(init);
    }
  }
}
