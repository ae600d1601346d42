/** The order of the diff's output: breaking changes first, each kind as it was found. */
module ChangeOrder {
  import opened Comparison

  function Of(severity: Severity, changes: seq<Change>): (r: seq<Change>)
    ensures forall c :: c in r <==> c in changes && c.severity == severity
  {
    if changes == [] then []
    else (if changes[0].severity == severity then [changes[0]] else []) + Of(severity, changes[1..])
  }

  /** The comparator of the final sort, on the positions of two changes. */
  predicate Before(all: seq<Change>, i: nat, j: nat)
    requires i < |all| && j < |all|
  {
    var x, y := if all[i].severity.Breaking? then 0 else 1, if all[j].severity.Breaking? then 0 else 1;
    x < y || (x == y && i < j)
  }

  /** `order` lists every position once, each one before the next. */
  ghost predicate SortedOrder(all: seq<Change>, order: seq<nat>) {
    && (forall k :: 0 <= k < |order| ==> order[k] < |all|)
    && (forall i :: 0 <= i < |all| ==> i in order)
    && (forall k, l :: 0 <= k < l < |order| ==> Before(all, order[k], order[l]))
  }

  function Pick(all: seq<Change>, order: seq<nat>): (r: seq<Change>)
    requires forall k :: 0 <= k < |order| ==> order[k] < |all|
    ensures |r| == |order| && forall k :: 0 <= k < |r| ==> r[k] == all[order[k]]
  {
    seq(|order|, k requires 0 <= k < |order| => all[order[k]])
  }

  function Positions(severity: Severity, all: seq<Change>, i: nat): (r: seq<nat>)
    requires i <= |all|
    ensures forall k :: 0 <= k < |r| ==> i <= r[k] < |all| && all[r[k]].severity == severity
    ensures forall j :: i <= j < |all| && all[j].severity == severity ==> j in r
    ensures forall k, l :: 0 <= k < l < |r| ==> r[k] < r[l]
    decreases |all| - i
  {
    if i == |all| then []
    else if all[i].severity == severity then [i] + Positions(severity, all, i + 1)
    else Positions(severity, all, i + 1)
  }

  lemma PickAppend(all: seq<Change>, p: seq<nat>, q: seq<nat>)
    requires forall k :: 0 <= k < |p| ==> p[k] < |all|
    requires forall k :: 0 <= k < |q| ==> q[k] < |all|
    ensures forall k :: 0 <= k < |p + q| ==> (p + q)[k] < |all|
    ensures Pick(all, p + q) == Pick(all, p) + Pick(all, q)
  {
  }

  lemma {:induction false} PickPositions(severity: Severity, all: seq<Change>, i: nat)
    requires i <= |all|
    ensures Pick(all, Positions(severity, all, i)) == Of(severity, all[i..])
    decreases |all| - i
  {
    if i < |all| {
      PickPositions(severity, all, i + 1);
      assert all[i..][0] == all[i] && all[i..][1..] == all[i + 1..];
      var head := if all[i].severity == severity then [i] else [];
      PickAppend(all, head, Positions(severity, all, i + 1));
      assert Pick(all, head) == if all[i].severity == severity then [all[i]] else [];
    }
  }

  /** What `q` lists next stands no earlier in `p`. */
  lemma NotBefore(all: seq<Change>, p: seq<nat>, q: seq<nat>, n: nat) returns (l: nat)
    requires SortedOrder(all, p) && SortedOrder(all, q) && n < |q| && n <= |p| && p[..n] == q[..n]
    ensures n <= l < |p| && p[l] == q[n]
  {
    assert q[n] in p;
    l :| 0 <= l < |p| && p[l] == q[n];
    forall k | 0 <= k < n ensures p[k] != q[n] {
      assert p[k] == p[..n][k] == q[..n][k] == q[k];
      assert Before(all, q[k], q[n]);
    }
  }

  lemma {:induction false} SamePrefix(all: seq<Change>, p: seq<nat>, q: seq<nat>, n: nat)
    requires SortedOrder(all, p) && SortedOrder(all, q) && n <= |p| && n <= |q|
    ensures p[..n] == q[..n]
  {
    if n > 0 {
      SamePrefix(all, p, q, n - 1);
      var l := NotBefore(all, p, q, n - 1);
      var k := NotBefore(all, q, p, n - 1);
      assert p[n - 1] == q[n - 1];
      assert p[..n] == p[..n - 1] + [p[n - 1]] && q[..n] == q[..n - 1] + [q[n - 1]];
    }
  }

  lemma NoLonger(all: seq<Change>, p: seq<nat>, q: seq<nat>)
    requires SortedOrder(all, p) && SortedOrder(all, q)
    ensures |p| <= |q|
  {
    if |p| > |q| {
      SamePrefix(all, p, q, |q|);
      var l := NotBefore(all, q, p, |q|);
    }
  }

  /** There is one way to sort the positions. */
  lemma OneSortedOrder(all: seq<Change>, p: seq<nat>, q: seq<nat>)
    requires SortedOrder(all, p) && SortedOrder(all, q)
    ensures p == q
  {
    NoLonger(all, p, q);
    NoLonger(all, q, p);
    SamePrefix(all, p, q, |p|);
    assert p[..|p|] == p && q[..|p|] == q;
  }

  /** However the changes are sorted by (severity, position), breaking ones come first and none changes places with its like. */
  lemma SortIsStablePartition(all: seq<Change>, order: seq<nat>)
    requires SortedOrder(all, order)
    ensures Pick(all, order) == Of(Breaking, all) + Of(Notable, all)
  {
    var first, second := Positions(Breaking, all, 0), Positions(Notable, all, 0);
    BothKinds(all, first, second);
    OneSortedOrder(all, order, first + second);
    PickAppend(all, first, second);
    PickPositions(Breaking, all, 0);
    PickPositions(Notable, all, 0);
    assert all[0..] == all;
  }

  lemma BothKinds(all: seq<Change>, first: seq<nat>, second: seq<nat>)
    requires first == Positions(Breaking, all, 0) && second == Positions(Notable, all, 0)
    ensures SortedOrder(all, first + second)
  {
    var mine := first + second;
    forall i | 0 <= i < |all| ensures i in mine {
      assert i in if all[i].severity.Breaking? then first else second;
    }
    forall k, l | 0 <= k < l < |mine| ensures Before(all, mine[k], mine[l]) {
      if l < |first| {
        InOrder(all, Breaking, first, k, l);
      } else if k >= |first| {
        InOrder(all, Notable, second, k - |first|, l - |first|);
      }
    }
  }

  lemma InOrder(all: seq<Change>, severity: Severity, positions: seq<nat>, k: nat, l: nat)
    requires positions == Positions(severity, all, 0) && k < l < |positions|
    ensures Before(all, positions[k], positions[l])
  {
  }
}
