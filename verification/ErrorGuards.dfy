/**
 * The guard analysis of the raw-error-text rule: text read off an error may be
 * shown where the error is known to be an `ApiError`. When the analysis says
 * so, no execution reads the text off anything else.
 */
module ErrorGuards {
  import opened JsonValues
  import opened GuardTrees

  // -- the analysis ------------------------------------------------------------------

  /** `test` holds only when `subject` is an `ApiError`. */
  predicate Asserts(test: Node, subject: Subject) {
    match test
    case And(left, right) => Asserts(left, subject) || Asserts(right, subject)
    case GuardCall(x, args) => x == subject && |args| > 0
    case InstanceOf(x, _) => x == subject
    case _ => false
  }

  /** `test` is false only when `subject` is an `ApiError`. */
  predicate Refutes(test: Node, subject: Subject) {
    match test
    case Or(left, right) => Refutes(left, subject) || Refutes(right, subject)
    case Not(argument) => Asserts(argument, subject)
    case _ => false
  }

  /** `if (!isApiError(x)) return ...;`, or a block that ends in `return` or `throw`. */
  predicate RefutesThenExits(statement: Node, subject: Subject) {
    && statement.If? && statement.otherwise.None?
    && Refutes(statement.test, subject)
    && Exits(statement.consequent)
  }

  predicate Exits(n: Node) {
    var inner := if n.Scoped? then n.body else n;
    var exit := if inner.Block? then (if inner.statements == [] then None else Some(inner.statements[|inner.statements| - 1])) else Some(inner);
    exit.Some? && (exit.value.Return? || exit.value.Throw?)
  }

  /** What `parent` says of its child `slot`. */
  predicate ParentGuards(parent: Node, slot: nat, subject: Subject) {
    match parent
    case If(test, _, _) => (slot == 1 && Asserts(test, subject)) || (slot == 2 && Refutes(test, subject))
    case Conditional(test, _, _) => (slot == 1 && Asserts(test, subject)) || (slot == 2 && Refutes(test, subject))
    case And(left, _) => slot == 1 && Asserts(left, subject)
    case Block(statements) => exists k :: 0 <= k < slot && k < |statements| && RefutesThenExits(statements[k], subject)
    case _ => false
  }

  predicate IsPath(n: Node, path: Path)
    decreases path
  {
    path == [] || (path[0] < |Children(n)| && IsPath(Children(n)[path[0]], path[1..]))
  }

  function NodeAt(n: Node, path: Path): Node
    requires IsPath(n, path)
    decreases path
  {
    if path == [] then n else NodeAt(Children(n)[path[0]], path[1..])
  }

  /** Some node above the one at `path` guards the way down to it. */
  predicate Guarded(n: Node, path: Path, subject: Subject)
    requires IsPath(n, path)
    decreases path
  {
    path != [] && (ParentGuards(n, path[0], subject) || Guarded(Children(n)[path[0]], path[1..], subject))
  }

  lemma {:induction false} PathPrefix(n: Node, path: Path, d: nat)
    requires IsPath(n, path) && d <= |path|
    ensures IsPath(n, path[..d])
    decreases path
  {
    if d > 0 {
      PathPrefix(Children(n)[path[0]], path[1..], d - 1);
      assert path[..d][1..] == path[1..][..d - 1];
    }
  }

  lemma {:induction false} GuardedSomewhere(n: Node, path: Path, subject: Subject)
    requires IsPath(n, path)
    ensures forall d :: 0 <= d < |path| ==> IsPath(n, path[..d])
    ensures Guarded(n, path, subject) <==>
      exists d :: 0 <= d < |path| && IsPath(n, path[..d]) && ParentGuards(NodeAt(n, path[..d]), path[d], subject)
    decreases path
  {
    hide ParentGuards;
    forall d | 0 <= d < |path| ensures IsPath(n, path[..d]) { PathPrefix(n, path, d); }
    if path != [] {
      var child, rest := Children(n)[path[0]], path[1..];
      GuardedSomewhere(child, rest, subject);
      assert path[..0] == [];
      forall d | 0 <= d < |rest|
        ensures IsPath(n, path[..d + 1]) && NodeAt(n, path[..d + 1]) == NodeAt(child, rest[..d]) && path[d + 1] == rest[d]
      {
        assert path[..d + 1][1..] == rest[..d];
      }
      if Guarded(child, rest, subject) {
        var d :| 0 <= d < |rest| && IsPath(child, rest[..d]) && ParentGuards(NodeAt(child, rest[..d]), rest[d], subject);
        assert ParentGuards(NodeAt(n, path[..d + 1]), path[d + 1], subject);
      }
      if d: nat :| d < |path| && IsPath(n, path[..d]) && ParentGuards(NodeAt(n, path[..d]), path[d], subject) {
        if d > 0 {
          assert ParentGuards(NodeAt(child, rest[..d - 1]), rest[d - 1], subject);
        }
      }
    }
  }

  /** Walks up from the node, parent by parent. */
  method IsGuarded(root: Node, path: Path, subject: Subject) returns (r: bool)
    requires IsPath(root, path)
    ensures r == Guarded(root, path, subject)
  {
    GuardedSomewhere(root, path, subject);
    var d := |path|;
    while d > 0
      invariant 0 <= d <= |path|
      invariant forall e :: d <= e < |path| ==> !ParentGuards(NodeAt(root, path[..e]), path[e], subject)
    {
      d := d - 1;
      var parent := NodeAt(root, path[..d]);
      if ParentGuards(parent, path[d], subject) { return true; }
    }
    return false;
  }

  // -- tests -----------------------------------------------------------------------------

  lemma {:induction false} ListHasNoValue(ns: seq<Node>, i: nat, w: World, at: Path, time: Path, scope: Scope)
    requires i <= |ns|
    ensures !EvalAll(ns, i, w, at, time, scope).end.Value?
    decreases |ns| - i
  {
    if i < |ns| { ListHasNoValue(ns, i + 1, w, at, time, scope); }
  }

  /** When a test that asserts holds, the subject is an `ApiError`. */
  lemma {:induction false} AssertsIsSound(test: Node, w: World, at: Path, time: Path, scope: Scope)
    requires Asserts(test, w.subject) && Eval(test, w, at, time, scope).end == Value(true)
    ensures w.isError(scope)
    decreases test
  {
    if test.And? {
      if Asserts(test.left, w.subject) {
        AssertsIsSound(test.left, w, at + [0], time, scope);
      } else {
        AssertsIsSound(test.right, w, at + [1], time, scope);
      }
    } else if test.GuardCall? {
      ListHasNoValue(test.args, 0, w, at, time, scope);
    }
  }

  /** When a test that refutes fails, the subject is an `ApiError`. */
  lemma {:induction false} RefutesIsSound(test: Node, w: World, at: Path, time: Path, scope: Scope)
    requires Refutes(test, w.subject) && Eval(test, w, at, time, scope).end == Value(false)
    ensures w.isError(scope)
    decreases test
  {
    if test.Or? {
      if Refutes(test.left, w.subject) {
        RefutesIsSound(test.left, w, at + [0], time, scope);
      } else {
        RefutesIsSound(test.right, w, at + [1], time, scope);
      }
    } else {
      AssertsIsSound(test.argument, w, at + [0], time, scope);
    }
  }

  lemma TestHasValue(test: Node, w: World, at: Path, time: Path, scope: Scope)
    requires Refutes(test, w.subject)
    ensures !Eval(test, w, at, time, scope).end.Done?
  {
  }

  lemma {:induction false} BlockEndsExit(ns: seq<Node>, i: nat, w: World, at: Path, time: Path, scope: Scope)
    requires i < |ns| && (ns[|ns| - 1].Return? || ns[|ns| - 1].Throw?)
    ensures !EvalBlock(ns, i, w, at, time, scope).end.Done?
    decreases |ns| - i
  {
    if i < |ns| - 1 { BlockEndsExit(ns, i + 1, w, at, time, scope); }
  }

  lemma NeverDone(n: Node, w: World, at: Path, time: Path, scope: Scope)
    requires n.Return? || n.Throw? || (n.Block? && Exits(n))
    ensures !Eval(n, w, at, time, scope).end.Done?
  {
    if n.Block? { BlockEndsExit(n.statements, 0, w, at, time, scope); }
  }

  lemma ExitsNeverDone(n: Node, w: World, at: Path, time: Path, scope: Scope)
    requires Exits(n)
    ensures !Eval(n, w, at, time, scope).end.Done?
  {
    if n.Scoped? { NeverDone(n.body, w, at + [0], time, Inner(n, w, at, time, scope)); } else { NeverDone(n, w, at, time, scope); }
  }

  /** An early exit passed by means the subject is an `ApiError`. */
  lemma PassedExit(statement: Node, w: World, at: Path, time: Path, scope: Scope)
    requires RefutesThenExits(statement, w.subject) && Eval(statement, w, at, time, scope).end.Done?
    ensures w.isError(scope)
  {
    ExitsNeverDone(statement.consequent, w, at + [1], time, scope);
    RefutesIsSound(statement.test, w, at + [0], time, scope);
  }

  // -- what is reached lies inside ------------------------------------------------------------

  /** All lies at or below `at`, and at `at` itself in this scope. */
  ghost predicate AllUnder(reached: set<Visit>, at: Path, scope: Scope) {
    forall x :: x in reached ==> at <= x.at && (x.at == at ==> x.scope == scope)
  }

  lemma Deeper(reached: set<Visit>, at: Path, c: nat, inner: Scope, scope: Scope)
    requires AllUnder(reached, at + [c], inner)
    ensures AllUnder(reached, at, scope)
  {
    forall x | x in reached ensures at <= x.at && x.at != at {
      assert at + [c] <= x.at && |x.at| > |at|;
    }
  }

  lemma {:induction false} ReachedUnder(n: Node, w: World, at: Path, time: Path, scope: Scope)
    ensures AllUnder(Eval(n, w, at, time, scope).reached, at, scope)
    decreases n, 1, 0
  {
    if n.GuardCall? {
      AllReachedUnder(n.args, 0, w, at, time, scope);
    } else if n.Opaque? {
      AllReachedUnder(n.parts, 0, w, at, time, scope);
    } else if n.Block? {
      BlockReachedUnder(n.statements, 0, w, at, time, scope);
    } else if n.Callback? {
      CallsUnder(n, w.turns(at, time), w, at, time, scope);
    } else if n.Scoped? {
      ReachedUnder(n.body, w, at + [0], time, Inner(n, w, at, time, scope));
      Deeper(Eval(n.body, w, at + [0], time, Inner(n, w, at, time, scope)).reached, at, 0, Inner(n, w, at, time, scope), scope);
    } else if n.While? {
      TurnsUnder(n, w.turns(at, time), w, at, time, scope);
    } else {
      forall c | 0 <= c < |Children(n)| ensures AllUnder(Eval(Children(n)[c], w, at + [c], time, scope).reached, at, scope) {
        ReachedUnder(Children(n)[c], w, at + [c], time, scope);
        Deeper(Eval(Children(n)[c], w, at + [c], time, scope).reached, at, c, scope, scope);
      }
      FewReachedUnder(n, w, at, time, scope);
    }
  }

  /** What a branching node reaches: its test, or the branch its test picks. */
  lemma BranchTaken(n: Node, w: World, at: Path, time: Path, scope: Scope, x: Visit)
    requires n.If? || n.Conditional? || n.And?
    requires x in Eval(n, w, at, time, scope).reached && x != Visit(at, scope)
    ensures var test := Eval(Children(n)[0], w, at + [0], time, scope);
      || x in test.reached
      || (test.end == Value(true) && x in Eval(Children(n)[1], w, at + [1], time, scope).reached)
      || (|Children(n)| > 2 && test.end != Value(true) && (test.end == Value(false) || test.end.Done?)
          && x in Eval(Children(n)[2], w, at + [2], time, scope).reached)
  {
  }

  /** What a `try` reaches: its block, its handler or what comes last. */
  lemma TryTaken(n: Node, w: World, at: Path, time: Path, scope: Scope, x: Visit)
    requires n.Try? && x in Eval(n, w, at, time, scope).reached && x != Visit(at, scope)
    ensures exists c :: 0 <= c < |Children(n)| && x in Eval(Children(n)[c], w, at + [c], time, scope).reached
  {
    var last := 1 + |OptionList(n.handler)|;
    assert Children(n)[0] == n.block;
    assert n.handler.Some? ==> Children(n)[1] == n.handler.value;
    assert n.finalizer.Some? ==> last < |Children(n)| && Children(n)[last] == n.finalizer.value;
    assert x in Eval(n.block, w, at + [0], time, scope).reached
      || (n.handler.Some? && x in Eval(n.handler.value, w, at + [1], time, scope).reached)
      || (n.finalizer.Some? && x in Eval(n.finalizer.value, w, at + [last], time, scope).reached);
  }

  /** A node with one way in, or two: itself and what its children reach. */
  lemma PartTaken(n: Node, w: World, at: Path, time: Path, scope: Scope, x: Visit)
    requires n.InstanceOf? || n.Or? || n.Not? || n.Expression? || n.Return? || n.Throw? || n.Break? || n.Continue?
    requires x in Eval(n, w, at, time, scope).reached && x != Visit(at, scope)
    ensures |Children(n)| > 0
    ensures x in Eval(Children(n)[0], w, at + [0], time, scope).reached
      || (|Children(n)| > 1 && x in Eval(Children(n)[1], w, at + [1], time, scope).reached)
  {
  }

  /** Such a node reaches itself and what its children reach. */
  lemma FewReached(n: Node, w: World, at: Path, time: Path, scope: Scope, x: Visit)
    requires !n.GuardCall? && !n.Opaque? && !n.Block? && !n.Callback? && !n.Scoped? && !n.While?
    requires x in Eval(n, w, at, time, scope).reached && x != Visit(at, scope)
    ensures exists c :: 0 <= c < |Children(n)| && x in Eval(Children(n)[c], w, at + [c], time, scope).reached
  {
    hide Eval;
    if n.If? || n.Conditional? || n.And? {
      BranchTaken(n, w, at, time, scope, x);
    } else if n.Try? {
      TryTaken(n, w, at, time, scope, x);
    } else {
      PartTaken(n, w, at, time, scope, x);
    }
  }

  lemma FewReachedUnder(n: Node, w: World, at: Path, time: Path, scope: Scope)
    requires !n.GuardCall? && !n.Opaque? && !n.Block? && !n.Callback? && !n.Scoped? && !n.While?
    requires forall c :: 0 <= c < |Children(n)| ==> AllUnder(Eval(Children(n)[c], w, at + [c], time, scope).reached, at, scope)
    ensures AllUnder(Eval(n, w, at, time, scope).reached, at, scope)
  {
    hide Eval, Children;
    forall x | x in Eval(n, w, at, time, scope).reached ensures at <= x.at && (x.at == at ==> x.scope == scope) {
      if x != Visit(at, scope) { FewReached(n, w, at, time, scope, x); }
    }
  }

  lemma {:induction false} AllReachedUnder(ns: seq<Node>, i: nat, w: World, at: Path, time: Path, scope: Scope)
    requires i <= |ns|
    ensures AllUnder(EvalAll(ns, i, w, at, time, scope).reached, at, scope)
    decreases ns, 0, |ns| - i
  {
    if i < |ns| {
      ReachedUnder(ns[i], w, at + [i], time, scope);
      Deeper(Eval(ns[i], w, at + [i], time, scope).reached, at, i, scope, scope);
      AllReachedUnder(ns, i + 1, w, at, time, scope);
    }
  }

  lemma {:induction false} BlockReachedUnder(ns: seq<Node>, i: nat, w: World, at: Path, time: Path, scope: Scope)
    requires i <= |ns|
    ensures AllUnder(EvalBlock(ns, i, w, at, time, scope).reached, at, scope)
    decreases ns, 0, |ns| - i
  {
    if i < |ns| {
      ReachedUnder(ns[i], w, at + [i], time, scope);
      Deeper(Eval(ns[i], w, at + [i], time, scope).reached, at, i, scope, scope);
      BlockReachedUnder(ns, i + 1, w, at, time, scope);
    }
  }

  lemma {:induction false} CallsUnder(n: Node, k: nat, w: World, at: Path, time: Path, scope: Scope)
    requires n.Callback?
    ensures AllUnder(Calls(n, k, w, at, time, scope), at, scope)
    decreases n, 0, k
  {
    if k > 0 {
      CallsUnder(n, k - 1, w, at, time, scope);
      ReachedUnder(n.body, w, at + [0], time + [k], scope);
      Deeper(Eval(n.body, w, at + [0], time + [k], scope).reached, at, 0, scope, scope);
    }
  }

  lemma {:induction false} TurnsUnder(n: Node, k: nat, w: World, at: Path, time: Path, scope: Scope)
    requires n.While?
    ensures AllUnder(Turns(n, k, w, at, time, scope).reached, at, scope)
    decreases n, 0, k
  {
    if k > 0 {
      ReachedUnder(n.test, w, at + [0], time + [k], scope);
      ReachedUnder(n.body, w, at + [1], time + [k], scope);
      Deeper(Eval(n.test, w, at + [0], time + [k], scope).reached, at, 0, scope, scope);
      Deeper(Eval(n.body, w, at + [1], time + [k], scope).reached, at, 1, scope, scope);
      TurnsUnder(n, k - 1, w, at, time, scope);
    }
  }

  // -- guarded nodes ----------------------------------------------------------------------------

  lemma OneSlot(x: Path, at: Path, c: nat, d: nat)
    requires at + [c] <= x && at + [d] <= x
    ensures c == d && x != at
  {
    assert (at + [c])[|at|] == x[|at|] == (at + [d])[|at|];
  }

  /** What is reached under slot `c` is not reached under another. */
  lemma NotElsewhere(n: Node, w: World, at: Path, time: Path, scope: Scope, c: nat, d: nat, x: Visit)
    requires at + [c] <= x.at && c != d
    ensures x !in Eval(n, w, at + [d], time, scope).reached
  {
    ReachedUnder(n, w, at + [d], time, scope);
    if x in Eval(n, w, at + [d], time, scope).reached { OneSlot(x.at, at, c, d); }
  }

  lemma {:induction false} EnteredInList(ns: seq<Node>, i: nat, w: World, at: Path, time: Path, scope: Scope, c: nat, x: Visit)
    requires i <= |ns| && c < |ns| && at + [c] <= x.at
    requires x in EvalAll(ns, i, w, at, time, scope).reached
    ensures x in Eval(ns[c], w, at + [c], time, scope).reached
    decreases |ns| - i
  {
    if i < |ns| && i != c {
      NotElsewhere(ns[i], w, at, time, scope, c, i, x);
      EnteredInList(ns, i + 1, w, at, time, scope, c, x);
    } else if i < |ns| && x !in Eval(ns[i], w, at + [i], time, scope).reached {
      EnteredInList(ns, i + 1, w, at, time, scope, c, x);
    }
  }

  /** A statement is reached when all before it are done, early exits among them. */
  lemma {:induction false} EnteredInBlock(ns: seq<Node>, i: nat, w: World, at: Path, time: Path, scope: Scope, c: nat, x: Visit)
    requires i <= |ns| && c < |ns| && at + [c] <= x.at
    requires x in EvalBlock(ns, i, w, at, time, scope).reached
    ensures i <= c && x in Eval(ns[c], w, at + [c], time, scope).reached
    ensures forall k :: i <= k < c && RefutesThenExits(ns[k], w.subject) ==> w.isError(scope)
    decreases |ns| - i
  {
    if i < |ns| && i != c {
      NotElsewhere(ns[i], w, at, time, scope, c, i, x);
      EnteredInBlock(ns, i + 1, w, at, time, scope, c, x);
      if RefutesThenExits(ns[i], w.subject) { PassedExit(ns[i], w, at + [i], time, scope); }
    } else if i < |ns| && x !in Eval(ns[i], w, at + [i], time, scope).reached {
      EnteredInBlock(ns, i + 1, w, at, time, scope, c, x);
    }
  }

  lemma {:induction false} EnteredInCalls(n: Node, k: nat, w: World, at: Path, time: Path, scope: Scope, x: Visit) returns (later: Path)
    requires n.Callback? && x in Calls(n, k, w, at, time, scope)
    ensures x in Eval(n.body, w, at + [0], later, scope).reached
    decreases k
  {
    if x in Eval(n.body, w, at + [0], time + [k], scope).reached {
      later := time + [k];
    } else {
      later := EnteredInCalls(n, k - 1, w, at, time, scope, x);
    }
  }

  lemma {:induction false} EnteredInTurns(n: Node, k: nat, w: World, at: Path, time: Path, scope: Scope, c: nat, x: Visit) returns (later: Path)
    requires n.While? && c < 2 && at + [c] <= x.at && x in Turns(n, k, w, at, time, scope).reached
    ensures x in Eval(Children(n)[c], w, at + [c], later, scope).reached
    decreases k
  {
    hide Eval, Turns;
    TurnTaken(n, k, w, at, time, scope, x);
    NotElsewhere(Children(n)[1 - c], w, at, time + [k], scope, c, 1 - c, x);
    if x in Eval(Children(n)[c], w, at + [c], time + [k], scope).reached {
      later := time + [k];
    } else {
      later := EnteredInTurns(n, k - 1, w, at, time, scope, c, x);
    }
  }

  /** What a loop reaches it reaches in this turn or in those left. */
  lemma TurnTaken(n: Node, k: nat, w: World, at: Path, time: Path, scope: Scope, x: Visit)
    requires n.While? && x in Turns(n, k, w, at, time, scope).reached
    ensures k > 0
    ensures x in Eval(n.test, w, at + [0], time + [k], scope).reached || x in Eval(n.body, w, at + [1], time + [k], scope).reached
      || x in Turns(n, k - 1, w, at, time, scope).reached
  {
    hide Eval;
  }

  /** A test decides which branch is entered. */
  lemma EnteredBranch(n: Node, w: World, at: Path, time: Path, scope: Scope, c: nat, x: Visit)
    requires n.If? || n.Conditional? || n.And?
    requires c < |Children(n)| && at + [c] <= x.at && x in Eval(n, w, at, time, scope).reached
    ensures x in Eval(Children(n)[c], w, at + [c], time, scope).reached
    ensures ParentGuards(n, c, w.subject) ==> w.isError(scope)
  {
    hide Eval, Asserts, Refutes;
    OneSlot(x.at, at, c, c);
    forall d | 0 <= d < |Children(n)| && d != c ensures x !in Eval(Children(n)[d], w, at + [d], time, scope).reached {
      NotElsewhere(Children(n)[d], w, at, time, scope, c, d, x);
    }
    BranchTaken(n, w, at, time, scope, x);
    var test := Children(n)[0];
    var end := Eval(test, w, at + [0], time, scope).end;
    if Asserts(test, w.subject) && end == Value(true) { AssertsIsSound(test, w, at + [0], time, scope); }
    if Refutes(test, w.subject) && end == Value(false) { RefutesIsSound(test, w, at + [0], time, scope); }
    if Refutes(test, w.subject) { TestHasValue(test, w, at + [0], time, scope); }
  }

  lemma EnteredPart(n: Node, w: World, at: Path, time: Path, scope: Scope, c: nat, x: Visit)
    requires n.InstanceOf? || n.Or? || n.Not? || n.Expression? || n.Return? || n.Throw? || n.Try?
    requires c < |Children(n)| && at + [c] <= x.at && x in Eval(n, w, at, time, scope).reached
    ensures x in Eval(Children(n)[c], w, at + [c], time, scope).reached
  {
    OneSlot(x.at, at, c, c);
    forall d | 0 <= d < |Children(n)| && d != c ensures x !in Eval(Children(n)[d], w, at + [d], time, scope).reached {
      NotElsewhere(Children(n)[d], w, at, time, scope, c, d, x);
    }
  }

  lemma EnteredArgument(n: Node, w: World, at: Path, time: Path, scope: Scope, c: nat, x: Visit)
    requires n.GuardCall? || n.Opaque?
    requires c < |Children(n)| && at + [c] <= x.at && x in Eval(n, w, at, time, scope).reached
    ensures x in Eval(Children(n)[c], w, at + [c], time, scope).reached && !ParentGuards(n, c, w.subject)
  {
    OneSlot(x.at, at, c, c);
    EnteredInList(Children(n), 0, w, at, time, scope, c, x);
  }

  lemma EnteredStatement(n: Node, w: World, at: Path, time: Path, scope: Scope, c: nat, x: Visit)
    requires n.Block?
    requires c < |Children(n)| && at + [c] <= x.at && x in Eval(n, w, at, time, scope).reached
    ensures x in Eval(Children(n)[c], w, at + [c], time, scope).reached
    ensures ParentGuards(n, c, w.subject) ==> w.isError(scope)
  {
    OneSlot(x.at, at, c, c);
    EnteredInBlock(n.statements, 0, w, at, time, scope, c, x);
  }

  /** A callback or a loop runs its parts at a time of its own. */
  lemma EnteredLater(n: Node, w: World, at: Path, time: Path, scope: Scope, c: nat, x: Visit) returns (later: Path)
    requires n.Callback? || n.While?
    requires c < |Children(n)| && at + [c] <= x.at && x in Eval(n, w, at, time, scope).reached
    ensures x in Eval(Children(n)[c], w, at + [c], later, scope).reached && !ParentGuards(n, c, w.subject)
  {
    OneSlot(x.at, at, c, c);
    if n.Callback? {
      later := EnteredInCalls(n, w.turns(at, time), w, at, time, scope, x);
    } else {
      later := EnteredInTurns(n, w.turns(at, time), w, at, time, scope, c, x);
    }
  }

  lemma EnteredScope(n: Node, w: World, at: Path, time: Path, scope: Scope, c: nat, x: Visit)
    requires n.Scoped?
    requires c < |Children(n)| && at + [c] <= x.at && x in Eval(n, w, at, time, scope).reached
    ensures x in Eval(Children(n)[c], w, at + [c], time, Inner(n, w, at, time, scope)).reached && !ParentGuards(n, c, w.subject)
  {
    OneSlot(x.at, at, c, c);
  }

  /** The way to a node inside leads through the child it is in, past whatever guards that child. */
  lemma Entered(n: Node, w: World, at: Path, time: Path, scope: Scope, c: nat, x: Visit) returns (later: Path)
    requires c < |Children(n)| && at + [c] <= x.at && x in Eval(n, w, at, time, scope).reached
    ensures x in Eval(Children(n)[c], w, at + [c], later, Inner(n, w, at, time, scope)).reached
    ensures ParentGuards(n, c, w.subject) ==> w.isError(scope)
  {
    hide Eval, ParentGuards, Children;
    later := time;
    if n.GuardCall? || n.Opaque? {
      EnteredArgument(n, w, at, time, scope, c, x);
    } else if n.Block? {
      EnteredStatement(n, w, at, time, scope, c, x);
    } else if n.Callback? || n.While? {
      later := EnteredLater(n, w, at, time, scope, c, x);
    } else if n.Scoped? {
      EnteredScope(n, w, at, time, scope, c, x);
    } else if n.And? || n.If? || n.Conditional? {
      EnteredBranch(n, w, at, time, scope, c, x);
    } else {
      if n.Break? || n.Continue? { NoParts(n); }
      EnteredPart(n, w, at, time, scope, c, x);
      NoGuard(n, c, w.subject);
    }
  }

  lemma NoParts(n: Node)
    requires n.Break? || n.Continue?
    ensures Children(n) == []
  {
  }

  lemma NoGuard(n: Node, c: nat, subject: Subject)
    requires !n.If? && !n.Conditional? && !n.And? && !n.Block?
    ensures !ParentGuards(n, c, subject)
  {
  }

  // -- the same name, the same variable --------------------------------------------------------

  /** On the way to the node a name of the subject is declared again. */
  predicate Rebound(n: Node, path: Path, subject: Subject)
    requires IsPath(n, path)
    decreases path
  {
    path != [] && (Declares(n, subject) || Rebound(Children(n)[path[0]], path[1..], subject))
  }

  /** A guard above the node, with no declaration of a name of the subject between the two. */
  predicate GuardedInScope(n: Node, path: Path, subject: Subject)
    requires IsPath(n, path)
    decreases path
  {
    path != [] &&
    (|| (ParentGuards(n, path[0], subject) && !Rebound(Children(n)[path[0]], path[1..], subject))
     || GuardedInScope(Children(n)[path[0]], path[1..], subject))
  }

  lemma {:induction false} NeverRebound(n: Node, path: Path, subject: Subject)
    requires IsPath(n, path) && !Rebound(n, path, subject)
    ensures GuardedInScope(n, path, subject) <==> Guarded(n, path, subject)
    decreases path
  {
    if path != [] { NeverRebound(Children(n)[path[0]], path[1..], subject); }
  }

  /** Without a declaration on the way the names mean what they meant. */
  lemma {:induction false} SameScope(n: Node, path: Path, w: World, at: Path, time: Path, scope: Scope, x: Visit)
    requires IsPath(n, path) && !Rebound(n, path, w.subject)
    requires x.at == at + path && x in Eval(n, w, at, time, scope).reached
    ensures x.scope == scope
    decreases path
  {
    if path == [] {
      assert x.at == at;
      ReachedUnder(n, w, at, time, scope);
    } else {
      var c := path[0];
      assert at + path == at + [c] + path[1..];
      var later := Entered(n, w, at, time, scope, c, x);
      SameScope(Children(n)[c], path[1..], w, at + [c], later, scope, x);
    }
  }

  /**
   * A guarded node is evaluated only while what its subject reads is an
   * `ApiError`, for every tree, every node in it and every execution, as long
   * as no name of the subject is declared again between the guard and the node.
   */
  lemma {:induction false} GuardedIsSafe(root: Node, path: Path, w: World, at: Path, time: Path, scope: Scope, x: Visit)
    requires IsPath(root, path) && GuardedInScope(root, path, w.subject)
    requires x.at == at + path && x in Eval(root, w, at, time, scope).reached
    ensures w.isError(x.scope)
    decreases path
  {
    var c := path[0];
    assert at + path == at + [c] + path[1..];
    var later := Entered(root, w, at, time, scope, c, x);
    var child, rest := Children(root)[c], path[1..];
    if ParentGuards(root, c, w.subject) && !Rebound(child, rest, w.subject) {
      assert !root.Scoped?;
      SameScope(child, rest, w, at + [c], later, scope, x);
    } else {
      GuardedIsSafe(child, rest, w, at + [c], later, Inner(root, w, at, time, scope), x);
    }
  }

  // -- a name declared again --------------------------------------------------------------------

  const TEXT := Opaque([])

  function Handing(name: string): Node {
    Callback(Scoped({name}, TEXT))
  }

  /** `if (isApiError(subject)) { later((name) => ... subject.message) }` */
  function Handed(subject: Subject, name: string): Node {
    If(GuardCall(subject, [TEXT]), Handing(name), None)
  }

  /** What the outer variables hold is an `ApiError`, what the callback is handed holds none. */
  function HandedOver(subject: Subject): World {
    World(subject, s => s == Outer, (at, time) => true, (at, time) => false, (at, time) => 1)
  }

  lemma HandedPath(subject: Subject, name: string)
    requires name in Names(subject)
    ensures IsPath(Handed(subject, name), [1, 0, 0]) && NodeAt(Handed(subject, name), [1, 0, 0]) == TEXT
    ensures Guarded(Handed(subject, name), [1, 0, 0], subject) && !GuardedInScope(Handed(subject, name), [1, 0, 0], subject)
  {
    var root, callback := Handed(subject, name), Handing(name);
    assert Children(root)[1] == callback && Children(callback)[0] == callback.body && callback.body.body == TEXT;
    assert [1, 0, 0][1..] == [0, 0] && [0, 0][1..] == [0] && [0][1..] == [];
    assert name in callback.body.binds * Names(subject);
    assert IsPath(callback, [0, 0]) && Rebound(callback, [0, 0], subject) && !GuardedInScope(callback, [0, 0], subject);
  }

  /** A test that holds hands over to the first branch. */
  lemma BranchRuns(n: Node, w: World, at: Path, time: Path, scope: Scope)
    requires n.If? && Eval(n.test, w, at + [0], time, scope).end == Value(true)
    ensures Eval(n.consequent, w, at + [1], time, scope).reached <= Eval(n, w, at, time, scope).reached
  {
  }

  /**
   * The analysis compares texts only: where a callback declares a name the
   * subject reads, be it the subject itself or the variable it is a part of,
   * the node counts as guarded, and is not.
   */
  lemma ReboundEscapes(subject: Subject, name: string)
    requires name in Names(subject)
    ensures IsPath(Handed(subject, name), [1, 0, 0]) && NodeAt(Handed(subject, name), [1, 0, 0]) == TEXT
    ensures Guarded(Handed(subject, name), [1, 0, 0], subject) && !GuardedInScope(Handed(subject, name), [1, 0, 0], subject)
    ensures exists x: Visit ::
      && x.at == [1, 0, 0] && x in Eval(Handed(subject, name), HandedOver(subject), [], [], Outer).reached
      && !HandedOver(subject).isError(x.scope)
  {
    hide Eval, Guarded, GuardedInScope, IsPath, Names;
    HandedPath(subject, name);
    var w, inner := HandedOver(subject), Bound([1, 0], [1]);
    BodyRuns(w, name, inner);
    TestHolds(w);
    assert [] + [1] == [1] && [] + [0] == [0];
    BranchRuns(Handed(subject, name), w, [], [], Outer);
    assert Visit([1, 0, 0], inner) in Eval(Handed(subject, name), w, [], [], Outer).reached;
  }

  lemma TestHolds(w: World)
    requires w == HandedOver(w.subject)
    ensures Eval(GuardCall(w.subject, [TEXT]), w, [0], [], Outer).end == Value(true)
  {
    assert [TEXT][0] == TEXT;
    assert Eval(TEXT, w, [0] + [0], [], Outer).end.Value?;
    assert EvalAll([TEXT], 1, w, [0], [], Outer).end == Done;
  }

  lemma BodyRuns(w: World, name: string, inner: Scope)
    requires w == HandedOver(w.subject) && name in Names(w.subject) && inner == Bound([1, 0], [1])
    ensures Visit([1, 0, 0], inner) in Eval(Handing(name), w, [1], [], Outer).reached
  {
    hide Names;
    var callback := Handing(name);
    assert [1] + [0] == [1, 0] && [1, 0] + [0] == [1, 0, 0] && [] + [1] == [1];
    assert Visit([1, 0, 0], inner) in Eval(TEXT, w, [1, 0, 0], [1], inner).reached;
    assert name in callback.body.binds * Names(w.subject);
    assert Inner(callback.body, w, [1, 0], [1], Outer) == inner;
    assert Visit([1, 0, 0], inner) in Eval(callback.body, w, [1, 0], [1], Outer).reached;
    assert Visit([1, 0, 0], inner) in Calls(callback, 1, w, [1], [], Outer);
  }

  const QUERY_ERROR := Subject("query", [Dot("error")])

  /** `if (isApiError(query.error)) items.forEach((query) => ... query.error.message)` */
  lemma MemberReboundEscapes()
    ensures var root := Handed(QUERY_ERROR, "query");
      && IsPath(root, [1, 0, 0]) && Guarded(root, [1, 0, 0], QUERY_ERROR)
      && exists x: Visit ::
           && x.at == [1, 0, 0] && x in Eval(root, HandedOver(QUERY_ERROR), [], [], Outer).reached
           && !HandedOver(QUERY_ERROR).isError(x.scope)
  {
    hide Eval, Guarded;
    ReboundEscapes(QUERY_ERROR, "query");
  }
}
