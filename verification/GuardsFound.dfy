/**
 * Which guards the analysis of the raw-error-text rule finds: every one
 * written in the ways it knows, and no other.
 */
module GuardsFound {
  import opened JsonValues
  import opened GuardTrees
  import opened ErrorGuards

  /** What a test holds all of: the leaves of its `&&`s. */
  ghost function Conjuncts(test: Node): set<Node> {
    if test.And? then Conjuncts(test.left) + Conjuncts(test.right) else {test}
  }

  /** What a test holds one of: the leaves of its `||`s. */
  ghost function Disjuncts(test: Node): set<Node> {
    if test.Or? then Disjuncts(test.left) + Disjuncts(test.right) else {test}
  }

  /** `isApiError(x, ...)`, `ApiError.is(x)` or `x instanceof ApiError`. */
  ghost predicate GuardOn(n: Node, subject: Subject) {
    (exists args: seq<Node> :: args != [] && n == GuardCall(subject, args)) || exists left: Node :: n == InstanceOf(subject, left)
  }

  /** A guard on the subject among the conjuncts. */
  ghost predicate Asserted(test: Node, subject: Subject) {
    exists g :: g in Conjuncts(test) && GuardOn(g, subject)
  }

  /** The negation of such a test among the disjuncts. */
  ghost predicate Denied(test: Node, subject: Subject) {
    exists inner: Node :: Not(inner) in Disjuncts(test) && Asserted(inner, subject)
  }

  ghost predicate Leaves(n: Node) {
    (exists value: Option<Node> :: n == Return(value)) || exists argument: Node :: n == Throw(argument)
  }

  /** A `return` or a `throw`, or a block that ends in one, with declarations or without. */
  ghost predicate WayOut(n: Node) {
    exists last: Node :: Leaves(last) && EndsIn(n, last)
  }

  ghost predicate EndsIn(n: Node, last: Node) {
    || n == last
    || (exists before: seq<Node> :: n == Block(before + [last]))
    || (exists binds: set<string> :: n == Scoped(binds, last))
    || exists binds: set<string>, before: seq<Node> :: n == Scoped(binds, Block(before + [last]))
  }

  /** `if (!isApiError(x) || ...) return ...;`, without an `else`. */
  ghost predicate EarlyExit(statement: Node, subject: Subject) {
    exists test: Node, out: Node :: statement == If(test, out, None) && Denied(test, subject) && WayOut(out)
  }

  /** Whoever comes to this child of `parent` has come past a guard. */
  ghost predicate GuardedChild(parent: Node, slot: nat, subject: Subject) {
    || (slot == 1 && (parent.If? || parent.Conditional?) && Asserted(parent.test, subject))
    || (slot == 2 && (parent.If? || parent.Conditional?) && Denied(parent.test, subject))
    || (slot == 1 && parent.And? && Asserted(parent.left, subject))
    || (parent.Block? && exists k: nat :: k < slot && k < |parent.statements| && EarlyExit(parent.statements[k], subject))
  }

  // -- the tests --------------------------------------------------------------------------------

  lemma {:induction false} AssertsFindsLeaf(test: Node, subject: Subject)
    ensures Asserts(test, subject) <==> Asserted(test, subject)
    decreases test
  {
    if test.And? {
      AssertsFindsLeaf(test.left, subject);
      AssertsFindsLeaf(test.right, subject);
    } else {
      assert test in Conjuncts(test);
      if test.GuardCall? { assert test == GuardCall(test.subject, test.args); }
      if test.InstanceOf? { assert test == InstanceOf(test.subject, test.left); }
    }
  }

  lemma {:induction false} RefutesFindsLeaf(test: Node, subject: Subject)
    ensures Refutes(test, subject) <==> Denied(test, subject)
    decreases test
  {
    hide Asserted, Asserts;
    if test.Or? {
      RefutesFindsLeaf(test.left, subject);
      RefutesFindsLeaf(test.right, subject);
    } else if test.Not? {
      AssertsFindsLeaf(test.argument, subject);
      assert Disjuncts(test) == {test} && test == Not(test.argument);
    }
  }

  lemma ExitsIsWayOut(n: Node)
    ensures Exits(n) <==> WayOut(n)
  {
    if Exits(n) {
      var inner := if n.Scoped? then n.body else n;
      var last := if inner.Block? then inner.statements[|inner.statements| - 1] else inner;
      assert Leaves(last) by { if last.Return? { assert last == Return(last.value); } else { assert last == Throw(last.argument); } }
      if inner.Block? { assert inner == Block(inner.statements[..|inner.statements| - 1] + [last]); }
      if n.Scoped? { assert n == Scoped(n.binds, inner); }
      assert EndsIn(n, last);
    }
  }

  lemma EarlyExitFound(statement: Node, subject: Subject)
    ensures RefutesThenExits(statement, subject) <==> EarlyExit(statement, subject)
  {
    hide Exits, WayOut, Refutes, Denied;
    if statement.If? {
      RefutesFindsLeaf(statement.test, subject);
      ExitsIsWayOut(statement.consequent);
      if statement.otherwise.None? { assert statement == If(statement.test, statement.consequent, None); }
    }
  }

  /** One node says of its child what is written there. */
  lemma GuardFound(parent: Node, slot: nat, subject: Subject)
    ensures ParentGuards(parent, slot, subject) <==> GuardedChild(parent, slot, subject)
  {
    hide Asserts, Refutes, Asserted, Denied, RefutesThenExits, EarlyExit;
    match parent
    case If(test, _, _) =>
      AssertsFindsLeaf(test, subject);
      RefutesFindsLeaf(test, subject);
    case Conditional(test, _, _) =>
      AssertsFindsLeaf(test, subject);
      RefutesFindsLeaf(test, subject);
    case And(left, _) => AssertsFindsLeaf(left, subject);
    case Block(statements) =>
      forall k: nat | k < |statements| ensures RefutesThenExits(statements[k], subject) <==> EarlyExit(statements[k], subject) {
        EarlyExitFound(statements[k], subject);
      }
    case _ =>
  }

  // -- the way up -------------------------------------------------------------------------------

  /**
   * A node counts as guarded exactly when some node above it holds a test with
   * such a guard, on the side where it must have held, or an early exit before
   * the statement the node is in.
   */
  lemma GuardedIff(root: Node, path: Path, subject: Subject)
    requires IsPath(root, path)
    ensures Guarded(root, path, subject) <==>
      exists d: nat :: d < |path| && IsPath(root, path[..d]) && GuardedChild(NodeAt(root, path[..d]), path[d], subject)
  {
    hide ParentGuards, GuardedChild, Guarded;
    GuardedSomewhere(root, path, subject);
    forall d: nat | d < |path| && IsPath(root, path[..d])
      ensures ParentGuards(NodeAt(root, path[..d]), path[d], subject) <==> GuardedChild(NodeAt(root, path[..d]), path[d], subject)
    {
      GuardFound(NodeAt(root, path[..d]), path[d], subject);
    }
  }

  /** Below a guarded child every node is guarded. */
  lemma GuardedBelow(root: Node, above: Path, slot: nat, below: Path, subject: Subject)
    requires IsPath(root, above) && IsPath(root, above + [slot] + below)
    requires GuardedChild(NodeAt(root, above), slot, subject)
    ensures Guarded(root, above + [slot] + below, subject)
  {
    hide GuardedChild, Guarded;
    var path := above + [slot] + below;
    GuardedIff(root, path, subject);
    assert path[..|above|] == above && path[|above|] == slot;
  }

  /**
   * In the first branch of an `if` or `?:` whose test asserts the guard, in the
   * other branch of one whose test denies it, and right of an `&&` whose left
   * side asserts it, every node is guarded, however deep.
   */
  lemma BranchIsGuarded(root: Node, above: Path, below: Path, subject: Subject)
    requires IsPath(root, above)
    ensures var n := NodeAt(root, above);
      && ((n.If? || n.Conditional?) && Asserted(n.test, subject) && IsPath(root, above + [1] + below)
          ==> Guarded(root, above + [1] + below, subject))
      && ((n.If? || n.Conditional?) && Denied(n.test, subject) && IsPath(root, above + [2] + below)
          ==> Guarded(root, above + [2] + below, subject))
      && (n.And? && Asserted(n.left, subject) && IsPath(root, above + [1] + below) ==> Guarded(root, above + [1] + below, subject))
  {
    hide Asserted, Denied, Guarded, IsPath, NodeAt;
    var n := NodeAt(root, above);
    if GuardedChild(n, 1, subject) && IsPath(root, above + [1] + below) { GuardedBelow(root, above, 1, below, subject); }
    if GuardedChild(n, 2, subject) && IsPath(root, above + [2] + below) { GuardedBelow(root, above, 2, below, subject); }
  }

  /** Behind an early exit every node of the same block is guarded, however deep. */
  lemma BehindExitIsGuarded(root: Node, above: Path, k: nat, slot: nat, below: Path, subject: Subject)
    requires IsPath(root, above) && IsPath(root, above + [slot] + below)
    requires var n := NodeAt(root, above); n.Block? && k < |n.statements| && EarlyExit(n.statements[k], subject)
    requires k < slot
    ensures Guarded(root, above + [slot] + below, subject)
  {
    hide EarlyExit, Guarded, IsPath, NodeAt;
    GuardedBelow(root, above, slot, below, subject);
  }
}
