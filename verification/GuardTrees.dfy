/**
 * Syntax trees as the lint rule on raw error text sees them, and how they run:
 * which nodes an execution evaluates.
 */
module GuardTrees {
  import opened JsonValues

  /** One step from a value to a part of it: `.property`, or `[index]` with the variable `index`. */
  datatype Step = Dot(property: string) | Index(index: string)

  /** A variable, or what is read off one: `error`, `query.error`, `rows[i].error`. */
  datatype Subject = Subject(root: string, steps: seq<Step>)

  function IndexNames(steps: seq<Step>): set<string> {
    if steps == [] then {} else (if steps[0].Index? then {steps[0].index} else {}) + IndexNames(steps[1..])
  }

  /** The variables a subject reads. */
  function Names(subject: Subject): set<string> {
    {subject.root} + IndexNames(subject.steps)
  }

  datatype Node =
    | GuardCall(subject: Subject, args: seq<Node>)   // isApiError(x, ...) or ApiError.is(x)
    | InstanceOf(subject: Subject, left: Node)       // x instanceof ApiError
    | And(left: Node, right: Node)
    | Or(left: Node, right: Node)
    | Not(argument: Node)
    | Conditional(test: Node, consequent: Node, alternate: Node)
    | Opaque(parts: seq<Node>)                      // any other expression
    | Callback(body: Node)                          // a function expression
    | Scoped(binds: set<string>, body: Node)        // names declared: parameters, a catch clause's, a block's
    | Expression(expression: Node)
    | If(test: Node, consequent: Node, otherwise: Option<Node>)
    | Block(statements: seq<Node>)
    | Return(value: Option<Node>)
    | Throw(argument: Node)
    | Break
    | Continue
    | While(test: Node, body: Node)
    | Try(block: Node, handler: Option<Node>, finalizer: Option<Node>)

  function OptionList(n: Option<Node>): seq<Node> {
    if n.Some? then [n.value] else []
  }

  function Children(n: Node): seq<Node> {
    match n
    case GuardCall(_, args) => args
    case InstanceOf(_, left) => [left]
    case And(left, right) => [left, right]
    case Or(left, right) => [left, right]
    case Not(argument) => [argument]
    case Conditional(test, consequent, alternate) => [test, consequent, alternate]
    case Opaque(parts) => parts
    case Callback(body) => [body]
    case Scoped(_, body) => [body]
    case Expression(expression) => [expression]
    case If(test, consequent, otherwise) => [test, consequent] + OptionList(otherwise)
    case Block(statements) => statements
    case Return(value) => OptionList(value)
    case Throw(argument) => [argument]
    case Break => []
    case Continue => []
    case While(test, body) => [test, body]
    case Try(block, handler, finalizer) => [block] + OptionList(handler) + OptionList(finalizer)
  }

  /** The way down from a node to one inside it, child by child. */
  type Path = seq<nat>

  // -- running ----------------------------------------------------------------------

  /** Which variables the subject's names mean: the outer ones, or some declared at a place and time. */
  datatype Scope = Outer | Bound(at: Path, time: Path)

  /**
   * One execution. `isError`: what the subject reads there, which is not
   * assigned, is an `ApiError`. Everything else a run depends on is asked
   * by place and time: whether a test holds, whether an expression throws, how
   * often a loop or a callback runs.
   */
  datatype World = World(
    subject: Subject, isError: Scope -> bool,
    holds: (Path, Path) -> bool, throws: (Path, Path) -> bool, turns: (Path, Path) -> nat)

  datatype Completion = Value(truthy: bool) | Done | Returned | Thrown | Broke | Continued | Endless

  /** A node evaluated, and what the subject's names mean there. */
  datatype Visit = Visit(at: Path, scope: Scope)

  /** The nodes evaluated, and how it ended. */
  datatype Run = Run(reached: set<Visit>, end: Completion)

  predicate Abrupt(end: Completion) {
    !end.Value? && !end.Done?
  }

  /** Where a value is wanted, a completion without one counts as `undefined`. */
  function Valued(r: Run): Run {
    if r.end.Done? then Run(r.reached, Value(false)) else r
  }

  function Then(before: set<Visit>, r: Run): Run {
    Run(before + r.reached, r.end)
  }

  /** A guard on the subject holds only when it is an `ApiError`; it may also check the code. */
  predicate GuardHolds(w: World, subject: Subject, at: Path, time: Path, scope: Scope) {
    w.holds(at, time) && (subject == w.subject ==> w.isError(scope))
  }

  /** Some name of the subject is declared here. */
  predicate Declares(n: Node, subject: Subject) {
    n.Scoped? && n.binds * Names(subject) != {}
  }

  /** Where a name of the subject is declared again, the subject is another one. */
  function Inner(n: Node, w: World, at: Path, time: Path, scope: Scope): Scope {
    if Declares(n, w.subject) then Bound(at, time) else scope
  }

  function Eval(n: Node, w: World, at: Path, time: Path, scope: Scope): Run
    decreases n, 1, 0
  {
    var inside :=
      match n
      case GuardCall(subject, args) =>
        var r := EvalAll(args, 0, w, at, time, scope);
        if r.end.Done? then Run(r.reached, Value(GuardHolds(w, subject, at, time, scope))) else r
      case InstanceOf(subject, left) =>
        var r := Valued(Eval(left, w, at + [0], time, scope));
        if r.end.Value? then Run(r.reached, Value(GuardHolds(w, subject, at, time, scope))) else r
      case And(left, right) =>
        var r := Valued(Eval(left, w, at + [0], time, scope));
        if r.end == Value(true) then Then(r.reached, Valued(Eval(right, w, at + [1], time, scope))) else r
      case Or(left, right) =>
        var r := Valued(Eval(left, w, at + [0], time, scope));
        if r.end == Value(false) then Then(r.reached, Valued(Eval(right, w, at + [1], time, scope))) else r
      case Not(argument) =>
        var r := Valued(Eval(argument, w, at + [0], time, scope));
        if r.end.Value? then Run(r.reached, Value(!r.end.truthy)) else r
      case Conditional(test, consequent, alternate) =>
        var r := Valued(Eval(test, w, at + [0], time, scope));
        if r.end == Value(true) then Then(r.reached, Eval(consequent, w, at + [1], time, scope))
        else if r.end == Value(false) then Then(r.reached, Eval(alternate, w, at + [2], time, scope))
        else r
      case Opaque(parts) =>
        var r := EvalAll(parts, 0, w, at, time, scope);
        if r.end.Done? then Run(r.reached, if w.throws(at, time) then Thrown else Value(w.holds(at, time))) else r
      case Callback(_) => Run(Calls(n, w.turns(at, time), w, at, time, scope), Value(true))
      case Scoped(binds, body) => Eval(body, w, at + [0], time, Inner(n, w, at, time, scope))
      case Expression(expression) =>
        var r := Eval(expression, w, at + [0], time, scope);
        if r.end.Value? then Run(r.reached, Done) else r
      case If(test, consequent, otherwise) =>
        var r := Valued(Eval(test, w, at + [0], time, scope));
        if r.end == Value(true) then Then(r.reached, Eval(consequent, w, at + [1], time, scope))
        else if r.end == Value(false) then
          if otherwise.Some? then Then(r.reached, Eval(otherwise.value, w, at + [2], time, scope)) else Run(r.reached, Done)
        else r
      case Block(statements) => EvalBlock(statements, 0, w, at, time, scope)
      case Return(value) =>
        if value.None? then Run({}, Returned)
        else
          var r := Eval(value.value, w, at + [0], time, scope);
          if Abrupt(r.end) then r else Run(r.reached, Returned)
      case Throw(argument) =>
        var r := Eval(argument, w, at + [0], time, scope);
        if Abrupt(r.end) then r else Run(r.reached, Thrown)
      case Break => Run({}, Broke)
      case Continue => Run({}, Continued)
      case While(_, _) => Turns(n, w.turns(at, time), w, at, time, scope)
      case Try(block, handler, finalizer) =>
        var r := Eval(block, w, at + [0], time, scope);
        var caught := if r.end.Thrown? && handler.Some? then Then(r.reached, Eval(handler.value, w, at + [1], time, scope)) else r;
        if finalizer.None? || caught.end.Endless? then caught
        else
          var last := Eval(finalizer.value, w, at + [1 + |OptionList(handler)|], time, scope);
          Run(caught.reached + last.reached, if last.end.Done? then caught.end else last.end);
    Then({Visit(at, scope)}, inside)
  }

  /** Expressions one after the other. */
  function EvalAll(ns: seq<Node>, i: nat, w: World, at: Path, time: Path, scope: Scope): Run
    requires i <= |ns|
    decreases ns, 0, |ns| - i
  {
    if i == |ns| then Run({}, Done)
    else
      var r := Eval(ns[i], w, at + [i], time, scope);
      if r.end.Value? then Then(r.reached, EvalAll(ns, i + 1, w, at, time, scope)) else r
  }

  /** Statements one after the other, while each is done normally. */
  function EvalBlock(ns: seq<Node>, i: nat, w: World, at: Path, time: Path, scope: Scope): Run
    requires i <= |ns|
    decreases ns, 0, |ns| - i
  {
    if i == |ns| then Run({}, Done)
    else
      var r := Eval(ns[i], w, at + [i], time, scope);
      if r.end.Done? then Then(r.reached, EvalBlock(ns, i + 1, w, at, time, scope)) else r
  }

  /** The calls of a callback, now or later: none changes the subject. */
  function Calls(n: Node, k: nat, w: World, at: Path, time: Path, scope: Scope): set<Visit>
    requires n.Callback?
    decreases n, 0, k
  {
    if k == 0 then {} else Calls(n, k - 1, w, at, time, scope) + Eval(n.body, w, at + [0], time + [k], scope).reached
  }

  /** A loop that has `k` turns left to watch. */
  function Turns(n: Node, k: nat, w: World, at: Path, time: Path, scope: Scope): Run
    requires n.While?
    decreases n, 0, k
  {
    if k == 0 then Run({}, Endless)
    else
      var test := Eval(n.test, w, at + [0], time + [k], scope);
      if test.end == Value(false) then Run(test.reached, Done)
      else if test.end != Value(true) then test
      else
        var body := Eval(n.body, w, at + [1], time + [k], scope);
        var sofar := test.reached + body.reached;
        if body.end.Broke? then Run(sofar, Done)
        else if body.end.Done? || body.end.Continued? then Then(sofar, Turns(n, k - 1, w, at, time, scope))
        else Run(sofar, body.end)
  }
}
