/** The diff of two API surfaces, and what its silence means for a request and a response. */
module Surfaces {
  import opened JsonValues
  import opened Schemas
  import opened Meaning
  import opened Pairing
  import opened Comparison
  import opened Fitting
  import opened ChangeOrder
  import opened UrlShapes
  import RequestSoundness
  import ResponseSoundness
  import ResponseNotes

  datatype Param = Param(name: string, place: string, required: bool, schema: Schema)

  /** What the server makes of a call without the body an operation declares. */
  datatype Absence = Refused | Accepted | ReadAsEmpty

  /** `absence` is up to the server's validator: the diff does not see it. */
  datatype Operation = Operation(
    params: seq<Param>, body: Option<Schema>, absence: Absence, status: int, response: Option<Schema>)

  /** `"GET /api/v1/orders/{id}"` and what answers there, in surface order. */
  datatype Entry = Entry(key: string, operation: Operation)

  // -- parameters ------------------------------------------------------------------------

  function PathParams(params: seq<Param>): (r: seq<Param>) {
    if params == [] then []
    else (if params[0].place == "path" then [params[0]] else []) + PathParams(params[1..])
  }

  function NameOf(p: Param): string {
    p.place + " " + p.name
  }

  /** Sets a key of an insertion-ordered map. */
  function Put(entries: seq<Param>, p: Param): (r: seq<Param>)
    ensures forall q :: q in r ==> q == p || q in entries
  {
    if entries == [] then [p]
    else if NameOf(entries[0]) == NameOf(p) then [p] + entries[1..]
    else [entries[0]] + Put(entries[1..], p)
  }

  /** The parameters sent by name, from the `i`-th on added to `entries`. */
  function OthersFrom(params: seq<Param>, i: nat, entries: seq<Param>): (r: seq<Param>)
    requires i <= |params|
    ensures forall q :: q in r ==> q in params || q in entries
    decreases |params| - i
  {
    if i == |params| then entries
    else OthersFrom(params, i + 1, if params[i].place == "path" then entries else Put(entries, params[i]))
  }

  function Others(params: seq<Param>): (r: seq<Param>)
    ensures forall q :: q in r ==> q in params
  {
    OthersFrom(params, 0, [])
  }

  predicate DistinctParams(entries: seq<Param>) {
    forall i, j :: 0 <= i < j < |entries| ==> NameOf(entries[i]) != NameOf(entries[j])
  }

  lemma {:induction false} PutDistinct(entries: seq<Param>, p: Param)
    requires DistinctParams(entries)
    ensures DistinctParams(Put(entries, p))
    ensures forall q :: q in Put(entries, p) ==> NameOf(q) == NameOf(p) || q in entries
  {
    if entries != [] && NameOf(entries[0]) != NameOf(p) {
      PutDistinct(entries[1..], p);
      var rest := Put(entries[1..], p);
      forall j | 0 <= j < |rest| ensures NameOf(entries[0]) != NameOf(rest[j]) {
        assert rest[j] in rest;
      }
    }
  }

  lemma {:induction false} OthersFromDistinct(params: seq<Param>, i: nat, entries: seq<Param>)
    requires i <= |params| && DistinctParams(entries)
    ensures DistinctParams(OthersFrom(params, i, entries))
    decreases |params| - i
  {
    if i < |params| {
      PutDistinct(entries, params[i]);
      OthersFromDistinct(params, i + 1, if params[i].place == "path" then entries else Put(entries, params[i]));
    }
  }

  /** The map of parameters names each once. */
  lemma OthersDistinct(params: seq<Param>)
    ensures DistinctParams(Others(params))
  {
    OthersFromDistinct(params, 0, []);
  }

  function Named(entries: seq<Param>, name: string): (r: Option<Param>)
    ensures r.Some? ==> r.value in entries && NameOf(r.value) == name
    ensures r.None? ==> forall q :: q in entries ==> NameOf(q) != name
  {
    if entries == [] then None
    else if NameOf(entries[0]) == name then Some(entries[0])
    else Named(entries[1..], name)
  }

  // -- the diff ----------------------------------------------------------------------------

  function PathChange(a: seq<Param>, b: seq<Param>, i: nat, op: string): seq<Change>
    requires i < |a|
  {
    if i < |b| then Compare(Request, a[i].schema, b[i].schema, op, "path {" + a[i].name + "}") else []
  }

  function PathSteps(a: seq<Param>, b: seq<Param>, op: string): (r: seq<seq<Change>>)
    ensures |r| == |a| && forall i :: 0 <= i < |a| ==> r[i] == PathChange(a, b, i, op)
  {
    seq(|a|, i requires 0 <= i < |a| => PathChange(a, b, i, op))
  }

  function OtherChange(p: Param, b: seq<Param>, op: string): seq<Change> {
    var now := Named(b, NameOf(p));
    if now.None? then [Change(Breaking, op, NameOf(p))]
    else
      When(!p.required && now.value.required, Breaking, op, NameOf(p))
      + Compare(Request, p.schema, now.value.schema, op, NameOf(p))
  }

  function OtherSteps(a: seq<Param>, b: seq<Param>, op: string): (r: seq<seq<Change>>)
    ensures |r| == |a| && forall i :: 0 <= i < |a| ==> r[i] == OtherChange(a[i], b, op)
  {
    seq(|a|, i requires 0 <= i < |a| => OtherChange(a[i], b, op))
  }

  predicate NewParam(a: seq<Param>, q: Param) {
    Named(a, NameOf(q)).None? && q.required
  }

  function NewParamSteps(a: seq<Param>, b: seq<Param>, op: string): (r: seq<seq<Change>>)
    ensures |r| == |b| && forall j :: 0 <= j < |b| ==> r[j] == When(NewParam(a, b[j]), Breaking, op, NameOf(b[j]))
  {
    seq(|b|, j requires 0 <= j < |b| => When(NewParam(a, b[j]), Breaking, op, NameOf(b[j])))
  }

  function ParamChanges(before: Operation, after: Operation, op: string): seq<Change> {
    var otherA, otherB := Others(before.params), Others(after.params);
    Concat(PathSteps(PathParams(before.params), PathParams(after.params), op))
    + Concat(OtherSteps(otherA, otherB, op))
    + Concat(NewParamSteps(otherA, otherB, op))
  }

  function BodyChanges(before: Operation, after: Operation, op: string): seq<Change> {
    if before.body.Some? && after.body.None? then [Change(Breaking, op, "body")]
    else if before.body.None? && after.body.Some? then When(after.body.value.required != [], Breaking, op, "body")
    else if before.body.Some? then Compare(Request, before.body.value, after.body.value, op, "body")
    else []
  }

  function ResponseChanges(before: Operation, after: Operation, op: string): seq<Change> {
    When(before.status != after.status, Notable, op, "response")
    + if before.response.Some? && after.response.None? then [Change(Breaking, op, "response")]
      else if before.response.Some? then Compare(Response, before.response.value, after.response.value, op, "response")
      else []
  }

  function OperationChanges(before: Operation, after: Operation, op: string): seq<Change> {
    ParamChanges(before, after, op) + BodyChanges(before, after, op) + ResponseChanges(before, after, op)
  }

  /** The operation that answers a URL shape; a later entry replaces an earlier one. */
  function ByShape(current: seq<Entry>, shape: string): (r: Option<Operation>)
    ensures r.Some? ==> exists j :: 0 <= j < |current| && UrlShape(current[j].key) == shape && current[j].operation == r.value
  {
    if current == [] then None
    else
      var last := current[|current| - 1];
      if UrlShape(last.key) == shape then Some(last.operation)
      else ByShape(current[..|current| - 1], shape)
  }

  function EntryChanges(before: Entry, current: seq<Entry>): seq<Change> {
    var after := ByShape(current, UrlShape(before.key));
    if after.None? then [Change(Breaking, before.key, "operation")]
    else OperationChanges(before.operation, after.value, before.key)
  }

  function EntrySteps(baseline: seq<Entry>, current: seq<Entry>): (r: seq<seq<Change>>)
    ensures |r| == |baseline| && forall i :: 0 <= i < |baseline| ==> r[i] == EntryChanges(baseline[i], current)
  {
    seq(|baseline|, i requires 0 <= i < |baseline| => EntryChanges(baseline[i], current))
  }

  /** Every change, in surface order. */
  function Changes(baseline: seq<Entry>, current: seq<Entry>): seq<Change> {
    Concat(EntrySteps(baseline, current))
  }

  /** Every change, breaking ones first, each kind in surface order. */
  function Diff(baseline: seq<Entry>, current: seq<Entry>): (r: seq<Change>)
    ensures forall c :: c in r <==> c in Changes(baseline, current)
  {
    var all := Changes(baseline, current);
    Of(Breaking, all) + Of(Notable, all)
  }

  // -- requests and answers --------------------------------------------------------------------

  /** Path parameters by position, the others by place and name. */
  datatype Call = Call(path: seq<Json>, named: map<string, Json>, body: Option<Json>)

  /** The server behind `op` serves a call without a body. */
  ghost predicate ServesAbsence(ru: Rules, op: Operation) {
    || op.body.None? || op.absence.Accepted?
    || (op.absence.ReadAsEmpty? && Receives(ru, true, op.body.value, Obj(map[])))
  }

  /** A call a client of `op` may make. */
  ghost predicate Makes(ru: Rules, op: Operation, c: Call) {
    var path, others := PathParams(op.params), Others(op.params);
    && |c.path| == |path|
    && (forall i :: 0 <= i < |path| ==> Sends(ru, path[i].schema, c.path[i], NO_KEYS))
    && (forall p :: p in others && p.required ==> NameOf(p) in c.named)
    && (forall name :: name in c.named ==>
          Named(others, name).Some? && Sends(ru, Named(others, name).value.schema, c.named[name], NO_KEYS))
    && (c.body.Some? ==> op.body.Some? && Sends(ru, op.body.value, c.body.value, NO_KEYS))
    && (c.body.None? ==> ServesAbsence(ru, op))
  }

  /** A call the server behind `op` validates. */
  ghost predicate Serves(ru: Rules, op: Operation, c: Call) {
    var path, others := PathParams(op.params), Others(op.params);
    && |c.path| == |path|
    && (forall i :: 0 <= i < |path| ==> Receives(ru, true, path[i].schema, c.path[i]))
    && (forall p :: p in others && p.required ==> NameOf(p) in c.named)
    && (forall p :: p in others && NameOf(p) in c.named ==> Receives(ru, true, p.schema, c.named[NameOf(p)]))
    && (c.body.Some? ==> op.body.Some? && Receives(ru, true, op.body.value, c.body.value))
    && (c.body.None? ==> ServesAbsence(ru, op))
  }

  /** A body that is an object and nothing else. */
  predicate PlainObject(s: Schema) {
    && (s.types == One("object") || s.types.Untyped?)
    && s.enumeration.None? && s.constant.None?
    && s.anyOf.Absent? && s.oneOf.Absent? && s.allOf.Absent?
  }

  // -- well-formed surfaces ----------------------------------------------------------------------

  ghost predicate WfBefore(ru: Rules, e: Entry) {
    var op := e.operation;
    && |PathParams(op.params)| == Placeholders(UrlShape(e.key))
    && (forall p :: p in op.params ==> WfSender(true, p.schema))
    && (op.body.Some? ==> WfSender(true, op.body.value))
    && (op.response.Some? ==> WfReceiver(ru, false, op.response.value))
  }

  ghost predicate WfAfter(ru: Rules, e: Entry) {
    var op := e.operation;
    && |PathParams(op.params)| == Placeholders(UrlShape(e.key))
    && (forall p :: p in op.params ==> WfReceiver(ru, true, p.schema))
    && (op.body.Some? ==> WfReceiver(ru, true, op.body.value))
    && (op.response.Some? ==> WfSender(false, op.response.value))
  }

  /** `Fits` for every pair of schemas the diff compares. */
  ghost predicate OperationFits(before: Operation, after: Operation) {
    && (forall i :: 0 <= i < |PathParams(before.params)| && i < |PathParams(after.params)| ==>
          Fits(Request, PathParams(before.params)[i].schema, PathParams(after.params)[i].schema, NO_KEYS))
    && (forall p, q :: p in before.params && q in after.params && NameOf(p) == NameOf(q) ==>
          Fits(Request, p.schema, q.schema, NO_KEYS))
    && (before.body.Some? && after.body.Some? ==> Fits(Request, before.body.value, after.body.value, NO_KEYS))
    && (before.response.Some? && after.response.Some? ==>
          Fits(Response, before.response.value, after.response.value, NO_KEYS))
  }

  ghost predicate SurfacesFit(ru: Rules, baseline: seq<Entry>, current: seq<Entry>) {
    && (forall i :: 0 <= i < |baseline| ==> WfBefore(ru, baseline[i]))
    && (forall j :: 0 <= j < |current| ==> WfAfter(ru, current[j]))
    && forall i, j :: 0 <= i < |baseline| && 0 <= j < |current| && UrlShape(baseline[i].key) == UrlShape(current[j].key) ==>
         OperationFits(baseline[i].operation, current[j].operation)
  }

  // -- what silence says of each loop ------------------------------------------------------------

  lemma SilentSplit(a: seq<Change>, b: seq<Change>)
    ensures a + b == [] <==> a == [] && b == []
  {
    assert |a + b| == |a| + |b|;
  }

  lemma OtherKept(p: Param, b: seq<Param>, op: string) returns (q: Param)
    requires NothingBreaking(OtherChange(p, b, op))
    ensures Named(b, NameOf(p)) == Some(q) && (q.required ==> p.required)
    ensures NothingBreaking(Compare(Request, p.schema, q.schema, op, NameOf(p)))
  {
    QuietWhen(true, op, NameOf(p));
    q := Named(b, NameOf(p)).value;
    var made := When(!p.required && q.required, Breaking, op, NameOf(p));
    QuietParts(made, Compare(Request, p.schema, q.schema, op, NameOf(p)));
    QuietWhen(!p.required && q.required, op, NameOf(p));
  }

  // -- requests ------------------------------------------------------------------------------------

  lemma PathServed(ru: Rules, before: Entry, after: Entry, c: Call)
    requires WfBefore(ru, before) && WfAfter(ru, after) && UrlShape(before.key) == UrlShape(after.key)
    requires OperationFits(before.operation, after.operation)
    requires NothingBreaking(Concat(PathSteps(PathParams(before.operation.params), PathParams(after.operation.params), before.key)))
    requires Makes(ru, before.operation, c)
    ensures var path := PathParams(after.operation.params);
      |c.path| == |path| && forall i :: 0 <= i < |path| ==> Receives(ru, true, path[i].schema, c.path[i])
  {
    var a, b := PathParams(before.operation.params), PathParams(after.operation.params);
    forall i | 0 <= i < |b| ensures Receives(ru, true, b[i].schema, c.path[i]) {
      QuietStep(PathSteps(a, b, before.key), i);
      PathParamsAmong(before.operation.params, a[i]);
      PathParamsAmong(after.operation.params, b[i]);
      RequestSoundness.RequestsStayAccepted(ru, a[i].schema, b[i].schema, before.key, "path {" + a[i].name + "}", c.path[i]);
    }
  }

  lemma {:induction false} PathParamsAmong(params: seq<Param>, p: Param)
    requires p in PathParams(params)
    ensures p in params
  {
    if params != [] && p in PathParams(params[1..]) { PathParamsAmong(params[1..], p); }
  }

  lemma NamedAt(entries: seq<Param>, p: Param)
    requires DistinctParams(entries) && p in entries
    ensures Named(entries, NameOf(p)) == Some(p)
  {
    var r := Named(entries, NameOf(p));
    assert r.Some?;
    var i :| 0 <= i < |entries| && entries[i] == p;
    var j :| 0 <= j < |entries| && entries[j] == r.value;
    assert i == j;
  }

  /** Where a parameter the new operation names was, if the client sends it. */
  lemma OtherServed(ru: Rules, before: Operation, after: Operation, c: Call, q: Param, op: string)
    requires forall p :: p in before.params ==> WfSender(true, p.schema)
    requires WfReceiver(ru, true, q.schema)
    requires OperationFits(before, after)
    requires NothingBreaking(Concat(OtherSteps(Others(before.params), Others(after.params), op)))
    requires Makes(ru, before, c)
    requires q in Others(after.params) && NameOf(q) in c.named
    ensures Receives(ru, true, q.schema, c.named[NameOf(q)])
  {
    var a, b := Others(before.params), Others(after.params);
    var p := Named(a, NameOf(q)).value;
    var now := OtherPair(a, b, p, op);
    OthersDistinct(after.params);
    NamedAt(b, q);
    RequestSoundness.RequestsStayAccepted(ru, p.schema, q.schema, op, NameOf(p), c.named[NameOf(q)]);
  }

  lemma RequiredSent(ru: Rules, before: Operation, after: Operation, c: Call, q: Param, op: string)
    requires NothingBreaking(Concat(OtherSteps(Others(before.params), Others(after.params), op)))
    requires NothingBreaking(Concat(NewParamSteps(Others(before.params), Others(after.params), op)))
    requires Makes(ru, before, c)
    requires q in Others(after.params) && q.required
    ensures NameOf(q) in c.named
  {
    var a, b := Others(before.params), Others(after.params);
    var j :| 0 <= j < |b| && b[j] == q;
    NoneNew(a, b, op);
    var p := Named(a, NameOf(q)).value;
    var now := OtherPair(a, b, p, op);
    OthersDistinct(after.params);
    NamedAt(b, q);
  }

  lemma OthersServed(ru: Rules, before: Operation, after: Operation, c: Call, op: string)
    requires forall p :: p in before.params ==> WfSender(true, p.schema)
    requires forall p :: p in after.params ==> WfReceiver(ru, true, p.schema)
    requires OperationFits(before, after)
    requires NothingBreaking(Concat(OtherSteps(Others(before.params), Others(after.params), op)))
    requires NothingBreaking(Concat(NewParamSteps(Others(before.params), Others(after.params), op)))
    requires Makes(ru, before, c)
    ensures forall p :: p in Others(after.params) && p.required ==> NameOf(p) in c.named
    ensures forall p :: p in Others(after.params) && NameOf(p) in c.named ==> Receives(ru, true, p.schema, c.named[NameOf(p)])
  {
    forall q | q in Others(after.params) && q.required ensures NameOf(q) in c.named {
      RequiredSent(ru, before, after, c, q, op);
    }
    forall q | q in Others(after.params) && NameOf(q) in c.named ensures Receives(ru, true, q.schema, c.named[NameOf(q)]) {
      OtherServed(ru, before, after, c, q, op);
    }
  }

  lemma NoneNew(a: seq<Param>, b: seq<Param>, op: string)
    requires NothingBreaking(Concat(NewParamSteps(a, b, op)))
    ensures forall j :: 0 <= j < |b| ==> !b[j].required || Named(a, NameOf(b[j])).Some?
  {
    forall j | 0 <= j < |b| ensures !b[j].required || Named(a, NameOf(b[j])).Some? {
      QuietStep(NewParamSteps(a, b, op), j);
      QuietWhen(NewParam(a, b[j]), op, NameOf(b[j]));
    }
  }

  lemma OtherPair(a: seq<Param>, b: seq<Param>, p: Param, op: string) returns (q: Param)
    requires p in a && NothingBreaking(Concat(OtherSteps(a, b, op)))
    ensures Named(b, NameOf(p)) == Some(q) && (q.required ==> p.required)
    ensures NothingBreaking(Compare(Request, p.schema, q.schema, op, NameOf(p)))
  {
    var i :| 0 <= i < |a| && a[i] == p;
    QuietStep(OtherSteps(a, b, op), i);
    q := OtherKept(p, b, op);
  }

  /** An object schema with no required field accepts the empty object. */
  lemma EmptyObjectReceived(ru: Rules, s: Schema)
    requires PlainObject(s)
    ensures Receives(ru, true, s, Obj(map[])) <==> s.required == []
  {
    var v := Obj(map[]);
    assert ItemsReceive(ru, true, s.items, v) && PropertiesReceive(ru, true, s.properties, v);
    assert ExtraReceives(ru, true, s.extra, PropertiesOf(s), v);
    assert AnyReceives(ru, true, s.anyOf, v) && OneReceives(ru, true, s.oneOf, v) && AllReceive(ru, true, s.allOf, v);
    if s.required != [] { assert s.required[0] !in v.fields; }
  }

  lemma BodyServed(ru: Rules, before: Operation, after: Operation, c: Call, op: string)
    requires before.body.Some? ==> WfSender(true, before.body.value)
    requires after.body.Some? ==> WfReceiver(ru, true, after.body.value)
    requires OperationFits(before, after) && NothingBreaking(BodyChanges(before, after, op)) && Makes(ru, before, c)
    ensures c.body.Some? ==> after.body.Some? && Receives(ru, true, after.body.value, c.body.value)
  {
    QuietWhen(true, op, "body");
    if c.body.Some? {
      RequestSoundness.RequestsStayAccepted(ru, before.body.value, after.body.value, op, "body", c.body.value);
    }
  }

  /**
   * The surface lift: when nothing in the diff is breaking, every operation of
   * the baseline still has one of the same URL shape. It serves a call a
   * released client may make if and only if the call has a body or the server
   * can do without one.
   */
  lemma CallsStayServed(ru: Rules, baseline: seq<Entry>, current: seq<Entry>, i: nat, c: Call)
    requires SurfacesFit(ru, baseline, current) && NothingBreaking(Diff(baseline, current))
    requires i < |baseline| && Makes(ru, baseline[i].operation, c)
    ensures exists j ::
      && 0 <= j < |current|
      && UrlShape(current[j].key) == UrlShape(baseline[i].key)
      && ByShape(current, UrlShape(baseline[i].key)) == Some(current[j].operation)
      && (IsWritten(baseline[i].key) && IsWritten(current[j].key) ==> SameRoute(baseline[i].key, current[j].key))
      && (Serves(ru, current[j].operation, c) <==> c.body.Some? || ServesAbsence(ru, current[j].operation))
  {
    hide Serves, ServesAbsence, Makes, OperationFits, OperationChanges, WfBefore, WfAfter, UrlShape;
    var before := baseline[i];
    QuietStep(EntrySteps(baseline, current), i);
    var found := ByShape(current, UrlShape(before.key));
    QuietWhen(true, before.key, "operation");
    var j :| 0 <= j < |current| && UrlShape(current[j].key) == UrlShape(before.key) && current[j].operation == found.value;
    EntryServed(ru, before, current[j], c);
    RouteKept(before.key, current[j].key);
  }

  lemma RouteKept(x: string, y: string)
    requires UrlShape(x) == UrlShape(y)
    ensures IsWritten(x) && IsWritten(y) ==> SameRoute(x, y)
  {
    if IsWritten(x) && IsWritten(y) { ShapeIsRoute(x, y); }
  }

  /** A path or method that no current operation answers is reported as breaking. */
  lemma RemovedBreaks(baseline: seq<Entry>, current: seq<Entry>, i: nat)
    requires i < |baseline| && IsWritten(baseline[i].key)
    requires forall j :: 0 <= j < |current| ==> IsWritten(current[j].key) && !SameRoute(baseline[i].key, current[j].key)
    ensures Change(Breaking, baseline[i].key, "operation") in Diff(baseline, current)
  {
    hide IsWritten, SameRoute, UrlShape;
    var key := baseline[i].key;
    forall j | 0 <= j < |current| ensures UrlShape(current[j].key) != UrlShape(key) {
      if UrlShape(current[j].key) == UrlShape(key) { ShapeIsRoute(key, current[j].key); }
    }
    var steps := EntrySteps(baseline, current);
    assert ByShape(current, UrlShape(key)).None?;
    var lost := Change(Breaking, key, "operation");
    assert steps[i] == [lost] && lost in steps[i];
    InOneStep(steps, i, lost);
  }

  lemma {:induction false} InOneStep(steps: seq<seq<Change>>, i: nat, c: Change)
    requires i < |steps| && c in steps[i]
    ensures c in Concat(steps)
  {
    if i > 0 { InOneStep(steps[1..], i - 1, c); }
  }

  lemma EntryServed(ru: Rules, before: Entry, after: Entry, c: Call)
    requires WfBefore(ru, before) && WfAfter(ru, after) && UrlShape(before.key) == UrlShape(after.key)
    requires OperationFits(before.operation, after.operation)
    requires NothingBreaking(OperationChanges(before.operation, after.operation, before.key))
    requires Makes(ru, before.operation, c)
    ensures Serves(ru, after.operation, c) <==> c.body.Some? || ServesAbsence(ru, after.operation)
  {
    hide BodyChanges, ResponseChanges, ServesAbsence, UrlShape, PathSteps, OtherSteps, NewParamSteps, WfSender, WfReceiver, Fits;
    var a, b, op := before.operation, after.operation, before.key;
    QuietParts(ParamChanges(a, b, op) + BodyChanges(a, b, op), ResponseChanges(a, b, op));
    QuietParts(ParamChanges(a, b, op), BodyChanges(a, b, op));
    var path := Concat(PathSteps(PathParams(a.params), PathParams(b.params), op));
    var others := Concat(OtherSteps(Others(a.params), Others(b.params), op));
    QuietParts(path + others, Concat(NewParamSteps(Others(a.params), Others(b.params), op)));
    QuietParts(path, others);
    PathServed(ru, before, after, c);
    OthersServed(ru, a, b, c, op);
    BodyServed(ru, a, b, c, op);
  }

  // -- an operation that gains a body -----------------------------------------------------------------

  /**
   * What the diff asks of a new body, that it requires no field at its top
   * level, is the exact condition for a plain object that an absent body is
   * read as.
   */
  lemma PlainBodyRule(ru: Rules, before: Operation, after: Operation, op: string)
    requires before.body.None? && after.body.Some? && PlainObject(after.body.value) && after.absence.ReadAsEmpty?
    ensures BodyChanges(before, after, op) == [] <==> ServesAbsence(ru, after)
  {
    EmptyObjectReceived(ru, after.body.value);
  }

  /**
   * An operation that gains a body serves the calls released clients make if
   * and only if it can do without the body: they send none.
   */
  lemma GainedBody(ru: Rules, before: Entry, after: Entry, c: Call)
    requires WfBefore(ru, before) && WfAfter(ru, after) && UrlShape(before.key) == UrlShape(after.key)
    requires OperationFits(before.operation, after.operation)
    requires before.operation.body.None? && after.operation.body.Some?
    requires NothingBreaking(OperationChanges(before.operation, after.operation, before.key))
    requires Makes(ru, before.operation, c)
    ensures Serves(ru, after.operation, c) <==>
      match after.operation.absence
      case Refused => false
      case Accepted => true
      case ReadAsEmpty => Receives(ru, true, after.operation.body.value, Obj(map[]))
  {
    EntryServed(ru, before, after, c);
  }

  const NO_BODY := Operation([], None, Refused, 200, None)

  const NO_CALL := Call([], map[], None)

  /** A new body the diff passes, and a call without one that its server refuses. */
  ghost predicate NewBodyEscapes(ru: Rules, body: Schema, absence: Absence, op: string) {
    var after := NO_BODY.(body := Some(body), absence := absence);
    && WfReceiver(ru, true, body) && OperationFits(NO_BODY, after)
    && OperationChanges(NO_BODY, after, op) == []
    && Makes(ru, NO_BODY, NO_CALL) && !Serves(ru, after, NO_CALL)
  }

  /** A field required by a part of an `allOf` is not looked at. */
  lemma PartRequiresEscapes(ru: Rules, op: string)
    ensures NewBodyEscapes(ru, ANY.(allOf := Listed([REQUIRES_X])), ReadAsEmpty, op)
  {
    var body := ANY.(allOf := Listed([REQUIRES_X]));
    RequiresXIsWf(ru);
    assert !Receives(ru, true, REQUIRES_X, Obj(map[])) by { assert REQUIRES_X.required[0] == "x"; }
    assert !AllReceive(ru, true, body.allOf, Obj(map[])) by { assert body.allOf.list[0] == REQUIRES_X; }
    assert !Receives(ru, true, body, Obj(map[]));
    NoChangesBeside(NO_BODY.(body := Some(body), absence := ReadAsEmpty), op);
  }

  const REQUIRES_X := ANY.(types := One("object"), properties := Declared([Property("x", ANY)]), required := ["x"])

  lemma RequiresXIsWf(ru: Rules)
    ensures WfReceiver(ru, true, ANY.(allOf := Listed([REQUIRES_X])))
  {
    assert WfReceiver(ru, true, ANY);
    assert PropertiesOf(REQUIRES_X)[0].name == "x" && RequiredDeclared(REQUIRES_X);
    assert WfReceiverProperties(ru, true, REQUIRES_X.properties);
    assert WfReceiver(ru, true, REQUIRES_X);
  }

  /** A body of optional fields only, of which a validator may still refuse the absence. */
  lemma AbsenceRefused(ru: Rules, op: string)
    ensures NewBodyEscapes(ru, ANY.(types := One("object")), Refused, op)
  {
    NoChangesBeside(NO_BODY.(body := Some(ANY.(types := One("object")))), op);
  }

  lemma NoChangesBeside(after: Operation, op: string)
    requires after == NO_BODY.(body := after.body, absence := after.absence)
    requires after.body.Some? && after.body.value.required == []
    ensures OperationChanges(NO_BODY, after, op) == []
  {
  }

  // -- responses ----------------------------------------------------------------------------------

  /**
   * When the diff is empty, every answer the server now gives has the status
   * and a body the released client can read.
   */
  lemma AnswersStayReadable(ru: Rules, baseline: seq<Entry>, current: seq<Entry>, i: nat, v: Json)
    requires SurfacesFit(ru, baseline, current) && Diff(baseline, current) == []
    requires i < |baseline| && baseline[i].operation.response.Some?
    ensures var now := ByShape(current, UrlShape(baseline[i].key));
      && now.Some? && now.value.status == baseline[i].operation.status && now.value.response.Some?
      && (Sends(ru, now.value.response.value, v, NO_KEYS) ==> Receives(ru, false, baseline[i].operation.response.value, v))
  {
    var before := baseline[i];
    SilentDiff(baseline, current);
    assert EntrySteps(baseline, current)[i] == [];
    var now := ByShape(current, UrlShape(before.key));
    var j :| 0 <= j < |current| && UrlShape(current[j].key) == UrlShape(before.key) && current[j].operation == now.value;
    EntryReadable(ru, before, current[j], v);
  }

  lemma SilentDiff(baseline: seq<Entry>, current: seq<Entry>)
    ensures Diff(baseline, current) == [] <==> Changes(baseline, current) == []
  {
    var all := Changes(baseline, current);
    if all != [] { assert all[0] in Diff(baseline, current); }
  }

  lemma EntryReadable(ru: Rules, before: Entry, after: Entry, v: Json)
    requires WfBefore(ru, before) && WfAfter(ru, after) && OperationFits(before.operation, after.operation)
    requires OperationChanges(before.operation, after.operation, before.key) == []
    requires before.operation.response.Some?
    ensures after.operation.status == before.operation.status && after.operation.response.Some?
    ensures Sends(ru, after.operation.response.value, v, NO_KEYS) ==> Receives(ru, false, before.operation.response.value, v)
  {
    var a, b := before.operation, after.operation;
    SilentSplit(ParamChanges(a, b, before.key) + BodyChanges(a, b, before.key), ResponseChanges(a, b, before.key));
    if Sends(ru, b.response.value, v, NO_KEYS) {
      ResponseSoundness.ResponsesStayReadable(ru, a.response.value, b.response.value, before.key, "response", v);
    }
  }

  /**
   * When nothing in the diff is breaking, every operation still answers with a
   * body where it did, and a released client copes with all it sends.
   */
  lemma AnswersAreCoped(ru: Rules, baseline: seq<Entry>, current: seq<Entry>, i: nat, v: Json)
    requires SurfacesFit(ru, baseline, current) && NothingBreaking(Diff(baseline, current))
    requires i < |baseline| && baseline[i].operation.response.Some?
    ensures exists j ::
      && 0 <= j < |current|
      && ByShape(current, UrlShape(baseline[i].key)) == Some(current[j].operation)
      && UrlShape(current[j].key) == UrlShape(baseline[i].key)
      && (IsWritten(baseline[i].key) && IsWritten(current[j].key) ==> SameRoute(baseline[i].key, current[j].key))
      && current[j].operation.response.Some?
      && (Sends(ru, current[j].operation.response.value, v, NO_KEYS) ==>
            ResponseNotes.Copes(ru, baseline[i].operation.response.value, current[j].operation.response.value, v, NO_KEYS))
  {
    hide OperationFits, OperationChanges, WfBefore, WfAfter, UrlShape, ResponseNotes.Copes, Sends, IsWritten, SameRoute;
    var before := baseline[i];
    QuietStep(EntrySteps(baseline, current), i);
    var found := ByShape(current, UrlShape(before.key));
    QuietWhen(true, before.key, "operation");
    var j :| 0 <= j < |current| && UrlShape(current[j].key) == UrlShape(before.key) && current[j].operation == found.value;
    EntryCoped(ru, before, current[j], v);
    RouteKept(before.key, current[j].key);
  }

  lemma EntryCoped(ru: Rules, before: Entry, after: Entry, v: Json)
    requires WfBefore(ru, before) && WfAfter(ru, after) && OperationFits(before.operation, after.operation)
    requires NothingBreaking(OperationChanges(before.operation, after.operation, before.key))
    requires before.operation.response.Some?
    ensures after.operation.response.Some?
    ensures Sends(ru, after.operation.response.value, v, NO_KEYS) ==>
      ResponseNotes.Copes(ru, before.operation.response.value, after.operation.response.value, v, NO_KEYS)
  {
    hide ParamChanges, BodyChanges, NothingBreaking, Compare, ResponseNotes.Copes, Sends, Fits, WfSender, WfReceiver;
    var a, b, op := before.operation, after.operation, before.key;
    QuietParts(ParamChanges(a, b, op) + BodyChanges(a, b, op), ResponseChanges(a, b, op));
    BodyOfAnswer(a, b, op);
    if Sends(ru, b.response.value, v, NO_KEYS) {
      ResponseNotes.NotesAside(ru, a.response.value, b.response.value, op, "response", v);
    }
  }

  lemma BodyOfAnswer(before: Operation, after: Operation, op: string)
    requires NothingBreaking(ResponseChanges(before, after, op)) && before.response.Some?
    ensures after.response.Some? && NothingBreaking(Compare(Response, before.response.value, after.response.value, op, "response"))
  {
    hide Compare, NothingBreaking;
    if after.response.None? {
      QuietParts(When(before.status != after.status, Notable, op, "response"), [Change(Breaking, op, "response")]);
      ResponseNotes.LostIsBreaking(op, "response");
    } else {
      QuietParts(When(before.status != after.status, Notable, op, "response"),
                 Compare(Response, before.response.value, after.response.value, op, "response"));
    }
  }
}
