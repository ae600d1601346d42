/** What one edit of an operation or of a surface is reported as. */
module SurfaceEdits {
  import opened JsonValues
  import opened Schemas
  import opened Pairing
  import opened Comparison
  import opened Surfaces
  import opened UrlShapes
  import opened SelfDiff
  import opened Edits

  // -- one operation -------------------------------------------------------------------------------

  /** Another status is a note. */
  lemma StatusEdited(op: Operation, status: int, key: string)
    requires WfSelfOperation(op)
    ensures OperationChanges(op, op.(status := status), key) == if status != op.status then [Change(Notable, key, "response")] else []
  {
    hide Compare, ParamChanges;
    SelfParams(op, key);
    assert ParamChanges(op, op.(status := status), key) == ParamChanges(op, op, key) by { SameParams(op, op.(status := status), key); }
    SelfOperation(op, key);
  }

  lemma SameParams(before: Operation, after: Operation, key: string)
    requires after.params == before.params
    ensures ParamChanges(before, after, key) == ParamChanges(before, before, key)
  {
  }

  /** A response body edited, lost or gained. */
  lemma ResponseEdited(op: Operation, response: Option<Schema>, key: string)
    requires WfSelfOperation(op)
    ensures OperationChanges(op, op.(response := response), key) ==
      if op.response.None? then []
      else if response.None? then [Change(Breaking, key, "response")]
      else Compare(Response, op.response.value, response.value, key, "response")
  {
    hide Compare, ParamChanges;
    var after := op.(response := response);
    SelfParams(op, key);
    SameParams(op, after, key);
    SelfBody(op, after, key);
  }

  lemma SelfBody(op: Operation, after: Operation, key: string)
    requires WfSelfOperation(op) && after.body == op.body
    ensures BodyChanges(op, after, key) == []
  {
    hide Compare;
    if op.body.Some? { Reflexivity.SelfSilent(Request, op.body.value, key, "body"); }
  }

  lemma SelfResponse(op: Operation, after: Operation, key: string)
    requires WfSelfOperation(op) && after.response == op.response && after.status == op.status
    ensures ResponseChanges(op, after, key) == []
  {
    hide Compare;
    if op.response.Some? { Reflexivity.SelfSilent(Response, op.response.value, key, "response"); }
  }

  /** A request body edited, lost or gained. */
  lemma BodyEdited(op: Operation, body: Option<Schema>, key: string)
    requires WfSelfOperation(op)
    ensures OperationChanges(op, op.(body := body), key) ==
      if op.body.Some? && body.None? then [Change(Breaking, key, "body")]
      else if op.body.Some? then Compare(Request, op.body.value, body.value, key, "body")
      else if body.Some? && body.value.required != [] then [Change(Breaking, key, "body")]
      else []
  {
    hide Compare, ParamChanges;
    var after := op.(body := body);
    SelfParams(op, key);
    SameParams(op, after, key);
    SelfResponse(op, after, key);
  }

  // -- parameters sent by name -----------------------------------------------------------------------

  /** The released client still sends a parameter that is gone, or leaves out one that is now required. */
  predicate ParamBreaks(a: seq<Param>, b: seq<Param>, name: string) {
    var was, isNow := Named(a, name), Named(b, name);
    (was.Some? && isNow.None?) || (isNow.Some? && isNow.value.required && !(was.Some? && was.value.required))
  }

  /** Parameters added, removed, made required and made optional, any number at once. */
  lemma ParamsEdited(op: Operation, params: seq<Param>, key: string)
    requires WfSelfOperation(op) && PathParams(params) == PathParams(op.params)
    requires forall name :: Named(Others(op.params), name).Some? && Named(Others(params), name).Some? ==>
      Named(Others(op.params), name).value.schema == Named(Others(params), name).value.schema
    ensures forall c :: c in OperationChanges(op, op.(params := params), key) <==>
      exists name :: c == Change(Breaking, key, name) && ParamBreaks(Others(op.params), Others(params), name)
  {
    hide Compare, ParamChanges, ParamBreaks;
    var after := op.(params := params);
    SelfBody(op, after, key);
    SelfResponse(op, after, key);
    forall c ensures c in ParamChanges(op, after, key) <==>
      exists name :: c == Change(Breaking, key, name) && ParamBreaks(Others(op.params), Others(params), name)
    {
      InParams(op, after, key, c);
    }
  }

  lemma InParams(op: Operation, after: Operation, key: string, c: Change)
    requires WfSelfOperation(op) && PathParams(after.params) == PathParams(op.params)
    requires forall name :: Named(Others(op.params), name).Some? && Named(Others(after.params), name).Some? ==>
      Named(Others(op.params), name).value.schema == Named(Others(after.params), name).value.schema
    ensures c in ParamChanges(op, after, key) <==>
      exists name :: c == Change(Breaking, key, name) && ParamBreaks(Others(op.params), Others(after.params), name)
  {
    hide Compare, ParamBreaks, Named, WfSelfOperation, Others, PathParams;
    var a, b := Others(op.params), Others(after.params);
    PathSilent(op, key);
    InConcat(OtherSteps(a, b, key), c);
    InConcat(NewParamSteps(a, b, key), c);
    forall i: nat | i < |a| ensures c in OtherChange(a[i], b, key) <==> c == Change(Breaking, key, NameOf(a[i])) && ParamBreaks(a, b, NameOf(a[i])) {
      OldParam(op, after, i, key, c);
    }
    forall j: nat | j < |b| ensures NewParam(a, b[j]) ==> ParamBreaks(a, b, NameOf(b[j])) { NewParamBreaks(after, a, j); }
    if name :| c == Change(Breaking, key, name) && ParamBreaks(a, b, name) { BreaksSomewhere(op, after, name); }
  }

  lemma PathSilent(op: Operation, key: string)
    requires WfSelfOperation(op)
    ensures var path := PathParams(op.params); Concat(PathSteps(path, path, key)) == []
  {
    hide Compare;
    var path := PathParams(op.params);
    forall i | 0 <= i < |path| ensures PathSteps(path, path, key)[i] == [] {
      PathParamsAmong(op.params, path[i]);
      Reflexivity.SelfSilent(Request, path[i].schema, key, "path {" + path[i].name + "}");
    }
  }

  lemma OldParam(op: Operation, after: Operation, i: nat, key: string, c: Change)
    requires WfSelfOperation(op) && i < |Others(op.params)|
    requires forall name :: Named(Others(op.params), name).Some? && Named(Others(after.params), name).Some? ==>
      Named(Others(op.params), name).value.schema == Named(Others(after.params), name).value.schema
    ensures var a, b := Others(op.params), Others(after.params);
      c in OtherChange(a[i], b, key) <==> c == Change(Breaking, key, NameOf(a[i])) && ParamBreaks(a, b, NameOf(a[i]))
  {
    hide Compare, Others, Named;
    var a, b := Others(op.params), Others(after.params);
    OthersDistinct(op.params);
    NamedAt(a, a[i]);
    assert a[i] in op.params;
    Reflexivity.SelfSilent(Request, a[i].schema, key, NameOf(a[i]));
  }

  lemma NewParamBreaks(after: Operation, a: seq<Param>, j: nat)
    requires j < |Others(after.params)|
    ensures var b := Others(after.params); NewParam(a, b[j]) ==> ParamBreaks(a, b, NameOf(b[j]))
  {
    hide Others;
    OthersDistinct(after.params);
    NamedAt(Others(after.params), Others(after.params)[j]);
  }

  /** A name that breaks is an old parameter's, or a new one's that is required. */
  lemma BreaksSomewhere(op: Operation, after: Operation, name: string)
    requires ParamBreaks(Others(op.params), Others(after.params), name)
    ensures var a, b := Others(op.params), Others(after.params);
      (exists i: nat :: i < |a| && NameOf(a[i]) == name) || (exists j: nat :: j < |b| && NewParam(a, b[j]) && NameOf(b[j]) == name)
  {
    hide Others;
    var a, b := Others(op.params), Others(after.params);
    if Named(a, name).Some? {
      var p := Named(a, name).value;
      var i: nat :| i < |a| && a[i] == p;
    } else {
      var q := Named(b, name).value;
      var j: nat :| j < |b| && b[j] == q;
      assert NewParam(a, b[j]);
    }
  }

  // -- a surface that grew ----------------------------------------------------------------------------

  /** Every operation of the baseline is still there as it was, on its route. */
  ghost predicate StillThere(baseline: seq<Entry>, current: seq<Entry>) {
    forall i :: 0 <= i < |baseline| ==> IsThere(baseline[i], current)
  }

  ghost predicate IsThere(e: Entry, current: seq<Entry>) {
    exists j: nat :: j < |current| && SameRoute(current[j].key, e.key) && current[j].operation == e.operation
  }

  /** Whatever operations are added, and however placeholders are named, nothing is reported. */
  lemma GrownSurface(baseline: seq<Entry>, current: seq<Entry>)
    requires StillThere(baseline, current)
    requires forall i :: 0 <= i < |baseline| ==> WfSelfOperation(baseline[i].operation) && IsWritten(baseline[i].key)
    requires forall j :: 0 <= j < |current| ==> IsWritten(current[j].key)
    requires forall i, j :: 0 <= i < j < |current| ==> !SameRoute(current[i].key, current[j].key)
    ensures Diff(baseline, current) == []
  {
    hide WfSelfOperation, IsWritten, SameRoute, UrlShape, OperationChanges;
    forall i, j | 0 <= i < j < |current| ensures UrlShape(current[i].key) != UrlShape(current[j].key) {
      ShapeIsRoute(current[i].key, current[j].key);
    }
    forall i | 0 <= i < |baseline| ensures EntrySteps(baseline, current)[i] == [] {
      assert IsThere(baseline[i], current);
      var j: nat :| j < |current| && SameRoute(current[j].key, baseline[i].key) && current[j].operation == baseline[i].operation;
      ShapeIsRoute(current[j].key, baseline[i].key);
      FindsItself(current, j);
      SelfOperation(baseline[i].operation, baseline[i].key);
    }
    assert Changes(baseline, current) == [];
  }
}
