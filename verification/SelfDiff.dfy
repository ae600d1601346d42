/** A surface compared with itself has nothing to report. */
module SelfDiff {
  import opened JsonValues
  import opened Pairing
  import opened Comparison
  import opened Surfaces
  import opened UrlShapes
  import Reflexivity

  predicate WfSelfOperation(op: Operation) {
    && (forall i :: 0 <= i < |op.params| ==> Reflexivity.WfSelf(op.params[i].schema))
    && (op.body.Some? ==> Reflexivity.WfSelf(op.body.value))
    && (op.response.Some? ==> Reflexivity.WfSelf(op.response.value))
  }

  /** No two operations answer at one URL shape. */
  predicate DistinctShapes(surface: seq<Entry>) {
    forall i, j :: 0 <= i < j < |surface| ==> UrlShape(surface[i].key) != UrlShape(surface[j].key)
  }

  lemma {:induction false} FindsItself(surface: seq<Entry>, i: nat)
    requires i < |surface| && DistinctShapes(surface)
    ensures ByShape(surface, UrlShape(surface[i].key)) == Some(surface[i].operation)
    decreases |surface|
  {
    var init := surface[..|surface| - 1];
    if i < |init| {
      assert init[i] == surface[i];
      FindsItself(init, i);
    }
  }

  lemma SelfParams(op: Operation, key: string)
    requires WfSelfOperation(op)
    ensures ParamChanges(op, op, key) == []
  {
    hide Compare;
    var path, others := PathParams(op.params), Others(op.params);
    forall i | 0 <= i < |path| ensures PathSteps(path, path, key)[i] == [] {
      PathParamsAmong(op.params, path[i]);
      Reflexivity.SelfSilent(Request, path[i].schema, key, "path {" + path[i].name + "}");
    }
    OthersDistinct(op.params);
    forall i | 0 <= i < |others| ensures OtherSteps(others, others, key)[i] == [] && NewParamSteps(others, others, key)[i] == [] {
      NamedAt(others, others[i]);
      assert others[i] in op.params;
      Reflexivity.SelfSilent(Request, others[i].schema, key, NameOf(others[i]));
    }
  }

  lemma SelfOperation(op: Operation, key: string)
    requires WfSelfOperation(op)
    ensures OperationChanges(op, op, key) == []
  {
    hide Compare;
    SelfParams(op, key);
    if op.body.Some? { Reflexivity.SelfSilent(Request, op.body.value, key, "body"); }
    if op.response.Some? { Reflexivity.SelfSilent(Response, op.response.value, key, "response"); }
  }

  /** `diffSurfaces(S, S)` is empty. */
  lemma SameSurface(surface: seq<Entry>)
    requires DistinctShapes(surface)
    requires forall i :: 0 <= i < |surface| ==> WfSelfOperation(surface[i].operation)
    ensures Diff(surface, surface) == []
  {
    hide OperationChanges;
    forall i | 0 <= i < |surface| ensures EntrySteps(surface, surface)[i] == [] {
      FindsItself(surface, i);
      SelfOperation(surface[i].operation, surface[i].key);
    }
    assert Changes(surface, surface) == [];
  }

  /** The same for keys as they are written: no two operations on one route. */
  lemma SameRoutesSilent(surface: seq<Entry>)
    requires forall i :: 0 <= i < |surface| ==> WfSelfOperation(surface[i].operation) && IsWritten(surface[i].key)
    requires forall i, j :: 0 <= i < j < |surface| ==> !SameRoute(surface[i].key, surface[j].key)
    ensures Diff(surface, surface) == []
  {
    hide WfSelfOperation, IsWritten, SameRoute, UrlShape;
    forall i, j | 0 <= i < j < |surface| ensures UrlShape(surface[i].key) != UrlShape(surface[j].key) {
      ShapeIsRoute(surface[i].key, surface[j].key);
    }
    SameSurface(surface);
  }
}
