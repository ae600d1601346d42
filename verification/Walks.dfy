/** Walks along a relation, and what they can reach. */
module Walks {

  ghost predicate IsWalk<T(!new)>(next: (T, T) -> bool, path: seq<T>)
    decreases |path|
  {
    && path != []
    && (|path| > 1 ==> IsWalk(next, path[..|path| - 1]) && next(path[|path| - 2], path[|path| - 1]))
  }

  ghost predicate Reaches<T(!new)>(next: (T, T) -> bool, from: T, x: T) {
    exists path :: IsWalk(next, path) && path[0] == from && path[|path| - 1] == x
  }

  ghost predicate Closed<T(!new)>(next: (T, T) -> bool, s: set<T>) {
    forall x, y :: x in s && next(x, y) ==> y in s
  }

  lemma Stays<T(!new)>(next: (T, T) -> bool, x: T)
    ensures Reaches(next, x, x)
  {
    assert IsWalk(next, [x]);
  }

  lemma Steps<T(!new)>(next: (T, T) -> bool, from: T, x: T, y: T)
    requires Reaches(next, from, x) && next(x, y)
    ensures Reaches(next, from, y)
  {
    var path :| IsWalk(next, path) && path[0] == from && path[|path| - 1] == x;
    var longer := path + [y];
    assert longer[..|path|] == path;
    assert IsWalk(next, longer);
  }

  lemma {:induction false} WalkStaysInside<T(!new)>(next: (T, T) -> bool, s: set<T>, path: seq<T>)
    requires IsWalk(next, path) && path[0] in s && Closed(next, s)
    ensures path[|path| - 1] in s
    decreases |path|
  {
    if |path| > 1 { WalkStaysInside(next, s, path[..|path| - 1]); }
  }

  /** A set that no step leaves holds all that is reached from inside it. */
  lemma ClosedHoldsAll<T(!new)>(next: (T, T) -> bool, s: set<T>, from: T)
    requires from in s && Closed(next, s)
    ensures forall x :: Reaches(next, from, x) ==> x in s
  {
    forall x | Reaches(next, from, x) ensures x in s {
      var path :| IsWalk(next, path) && path[0] == from && path[|path| - 1] == x;
      WalkStaysInside(next, s, path);
    }
  }
}
