/**
 * Strings in the order of their characters, which is the one JavaScript's `sort()`
 * gives by code unit where no character lies outside the basic plane.
 */
module KeyOrder {

  predicate Before(a: string, b: string)
    decreases |a|
  {
    b != "" && (a == "" || a[0] < b[0] || (a[0] == b[0] && Before(a[1..], b[1..])))
  }

  lemma {:induction false} NotBeforeItself(a: string)
    ensures !Before(a, a)
    decreases |a|
  {
    if a != "" { NotBeforeItself(a[1..]); }
  }

  lemma {:induction false} Transitive(a: string, b: string, c: string)
    requires Before(a, b) && Before(b, c)
    ensures Before(a, c)
    decreases |a|
  {
    if a != "" && a[0] == b[0] && b[0] == c[0] { Transitive(a[1..], b[1..], c[1..]); }
  }

  lemma {:induction false} OneOrOther(a: string, b: string)
    ensures Before(a, b) || a == b || Before(b, a)
    decreases |a|
  {
    if a != "" && b != "" && a[0] == b[0] {
      OneOrOther(a[1..], b[1..]);
      assert a == [a[0]] + a[1..] && b == [b[0]] + b[1..];
    }
  }

  /** In order, none twice. */
  ghost predicate Ascending(ks: seq<string>) {
    forall i, j :: 0 <= i < j < |ks| ==> Before(ks[i], ks[j])
  }

  ghost predicate Distinct(ks: seq<string>) {
    forall i, j :: 0 <= i < j < |ks| ==> ks[i] != ks[j]
  }

  function Insert(k: string, ks: seq<string>): (r: seq<string>)
    ensures |r| == |ks| + 1
    ensures forall x :: x in r <==> x == k || x in ks
  {
    if ks == [] || !Before(ks[0], k) then [k] + ks else [ks[0]] + Insert(k, ks[1..])
  }

  function Sort(ks: seq<string>): (r: seq<string>)
    ensures |r| == |ks|
    ensures forall x :: x in r <==> x in ks
  {
    if ks == [] then [] else Insert(ks[0], Sort(ks[1..]))
  }

  lemma {:induction false} InsertAscends(k: string, ks: seq<string>)
    requires Ascending(ks) && k !in ks
    ensures Ascending(Insert(k, ks))
  {
    if ks == [] {
    } else if !Before(ks[0], k) {
      OneOrOther(k, ks[0]);
      forall j | 0 <= j < |ks| ensures Before(k, ks[j]) {
        if j > 0 { Transitive(k, ks[0], ks[j]); }
      }
    } else {
      InsertAscends(k, ks[1..]);
      var r := Insert(k, ks[1..]);
      forall j | 0 <= j < |r| ensures Before(ks[0], r[j]) {
        assert r[j] in r;
      }
    }
  }

  lemma {:induction false} SortAscends(ks: seq<string>)
    requires Distinct(ks)
    ensures Ascending(Sort(ks))
  {
    if ks != [] {
      SortAscends(ks[1..]);
      InsertAscends(ks[0], Sort(ks[1..]));
    }
  }

  lemma {:induction false} FirstIsLeast(a: seq<string>, b: seq<string>)
    requires Ascending(a) && Ascending(b) && a != [] && b != []
    requires forall x :: x in a <==> x in b
    ensures a[0] == b[0]
  {
    assert a[0] in b && b[0] in a;
    var i :| 0 <= i < |b| && b[i] == a[0];
    var j :| 0 <= j < |a| && a[j] == b[0];
    if i > 0 && j > 0 {
      Transitive(a[0], a[j], b[i]);
      NotBeforeItself(a[0]);
    }
  }

  /** Two ascending lists of the same strings are the same list. */
  lemma {:induction false} OneAscendingList(a: seq<string>, b: seq<string>)
    requires Ascending(a) && Ascending(b)
    requires forall x :: x in a <==> x in b
    ensures a == b
  {
    assert a != [] ==> a[0] in b;
    assert b != [] ==> b[0] in a;
    if a != [] && b != [] {
      FirstIsLeast(a, b);
      assert a == [a[0]] + a[1..] && b == [b[0]] + b[1..];
      NotBeforeItself(a[0]);
      forall x ensures x in a[1..] <==> x in b[1..] {
        assert a[0] !in a[1..] && b[0] !in b[1..];
        assert x in a <==> x == a[0] || x in a[1..];
        assert x in b <==> x == b[0] || x in b[1..];
      }
      OneAscendingList(a[1..], b[1..]);
    }
  }
}
