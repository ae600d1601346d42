/**
 * Query keys: an input is put in a canonical form, so inputs that mean the
 * same get the same key.
 */
module StableKeys {
  import opened KeyOrder

  /** A JavaScript value; a `Date` is known by its ISO text. */
  datatype Value =
    | Undefined
    | Nil
    | Truth(b: bool)
    | Number(n: real)
    | Text(text: string)
    | Date(iso: string)
    | List(items: seq<Value>)
    | Record(props: seq<Prop>)

  datatype Prop = Prop(key: string, value: Value)

  function Keys(props: seq<Prop>): (r: seq<string>)
    ensures |r| == |props| && forall i :: 0 <= i < |r| ==> r[i] == props[i].key
  {
    if props == [] then [] else [props[0].key] + Keys(props[1..])
  }

  function IndexOf(props: seq<Prop>, k: string): (i: nat)
    requires k in Keys(props)
    ensures i < |props| && props[i].key == k
  {
    if props[0].key == k then 0 else
      assert Keys(props) == [props[0].key] + Keys(props[1..]);
      1 + IndexOf(props[1..], k)
  }

  /** What reading a property gives. */
  function Get(props: seq<Prop>, k: string): Value {
    if k in Keys(props) then props[IndexOf(props, k)].value else Undefined
  }

  function AsText(v: Value): Value {
    if v.Date? then Text(v.iso) else v
  }

  function Stable(v: Value): Value
    decreases v, 1, 0
  {
    match v
    case List(items) => List(StableItems(v, items))
    case Record(props) => Record(StableProps(v, Sort(Keys(props))))
    case _ => AsText(v)
  }

  function StableItems(v: Value, items: seq<Value>): (r: seq<Value>)
    requires v.List? && forall x :: x in items ==> x in v.items
    ensures |r| == |items| && forall i :: 0 <= i < |items| ==> items[i] in v.items && r[i] == Stable(items[i])
    decreases v, 0, |items|
  {
    if items == [] then [] else
      assert items[0] in v.items;
      [Stable(items[0])] + StableItems(v, items[1..])
  }

  /** The defined properties among `keys`, each made stable. */
  function StableProps(v: Value, keys: seq<string>): seq<Prop>
    requires v.Record? && forall k :: k in keys ==> k in Keys(v.props)
    decreases v, 0, |keys|
  {
    if keys == [] then [] else
      assert keys[0] in Keys(v.props);
      assert Get(v.props, keys[0]) == v.props[IndexOf(v.props, keys[0])].value;
      var normalised := Stable(Get(v.props, keys[0]));
      (if normalised.Undefined? then [] else [Prop(keys[0], normalised)]) + StableProps(v, keys[1..])
  }

  lemma {:induction false} PropsFrom(v: Value, keys: seq<string>, i: nat)
    requires v.Record? && i < |keys| && forall k :: k in keys ==> k in Keys(v.props)
    ensures var normalised := Stable(v.props[IndexOf(v.props, keys[i])].value);
      StableProps(v, keys[i..])
        == (if normalised.Undefined? then [] else [Prop(keys[i], normalised)]) + StableProps(v, keys[i + 1..])
  {
    hide Stable, IndexOf;
    assert keys[i] in Keys(v.props) && keys[i..][0] == keys[i];
    assert keys[i..][1..] == keys[i + 1..];
  }

  lemma {:induction false} StableCases(v: Value)
    ensures v.List? ==> Stable(v) == List(StableItems(v, v.items))
    ensures v.Record? ==> Stable(v) == Record(StableProps(v, Sort(Keys(v.props))))
    ensures !v.List? && !v.Record? ==> Stable(v) == AsText(v)
    ensures v.Record? ==> StableProps(v, []) == []
  {
  }

  method StableInput(v: Value) returns (r: Value)
    ensures r == Stable(v)
    decreases v
  {
    hide *;
    StableCases(v);
    match v {
      case List(items) =>
        var out: seq<Value> := [];
        for i := 0 to |items|
          invariant |out| == i && forall j :: 0 <= j < i ==> out[j] == Stable(items[j])
        {
          var x := StableInput(items[i]);
          out := out + [x];
        }
        r := List(out);
        assert out == StableItems(v, items);
      case Record(props) =>
        var out: seq<Prop> := [];
        var keys := Sort(Keys(props));
        for i := 0 to |keys|
          invariant out + StableProps(v, keys[i..]) == StableProps(v, keys)
        {
          var k := keys[i];
          assert k in Keys(props);
          PropsFrom(v, keys, i);
          var normalised := StableInput(props[IndexOf(props, k)].value);
          if !normalised.Undefined? { out := out + [Prop(k, normalised)]; }
        }
        assert keys[|keys|..] == [];
        r := Record(out);
      case _ =>
        r := AsText(v);
    }
  }

  // -- what it means ---------------------------------------------------------------------

  /** No object has a key twice. */
  predicate WellFormed(v: Value) {
    match v
    case List(items) => forall i :: 0 <= i < |items| ==> WellFormed(items[i])
    case Record(props) =>
      && (forall i, j :: 0 <= i < j < |props| ==> props[i].key != props[j].key)
      && forall i :: 0 <= i < |props| ==> WellFormed(props[i].value)
    case _ => true
  }

  /** Equal up to the order of keys, properties that are `undefined`, and dates as their ISO text. */
  ghost predicate Same(x: Value, y: Value)
    decreases x, 1
  {
    if x.List? && y.List? then |x.items| == |y.items| && forall i :: 0 <= i < |x.items| ==> Same(x.items[i], y.items[i])
    else if x.Record? && y.Record? then forall k :: SameAt(x, y, k)
    else AsText(x) == AsText(y) && !x.List? && !x.Record?
  }

  ghost predicate SameAt(x: Value, y: Value, k: string)
    requires x.Record? && y.Record?
    decreases x, 0
  {
    if k in Keys(x.props) && k in Keys(y.props) then
      Same(x.props[IndexOf(x.props, k)].value, y.props[IndexOf(y.props, k)].value)
    else Get(x.props, k).Undefined? && Get(y.props, k).Undefined?
  }

  lemma {:induction false} StableUndefined(v: Value)
    ensures Stable(v).Undefined? <==> v.Undefined?
  {
  }

  lemma {:induction false} PropsAre(v: Value, keys: seq<string>)
    requires v.Record? && Ascending(keys) && forall k :: k in keys ==> k in Keys(v.props)
    ensures var r := StableProps(v, keys);
      && Ascending(Keys(r))
      && (forall k :: k in Keys(r) <==> k in keys && !Get(v.props, k).Undefined?)
      && (forall i :: 0 <= i < |r| ==> r[i].value == Stable(Get(v.props, r[i].key)))
    decreases |keys|
  {
    hide Before, IndexOf, Get, Stable;
    if keys != [] {
      var k := keys[0];
      PropsAre(v, keys[1..]);
      StableUndefined(Get(v.props, k));
      assert keys == [k] + keys[1..];
      PropsOneMore(StableProps(v, keys[1..]), StableProps(v, keys), k, Stable(Get(v.props, k)), keys[1..]);
    }
  }

  /** A key before all others, with its value, in front of a list. */
  lemma PropsOneMore(tail: seq<Prop>, r: seq<Prop>, k: string, value: Value, keys: seq<string>)
    requires Ascending(Keys(tail)) && Ascending([k] + keys) && forall x :: x in Keys(tail) ==> x in keys
    requires r == if value.Undefined? then tail else [Prop(k, value)] + tail
    ensures Ascending(Keys(r))
    ensures forall x :: x in Keys(r) <==> x in Keys(tail) || (x == k && !value.Undefined?)
  {
    hide Before;
    if !value.Undefined? {
      assert Keys(r) == [k] + Keys(tail);
      forall j | 0 <= j < |tail| ensures Before(k, Keys(tail)[j]) {
        assert Keys(tail)[j] in Keys(tail);
        var n :| 0 <= n < |keys| && keys[n] == Keys(tail)[j];
        assert ([k] + keys)[n + 1] == keys[n] && ([k] + keys)[0] == k;
      }
      AscendingFrom(k, Keys(tail));
    }
  }

  lemma AscendingFrom(k: string, rest: seq<string>)
    requires Ascending(rest) && forall j :: 0 <= j < |rest| ==> Before(k, rest[j])
    ensures Ascending([k] + rest)
  {
    hide Before;
  }

  lemma {:induction false} GetAscending(props: seq<Prop>, i: nat)
    requires Ascending(Keys(props)) && i < |props|
    ensures Get(props, props[i].key) == props[i].value
  {
    assert Keys(props)[i] == props[i].key;
    var j := IndexOf(props, props[i].key);
    NotBeforeItself(props[i].key);
  }

  /** An object's stable form: its keys ascend, none is undefined, and each holds what the object's does. */
  lemma StableRecord(v: Value)
    requires v.Record? && WellFormed(v)
    ensures var r := Stable(v);
      && r.Record? && Ascending(Keys(r.props))
      && (forall k :: k in Keys(r.props) <==> !Get(v.props, k).Undefined?)
      && (forall k :: Get(r.props, k) == Stable(Get(v.props, k)))
  {
    SortAscends(Keys(v.props));
    PropsAre(v, Sort(Keys(v.props)));
    var r := Stable(v);
    forall k ensures Get(r.props, k) == Stable(Get(v.props, k)) {
      StableUndefined(Get(v.props, k));
    }
  }

  lemma {:induction false} OneRecord(a: seq<Prop>, b: seq<Prop>)
    requires Ascending(Keys(a)) && Ascending(Keys(b))
    requires forall k :: k in Keys(a) <==> k in Keys(b)
    requires forall k :: Get(a, k) == Get(b, k)
    ensures a == b
  {
    OneAscendingList(Keys(a), Keys(b));
    forall i | 0 <= i < |a| ensures a[i] == b[i] {
      GetAscending(a, i);
      GetAscending(b, i);
    }
  }

  /** Two inputs get the same key exactly when they are the same input. */
  lemma {:induction false} SameKeyIffSame(x: Value, y: Value)
    requires WellFormed(x) && WellFormed(y)
    ensures Stable(x) == Stable(y) <==> Same(x, y)
    decreases x
  {
    if x.List? && y.List? {
      SameLists(x, y);
    } else if x.Record? && y.Record? {
      SameRecords(x, y);
    }
  }

  lemma ListItems(x: Value)
    requires x.List?
    ensures Stable(x).List? && |Stable(x).items| == |x.items|
    ensures forall i :: 0 <= i < |x.items| ==> Stable(x).items[i] == Stable(x.items[i])
  {
  }

  lemma {:induction false} SameLists(x: Value, y: Value)
    requires WellFormed(x) && WellFormed(y) && x.List? && y.List?
    ensures Stable(x) == Stable(y) <==> Same(x, y)
    decreases x, 0
  {
    hide Stable;
    ListItems(x);
    ListItems(y);
    if |x.items| == |y.items| {
      forall i | 0 <= i < |x.items| ensures Stable(x.items[i]) == Stable(y.items[i]) <==> Same(x.items[i], y.items[i]) {
        SameKeyIffSame(x.items[i], y.items[i]);
      }
      var a, b := Stable(x).items, Stable(y).items;
      assert a == b <==> forall i :: 0 <= i < |a| ==> a[i] == b[i];
    }
  }

  lemma {:induction false} SameRecords(x: Value, y: Value)
    requires WellFormed(x) && WellFormed(y) && x.Record? && y.Record?
    ensures Stable(x) == Stable(y) <==> Same(x, y)
    decreases x, 0
  {
    var a, b := Stable(x).props, Stable(y).props;
    StableRecord(x);
    StableRecord(y);
    forall k ensures Get(a, k) == Get(b, k) <==> SameAt(x, y, k) {
      StableUndefined(Get(x.props, k));
      StableUndefined(Get(y.props, k));
      if k in Keys(x.props) && k in Keys(y.props) {
        SameKeyIffSame(x.props[IndexOf(x.props, k)].value, y.props[IndexOf(y.props, k)].value);
      }
    }
    if Same(x, y) {
      forall k ensures k in Keys(a) <==> k in Keys(b) {
        assert SameAt(x, y, k);
        StableUndefined(Get(x.props, k));
        StableUndefined(Get(y.props, k));
      }
      forall k ensures Get(a, k) == Get(b, k) { assert SameAt(x, y, k); }
      OneRecord(a, b);
    }
  }

  // -- canonical ---------------------------------------------------------------------------

  /** Keys ascend at every depth, nothing in an object is undefined, and no date is left. */
  ghost predicate Canonical(v: Value) {
    match v
    case Date(_) => false
    case List(items) => forall i :: 0 <= i < |items| ==> Canonical(items[i])
    case Record(props) =>
      && Ascending(Keys(props))
      && forall i :: 0 <= i < |props| ==> !props[i].value.Undefined? && Canonical(props[i].value)
    case _ => true
  }

  lemma {:induction false} StableIsCanonical(v: Value)
    requires WellFormed(v)
    ensures Canonical(Stable(v))
    decreases v
  {
    if v.List? {
      forall i | 0 <= i < |v.items| ensures Canonical(Stable(v.items[i])) { StableIsCanonical(v.items[i]); }
    } else if v.Record? {
      StableRecord(v);
      var r := Stable(v).props;
      forall i | 0 <= i < |r| ensures !r[i].value.Undefined? && Canonical(r[i].value) {
        GetAscending(r, i);
        var k := r[i].key;
        assert Keys(r)[i] == k && k in Keys(r);
        StableUndefined(Get(v.props, k));
        StableIsCanonical(v.props[IndexOf(v.props, k)].value);
      }
    }
  }

  /** A canonical value is its own key. */
  lemma {:induction false} CanonicalIsStable(v: Value)
    requires Canonical(v)
    ensures WellFormed(v) && Stable(v) == v
    decreases v
  {
    if v.List? {
      forall i | 0 <= i < |v.items| ensures WellFormed(v.items[i]) && Stable(v.items[i]) == v.items[i] { CanonicalIsStable(v.items[i]); }
      assert Stable(v).items == v.items;
    } else if v.Record? {
      forall i | 0 <= i < |v.props| ensures WellFormed(v.props[i].value) && Stable(v.props[i].value) == v.props[i].value {
        CanonicalIsStable(v.props[i].value);
      }
      forall i, j | 0 <= i < j < |v.props| ensures v.props[i].key != v.props[j].key {
        assert Before(Keys(v.props)[i], Keys(v.props)[j]);
        NotBeforeItself(v.props[i].key);
      }
      StableRecord(v);
      var r := Stable(v).props;
      forall k ensures k in Keys(r) <==> k in Keys(v.props) {}
      OneRecord(r, v.props);
    }
  }

  /** Making an input stable twice changes nothing, and the fixed points are the canonical values. */
  lemma StableIsIdempotent(v: Value)
    requires WellFormed(v)
    ensures Stable(Stable(v)) == Stable(v)
    ensures Stable(v) == v <==> Canonical(v)
  {
    StableIsCanonical(v);
    CanonicalIsStable(Stable(v));
    if Canonical(v) { CanonicalIsStable(v); }
  }
}
