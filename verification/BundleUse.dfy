/**
 * Which packages of a mini-program build use a module: the walk over the
 * import graph from every entry.
 */
module BundleUse {
  import opened JsonValues
  import opened Walks

  type Id = int

  datatype Link = Link(target: Option<Id>, active: bool)

  /** `parts`: the modules scope hoisting concatenated into this one. */
  datatype Module = Module(name: Option<string>, parts: seq<Id>, links: seq<Link>)

  type Bundle = map<Id, Module>

  datatype Entry = Entry(name: string, dependencies: seq<Option<Id>>)

  datatype SubPackage = SubPackage(root: string, name: string)

  predicate EndsWith(s: string, tail: string) {
    |tail| <= |s| && s[|s| - |tail|..] == tail
  }

  predicate Stylesheet(name: string) {
    EndsWith(name, ".css") || EndsWith(name, ".scss") || EndsWith(name, ".less")
  }

  predicate Ships(b: Bundle, link: Link)
    requires Whole(b)
  {
    link.target.Some? && link.target.value in b &&
    (link.active || (b[link.target.value].name.Some? && Stylesheet(b[link.target.value].name.value)))
  }

  /** Every module the graph names is in the graph. */
  predicate Whole(b: Bundle) {
    forall m :: m in b ==>
      && (forall p :: p in b[m].parts ==> p in b)
      && (forall link :: link in b[m].links ==> link.target.Some? ==> link.target.value in b)
  }

  predicate EntryKnown(b: Bundle, e: Entry) {
    forall d :: d in e.dependencies && d.Some? ==> d.value in b
  }

  /** `x` brings `y` with it: as a part, by an import that is used, or by a stylesheet's. */
  predicate Brings(b: Bundle, x: Id, y: Id)
    requires Whole(b)
  {
    x in b && (y in b[x].parts || exists link :: link in b[x].links && link.target == Some(y) && Ships(b, link))
  }

  /**
   * An import brings its module when it is used; one that tree shaking removed
   * only when it names a stylesheet.
   */
  lemma BringsMeans(b: Bundle, x: Id, y: Id)
    requires Whole(b) && x in b
    ensures Brings(b, x, y) <==>
      || y in b[x].parts || Link(Some(y), true) in b[x].links
      || (Link(Some(y), false) in b[x].links
          && exists stem: string :: b[y].name in [Some(stem + ".css"), Some(stem + ".scss"), Some(stem + ".less")])
  {
    hide Stylesheet, EndsWith;
    if y in b && b[y].name.Some? { StyleNames(b[y].name.value); }
    forall link | link in b[x].links && link.target == Some(y) ensures link == Link(Some(y), link.active) {}
  }

  lemma StyleNames(name: string)
    ensures Stylesheet(name) <==> exists stem: string :: Some(name) in [Some(stem + ".css"), Some(stem + ".scss"), Some(stem + ".less")]
  {
    if Stylesheet(name) {
      var stem := if EndsWith(name, ".css") then name[..|name| - 4] else name[..|name| - 5];
      assert name == stem + (if EndsWith(name, ".css") then ".css" else if EndsWith(name, ".scss") then ".scss" else ".less");
      assert Some(name) in [Some(stem + ".css"), Some(stem + ".scss"), Some(stem + ".less")];
    }
  }

  ghost function Bringing(b: Bundle): (Id, Id) -> bool
    requires Whole(b)
  {
    (x, y) => Brings(b, x, y)
  }

  function PackageOf(subs: seq<SubPackage>, entryName: string): string {
    if subs == [] then "main"
    else if subs[0].root + "/" <= entryName then subs[0].name
    else PackageOf(subs[1..], entryName)
  }

  ghost predicate EntryReaches(b: Bundle, e: Entry, m: Id)
    requires Whole(b)
  {
    exists d :: Some(d) in e.dependencies && Reaches(Bringing(b), d, m)
  }

  predicate Named(b: Bundle, m: Id, n: string) {
    m in b && n != "" && b[m].name == Some(n)
  }

  /** Package `p` uses the modules named `n`: an entry of `p` reaches one. */
  ghost predicate Uses(b: Bundle, e: Entry, subs: seq<SubPackage>, n: string, p: string)
    requires Whole(b)
  {
    PackageOf(subs, e.name) == p && exists m :: Named(b, m, n) && EntryReaches(b, e, m)
  }

  predicate Lists(result: map<string, set<string>>, n: string, p: string) {
    n in result && p in result[n]
  }

  method Started(e: Entry) returns (queue: seq<Id>)
    ensures forall m :: m in queue <==> Some(m) in e.dependencies
  {
    queue := [];
    for i := 0 to |e.dependencies|
      invariant forall m :: m in queue <==> Some(m) in e.dependencies[..i]
    {
      if e.dependencies[i].Some? { queue := queue + [e.dependencies[i].value]; }
    }
    assert e.dependencies[..|e.dependencies|] == e.dependencies;
  }

  /** The queue with all that `m` brings pushed onto it. */
  method Push(b: Bundle, m: Id, before: seq<Id>) returns (queue: seq<Id>)
    requires Whole(b) && m in b
    ensures forall y :: y in queue <==> y in before || Brings(b, m, y)
  {
    queue := before + b[m].parts;
    for i := 0 to |b[m].links|
      invariant forall y :: y in queue <==> y in before || y in b[m].parts || exists link :: link in b[m].links[..i] && link.target == Some(y) && Ships(b, link)
    {
      var link := b[m].links[i];
      assert b[m].links[..i + 1] == b[m].links[..i] + [link];
      if Ships(b, link) { queue := queue + [link.target.value]; }
    }
    assert b[m].links[..|b[m].links|] == b[m].links;
  }

  function Record(result: map<string, set<string>>, name: Option<string>, p: string): (r: map<string, set<string>>)
    ensures forall n, q :: Lists(r, n, q) <==> Lists(result, n, q) || (q == p && n != "" && name == Some(n))
  {
    if name.Some? && name.value != ""
    then result[name.value := (if name.value in result then result[name.value] else {}) + {p}]
    else result
  }

  predicate Filled(result: map<string, set<string>>) {
    forall n :: n in result ==> result[n] != {}
  }

  lemma Reached(b: Bundle, e: Entry, m: Id, y: Id)
    requires Whole(b) && EntryReaches(b, e, m) && Brings(b, m, y)
    ensures EntryReaches(b, e, y)
  {
    var d :| Some(d) in e.dependencies && Reaches(Bringing(b), d, m);
    Steps(Bringing(b), d, m, y);
  }

  /** When nothing waits, all that the entry reaches has been seen. */
  lemma AllSeen(b: Bundle, e: Entry, seen: set<Id>)
    requires Whole(b)
    requires forall d :: Some(d) in e.dependencies ==> d in seen
    requires forall x, y :: x in seen && Brings(b, x, y) ==> y in seen
    ensures forall m :: EntryReaches(b, e, m) ==> m in seen
  {
    assert Closed(Bringing(b), seen);
    forall m | EntryReaches(b, e, m) ensures m in seen {
      var d :| Some(d) in e.dependencies && Reaches(Bringing(b), d, m);
      ClosedHoldsAll(Bringing(b), seen, d);
    }
  }

  /** Walks from one entry and lists its package at every module it reaches. */
  method WalkFrom(b: Bundle, e: Entry, subs: seq<SubPackage>, before: map<string, set<string>>)
      returns (result: map<string, set<string>>)
    requires Whole(b) && EntryKnown(b, e)
    ensures forall n, p :: Lists(result, n, p) <==> Lists(before, n, p) || Uses(b, e, subs, n, p)
    ensures Filled(before) ==> Filled(result)
  {
    hide EntryReaches, Brings, Whole, PackageOf;
    result := before;
    var pkg := PackageOf(subs, e.name);
    var seen: set<Id> := {};
    var queue := Started(e);
    forall m | m in queue ensures m in b && EntryReaches(b, e, m) { Begin(b, e, m); }
    while queue != []
      invariant forall m :: m in queue ==> m in b && EntryReaches(b, e, m)
      invariant forall m :: m in seen ==> m in b && EntryReaches(b, e, m)
      invariant forall d :: Some(d) in e.dependencies ==> d in seen || d in queue
      invariant forall x, y :: x in seen && Brings(b, x, y) ==> y in seen || y in queue
      invariant forall n, p :: Lists(result, n, p) <==> Lists(before, n, p) || (p == pkg && exists m :: m in seen && Named(b, m, n))
      invariant Filled(before) ==> Filled(result)
      decreases b.Keys - seen, |queue|
    {
      var m := queue[|queue| - 1];
      ghost var popped := queue;
      queue := queue[..|queue| - 1];
      assert popped == queue + [m];
      if m !in seen {
        ghost var listed, already := result, seen;
        seen := seen + {m};
        result := Record(result, b[m].name, pkg);
        forall n, p
          ensures Lists(result, n, p) <==> Lists(before, n, p) || (p == pkg && exists m :: m in seen && Named(b, m, n))
        {
          assert Lists(listed, n, p) <==> Lists(before, n, p) || (p == pkg && exists m :: m in already && Named(b, m, n));
          assert Named(b, m, n) <==> n != "" && b[m].name == Some(n);
        }
        queue := Push(b, m, queue);
        forall y | Brings(b, m, y) ensures y in b && EntryReaches(b, e, y) {
          Reached(b, e, m, y);
          BroughtIsKnown(b, m, y);
        }
      }
    }
    AllSeen(b, e, seen);
  }

  lemma Begin(b: Bundle, e: Entry, m: Id)
    requires Whole(b) && EntryKnown(b, e) && Some(m) in e.dependencies
    ensures m in b && EntryReaches(b, e, m)
  {
    Stays(Bringing(b), m);
  }

  lemma BroughtIsKnown(b: Bundle, m: Id, y: Id)
    requires Whole(b) && Brings(b, m, y)
    ensures y in b
  {
  }

  /**
   * The packages at each module name: exactly those with an entry that reaches
   * such a module.
   */
  method PackagesByModule(b: Bundle, entries: seq<Entry>, subs: seq<SubPackage>) returns (result: map<string, set<string>>)
    requires Whole(b) && forall e :: e in entries ==> EntryKnown(b, e)
    ensures forall n, p :: Lists(result, n, p) <==> exists e :: e in entries && Uses(b, e, subs, n, p)
    ensures Filled(result)
  {
    result := map[];
    for i := 0 to |entries|
      invariant forall n, p :: Lists(result, n, p) <==> exists e :: e in entries[..i] && Uses(b, e, subs, n, p)
      invariant Filled(result)
    {
      assert entries[..i + 1] == entries[..i] + [entries[i]];
      result := WalkFrom(b, entries[i], subs, result);
    }
    assert entries[..|entries|] == entries;
  }

  /** An entry belongs to the first sub-package whose root it lies under, else to main. */
  lemma {:induction false} FirstRootWins(subs: seq<SubPackage>, entryName: string, k: nat)
    requires k <= |subs|
    requires forall j :: 0 <= j < k ==> !(subs[j].root + "/" <= entryName)
    requires k < |subs| ==> subs[k].root + "/" <= entryName
    ensures PackageOf(subs, entryName) == if k < |subs| then subs[k].name else "main"
  {
    if subs != [] && k > 0 { FirstRootWins(subs[1..], entryName, k - 1); }
  }
}
