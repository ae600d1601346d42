/**
 * The search for admin controls without their permission: from every page,
 * along the imports, collecting the atoms written on the way.
 */
module PermissionGaps {
  import opened JsonValues
  import opened Walks

  datatype Route = Route(id: string, verb: string, permission: Option<string>)

  /** A top-level declaration of a file. */
  datatype Symbol = Symbol(file: string, name: string)

  /** What the text of a symbol holds: routes it calls, atoms it writes, symbols it imports. */
  datatype Info = Info(calls: seq<Route>, atoms: set<string>, imports: seq<Symbol>)

  type Site = map<Symbol, Info>

  datatype Rules = Rules(implicit: set<string>, requirements: map<string, set<string>>)

  /** A page, and the atoms its menu entry requires. */
  datatype Root = Root(file: string, atoms: set<string>)

  datatype Key = Key(file: string, id: string)

  datatype Gap = Gap(file: string, route: Route, read: bool, roots: seq<string>)

  predicate NeedsAtom(route: Route) {
    route.permission.Some? && route.permission.value != ""
  }

  predicate IsRead(route: Route) {
    (route.permission.Some? && |route.permission.value| >= 5 && route.permission.value[|route.permission.value| - 5..] == ":read")
    || route.verb == "GET"
  }

  /** Held, given to every admin, or (for a read) granted with an atom held. */
  predicate Covered(rules: Rules, route: Route, held: set<string>)
    requires route.permission.Some?
  {
    var atom := route.permission.value;
    || atom in rules.implicit || atom in held
    || (IsRead(route) && exists h :: h in held && h in rules.requirements && atom in rules.requirements[h])
  }

  predicate Open(rules: Rules, route: Route, held: set<string>) {
    NeedsAtom(route) && !Covered(rules, route, held)
  }

  /** A read by its method or by its atom. */
  lemma ReadMeans(route: Route)
    ensures IsRead(route) <==> route.verb == "GET" || exists head: string :: route.permission == Some(head + ":read")
  {
    if route.permission.Some? && |route.permission.value| >= 5 {
      var atom := route.permission.value;
      assert atom == atom[..|atom| - 5] + atom[|atom| - 5..];
    }
  }

  /**
   * What a held atom is granted with covers reads only: a write passes by its
   * own atom or not at all, whatever the requirements say.
   */
  lemma GrantsCoverReads(rules: Rules, others: map<string, set<string>>, route: Route, held: set<string>)
    requires NeedsAtom(route)
    ensures var atom := route.permission.value; var read := route.verb == "GET" || exists head: string :: atom == head + ":read";
      && (!read ==> (Open(rules, route, held) <==> atom !in rules.implicit + held))
      && (!read ==> (Open(rules.(requirements := others), route, held) <==> Open(rules, route, held)))
      && (read ==> (Open(rules, route, held) <==>
            atom !in rules.implicit + held && forall h :: h in held && h in rules.requirements ==> atom !in rules.requirements[h]))
  {
    hide IsRead;
    ReadMeans(route);
  }

  /** Every symbol imported is in the site. */
  predicate Whole(site: Site) {
    forall s :: s in site ==> forall x :: x in site[s].imports ==> x in site
  }

  function Start(root: Root): Symbol {
    Symbol(root.file, "default")
  }

  predicate RootsKnown(site: Site, roots: seq<Root>) {
    forall r :: r in roots ==> Start(r) in site
  }

  // -- the search, as a function ------------------------------------------------------

  type Gaps = map<Key, Gap>

  datatype State = State(visited: set<Symbol>, found: Gaps)

  function Note(rules: Rules, root: string, s: Symbol, held: set<string>, route: Route, found: Gaps): Gaps {
    if !Open(rules, route, held) then found
    else
      var key := Key(s.file, route.id);
      var gap := if key in found then found[key] else Gap(s.file, route, IsRead(route), []);
      found[key := gap.(roots := if root in gap.roots then gap.roots else gap.roots + [root])]
  }

  function NoteAll(rules: Rules, root: string, s: Symbol, held: set<string>, calls: seq<Route>, found: Gaps): Gaps {
    if calls == [] then found
    else NoteAll(rules, root, s, held, calls[1..], Note(rules, root, s, held, calls[0], found))
  }

  function Visit(site: Site, rules: Rules, root: string, s: Symbol, inherited: set<string>, st: State): (r: State)
    requires Whole(site) && s in site
    ensures st.visited <= r.visited && s in r.visited
    decreases site.Keys - st.visited, 0
  {
    if s in st.visited then st
    else
      var held := inherited + site[s].atoms;
      VisitAll(site, rules, root, site[s].imports, held,
               State(st.visited + {s}, NoteAll(rules, root, s, held, site[s].calls, st.found)))
  }

  function VisitAll(site: Site, rules: Rules, root: string, list: seq<Symbol>, held: set<string>, st: State): (r: State)
    requires Whole(site) && forall x :: x in list ==> x in site
    ensures st.visited <= r.visited && forall x :: x in list ==> x in r.visited
    decreases site.Keys - st.visited, |list|
  {
    if list == [] then st
    else VisitAll(site, rules, root, list[1..], held, Visit(site, rules, root, list[0], held, st))
  }

  function Search(site: Site, rules: Rules, roots: seq<Root>): Gaps
    requires Whole(site) && RootsKnown(site, roots)
  {
    if roots == [] then map[]
    else
      var last := roots[|roots| - 1];
      Visit(site, rules, last.file, Start(last), last.atoms, State({}, Search(site, rules, roots[..|roots| - 1]))).found
  }

  // -- the search, as the check runs it ------------------------------------------------

  class Finder {
    const site: Site
    const rules: Rules
    var visited: set<Symbol>
    var found: Gaps

    constructor (site: Site, rules: Rules)
      ensures this.site == site && this.rules == rules && found == map[]
    {
      this.site := site;
      this.rules := rules;
      visited := {};
      found := map[];
    }

    method Call(root: string, s: Symbol, held: set<string>, route: Route)
      modifies this`found
      ensures found == Note(rules, root, s, held, route, old(found))
    {
      if !NeedsAtom(route) { return; }
      if Covered(rules, route, held) { return; }
      var key := Key(s.file, route.id);
      var gap := if key in found then found[key] else Gap(s.file, route, IsRead(route), []);
      if root !in gap.roots { gap := gap.(roots := gap.roots + [root]); }
      found := found[key := gap];
    }

    method VisitSymbol(root: string, s: Symbol, inherited: set<string>)
      requires Whole(site) && s in site
      modifies this
      ensures State(visited, found) == Visit(site, rules, root, s, inherited, old(State(visited, found)))
      decreases site.Keys - visited
    {
      if s in visited { return; }
      visited := visited + {s};
      var held := inherited + site[s].atoms;
      var calls, imports := site[s].calls, site[s].imports;
      ghost var noted := NoteAll(rules, root, s, held, calls, found);
      for i := 0 to |calls|
        invariant visited == old(visited) + {s}
        invariant noted == NoteAll(rules, root, s, held, calls[i..], found)
      {
        Call(root, s, held, calls[i]);
      }
      ghost var end := VisitAll(site, rules, root, imports, held, State(visited, found));
      for i := 0 to |imports|
        invariant old(visited) + {s} <= visited
        invariant end == VisitAll(site, rules, root, imports[i..], held, State(visited, found))
      {
        VisitSymbol(root, imports[i], held);
      }
    }

    /** Every page in turn, each with nothing visited. */
    method Run(roots: seq<Root>)
      requires Whole(site) && RootsKnown(site, roots) && found == map[]
      modifies this
      ensures found == Search(site, rules, roots)
    {
      for i := 0 to |roots|
        invariant found == Search(site, rules, roots[..i])
      {
        assert roots[..i + 1][..i] == roots[..i];
        visited := {};
        VisitSymbol(roots[i].file, Start(roots[i]), roots[i].atoms);
      }
      assert roots[..|roots|] == roots;
    }
  }

  // -- what is visited ------------------------------------------------------------------

  ghost predicate Imports(site: Site, x: Symbol, y: Symbol) {
    x in site && y in site[x].imports
  }

  ghost function Importing(site: Site): (Symbol, Symbol) -> bool {
    (x, y) => Imports(site, x, y)
  }

  ghost predicate Followed(site: Site, x: Symbol, visited: set<Symbol>) {
    forall y :: Imports(site, x, y) ==> y in visited
  }

  lemma {:induction false} VisitFollows(site: Site, rules: Rules, root: string, s: Symbol, inherited: set<string>, st: State)
    requires Whole(site) && s in site
    ensures forall x :: x in Visit(site, rules, root, s, inherited, st).visited - st.visited ==>
      x in site && Followed(site, x, Visit(site, rules, root, s, inherited, st).visited) && Reaches(Importing(site), s, x)
    decreases site.Keys - st.visited, 0
  {
    if s !in st.visited {
      var held := inherited + site[s].atoms;
      var next := State(st.visited + {s}, NoteAll(rules, root, s, held, site[s].calls, st.found));
      Stays(Importing(site), s);
      forall x | x in site[s].imports ensures Reaches(Importing(site), s, x) { Steps(Importing(site), s, s, x); }
      VisitAllFollows(site, rules, root, s, site[s].imports, held, next);
    }
  }

  lemma {:induction false} VisitAllFollows(site: Site, rules: Rules, root: string, from: Symbol, list: seq<Symbol>, held: set<string>, st: State)
    requires Whole(site) && forall x :: x in list ==> x in site && Reaches(Importing(site), from, x)
    ensures forall x :: x in VisitAll(site, rules, root, list, held, st).visited - st.visited ==>
      x in site && Followed(site, x, VisitAll(site, rules, root, list, held, st).visited) && Reaches(Importing(site), from, x)
    decreases site.Keys - st.visited, |list|
  {
    if list != [] {
      VisitFollows(site, rules, root, list[0], held, st);
      var mid := Visit(site, rules, root, list[0], held, st);
      forall x | x in mid.visited - st.visited ensures Reaches(Importing(site), from, x) {
        Onwards(site, from, list[0], x);
      }
      VisitAllFollows(site, rules, root, from, list[1..], held, mid);
    }
  }

  lemma Onwards(site: Site, a: Symbol, b: Symbol, c: Symbol)
    requires Reaches(Importing(site), a, b) && Reaches(Importing(site), b, c)
    ensures Reaches(Importing(site), a, c)
  {
    var path :| IsWalk(Importing(site), path) && path[0] == b && path[|path| - 1] == c;
    OnwardsAlong(site, a, path);
  }

  lemma {:induction false} OnwardsAlong(site: Site, a: Symbol, path: seq<Symbol>)
    requires IsWalk(Importing(site), path) && Reaches(Importing(site), a, path[0])
    ensures Reaches(Importing(site), a, path[|path| - 1])
    decreases |path|
  {
    if |path| > 1 {
      OnwardsAlong(site, a, path[..|path| - 1]);
      Steps(Importing(site), a, path[|path| - 2], path[|path| - 1]);
    }
  }

  /** From a page the search visits exactly the symbols the page reaches. */
  lemma VisitsTheReachable(site: Site, rules: Rules, root: Root, found: Gaps, x: Symbol)
    requires Whole(site) && Start(root) in site
    ensures x in Visit(site, rules, root.file, Start(root), root.atoms, State({}, found)).visited
      <==> Reaches(Importing(site), Start(root), x)
  {
    var st := State({}, found);
    var visited := Visit(site, rules, root.file, Start(root), root.atoms, st).visited;
    VisitFollows(site, rules, root.file, Start(root), root.atoms, st);
    assert Closed(Importing(site), visited);
    ClosedHoldsAll(Importing(site), visited, Start(root));
  }

  // -- what is reported --------------------------------------------------------------------

  /** The atoms held at the end of an import path: the page's, and those written on the way. */
  function HeldAlong(site: Site, atoms: set<string>, path: seq<Symbol>): set<string>
    decreases |path|
  {
    if path == [] then atoms
    else
      var last := path[|path| - 1];
      HeldAlong(site, atoms, path[..|path| - 1]) + if last in site then site[last].atoms else {}
  }

  ghost predicate IsTrail(site: Site, root: Root, path: seq<Symbol>) {
    IsWalk(Importing(site), path) && path[0] == Start(root)
  }

  /** The call at the end of the path is made without its atom. */
  ghost predicate OpenCall(site: Site, rules: Rules, root: Root, path: seq<Symbol>, route: Route) {
    && IsTrail(site, root, path)
    && path[|path| - 1] in site && route in site[path[|path| - 1]].calls
    && Open(rules, route, HeldAlong(site, root.atoms, path))
  }

  ghost predicate HasGap(site: Site, rules: Rules, root: Root, key: Key) {
    exists path: seq<Symbol>, route: Route :: OpenCall(site, rules, root, path, route) && key == Key(path[|path| - 1].file, route.id)
  }

  predicate Noted(found: Gaps, key: Key, root: string) {
    key in found && root in found[key].roots
  }

  // -- the path a symbol is judged on ----------------------------------------------------------

  type Paths = map<Symbol, seq<Symbol>>

  /** The path on which each symbol is first reached, depth first, imports in their order. */
  function Explore(site: Site, s: Symbol, before: seq<Symbol>, paths: Paths): (r: Paths)
    requires Whole(site) && s in site
    ensures paths.Keys <= r.Keys && s in r && forall x :: x in paths ==> r[x] == paths[x]
    decreases site.Keys - paths.Keys, 0
  {
    if s in paths then paths
    else
      var next := paths[s := before + [s]];
      assert next.Keys == paths.Keys + {s};
      ExploreAll(site, site[s].imports, before + [s], next)
  }

  function ExploreAll(site: Site, list: seq<Symbol>, before: seq<Symbol>, paths: Paths): (r: Paths)
    requires Whole(site) && forall x :: x in list ==> x in site
    ensures paths.Keys <= r.Keys && forall x :: x in paths ==> r[x] == paths[x]
    decreases site.Keys - paths.Keys, |list|
  {
    if list == [] then paths
    else ExploreAll(site, list[1..], before, Explore(site, list[0], before, paths))
  }

  function FirstPaths(site: Site, root: Root): Paths
    requires Whole(site) && Start(root) in site
  {
    Explore(site, Start(root), [], map[])
  }

  /** A call of `x` with this key is made without its atom, on the path given. */
  ghost predicate OpenOn(site: Site, rules: Rules, atoms: set<string>, path: seq<Symbol>, x: Symbol, key: Key) {
    && x in site
    && exists route :: route in site[x].calls && Open(rules, route, HeldAlong(site, atoms, path)) && key == Key(x.file, route.id)
  }

  /** Some symbol reached after `seen` has an open call with this key on its first path. */
  ghost predicate OpenBeyond(site: Site, rules: Rules, atoms: set<string>, seen: Paths, paths: Paths, key: Key) {
    exists x :: x in paths && x !in seen && OpenOn(site, rules, atoms, paths[x], x, key)
  }

  /** What the notes gain is what is open on the first paths. */
  ghost predicate NotesOpen(site: Site, rules: Rules, root: Root, seen: Paths, paths: Paths, found: Gaps, later: Gaps) {
    forall key, f :: Noted(later, key, f) <==>
      Noted(found, key, f) || (f == root.file && OpenBeyond(site, rules, root.atoms, seen, paths, key))
  }

  lemma {:induction false} NoteAllNotes(rules: Rules, root: string, s: Symbol, held: set<string>, calls: seq<Route>, found: Gaps)
    ensures forall key, f :: Noted(NoteAll(rules, root, s, held, calls, found), key, f) <==>
      Noted(found, key, f) || (f == root && exists route :: route in calls && Open(rules, route, held) && key == Key(s.file, route.id))
  {
    if calls != [] {
      var next := Note(rules, root, s, held, calls[0], found);
      NoteAllNotes(rules, root, s, held, calls[1..], next);
      NoteNotes(rules, root, s, held, calls[0], found);
      assert calls == [calls[0]] + calls[1..];
    }
  }

  lemma NoteNotes(rules: Rules, root: string, s: Symbol, held: set<string>, route: Route, found: Gaps)
    ensures forall key, f :: Noted(Note(rules, root, s, held, route, found), key, f) <==>
      Noted(found, key, f) || (f == root && Open(rules, route, held) && key == Key(s.file, route.id))
  {
    hide Open;
  }

  /** The calls of one symbol, noted on its first path. */
  lemma NotesOfSymbol(site: Site, rules: Rules, root: Root, before: seq<Symbol>, s: Symbol, found: Gaps, paths: Paths)
    requires s in site && s !in paths
    ensures var held := HeldAlong(site, root.atoms, before + [s]);
      NotesOpen(site, rules, root, paths, paths[s := before + [s]], found, NoteAll(rules, root.file, s, held, site[s].calls, found))
  {
    hide Noted, HeldAlong, Open;
    var held, next := HeldAlong(site, root.atoms, before + [s]), paths[s := before + [s]];
    NoteAllNotes(rules, root.file, s, held, site[s].calls, found);
    forall key ensures OpenBeyond(site, rules, root.atoms, paths, next, key) <==> OpenOn(site, rules, root.atoms, before + [s], s, key) {
      if OpenOn(site, rules, root.atoms, before + [s], s, key) { assert next[s] == before + [s] && s !in paths; }
    }
  }

  lemma Chain(site: Site, rules: Rules, root: Root, p0: Paths, p1: Paths, p2: Paths, f0: Gaps, f1: Gaps, f2: Gaps)
    requires NotesOpen(site, rules, root, p0, p1, f0, f1) && NotesOpen(site, rules, root, p1, p2, f1, f2)
    requires forall x :: x in p0 ==> x in p1
    requires forall x :: x in p1 ==> x in p2 && p2[x] == p1[x]
    ensures NotesOpen(site, rules, root, p0, p2, f0, f2)
  {
    hide Noted, OpenOn;
    forall key ensures OpenBeyond(site, rules, root.atoms, p0, p2, key) <==>
      OpenBeyond(site, rules, root.atoms, p0, p1, key) || OpenBeyond(site, rules, root.atoms, p1, p2, key)
    {
      if x :| x in p0.Keys + p1.Keys && x in p1 && x !in p0 && OpenOn(site, rules, root.atoms, p1[x], x, key) {
        assert x in p2 && p2[x] == p1[x];
      }
    }
  }

  lemma NothingNew(site: Site, rules: Rules, root: Root, paths: Paths, found: Gaps)
    ensures NotesOpen(site, rules, root, paths, paths, found, found)
  {
  }

  /** A visit notes exactly the calls that are open on the first path to their symbol. */
  lemma {:induction false} VisitNotes(site: Site, rules: Rules, root: Root, before: seq<Symbol>, s: Symbol, st: State, paths: Paths)
    requires Whole(site) && s in site && st.visited == paths.Keys
    ensures var r := Visit(site, rules, root.file, s, HeldAlong(site, root.atoms, before), st);
      var p := Explore(site, s, before, paths);
      r.visited == p.Keys && NotesOpen(site, rules, root, paths, p, st.found, r.found)
    decreases site.Keys - st.visited, 0
  {
    hide NotesOpen, NoteAll;
    if s in paths {
      NothingNew(site, rules, root, paths, st.found);
    } else {
      var path := before + [s];
      assert path[..|path| - 1] == before;
      var held := HeldAlong(site, root.atoms, before) + site[s].atoms;
      assert held == HeldAlong(site, root.atoms, path);
      var noted := NoteAll(rules, root.file, s, held, site[s].calls, st.found);
      var next := paths[s := path];
      assert next.Keys == st.visited + {s};
      NotesOfSymbol(site, rules, root, before, s, st.found, paths);
      VisitAllNotes(site, rules, root, path, site[s].imports, State(st.visited + {s}, noted), next);
      var r := VisitAll(site, rules, root.file, site[s].imports, held, State(st.visited + {s}, noted));
      Chain(site, rules, root, paths, next, ExploreAll(site, site[s].imports, path, next), st.found, noted, r.found);
    }
  }

  lemma {:induction false} VisitAllNotes(site: Site, rules: Rules, root: Root, path: seq<Symbol>, list: seq<Symbol>, st: State, paths: Paths)
    requires Whole(site) && (forall x :: x in list ==> x in site) && st.visited == paths.Keys
    ensures var r := VisitAll(site, rules, root.file, list, HeldAlong(site, root.atoms, path), st);
      var p := ExploreAll(site, list, path, paths);
      r.visited == p.Keys && NotesOpen(site, rules, root, paths, p, st.found, r.found)
    decreases site.Keys - st.visited, |list|
  {
    hide NotesOpen, NoteAll, HeldAlong;
    if list == [] {
      NothingNew(site, rules, root, paths, st.found);
    } else {
      var held := HeldAlong(site, root.atoms, path);
      VisitNotes(site, rules, root, path, list[0], st, paths);
      var mid, next := Visit(site, rules, root.file, list[0], held, st), Explore(site, list[0], path, paths);
      VisitAllNotes(site, rules, root, path, list[1..], mid, next);
      var r := VisitAll(site, rules, root.file, list[1..], held, mid);
      Chain(site, rules, root, paths, next, ExploreAll(site, list[1..], path, next), st.found, mid.found, r.found);
    }
  }

  /** A page has a call with this key that is open on the first path to its symbol. */
  ghost predicate FirstGap(site: Site, rules: Rules, root: Root, key: Key)
    requires Whole(site) && Start(root) in site
  {
    OpenBeyond(site, rules, root.atoms, map[], FirstPaths(site, root), key)
  }

  /** The report is exactly the calls that are open on the first path to their symbol. */
  lemma {:induction false} NotedIffFirstOpen(site: Site, rules: Rules, roots: seq<Root>, key: Key, file: string)
    requires Whole(site) && RootsKnown(site, roots)
    ensures Noted(Search(site, rules, roots), key, file) <==>
      exists root :: root in roots && root.file == file && FirstGap(site, rules, root, key)
    decreases |roots|
  {
    if roots != [] {
      var init, last := roots[..|roots| - 1], roots[|roots| - 1];
      assert roots == init + [last];
      NotedIffFirstOpen(site, rules, init, key, file);
      VisitNotes(site, rules, last, [], Start(last), State({}, Search(site, rules, init)), map[]);
    }
  }

  // -- the first path is a path ------------------------------------------------------------------

  ghost predicate AreTrails(site: Site, root: Root, paths: Paths) {
    forall x :: x in paths ==> IsTrail(site, root, paths[x]) && paths[x][|paths[x]| - 1] == x
  }

  lemma Longer(site: Site, root: Root, path: seq<Symbol>, x: Symbol)
    requires IsTrail(site, root, path) && Imports(site, path[|path| - 1], x)
    ensures IsTrail(site, root, path + [x])
  {
    assert (path + [x])[..|path|] == path;
  }

  lemma {:induction false} ExploreTrails(site: Site, root: Root, s: Symbol, before: seq<Symbol>, paths: Paths)
    requires Whole(site) && s in site && AreTrails(site, root, paths) && IsTrail(site, root, before + [s])
    ensures AreTrails(site, root, Explore(site, s, before, paths))
    decreases site.Keys - paths.Keys, 0
  {
    hide IsTrail;
    if s !in paths {
      var path := before + [s];
      forall x | x in site[s].imports ensures IsTrail(site, root, path + [x]) { Longer(site, root, path, x); }
      assert paths[s := path].Keys == paths.Keys + {s};
      ExploreAllTrails(site, root, site[s].imports, path, paths[s := path]);
    }
  }

  lemma {:induction false} ExploreAllTrails(site: Site, root: Root, list: seq<Symbol>, path: seq<Symbol>, paths: Paths)
    requires Whole(site) && AreTrails(site, root, paths)
    requires forall x :: x in list ==> x in site && IsTrail(site, root, path + [x])
    ensures AreTrails(site, root, ExploreAll(site, list, path, paths))
    decreases site.Keys - paths.Keys, |list|
  {
    hide IsTrail, AreTrails;
    if list != [] {
      var next := Explore(site, list[0], path, paths);
      assert paths.Keys <= next.Keys;
      ExploreTrails(site, root, list[0], path, paths);
      ExploreAllTrails(site, root, list[1..], path, next);
    }
  }

  /** Each symbol a page reaches has a first path, which is an import path from the page to it. */
  lemma FirstPathsAreTrails(site: Site, root: Root, x: Symbol)
    requires Whole(site) && Start(root) in site
    ensures x in FirstPaths(site, root) <==> Reaches(Importing(site), Start(root), x)
    ensures x in FirstPaths(site, root) ==> var path := FirstPaths(site, root)[x];
      IsTrail(site, root, path) && path[|path| - 1] == x
  {
    assert [] + [Start(root)] == [Start(root)];
    ExploreTrails(site, root, Start(root), [], map[]);
    VisitNotes(site, Rules({}, map[]), root, [], Start(root), State({}, map[]), map[]);
    VisitsTheReachable(site, Rules({}, map[]), root, map[], x);
  }

  /**
   * Every reported gap is real: along some import path from that page, a call
   * of the route is made without the atom it needs.
   */
  lemma GapsAreReal(site: Site, rules: Rules, roots: seq<Root>, key: Key, file: string)
    requires Whole(site) && RootsKnown(site, roots) && Noted(Search(site, rules, roots), key, file)
    ensures exists root :: root in roots && root.file == file && HasGap(site, rules, root, key)
  {
    NotedIffFirstOpen(site, rules, roots, key, file);
    var root :| root in roots && root.file == file && FirstGap(site, rules, root, key);
    FirstGapIsGap(site, rules, root, key);
  }

  lemma FirstGapIsGap(site: Site, rules: Rules, root: Root, key: Key)
    requires Whole(site) && Start(root) in site && FirstGap(site, rules, root, key)
    ensures HasGap(site, rules, root, key)
  {
    hide IsTrail, FirstPaths, HeldAlong, Open;
    var paths := FirstPaths(site, root);
    var x :| x in paths && OpenOn(site, rules, root.atoms, paths[x], x, key);
    FirstPathsAreTrails(site, root, x);
    var route :| route in site[x].calls && Open(rules, route, HeldAlong(site, root.atoms, paths[x])) && key == Key(x.file, route.id);
    assert OpenCall(site, rules, root, paths[x], route);
  }

  // -- when the report is complete ----------------------------------------------------------------

  /**
   * Every gap is reported if and only if each one shows on a first path from
   * a page of that file.
   */
  lemma CompleteIffFirst(site: Site, rules: Rules, roots: seq<Root>)
    requires Whole(site) && RootsKnown(site, roots)
    ensures (forall root, key :: root in roots && HasGap(site, rules, root, key) ==> Noted(Search(site, rules, roots), key, root.file))
      <==> (forall root, key :: root in roots && HasGap(site, rules, root, key) ==>
             exists other :: other in roots && other.file == root.file && FirstGap(site, rules, other, key))
  {
    hide HasGap, Search, FirstGap, Noted;
    forall root, key | root in roots
      ensures Noted(Search(site, rules, roots), key, root.file) <==>
        exists other :: other in roots && other.file == root.file && FirstGap(site, rules, other, key)
    {
      NotedIffFirstOpen(site, rules, roots, key, root.file);
    }
  }

  /** Whether a call is covered does not depend on the import path taken to it. */
  ghost predicate PathsAgree(site: Site, rules: Rules, root: Root) {
    forall p, q, route :: OpenCall(site, rules, root, p, route) && IsTrail(site, root, q) && q[|q| - 1] == p[|p| - 1] ==>
      OpenCall(site, rules, root, q, route)
  }

  lemma AgreeingGap(site: Site, rules: Rules, root: Root, key: Key)
    requires Whole(site) && Start(root) in site && PathsAgree(site, rules, root) && HasGap(site, rules, root, key)
    ensures FirstGap(site, rules, root, key)
  {
    hide FirstPaths, HeldAlong, Open;
    var path: seq<Symbol>, route: Route :| OpenCall(site, rules, root, path, route) && key == Key(path[|path| - 1].file, route.id);
    var x := path[|path| - 1];
    assert Reaches(Importing(site), Start(root), x);
    FirstPathsAreTrails(site, root, x);
    assert OpenCall(site, rules, root, FirstPaths(site, root)[x], route);
  }

  /** When all paths to a call agree, a gap is reported against a page exactly when the page has one. */
  lemma ReportsExactly(site: Site, rules: Rules, roots: seq<Root>, key: Key, file: string)
    requires Whole(site) && RootsKnown(site, roots)
    requires forall root :: root in roots ==> PathsAgree(site, rules, root)
    ensures Noted(Search(site, rules, roots), key, file) <==>
      exists root :: root in roots && root.file == file && HasGap(site, rules, root, key)
  {
    hide HasGap, Search, FirstGap, Noted, PathsAgree;
    NotedIffFirstOpen(site, rules, roots, key, file);
    if root :| root in roots && root.file == file && HasGap(site, rules, root, key) { AgreeingGap(site, rules, root, key); }
    if Noted(Search(site, rules, roots), key, file) { GapsAreReal(site, rules, roots, key, file); }
  }

  const CONTROL := Symbol("save", "Save")
  const GATED := Symbol("gated", "Gated")
  const BARE := Symbol("bare", "Bare")
  const PAGE := Root("page", {})
  const WRITE := Route("items.save", "POST", Some("catalog:item:write"))
  const NO_RULES := Rules({}, map[])

  /** A page shows one control twice: under a gate, and bare. */
  const TWICE: Site := map[
    Start(PAGE) := Info([], {}, [GATED, BARE]),
    GATED := Info([], {"catalog:item:write"}, [CONTROL]),
    BARE := Info([], {}, [CONTROL]),
    CONTROL := Info([WRITE], {}, [])]

  /** A symbol not seen before, whose calls are all covered. */
  lemma {:induction false} VisitCovered(site: Site, rules: Rules, root: string, s: Symbol, inherited: set<string>, held: set<string>, st: State)
    requires Whole(site) && s in site && s !in st.visited && held == inherited + site[s].atoms
    requires forall route :: route in site[s].calls ==> !Open(rules, route, held)
    ensures Visit(site, rules, root, s, inherited, st)
      == VisitAll(site, rules, root, site[s].imports, held, State(st.visited + {s}, st.found))
  {
    NothingNoted(rules, root, s, held, site[s].calls, st.found);
  }

  lemma {:induction false} NothingNoted(rules: Rules, root: string, s: Symbol, held: set<string>, calls: seq<Route>, found: Gaps)
    requires forall route :: route in calls ==> !Open(rules, route, held)
    ensures NoteAll(rules, root, s, held, calls, found) == found
  {
    if calls != [] { NothingNoted(rules, root, s, held, calls[1..], found); }
  }

  lemma {:induction false} VisitOne(site: Site, rules: Rules, root: string, x: Symbol, rest: seq<Symbol>, held: set<string>, st: State)
    requires Whole(site) && x in site && forall y :: y in rest ==> y in site
    ensures VisitAll(site, rules, root, [x] + rest, held, st)
      == VisitAll(site, rules, root, rest, held, Visit(site, rules, root, x, held, st))
  {
    assert ([x] + rest)[1..] == rest;
  }

  lemma TwiceIsWhole()
    ensures Whole(TWICE) && RootsKnown(TWICE, [PAGE])
  {
  }

  lemma UnderTheGate(s0: State)
    requires Whole(TWICE) && s0 == State({Start(PAGE)}, map[])
    ensures Visit(TWICE, NO_RULES, "page", GATED, {}, s0) == State({Start(PAGE), GATED, CONTROL}, map[])
  {
    hide Visit, VisitAll;
    var atoms := {"catalog:item:write"};
    var s1 := State(s0.visited + {GATED}, map[]);
    VisitCovered(TWICE, NO_RULES, "page", GATED, {}, atoms, s0);
    VisitOne(TWICE, NO_RULES, "page", CONTROL, [], atoms, s1);
    VisitCovered(TWICE, NO_RULES, "page", CONTROL, atoms, atoms, s1);
    assert [CONTROL] + [] == [CONTROL];
    EmptyList(atoms, Visit(TWICE, NO_RULES, "page", CONTROL, atoms, s1));
    EmptyList(atoms, State(s1.visited + {CONTROL}, map[]));
    assert s1.visited + {CONTROL} == {Start(PAGE), GATED, CONTROL};
  }

  lemma {:induction false} EmptyList(held: set<string>, st: State)
    requires Whole(TWICE)
    ensures VisitAll(TWICE, NO_RULES, "page", [], held, st) == st
  {
  }

  lemma Bare(s2: State)
    requires Whole(TWICE) && BARE !in s2.visited && CONTROL in s2.visited && s2.found == map[]
    ensures Visit(TWICE, NO_RULES, "page", BARE, {}, s2).found == map[]
  {
    var s3 := State(s2.visited + {BARE}, map[]);
    VisitCovered(TWICE, NO_RULES, "page", BARE, {}, {}, s2);
    VisitOne(TWICE, NO_RULES, "page", CONTROL, [], {}, s3);
    assert [CONTROL] + [] == [CONTROL];
  }

  lemma BareCall()
    ensures HasGap(TWICE, NO_RULES, PAGE, Key("save", "items.save"))
  {
    var page := Start(PAGE);
    var bare := [page, BARE];
    var path := bare + [CONTROL];
    assert path[..2] == bare && bare[..1] == [page];
    assert IsWalk(Importing(TWICE), [page]);
    assert IsWalk(Importing(TWICE), bare);
    assert HeldAlong(TWICE, {}, [page]) == {};
    assert HeldAlong(TWICE, {}, bare) == {};
    assert HeldAlong(TWICE, {}, path) == {};
    assert OpenCall(TWICE, NO_RULES, PAGE, path, WRITE);
  }

  /**
   * Where paths disagree the report is not exact: a symbol is judged on the
   * first path to it, so the bare control goes unreported.
   */
  lemma BareControlMissed()
    ensures Whole(TWICE) && RootsKnown(TWICE, [PAGE])
    ensures Search(TWICE, NO_RULES, [PAGE]) == map[]
    ensures HasGap(TWICE, NO_RULES, PAGE, Key("save", "items.save"))
  {
    hide Visit, VisitAll;
    TwiceIsWhole();
    BareCall();
    var page := Start(PAGE);
    var s0 := State({page}, map[]);
    var s2 := State({page, GATED, CONTROL}, map[]);
    VisitCovered(TWICE, NO_RULES, "page", page, {}, {}, State({}, map[]));
    assert {} + {page} == {page};
    VisitOne(TWICE, NO_RULES, "page", GATED, [BARE], {}, s0);
    UnderTheGate(s0);
    VisitOne(TWICE, NO_RULES, "page", BARE, [], {}, s2);
    assert [GATED] + [BARE] == [GATED, BARE] && [BARE] + [] == [BARE];
    Bare(s2);
    EmptyList({}, Visit(TWICE, NO_RULES, "page", BARE, {}, s2));
    assert [PAGE][..0] == [];
  }

  /** The same page, showing the bare control first. */
  const BARE_FIRST: Site := TWICE[Start(PAGE) := Info([], {}, [BARE, GATED])]

  lemma BareFirstIsWhole()
    ensures Whole(BARE_FIRST) && RootsKnown(BARE_FIRST, [PAGE])
  {
  }

  lemma {:induction false} ExploreOne(site: Site, x: Symbol, rest: seq<Symbol>, before: seq<Symbol>, paths: Paths)
    requires Whole(site) && x in site && x !in paths && forall y :: y in rest ==> y in site
    ensures var next := paths[x := before + [x]];
      ExploreAll(site, [x] + rest, before, paths)
        == ExploreAll(site, rest, before, ExploreAll(site, site[x].imports, before + [x], next))
  {
    assert ([x] + rest)[1..] == rest;
  }

  lemma BareComesFirst()
    requires Whole(BARE_FIRST)
    ensures CONTROL in FirstPaths(BARE_FIRST, PAGE) && FirstPaths(BARE_FIRST, PAGE)[CONTROL] == [Start(PAGE), BARE, CONTROL]
  {
    hide Explore, ExploreAll;
    var page := Start(PAGE);
    var p0: Paths := map[page := [page]];
    var p1 := p0[BARE := [page] + [BARE]];
    ExploreOne(BARE_FIRST, BARE, [GATED], [page], p0);
    ExploreOne(BARE_FIRST, CONTROL, [], [page] + [BARE], p1);
    assert [BARE] + [GATED] == [BARE, GATED] && [CONTROL] + [] == [CONTROL];
    assert [page] + [BARE] + [CONTROL] == [page, BARE, CONTROL];
    StartsAlone(BARE_FIRST, PAGE);
  }

  lemma {:induction false} StartsAlone(site: Site, root: Root)
    requires Whole(site) && Start(root) in site
    ensures var path := [Start(root)];
      FirstPaths(site, root) == ExploreAll(site, site[Start(root)].imports, path, map[Start(root) := path])
  {
    assert [] + [Start(root)] == [Start(root)];
  }

  /** Where paths disagree the order of the imports decides: here the gap is reported. */
  lemma BareControlReported()
    ensures Whole(BARE_FIRST) && RootsKnown(BARE_FIRST, [PAGE])
    ensures Noted(Search(BARE_FIRST, NO_RULES, [PAGE]), Key("save", "items.save"), "page")
  {
    hide Search, FirstPaths;
    BareFirstIsWhole();
    BareComesFirst();
    var page := Start(PAGE);
    var path := [page, BARE, CONTROL];
    assert path[..2] == [page, BARE] && [page, BARE][..1] == [page];
    assert HeldAlong(BARE_FIRST, {}, [page]) == {};
    assert HeldAlong(BARE_FIRST, {}, [page, BARE]) == {};
    assert HeldAlong(BARE_FIRST, {}, path) == {};
    assert OpenOn(BARE_FIRST, NO_RULES, {}, path, CONTROL, Key("save", "items.save")) by {
      assert WRITE in BARE_FIRST[CONTROL].calls;
    }
    assert PAGE in [PAGE] && FirstGap(BARE_FIRST, NO_RULES, PAGE, Key("save", "items.save"));
    NotedIffFirstOpen(BARE_FIRST, NO_RULES, [PAGE], Key("save", "items.save"), "page");
  }
}
