/**
 * What a top-level symbol of the admin sources reaches: its own text and that
 * of every declaration of its file it names, and the symbols it imports.
 */
module SymbolText {
  import opened JsonValues
  import opened Walks
  import opened PermissionGaps

  datatype Chunk = Chunk(name: string, body: string)

  datatype Binding = Binding(imported: string, local: string)

  datatype Import = Import(spec: string, names: seq<Binding>, isDynamic: bool)

  datatype RouteUse = RouteUse(local: string, route: Route)

  /** A parsed file: `named` and `star` are its re-exports, `uses` the contract routes it imports. */
  datatype Source = Source(
    chunks: seq<Chunk>, imports: seq<Import>,
    named: map<string, (string, string)>, star: seq<string>, uses: seq<RouteUse>)

  /** `targets`: the file an import from a file resolves to. */
  datatype Tree = Tree(files: map<string, Source>, targets: map<(string, string), string>)

  /** The text patterns of the check that are read off a text as a whole. */
  datatype Patterns = Patterns(
    atomLiterals: string -> set<string>, readsPermission: (string, string) -> bool, isCalled: (string, string) -> bool)

  function Resolve(t: Tree, from: string, spec: string): Option<string> {
    if (from, spec) in t.targets && t.targets[(from, spec)] in t.files then Some(t.targets[(from, spec)]) else None
  }

  // -- a word in a text --------------------------------------------------------------------

  predicate WordChar(c: char) {
    'a' <= c <= 'z' || 'A' <= c <= 'Z' || '0' <= c <= '9' || c == '_'
  }

  predicate Name(word: string) {
    word != "" && forall i :: 0 <= i < |word| ==> WordChar(word[i]) || word[i] == '$'
  }

  predicate WordBefore(text: string, i: nat)
    requires i <= |text|
  {
    i > 0 && WordChar(text[i - 1])
  }

  predicate WordAfter(text: string, i: nat)
    requires i <= |text|
  {
    i < |text| && WordChar(text[i])
  }

  /** The word stands at `i`: not after a name, a `$` or a dot, and ending at a word boundary. */
  predicate MentionedAt(text: string, word: string, i: nat) {
    && i + |word| <= |text| && text[i..i + |word|] == word
    && (i > 0 ==> !WordChar(text[i - 1]) && text[i - 1] != '$' && text[i - 1] != '.')
    && WordBefore(text, i + |word|) != WordAfter(text, i + |word|)
  }

  predicate Mentions(text: string, word: string) {
    exists i :: 0 <= i <= |text| && MentionedAt(text, word, i)
  }

  predicate Includes(text: string, part: string) {
    exists i :: 0 <= i <= |text| && part <= text[i..]
  }

  lemma MentionedLeft(a: string, b: string, word: string, i: nat)
    requires Name(word) && i + |word| <= |a|
    ensures MentionedAt(a + "\n" + b, word, i) <==> MentionedAt(a, word, i)
  {
    var c := a + "\n" + b;
    assert c[i..i + |word|] == a[i..i + |word|];
  }

  lemma MentionedRight(a: string, b: string, word: string, i: nat)
    requires Name(word) && i + |word| <= |b|
    ensures MentionedAt(a + "\n" + b, word, |a| + 1 + i) <==> MentionedAt(b, word, i)
  {
    var c := a + "\n" + b;
    assert c[|a| + 1 + i..|a| + 1 + i + |word|] == b[i..i + |word|];
  }

  lemma NotAcross(a: string, b: string, word: string, i: nat)
    requires Name(word) && MentionedAt(a + "\n" + b, word, i)
    ensures i + |word| <= |a| || |a| < i
  {
    var c := a + "\n" + b;
    forall j | i <= j < i + |word| ensures c[j] != '\n' {
      assert c[j] == c[i..i + |word|][j - i] == word[j - i];
    }
    assert c[|a|] == '\n';
  }

  /** A line break between two texts neither makes nor breaks a mention. */
  lemma MentionsJoined(a: string, b: string, word: string)
    requires Name(word)
    ensures Mentions(a + "\n" + b, word) <==> Mentions(a, word) || Mentions(b, word)
  {
    hide MentionedAt;
    var c := a + "\n" + b;
    if i: nat :| i <= |c| && MentionedAt(c, word, i) {
      NotAcross(a, b, word, i);
      Fits(c, word, i);
      if i + |word| <= |a| { MentionedLeft(a, b, word, i); } else { MentionedRight(a, b, word, i - |a| - 1); }
    }
    if i: nat :| i <= |a| && MentionedAt(a, word, i) {
      Fits(a, word, i);
      MentionedLeft(a, b, word, i);
    }
    if i: nat :| i <= |b| && MentionedAt(b, word, i) {
      Fits(b, word, i);
      MentionedRight(a, b, word, i);
    }
  }

  lemma Fits(text: string, word: string, i: nat)
    requires MentionedAt(text, word, i)
    ensures i + |word| <= |text|
  {
  }

  // -- the text of a symbol ------------------------------------------------------------------

  predicate Has(chunks: seq<Chunk>, name: string) {
    exists i :: 0 <= i < |chunks| && chunks[i].name == name
  }

  function Body(chunks: seq<Chunk>, name: string): string
    requires Has(chunks, name)
  {
    if chunks[0].name == name then chunks[0].body else Body(chunks[1..], name)
  }

  function Names(chunks: seq<Chunk>): set<string> {
    set c | c in chunks :: c.name
  }

  /** The other chunks a text names, in the file's order. */
  function Named(chunks: seq<Chunk>, text: string, seen: set<string>): (r: seq<string>)
    ensures forall n :: n in r <==> Has(chunks, n) && n !in seen && n != "default" && Mentions(text, n)
  {
    if chunks == [] then []
    else
      var n := chunks[0].name;
      assert forall m :: Has(chunks, m) <==> m == n || Has(chunks[1..], m);
      (if n !in seen && n != "default" && Mentions(text, n) then [n] else []) + Named(chunks[1..], text, seen)
  }

  /** The names taken, in order, off a stack that starts as `queue`. */
  function Collect(chunks: seq<Chunk>, queue: seq<string>, seen: set<string>): seq<string>
    decreases Names(chunks) - seen, |queue|
  {
    if queue == [] then []
    else
      var next, rest := queue[|queue| - 1], queue[..|queue| - 1];
      if next in seen then Collect(chunks, rest, seen)
      else if !Has(chunks, next) then Collect(chunks, rest, seen + {next})
      else
        assert next in Names(chunks);
        [next] + Collect(chunks, rest + Named(chunks, Body(chunks, next), seen + {next}), seen + {next})
  }

  function Joined(chunks: seq<Chunk>, names: seq<string>): string
    requires forall n :: n in names ==> Has(chunks, n)
  {
    if names == [] then ""
    else Joined(chunks, names[..|names| - 1]) + "\n" + Body(chunks, names[|names| - 1])
  }

  predicate Next(chunks: seq<Chunk>, x: string, y: string) {
    Has(chunks, x) && Has(chunks, y) && y != "default" && Mentions(Body(chunks, x), y)
  }

  ghost function Nexts(chunks: seq<Chunk>): (string, string) -> bool {
    (x, y) => Next(chunks, x, y)
  }

  lemma {:induction false} CollectAll(chunks: seq<Chunk>, from: string, queue: seq<string>, seen: set<string>)
    requires forall x :: x in queue ==> Reaches(Nexts(chunks), from, x)
    ensures var r := Collect(chunks, queue, seen);
      && (forall x :: x in r ==> Has(chunks, x) && x !in seen && Reaches(Nexts(chunks), from, x))
      && (forall x :: x in queue && Has(chunks, x) ==> x in r || x in seen)
      && (forall x, y :: x in r && Next(chunks, x, y) ==> y in r || y in seen)
      && (forall i, j :: 0 <= i < j < |r| ==> r[i] != r[j])
    decreases Names(chunks) - seen, |queue|
  {
    if queue != [] {
      var next, rest := queue[|queue| - 1], queue[..|queue| - 1];
      assert queue == rest + [next];
      if next in seen {
        CollectAll(chunks, from, rest, seen);
      } else if !Has(chunks, next) {
        CollectAll(chunks, from, rest, seen + {next});
      } else {
        assert next in Names(chunks);
        var more := Named(chunks, Body(chunks, next), seen + {next});
        forall y | y in more ensures Reaches(Nexts(chunks), from, y) {
          Steps(Nexts(chunks), from, next, y);
        }
        CollectAll(chunks, from, rest + more, seen + {next});
      }
    }
  }

  function Closure(chunks: seq<Chunk>, name: string): (r: seq<string>)
    ensures forall n :: n in r ==> Has(chunks, n)
  {
    CollectAllOf(chunks, name);
    Collect(chunks, [name], {})
  }

  lemma CollectAllOf(chunks: seq<Chunk>, name: string)
    ensures forall x :: x in Collect(chunks, [name], {}) ==> Has(chunks, x)
  {
    Stays(Nexts(chunks), name);
    CollectAll(chunks, name, [name], {});
  }

  /** A symbol's text takes in, once each, exactly the declarations of the file it leads to. */
  lemma ClosureIsReachable(chunks: seq<Chunk>, name: string)
    requires Has(chunks, name)
    ensures forall x :: x in Closure(chunks, name) <==> Reaches(Nexts(chunks), name, x)
    ensures forall i, j :: 0 <= i < j < |Closure(chunks, name)| ==> Closure(chunks, name)[i] != Closure(chunks, name)[j]
  {
    Stays(Nexts(chunks), name);
    CollectAll(chunks, name, [name], {});
    var all := set x | x in Closure(chunks, name);
    assert Closed(Nexts(chunks), all);
    ClosedHoldsAll(Nexts(chunks), all, name);
  }

  function ClosureText(chunks: seq<Chunk>, name: string): string {
    Joined(chunks, Closure(chunks, name))
  }

  /** One turn of the worklist. */
  lemma CollectTurn(chunks: seq<Chunk>, rest: seq<string>, next: string, seen: set<string>, taken: seq<string>)
    ensures next in seen ==> Collect(chunks, rest + [next], seen) == Collect(chunks, rest, seen)
    ensures next !in seen && !Has(chunks, next) ==> Collect(chunks, rest + [next], seen) == Collect(chunks, rest, seen + {next})
    ensures next !in seen && Has(chunks, next) ==> next in Names(chunks)
    ensures next !in seen && Has(chunks, next) ==>
      taken + Collect(chunks, rest + [next], seen) ==
      (taken + [next]) + Collect(chunks, rest + Named(chunks, Body(chunks, next), seen + {next}), seen + {next})
  {
    hide Named, Body, Has;
    var queue := rest + [next];
    assert queue[|queue| - 1] == next && queue[..|queue| - 1] == rest;
    HasName(chunks, next);
  }

  lemma {:induction false} HasName(chunks: seq<Chunk>, name: string)
    ensures Has(chunks, name) <==> name in Names(chunks)
  {
    if chunks != [] {
      HasName(chunks[1..], name);
      assert forall c :: c in chunks <==> c == chunks[0] || c in chunks[1..];
    }
  }

  lemma JoinedTurn(chunks: seq<Chunk>, taken: seq<string>, next: string)
    requires Has(chunks, next) && forall n :: n in taken ==> Has(chunks, n)
    ensures Joined(chunks, taken + [next]) == Joined(chunks, taken) + "\n" + Body(chunks, next)
  {
    assert (taken + [next])[..|taken|] == taken;
  }

  method ClosureOf(chunks: seq<Chunk>, name: string) returns (text: string)
    ensures text == ClosureText(chunks, name)
  {
    hide Collect, Joined, Body, Named, Has, Names;
    var seen: set<string> := {};
    var queue := [name];
    text := "";
    NoneCollected(chunks, seen);
    ghost var taken: seq<string> := [];
    ghost var all := Closure(chunks, name);
    ClosureIsCollected(chunks, name);
    while queue != []
      invariant taken + Collect(chunks, queue, seen) == all
      invariant forall n :: n in taken ==> Has(chunks, n)
      invariant text == Joined(chunks, taken)
      decreases Names(chunks) - seen, |queue|
    {
      var next := queue[|queue| - 1];
      assert queue == queue[..|queue| - 1] + [next];
      queue := queue[..|queue| - 1];
      CollectTurn(chunks, queue, next, seen, taken);
      if next !in seen {
        seen := seen + {next};
        if Has(chunks, next) {
          JoinedTurn(chunks, taken, next);
          var body := Body(chunks, next);
          text := text + "\n" + body;
          queue := queue + Named(chunks, body, seen);
          taken := taken + [next];
        }
      }
    }
    NoneCollected(chunks, seen);
    assert taken == all;
  }

  lemma ClosureIsCollected(chunks: seq<Chunk>, name: string)
    ensures Closure(chunks, name) == Collect(chunks, [name], {})
    ensures ClosureText(chunks, name) == Joined(chunks, Closure(chunks, name))
  {
  }

  lemma NoneCollected(chunks: seq<Chunk>, seen: set<string>)
    ensures Collect(chunks, [], seen) == [] && Joined(chunks, []) == ""
  {
  }

  lemma {:induction false} MentionsSome(chunks: seq<Chunk>, names: seq<string>, word: string)
    requires Name(word) && forall n :: n in names ==> Has(chunks, n)
    ensures Mentions(Joined(chunks, names), word) <==> exists n :: n in names && Mentions(Body(chunks, n), word)
    decreases |names|
  {
    hide Mentions, Body, Has;
    if names == [] {
      NothingMentioned(word);
    } else {
      var init, last := names[..|names| - 1], names[|names| - 1];
      assert names == init + [last];
      MentionsSome(chunks, init, word);
      MentionsJoined(Joined(chunks, init), Body(chunks, last), word);
    }
  }

  lemma NothingMentioned(word: string)
    requires Name(word)
    ensures !Mentions("", word)
  {
  }

  /** A symbol names a word exactly when a declaration it leads to does. */
  lemma TextMentions(chunks: seq<Chunk>, name: string, word: string)
    requires Has(chunks, name) && Name(word)
    ensures Mentions(ClosureText(chunks, name), word) <==>
      exists n :: Reaches(Nexts(chunks), name, n) && Has(chunks, n) && Mentions(Body(chunks, n), word)
  {
    ClosureIsReachable(chunks, name);
    MentionsSome(chunks, Closure(chunks, name), word);
  }

  // -- where an imported name is declared -----------------------------------------------------

  const MOST_HOPS := 8

  /** Where `name` exported by `file` is declared, through at most eight re-exports. */
  function Declaration(t: Tree, file: string, name: string, depth: nat): seq<Symbol>
    requires file in t.files
    decreases MOST_HOPS + 1 - depth, 1, 0
  {
    var p := t.files[file];
    if depth > MOST_HOPS then []
    else if name == "*" then seq(|p.chunks|, i requires 0 <= i < |p.chunks| => Symbol(file, p.chunks[i].name))
    else if Has(p.chunks, name) then [Symbol(file, name)]
    else if name in p.named then
      var target := Resolve(t, file, p.named[name].0);
      if target.Some? then Declaration(t, target.value, p.named[name].1, depth + 1) else []
    else FirstStar(t, file, p.star, name, depth)
  }

  function FirstStar(t: Tree, file: string, specs: seq<string>, name: string, depth: nat): seq<Symbol>
    requires depth <= MOST_HOPS
    decreases MOST_HOPS + 1 - depth, 0, |specs|
  {
    if specs == [] then []
    else
      var target := Resolve(t, file, specs[0]);
      var found := if target.Some? then Declaration(t, target.value, name, depth + 1) else [];
      if found != [] then found else FirstStar(t, file, specs[1..], name, depth)
  }

  predicate Declared(t: Tree, s: Symbol) {
    s.file in t.files && Has(t.files[s.file].chunks, s.name)
  }

  /** One re-export on the way: `export { b as a } from`, or `export * from`. */
  predicate ReExports(t: Tree, x: Symbol, y: Symbol) {
    && x.file in t.files && x.name != "*" && !Has(t.files[x.file].chunks, x.name)
    && if x.name in t.files[x.file].named
       then Resolve(t, x.file, t.files[x.file].named[x.name].0) == Some(y.file) && y.name == t.files[x.file].named[x.name].1
       else y.name == x.name && exists spec :: spec in t.files[x.file].star && Resolve(t, x.file, spec) == Some(y.file)
  }

  ghost function ReExporting(t: Tree): (Symbol, Symbol) -> bool {
    (x, y) => ReExports(t, x, y)
  }

  /** The end of a chain of re-exports, or all of a file named as a namespace at its end. */
  ghost predicate Leads(t: Tree, x: Symbol, y: Symbol) {
    Reaches(ReExporting(t), x, y) || Reaches(ReExporting(t), x, Symbol(y.file, "*"))
  }

  lemma LeadsOn(t: Tree, from: Symbol, x: Symbol, file: string, name: string, depth: nat)
    requires Reaches(ReExporting(t), from, x) && ReExports(t, x, Symbol(file, name))
    ensures Reaches(ReExporting(t), from, Symbol(file, name))
  {
    Steps(ReExporting(t), from, x, Symbol(file, name));
  }

  /** What is found is a declaration of the tree that a chain of re-exports leads to. */
  lemma {:induction false} DeclarationIsDeclared(t: Tree, from: Symbol, file: string, name: string, depth: nat)
    requires file in t.files && Reaches(ReExporting(t), from, Symbol(file, name))
    ensures forall s :: s in Declaration(t, file, name, depth) ==> Declared(t, s) && Leads(t, from, s)
    decreases MOST_HOPS + 1 - depth, 1, 0
  {
    var p := t.files[file];
    if depth <= MOST_HOPS && name != "*" && !Has(p.chunks, name) {
      if name in p.named {
        var target := Resolve(t, file, p.named[name].0);
        if target.Some? {
          LeadsOn(t, from, Symbol(file, name), target.value, p.named[name].1, depth);
          DeclarationIsDeclared(t, from, target.value, p.named[name].1, depth + 1);
        }
      } else {
        FirstStarIsDeclared(t, from, file, p.star, name, depth);
      }
    }
  }

  lemma {:induction false} FirstStarIsDeclared(t: Tree, from: Symbol, file: string, specs: seq<string>, name: string, depth: nat)
    requires file in t.files && Reaches(ReExporting(t), from, Symbol(file, name)) && depth <= MOST_HOPS
    requires name != "*" && !Has(t.files[file].chunks, name) && name !in t.files[file].named
    requires forall spec :: spec in specs ==> spec in t.files[file].star
    ensures forall s :: s in FirstStar(t, file, specs, name, depth) ==> Declared(t, s) && Leads(t, from, s)
    decreases MOST_HOPS + 1 - depth, 0, |specs|
  {
    if specs != [] {
      var target := Resolve(t, file, specs[0]);
      if target.Some? {
        LeadsOn(t, from, Symbol(file, name), target.value, name, depth);
        DeclarationIsDeclared(t, from, target.value, name, depth + 1);
      }
      FirstStarIsDeclared(t, from, file, specs[1..], name, depth);
    }
  }

  /** A declaration of the name is here, or at the end of at most so many re-exports. */
  ghost predicate DeclaredWithin(t: Tree, x: Symbol, hops: nat)
    decreases hops
  {
    || (x.file in t.files && if x.name == "*" then t.files[x.file].chunks != [] else Has(t.files[x.file].chunks, x.name))
    || (hops > 0 && exists y :: ReExports(t, x, y) && DeclaredWithin(t, y, hops - 1))
  }

  /** What is declared at the end of at most eight re-exports is found, and nothing else. */
  lemma {:induction false} DeclarationFound(t: Tree, file: string, name: string, depth: nat)
    requires file in t.files && depth <= MOST_HOPS
    ensures Declaration(t, file, name, depth) != [] <==> DeclaredWithin(t, Symbol(file, name), MOST_HOPS - depth)
    decreases MOST_HOPS + 1 - depth, 1, 0
  {
    var p, x := t.files[file], Symbol(file, name);
    if name != "*" && !Has(p.chunks, name) {
      if name in p.named {
        var target := Resolve(t, file, p.named[name].0);
        if target.Some? {
          var y := Symbol(target.value, p.named[name].1);
          OneHop(t, x, y, MOST_HOPS - depth);
          if depth < MOST_HOPS { DeclarationFound(t, y.file, y.name, depth + 1); }
        }
      } else {
        FirstStarFound(t, file, p.star, name, depth);
        if depth < MOST_HOPS { StarHops(t, file, name, MOST_HOPS - depth); }
      }
    }
  }

  /** A name that is re-exported by name has one way on. */
  lemma OneHop(t: Tree, x: Symbol, y: Symbol, hops: nat)
    requires x.file in t.files && x.name != "*" && !Has(t.files[x.file].chunks, x.name) && x.name in t.files[x.file].named
    requires Resolve(t, x.file, t.files[x.file].named[x.name].0) == Some(y.file) && y.name == t.files[x.file].named[x.name].1
    ensures DeclaredWithin(t, x, hops) <==> hops > 0 && DeclaredWithin(t, y, hops - 1)
  {
    assert ReExports(t, x, y);
    forall z | ReExports(t, x, z) ensures z == y {
      assert z.file == y.file && z.name == y.name;
    }
  }

  /** Some star re-export leads on to a declaration. */
  ghost predicate StarWithin(t: Tree, file: string, specs: seq<string>, name: string, hops: nat) {
    exists spec :: spec in specs && Resolve(t, file, spec).Some? && DeclaredWithin(t, Symbol(Resolve(t, file, spec).value, name), hops)
  }

  lemma StarHops(t: Tree, file: string, name: string, hops: nat)
    requires file in t.files && hops > 0 && name != "*" && !Has(t.files[file].chunks, name) && name !in t.files[file].named
    ensures DeclaredWithin(t, Symbol(file, name), hops) <==> StarWithin(t, file, t.files[file].star, name, hops - 1)
  {
    var x := Symbol(file, name);
    if y :| ReExports(t, x, y) && DeclaredWithin(t, y, hops - 1) {
      var spec :| spec in t.files[file].star && Resolve(t, file, spec) == Some(y.file);
      assert y == Symbol(y.file, name);
    }
    if spec :| spec in t.files[file].star && Resolve(t, file, spec).Some? && DeclaredWithin(t, Symbol(Resolve(t, file, spec).value, name), hops - 1) {
      assert ReExports(t, x, Symbol(Resolve(t, file, spec).value, name));
    }
  }

  lemma {:induction false} FirstStarFound(t: Tree, file: string, specs: seq<string>, name: string, depth: nat)
    requires file in t.files && depth <= MOST_HOPS
    ensures FirstStar(t, file, specs, name, depth) != [] <==>
      depth < MOST_HOPS && StarWithin(t, file, specs, name, MOST_HOPS - depth - 1)
    decreases MOST_HOPS + 1 - depth, 0, |specs|
  {
    hide DeclaredWithin;
    if specs != [] {
      var target := Resolve(t, file, specs[0]);
      if target.Some? && depth < MOST_HOPS { DeclarationFound(t, target.value, name, depth + 1); }
      FirstStarFound(t, file, specs[1..], name, depth);
    }
  }

  // -- the site ----------------------------------------------------------------------------------

  function UsesIn(uses: seq<RouteUse>, text: string): (r: seq<RouteUse>)
    ensures forall u :: u in r <==> u in uses && Mentions(text, u.local)
  {
    if uses == [] then []
    else (if Mentions(text, uses[0].local) then [uses[0]] else []) + UsesIn(uses[1..], text)
  }

  function CallsIn(uses: seq<RouteUse>, text: string, pat: Patterns): (r: seq<Route>)
    ensures forall route :: route in r <==> exists u :: u in uses && u.route == route && pat.isCalled(text, u.local)
  {
    if uses == [] then []
    else
      assert uses == [uses[0]] + uses[1..];
      (if pat.isCalled(text, uses[0].local) then [uses[0].route] else []) + CallsIn(uses[1..], text, pat)
  }

  function AtomsIn(uses: seq<RouteUse>, text: string, pat: Patterns): set<string> {
    pat.atomLiterals(text)
    + set u | u in uses && NeedsAtom(u.route) && pat.readsPermission(text, u.local) :: u.route.permission.value
  }

  function FromBindings(t: Tree, target: string, names: seq<Binding>, text: string): (r: seq<Symbol>)
    requires target in t.files
    ensures forall s :: s in r <==>
      exists b :: b in names && Mentions(text, b.local) && s in Declaration(t, target, b.imported, 0)
  {
    if names == [] then []
    else
      assert names == [names[0]] + names[1..];
      (if Mentions(text, names[0].local) then Declaration(t, target, names[0].imported, 0) else [])
      + FromBindings(t, target, names[1..], text)
  }

  function FromImport(t: Tree, file: string, imp: Import, text: string): seq<Symbol> {
    var target := Resolve(t, file, imp.spec);
    if target.None? then []
    else if imp.isDynamic then (if Includes(text, imp.spec) then Declaration(t, target.value, "*", 0) else [])
    else FromBindings(t, target.value, imp.names, text)
  }

  function FromImports(t: Tree, file: string, imports: seq<Import>, text: string): (r: seq<Symbol>)
    ensures forall s :: s in r <==> exists imp :: imp in imports && s in FromImport(t, file, imp, text)
  {
    if imports == [] then []
    else
      assert imports == [imports[0]] + imports[1..];
      FromImport(t, file, imports[0], text) + FromImports(t, file, imports[1..], text)
  }

  function InfoOf(t: Tree, pat: Patterns, s: Symbol): Info
    requires s.file in t.files
  {
    var p := t.files[s.file];
    var text := ClosureText(p.chunks, s.name);
    var uses := UsesIn(p.uses, text);
    Info(CallsIn(uses, text, pat), AtomsIn(uses, text, pat), FromImports(t, s.file, p.imports, text))
  }

  /** Every declaration, and the default export a page is entered by. */
  function Symbols(t: Tree): set<Symbol> {
    (set f, c | f in t.files && c in t.files[f].chunks :: Symbol(f, c.name))
    + set f | f in t.files :: Symbol(f, "default")
  }

  function SiteOf(t: Tree, pat: Patterns): Site {
    map s | s in Symbols(t) :: InfoOf(t, pat, s)
  }

  /** Following imports never leaves the tree, so the search is defined on it. */
  lemma SiteIsWhole(t: Tree, pat: Patterns, roots: seq<Root>)
    requires forall r :: r in roots ==> r.file in t.files
    ensures Whole(SiteOf(t, pat)) && RootsKnown(SiteOf(t, pat), roots)
  {
    forall s, y | s in SiteOf(t, pat) && y in SiteOf(t, pat)[s].imports ensures y in SiteOf(t, pat) {
      ImportsAreDeclared(t, pat, s, y);
    }
  }

  lemma ImportsAreDeclared(t: Tree, pat: Patterns, s: Symbol, y: Symbol)
    requires s.file in t.files && y in InfoOf(t, pat, s).imports
    ensures Declared(t, y) && y in Symbols(t)
  {
    var p := t.files[s.file];
    var text := ClosureText(p.chunks, s.name);
    var imp :| imp in p.imports && y in FromImport(t, s.file, imp, text);
    var target := Resolve(t, s.file, imp.spec).value;
    if imp.isDynamic {
      FoundIsDeclared(t, target, "*");
    } else {
      var b :| b in imp.names && Mentions(text, b.local) && y in Declaration(t, target, b.imported, 0);
      FoundIsDeclared(t, target, b.imported);
    }
    var i :| 0 <= i < |t.files[y.file].chunks| && t.files[y.file].chunks[i].name == y.name;
    assert t.files[y.file].chunks[i] in t.files[y.file].chunks;
  }

  lemma FoundIsDeclared(t: Tree, target: string, name: string)
    requires target in t.files
    ensures forall s :: s in Declaration(t, target, name, 0) ==> Declared(t, s)
  {
    Stays(ReExporting(t), Symbol(target, name));
    DeclarationIsDeclared(t, Symbol(target, name), target, name, 0);
  }

  /** The declaration `n` of the file of `s` names `y`, which `b` imports from `target`. */
  predicate NamesBinding(t: Tree, chunks: seq<Chunk>, target: string, n: string, b: Binding, y: Symbol)
    requires target in t.files
  {
    Has(chunks, n) && Mentions(Body(chunks, n), b.local) && y in Declaration(t, target, b.imported, 0)
  }

  /** `y` comes into `s` by this import: a declaration `s` leads to names it, or the import is dynamic. */
  ghost predicate ComesBy(t: Tree, s: Symbol, imp: Import, y: Symbol)
    requires s.file in t.files
  {
    var chunks, target := t.files[s.file].chunks, Resolve(t, s.file, imp.spec);
    && target.Some?
    && if imp.isDynamic
       then Includes(ClosureText(chunks, s.name), imp.spec) && y in Declaration(t, target.value, "*", 0)
       else exists n, b :: Reaches(Nexts(chunks), s.name, n) && b in imp.names && NamesBinding(t, chunks, target.value, n, b, y)
  }

  lemma ComesByBinding(t: Tree, chunks: seq<Chunk>, name: string, target: string, names: seq<Binding>, y: Symbol)
    requires target in t.files && Has(chunks, name) && forall b :: b in names ==> Name(b.local)
    ensures y in FromBindings(t, target, names, ClosureText(chunks, name)) <==>
      exists n, b :: Reaches(Nexts(chunks), name, n) && b in names && NamesBinding(t, chunks, target, n, b, y)
  {
    hide Declaration, Mentions, Closure, Reaches, Has;
    var text := ClosureText(chunks, name);
    if y in FromBindings(t, target, names, text) {
      var b :| b in names && Mentions(text, b.local) && y in Declaration(t, target, b.imported, 0);
      TextMentions(chunks, name, b.local);
      var n :| Reaches(Nexts(chunks), name, n) && Has(chunks, n) && Mentions(Body(chunks, n), b.local);
      assert NamesBinding(t, chunks, target, n, b, y);
    }
    if n: string, b: Binding :| Reaches(Nexts(chunks), name, n) && b in names && NamesBinding(t, chunks, target, n, b, y) {
      TextMentions(chunks, name, b.local);
      assert Mentions(text, b.local);
    }
  }

  /**
   * A symbol is imported from another exactly when a declaration the other
   * leads to, in its own file, names it (or an import() takes its whole file).
   */
  lemma ImportedByName(t: Tree, pat: Patterns, s: Symbol, y: Symbol)
    requires Declared(t, s)
    requires forall imp :: imp in t.files[s.file].imports ==> forall b :: b in imp.names ==> Name(b.local)
    ensures y in InfoOf(t, pat, s).imports <==> exists imp :: imp in t.files[s.file].imports && ComesBy(t, s, imp, y)
  {
    hide Declaration, Mentions, Closure, Reaches, Has, Body;
    var p := t.files[s.file];
    var text := ClosureText(p.chunks, s.name);
    forall imp | imp in p.imports ensures y in FromImport(t, s.file, imp, text) <==> ComesBy(t, s, imp, y) {
      var target := Resolve(t, s.file, imp.spec);
      if target.Some? && !imp.isDynamic { ComesByBinding(t, p.chunks, s.name, target.value, imp.names, y); }
    }
  }

  /** A declaration that the symbol leads to in its file names the route's local name. */
  ghost predicate UsesRoute(t: Tree, s: Symbol, u: RouteUse)
    requires s.file in t.files
  {
    var chunks := t.files[s.file].chunks;
    u in t.files[s.file].uses && exists n :: Reaches(Nexts(chunks), s.name, n) && Has(chunks, n) && Mentions(Body(chunks, n), u.local)
  }

  /** It names the route to read its permission, which is the atom. */
  ghost predicate ReadsAtom(t: Tree, pat: Patterns, s: Symbol, u: RouteUse, text: string, atom: string)
    requires s.file in t.files
  {
    UsesRoute(t, s, u) && u.route.permission == Some(atom) && atom != "" && pat.readsPermission(text, u.local)
  }

  /**
   * A symbol calls exactly the routes that it names and that its text calls,
   * and writes exactly the atoms its text holds as literals and the atoms of
   * the routes it names to read their permission.
   */
  lemma CallsAndAtoms(t: Tree, pat: Patterns, s: Symbol, route: Route, atom: string)
    requires Declared(t, s) && forall u :: u in t.files[s.file].uses ==> Name(u.local)
    ensures var text := ClosureText(t.files[s.file].chunks, s.name); var info := InfoOf(t, pat, s);
      && (route in info.calls <==> exists u :: UsesRoute(t, s, u) && u.route == route && pat.isCalled(text, u.local))
      && (atom in info.atoms <==> atom in pat.atomLiterals(text) || exists u :: ReadsAtom(t, pat, s, u, text, atom))
  {
    hide Declaration, Mentions, Closure, Reaches, Has, Body;
    var p := t.files[s.file];
    var text := ClosureText(p.chunks, s.name);
    forall u ensures u in UsesIn(p.uses, text) <==> UsesRoute(t, s, u) {
      if u in p.uses { TextMentions(p.chunks, s.name, u.local); }
    }
    var uses := UsesIn(p.uses, text);
    var read := set u | u in uses && NeedsAtom(u.route) && pat.readsPermission(text, u.local) :: u.route.permission.value;
    if atom in read {
      var u :| u in uses && NeedsAtom(u.route) && pat.readsPermission(text, u.local) && u.route.permission.value == atom;
      assert ReadsAtom(t, pat, s, u, text, atom);
    }
    if u :| ReadsAtom(t, pat, s, u, text, atom) {
      assert u in uses && u.route.permission.value in read;
    }
  }
}
