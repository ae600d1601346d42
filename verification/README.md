# A model of the shop's compatibility diff, source scans and client runtime

A Dafny model of the parts of the repository where being wrong is quiet: the
diff that decides whether released clients keep working, the lexical scans and
flow analyses the guards rest on, the graph searches, and the code that builds
keys, URLs and page lists on the client. `dafny verify dfyconfig.toml` checks
all of it.

What each group of modules holds:

- **API compatibility** (`JsonValues`, `Schemas`, `Meaning`, `Disjunction`,
  `Pairing`, `Comparison`, `Fitting`, `RequestSoundness`, `ResponseSoundness`,
  `ResponseNotes`, `Counterexamples`, `Reflexivity`, `LimitSets`, `Edits`,
  `BranchEdits`, `UnionOrder`, `ChangeOrder`, `UrlShapes`, `Surfaces`, `SelfDiff`,
  `SurfaceEdits`, `Slimming`, `BooleanSchemas`, `Diffing`). `Meaning` says what a
  schema means to the end that writes a value (`Sends`) and to the end that reads
  it (`Receives`), after JSON Schema draft 2020-12. `Comparison` is the diff as a
  function of two schemas, and `Diffing` is the diff as it runs, pushing findings
  onto a shared list. The main results are the soundness theorems, the lift to
  whole surfaces, reflexivity, and what each edit is reported as, wherever in a
  schema it is made.
- **Masking and the transaction scan** (`MaskRules`, `Masking`, `MaskLaws`,
  `Lookback`, `MaskGrammar`, `SlashLaws`, `Brackets`, `TxPatterns`, `TxScan`,
  `Parameters`, `ParameterLists`, `TxSpellings`, `TxFunctions`, `PoolReaches`).
  `MaskRules` reads a source one character at a time; `Masking` is the in-place
  scanner with its jumps, its stack of templates and its output array;
  `MaskGrammar` is a grammar of code and templates, each inside the other, that
  says itself which slashes divide; the mask is proved to follow it exactly when
  what stands before each slash tells them apart, and `Lookback` and `SlashLaws`
  say of the text what that is. `Parameters` to `TxFunctions` say how the functions
  that take a transaction are written. `PoolReaches` runs the whole scan, from a
  source to its report.
- **The guard analysis of the lint rule** (`GuardTrees`, `ErrorGuards`,
  `GuardsFound`). `GuardTrees` gives syntax trees an evaluator that records which
  nodes a run reaches and which variables the subject reads there; `GuardsFound`
  says which guards the analysis finds, by the leaves of the tests above a node.
- **Graph searches** (`Walks`, `BundleUse`, `SymbolText`, `PermissionGaps`).
- **Globs** (`Globs`): the compiled text is parsed as a regular expression
  (ECMA-262, section 22.2.1) and matched.
- **Keys, URLs, sign-outs and pages** (`KeyOrder`, `StableKeys`, `PercentText`,
  `PathTemplates`, `Urls`, `SignOuts`, `Paging`).

## The soundness theorems and what they ask

`RequestsStayAccepted` and `ResponsesStayReadable` hold for all schemas, at any
depth, for every value, under conditions that a maintainer can read off the two
documents: `WfSender`, `WfReceiver` and `Fits`. `Counterexamples.Clause` names
them one by one, and `ClausesAreAll` shows that for a request they are together
exactly what the theorem asks. Each request lemma gives two schemas of which one
clause alone is broken (`Breaks`), that the diff finds nothing between, and a
value that one end sends and the other refuses (`Slips`):

| clause | without it |
|---|---|
| a structural keyword says its `type`; an untyped enum has one kind (`OldSaysKind`) | `UntypedStructureEscapes`, `MixedEnumEscapes` |
| a typed array describes its `items` (`OldHasItems`) | `BareArrayEscapes` |
| a schema that says nothing else has no limits and requires nothing (`EmptyAlone`) | `LimitAloneEscapes` |
| unions and intersections stand alone (`UnionsAlone`) | `SiblingEscapes`, `AllOfSiblingEscapes` |
| `const` and `enum` do not stand together (`ConstOrEnum`) | `ConstBesideEnumEscapes` |
| a nullable type and its enum agree on `null` (`NullAgreed`) | `NullTypeEscapes` |
| `required` names declared properties (`RequiredKnown`) | `UndeclaredRequiredEscapes` |
| the branches of a `oneOf` exclude each other, since the diff reads `oneOf` as `anyOf` (`BranchesExclusive`) | `OverlapEscapes` |
| `additionalProperties` is not closed under a client that sends open keys (`KeysAgree`) | `ClosedObjectEscapes` |
| a part of an `allOf` gains no name that another part leaves open (`KeysAgree`) | `LooseNameEscapes` |
| a map gains no named property (`KeysAgree`) | `MapGainsName`, with the properties for which it would do no harm |
| a response map does not turn into an object that leaves its keys open (`Fits`) | `OpenedMapEscapes` |
| a field that could only be `null` stays so (`Fits`, responses) | `NullReader`, an if-and-only-if |

`allOf` is inside the theorems: a part's keys are read together with the names
of the other parts.

`ResponsesStayReadable` asks for an empty diff. The gate fails on breaking
changes alone, and `NotesAside` asks for no more than that: with nothing breaking
in it a client copes with every value sent, at any depth. It reads each value as
the old schema says, except for what the documentation calls a note: a new enum
value, a dropped enum, a new branch, or any value at all. A required field is there, null
comes only where the old schema has it, and (`AnswersAreCoped`) no body is lost.

The other way round, `EditShowsThere` says that an edit anywhere in a schema is
reported as that edit, at its place, and as nothing else; the lemmas of `Edits`,
`BranchEdits` and `SurfaceEdits` say what each edit the documentation names is
reported as: which are breaking in which direction, which are notes, and that
whatever is only added passes.

## Where the code and its own words differ

- `guards/README.md:147-148` says that reordering the branches of a union
  changes nothing. `ReorderingBranches` has the exact condition for every union,
  `anyOf` or `oneOf`, whatever its branches: both orders pick the same tag, and
  each branch that shares its kind with another and has no tag keeps its place
  or leaves it to one that compares equal. Where only tagged objects share a
  kind that is: the same tag (`ReorderingByTag`). With one tag property alone it
  is always the same (`ReorderingIsSilent`); with two it depends on which one the
  first branch lists first (`TwoTagsReordered` has both outcomes). A branch moved
  past two of one kind is reported as breaking (`MovedPastBreaks`).
- The new-body rule (`guards/src/lib/api-compat.ts:658-667`) passes a body that
  requires nothing at its top level. Old calls send no body, and are served if
  and only if the server can do without one (`GainedBody`): a validator may
  refuse its absence (`AbsenceRefused`), and a part of an `allOf` may require a
  field (`PartRequiresEscapes`). For a plain object whose absence is read as
  `{}` the rule is exact (`PlainBodyRule`).
- The baseline stores slim schemas. Where every sub-schema is an object that
  does not show (`SlimmingIsInvisible`); JSON Schema also allows `true` and
  `false`, which slimming turns into `{}`: `items: true` and
  `properties: {x: false}` then compare differently (`ItemsTrueShows`,
  `NewItemsTrueThrows`, `FalsePropertyShows`). Slimming changes no answer of the
  comparison's tests if and only if every sub-schema at every depth is an object
  (`SlimKeepsTests`).
- The comment on `maskSource` promises the length of its input. The output is
  one space longer exactly when the text ends right after a backslash inside a
  regular expression, because that branch alone does not clamp its end to the
  text (`Masking.MaskSource`, `MaskLaws.TooLong`).
- A schema with `multipleOf: 0` differs from itself (`StepOfZero`).
- "Widened limits" and narrowed ones are told apart by what they admit
  (`LimitsExact`), but lengths as plain numbers: `minLength: 0` where there was
  none is reported as breaking although it shuts no text out
  (`LengthOfZeroReported`).
- A response field that was only ever `null` may become anything but `{}`
  without a note (`NullReader`).
- `guards/src/checks/admin-permissions.ts:19-32` reads as if every import path
  to a route were judged. Each symbol is judged on the first path that reaches
  it: a gap is noted if and only if it shows on that path (`NotedIffFirstOpen`),
  so nothing is missed if and only if every gap shows on a first path
  (`CompleteIffFirst`). A control shown first under its gate and then without is
  not reported (`BareControlMissed`); with the two imports swapped it is
  (`BareControlReported`).
- A path template gives its values back if and only if between every two
  neighbouring placeholders stands a character that no encoded value has
  (`RecoverableIffSeparated`); with kept characters alone between them they run
  together in every such template (`NeighboursRunTogether`).
- A reach for the pool right behind the parenthesis of another is not found,
  since a match takes the character before its token (`SecondReachMissed`). Of
  tokens back to back every second one is lost, and no other
  (`FoundUnlessBehind`, `ReportedIff`).
- `guards/src/lib/tx-scan.ts:8-14` says that nothing in a string or a regular
  expression can be a finding. The scan tells a division from a regular
  expression by what stands before the slash, and behind a parenthesis it takes
  a regular expression for a division: at `tx=>{if(a)/ctx.db/.test(s)}` the reach
  inside it is reported (`RegexReachReported`). A body is blank if and only if
  nothing, an operator or opener, or one of eight words stands before its slash
  (`LookbackMeans`, `SlashDecides`), the mask of a text is what its grammar says if
  and only if that goes for every slash (`MaskedIffClear`), and then nothing but
  code is reported (`ReachesAreCode`).
- The lint rule compares texts, so where a callback declares a name that the
  subject reads, be it `error` or the `query` of `query.error`, what it shows
  counts as guarded by a test outside (`ReboundEscapes`,
  `MemberReboundEscapes`). With no such declaration between guard and node the
  guarantee holds (`GuardedIsSafe`).

## Model

| member | source | states |
|---|---|---|
| `Disjunction.ReceivesIsItsAlternatives` | guards/src/lib/api-compat.ts:191-230 | a value is accepted by a schema if and only if it is null where null is allowed, or anything is, or one of the variants accepts it, through nested unions, type lists and enums that hold null |
| `Disjunction.SendsItsAlternatives` | guards/src/lib/api-compat.ts:191-230 | every value the writing end may send falls under one alternative and adds no key of its own there |
| `Schemas.Alternatives` | guards/src/lib/api-compat.ts:191-230 | variants are rebuilt schemas, and none is larger than the schema they come from, so the comparison ends |
| `Pairing.KeysDistinct` | guards/src/lib/api-compat.ts:267-285 | no two branches of a union get the same key |
| `Pairing.PairsSound` | guards/src/lib/api-compat.ts:330-380 | the pairing of old and new branches is one to one and joins only branches whose kinds are compatible in the direction read |
| `RequestSoundness.LowerKept` | guards/src/lib/api-compat.ts:472-478 | a lower bound that is not reported as narrowed admits every number the old `minimum` and `exclusiveMinimum` admitted |
| `RequestSoundness.UpperKept` | guards/src/lib/api-compat.ts:480-486 | the same for the upper bound |
| `RequestSoundness.StepKept` | guards/src/lib/api-compat.ts:551-555 | a `multipleOf` that divides the old one admits every multiple of the old one |
| `RequestSoundness.LimitsKept` | guards/src/lib/api-compat.ts:493-556 | when no limit is reported, every value within the old limits is within the new ones |
| `LimitSets.LimitsExact` | guards/src/lib/api-compat.ts:493-556 | a request's limits are reported if and only if one shuts something out: a length, a number or a multiple that the old limit admitted, or a pattern or format that is not the old one |
| `LimitSets.LengthOfZeroReported` | guards/src/lib/api-compat.ts:493-510 | a `minLength` of zero where there was none is reported, although every text that was accepted still is |
| `RequestSoundness.RequestsStayAccepted` | guards/src/lib/api-compat.ts:304-612 | when the request diff has nothing breaking, the server accepts every value a released client may send under the old schema |
| `ResponseSoundness.KnownBranch` | guards/src/lib/api-compat.ts:400-406 | when the response diff is empty, each branch the server may send is paired with one the client knows |
| `ResponseSoundness.ResponsesStayReadable` | guards/src/lib/api-compat.ts:304-612 | when the response diff is empty, the released client can read every value sent under the new schema, limits aside |
| `ResponseNotes.NotesAside` | guards/src/lib/api-compat.ts:12-24 | when nothing in the response diff is breaking, a released client copes with every value sent, at any depth: required fields are there, null comes only where it did, types are as before, and what differs is a new enum value, a dropped enum, a new branch or any value |
| `Counterexamples.ClausesAreAll` | guards/src/lib/api-compat.ts:304-612 | the clauses that the counterexamples break one at a time are together what the request theorem asks |
| `Counterexamples.UntypedStructureEscapes` | guards/src/lib/api-compat.ts:238-251 | a schema with `properties` and no `type` is compared as an object only |
| `Counterexamples.MixedEnumEscapes` | guards/src/lib/api-compat.ts:244-249 | an untyped enum is taken to be of its first value's kind |
| `Counterexamples.BareArrayEscapes` | guards/src/lib/api-compat.ts:427-429 | items are compared only when the old array describes them |
| `Counterexamples.LimitAloneEscapes` | guards/src/lib/api-compat.ts:189-194 | a schema of limits alone is taken for any value |
| `Counterexamples.SiblingEscapes` | guards/src/lib/api-compat.ts:195-203 | a keyword beside `anyOf` is not looked at |
| `Counterexamples.AllOfSiblingEscapes` | guards/src/lib/api-compat.ts:207-230 | a keyword beside `allOf` is not looked at |
| `Counterexamples.ConstBesideEnumEscapes` | guards/src/lib/api-compat.ts:232-236 | a `const` beside an `enum` is not looked at |
| `Counterexamples.NullTypeEscapes` | guards/src/lib/api-compat.ts:207-229 | a nullable type whose enum leaves null out is taken to accept null |
| `Counterexamples.UndeclaredRequiredEscapes` | guards/src/lib/api-compat.ts:591-602 | a required name that `properties` leaves out is not looked at |
| `Counterexamples.OverlapEscapes` | guards/src/lib/api-compat.ts:195-203 | `oneOf` is read as `anyOf`, so a value of two branches slips through |
| `Counterexamples.ClosedObjectEscapes` | guards/src/lib/api-compat.ts:604-611 | `additionalProperties` turned from true to false is not reported |
| `Counterexamples.LooseNameEscapes` | guards/src/lib/api-compat.ts:412-421 | the parts of an intersection are compared one by one, without the names the others declare |
| `Counterexamples.OpenedMapEscapes` | guards/src/lib/api-compat.ts:604-611 | a response map whose `additionalProperties` turn from a schema to true is not reported, and a client cannot read the values that are then sent |
| `Counterexamples.MapGainsName` | guards/src/lib/api-compat.ts:591-611 | a map that gains an optional named property is passed, and stays compatible if and only if the property accepts every value the map could hold |
| `Counterexamples.NullReader` | guards/src/lib/api-compat.ts:400-406 | nothing is reported when a field that was only null becomes something else, and the client reads it if and only if it is still null |
| `Reflexivity.SelfSilent` | guards/src/lib/api-compat.ts:304-612 | a schema compared with itself, in either direction, reports nothing |
| `Reflexivity.StepOfZero` | guards/src/lib/api-compat.ts:551-555 | limits compared with themselves report nothing if and only if `multipleOf` is not zero |
| `Edits.EditShowsThere` | guards/src/lib/api-compat.ts:304-612 | an edit of one schema inside another, through fields, items and map values to any depth, is reported exactly as the edit itself, at the place where it is made |
| `Edits.FieldsEdited` | guards/src/lib/api-compat.ts:562-602 | of fields added, removed, made required or made optional, exactly those are breaking that the documentation names in each direction; every other field is silent |
| `Edits.ValuesEdited` | guards/src/lib/api-compat.ts:432-468 | an enum value lost is breaking in both directions, a value gained or the list dropped is a note in a response and nothing in a request, a list that comes is breaking in a request |
| `Edits.NullEdited` | guards/src/lib/api-compat.ts:320-326 | null gained is breaking in a response and nothing in a request; null lost is breaking in a request and nothing in a response |
| `Edits.TypeEdited` | guards/src/lib/api-compat.ts:330-398 | another type is one breaking change, unless a request widens an integer to a number or a response narrows a number to an integer |
| `Edits.LimitsEdited` | guards/src/lib/api-compat.ts:493-556 | limits do not matter in a response, and in a request exactly when one shuts something out |
| `Edits.AnyEdited` | guards/src/lib/api-compat.ts:312-319 | widened to any value is a note in a response, narrowed from it breaking in a request |
| `Edits.MapEdited` | guards/src/lib/api-compat.ts:604-611 | a map given up is breaking in a request, and in a response where it declares no property; a map gained is silent |
| `BranchEdits.KindsEdited` | guards/src/lib/api-compat.ts:382-406 | in a union of branches of different kinds a branch lost is breaking in both directions, and a branch gained is a note in a response and nothing in a request |
| `BranchEdits.TagsEdited` | guards/src/lib/api-compat.ts:382-406 | the same for the branches of a discriminated union, by their tags |
| `SelfDiff.SameSurface` | guards/src/lib/api-compat.ts:683-702 | the diff of a surface with itself is empty when no two operations share a URL shape |
| `SelfDiff.SameRoutesSilent` | guards/src/lib/api-compat.ts:683-702 | the same for keys as they are written: no two operations on one route |
| `SurfaceEdits.GrownSurface` | guards/src/lib/api-compat.ts:25-27 | a surface that still has every operation, on its route however its placeholders are named, reports nothing, whatever operations are added |
| `SurfaceEdits.ParamsEdited` | guards/src/lib/api-compat.ts:616-651 | of parameters added, removed, made required or made optional, exactly those removed and those newly required are breaking |
| `SurfaceEdits.ResponseEdited` | guards/src/lib/api-compat.ts:672-679 | a response lost is breaking, one gained is silent, one edited is reported as its schema is |
| `SurfaceEdits.BodyEdited` | guards/src/lib/api-compat.ts:655-671 | a body lost is breaking, one gained is breaking where it requires something at its top level, one edited is reported as its schema is |
| `SurfaceEdits.StatusEdited` | guards/src/lib/api-compat.ts:672-674 | another success status is a note |
| `UnionOrder.ReorderingBranches` | guards/README.md:147-148 | for every union, `anyOf` or `oneOf`: permuting its branches changes nothing if and only if anything is accepted, or both orders pick the same tag and every untagged branch that shares its kind is in its place, or one that compares equal is |
| `UnionOrder.ReorderingExact` | guards/src/lib/api-compat.ts:251-406 | the same for any two schemas whose variants are a permutation of each other; where the tags differ or another kind took a place, a breaking change is reported |
| `UnionOrder.ReorderingByTag` | guards/src/lib/api-compat.ts:251-285 | where only tagged objects share a kind, beside null and single branches of other kinds: silent if and only if both orders pick the same tag, and breaking otherwise |
| `UnionOrder.UntaggedByPosition` | guards/src/lib/api-compat.ts:251-285 | without a tag, variants of the same kinds in the same places are compared place by place |
| `UnionOrder.ReorderingIsSilent` | guards/README.md:147-148 | permuting the branches of a union whose objects are told apart by one property alone, beside single branches of other kinds, changes nothing |
| `UnionOrder.MovedPastBreaks` | guards/src/lib/api-compat.ts:251-285 | a single branch moved past two that share another kind is reported as breaking |
| `UnionOrder.TwoTagsReordered` | guards/src/lib/api-compat.ts:267-285 | for any two properties that could be the tag and any values: swapping two branches is silent when both list the same one first, and breaking when they do not |
| `ChangeOrder.OneSortedOrder` | guards/src/lib/api-compat.ts:697-701 | sorting by severity and position has one result |
| `ChangeOrder.SortIsStablePartition` | guards/src/lib/api-compat.ts:697-701 | breaking changes come first, and each kind keeps the order it was found in |
| `Surfaces.GainedBody` | guards/src/lib/api-compat.ts:658-667 | an operation that gains a body serves the old calls, which send none, if and only if its server accepts the absence, or reads it as `{}` and the schema accepts that |
| `Surfaces.PlainBodyRule` | guards/src/lib/api-compat.ts:658-667 | for a plain object that an absent body is read as, the rule for new bodies reports nothing if and only if the absence is served |
| `Surfaces.PartRequiresEscapes` | guards/src/lib/api-compat.ts:658-667 | a new `allOf` body with a required field in a part passes the diff and refuses `{}` |
| `Surfaces.AbsenceRefused` | apps/web/src/server/handle.ts:347-362 | a new body of optional fields passes the diff, and the calls that send none fail wherever the server refuses an absent body |
| `Surfaces.OthersDistinct` | guards/src/lib/api-compat.ts:625-629 | the map of parameters sent by name holds each place and name once |
| `Surfaces.CallsStayServed` | guards/src/lib/api-compat.ts:616-702 | when nothing is breaking, each baseline operation still has one on its route (the same literal text around placeholders of whatever names), and it validates every call a released client may make (path parameters by position, others by name, and the body) if and only if the call has a body or the server can do without one |
| `Surfaces.AnswersStayReadable` | guards/src/lib/api-compat.ts:672-679 | when the diff is empty, the answers have the old status and a body the released client can read |
| `Surfaces.AnswersAreCoped` | guards/src/lib/api-compat.ts:672-702 | when nothing in the diff is breaking, each operation that answered with a body still does, on its route, and a released client copes with all it sends |
| `Surfaces.RemovedBreaks` | guards/src/lib/api-compat.ts:683-695 | an operation whose route no current operation is on is reported as breaking |
| `UrlShapes.SameShapeIff` | guards/src/lib/api-compat.ts:172-175 | two keys written as literal texts around named placeholders have one shape if and only if their literal texts are equal, whatever the names |
| `UrlShapes.ShapeIsRoute` | guards/src/lib/api-compat.ts:172-175 | for such keys having one shape is being on one route |
| `UrlShapes.PlaceholdersOfWritten` | guards/src/lib/api-compat.ts:172-175 | the shape of such a key has as many placeholders as the key |
| `Slimming.SlimReads` | guards/src/lib/api-compat.ts:70-115 | where every sub-schema is an object, slimming keeps everything the comparison reads, at every depth |
| `Slimming.SlimTwice` | guards/src/lib/api-compat.ts:70-115 | slimming a slim schema changes nothing, whatever the document held |
| `Slimming.SlimIsLean` | guards/src/lib/api-compat.ts:70-115 | a slim schema holds nothing but the keywords the comparison reads, at every depth, whatever the document held |
| `Slimming.SlimmingIsInvisible` | guards/src/lib/api-compat.ts:70-115 | where every sub-schema is an object, comparing slim schemas gives exactly the changes of comparing the documents' own |
| `BooleanSchemas.ItemsAsRead` | guards/src/lib/api-compat.ts:427-430 | where every sub-schema is an object, the comparison of `items`, with its tests on the raw values, is that of the typed model |
| `BooleanSchemas.PropertyAsRead` | guards/src/lib/api-compat.ts:562-580 | the same for one property |
| `BooleanSchemas.ItemsTrueShows` | guards/src/lib/api-compat.ts:427-430 | old items `true`: the documents compare silently, their slim forms report a narrowing |
| `BooleanSchemas.NewItemsTrueThrows` | guards/src/lib/api-compat.ts:427-430 | new items `true`: comparing the documents throws, comparing their slim forms does not |
| `BooleanSchemas.FalsePropertyShows` | guards/src/lib/api-compat.ts:562-580 | a property that becomes `false`: the documents report it as removed, their slim forms report nothing |
| `BooleanSchemas.SlimKeepsTests` | guards/src/lib/api-compat.ts:93-115 | slimming changes no answer of the comparison's tests, on a schema and all below it, if and only if every sub-schema at every depth is an object |
| `BooleanSchemas.ProperIffObjects` | guards/src/lib/api-compat.ts:93-115 | a document is one that `SlimmingIsInvisible` speaks of if and only if its sub-schemas at every depth are objects and its keywords have the types JSON Schema gives them |
| `Diffing.PairByName` | guards/src/lib/api-compat.ts:339-345 | the first loop over the branches computes the pairs by key |
| `Diffing.PairVariants` | guards/src/lib/api-compat.ts:333-380 | the two loops over pairs and matched branches compute the pairing that `PairsSound` is about |
| `Diffing.CompareSchemas` | guards/src/lib/api-compat.ts:304-407 | pushes onto the shared list exactly the changes `Compare` says, in that order |
| `Diffing.CompareEnums` | guards/src/lib/api-compat.ts:432-468 | pushes exactly the enum values lost and, in a response, the ones gained |
| `Diffing.CompareLimits` | guards/src/lib/api-compat.ts:494-556 | pushes one change for each limit that is tighter |
| `Diffing.CompareObjects` | guards/src/lib/api-compat.ts:562-612 | pushes the changes of properties, required fields and map values, in that order |
| `Diffing.CompareParams` | guards/src/lib/api-compat.ts:616-651 | pushes the changes of path parameters by position and the others by place and name |
| `Diffing.CompareOperation` | guards/src/lib/api-compat.ts:653-680 | pushes the changes of parameters, body and response |
| `Diffing.DiffSurfaces` | guards/src/lib/api-compat.ts:683-702 | the whole diff: every change found, breaking ones first, each kind in surface order |
| `Masking.PreviousSignificant` | guards/src/lib/tx-scan.ts:66-74 | the last character of the masked text that is not white space, and the word it ends |
| `Masking.MaskSource` | guards/src/lib/tx-scan.ts:55-170 | the in-place scan with its jumps computes what the one-character automaton leaves of the text, and one space more if and only if the text ends right after a backslash in a regular expression |
| `MaskLaws.MaskIsPointwise` | guards/src/lib/tx-scan.ts:54-170 | the mask has the length of the source, each character is the source's where it is code and a space where it is not, and newlines stay |
| `MaskLaws.TooLong` | guards/src/lib/tx-scan.ts:148-165 | when the output is one character too long, by what the text ends in |
| `MaskLaws.TooLongWitness` | guards/src/lib/tx-scan.ts:148-165 | a slash and a backslash are such a text |
| `MaskLaws.LiteralIsMasked` | guards/src/lib/tx-scan.ts:119-125 | a string literal in code is blank between its quotes, escapes included, and code goes on after it |
| `MaskLaws.BlockCommentIsMasked` | guards/src/lib/tx-scan.ts:112-118 | a block comment is blank from its first slash to its last, whatever it holds |
| `MaskLaws.LineCommentIsMasked` | guards/src/lib/tx-scan.ts:105-111 | a line comment is blank up to its newline |
| `MaskGrammar.CodeIsMasked` | guards/src/lib/tx-scan.ts:76-170 | from wherever the scan is in code: code whose regular expressions stand where an operand is expected and whose divisions do not, of plain characters, literals, comments, regular expressions, braces and templates, keeps exactly what its grammar says, and the scan is then where it was, at any depth |
| `MaskGrammar.TextIsMasked` | guards/src/lib/tx-scan.ts:54-170 | the mask of a text that is code, its slashes told apart by the text before them, is the text with all else blanked |
| `MaskGrammar.MaskedIffClear` | guards/src/lib/tx-scan.ts:100-170 | the mask keeps exactly what the grammar says if and only if, at each slash, an operand is expected by the text before it where a regular expression starts and only there |
| `MaskGrammar.SlashDecides` | guards/src/lib/tx-scan.ts:142-168 | the body of a regular expression is blank if and only if an operand is expected by the text before its slash |
| `Lookback.LookbackMeans` | guards/src/lib/tx-scan.ts:66-74 | an operand is expected exactly where nothing, one of the listed operators and openers, or one of the eight words as a whole word stands before, white space aside |
| `SlashLaws.PatternBehind` | guards/src/lib/tx-scan.ts:141-168 | for every source and every slash in code: behind nothing, an operator or opener, or one of the words, the body of the regular expression is blank and code goes on behind it |
| `SlashLaws.DivisionBehind` | guards/src/lib/tx-scan.ts:141-168 | behind anything else that is code, such as another word, a number or a closing bracket, the slash is kept and code goes on right behind it |
| `Brackets.Matching` | guards/src/lib/tx-scan.ts:175-189 | the loop finds the first offset where the count of one kind of bracket returns to zero |
| `Brackets.MatchingIsPartner` | guards/src/lib/tx-scan.ts:175-189 | on well-bracketed text, counting one kind of bracket finds the true partner |
| `Brackets.OnePartner` | guards/src/lib/tx-scan.ts:175-189 | a bracket has one partner |
| `Brackets.ExpressionEnd` | guards/src/lib/tx-scan.ts:268-279 | the loop stops at the first closer with nothing open, or a separator at that level |
| `Brackets.ExpressionStays` | guards/src/lib/tx-scan.ts:268-279 | on well-bracketed text an expression never leaves the brackets it starts in |
| `Brackets.BodiesNest` | guards/src/lib/tx-scan.ts:308-334 | any two function bodies of one well-bracketed text are nested or apart |
| `TxScan.TopLevelParts` | guards/src/lib/tx-scan.ts:192-207 | splits at exactly the commas with nothing open, and loses nothing else |
| `TxScan.PartsAreBetweenCuts` | guards/src/lib/tx-scan.ts:191-207 | a text is one of the parts if and only if it lies between two neighbouring top-level commas, or the ends |
| `TxScan.CheckTakesTx` | guards/src/lib/tx-scan.ts:209-219 | the list is taken for a transaction's if and only if one of the parameters it is split into is (`TakesTx`), which `ParameterLists.ListTakesTx` says of lists as they are written |
| `Parameters.WrittenIsRead` | guards/src/lib/tx-scan.ts:209-219 | however a parameter is written, with white space, dots, a modifier, a question mark, a type and a default, it takes a transaction if and only if its name is `tx` or its whole type is `Tx` or `DbOrTx` |
| `Parameters.TxIffWritten` | guards/src/lib/tx-scan.ts:209-219 | nothing else takes a transaction: a text does if and only if it is such a parameter |
| `ParameterLists.SplitIsJoined` | guards/src/lib/tx-scan.ts:192-207 | a list of parameters whose brackets close, commas only inside them, is split into just these parameters |
| `ParameterLists.ListTakesTx` | guards/src/lib/tx-scan.ts:209-219 | such a list takes a transaction if and only if one of its parameters does, by its name or its whole type |
| `TxScan.BodyAfterParams` | guards/src/lib/tx-scan.ts:231-265 | finds the brace or the expression after a parameter list, past an optional return type |
| `TxScan.ReturnTypeEnds` | guards/src/lib/tx-scan.ts:236-258 | a return type ends at the first arrow with nothing open, at the first such brace behind something, or with the text, and nowhere else; not at all if a semicolon or a top-level comma comes first |
| `TxPatterns.MatchesAscend` | guards/src/lib/tx-scan.ts:324-344 | the matches of a token that stands alone come in order and do not overlap |
| `TxPatterns.FoundUnlessBehind` | guards/src/lib/tx-scan.ts:324-344 | a token is found if and only if it stands alone and is not every second one of tokens back to back |
| `TxPatterns.SecondReachMissed` | guards/src/lib/tx-scan.ts:337-344 | a reach in the argument of another is not found |
| `TxSpellings.PoolReachMeans` | guards/src/lib/tx-scan.ts:337-337 | a reach is `ctx.db` as a whole name, or `ctx.config.get`, `ctx.config.getRaw` or `ctx.withTx`, white space and a parenthesis, and nothing else |
| `TxSpellings.BareArrowMeans` | guards/src/lib/tx-scan.ts:323-324 | a bare arrow is `tx`, white space and `=>` |
| `TxSpellings.KeywordMeans` | guards/src/lib/tx-scan.ts:314-315 | a parenthesis is a statement's if and only if one of the seven keywords ends the forty characters before it, as a whole word, white space aside |
| `TxSpellings.TxOrMeans` | guards/src/lib/tx-scan.ts:353-353 | a reach is excused exactly behind `tx ??`, where `tx` is no end of a longer word |
| `TxScan.FindTxFunctions` | guards/src/lib/tx-scan.ts:308-334 | lists exactly the functions that take a transaction, by their parameters or as a bare arrow, in the order they start, no two at one place |
| `TxFunctions.TxFunctionIff` | guards/src/lib/tx-scan.ts:308-334 | in well-bracketed text a function is found if and only if it is written so: a list in partner parentheses that takes a transaction, behind no keyword, and behind it, past a return type, a block to its partner brace or an expression; or a bare arrow and such a body |
| `TxScan.Innermost` | guards/src/lib/tx-scan.ts:346-351 | of the bodies around an offset, one that starts last; none if and only if no body is around it |
| `TxScan.LastIsInnermost` | guards/src/lib/tx-scan.ts:346-351 | the body that starts last around an offset lies within every other body around it |
| `PoolReaches.FindPoolReaches` | guards/src/lib/tx-scan.ts:339-365 | the whole scan: masks the source and reports, in order, exactly the matches that are in a function taking a transaction and not behind `tx ??`, each with its construct, its line and a body around it that starts last |
| `PoolReaches.ReportedIff` | guards/src/lib/tx-scan.ts:339-365 | an offset is reported if and only if a reach stands alone there, is not every second one back to back, is not excused, and is in the body of a function that takes a transaction |
| `PoolReaches.ReachesAreCode` | guards/src/lib/tx-scan.ts:8-14 | in a text that is code, its slashes told apart, no character of a match but white space is in a comment, a string, the text of a template or a regular expression |
| `PoolReaches.RegexReachReported` | guards/src/lib/tx-scan.ts:8-14 | at `tx=>{if(a)/ctx.db/.test(s)}` the reach inside the regular expression is reported |
| `PoolReaches.WithinIsSmallest` | guards/src/lib/tx-scan.ts:346-352 | where the masked text is well bracketed, the body reported is the smallest around the reach |
| `ErrorGuards.AssertsIsSound` | packages/config/eslint/weapp-rules.js:294-321 | in every run, a test that asserts holds only when what the subject reads is an `ApiError` |
| `ErrorGuards.RefutesIsSound` | packages/config/eslint/weapp-rules.js:323-333 | in every run, a test that refutes is false only when the subject is an `ApiError` |
| `ErrorGuards.PassedExit` | packages/config/eslint/weapp-rules.js:335-342 | a run that gets past an early exit has an `ApiError` as its subject |
| `ErrorGuards.IsGuarded` | packages/config/eslint/weapp-rules.js:347-374 | the walk up the parents finds a guard if and only if one stands anywhere above the node |
| `ErrorGuards.GuardedSomewhere` | packages/config/eslint/weapp-rules.js:347-374 | a node is guarded if and only if some node above it guards the child that leads down to it |
| `GuardsFound.GuardedIff` | packages/config/eslint/weapp-rules.js:347-374 | a node counts as guarded if and only if above it stands an `if` or `?:` with a guard among the `&&` leaves of its test and the node in its first branch, or the negation of such a test among the `||` leaves and the node in the other, or an `&&` with such a left side, or an early exit before it in its block |
| `GuardsFound.BranchIsGuarded` | packages/config/eslint/weapp-rules.js:351-366 | every node, however deep, in such a branch or right of such an `&&` is guarded |
| `GuardsFound.BehindExitIsGuarded` | packages/config/eslint/weapp-rules.js:367-371 | every node behind an early exit of its block is guarded |
| `ErrorGuards.Entered` | packages/config/eslint/weapp-rules.js:350-371 | a run that reaches a node went through each child above it, past whatever guards that child |
| `ErrorGuards.NeverRebound` | packages/config/eslint/weapp-rules.js:347-374 | where no name the subject reads is declared again on the way down, being guarded is being guarded in scope |
| `ErrorGuards.SameScope` | packages/config/eslint/weapp-rules.js:347-374 | a node with no declaration of a name of the subject above it is evaluated with the outer variables, for `error` as for `query.error` |
| `ErrorGuards.GuardedIsSafe` | packages/config/eslint/weapp-rules.js:347-374 | for every tree, node and run: a node guarded with no declaration of a name of the subject in between is evaluated only while what the subject reads is an `ApiError` |
| `ErrorGuards.ReboundEscapes` | packages/config/eslint/weapp-rules.js:347-374 | for every subject and every name it reads: a callback that declares the name again is taken as guarded, and a run reads the text off an error that is no `ApiError` |
| `ErrorGuards.MemberReboundEscapes` | packages/config/eslint/weapp-rules.js:265-275 | so does `query.error` under a callback that declares `query` |
| `BundleUse.FirstRootWins` | apps/mini/config/bundle-stats.ts:67-67 | an entry belongs to the first sub-package whose root it lies under, else to main |
| `BundleUse.BringsMeans` | apps/mini/config/bundle-stats.ts:84-97 | a module brings its parts, what it imports and uses, and of the imports that tree shaking removed the stylesheets alone |
| `BundleUse.WalkFrom` | apps/mini/config/bundle-stats.ts:66-100 | one entry's walk adds its package at exactly the named modules the entry reaches through parts, used imports and stylesheet imports |
| `BundleUse.PackagesByModule` | apps/mini/config/bundle-stats.ts:62-102 | a package is listed at a module name if and only if an entry of the package reaches a module of that name; the walk ends although the graph may be cyclic |
| `SymbolText.MentionsJoined` | guards/src/checks/admin-permissions.ts:151-160 | joining texts with a line break neither makes nor breaks a mention of a name |
| `SymbolText.ClosureOf` | guards/src/checks/admin-permissions.ts:141-157 | the worklist joins the bodies in the order they are taken |
| `SymbolText.ClosureIsReachable` | guards/src/checks/admin-permissions.ts:140-157 | a symbol's text takes in, once each, exactly the declarations of its file that it leads to by name |
| `SymbolText.TextMentions` | guards/src/checks/admin-permissions.ts:141-160 | a symbol names a word if and only if a declaration it leads to does |
| `SymbolText.DeclarationIsDeclared` | guards/src/checks/admin-permissions.ts:284-301 | what an imported name resolves to is a declaration of the tree at the end of a chain of re-exports |
| `SymbolText.DeclarationFound` | guards/src/checks/admin-permissions.ts:284-301 | something is found if and only if the name is declared at the end of at most eight re-exports |
| `SymbolText.ImportedByName` | guards/src/checks/admin-permissions.ts:339-352 | one symbol imports another if and only if a declaration it leads to names it, or an `import()` in its text takes the whole file |
| `SymbolText.CallsAndAtoms` | guards/src/checks/admin-permissions.ts:319-325 | a symbol calls exactly the routes that a declaration it leads to names and its text calls, and holds the atoms written as literals and those of the routes whose permission it reads |
| `SymbolText.SiteIsWhole` | guards/src/checks/admin-permissions.ts:267-355 | following imports never leaves the tree |
| `PermissionGaps.Finder.Call` | guards/src/checks/admin-permissions.ts:322-336 | one call adds its page to the gap of its file and route when its atom is not covered, once per page |
| `PermissionGaps.Finder.VisitSymbol` | guards/src/checks/admin-permissions.ts:313-353 | the recursive visit, with its shared `visited` and `found`, computes the search function; it ends although imports may be cyclic |
| `PermissionGaps.Finder.Run` | guards/src/checks/admin-permissions.ts:311-356 | each page is searched afresh and the gaps of all pages are collected |
| `PermissionGaps.GrantsCoverReads` | guards/src/checks/admin-permissions.ts:28-32 | what is granted with a held atom covers reads alone: a write is open if and only if its own atom is neither held nor implicit, whatever the requirements say |
| `PermissionGaps.VisitsTheReachable` | guards/src/checks/admin-permissions.ts:313-354 | from a page the search visits exactly the symbols the page reaches |
| `PermissionGaps.GapsAreReal` | guards/src/checks/admin-permissions.ts:319-337 | each reported gap has an import path from its page on which the atoms of the page and those written on the way do not cover the route |
| `PermissionGaps.FirstPathsAreTrails` | guards/src/checks/admin-permissions.ts:313-354 | exactly the symbols a page reaches have a first path, and it is an import path from the page |
| `PermissionGaps.NotedIffFirstOpen` | guards/src/checks/admin-permissions.ts:313-354 | a gap is reported if and only if the call is open on the first path on which depth-first search reaches its symbol |
| `PermissionGaps.CompleteIffFirst` | guards/src/checks/admin-permissions.ts:19-32 | every gap is reported if and only if each shows on a first path from a page of its file |
| `PermissionGaps.ReportsExactly` | guards/src/checks/admin-permissions.ts:267-357 | when all paths to a call agree, a gap is reported against a page if and only if the page has one |
| `PermissionGaps.BareControlMissed` | guards/src/checks/admin-permissions.ts:314-316 | a control reached under a gate first and without one second is not reported |
| `PermissionGaps.BareControlReported` | guards/src/checks/admin-permissions.ts:314-316 | the same page with its imports swapped is reported |
| `Globs.GlobToRegExp` | guards/src/checks/pipeline.ts:45-62 | the index loop with its lookahead emits the pieces of the glob one after the other |
| `Globs.CompiledReadsBack` | guards/src/checks/pipeline.ts:45-62 | the emitted text, parsed as a regular expression, is exactly the terms the glob stands for, so the escaping is exact |
| `Globs.GlobIsKept` | guards/src/checks/pipeline.ts:44-62 | on every path without line breaks the regular expression matches if and only if the glob does |
| `Globs.TriggersOn` | guards/src/checks/pipeline.ts:99-114 | the last pattern that matches decides, for `paths` and for `paths-ignore`, negated patterns included |
| `KeyOrder.OneAscendingList` | packages/api-client/src/query-keys.ts:14-14 | sorting keys gives one list, whatever order they came in |
| `StableKeys.StableInput` | packages/api-client/src/query-keys.ts:7-19 | the recursive copy with its loops computes the stable form |
| `StableKeys.SameKeyIffSame` | packages/api-client/src/query-keys.ts:3-19 | two inputs get equal keys if and only if they are equal up to key order, undefined properties and dates as ISO text, at every depth |
| `StableKeys.StableIsCanonical` | packages/api-client/src/query-keys.ts:3-19 | keys ascend at every depth, no property is undefined and no date is left |
| `StableKeys.StableIsIdempotent` | packages/api-client/src/query-keys.ts:3-19 | making an input stable twice changes nothing, and the values left alone are exactly the canonical ones |
| `PercentText.DecodeEncoded` | packages/api-client/src/url.ts:22-22 | percent-decoding and reading UTF-8 gives back the text `encodeURIComponent` was given, in a path and in a form |
| `PercentText.EncodesOnlyNeeded` | packages/api-client/src/url.ts:22-22 | what is encoded holds unreserved characters and percent signs with two digits alone, and exactly the texts of unreserved characters stay as they are |
| `Urls.SerialiseQuery` | packages/api-client/src/url.ts:49-61 | the loops over sorted keys and items write the present pairs in order |
| `Urls.QueryRoundTrip` | packages/api-client/src/url.ts:36-61 | the form parser reads, under each key, the texts of exactly the values present, in array order, each giving its value back (a flag as the two literal words), and the server sees one text, an array or nothing |
| `Urls.KeyOrderDoesNotShow` | packages/api-client/src/url.ts:47-52 | one query gives one URL whatever the order of its keys |
| `PathTemplates.BuildsFilled` | packages/api-client/src/url.ts:16-24 | a path is built if and only if every value is given, and is then the template with each placeholder filled; else the first missing value is named |
| `PathTemplates.ReadsBack` | packages/api-client/src/url.ts:16-24 | a template whose placeholders are kept apart gives every value back |
| `PathTemplates.RecoverableIffSeparated` | packages/api-client/src/url.ts:16-24 | for distinct names and no percent sign in the literal text, different values give different paths if and only if a character that no encoded value has stands between every two neighbouring placeholders |
| `PathTemplates.PathRoundTrip` | packages/api-client/src/url.ts:16-24 | what the code builds from a separated template is read back to the values given |
| `PathTemplates.NeighboursRunTogether` | packages/api-client/src/url.ts:16-24 | in every template with only kept characters `w` between two placeholders, `x` and `y w z` give the path of `x w y` and `z` |
| `SignOuts.Client.Send` | packages/api-client/src/client.ts:140-141 | a call takes the next number |
| `SignOuts.Client.Refuse` | packages/api-client/src/client.ts:112-116 | the handler is called if and only if the refused call is numbered above those covered, and then all calls sent are covered |
| `SignOuts.CoversSentOnly` | packages/api-client/src/client.ts:107-110 | in every run no more calls are covered than were sent |
| `SignOuts.OncePerBurst` | packages/api-client/src/client.ts:107-116 | of two firings the later is by a call sent after the earlier, so two calls in flight together never both fire, and a call was sent in between |
| `SignOuts.EveryRefusalIsHeard` | packages/api-client/src/client.ts:112-116 | for each refused call the handler fires between its sending and its answer, the answer included |
| `SignOuts.NoMoreThanCovered` | packages/api-client/src/client.ts:107-116 | the handler fires at most once for each call sent |
| `Paging.FlattenPages` | packages/api-client/src/react.ts:257-263 | the loop lists the items of all pages in order |
| `Paging.LoadAll` | packages/api-client/src/react.ts:226-235 | following the next page from page 1 ends, with the pages `Follow` lists |
| `Paging.EveryItemOnce` | packages/api-client/src/react.ts:187-191 | against a server that pages a fixed list, the pages hold the whole list once and in order, also when its count runs ahead of the list; with an exact count there are as many pages as the larger of 1 and total over page size, rounded up |

## Left out

- The wording of a change: it keeps its severity, its operation and its place.
- `Surface.id` and the reading of an OpenAPI document (`storefrontSurface`): operations are taken as parsed.
- Edits.EditShowsThere: the way to the edit leads through schemas of one named type, with `null` or without; through a union or an intersection the soundness theorems speak alone.
- BranchEdits.KindsEdited: branches that keep their kind keep their schema, and no kind lost is one a kind gained could be taken for.
- ParameterLists.ListTakesTx: a `<` that compares, in a default, is counted as a bracket by the code and is not in the grammar of lists.
- Slimming.SlimReads: of a document whose keywords have types JSON Schema does not give them (`properties` that is a list, say) nothing is said.
- BooleanSchemas.SlimKeepsTests: is about the tests the comparison makes on a schema and all below it; that a changed test shows in the report is proved for `items` and `properties`.
- UnionOrder.ReorderingBranches: a tag property whose name holds `=`, which a branch key also uses as its separator.
- Floating point: a JavaScript number is a real, so `%` is exact.
- A tag value that is a number with a fraction is written with six decimals; JavaScript writes the shortest text.
- Enum members are compared as JSON values, not by their `JSON.stringify` text, so the order of keys in an object member does not show.
- Prototype keys, and the order JavaScript gives integer-like keys.
- A client that omits an optional request body of the old operation.
- Which of its three ways a server treats an absent body is not in the surface; `Operation.absence` says it.
- `pattern` and `format` are opaque predicates.
- Masking.MaskSource: a character outside the basic plane is one character here and two code units there, so offsets differ behind one.
- MaskGrammar.TextIsMasked: a line comment ends with its line; one that ends the text is not in the grammar.
- MaskGrammar.MaskedIffClear: behind a slash that divides, its line goes on; a misread one at the end of a line would not show.
- TxScan.FindTxFunctions: names of functions (`nameBefore`).
- PoolReaches.FindPoolReaches: the trimmed source line of a reach, and the list of reaches that are allowed.
- ErrorGuards.GuardedIsSafe: is not an if-and-only-if, since a node under another variable of the name may still never run; a subject is a variable or what is read off one by properties and indices, and neither is assigned; a function is an expression evaluated where it stands, so a hoisted function declaration that is called above the early exit it is written under is not covered; `switch`, labels, generators and `for` are not in the trees.
- ErrorGuards.AssertsIsSound: which calls count as a guard is read off the callee's name; that `isApiError` answers truthfully is taken for granted.
- `destination` and `hasLookbehind` of the lint rules.
- `subPackagesOf` and the walk that writes the module list of a build.
- The text extractors of the admin check (`topLevelChunks`, `importsOf`, `reExportsOf`, `resolveImport`'s file lookup) and what `atomsIn` and `isCalled` find in a text are inputs.
- PermissionGaps.Finder.Run: the order of the list of gaps is left out; the keys that join a file with a name or a route are pairs.
- `pathFilterOf`: the filter is taken as parsed; a glob means what the code's own pieces say, which differs from the workflow service in `?`.
- Globs.GlobIsKept: a path with a line break, which a `.` does not match.
- Urls.QueryRoundTrip: bytes that are not UTF-8 are refused where the URL standard replaces them; what `String` and `JSON.stringify` write is an input, and lone surrogates are outside the text type.
- PathTemplates.RecoverableIffSeparated: a template that names a placeholder twice or has a percent sign in its literal text; for these only `ReadsBack` speaks.
- PathTemplates.ReadsBack: the path is read as written; a URL parser also takes out parts that are `.` or `..`.
- KeyOrder.OneAscendingList: keys are ordered by character; JavaScript orders by code unit, which differs for characters outside the basic plane. The results use only that it is one total order.
- `buildUrl`, `routeQueryKey` and `routeKey`, which only put the pieces together.
- SignOuts.Client.Refuse: a client without a handler, which never fires; headers, tokens, transport and error mapping.
- Paging.EveryItemOnce: a list that changes between two requests, or a count short of it; the cache of the query library.
- `packages/core`, the deploy protocol, file walking, HTTP, databases and queues.
