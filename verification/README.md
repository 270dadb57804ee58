# Verified models of the LasmeX build and documentation gates

These Dafny modules model the algorithms behind the repository's gate scripts and prove what each script is relied
on for. Every module follows one script (or one algorithm of it); operations that the script performs by updating
state are methods proved against a specification function or a transition system, and the lemmas state what holds
for every input, every run and every interleaving.

| module | models |
|---|---|
| `Digraph` | finite directed graphs, cycles, sinks |
| `GateGraph` | validating an aggregate of gates and the depth-first cycle search |
| `GateRuns`, `GateBlame`, `GateRunner` | the bounded concurrent gate scheduler: as a transition system, the needs a skip blames, and the loop that follows it |
| `PackageGraph` | the layered topological sort of workspace packages |
| `TypeLookup`, `LookupGuard`, `LookupTermination` | schema-path lookup on recursive type declarations: the walk and its soundness, what its shared guard costs, and when it ends |
| `SchemaPath`, `PasteClosure` | parsing of schema paths, and the paste closure of a config type |
| `DocSite`, `Splicing` | finding a link destination in raw Markdown and replacing ranges in place |
| `TranslationBrief` | carrying a change of code blocks over to the translated counterpart |
| `Publication` | publishing and verifying a release bundle against a registry, with runs cut off anywhere |
| `MarkdownComments` | which Markdown lines survive when HTML comments are rendered away |
| `PublintPool` | the worker pool over a shared counter |
| `JsDoc`, `JsDocComments`, `Words` | description prose and mode of a JSDoc comment, and what a comment written line by line is read as |
| `Derivatives` | separating translated code blocks that repeat their original |
| `PairingRecord` | paths, parsing and rendering of bilingual pairing records |
| `Text`, `Numbers`, `Wrappers` | splitting, joining and searching, shared bounds, `Option` and `Result` |

`dafny verify dfyconfig.toml` checks the whole project.

## How the outside world enters

- A gate's child process is a function from the gate to its result (`Executor`), and waiting is the choice of any
  running gate: `GateRunner.AwaitSettled` settles an arbitrary one. `PublintPool` treats its workers the same way.
- A registry is a value holding published integrities and dist-tags. A run is given a number of registry calls and
  fails at the first call past it, so quantifying over that number covers an interruption at every call. No other
  writer interferes, and `npm publish --tag` sets only the named tag.
- `localeCompare` is a parameter that is assumed to be a total preorder.
- Parsed Markdown and TypeScript (line ranges of code blocks, offsets of HTML nodes, type syntax, what a name
  resolves to) is given data.
- The call stack of the recursive schema-path walk is a parameter (`frames`), so that running out of stack can be
  stated; every result about a definite verdict holds for every stack.

## Where the code does less than one might expect

Each of these is a lemma. Unless the entry says otherwise, an if-and-only-if beside it names the exact condition.

- `LookupGuard.RepeatedBranchIsUnknown`, `LookupGuard.DiamondIsUnknown`: the shared guard also stops harmless
  repetition. On `A | A` the verdict is `unknown` although the member is there; on `A extends B, C` with an empty common
  base it is `unknown` although the key is definitely wrong, so a bad key passes the gate. `LookupGuard.MissingExactly`
  is the exact condition for `missing`, the one verdict the gate reports: the member is derivably absent and the
  walk without a guard looks up no declaration twice with the same number of steps left. No repetition is also enough
  for `found` (`DefiniteWithoutRepeats`), but there it is not necessary: on `A & A` one branch that finds the member
  suffices (`HarmlessRepetition`). A definite verdict is never wrong (`NodeSound`, `DeclSound`), and the guard never
  turns one definite verdict into the other (`GuardOnlyHides`).
- `LookupTermination.SelfIndexOverflows`: `type A = A['x']` exhausts every stack, because indexed access prepends a
  step and so never meets the guard. `LookupTermination.LookupTerminates` gives a sufficient condition only: no
  reference inside an indexed access lies on a cycle of references in reach. It is not necessary: in
  `type A = { x: A }['x']` the literal consumes the added step again, and the walk ends (`IndexOnCycleCanEnd`). Whether
  it ends in general depends on which added steps are consumed on the way, and no exact condition is given.
- `PackageGraph.TiesFollowInput`: packages that compare equal at one depth keep the input order. For packages that can
  be sorted, the listing is the same for every input order if and only if there are no such ties
  (`OrderMattersExactly`); `TiedPair` exhibits one under a locale that ties two names.
- `Splicing.SpliceOrderExactly`: ranges that do not overlap are spliced in source order, read backwards, if and only if
  no nonempty range is listed after an empty one with the same start. The site generator replaces no empty
  destination, so it always meets the condition.
- `DocSite.BareDestinationRecovered`: a bare destination that ends in a backslash escaping nothing swallows the
  character after it.
- `TranslationBrief.MovedParagraphPasses`: a paragraph that reads like a placeholder can move across an edited block and
  the change still passes for a code change. Where no placeholder stands in the confirmed prose next to its own block,
  every update means unchanged prose (`UpdateTrusted`). That this is also necessary is shown twice: for documents of
  paragraphs and closed backtick fences, whose blocks the text alone fixes (`PlainUpdateTrustedExactly`,
  `PlainSpansAreFences`), and over all block data (`UpdateTrustedExactly`), where a document is any text with any block
  ranges in it. For other Markdown it need not be necessary: a placeholder inside an HTML block fails the condition,
  yet the only other reading of the masked text may put a block where a parser finds no code.
- `Publication.SafeExactlyWhen`: loading a manifest does not check that its dist-tag differs from `latest`. If they are
  equal and the release entry is not the last package, an interrupted run leaves `latest` ahead of the bundle
  (`UnsafeRun`); in every other case it cannot.
- `PairingRecord.RoundTrip`: a record is readable exactly when the file name is more than `.md`, has no `:`, `#` or
  line break, and every further line of the path is blank or a comment. A line break in a directory name is therefore
  sometimes harmless.

## Model

| member | source | states |
|---|---|---|
| `Digraph.AcyclicHasSink` | scripts/run-gates.ts:671-701 | In an acyclic graph every nonempty set of nodes has a member without an edge into the set; the well-foundedness behind "no stall" and uniqueness |
| `GateGraph.AddComplete` | scripts/run-gates.ts:690-692 | Completing an id whose known needs are complete keeps the complete set closed under needs and free of cycles |
| `GateGraph.CycleSearch.Visit` | scripts/run-gates.ts:677-694 | A reported cycle is a real one; otherwise the path and its index are as before, the complete set only grew, and the visited id is in it |
| `GateGraph.FindDependencyCycle` | scripts/run-gates.ts:671-701 | Returns nothing exactly when the needs relation has no cycle; a returned path starts and ends with one id and each step is a need |
| `GateGraph.ValidateGateGraph` | scripts/run-gates.ts:651-669 | Accepts exactly the nonempty lists with distinct ids, known needs and no cycle; each rejection names the first defect in checking order |
| `GateRuns.FindReady` | scripts/run-gates.ts:728-729 | The gate found is the first in aggregate order that is pending with all needs passed; none found means no gate is |
| `GateRuns.FindBlocked` | scripts/run-gates.ts:739-743 | The gate found is the first in the list that is pending with a failed or skipped need; none found means no gate is |
| `GateRuns.RunsAreSafe` | scripts/run-gates.ts:725-772 | In every configuration of every run at most `maxActive` gates run, `running` agrees with the states, exactly the settled gates have results, and a gate left the pending state only after all its needs passed or because one failed or was skipped |
| `GateRuns.StartedAtMostOnce` | scripts/run-gates.ts:727-734 | No run starts a gate twice |
| `GateRuns.RunsAreBounded` | scripts/run-gates.ts:725-772 | Every run takes at most two steps per gate |
| `GateRuns.NeverStalls` | scripts/run-gates.ts:738-743 | While gates are pending and nothing runs or is ready, some gate is blocked: the "stalled" error cannot happen |
| `GateRuns.NeverDeadlocks` | scripts/run-gates.ts:725-772 | Every unfinished safe configuration has a next one |
| `GateRuns.RunsCanBeCompleted` | scripts/run-gates.ts:725-772 | Every run extends to one in which all gates are settled |
| `GateRuns.FinishedResolves` | scripts/run-gates.ts:736-772 | The final statuses satisfy the recursive definition: skipped if and only if some need did not pass, otherwise the own outcome |
| `GateRuns.ResolutionIsUnique` | scripts/run-gates.ts:711-783 | On an accepted graph the recursive definition has only one solution |
| `GateRuns.QuiescentIsUnique` | scripts/run-gates.ts:736-743 | All runs reach the same states and results when nothing runs or is ready any more, whatever their slot limits |
| `GateRuns.TailIsSkipAll` | scripts/run-gates.ts:736-763 | From there on a run has no choice left |
| `GateRuns.ScheduleIndependence` | scripts/run-gates.ts:711-779 | Any two complete runs, under any slot limits and settle orders, end in the same states and results |
| `GateRunner.GateRunner.FillSlots` | scripts/run-gates.ts:726-734 | Follows the transition system, and ends with all slots full or nothing ready; progress is reported exactly when the state changed |
| `GateRunner.GateRunner.AwaitSettled` | scripts/run-gates.ts:765-771 | Whichever running gate settles, the run continues safely and the measure decreases |
| `GateRunner.BlockedIsFound` | scripts/run-gates.ts:737-743 | Searching the shrinking pending list finds what searching the aggregate finds, and always finds a gate |
| `GateRunner.GateRunner.SkipGate` | scripts/run-gates.ts:744-760 | One skip is a step of the transition system, keeps the scheduler quiescent, and removing the gate from the pending list leaves the list of pending gates |
| `GateRunner.GateRunner.SkipRemaining` | scripts/run-gates.ts:736-763 | Ends with every gate settled, without meeting the "stalled" error |
| `GateRunner.GateRunner.Run` | scripts/run-gates.ts:725-772 | Terminates with every gate settled; the observer has seen each result exactly once, in the order the gates settled |
| `GateRunner.FinalResult` | scripts/run-gates.ts:774-778 | After a finished run a gate has its own outcome if every need passed, and a skip of its own otherwise |
| `GateRunner.OutcomesReported` | scripts/run-gates.ts:774-778 | The returned list holds those outcomes in aggregate order |
| `GateBlame.SkipsBlameRightly` | scripts/run-gates.ts:744-756 | In every run the error of a skipped gate names some need; it names, in the order of its needs, exactly those that had failed or been skipped before it, among them every need that ran without passing |
| `GateBlame.FailedDepsSelect` | scripts/run-gates.ts:744-747 | The named needs are the entries of `needs` at the positions of failed or skipped gates |
| `GateRunner.BlameReported` | scripts/run-gates.ts:744-779 | So does the error of every skipped gate in the returned list |
| `GateRunner.RunGates` | scripts/run-gates.ts:711-779 | Fails exactly on a malformed aggregate or slot count; otherwise returns one result per gate, in order, of a complete run, so no result is missing; a skipped gate blames exactly the needs that had failed or been skipped before it; and the observer has been called once with each, in the order they settled |
| `GateRunner.SameResults` | scripts/run-gates.ts:711-779 | Two calls return the same results whatever slot limit and settle order they meet |
| `PackageGraph.CompareFlips` | scripts/package-graph.ts:77-83 | Exchanging the packages reverses the comparison |
| `PackageGraph.CompareTransitive` | scripts/package-graph.ts:77-83 | The comparison is transitive, for any `localeCompare` that is a total preorder |
| `PackageGraph.SoonerMayStandBefore` | scripts/package-graph.ts:77-83 | Without naming the comparison: a group listed earlier comes first, a listed group before an unlisted one, then the collation of groups, of short names, and the input order decide |
| `PackageGraph.StableSortSorts` | scripts/package-graph.ts:64-66 | Sorting permutes, and orders by comparison and then by input position |
| `PackageGraph.MapValuesDistinct` | scripts/package-graph.ts:60 | The map holds each short name once, carried by the last package with that name, and nothing else; with distinct names it is the input |
| `PackageGraph.EveryNameKept` | scripts/package-graph.ts:60 | No short name of the input is lost |
| `PackageGraph.MapValuesInOrder` | scripts/package-graph.ts:60 | The map lists the short names in the order of their first occurrences |
| `PackageGraph.PlacedIsNotDoomed` | scripts/package-graph.ts:63-73 | A package placed within `k` rounds reaches neither a cycle nor an unknown dependency, and has no chain of `k` edges |
| `PackageGraph.StuckIsDoomed` | scripts/package-graph.ts:67 | When a round places nothing, every package left over reaches a cycle or an unknown dependency |
| `PackageGraph.LayerDepth` | scripts/package-graph.ts:63-73 | The round that places a package is the length of its longest dependency chain |
| `PackageGraph.LeftoversAreDoomed` | scripts/package-graph.ts:64-67 | At a stuck round exactly the doomed packages are unplaced |
| `PackageGraph.TopoSort` | scripts/package-graph.ts:59-75 | Fails exactly when some package reaches a cycle or an unknown dependency, naming exactly those packages in input order; otherwise lists every package once by longest chain, and within one chain length by group order, collation of groups, collation of short names and input position |
| `PackageGraph.ListingFollowsGroups` | scripts/package-graph.ts:59-83 | Any layered listing follows the group order within each depth |
| `PackageGraph.DependenciesComeFirst` | scripts/package-graph.ts:59-75 | In such a listing every dependency stands before its dependents |
| `PackageGraph.LayeringUnique` | scripts/package-graph.ts:59-75 | An input has only one such listing |
| `PackageGraph.OrderIndependent` | scripts/package-graph.ts:59-75 | Without ties at one depth the input order does not matter |
| `PackageGraph.TiesFollowInput` | scripts/package-graph.ts:66 | With a tie it does: exchanging the tied packages in the input changes the listing |
| `PackageGraph.ListingExists` | scripts/package-graph.ts:63-74 | Packages none of which is doomed have a layered listing |
| `PackageGraph.OrderMattersExactly` | scripts/package-graph.ts:59-83 | For such packages every input order gives the same listing if and only if no two at one depth compare equal |
| `PackageGraph.TiedPair` | scripts/package-graph.ts:77-83 | Two packages, a locale that ties their names, and the two different listings |
| `TypeLookup.NodeSound` | scripts/gen-config-catalog.ts:317-403 | `found` and `missing` on a type node each imply a derivation of presence or absence, whatever the guard set held |
| `TypeLookup.DeclSound` | scripts/gen-config-catalog.ts:344-361 | The same for a named declaration |
| `TypeLookup.NodeExclusive` | scripts/gen-config-catalog.ts:317-403 | No type node has derivations of both presence and absence of a path |
| `TypeLookup.DeclExclusive` | scripts/gen-config-catalog.ts:344-361 | No declaration has derivations of both |
| `TypeLookup.DefiniteVerdictsAgree` | scripts/gen-config-catalog.ts:317-403 | Two definite verdicts for one declaration and path agree, whatever stack and guard set each walk had |
| `TypeLookup.NamedReference` | scripts/gen-config-catalog.ts:388-401 | `Partial`, `Required`, `Readonly` and `NonNullable` stand for their argument, `Array` and `ReadonlyArray` for an array of it; any other name is the declaration it resolves to, or unknown |
| `LookupTermination.LookupTerminates` | scripts/gen-config-catalog.ts:317-403 | Unless a reference inside an indexed access lies on a cycle of references in reach, the walk always answers, however recursive the declarations, given enough stack |
| `LookupTermination.GuardStaysExact` | scripts/gen-config-catalog.ts:319-326 | Without indexed access in reach the guard set only ever holds tails of the path |
| `LookupTermination.GuardIsExact` | scripts/gen-config-catalog.ts:323 | On tails of one path the guard key, declaration and remaining length, identifies the exact query |
| `LookupTermination.SelfIndexOverflows` | scripts/gen-config-catalog.ts:381-384 | On `type A = A['x']` the walk exhausts every stack |
| `LookupTermination.IndexOnCycleCanEnd` | scripts/gen-config-catalog.ts:381-384 | On `type A = { x: A }['x']` the cycle carries an indexed access and the walk still ends |
| `LookupGuard.LookupUnfolds` | scripts/gen-config-catalog.ts:317-403 | One step of the guarded walk: a verdict, one place to go on to, or branches to combine, behind the guard for declarations |
| `LookupGuard.JudgementsUnfold` | scripts/gen-config-catalog.ts:317-403 | One step of the presence and absence judgements, along the same shapes and without a guard |
| `LookupGuard.FreshAgrees` | scripts/gen-config-catalog.ts:319-326 | If the guard lets every key of the guardless walk through, the guarded verdict is the guardless one |
| `LookupGuard.FreshIsNoRepeat` | scripts/gen-config-catalog.ts:323-325 | The guard lets a list of keys through exactly when none repeats and none was in the set before |
| `LookupGuard.PlainDecides` | scripts/gen-config-catalog.ts:317-403 | An answered guardless walk is `found` exactly when presence is derivable and `missing` exactly when absence is |
| `LookupGuard.MissingExactly` | scripts/gen-config-catalog.ts:329-334 | The walk answers `missing` if and only if absence is derivable and the guardless walk, which then always answers, repeats no key and meets none in the set |
| `LookupGuard.DefiniteWithoutRepeats` | scripts/gen-config-catalog.ts:319-326 | Where the guardless walk repeats no key, the verdict is `found` or `missing` exactly when that judgement is derivable |
| `LookupGuard.GuardOnlyHides` | scripts/gen-config-catalog.ts:324 | Where the guardless walk answers, the guarded one answers the same or `unknown` |
| `LookupGuard.RepeatedBranchIsUnknown` | scripts/gen-config-catalog.ts:370-375 | On `A | A` the member is present but the verdict is unknown |
| `LookupGuard.DiamondIsUnknown` | scripts/gen-config-catalog.ts:348-359 | On a diamond of interfaces a wrong key is derivably absent but the verdict is unknown |
| `LookupGuard.HarmlessRepetition` | scripts/gen-config-catalog.ts:329-334 | On `A & A` a key repeats and the verdict is still `found`, so for `found` the absence of repeats is not necessary |
| `TypeLookup.PathWalk.Declaration` | scripts/gen-config-catalog.ts:344-361 | The walk with its shared guard set in place computes what the specification threads through |
| `TypeLookup.PathWalk.Node` | scripts/gen-config-catalog.ts:362-402 | The same for type nodes |
| `TypeLookup.PathWalk.All` | scripts/gen-config-catalog.ts:367-376 | The same for the branches of intersections and unions, in order |
| `TypeLookup.PathWalk.Bases` | scripts/gen-config-catalog.ts:348-358 | The same for the heritage of an interface, in order |
| `TypeLookup.PathWalk.Below` | scripts/gen-config-catalog.ts:335-343 | The same for a matching property |
| `SchemaPath.ParsePath` | scripts/gen-config-catalog.ts:232-245 | The loops produce the member and element steps of the path's segments |
| `SchemaPath.ParsedPathRenders` | scripts/gen-config-catalog.ts:232-245 | Every path is the rendering of its parsed segments, none of which ends in a further `[]` or contains a dot |
| `SchemaPath.RenderedPathParses` | scripts/gen-config-catalog.ts:232-245 | Every nonempty list of such segments is what its rendering parses to |
| `PasteClosure.Closure.Step` | scripts/gen-config-catalog.ts:671-715 | One iteration keeps the invariant, which fixes the rest of the queue and the order of the pastes, and lowers the termination measure |
| `PasteClosure.Closure.Run` | scripts/gen-config-catalog.ts:671-715 | Ends with an empty queue; records no violation exactly when no name in the reachable closure is unresolved or ambiguous, and then the tables are faithful and the first paste is the declaration the config type resolves to; the pastes then stand in breadth-first order, nearest first; every violation recorded is true of the package |
| `PasteClosure.RecordedIsUnambiguous` | scripts/gen-config-catalog.ts:678-707 | A finished worklist that recorded everything is only possible on an unambiguous closure |
| `PasteClosure.NoConflict` | scripts/gen-config-catalog.ts:683-705 | On an unambiguous closure the tables agree with the resolution of every reachable name |
| `PasteClosure.FinishedIsFaithful` | scripts/gen-config-catalog.ts:664-715 | Pasted and imported names are disjoint, and every name a pasted declaration mentions resolves to the paste or import recorded for it |
| `PasteClosure.GlobalsAreSkipped` | scripts/gen-config-catalog.ts:711-714 | Exactly the mentions that are not one of the 25 global names enter the queue |
| `PasteClosure.OrderedIsBreadthFirst` | scripts/gen-config-catalog.ts:670-715 | After a clean run the names of the pastes follow their first mentions, read paste by paste in the order each paste mentions them, and each is mentioned by an earlier paste |
| `PasteClosure.PastesShortestFirst` | scripts/gen-config-catalog.ts:670-715 | The length of the shortest mention chain from the config type never falls along the pastes |
| `PasteClosure.ReportIsTruthful` | scripts/gen-config-catalog.ts:674-707 | A violation names the item, what it resolves to, and the differing earlier resolution that the tables keep |
| `DocSite.SkipWhitespace` | scripts/project-doc-site.ts:65-69 | Stops at the first character that is not whitespace |
| `DocSite.FindLabelEnd` | scripts/project-doc-site.ts:71-87 | The scan with index and depth finds the end of the label that the recursive reading finds |
| `DocSite.DestinationRange` | scripts/project-doc-site.ts:89-132 | The scan yields the range or the error that the recursive reading yields |
| `DocSite.StartFound` | scripts/project-doc-site.ts:95-107 | For any caption with balanced or escaped brackets and any spaces, the destination is found where it starts |
| `DocSite.AngleDestinationRecovered` | scripts/project-doc-site.ts:109-115 | An angle-bracketed destination is recovered exactly |
| `DocSite.BareDestinationRecovered` | scripts/project-doc-site.ts:117-131 | A whitespace-free destination with balanced or escaped parentheses is recovered exactly if and only if it does not end in a lone backslash with text after it |
| `Splicing.SpliceOrderExactly` | scripts/project-doc-site.ts:274-276 | Ranges that do not overlap are spliced in reversed source order if and only if no nonempty range is listed after an empty one with the same start |
| `Splicing.SortSorts` | scripts/project-doc-site.ts:274 | Sorting by descending start permutes, orders, and keeps ranges apart |
| `Splicing.ReversedAscends` | scripts/project-doc-site.ts:274 | Nonoverlapping ranges sorted by descending start, read backwards, are ascending exactly when their ties fit |
| `Splicing.DescendingIsOnePass` | scripts/project-doc-site.ts:274-276 | Splicing from the right equals the one-pass substitution from the left |
| `Splicing.Splice` | scripts/project-doc-site.ts:273-277 | On nonoverlapping ranges whose ties fit, the in-place splice is the one-pass substitution of the same ranges in source order |
| `Splicing.OutsideUntouched` | scripts/project-doc-site.ts:273-277 | Every character outside the ranges is found again, moved by exactly the growth of the ranges before it |
| `TranslationBrief.LinesOfText` | scripts/translation-brief.ts:35-43 | Writing lines as text and reading them back is the identity |
| `TranslationBrief.TextOfInjective` | scripts/translation-brief.ts:41-43 | Two lists of lines have the same text only if they are the same |
| `TranslationBrief.CrlfReadsAlike` | scripts/translation-brief.ts:35-39 | A text with carriage returns before its line feeds has the same lines |
| `TranslationBrief.ReplaceSpanTexts` | scripts/translation-brief.ts:167-175 | Fails exactly on a replacement without a span; otherwise the bottom-up splice is the one-pass substitution of those spans |
| `TranslationBrief.MaskCodeSpans` | scripts/translation-brief.ts:177-179 | The masked text is the prose woven with one placeholder line per block |
| `TranslationBrief.DecimalStandsFor` | scripts/translation-brief.ts:177-179 | The number in a placeholder is the block's, in decimal without leading zeros |
| `TranslationBrief.MaskExactly` | scripts/translation-brief.ts:177-179 | The masked text determines the prose if and only if no placeholder stands in the prose right before or right after its own block |
| `TranslationBrief.MaskComparesProse` | scripts/translation-brief.ts:198 | Under that condition on the confirmed source alone, equal masks mean exactly equal prose |
| `TranslationBrief.UpdateTrusted` | scripts/translation-brief.ts:193-203 | Under that condition on the confirmed source every update means unchanged prose and a changed block, whatever the other two documents are |
| `TranslationBrief.PlainSpansAreFences` | scripts/translation-brief.ts:162-165 | In a document of paragraphs and closed fences the code blocks are the fences found by reading its lines once |
| `TranslationBrief.PlainUpdateTrustedExactly` | scripts/translation-brief.ts:193-203 | Among such documents every update for a confirmed source means unchanged prose if and only if the condition holds |
| `TranslationBrief.UpdateTrustedExactly` | scripts/translation-brief.ts:193-203 | The same over all block data, that is, for texts with any block ranges inside them; the necessity half is not a claim about what a parser returns |
| `TranslationBrief.StrayMisleads` | scripts/translation-brief.ts:198 | If a placeholder stands next to its own block, some block data with moved prose and one edited block passes for a code change; for a plain document it is a plain document |
| `TranslationBrief.MovedParagraphPasses` | scripts/translation-brief.ts:198 | Two concrete documents: a placeholder-like paragraph moves across an edited block and an update is given |
| `TranslationBrief.WrittenReadsBack` | scripts/translation-brief.ts:35-43 | A document written from prose and blocks reads back as that prose and those blocks |
| `TranslationBrief.ComputeMechanicalUpdate` | scripts/translation-brief.ts:193-203 | Gives an update exactly when the masks agree, the counterpart's blocks are the confirmed ones and some block changed; without a stray placeholder, exactly when only code blocks changed. The update is the counterpart's prose around the current blocks |
| `TranslationBrief.ChangedWeaves` | scripts/translation-brief.ts:200-202 | Replacing only the changed blocks gives the counterpart all current blocks |
| `TranslationBrief.UpdateReadsBack` | scripts/translation-brief.ts:202 | Read back, the update has every prose line in order and the k-th current block in k-th place |
| `Publication.RegistryPublication.PublishPackage` | scripts/publish-npm-baseline.ts:631-651 | One turn of the loop, with its error and its effect on the registry |
| `Publication.RegistryPublication.PublishBundle` | scripts/publish-npm-baseline.ts:626-655 | The registry writes of `publish`, in order, cut off at any call |
| `Publication.RegistryPublication.EnsureDistTag` | scripts/publish-npm-baseline.ts:756-765 | Reads the tag and sets it only if it does not name the version |
| `Publication.RegistryPublication.VerifyRemote` | scripts/publish-npm-baseline.ts:663-685 | The check of every package |
| `Publication.RegistryPublication.VerifyBundle` | scripts/publish-npm-baseline.ts:657-661 | The check of every package and of the release entry |
| `Publication.PublishProgress` | scripts/publish-npm-baseline.ts:626-655 | No run changes a published integrity or takes a tag away from the version, wherever it stops |
| `Publication.PublishOwnWrites` | scripts/publish-npm-baseline.ts:626-655 | A run, wherever it is cut off, changes no tag but the bundle packages' own dist-tag and `lasmex@latest`, and publishes nothing but the bundle's packages at its version |
| `Publication.PublishKeepsSafe` | scripts/publish-npm-baseline.ts:626-655 | If `lasmex@latest` names the bundle's version only when every package is in place, it still does after any cut-off run |
| `Publication.RepeatedRunsAreSafe` | scripts/publish-npm-baseline.ts:626-655 | The same over any number of interrupted runs, which never change an integrity |
| `Publication.SafeExactlyWhen` | scripts/publish-npm-baseline.ts:652 | That safety holds for every start and interruption if and only if the manifest's tag is not `latest` or the release entry is its last package |
| `Publication.UnsafeRun` | scripts/publish-npm-baseline.ts:634-639 | Otherwise a run stopped right after publishing the release entry breaks it |
| `Publication.VerifyDecides` | scripts/publish-npm-baseline.ts:657-699 | `verify` succeeds exactly on a complete publication and changes nothing |
| `Publication.VerifyReason` | scripts/publish-npm-baseline.ts:657-699 | With enough calls `verify` names the first package out of place and what is wrong with it; with all in place only the release entry can be at fault |
| `Publication.PublishReason` | scripts/publish-npm-baseline.ts:631-645 | With enough calls `publish` names the first package whose published integrity is another one or none |
| `Publication.InterruptedIsSpent` | scripts/publish-npm-baseline.ts:626-699 | A run is cut off only after making every call it had, and none makes more |
| `Publication.FinishedRunIsComplete` | scripts/publish-npm-baseline.ts:626-655 | A run that ends without failure leaves a complete publication |
| `Publication.RepeatWritesNothing` | scripts/publish-npm-baseline.ts:640-651 | Repeating a finished run writes nothing, wherever the repetition stops |
| `Publication.UninterruptedRunCompletes` | scripts/publish-npm-baseline.ts:626-655 | Whatever earlier runs left, an uninterrupted run without conflicts completes |
| `Publication.ConflictBlocksLatest` | scripts/publish-npm-baseline.ts:641-645 | A package published with other contents stops every run before `latest` names the version |
| `MarkdownComments.ScanIsExact` | scripts/markdown.ts:112-120 | The scan of a node finds comments only, in order and disjoint, and every opener lies inside one |
| `MarkdownComments.CommentSpelled` | scripts/markdown.ts:112-120 | A comment begins with `<!--` and ends with `-->` or with the text |
| `MarkdownComments.CommentsOf` | scripts/markdown.ts:112-120 | The loop with its cursor finds exactly the comments of that scan |
| `MarkdownComments.AllCommentsCover` | scripts/markdown.ts:109-121 | The collected offsets are exactly those inside a comment of some HTML node |
| `MarkdownComments.CoveredIsInSource` | scripts/markdown.ts:110-120 | Where nodes stand verbatim in the source, every covered character lies in a real run of the source from an opener to its first closer or the end of the node |
| `MarkdownComments.SourceOpenerIsCovered` | scripts/markdown.ts:114-118 | And every opener in a verbatim node is covered |
| `MarkdownComments.OffsetPoints` | scripts/markdown.ts:124-137 | A line and its running offset point at the same source characters |
| `MarkdownComments.CutKeepsCover` | scripts/markdown.ts:128-134 | A column is in a range of its line exactly when its source offset is in a comment |
| `MarkdownComments.TouchedHasRanges` | scripts/markdown.ts:130-131 | A line has ranges exactly when a comment covers one of its characters, or its place if it is empty |
| `MarkdownComments.HtmlCommentRanges` | scripts/markdown.ts:108-140 | The table holds the cuts of every line and no empty entry |
| `MarkdownComments.HasRenderedTextOutsideComments` | scripts/markdown.ts:143-153 | The moving-cursor sweep answers whether some non-whitespace character lies in no range, for ranges in any order and overlap |
| `MarkdownComments.MarkdownProseLines` | scripts/markdown.ts:160-176 | Keeps exactly the surviving lines, each once with its number, from top to bottom |
| `MarkdownComments.SurvivingExactly` | scripts/markdown.ts:169-174 | A line is kept if and only if it is outside code and, when a comment touches it, has a non-whitespace character whose source offset lies in no comment |
| `PublintPool.SpawnKeeps` | scripts/publint-all.ts:130-135 | Starting a worker keeps: indices are handed out once, in-flight indices are distinct, results stand at their index |
| `PublintPool.SettleKeeps` | scripts/publint-all.ts:131-137 | So does any busy worker storing its result and taking the next index |
| `PublintPool.PoolRunsAreSafe` | scripts/publint-all.ts:127-138 | In every state of every interleaving at most `concurrency` lints are in flight, indices are handed out once, and results stand at their index |
| `PublintPool.SettleDecreases` | scripts/publint-all.ts:131-137 | Every settling lowers the work left |
| `PublintPool.AllReturnedAllDone` | scripts/publint-all.ts:135-143 | When all of at least one worker have returned, every target has its result |
| `PublintPool.WorkerPool.SettleOne` | scripts/publint-all.ts:131-137 | Whichever busy worker settles, the pool stays consistent and the work decreases |
| `PublintPool.WorkerPool.Run` | scripts/publint-all.ts:130-138 | Starts every worker and ends when all have returned |
| `PublintPool.RunAll` | scripts/publint-all.ts:127-145 | What the pool goes through is one of the interleavings, ended when all workers have returned; under each of them every target is begun once and the result of target `i` stands at index `i`; it fails exactly with no workers over some targets |
| `PublintPool.PublintConcurrency` | scripts/publint-all.ts:48-61 | Fails exactly on a requested count that is not a positive safe integer; otherwise gives the smaller of the targets and the requested or available number |
| `PublintPool.PublintAll` | scripts/publint-all.ts:156-160 | With that count the "missing result" error cannot happen |
| `JsDoc.JsDocParser.FlushPara` | scripts/jsdoc.ts:46-59 | Flushing the buffers finishes the pending block: the buffers never hold a paragraph and a list at once |
| `JsDoc.JsDocParser.ProseLine` | scripts/jsdoc.ts:67-77 | A prose line changes the four buffers as it changes the outline of paragraphs and lists |
| `JsDoc.JsDocParser.Line` | scripts/jsdoc.ts:60-78 | A tag line, the territory after a tag, and prose each keep the buffers, the mode and the flags in step with the lines read |
| `JsDoc.ParseJsDoc` | scripts/jsdoc.ts:32-82 | Yields the description, the last valid mode, and whether any mode tag was present, of the lines between the delimiters |
| `JsDoc.OutlineWords` | scripts/jsdoc.ts:60-79 | The outline keeps every word of the prose lines, in order |
| `JsDoc.DocKeepsWords` | scripts/jsdoc.ts:32-82 | The words of the description are those of the prose with links rendered, and the words of the prose are those of the lines before the first tag, in order; without `{@link` the two are the same |
| `JsDoc.NoLinksNoChange` | scripts/jsdoc.ts:80 | Text without a link is left alone |
| `JsDoc.LinkRenders` | scripts/jsdoc.ts:80 | A link is rendered as its target |
| `JsDocComments.CommentReadsBack` | scripts/jsdoc.ts:33-37 | Lines written behind ` * ` between `/**` and `*/` are read back unchanged, indentation and empty lines included, with a blank line before and after |
| `JsDocComments.CommentMeansItsLines` | scripts/jsdoc.ts:32-82 | Such a comment has the description, the mode and the mode flag of its lines |
| `JsDocComments.BlocksRecovered` | scripts/jsdoc.ts:60-79 | Paragraphs and lists written with a blank line between each two are read as these blocks |
| `JsDocComments.DescriptionRecovered` | scripts/jsdoc.ts:32-82 | A comment written from paragraphs and list items, followed by any tags, gives the description with one blank line between blocks, each paragraph on one line and each item on its own |
| `JsDocComments.ModeRecovered` | scripts/jsdoc.ts:62-63 | The last valid ` * @mode x` of a comment gives the mode spelled x |
| `JsDocComments.OnlyFiveModes` | scripts/jsdoc.ts:62 | Exactly the five spellings are modes |
| `JsDocComments.WrongModeIsNoted` | scripts/jsdoc.ts:64 | A mode tag with any other name counts as present and gives no mode |
| `JsDocComments.ModeIsAWord` | scripts/jsdoc.ts:64 | `@mode` counts as a tag unless a letter, a digit or an underscore follows |
| `JsDocComments.LinkMatches` | scripts/jsdoc.ts:80 | Whitespace and at least one more character in front of a brace complete a link, which keeps what follows the leading whitespace |
| `JsDocComments.OnlyLinksMatch` | scripts/jsdoc.ts:80 | Nothing else completes one |
| `Words.CollapseWords` | scripts/jsdoc.ts:45 | Collapsing runs of whitespace keeps the words |
| `Words.JoinWords` | scripts/jsdoc.ts:45 | Joining with whitespace keeps the words of all parts |
| `Words.PatternInWord` | scripts/jsdoc.ts:80 | A pattern without whitespace only occurs inside a word |
| `Derivatives.Partition` | scripts/paired-markdown-derivatives.ts:30-63 | The derivatives are, in scan order, exactly the blocks of the `.zh.md` documents that repeat all blocks of their `.md` sibling; the other blocks are primary, in scan order |
| `Derivatives.DerivativeExactly` | scripts/paired-markdown-derivatives.ts:16-54 | A document is a derivative if and only if it is `stem.zh.md` for some stem and has, in order, the fingerprints of the blocks of `stem.md`, of which there are some |
| `Derivatives.SplitIsComplete` | scripts/paired-markdown-derivatives.ts:57-62 | The two lists carry every block, none twice |
| `Derivatives.DerivativeRepeatsPrimary` | scripts/paired-markdown-derivatives.ts:43-55 | Along chains of suffixes, every derivative document repeats a document whose blocks stay primary |
| `Derivatives.NoCheckLost` | scripts/paired-markdown-derivatives.ts:30-63 | The fingerprint of every derivative block still occurs on a primary block |
| `PairingRecord.MetaDeterminesPair` | scripts/translation-pairing-record.ts:31-53 | Deriving the paths from a pair's record path gives back the pair |
| `PairingRecord.PairHasItsMeta` | scripts/translation-pairing-record.ts:48-53 | What a record path yields is a pair with that record path |
| `PairingRecord.PairInDirectory` | scripts/translation-pairing-record.ts:31-40 | For a file in a directory the counterpart and the record lie beside it, and the record's entries carry the bare file names |
| `PairingRecord.PathsRejected` | scripts/translation-pairing-record.ts:31-53 | Exactly the paths `stem.md` whose stem does not end in `.zh` have a pair, and exactly the record paths of such documents lead to one |
| `PairingRecord.MetaLineMatches` | scripts/translation-pairing-record.ts:23 | A name, a colon, a space and a hash is an entry exactly when the name is a legal one |
| `PairingRecord.HashExactly` | scripts/translation-pairing-record.ts:23 | A hash is forty lower-case hexadecimal digits |
| `PairingRecord.ParseRecord` | scripts/translation-pairing-record.ts:62-77 | The loop over the map yields what the line-by-line reading yields |
| `PairingRecord.ParsesExactly` | scripts/translation-pairing-record.ts:62-77 | A text parses to a record exactly when its significant lines are that record's two entries, in either order |
| `PairingRecord.OtherwiseRejected` | scripts/translation-pairing-record.ts:67-75 | A malformed line, a repeated name, or anything but two entries is rejected |
| `PairingRecord.OrderAndCommentsIgnored` | scripts/translation-pairing-record.ts:67-72 | Comments, blank lines and the order of entries do not matter |
| `PairingRecord.RecordSignificant` | scripts/translation-pairing-record.ts:86-98 | A rendered record has its two entries as significant lines, after whatever a line break in the path lets through |
| `PairingRecord.RoundTrip` | scripts/translation-pairing-record.ts:62-99 | Parsing a rendered record gives back both hashes exactly when the pair is recordable |

## Left out

- Process spawning, signals, timing and captured output of gates; Git, npm, tar and file access; console output and prompts.
- The constant gate lists, catalog tables, link maps and generated Markdown or HTML of the `gen-*` scripts.
- Rejection of an executor's or linter's promise: every started gate and every lint settles with a result.
- A slot count that is not an integer, and reading counts from environment strings: counts arrive as integers.
- UTF-16 surrogates: a character is one unit. Collation is a parameter, not the Unicode algorithm.
- Rewriting which URL a link gets in `project-doc-site.ts`, and walking the Markdown tree: replacements are given.
- Type parameters, methods, quoted member names, index signatures and `keyof` in `lookupPath`; the import chains behind `declForTypeName` and `resolveTypeName`, which are given as finite maps.
- The text of pastes and the member-documentation check inside the paste-closure loop. Two declarations on one source line count as one, since their pointer is the same.
- Parsing of `npm dist-tag ls` output, a registry that answers without an integrity, and the `latest` tag npm itself sets on a first publication.
- Carriage returns in the documents of an update (before line feeds they do not change the lines that are read: `CrlfReadsAlike`), overlapping or unordered block ranges, and the alignment of sections and units in `translation-brief.ts`.
- Windows path separators in file names, and the generic rename pass of `rescope-vendor.ts`.
- LookupTermination.LookupTerminates: a sufficient condition; with an indexed access on a cycle the walk may or may not end, and which is the case is not characterised.
- LookupTermination.GuardIsExact: the guard set stores the remaining steps where the source stores their number; the guard itself compares only the number.
- LookupGuard.DefiniteWithoutRepeats: for `found` the absence of repeats is sufficient and, by `HarmlessRepetition`, not necessary; exactly when a repetition hides a `found` is not characterised.
- MarkdownComments.CoveredIsInSource: nodes whose text the parser changed are not covered. For an HTML comment continued on an indented line of a list item, the parser drops the indentation, so the computed end falls short of the real one and the rest of the comment counts as prose.
- TranslationBrief.UpdateTrustedExactly: block ranges are given data, so the necessity half ranges over ranges a Markdown parser may not return; among parsed documents it is proved for those of paragraphs and closed fences only (`PlainUpdateTrustedExactly`).
- TranslationBrief.ReplaceSpanTexts: the source's loop over sorted map entries is a loop over descending span numbers that skips absent ones.
