# Reify tooling, verified

A Dafny 4.11 model of the hardest logic in the repository's scripts and build
support, with proofs of what that logic promises. `dafny verify dfyconfig.toml`
checks everything.

| part | modules | source |
|---|---|---|
| Module-SCC ratchet | `Digraph`, `Tarjan`, `Ratchet`, `Baseline`, `ModuleScc`, `Cfg`, `TestScan`, `PrintedScan`, with `Sequences` and `Text` | `scripts/assert-module-scc.py` |
| Dual-FIFO jobserver balancer | `Jobserver`, `JobserverRuns` | `scripts/jobserver-balancer.py` |
| Dependency closures and overlap | `Closures`, `Overlap` | `scripts/reify_path_attribution.py`, `scripts/reify_overlap_detector.py` |
| Feature union | `CargoTreeLine`, `CargoTree`, `HostUnion` | `scripts/workspace-feature-union.py` |
| Crate strata | `Strata` | `scripts/assert-crate-strata.py` |
| Generated-parser staleness | `Manifest`, `Staleness`, `StalenessRuns`, `StalenessLimits`, `BuildScript` | `tree-sitter-reify/build_support.rs`, `tree-sitter-reify/build.rs` |
| Merge waiter | `Waiter` | `scripts/await-merge-landing.py` |

How each part is modelled:

- **Ratchet.** A module graph maps a module to the set of modules it imports.
  `Tarjan.Finder` keeps the search's five collections in one mutable record that
  recursive visits update. `Digraph.Sccs` is the reference definition: maximal
  sets of two or more mutually reachable modules. Where the script iterates in
  sorted order the model takes any order, so the results hold for every order.
- **Balancer.** One transition system. A controller step is one pipe operation
  or one decision; a consumer may take a token, or return it to the pool it came
  from, between any two of them (the client rule of the GNU make manual, "POSIX
  Jobserver Interaction"). Pipes are counters with a capacity.
- **Test-only scan.** `TestScan` is the scanner; `PrintedScan` prints attributes,
  visibilities and items in any layout and proves what the scanner makes of them.
- **Staleness.** A build is a phase machine over the files of the package.
  Between any two phases grammar.js may be edited, files may vanish, a hash or a
  write may fail, and the build may be cut. `BuildScript.Package` is the script
  itself, and each of its executions is a run of that machine. Hash functions
  and the generator are parameters; different contents are taken to hash
  differently.
  `StalenessLimits.SoundToolsExist` shows that such functions exist.
- **Waiter.** Time is `real`, sleeps are exact, and each round's answers and
  durations are an arbitrary function of the round's number.

## Where the code and its own text disagree

The model follows the code; each of these is a proved lemma.

- `scripts/assert-module-scc.py:17-20` says that moving one listed import breaks
  a grown SCC. `Ratchet.OneImportBreaksIff` is the exact condition: it is the only
  import of its edge, and the edge is the only way from its source to its target.
  `Ratchet.OneImportMayNotBreak` and `Ratchet.OneOfTwoDoesNotBreak` fail one half
  of it each. Moving all of them does work (`Ratchet.DeletingClosingImports`).
- `scripts/jobserver-balancer.py:607` states that the merge baseline exceeds the
  task baseline. `Jobserver.MergeFavouredIff`: exactly from three tokens on.
- `scripts/jobserver-balancer.py:481-485` allows for one lost token at shutdown.
  That holds exactly when all tokens but one fit into a pipe
  (`JobserverRuns.AtMostOneLostIff`); in general a stopping burst can lose every
  token that does not fit, and no run loses more (`JobserverRuns.LossIff`,
  `JobserverRuns.ShutdownDiscards`).
- `tree-sitter-reify/build_support.rs:540-543` argues that a crash between the
  two stamps leaves a grammar stamp with no manifest. The old manifest is still
  there. Any number of cuts is harmless unless a generation begins on a
  half-written pair (`StalenessRuns.StampsNeverLie`); then the stamps can lie
  (`StalenessLimits.TwoCutsLie`), exactly when the pair is not coherent
  (`StalenessLimits.CutsLieIff`), which the two stamps tell
  (`Staleness.CoherentIff`).
- `tree-sitter-reify/build.rs:189-200` holds that re-hashing grammar.js catches an
  edit during generation. An edit that is undone is not caught
  (`StalenessLimits.UndoneEditLies`); the pair written is coherent exactly when
  the consumed and the stamped grammar generate the same
  (`Staleness.WrittenPairIff`).
- `tree-sitter-reify/build_support.rs:376-423`: `needs_generate` never reads the
  grammar stamp beside the outputs. Two output directories, or one cut between
  the stamp pair and the output directory's stamp, make it answer no for outputs
  of another grammar (`Staleness.TwoOutDirsMislead`,
  `StalenessLimits.OneCutMisleads`). `Staleness.QuietFitsIff` says exactly when
  the answer is right, for every disk.
- `scripts/reify_overlap_detector.py:52-55` calls the reverse closure a superset
  of the compile closure, so that it never under-reports. A dependency chain that
  leaves the workspace and comes back (`Closures.DetourEscapes`) or ends in an
  outside package with a member's name (`Closures.TwinEscapes`) breaks that.
  `Closures.IncludedIff` is the exact condition.
- `scripts/workspace-feature-union.py:385-400` does not look at the union crate's
  own edges, so a union crate that build-depends on itself is not reported
  (`HostUnion.SelfBuildingEscapes`, `HostUnion.NoFindingIffClean`). Cargo rejects
  such a package.
- `scripts/workspace-feature-union.py:195-209` reads the line of a path package
  back exactly when its path has no bracket and no bar
  (`CargoTreeLine.PackageRecoveredIff`); a bracket right before a bar makes it
  accept the line with the wrong features (`CargoTreeLine.MisreadLine`).

## Model

| member | source | states |
|---|---|---|
| `Tarjan.TarjanSccs` | scripts/assert-module-scc.py:597-629 | for every finite graph and every visiting order: exactly the mutual-reachability components of two or more nodes, each node visited once |
| `Tarjan.Finder.Visit` | scripts/assert-module-scc.py:605-624 | one visit keeps the search invariant; either the node's component is popped or its low link is the number of an older stack node it reaches, and no edge of the new stack part lands lower |
| `Tarjan.Finder.Follow` | scripts/assert-module-scc.py:609-614 | one successor: visited, or compared by number if on the stack, keeping the loop invariant |
| `Tarjan.Finder.Finish` | scripts/assert-module-scc.py:615-624 | pops a component exactly when low link equals number |
| `Tarjan.Finder.PopThrough` | scripts/assert-module-scc.py:616-622 | pops exactly the stack nodes numbered at or after the given one |
| `Tarjan.SegmentIsScc` | scripts/assert-module-scc.py:615-624 | the popped segment is a whole component |
| `Digraph.LargeScc` | scripts/assert-module-scc.py:597-598 | no component of two or more nodes lies outside the graph, so the reference set misses none |
| `Ratchet.CleanIffEqual` | scripts/assert-module-scc.py:638-659 | `compare` reports nothing iff the measured SCCs equal the baseline rows |
| `Ratchet.StaleIffShrunk` | scripts/assert-module-scc.py:652-658 | a row is STALE iff no measured SCC contains it any more |
| `Ratchet.GrownListsImports` | scripts/assert-module-scc.py:643-651 | every GREW component lists at least one import |
| `Ratchet.DeletingClosingImports` | scripts/assert-module-scc.py:643-651 | without the listed imports, every SCC that meets the component lies inside it and inside one baseline row |
| `Ratchet.ListedIsLeastCut` | scripts/assert-module-scc.py:643-651 | the edges listed under a GREW component are the least cut that leaves among its modules only edges inside baseline rows |
| `Ratchet.RowsAreSpared` | scripts/assert-module-scc.py:639-650 | no edge between two modules of one row is listed |
| `Ratchet.ListedSites` | scripts/assert-module-scc.py:645-651 | every listed import is a site of the graph inside the component, and with an edge all its sites are listed |
| `Ratchet.StaleRemains` | scripts/assert-module-scc.py:652-658 | a STALE line shows exactly the components left inside its row; modules of the row that still reach each other are in one of those or in a GREW component |
| `Ratchet.OneEdgeBreaksIff` | scripts/assert-module-scc.py:17-20 | deleting a whole edge breaks the component iff its source no longer reaches its target |
| `Ratchet.OneImportBreaksIff` | scripts/assert-module-scc.py:17-20 | moving one listed import breaks the component iff its edge has no other import and is the only way from its source to its target |
| `Ratchet.OneImportMayNotBreak` | scripts/assert-module-scc.py:17-20 | on three mutually importing modules with no baseline `compare` lists a -> b under GREW, and moving that import leaves the component whole |
| `Ratchet.OneOfTwoDoesNotBreak` | scripts/assert-module-scc.py:17-20 | of two imports a -> b both are listed and the edge is the only way to b, yet moving either leaves the component whole |
| `Ratchet.SccsDisjoint` | scripts/assert-module-scc.py:597-629 | measured components are pairwise disjoint and have two or more modules |
| `Baseline.BaselineRow` | scripts/assert-module-scc.py:165-181 | rows are accepted iff they are pairwise disjoint lists of two or more distinct names, and load as those sets |
| `Baseline.LoadBaseline` | scripts/assert-module-scc.py:184-205 | a document is accepted iff schema, exclusions and all rows are valid, and loads as its table |
| `Baseline.LoadedRows` | scripts/assert-module-scc.py:165-205 | whatever loads has disjoint rows for every crate |
| `Baseline.RenderBaseline` | scripts/assert-module-scc.py:662-671 | builds the document for every measurement: crates with components only, each component in order, components in order |
| `Baseline.PrintedLoads` | scripts/assert-module-scc.py:662-671 | the printed document is accepted and loads as what was measured |
| `Baseline.PrintedChecksClean` | scripts/assert-module-scc.py:692-712 | print, then check the same graphs: every crate reports nothing |
| `ModuleScc.Measure` | scripts/assert-module-scc.py:692-697 | an input error iff the baseline does not load or does not suit the workspace; otherwise the workspace's packages are exactly the excluded and the measured ones, each measured by its components |
| `ModuleScc.Check` | scripts/assert-module-scc.py:692-716 | the check command is clean iff the measured SCCs of every crate equal its rows |
| `ModuleScc.PrintBaseline` | scripts/assert-module-scc.py:692-700 | the print command writes the baseline of the current measurement |
| `ModuleScc.PrintThenCheck` | scripts/assert-module-scc.py:13-14 | checking what print wrote is clean, for every workspace and every usable old baseline |
| `Cfg.SplitCfgArgs` | scripts/assert-module-scc.py:418-429 | the character loop computes the depth-0 arguments |
| `Cfg.ArgsRecovered` | scripts/assert-module-scc.py:418-429 | splitting a printed argument list, with or without a trailing comma, gives back the printed arguments |
| `Cfg.Decides` | scripts/assert-module-scc.py:432-445 | on printed predicates the text procedure decides the structural condition |
| `Cfg.CfgSound` | scripts/assert-module-scc.py:432-445 | for every layout: if the answer is True, every configuration satisfying the predicate has `test` set, even when blanked values make different options look alike |
| `Cfg.CfgExact` | scripts/assert-module-scc.py:432-445 | on predicates without negation or empty `any` the answer is True iff all satisfying configurations have `test` set |
| `TestScan.MatchingClose` | scripts/assert-module-scc.py:316-324 | the first return to balance, or proof that there is none |
| `TestScan.OuterAttributes` | scripts/assert-module-scc.py:448-458 | exactly the attributes that follow each other at the offset, up to where none follows |
| `TestScan.ItemEnd` | scripts/assert-module-scc.py:466-483 | the first of: the parent's closer, the item's last token, the end of the text |
| `TestScan.ItemStaysInside` | scripts/assert-module-scc.py:466-483 | an item never runs past its parent's closer |
| `TestScan.AfterAttribute` | scripts/assert-module-scc.py:496-514 | the scan resumes after a test-only item, with the module it would declare, or after a run none of whose attributes is test-only |
| `TestScan.ScanTestOnly` | scripts/assert-module-scc.py:486-515 | terminates on every text; spans are non-empty, ordered and disjoint; each is a test-only item; every attribute outside them is in a run that is not test-only; the modules are exactly those the spans declare where no brace outside the skipped stretches is open |
| `PrintedScan.CfgContentIff` | scripts/assert-module-scc.py:461-463 | an attribute's content is read as a cfg predicate exactly when it is `cfg ( ... )` with white space around its parts |
| `PrintedScan.OtherWordIsNoCfg` | scripts/assert-module-scc.py:461-463 | no content whose first word is another is taken for a cfg |
| `PrintedScan.PathContentReads` | scripts/assert-module-scc.py:503-511 | a blanked path attribute is recognised in any layout |
| `PrintedScan.KeywordsRead` | scripts/assert-module-scc.py:392-395 | the scan takes a word for an item keyword exactly when it is one of the listed item forms; fields and variants have none |
| `PrintedScan.ItemEnds` | scripts/assert-module-scc.py:466-483 | a printed item, keyword or field, with balanced brackets inside, ends at its semicolon, body, comma or parent's closer |
| `PrintedScan.SourceScanned` | scripts/assert-module-scc.py:486-515 | for every printed run of attributes and item between any two texts: one span from the run to the item's end iff some cfg predicate admits test builds only, and the module it declares, with its path attribute, iff no brace is open before it |
| `PrintedScan.ScanSource` | scripts/assert-module-scc.py:486-515 | the scanner, run on such source, returns that |
| `TestScan.BisectRight` | scripts/assert-module-scc.py:413-415 | the number of spans starting at or before the offset |
| `TestScan.Covers` | scripts/assert-module-scc.py:413-415 | looking at one span answers whether any span contains the offset |
| `TestScan.InTestOnlyText` | scripts/assert-module-scc.py:406-415 | scan and bisect together: the answer equals the linear search, for every text |
| `Jobserver.ReachableInv` | scripts/jobserver-balancer.py:689-787 | in every interleaving: tokens in pools, with consumers, held back, in hand and lost add up; 0 <= held_back <= limit, and held_back > 0 after the pressure stage only at or above the release threshold; with pipes that hold all tokens nothing is lost, retried or crashed |
| `Jobserver.ControlConserves` | scripts/jobserver-balancer.py:306-327 | each controller step conserves tokens |
| `Jobserver.ControlReserves` | scripts/jobserver-balancer.py:238-279 | each controller step keeps the reservoir's bound and its release rule |
| `Jobserver.ControlLossless` | scripts/jobserver-balancer.py:436-518 | with enough capacity no step reaches a lossy exit of the transfer |
| `Jobserver.MergeSideNeverShrinks` | scripts/jobserver-balancer.py:282-303 | over any stretch of ticks that each sense merge 0-free or read pressure at or above release, merge free plus merge held never shrinks |
| `Jobserver.GivebackBlocked` | scripts/jobserver-balancer.py:282-303 | nothing is given back while tokens are held back or pressure is read; wherever the controller decides the first implies the second |
| `Jobserver.MergeFavouredIff` | scripts/jobserver-balancer.py:606-614 | the baseline favours merge iff there are three or more tokens; the task pool is a quarter |
| `JobserverRuns.QuietTick` | scripts/jobserver-balancer.py:694-784 | an undisturbed idle tick runs to its end, empties the reservoir, and resets to the baseline once the idle window is over |
| `JobserverRuns.TickEnds` | scripts/jobserver-balancer.py:694-787 | left alone, a tick in progress ends, whatever counts it carries |
| `JobserverRuns.QuietConverges` | scripts/jobserver-balancer.py:571-578 | from any reachable state with idle consumers and low pressure the tick in progress ends, and IDLE_RESET_TICKS ticks later the pools equal the baseline |
| `JobserverRuns.RestingStays` | scripts/jobserver-balancer.py:571-578 | at the baseline a controller step moves no token |
| `JobserverRuns.RestingForever` | scripts/jobserver-balancer.py:571-578 | over any quiet run from there the pools never move again |
| `JobserverRuns.BusyTick` | scripts/jobserver-balancer.py:580-591 | an undisturbed tick with tokens held gives a dry merge pool all task tokens, and a dry task pool all of merge but epsilon |
| `JobserverRuns.PressureStage` | scripts/jobserver-balancer.py:698-738 | at the hold threshold every free task token there is room for is absorbed; between the thresholds none |
| `JobserverRuns.PressedTick` | scripts/jobserver-balancer.py:689-787 | a whole undisturbed tick at or above the release threshold: what the stage absorbs, when time counts as idle, and that a dry merge pool gets every task token left, an idle box moves back towards the baseline, and nothing leaves the merge side |
| `JobserverRuns.OffIgnoresPressure` | scripts/jobserver-balancer.py:698-738 | with the stage switched off the reading makes no difference |
| `JobserverRuns.ShutdownDiscards` | scripts/jobserver-balancer.py:470-518 | with smaller pipes a shutdown in a burst loses every token that does not fit |
| `Jobserver.ReachableLossBound` | scripts/jobserver-balancer.py:436-518 | in every run at most the tokens that do not fit into one pipe are lost |
| `JobserverRuns.LossIff` | scripts/jobserver-balancer.py:436-518 | for every n, no run loses more than n tokens iff all but n fit into a pipe, or the pipes cannot be seeded |
| `JobserverRuns.AtMostOneLostIff` | scripts/jobserver-balancer.py:481-485 | at most one token is lost iff a pipe holds all but one |
| `JobserverRuns.LosslessIff` | scripts/jobserver-balancer.py:436-518 | none is lost iff a pipe holds all of them |
| `Closures.NormalClosure` | scripts/reify_path_attribution.py:181-191 | the mark-on-pop worklist finds exactly what is reachable |
| `Closures.CompileClosure` | scripts/reify_path_attribution.py:148-205 | exactly the members whose test compilation reaches a seed; fails iff such a member has no package record |
| `Closures.CompileNamesIff` | scripts/reify_path_attribution.py:165-205 | a member is named iff recorded dependencies lead from it to a package with a seed's name, the first of kind normal, build or dev, the later ones normal or build |
| `Closures.ReverseReach` | scripts/reify_overlap_detector.py:113-120 | the mark-on-push worklist finds exactly what is reachable |
| `Closures.ReverseClosure` | scripts/reify_overlap_detector.py:83-122 | the names of the members that depend on a seed through members |
| `Closures.ReverseNamesIff` | scripts/reify_overlap_detector.py:97-122 | a member is named iff recorded dependencies of any kind lead from it, through members only, to a package with a seed's name |
| `Closures.MembersIncludedIff` | scripts/reify_overlap_detector.py:52-55 | whatever compiles a member depends on it through members, iff every chain that leaves the workspace and returns is matched by dependent members |
| `Closures.IncludedIff` | scripts/reify_overlap_detector.py:52-55 | the compile closure is inside the reverse closure for all seeds naming members, iff every chain that leaves the workspace and ends in a member or under a member's name is matched from that member |
| `Closures.CompileInsideReverse` | scripts/reify_path_attribution.py:148-205 | it is so when only members depend on members and every package with a seed's name is a member |
| `Closures.DetourEscapes` | scripts/reify_overlap_detector.py:83-122 | a package outside the workspace between two members breaks the inclusion |
| `Closures.TwinEscapes` | scripts/reify_overlap_detector.py:83-122 | an outside package with a member's name breaks it too, though only members depend on members |
| `Overlap.Detector.ClosureMembers` | scripts/reify_overlap_detector.py:222-243 | the cache keeps the first successful load; a failed load or a seed missing from the closure fails wide |
| `Overlap.Detector.FootprintOf` | scripts/reify_overlap_detector.py:192-220 | the footprint of the changed paths under the metadata in use, and when the loader is asked |
| `Overlap.OverlapIff` | scripts/reify_overlap_detector.py:192-257 | for any loader outcomes, changesets overlap iff neither is empty and one is global or cannot look up a seed, or they share a path without seed, or both touch a crate: by unioning it in or by changing what it depends on through members |
| `Overlap.DependentOverlaps` | scripts/reify_overlap_detector.py:222-257 | a change to a package and a change to a member that depends on it through members overlap |
| `Overlap.SharedPathOverlaps` | scripts/reify_overlap_detector.py:192-257 | changesets that share a path overlap, whatever the graph and whatever the loader does on either call |
| `Overlap.RefinesDefault` | scripts/reify_overlap_detector.py:245-257 | whatever the textual detector calls an overlap, this one does too |
| `Overlap.AddingPathsKeepsOverlap` | scripts/reify_overlap_detector.py:192-257 | for one loader outcome more changed paths never undo an overlap |
| `CargoTree.SplitPrefix` | scripts/workspace-feature-union.py:188-192 | the number of leading indentation tokens, and the rest |
| `CargoTreeLine.PackageRecovered` | scripts/workspace-feature-union.py:195-209 | a printed package line reads back as its package: name, version, proc-macro, path source and features |
| `CargoTreeLine.PackageRecoveredIff` | scripts/workspace-feature-union.py:195-209 | for any source, the line reads back iff the source is a path without bracket and bar; git and other sources are rejected; when a line is accepted at all |
| `CargoTreeLine.MisreadLine` | scripts/workspace-feature-union.py:195-209 | a path with a bracket right before a bar: the line is accepted as another package |
| `CargoTree.ParseTree` | scripts/workspace-feature-union.py:212-241 | the loop with its ancestry stack computes the line-by-line reading, errors included |
| `CargoTree.HeaderLineIff` | scripts/workspace-feature-union.py:225-233 | a bracketed line is accepted iff it is one of the two headers and a package stands at its depth |
| `CargoTree.PackageLineIff` | scripts/workspace-feature-union.py:234-240 | a package line is accepted iff it reads as a package and is no deeper than the ancestry; then it adds that package |
| `CargoTree.AfterBlankLine` | scripts/workspace-feature-union.py:219-222 | after a blank line only a root is accepted |
| `CargoTree.PrintedForestReads` | scripts/workspace-feature-union.py:168-241 | every printed forest is accepted and gives exactly its registry variants, on the host side iff proc-macro, below a host parent or in a build section |
| `HostUnion.HostUnionFindings` | scripts/workspace-feature-union.py:385-400 | one finding for exactly the edges that bring the union or a covered member onto the host side |
| `HostUnion.NoFindingIffClean` | scripts/workspace-feature-union.py:362-400 | no finding (and no self-building union) iff no path from a proc-macro member or a build-dependency, along normal and build edges, reaches the union or a covered member |
| `HostUnion.SelfBuildingEscapes` | scripts/workspace-feature-union.py:385-400 | a union crate that build-depends on itself is on the host side without a finding |
| `Strata.LoadStrata` | scripts/assert-crate-strata.py:221-249 | accepted iff names are distinct and every stratum names only earlier ones |
| `Strata.Classify` | scripts/assert-crate-strata.py:252-261 | accepted iff no package is listed twice; then every package maps to its stratum |
| `Strata.CleanIff` | scripts/assert-crate-strata.py:428-468 | no finding iff workspace and classified packages agree and the exceptions are the rule-breaking edges |
| `Strata.ReportedIff` | scripts/assert-crate-strata.py:449-468 | which packages are reported unclassified or stale, and against which rules each edge without exception is reported |
| `Strata.CleanPackages` | scripts/assert-crate-strata.py:105-116 | after a clean check what a package depends on without exception lies in its stratum or one it may depend on, inside the targets of every only-rule and outside those of every other rule it is a source of |
| `Strata.CleanExceptions` | scripts/assert-crate-strata.py:428-468 | a kept exception is an edge that lies wrong |
| `Strata.CyclesStayInOneStratum` | scripts/assert-crate-strata.py:428-468 | after a clean check a dependency cycle without excepted edges lies in one stratum |
| `Manifest.RenderManifest` | tree-sitter-reify/build_support.rs:268-279 | one line per entry, stably sorted by path |
| `Manifest.StableSortUnique` | tree-sitter-reify/build_support.rs:269-270 | any stable sort by path gives the same order |
| `Manifest.ParseManifest` | tree-sitter-reify/build_support.rs:289-312 | the line loop computes the all-or-nothing reading |
| `Manifest.ParseIff` | tree-sitter-reify/build_support.rs:289-312 | a text parses as given entries iff its lines are those entries printed, all legal, at least one |
| `Manifest.RoundTrip` | tree-sitter-reify/build_support.rs:268-312 | parsing a rendered manifest gives the entries sorted by path, iff there is one and all are legal |
| `Manifest.CarriageReturnsRead` | tree-sitter-reify/build_support.rs:289-312 | a manifest with carriage returns before its newlines reads the same |
| `Manifest.SameNames` | tree-sitter-reify/build_support.rs:354-366 | the three name tests accept exactly the permutations of the expected names |
| `Manifest.ManifestMatches` | tree-sitter-reify/build_support.rs:342-374 | true iff the manifest parses, lists each expected output exactly once, and every hash is the file's hash now |
| `Manifest.FreshAttestsIff` | tree-sitter-reify/build_support.rs:319-329 | a fresh manifest holds of exactly the files with the hashes it was made from |
| `Manifest.TornManifest` | tree-sitter-reify/build_support.rs:282-312 | a proper prefix attests something iff it lacks only the final newline and the whole would |
| `BuildScript.Package.NeedsGeneration` | tree-sitter-reify/build_support.rs:396-423 | answers no iff outputs and headers exist, the output directory's stamp names this grammar, the files hash and the manifest holds |
| `BuildScript.Package.ShellStampIsCurrent` | tree-sitter-reify/build_support.rs:465-496 | true iff outputs and headers exist, the grammar stamp names this grammar, the files hash and the manifest holds |
| `BuildScript.Package.WriteShellStamps` | tree-sitter-reify/build_support.rs:549-581 | neither stamp when an output does not hash; otherwise the first, then the second, stopping at a write that fails |
| `BuildScript.Package.Build` | tree-sitter-reify/build.rs:159-227 | with any hashes and writes failing and any edits around the generation, every execution is a run of the phase machine; undisturbed, it leaves the specified disk |
| `BuildScript.BuiltWithIsRun` | tree-sitter-reify/build.rs:159-227 | whatever happens during it, one build is a run of the phase machine |
| `Staleness.BuiltSettles` | tree-sitter-reify/build.rs:159-227 | after a finished build the next `needs_generate` answers no, and a second build changes nothing |
| `Staleness.BuiltCoherent` | tree-sitter-reify/build.rs:168-221 | a finished build keeps the stamp pair coherent, repairs any pair when it generates, and then the outputs fit the grammar |
| `Staleness.BuiltIsUsable` | tree-sitter-reify/build_support.rs:396-423 | after a finished build outputs and headers are there, and the test never says no without them |
| `Staleness.PaddedStampsServe` | tree-sitter-reify/build_support.rs:411-496 | stamps with white space around the hash serve both tests |
| `Staleness.CoherentIff` | tree-sitter-reify/build_support.rs:532-547 | a pair whose first stamp names a grammar is coherent iff its manifest holds of that grammar's outputs, or of nothing |
| `Staleness.WrittenPairIff` | tree-sitter-reify/build.rs:189-203 | the pair a build writes is coherent iff the consumed and the stamped grammar generate the same |
| `Staleness.QuietFitsIff` | tree-sitter-reify/build_support.rs:396-423 | on every disk, a negative `needs_generate` is right iff the manifest also holds of what the current grammar generates |
| `Staleness.QuietFitsByStamp` | tree-sitter-reify/build_support.rs:396-423 | with a coherent pair, it is right iff the stamped and the current grammar generate the same |
| `Staleness.TwoOutDirsMislead` | tree-sitter-reify/build_support.rs:396-423 | two output directories over one source directory: a negative answer for the wrong outputs |
| `Staleness.OneOutDirIsHonest` | tree-sitter-reify/build.rs:159-227 | one output directory and only finished builds: a negative answer is always right, for every sequence of grammars |
| `StalenessRuns.StepKeeps` | tree-sitter-reify/build.rs:168-227 | every step, edit, loss, failure and cut keeps the protocol invariant |
| `StalenessRuns.StampsNeverLie` | tree-sitter-reify/build.rs:168-227 | in every run from a coherent pair, with any number of cuts anywhere, and no edit undone during generation that changes the outputs: unless a generation began on a half-written pair, the stamps call the outputs current only if they are the grammar's |
| `StalenessRuns.UndisturbedBuild` | tree-sitter-reify/build.rs:159-227 | left alone for nine steps or more, the phase machine has done the specified build, with a whole pair if it generated |
| `StalenessLimits.CutsLieIff` | tree-sitter-reify/build_support.rs:532-581 | from an idle disk, generations cut before their grammar stamp can make the stamps lie iff the pair is not coherent |
| `StalenessLimits.EditsLieIff` | tree-sitter-reify/build_support.rs:532-581 | without a generation, edits and losses can make them lie iff the headers are there and the pair vouches for the outputs under a grammar that does not generate them |
| `StalenessLimits.TwoCutsLie` | tree-sitter-reify/build_support.rs:549-581 | a cut between the stamps and then a cut generation: the stamps vouch for another grammar's outputs |
| `StalenessLimits.UndoneEditLies` | tree-sitter-reify/build.rs:178-203 | an edit undone while the generator runs passes the second hash and leaves lying stamps |
| `StalenessLimits.OneCutMisleads` | tree-sitter-reify/build.rs:201-226 | one cut before the output directory's stamp misleads `needs_generate`, even with one output directory |
| `Waiter.AwaitLanding` | scripts/await-merge-landing.py:154-182 | ends with the first terminal round or the first round over budget; no round starts after the budget; polls <= ceil(budget / interval) + 1; exactly which answers give each verdict, attributed or not; the last reply and each probe's last error |
| `Waiter.LastReplyIff` | scripts/await-merge-landing.py:172-173 | the reply kept is that of the last round that had one |
| `Waiter.LastErrorIff` | scripts/await-merge-landing.py:174-174 | the error kept of a probe is that of the last round it failed in |
| `Waiter.StartInBudget` | scripts/await-merge-landing.py:154-182 | rounds start within the budget, a whole interval apart except for the last |
| `Waiter.BoundIsReached` | scripts/await-merge-landing.py:154-182 | probes that answer at once and settle nothing use exactly the allowed number of polls |
| `Waiter.DeadlineMetIff` | scripts/await-merge-landing.py:508-517 | whatever probes do within their timeouts the process ends before the host's deadline, iff printing fits into the slack and the host's timeout covers start-up, one round and printing |
| `Waiter.LastRoundFits` | scripts/await-merge-landing.py:600-617 | the wait ends within budget plus one round |

## Left out

- Report text: the rendered lines of all scripts; the model keeps what they report.
- The awk lexer, TOML and JSON decoding, globbing and `attribute`: the model starts from lexed text, parsed documents and path facts.
- Module graphs: collecting imports from files (`module_graph`, `referenced_modules`).
- White space in patterns is ASCII white space for the Python scripts; identifiers are ASCII.
- `Cfg.CfgSound`: speaks of predicate texts that print some predicate; texts that are no predicate have no meaning to be sound for.
- Key order in the printed baseline: JSON objects are maps.
- Resolving test-only modules to files (`test_module_files`).
- `Closures.IncludedIff`: requires what cargo guarantees, that members have package records and distinct names.
- `Cfg.CfgExact`: with negations a False answer can be too cautious, as on `not(not(test))`; deciding those is propositional satisfiability, and False only keeps text in.
- `Ratchet.CleanIffEqual`: reports are sets, so the order of report lines is not modelled.
- FIFO creation, FIONREAD, signals, owner stamps, the held-back file and environment parsing of the balancer; a write of many bytes to a pipe without room for all of them is modelled as a crash.
- Tokens in the merge pool under concurrent consumption may drop below epsilon; only undisturbed ticks are claimed to keep it.
- `Closures.CompileClosure`: package ids map to one record each, so repeated records in the metadata are not modelled.
- `CargoTree.ParseTree`: takes the text as its lines; how text splits into lines is not modelled.
- `coverage_findings`, `grown`, `converge` and manifest rendering of the feature union: filters, and loops that depend on cargo's resolver.
- Rules and exceptions of the strata table are taken as loaded; resolving their package sets is not modelled.
- `sha256_of`'s retries: a hash succeeds or fails, at any step of a build.
- Atomic stamp writes: a stamp is written or not; two builds of one package at the same time are not modelled.
- HTTP sessions and git commands of the waiter; a probe is an answer with a duration. Clock readings between the probes take no time.
- The Rust CAD engine, its grammar and all measurement and census scripts.
