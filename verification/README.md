# OpenThesis: verified models

Dafny models of the algorithmic core of OpenThesis, a deterministic-testing platform: failure
shrinking, the compose-file reader and dependency sort, the Monte Carlo search tree, coverage
tracking, and the directed-choice, frontier and fault-selection bookkeeping of the explorer.

`dafny verify dfyconfig.toml` checks everything.

| file | component |
|---|---|
| `Common.dfy` | shared vocabulary |
| `ParentLinks.dfy` | when a walk along parent links ends |
| `Subsequence.dfy`, `Shrink.dfy` | ancestry bisection and delta debugging of fault schedules |
| `ShrinkRuns.dfy` | what cancellation and oracle errors do to a shrinking run |
| `FaultDescent.dfy` | delta debugging against a well-behaved oracle: result and question counts |
| `Ancestry.dfy` | the read-only shrink endpoint over recorded parent links |
| `YamlText.dfy`, `YamlParser.dfy` | the compose YAML reader: scanner, tokeniser, recursive descent |
| `YamlRoundTrip.dfy`, `YamlLayout.dfy` | a block printer and the proof that the reader undoes it |
| `YamlScalars.dfy` | what inline text reads as, and the lines that are rejected |
| `YamlSkips.dfy` | lines that carry nothing |
| `YamlIndent.dfy` | what the reader does with lines at unexpected indentations |
| `Compose.dfy`, `ComposeOrder.dfy` | dependency sort of services, and the order dependencies leave open |
| `Mcts.dfy` | search tree: register, select, backpropagate |
| `KeyOrder.dfy` | sorted listings of assertion keys |
| `Coverage.dfy`, `CoverageTracker.dfy` | coverage state machine on values, and the object that implements it |
| `CoverageRuns.dfy` | what a tracker holds after any run, read off the operations |
| `Kcov.dfy` | the guest's trace fold |
| `InputTree.dfy` | directed enumeration of choices |
| `Frontier.dfy` | frontier heap, trimming, staleness decay |
| `Adaptive.dfy` | bandit over fault kinds |

How the models are built:

- Code that updates state in place is a class or a method with loops, proved to compute a
  specification function or relation; the theorems are lemmas about that specification.
- The outside world enters as parameters. An oracle's answer and the cancellation flag may depend on
  the number of questions asked so far, so one `Oracle` value is one arbitrary run with flaky answers,
  errors and cancellation at any moment. Random draws, the UCB1 score and exploration bonus, slot
  hashes, flow-collection decoding and Go's string unquoting are arbitrary functions.
- `float64` is `real`. 64-bit counters are unbounded except where wrap-around shows: entry ages
  (64 bit), per-edge hit counts (32 bit) and bitmap bytes (saturating) are written out.

Where the code and its comments disagree the code is modelled:

- "No proper subset of it also reproduces" (`internal/debugger/shrink.go:3-6`) is not guaranteed.
  `Shrink.MinimalIffTrapFree` gives the exact condition for a schedule and everything below it. Only schedules
  of at most two events, or of one event three times, are minimised whatever the oracle
  (`FaultDescent.AlwaysIrreducibleIff`). `Shrink.MonotoneMinimal` is the monotone case, where only the
  never-tried empty schedule can remain, and `Shrink.TrapExample` a run that returns four events although one
  suffices.
- "The earliest ancestor from which the violation is still reachable" (`internal/debugger/shrink.go:66`)
  needs agreeing probes: `Shrink.EarliestIff`, with `Shrink.EarliestCanBeMissed` as the counterexample. With
  the endpoint's read-only oracle a reproducing target is shrunk to the head of its path unless the request is
  cancelled (`Ancestry.EndpointAnswer`).
- `newEdges` is described as counting bucket transitions (`internal/explorer/coverage.go:362`); a slot
  counts once, on its first hit. An update counts all its transitions exactly when no slot that was hit
  before changes bucket (`Coverage.NewEdgesAreTransitionsIff`, over whole runs `Coverage.NewEdgesOverRun`);
  `Coverage.TransitionNotCounted` hits one slot twice. The rarity score is a plain count of first hits
  (`Coverage.RarityIsFirstHits`).
- "NewEdges() - CorpusEdgeCount()" (`internal/explorer/coverage.go:516-517`) is the number of edges beyond
  the corpus exactly when the corpus edges equal the new edges counted before the import; `totalEdges -
  corpusEdges` always is (`Coverage.EdgesBeyondCorpus`).
- A block sequence at the indentation of its key, which section 8.2.3 of YAML 1.2.2 permits, is never read
  as the key's value: a sequence below a key is read back exactly when it is indented deeper
  (`YamlIndent.SequenceReadIffDeeper`). At the top of a document the sequence is ignored without an error
  (`YamlIndent.TopSequenceIgnored`); below another key, or in a mapping begun on a dash line, the document is
  rejected (`YamlIndent.NestedSequenceRejected`, `YamlIndent.DashUnindentedRejected`). `YamlIndent.TopLeftover`
  says, for any lines, what can be ignored that way.
- "Called when a new snapshot is created" (`internal/explorer/mcts.go:72-73`) suggests parents come first; the
  code accepts any order. Ids registered before their parents can close a loop that a backpropagation never
  leaves (`Mcts.OrphansCanLoop`); `ParentLinks.EndsIff` says exactly when a walk ends.

## Model

| member | source | states |
|---|---|---|
| `Shrink.ShrinkPath` | internal/debugger/shrink.go:77-144 | the bisection loop, all error and cancellation exits included, returns the snapshot, round count and failure flag of its specification, keeping the answer equal to path[hi] |
| `Shrink.PathSearchSafe` | internal/debugger/shrink.go:94-135 | on every run an answer other than the original snapshot was confirmed by the oracle, at most 1 + ceil(log2(len)) questions are asked, and failure is reported exactly for an error on the first question |
| `Shrink.CeilLog2Meaning` | internal/debugger/shrink.go:19-20 | the bound's logarithm is the least exponent whose power of two reaches the length |
| `Shrink.EarliestIff` | internal/debugger/shrink.go:108-135 | with a deterministic oracle the earliest reproducing snapshot is returned if and only if every probe the bisection makes beyond it is accepted; monotone oracles always qualify |
| `Shrink.PathBoundary` | internal/debugger/shrink.go:108-135 | with any deterministic oracle the answer reproduces and its predecessor on the path does not |
| `ShrinkRuns.PathHeeds` | internal/debugger/shrink.go:81-114 | no snapshot is tried after a cancellation or after a first answer other than yes, and none at all on a path of one |
| `ShrinkRuns.PathCancelled` | internal/debugger/shrink.go:110-135 | a run cancelled before question c makes the questions of the uncancelled run up to c and no more, equals it if that suffices, and otherwise stops no earlier on the path |
| `ShrinkRuns.PathErrors` | internal/debugger/shrink.go:116-123 | errors change snapshot and rounds no more than a plain no would |
| `Shrink.EarliestCanBeMissed` | internal/debugger/shrink.go:65-76 | a path and oracle for which an earlier reproducing snapshot is missed |
| `Shrink.Ddmin` | internal/debugger/shrink.go:212-269 | the recursive minimiser with its two loops returns the schedule and the round count of its specification, changing only the round count |
| `Shrink.ShrinkFaults` | internal/debugger/shrink.go:169-207 | schedule, rounds and both fault counts on the empty, rejected, failing and accepted paths |
| `ShrinkRuns.FaultsHeed` | internal/debugger/shrink.go:169-269 | no schedule is tried after a cancellation or after a first answer other than yes; a cancellation after the first question returns the schedule itself after one round, and so does a single event |
| `ShrinkRuns.FaultsCancelled` | internal/debugger/shrink.go:230-248 | a run cancelled before question c makes the questions of the uncancelled run up to c and no more, equals it if that suffices, and otherwise returns a schedule the uncancelled run reduces further |
| `ShrinkRuns.FaultErrors` | internal/debugger/shrink.go:234-255 | errors change schedule and rounds no more than a plain no would |
| `Shrink.HalvesSplit` | internal/debugger/shrink.go:225-228 | the halves make up the schedule and differ by at most one event |
| `Shrink.ShrinkFaultsSound` | internal/debugger/shrink.go:169-269 | on every run the result is an order-preserving subsequence, is the original or was accepted by the oracle, is empty only for an empty schedule, and costs at most 1 + (n*n + 5n - 6)/2 oracle calls |
| `Shrink.CallBoundTight` | internal/debugger/shrink.go:225-265 | for every schedule some run makes exactly that many calls; its answers change from call to call, and by `FaultDescent.DeterministicBound` no well-behaved oracle is asked as many from four events on |
| `Shrink.OneMinimal` | internal/debugger/shrink.go:209-269 | on a well-behaved run the result reproduces and no single event can be removed from a result of two or more |
| `FaultDescent.CallIsDescent` | internal/debugger/shrink.go:169-269 | against a well-behaved oracle one call returns the end of the descent that takes the first accepted candidate (halves, then single removals) at each schedule, and asks one question plus the candidates tried |
| `FaultDescent.DeterministicBound` | internal/debugger/shrink.go:212-269 | a well-behaved oracle is asked at most 1 + (n*n + 5n - 6)/2 - (n/2 - 1) questions, for every schedule of two or more events |
| `FaultDescent.DeterministicBoundTight` | internal/debugger/shrink.go:225-265 | for every schedule of distinct events some well-behaved oracle is asked exactly that many |
| `FaultDescent.AlwaysIrreducibleIff` | internal/debugger/shrink.go:3-6 | for a non-empty schedule, every well-behaved oracle that accepts it gets a result no non-empty proper subsequence of which reproduces, if and only if the schedule has at most two events or three times the same one |
| `Shrink.MinimalIffTrapFree` | internal/debugger/shrink.go:3-6 | no proper subset of any result at or below a schedule reproduces if and only if no schedule there is reducible yet stuck for every single step tried |
| `Shrink.TrapIsKept` | internal/debugger/shrink.go:225-268 | a reducible schedule whose halves and one-event removals are all rejected is returned unchanged |
| `Shrink.MonotoneMinimal` | internal/debugger/shrink.go:3-6 | for a monotone oracle no proper non-empty subsequence of the result reproduces, and none at all if and only if the empty schedule does not |
| `Shrink.TrapExample` | internal/debugger/shrink.go:225-268 | a concrete oracle for which four events are returned although one of them alone reproduces |
| `Ancestry.BuildIndex` | internal/api/sessions.go:334-338 | exactly the recorded ids are indexed, each by its last record |
| `Ancestry.WalkEndsIff` | internal/api/sessions.go:369-383 | the walk that looks for a snapshot ends if and only if no chain of parent links from its start comes back before it has met that snapshot; self-parents are not followed |
| `Ancestry.GrowingDepthsEnd` | internal/api/sessions.go:340-353 | depths that grow from parent to child make both walks end |
| `ParentLinks.EndsIff` | internal/explorer/mcts.go:160-172 | a walk along single links ends if and only if no walk from its start meets a node twice |
| `Ancestry.BuildAncestryPath` | internal/api/sessions.go:333-359 | walking and reversing gives the root-to-target path, whenever the walk ends |
| `Ancestry.Reverse` | internal/api/sessions.go:354-357 | the two-index swap loop reverses the path |
| `Ancestry.PathShape` | internal/api/sessions.go:340-353 | the path is empty exactly for an unknown target, ends in the target, follows parent links, starts at a self-parent, a zero parent or an unrecorded parent, and no other element is a self-parent or has a zero parent |
| `Ancestry.IsViolationReachableFrom` | internal/api/sessions.go:363-386 | the nested walk over all violating snapshots decides reachability, whenever each walk meets the sought snapshot or ends |
| `Ancestry.OracleMeaning` | internal/api/sessions.go:361-386 | the oracle is true exactly when some violating snapshot has the given one as itself or an ancestor by a chain of parent links |
| `Ancestry.ReachabilityInherited` | internal/api/sessions.go:279-283 | every element of the built path is reachable if the target is |
| `Ancestry.EndpointAnswer` | internal/api/sessions.go:272-285 | composed search: a target that does not reproduce is returned itself, one that does is shrunk to the head of its path when not cancelled, and under any cancellation the answer still reproduces |
| `Ancestry.AcyclicSettles` | internal/api/sessions.go:272-285 | violating snapshots whose parent chains never come back settle every question of the search |
| `Ancestry.HandleSessionShrink` | internal/api/sessions.go:272-298 | the endpoint's response, whenever the path and each question asked can be walked: no path exactly for an unknown target, otherwise a path element with the guarantees above and logarithmic rounds |
| `YamlText.FindCommentStart` | internal/container/yaml.go:73-92 | the index loop finds the first comment mark outside quotes |
| `YamlText.ScanFinds` | internal/container/yaml.go:73-92 | a comment starts at the first '#' outside quotes that begins the line or follows a blank or tab, a key ends at the first ':' outside quotes that ends the line or precedes one, and there is none exactly when the line has none |
| `YamlText.TokenizeLine` | internal/container/yaml.go:36-65 | one raw line is skipped, rejected for a tab, or kept with its indentation and trimmed content |
| `YamlText.TokenizeYaml` | internal/container/yaml.go:33-68 | the line loop computes the token list or the first tab error |
| `YamlText.CollapsedDoubled` | internal/container/yaml.go:503-506 | undoubling inverts doubling of apostrophes for every string |
| `YamlParser.Reader.SplitKey` | internal/container/yaml.go:284-311 | the quote-aware loop splits key and rest, or reports an empty key or a missing colon |
| `YamlParser.Parser.ParseBlock` | internal/container/yaml.go:125-137 | computes the block function on the remaining lines, terminates on any lines, never moves the cursor back |
| `YamlParser.Parser.ParseNestedBlock` | internal/container/yaml.go:182-188 | a strictly deeper block or null, same cursor guarantees |
| `YamlParser.Parser.ParseValue` | internal/container/yaml.go:161-176 | nested block or inline scalar after a key |
| `YamlParser.Parser.ParseEntry` | internal/container/yaml.go:155-176 | one key line and its value, consuming at least that line |
| `YamlParser.Parser.ParseMap` | internal/container/yaml.go:140-178 | the mapping loop, with its indentation and key errors |
| `YamlParser.Parser.ParseSeq` | internal/container/yaml.go:193-280 | the sequence loop, with its indentation error |
| `YamlParser.Parser.ParseItem` | internal/container/yaml.go:206-278 | bare dash, mapping on the dash line, or inline scalar |
| `YamlParser.Parser.ParseMoreEntries` | internal/container/yaml.go:239-268 | the loop that absorbs further entries of a mapping begun on a dash line |
| `YamlParser.ParseYamlTree` | internal/container/yaml.go:98-108 | tokenise, handle no lines, parse the top block |
| `YamlRoundTrip.ScanTok` | internal/container/yaml.go:73-92 | a printed plain or quoted token is passed over by both scans; plain ones may contain colons before and hashes after a visible character |
| `YamlRoundTrip.TokUnquotes` | internal/container/yaml.go:326-353 | every string, plain or single-quoted, is recovered as a key and as a scalar |
| `YamlRoundTrip.SplitKeyPrinted` | internal/container/yaml.go:284-311 | splitting a printed key line gives back the key and the inline text |
| `YamlRoundTrip.EntriesRead` | internal/container/yaml.go:140-178 | reading printed entries gives their values, last one winning, and stops at the lines after them, both in a mapping and below a dash line |
| `YamlRoundTrip.ItemReads` | internal/container/yaml.go:206-278 | reading a printed item in either layout gives its value and stops right after it |
| `YamlRoundTrip.BlockReads` | internal/container/yaml.go:125-280 | reading a printed block at any indentation, followed by anything shallower, gives its tree and consumes exactly its lines |
| `YamlLayout.LineSurvives` | internal/container/yaml.go:36-65 | a printed line with any trailing blanks, comment or carriage return tokenises to its indentation and content |
| `YamlLayout.TokenizeRaw` | internal/container/yaml.go:33-68 | printed lines tokenise to themselves, numbered from one |
| `YamlLayout.TreeOfRows` | internal/container/yaml.go:98-108 | reading printed rows with any trailing comments is parsing those rows as the top block |
| `YamlLayout.RoundTrip` | internal/container/yaml.go:98-108 | reading the printed text of any document returns its tree and leaves no line, for every layout choice and every trailing comment, with strings plain wherever the scanner allows it |
| `YamlLayout.EveryTreeReadsBack` | internal/container/yaml.go:98-108 | every tree of non-empty collections, one-line strings and nulls, with a collection at the top, has such a document |
| `YamlRoundTrip.OnlyWritable` | internal/container/yaml.go:98-108 | documents denote no other trees |
| `YamlScalars.PlainHasNoKey` | internal/container/yaml.go:296-311 | no colon of a plain text ends a key, so it starts no mapping |
| `YamlScalars.PlainReads` | internal/container/yaml.go:206-278 | a plain text reads as that string as an item, with or without a blank after the dash, and after any key |
| `YamlScalars.PortMappingReads` | internal/container/yaml.go:293-300 | the item 8080:80 is a string |
| `YamlScalars.MissingColonRejected` | internal/container/yaml.go:155-160 | a plain text where a key is due is an error with its line number |
| `YamlScalars.EmptyKeyRejected` | internal/container/yaml.go:301-304 | so is a line that begins with its colon, which after a dash is no mapping |
| `YamlScalars.NullSpellings` | internal/container/yaml.go:348-352 | text is null exactly in the four spellings, or as a flow collection decoded so |
| `YamlScalars.FlowReads` | internal/container/yaml.go:332-342 | bracketed text is decoded by the library as a whole, also as an item, and a refusal is an error with the line number |
| `YamlScalars.DoubleQuotesRead` | internal/container/yaml.go:343-347 | a double-quoted text is what the library makes of it, or itself if refused |
| `YamlScalars.OtherTextReads` | internal/container/yaml.go:326-357 | any other text is the string it is |
| `YamlScalars.ScanDouble` | internal/container/yaml.go:73-92 | neither scan stops inside double quotes, escaped quotes included |
| `YamlScalars.DoubleQuotedDocument` | internal/container/yaml.go:98-108 | a key with any well-escaped double-quoted value and any trailing comment reads as that string |
| `YamlSkips.BlankSkipped` | internal/container/yaml.go:39-49 | a line of blanks and tabs with or without a comment is skipped |
| `YamlSkips.MarkerSkipped` | internal/container/yaml.go:59-63 | a document marker is skipped at any indentation and with any trailer |
| `YamlSkips.TabRefused` | internal/container/yaml.go:50-53 | a visible line that starts with a tab is refused |
| `YamlSkips.FirstTabReported` | internal/container/yaml.go:35-53 | the first such line is the one reported |
| `YamlSkips.SkippedAnywhere` | internal/container/yaml.go:33-108 | a skipped line put anywhere into any text changes neither the tree nor the cause of an error |
| `YamlSkips.NothingReads` | internal/container/yaml.go:103-105 | a text of skipped lines only is an empty mapping |
| `YamlIndent.SequenceReadIffDeeper` | internal/container/yaml.go:161-188 | a printed sequence below a key is read as its value if and only if it is indented deeper; otherwise the key gets null and all its lines are left |
| `YamlIndent.UnindentedSequenceLeft` | internal/container/yaml.go:150-188 | a mapping whose only key has its sequence in the key column gives null and leaves all lines from the sequence on |
| `YamlIndent.NestedUnindentedRejected` | internal/container/yaml.go:147-188 | below an outer key that layout is an error naming the line of the sequence and both indentations |
| `YamlIndent.DashUnindentedRejected` | internal/container/yaml.go:193-280 | so it is in a mapping begun on a dash line |
| `YamlIndent.TopLeftover` | internal/container/yaml.go:98-137 | on any lines, what the top block leaves unread starts in column zero, with an item after a mapping or without a dash after a sequence |
| `YamlIndent.LeftoverRejected` | internal/container/yaml.go:147-149 | whatever an entry leaves over deeper than its mapping is an error there |
| `YamlIndent.TopSequenceIgnored` | internal/container/yaml.go:98-108 | a document of one key with its printed sequence in column zero reads as null for that key, without an error |
| `YamlIndent.NestedSequenceRejected` | internal/container/yaml.go:98-188 | the same under another key is rejected at its third line |
| `YamlIndent.OverIndentedRejected` | internal/container/yaml.go:147-149 | a deeper line after an inline entry is an error with that line number and both indentations |
| `Compose.Sorter.VisitName` | internal/container/compose.go:309-324 | the recursive visit updates visited set and result as specified and terminates on any graph |
| `Compose.TopologicalSort` | internal/container/compose.go:300-330 | the whole sort computes its specification |
| `Compose.IndexByName` | internal/container/compose.go:301-304 | exactly the names of the list are indexed, each with its last service |
| `Compose.VisitKeeps` | internal/container/compose.go:309-324 | a visit extends the result, keeps the set of open services, and orders each new service after its dependencies or on a cycle with them |
| `Compose.SortedComplete` | internal/container/compose.go:299-330 | on any graph each name is listed exactly once with its own record, and each known dependency precedes its dependent unless they share a cycle |
| `Compose.SortedIsPermutation` | internal/container/compose.go:299-330 | with distinct names the result is a permutation of the services |
| `Compose.OrderIffAcyclic` | internal/container/compose.go:299-330 | the result is a dependency order if and only if the known services have no cycle |
| `Compose.TransitiveOrder` | internal/container/compose.go:299-330 | without cycles every direct or transitive dependency comes before its dependents |
| `ComposeOrder.SortedIsExpansion` | internal/container/compose.go:299-330 | without cycles the result is each service written out after the expansions of its dependencies, later repetitions dropped |
| `ComposeOrder.AcyclicRanked` | internal/container/compose.go:299-330 | services without a cycle have the ranking that makes the expansion well-defined |
| `ComposeOrder.InOrderIsFixed` | internal/container/compose.go:326-330 | a list already in dependency order is returned as it is, so independent services keep their order |
| `Mcts.Selector.constructor` | internal/explorer/mcts.go:54-70 | a new tree is the registered root alone; the conservation invariant holds and the tree is fit for selection |
| `Mcts.Selector.RegisterNode` | internal/explorer/mcts.go:74-92 | registration as specified for any arguments, keeping the tree fit for selection; under a registered parent the conservation invariant is kept |
| `Mcts.Selector.CreditPath` | internal/explorer/mcts.go:160-172 | the parent walk credits exactly the nodes it passes, each once, whenever it ends, orphans included |
| `Mcts.Selector.Backpropagate` | internal/explorer/mcts.go:156-177 | a known id credits the nodes its climb passes and nothing else, an unknown id changes nothing; both invariants are kept |
| `Mcts.ClimbIsLineage` | internal/explorer/mcts.go:160-172 | in a tree every climb ends and passes exactly the nodes from the id to the root |
| `Mcts.OrphansCanLoop` | internal/explorer/mcts.go:74-92 | two nodes registered before their parents for which a climb never ends |
| `Mcts.Selector.ArgMax` | internal/explorer/mcts.go:121-139 | the scoring loop finds the first child of highest score at the visits of its parent |
| `Mcts.EveryUnvisitedDrawn` | internal/explorer/mcts.go:107-118 | every unvisited child is selected by some draw |
| `Mcts.UnvisitedInOrder` | internal/explorer/mcts.go:107-113 | unvisited children are listed in registration order |
| `Mcts.Selector.Select` | internal/explorer/mcts.go:96-142 | on any world reached by registrations and backpropagations, orphans included: terminates; each descent passes a visited node with all children visited to its first best child, and ends at a childless node or the drawn unvisited child |
| `Mcts.RegisterLinked` | internal/explorer/mcts.go:78-91 | registering a new node keeps the tree a tree if and only if its parent is registered |
| `Mcts.RegisterInv` | internal/explorer/mcts.go:74-92 | registration keeps both statements of conservation |
| `Mcts.BackpropInv` | internal/explorer/mcts.go:156-172 | backpropagation keeps both statements of conservation |
| `Mcts.RunConserves` | internal/explorer/mcts.go:43-44 | after every run that registers nodes under known parents each node's visits and reward are those of its own backpropagations plus its children's, and equally those of all backpropagations started in its subtree; every climb ends |
| `Mcts.RunSound` | internal/explorer/mcts.go:74-177 | after every run, orphans included, children link back to their parent, were registered later unless a node is its own child, and have no more visits than it |
| `Mcts.RunRegisters` | internal/explorer/mcts.go:74-92 | after every run a node other than the root is there exactly when it was registered, with the parent and depth of its first registration |
| `Mcts.InvSound` | internal/explorer/mcts.go:96-142 | conservation makes a tree fit for selection |
| `Mcts.RootTotals` | internal/explorer/mcts.go:154-172 | the root's visits and reward are the number and the sum of all backpropagations |
| `Mcts.VisitedParent` | internal/explorer/mcts.go:123-126 | once all children are visited the parent has visits, so the zero guard never fires |
| `Mcts.SelectedMeaning` | internal/explorer/mcts.go:94-118 | the selected node is childless or nothing below it has been visited, along child links in any world and over the whole subtree in a tree |
| `Kcov.KcovState.FlushTrace` | cmd/openthesis-init/kcov.go:417-458 | a flush folds the announced counters, clamped to capacity, into bitmap and bridge, and clears the count word; for a buffer that holds a burst that is the delivery of this burst |
| `Kcov.KcovState.CountEdge` | cmd/openthesis-init/kcov.go:448-455 | one saturating edge count, skipped without a predecessor |
| `Kcov.KcovState.Reset` | cmd/openthesis-init/kcov.go:349-367 | reset zeroes the count word, the bitmap and the bridge |
| `Kcov.AnnouncedIsDelivered` | cmd/openthesis-init/kcov.go:422-426 | what a buffer announces of a burst is the burst, or its first entries if it overflows |
| `Kcov.EdgeGivesNext` | cmd/openthesis-init/kcov.go:449 | the edge word and the earlier counter determine the later one |
| `Kcov.EdgeGivesPrevious` | cmd/openthesis-init/kcov.go:449 | the edge word and the later counter determine the earlier one but for its lowest bit |
| `Kcov.BoundariesVanish` | cmd/openthesis-init/kcov.go:434-458 | flushing in bursts cut anywhere, each within capacity, equals one fold of the whole trace |
| `Kcov.SameTraceSameCoverage` | cmd/openthesis-init/kcov.go:434-438 | two ways of cutting one trace leave the same bitmap and bridge |
| `Kcov.SlotsCountEdges` | cmd/openthesis-init/kcov.go:446-457 | after a reset each slot is min(255, adjacent pairs with non-zero first counter mapped to it), and the bridge is the last counter |
| `Kcov.BurstsCountEdges` | cmd/openthesis-init/kcov.go:428-458 | the same count for any cutting into bursts |
| `Kcov.OverflowTruncates` | cmd/openthesis-init/kcov.go:422-426 | a burst beyond capacity loses its tail and the next burst bridges from the last delivered counter |
| `Coverage.HitSlotKeeps` | internal/explorer/coverage.go:100-136 | one reported edge keeps the invariant, is new exactly on the slot's first hit, and then adds exactly one to totals and rarity |
| `Coverage.UpdateAnswer` | internal/explorer/coverage.go:95-138 | Update reports new coverage exactly for a first hit in range; HasNewEdge was then true, and the two differ exactly when only bucket changes occur |
| `Coverage.UpdateCounts` | internal/explorer/coverage.go:95-138 | an update raises total edges, new edges and rarity by the number of slots it hits for the first time |
| `Coverage.NewEdgesAreTransitionsIff` | internal/explorer/coverage.go:95-138 | new edges grow by the number of bucket transitions if and only if no slot hit before changes bucket, and by less otherwise |
| `Coverage.TransitionNotCounted` | internal/explorer/coverage.go:355-365 | a slot hit twice makes two transitions and is counted once |
| `Coverage.NewEdgesOverRun` | internal/explorer/coverage.go:95-138 | the same equivalence for all updates of a run together |
| `Coverage.ApplyKeeps` | internal/explorer/coverage.go:150-305 | every operation keeps the invariant; outside reset and import, total and new edges grow alike, a bitmap reset zeroes both, only an import sets the corpus baseline, to the total; only updates raise the rarity |
| `Coverage.RunKeeps` | internal/explorer/coverage.go:95-514 | in every reachable state a slot is virgin exactly when its count is zero, the edge total counts the non-zero slots, and hit slots have counts |
| `CoverageRuns.SlotsOverRun` | internal/explorer/coverage.go:95-514 | after every run each slot holds min(255, reports and imports since the last bitmap reset), or 1 where only a novel hashed signal marked it, and is virgin exactly when that is zero |
| `CoverageRuns.HitsOverRun` | internal/explorer/coverage.go:115-116 | a slot hit count is the number of updates since the last bitmap reset that reported it, modulo 2^32 |
| `CoverageRuns.MaximaOverRun` | internal/explorer/coverage.go:168-174 | after every run a name has a maximum exactly when some signal or corpus carried it, and then the greatest value carried; resets keep it |
| `CoverageRuns.NovelIffExceeds` | internal/explorer/coverage.go:168-174 | a value is novel exactly when it exceeds every earlier one of its name, imported ones included |
| `CoverageRuns.AssertionsOverRun` | internal/explorer/coverage.go:218-226 | an assertion is seen exactly when some report or corpus mentioned it |
| `CoverageRuns.CountersOverRun` | internal/explorer/coverage.go:150-283 | the step counters count the novel signals since the last reset, and the assertion count all first reports |
| `Coverage.HitBucketSteps` | internal/explorer/coverage.go:391-412 | buckets change exactly at counts 1, 2, 3, 4, 8, 16, 32 and 128 |
| `Coverage.BucketHolds` | internal/explorer/coverage.go:524-544 | a positive value lies in its bucket of size 1, 10, 100, 1000 or 10000 |
| `Coverage.RarityIsFirstHits` | internal/explorer/coverage.go:257-283 | the rarity score is exactly the sum, over the updates since the last reset, of the slots each hits for the first time |
| `Coverage.UpdatesClosed` | internal/explorer/coverage.go:95-138 | after any updates of a fresh tracker a slot is min(255, total reported) and both edge counters count the slots hit |
| `Coverage.OrderIrrelevant` | internal/explorer/coverage.go:95-138 | permuting the updates changes neither the bitmap nor the edge counters |
| `Coverage.ImportExport` | internal/explorer/coverage.go:439-514 | importing an export into a fresh tracker of that size restores bitmap, virgin map, totals, maxima and assertions with nothing new |
| `Coverage.ExportDetermined` | internal/explorer/coverage.go:442-472 | a tracker has one export: its assertion keys are listed in sorted order |
| `KeyOrder.ListingUnique` | internal/explorer/coverage.go:454-462 | a set of keys has one sorted listing |
| `KeyOrder.LessMeaning` | internal/explorer/coverage.go:454-462 | the order of keys is that of the first difference, a proper prefix first |
| `KeyOrder.SortKeys` | internal/explorer/coverage.go:454-462 | lists exactly the given keys, each once, in ascending order |
| `Coverage.EdgesBeyondCorpus` | internal/explorer/coverage.go:474-522 | from an import until the next reset or import, total minus corpus edges is the growth of new edges; the documented difference equals it if and only if the corpus edges equal the new edges before the import |
| `CoverageTracking.CoverageTracker.HitOne` | internal/explorer/coverage.go:104-135 | the in-place slot update performs the specified step and reports novelty |
| `CoverageTracking.CoverageTracker.UpdateEdges` | internal/explorer/coverage.go:95-138 | the loop performs the whole update and returns whether some slot is hit for the first time |
| `CoverageTracking.CoverageTracker.AnyNewEdge` | internal/explorer/coverage.go:328-353 | true exactly when an in-range report hits an unhit slot or moves a slot to another bucket |
| `CoverageTracking.CoverageTracker.UpdateGuidance` | internal/explorer/coverage.go:150-190 | explore signals are novel exactly on a virgin slot, maximize signals exactly on a first or larger value, unknown ones never; the state changes as specified and keeps the invariant |
| `CoverageTracking.CoverageTracker.RecordSignal` | internal/explorer/coverage.go:155-166 | a signal marks its slot and is novel exactly when the slot was virgin |
| `CoverageTracking.CoverageTracker.RecordMaximum` | internal/explorer/coverage.go:168-187 | a value is novel exactly when it is the first or exceeds the maximum, and is then stored (over runs: `CoverageRuns.MaximaOverRun`) |
| `CoverageTracking.CoverageTracker.RecordAssertionNovelty` | internal/explorer/coverage.go:218-239 | a key is novel exactly when not seen before |
| `CoverageTracking.CoverageTracker.ResetStepNovelty` | internal/explorer/coverage.go:276-283 | only the step counters are cleared |
| `CoverageTracking.CoverageTracker.ResetCoverage` | internal/explorer/coverage.go:291-305 | arrays, edge counters and step counters start over; maxima, assertions and corpus baseline stay |
| `CoverageTracking.CoverageTracker.ImportCorpus` | internal/explorer/coverage.go:478-514 | merges bitmap, maxima and assertions and sets the baseline |
| `CoverageTracking.CoverageTracker.Export` | internal/explorer/coverage.go:442-472 | the corpus carries the version, both edge counts, the bitmap, the maxima and the seen assertions in sorted order |
| `InputTree.Tracker.RecordFromSnapshot` | internal/explorer/input_tree.go:73-80 | a non-empty sequence is appended to its snapshot's history, other histories stay |
| `InputTree.Tracker.NextOverrides` | internal/explorer/input_tree.go:87-126 | nil exactly when there is no history or every multi-way position is exhausted; otherwise forces only the least incomplete position to its least untried index |
| `InputTree.Tracker.CollectTried` | internal/explorer/input_tree.go:96-105 | the nested loops collect exactly the tried indices of each position |
| `InputTree.ExhaustedMeaning` | internal/explorer/input_tree.go:107-125 | exhausted means that every index of every multi-way position of the reference was taken there |
| `InputTree.DirectedLoopEnds` | internal/explorer/input_tree.go:82-126 | with overrides honoured and reference choices in range there are at most sum(total - 1) rounds, and a run that uses all of them has tried every index |
| `InputTree.IgnoredOverrideRepeats` | internal/explorer/input_tree.go:107-124 | a run that shows nothing new is asked for the same branch again |
| `Frontier.Heap.Up` | internal/explorer/frontier.go:37-54 | sifting up restores heap order, keeps the entries and their index fields |
| `Frontier.Heap.Down` | internal/explorer/frontier.go:37-48 | sifting down restores the order below a slot, keeps the entries, index fields and the slots beyond the range |
| `Frontier.Heap.Push` | internal/explorer/frontier.go:50-54 | exactly the new entry is added to a valid heap |
| `Frontier.Heap.Pop` | internal/explorer/frontier.go:38-64 | nothing exactly on an empty frontier; otherwise removes an entry such that every other has a lower score, or the same score and no smaller id, and clears its index |
| `Frontier.Heap.Trim` | internal/explorer/frontier.go:114-147 | partitions the entries into n kept and the rest dropped, every kept one with a higher score than every dropped one, or the same score and no larger id; returns the dropped ids in ranking order and restores heap order and indices |
| `Frontier.PopFrontierHeap` | internal/explorer/explorer.go:715-734 | nothing exactly on an empty frontier; otherwise at most three stale entries, each of highest score and least id at its turn, are decayed and put back, then one such entry leaves; the ids and creation steps of the remaining entries and the returned one are, as a multiset, those there were |
| `Frontier.DecaysConserve` | internal/explorer/explorer.go:718-731 | any sequence of decays keeps the multiset of ids with creation steps |
| `Frontier.StaleMeaning` | internal/explorer/explorer.go:724-725 | stale is more than 50 steps old in unsigned 64-bit arithmetic |
| `Frontier.DecayMeaning` | internal/explorer/explorer.go:726 | decay takes a tenth off the score and keeps the rest |
| `Frontier.SortRanked` | internal/explorer/frontier.go:120-134 | sorting ranks by descending score, then ascending id, and is a permutation |
| `Adaptive.FaultSelector.Select` | internal/fault/adaptive.go:80-122 | empty kind without arms; the drawn unpulled arm if any; otherwise the first arm of highest score |
| `Adaptive.BestByReward` | internal/fault/adaptive.go:100-121 | the chosen arm has at least the reward of any arm with as many pulls, and in general leads in average, in units of the maximum, by at least the other bonus lead |
| `Adaptive.ScoreNormalised` | internal/fault/adaptive.go:101-115 | scores are at most one plus the bonus, reached by the best average |
| `Adaptive.EveryZeroKindDrawn` | internal/fault/adaptive.go:88-98 | every unpulled kind is selected by some draw |
| `Adaptive.ZeroKindsInOrder` | internal/fault/adaptive.go:88-94 | unpulled kinds are listed in the order of the kinds |
| `Adaptive.FaultSelector.RecordReward` | internal/fault/adaptive.go:177-192 | updates one known arm, the total and the running maximum average (over lists of rewards: `Adaptive.RewardsRecorded`, `Adaptive.MaximumReached`) |
| `Adaptive.RewardsRecorded` | internal/fault/adaptive.go:177-187 | after any rewards each arm has its pulls plus the number of rewards naming it and its reward plus their sum, base rates stay, and the total grows by the known ones |
| `Adaptive.MaximumReached` | internal/fault/adaptive.go:189-192 | the running maximum is the larger of its start value and the greatest average an arm reached |
| `Adaptive.FaultSelector.WarmStart` | internal/fault/adaptive.go:242-264 | the loop over saved records performs the specified seeding |
| `Adaptive.WarmArm` | internal/fault/adaptive.go:245-259 | an arm gets half the pulls of the last record that names it, at least one, with its average |
| `Adaptive.WarmKeepsOthers` | internal/fault/adaptive.go:245-252 | an arm no record names is unchanged, and base rates never change |
| `Adaptive.WarmMaximum` | internal/fault/adaptive.go:260-262 | the maximum becomes the larger of its start value and the greatest effective saved average |
| `Adaptive.NormalisedAtMostOne` | internal/fault/adaptive.go:101-113 | an arm's normalised exploitation is at most one |
| `Adaptive.WarmStartCounts` | internal/fault/adaptive.go:242-264 | a warm start bounds every average, and the total equals the sum of pulls if and only if each effective record names a different, unpulled arm |
| `Adaptive.WarmStartAverages` | internal/fault/adaptive.go:253-258 | such a warm start gives each named arm half its saved pulls, at least one, and exactly its saved average |
| `Adaptive.RunTotals` | internal/fault/adaptive.go:177-264 | the same two guarantees after any rewards following a warm start |
| `Adaptive.ZeroArmsFirst` | internal/fault/adaptive.go:88-98 | in alternating select and reward rounds each unpulled arm is chosen exactly once before any pulled arm is |

## Left out

- Virtual machines, network, guest agent, HTTP routing, CLI, dashboard, stores and webhooks.
- JSON decoding, `flowToJSON`, `parseFlow` and compose field extraction: flow collections enter as an arbitrary function.
- `strconv.Unquote`: double-quoted escapes enter as an arbitrary function, and the printer writes no double quotes.
- Text that is not valid UTF-8: the reader model works on Unicode scalar values.
- Per-thread trace buffers, uprobe and Go coverage merging, the fallback without a shared bitmap, and sending only changed bitmaps.
- Regret or eventual selection under UCB1, floating-point rounding, and wrap-around of 64-bit visit and pull counters.
- `SelectMultiple`, `Rates`, `AllStats`, and the plain accessors of every component.
- Sorting of fault kinds: the selector is given its kinds in order.
- FNV hashing: slot positions are an arbitrary function of the signal, and a bitmap hash is a function of the bitmap alone.
- `RecordSequence` and the hash set of seen sequences.
- Wall-clock durations, logging and locks.
- Frontier.Heap.Pop: entries are values, so sharing of one entry between the heap and other holders is not modelled; scoring fields other than score, id and creation step are dropped.
- Frontier.Heap.Trim: the library sort is modelled by an insertion sort, one of the outcomes its contract allows when scores and ids tie.
- Frontier.PopFrontierHeap: decay is not claimed to lower priority, because a negative score rises when multiplied by 0.9.
- Mcts.Selector.Backpropagate: requires the climb to end, because on any other the source loops forever.
- Ancestry.BuildAncestryPath: requires the walk from the target to end, because on any other the source loops forever.
- Ancestry.IsViolationReachableFrom: requires the walk from every violating snapshot to meet the sought one or to end, because otherwise the source loops forever in some iteration order of the violating set.
- Ancestry.HandleSessionShrink: requires the same of each snapshot its search asks about, and that the walk from the target ends.
- CoverageTracking.CoverageTracker.ImportCorpus: takes a corpus; the nil corpus, which changes nothing, is not a separate case.
