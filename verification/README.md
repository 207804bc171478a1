# Verified model of the audit, backup and cutover scripts

The repository guards itself with scripts: audits that fail a commit when a dependency graph, a
provider lane or a count of known defects grows, a backup tool that seals a database capture and
proves that it restores, and a gate that decides whether a table may be switched over to being
computed from its event log. This project models what those scripts decide and proves what the
decisions are worth. Files are independent of the repository's build; `dafny verify dfyconfig.toml`
checks all of them.

## Components

- **Dependency graphs.** `Graph` defines reachability and strongly connected components, `SccSearch`
  is the recursive index/low-link/stack search over mutable state, proved to list exactly the
  nontrivial components. On top of it, `DependencyRatchet` proves that comparing two dependency
  snapshots accepts exactly when no owner pair grew, `CycleCatalog` proves which owner edges a clean
  catalog report covers, and `RuntimeLanes` proves that a traversal that shares its visited set
  across roots agrees with one search per root, because of the order in which the roots are listed.
- **Source lexers.** `TemplateScanner` relates the single-pass scanner to a recursive grammar of nested
  templates, `CommentLexers` relates two independently written comment lexers to one mask and to each
  other, `CommentGrammar` to a grammar that covers every text, `FunctionSpans` proves that recorded
  brace spans are laminar.
- **Backup parity.** `TableDigest` (streaming digest), `TypeChain` (type resolution over a possibly
  cyclic catalog), `RelationKey`, `JsonReading`, `Ordering` and `DatabaseParity` (manifest comparison),
  `BackupCapture` (keeper process and sealing, as a state machine whose environment may act between
  any two steps), `KeeperHistory` and `CaptureEvidence` (the keeper and the capture over whole
  histories), `BackupRestore` (phase machine, receipt parser and sealing; the world is a record of what
  each step would do, so every combination of failures is a run) and `DrillMeaning` (when a drill
  succeeds and a receipt parses, written out).
- **Event-sourcing gate.** `GenesisBackfill` is the per-row seeding of genesis events, interruptible at
  every row, `CutoverGate` the backfill, audit, rebuild and survival steps, and `GateMeaning` what both
  leave behind, written out.
- **Catalog snapshot.** `JsonBraces` (string-aware brace matcher), `JsonLayout` (the two-space layout),
  `CatalogSplice` (the script's text functions), `CatalogLayout` (what they do to laid-out snapshots)
  and `CatalogGenerated` (a full run writes such a snapshot).
- **Count budgets.** `CountBudgets` is the per-key counting loop, the budgets under renames and the
  totals over chains of commits.

`Wrappers` holds the option type, `TextSearch` occurrences of one string in another. Methods are the
scripts' loops and state changes; each is proved against a specification function or predicate, and
the lemmas are about those.

## Reading the model

- Sorting of outputs is replaced by sets or by lists without repetition where the order carries no
  meaning; where the scripts iterate a set in sorted order the model picks elements in any order, so
  the results hold for every order.
- An edge written as `from -> to` in one string is a pair of names; a count map is a finite map.
- A file, process, clock or database step is a parameter or an arbitrary choice: `faults` and `World`
  say what goes wrong, `parses` is the parse barrier, `heads` says which brace a function head precedes.
- A hash is represented by what is hashed, so equal digests mean equal bytes by assumption of a
  collision-free hash, and a canonical serialisation by its input.
- `SccSearch.Search` is one search object whose fields are the script's local maps, stack and lists.

## Where code and documentation differ

- `collectIntraSccEdges` (scripts/audit-architecture-deepening.ts:283-287) is documented as keeping edges
  inside one component. It keeps every edge whose ends are both in some nontrivial component.
  `CycleCatalog.BridgeIsKept` is a concrete graph where the two differ, `CycleCatalog.KeptOffCycleIff`
  says exactly which kept edges lie on no cycle.
- The shared traversal of composition roots is right only because open roots come first.
  `RuntimeLanes.BlockingRootFirstLosesAPath` shows the loss in the other order.

## Model

| member | source | states |
|---|---|---|
| `SccSearch.NontrivialSccs` | scripts/audit-capability-boundaries.ts:609-658 | for every list of dependency edges the result lists exactly the mutual-reachability classes with more than one member, each once, pairwise disjoint |
| `SccSearch.FindComponents` | scripts/audit-capability-boundaries.ts:654-657 | started from every unvisited node in turn, the searches leave the stack empty and the nontrivial components complete |
| `SccSearch.BuildGraph` | scripts/audit-capability-boundaries.ts:610-617 | an edge adds itself and both its ends as nodes; an edge with an empty end adds nothing |
| `SccSearch.Search.Connect` | scripts/audit-capability-boundaries.ts:626-652 | from any state that satisfies the search invariant, a call keeps it, terminates, and either pops the node's whole component or leaves the node on the stack with a low link to an older stack node it reaches |
| `SccSearch.Search.Visit` | scripts/audit-capability-boundaries.ts:633-640 | handling one successor: recurse if unvisited, take its index if it is on the stack, ignore it otherwise |
| `SccSearch.Search.PopComponent` | scripts/audit-capability-boundaries.ts:643-651 | popping down to the node removes exactly its component and reports it when it has company |
| `SccSearch.SegmentIsScc` | scripts/audit-capability-boundaries.ts:642-650 | when a node's index equals its low link, the stack from that node up is its strongly connected component, nothing more and nothing less |
| `SccSearch.PushKeepsInv` | scripts/audit-capability-boundaries.ts:627-631 | entering a node keeps the search invariant |
| `SccSearch.RetireKeepsInv` | scripts/audit-capability-boundaries.ts:642-642 | leaving a node whose low link is older keeps the search invariant |
| `SccSearch.PopKeepsInv` | scripts/audit-capability-boundaries.ts:643-651 | popping and reporting a component keeps the search invariant |
| `SccSearch.ScanChild` | scripts/audit-capability-boundaries.ts:634-636 | after the recursive call the smaller low link again names a stack node the parent reaches |
| `SccSearch.NothingLeftOnStack` | scripts/audit-capability-boundaries.ts:654-656 | with no call running the stack is empty |
| `SccSearch.AllSettled` | scripts/audit-capability-boundaries.ts:654-658 | after the last top-level call the reports are exactly the nontrivial components |
| `Graph.SccsEqualOrDisjoint` | scripts/audit-architecture-deepening.ts:236-281 | two components share a member only if they are the same |
| `Graph.ReachMono` | scripts/audit-capability-boundaries.ts:774-788 | adding edges never removes a path |
| `Graph.ReachIffChain` | scripts/audit-capability-boundaries.ts:609-658 | reachability is a chain of edges |
| `Graph.TogetherIffCycle` | scripts/audit-capability-boundaries.ts:609-658 | two nodes are reported in one component exactly when listed edges between named nodes lead from each to the other |
| `DependencyRatchet.SummarizeDependencies` | scripts/audit-capability-boundaries.ts:668-735 | the counts per owner pair are the numbers of dependencies of each category, the totals their sums, the cycles the nontrivial components of the cross-capability value edges |
| `DependencyRatchet.PairsAreCounted` | scripts/audit-capability-boundaries.ts:676-702 | for each of the six categories, written out by layer, platform module, entrypoint, owner and kind, a pair counts as often as dependencies meet the condition |
| `DependencyRatchet.CyclesMean` | scripts/audit-capability-boundaries.ts:609-723 | two capabilities are in one reported cycle exactly when value imports between different named capabilities lead from each to the other |
| `DependencyRatchet.CompareCounts` | scripts/audit-capability-boundaries.ts:740-765 | no violation exactly when every pair and the total are at or below their ceilings |
| `DependencyRatchet.CompareDependencySnapshot` | scripts/audit-capability-boundaries.ts:790-816 | an unsupported ceiling is the only violation; otherwise the report holds exactly the pairs and totals above their ceilings and the components no ceiling component contains, and it is empty exactly when every check passes |
| `DependencyRatchet.GrownComponents` | scripts/audit-capability-boundaries.ts:767-788 | the components reported as grown are exactly those of two or more nodes that lie inside no such component of the ceiling |
| `DependencyRatchet.WithinIffFewer` | scripts/audit-capability-boundaries.ts:740-765 | counts stay below a ceiling pair by pair exactly when no pair has more dependencies |
| `DependencyRatchet.SccsShrinkWithEdges` | scripts/audit-capability-boundaries.ts:774-788 | with fewer edges every nontrivial component lies inside one of the larger graph |
| `DependencyRatchet.GrownEmptyIff` | scripts/audit-capability-boundaries.ts:774-788 | no component is reported exactly when each lies inside a ceiling component |
| `DependencyRatchet.AcceptsIffNoPairGrew` | scripts/audit-capability-boundaries.ts:790-816 | for snapshots of two dependency lists the comparison accepts exactly when no owner pair grew: the total and cycle checks reject nothing more |
| `DependencyRatchet.AcceptsIffNoCountGrew` | scripts/audit-capability-boundaries.ts:676-816 | the same said of the dependencies: for every pair of owners the head has at most as many of each ratcheted kind, written out, as the base |
| `DependencyRatchet.AcceptanceChains` | scripts/audit-capability-boundaries.ts:790-816 | acceptance is transitive along any chain of commits that each pass against their predecessor |
| `CycleCatalog.CollectIntraSccEdges` | scripts/audit-architecture-deepening.ts:283-287 | keeps, in order, the edges with both ends in nontrivial components, also when these are two different ones |
| `CycleCatalog.FindUncataloguedReciprocalReads` | scripts/audit-architecture-deepening.ts:289-324 | one violation for each direction that has kept edges and no entry, or an entry that misses one of the consumer files |
| `CycleCatalog.DeservedIff` | scripts/audit-architecture-deepening.ts:289-324 | a direction is reported uncatalogued exactly when some kept read goes that way and no entry names it, and with missing files exactly when those are the files of its kept reads that the last entry for it does not list |
| `CycleCatalog.CyclicIff` | scripts/audit-architecture-deepening.ts:283-287 | an owner counts as cyclic exactly when reads lead from it to another owner and back |
| `CycleCatalog.CleanIffAllListed` | scripts/audit-architecture-deepening.ts:289-324 | the report is empty exactly when every kept edge has an entry that lists its file |
| `CycleCatalog.CycleEdgesAreKept` | scripts/audit-architecture-deepening.ts:283-287 | an edge on a directed cycle through two or more owners is kept |
| `CycleCatalog.CleanReportCoversCycles` | scripts/audit-architecture-deepening.ts:289-324 | a clean report means every edge on such a cycle is catalogued with its file |
| `CycleCatalog.KeptOffCycleIff` | scripts/audit-architecture-deepening.ts:283-287 | a kept edge lies on no such cycle exactly when its ends lie in different components, or are the same owner |
| `CycleCatalog.BridgeIsKept` | scripts/audit-architecture-deepening.ts:283-287 | a one-way read between two separate cycles is kept although the comment speaks of one component |
| `RuntimeLanes.CompositionRoots` | scripts/audit-provider-lanes.ts:688-707 | lists the manifest roots, then the existing entries as roots in their fixed order, blocking api entries before worker entries; within a role no blocking root precedes an open one |
| `RuntimeLanes.RuntimeCompositionPaths` | scripts/audit-provider-lanes.ts:709-735 | computes the marks of the traversal whose visited set is shared per role across the roots |
| `RuntimeLanes.TraverseRoot` | scripts/audit-provider-lanes.ts:716-732 | one root adds exactly what it reaches without passing a node its role has already marked |
| `RuntimeLanes.RuntimeRolesForTarget` | scripts/audit-provider-lanes.ts:737-770 | a role is listed exactly when some root of that role reaches the target under its own edge filter |
| `RuntimeLanes.SearchRoot` | scripts/audit-provider-lanes.ts:744-766 | the early-exit search answers reachability from one root |
| `RuntimeLanes.RootReachesIffChain` | scripts/audit-provider-lanes.ts:737-770 | a root reaches a path exactly when a chain of resolved imports that are not for types only, no job thunks and not blocked leads there |
| `RuntimeLanes.ImportsAre` | scripts/audit-provider-lanes.ts:709-716 | the import graph has exactly the resolved imports that are not for types only |
| `RuntimeLanes.MarkedIsReached` | scripts/audit-provider-lanes.ts:709-735 | sharing the visited set never marks a path that no root of the role reaches, in any root order |
| `RuntimeLanes.ReachedIsMarked` | scripts/audit-provider-lanes.ts:709-735 | with open roots before blocking ones the shared traversal marks everything any root of the role reaches |
| `RuntimeLanes.CompositionPathsHaveRoles` | scripts/audit-provider-lanes.ts:709-770 | for the roots as listed, a path is in the shared set exactly when its per-root roles are non-empty |
| `RuntimeLanes.BlockingRootFirstLosesAPath` | scripts/audit-provider-lanes.ts:716-732 | with a blocking root first the shared traversal loses a path that a later open root reaches |
| `RuntimeLanes.RuntimeSourceClosure` | scripts/audit-provider-lanes.ts:512-529 | returns exactly the source files reachable from the roots by runtime imports, or fails on a reachable file that is missing |
| `RuntimeLanes.ClosureIffChain` | scripts/audit-provider-lanes.ts:512-529 | a file is in the closure exactly when a chain of imports that are resolved, not for types only and not into the user interface leads to it from a named root |
| `TemplateScanner.StripCommentsAndStrings` | scripts/audit-mastery-provenance.ts:46-166 | the imperative scanner with its five mode flags, brace depth and interpolation stack computes the state machine Scan on every text |
| `TemplateScanner.ScannerComputesErasure` | scripts/audit-mastery-provenance.ts:46-166 | on every rendering of nested code, comments, strings, braces and templates with interpolations the output is the recursive erasure, and depth and stack end as they began |
| `TemplateScanner.SampleErased` | scripts/audit-mastery-provenance.ts:46-166 | a sample with a brace block and a quoted brace inside an interpolation, and back quotes in comments |
| `TemplateScanner.ScanCode` | scripts/audit-mastery-provenance.ts:46-166 | the same inside any surrounding braces, pending interpolations and following text |
| `TemplateScanner.ScanParts` | scripts/audit-mastery-provenance.ts:80-115 | a template body emits only its interpolated code and hands back the stack it found |
| `TemplateScanner.ScanInterp` | scripts/audit-mastery-provenance.ts:90-150 | an interpolation keeps its code, drops its delimiters and resumes the template at the matching brace, however many braces its code opens |
| `TemplateScanner.ScanBraces` | scripts/audit-mastery-provenance.ts:136-160 | a brace block inside an interpolation does not end it |
| `CommentLexers.StripComments` | scripts/audit-fold-writes.ts:357-456 | deletes exactly the non-newline characters that the comment mask marks |
| `CommentLexers.BlankComments` | scripts/audit-question-content-writers.ts:54-91 | overwrites in place exactly the non-newline characters that the same mask marks, and nothing else |
| `CommentLexers.SkipQuoted` | scripts/audit-question-content-writers.ts:74-84 | the quote loop stops behind the closing quote, escapes included |
| `CommentLexers.LexersAgree` | scripts/audit-fold-writes.ts:357-456 | on every text deleting what one lexer blanks gives what the other leaves |
| `CommentLexers.NothingLeftToStrip` | scripts/audit-fold-writes.ts:357-456 | a second pass over stripped text finds no comment |
| `CommentLexers.StrippedIsClean` | scripts/audit-fold-writes.ts:357-456 | stripping is idempotent, and blanking leaves stripped text alone |
| `CommentLexers.NothingLeftToBlank` | scripts/audit-question-content-writers.ts:54-91 | a second pass over blanked text finds no comment |
| `CommentLexers.BlankedIsClean` | scripts/audit-question-content-writers.ts:54-91 | blanking is idempotent, and stripping leaves blanked text alone |
| `CommentLexers.LinesSurviveKeeping` | scripts/audit-fold-writes.ts:521-556 | the line of every kept character is its line in the original text |
| `CommentLexers.LineCountsNewlines` | scripts/audit-fold-writes.ts:521-556 | the reported line is one more than the number of newlines before the offset |
| `CommentLexers.StrippedLinesAreOriginal` | scripts/audit-fold-writes.ts:521-556 | offsets found in stripped text are reported on their original lines, in their original order |
| `CommentLexers.BlankedLinesAreOriginal` | scripts/audit-question-content-writers.ts:54-91 | blanking keeps the length and the line of every offset |
| `CommentGrammar.LexersFollowGrammar` | scripts/audit-fold-writes.ts:357-456 | on every rendering of code, comments and strings in the three kinds of quotes, stripping leaves everything but the comments, whose newlines stay, and blanking puts spaces for them; strings stay as they are |
| `CommentGrammar.EveryTextHasStructure` | scripts/audit-question-content-writers.ts:54-91 | every text is such a rendering, unfinished comments and strings included, so this describes both lexers on all inputs |
| `FunctionSpans.ComputeFunctionSpans` | scripts/audit-question-content-writers.ts:438-471 | records exactly the matched brace pairs whose opening brace is a function head, in order of closing, on balanced and unbalanced text |
| `FunctionSpans.SpansAreLaminar` | scripts/audit-question-content-writers.ts:438-471 | any two recorded spans are equal, nested or disjoint |
| `FunctionSpans.EnclosingFunction` | scripts/audit-question-content-writers.ts:476-486 | returns a shortest span around the offset, if there is one |
| `FunctionSpans.ShortestIsInnermost` | scripts/audit-question-content-writers.ts:476-486 | the shortest enclosing span lies strictly inside every other one and is unique |
| `FunctionSpans.SiteEnclosingFunctionHasSeam` | scripts/audit-question-content-writers.ts:473-488 | true exactly when the innermost function around the site has the seam in its body |
| `TableDigest.Digest.Update` | scripts/cutover-backup.ts:949-966 | a chunk is consumed character by character; it fails on a byte above 0x7f, a line that is not 64 hex digits, or a line out of order |
| `TableDigest.DigestStream` | scripts/cutover-backup.ts:943-975 | whatever the chunks, the outcome depends on the column header and the concatenated stream: accepted exactly when that is a table, with the algorithm line, the header and the stream hashed |
| `TableDigest.TableIff` | scripts/cutover-backup.ts:949-966 | the checks of the code on lines and their order are: 64 characters out of 0123456789abcdef, and neighbours equal or ascending at the first place where they differ |
| `TableDigest.FeedConcat` | scripts/cutover-backup.ts:949-966 | feeding two pieces is feeding their concatenation |
| `TableDigest.AcceptedIffTable` | scripts/cutover-backup.ts:943-975 | accepted exactly when the text is a list of newline-terminated lines of 64 hexadecimal digits in which neighbours are equal or ascend, with the row count the number of lines |
| `TableDigest.SameRowsSameBytes` | scripts/cutover-backup.ts:943-975 | two accepted streams with the same multiset of lines hash the same bytes |
| `TableDigest.SameBytesSameRows` | scripts/cutover-backup.ts:943-975 | the same hashed bytes mean the same rows |
| `Ordering.SortedIsUnique` | scripts/cutover-backup.ts:938-942 | a sorted list of lines is determined by its multiset |
| `Ordering.SortByEqualIff` | scripts/cutover-backup.ts:610-640 | sorted copies of two lists without repeated keys are equal exactly when the lists have the same elements |
| `Ordering.LessIff` | scripts/cutover-backup.ts:957-957 | a string is smaller exactly when it is a proper prefix or has the smaller character at the first place where the two differ |
| `TypeChain.ResolveTypeChain` | scripts/cutover-backup.ts:1232-1281 | on every catalog, cyclic or not, the loop ends and returns the unique completed run from the given type if it passes validation, and otherwise the one reason for which the run stops at its first missing, repeated, unsupported or wrongly printed type, or that validation fails |
| `TypeChain.StopsOnce` | scripts/cutover-backup.ts:1240-1262 | a type has at most one place and one reason at which its run stops |
| `TypeChain.CompleteUnique` | scripts/cutover-backup.ts:1232-1281 | a type has at most one completed run |
| `TypeChain.NeverComplete` | scripts/cutover-backup.ts:1240-1262 | a run that meets an unusable or repeated type can never be completed |
| `TypeChain.CompleteIsShort` | scripts/cutover-backup.ts:1232-1281 | a completed run visits no type twice and is no longer than the catalog |
| `TypeChain.DomainsShareOutput` | scripts/cutover-backup.ts:1245-1275 | every domain of an accepted run has the output function of the first type below it that is no domain |
| `TypeChain.ResolvedChainValidIff` | scripts/cutover-backup.ts:903-920 | a resolved chain passes validation exactly when its names differ and a final enum has distinct labels |
| `TypeChain.KindMeans` | scripts/cutover-backup.ts:1240-1250 | which kind a type has by the codes of its catalog row, tested in the order of the code, and which type it wraps |
| `TypeChain.UsableIff` | scripts/cutover-backup.ts:1240-1267 | a type is usable exactly when it has a kind and is printed by the function its kind prescribes: the base type's for a domain, array_out, enum_out, vector_out of its own schema, or the one named after the builtin |
| `TypeChain.OutputNames` | scripts/cutover-backup.ts:862-901 | every builtin prints by the function named after it with out or _out as listed, polygons by poly_out, and no other type is builtin |
| `TypeChain.ChainValidIff` | scripts/cutover-backup.ts:903-920 | the checks on a finished chain written out |
| `RelationKey.KeyInjective` | scripts/cutover-backup.ts:533-533 | two relations have the same JSON key only if schema and name agree |
| `JsonReading.QuoteReads` | scripts/cutover-backup.ts:533-533 | a string quoted as JSON reads back, by the escapes of the standard, as the same string, whatever stands behind it |
| `JsonReading.KeyReads` | scripts/cutover-backup.ts:533-533 | the key of a relation is the JSON array that reads back as its schema and name |
| `DatabaseParity.ParseIdempotent` | scripts/cutover-backup.ts:543-570 | the output of the parser parses, to itself |
| `DatabaseParity.CanonicalTableIdempotent` | scripts/cutover-backup.ts:921-937 | canonicalising table metadata twice is canonicalising it once |
| `DatabaseParity.EqualIffSameFacts` | scripts/cutover-backup.ts:591-649 | the verdict is equal exactly when both manifests state the same sets of schemas, tables, sequences and extensions and the same environment |
| `DatabaseParity.EqualMeans` | scripts/cutover-backup.ts:591-649 | written out field by field: equal exactly when algorithm, encoding, version and the sets of extensions, schemas and sequences agree and the tables pair up with equal kind, persistence, partition, bound, rows, digest, parents as a set and columns one by one, dimensions ignored exactly for arrays |
| `DatabaseParity.ParsedTables` | scripts/cutover-backup.ts:563-570 | the parser keeps every field of every table, but sets the declared dimensions of array columns to zero |
| `DatabaseParity.ValidMeans` | scripts/cutover-backup.ts:543-562 | what the parser demands: no name twice, known schemas and parents, no foreign or temporary table, no rows in a partition parent, valid type chains that start with the column type |
| `DatabaseParity.SameContentIsEquivalence` | scripts/cutover-backup.ts:591-649 | equality of manifests is reflexive, symmetric and transitive |
| `DatabaseParity.SwapMirrors` | scripts/cutover-backup.ts:591-649 | swapping the arguments swaps missing with extra and keeps the mismatched tables and sequences and the environment mismatches |
| `DatabaseParity.ComparisonMeans` | scripts/cutover-backup.ts:591-649 | missing and extra schemas, tables and sequences are exactly those on one side only, and the environment mismatches name exactly what differs |
| `DatabaseParity.MismatchesMean` | scripts/cutover-backup.ts:591-649 | a table is mismatched exactly when both sides have it and some field, column or parent differs, a sequence exactly when its definitions differ |
| `DatabaseParity.OrderDoesNotMatter` | scripts/cutover-backup.ts:591-649 | permuting any inventory list changes neither validity nor the verdict |
| `DatabaseParity.DiffMeans` | scripts/cutover-backup.ts:600-640 | missing, extra and mismatched name exactly the relations that are on one side only, on the other only, or different on both |
| `DatabaseParity.CompareEmptyIff` | scripts/cutover-backup.ts:600-640 | a comparison is empty exactly when both lists have the same entries |
| `BackupCapture.SnapshotKeeper.OnData` | scripts/cutover-backup.ts:1665-1691 | each chunk moves the keeper as AfterData says, and the process is killed exactly when the response is too long or unreadable |
| `BackupCapture.StepKeeps` | scripts/cutover-backup.ts:1740-1938 | every keeper event and every capture step keeps the capture invariant |
| `BackupCapture.RunKeeps` | scripts/cutover-backup.ts:1740-1938 | so does every finite interleaving of them |
| `BackupCapture.SealedOnlyWhenVouched` | scripts/cutover-backup.ts:1740-1938 | a sealed manifest exists only if the keeper lived until its controlled rollback, the rollback was acknowledged with exit 0, the sequence, catalog and type re-checks matched, and both boundary observations succeeded |
| `BackupCapture.OneArtifactPerOutcome` | scripts/cutover-backup.ts:2526-2558 | a finished run leaves the sealed manifest or the failure record, never both and never neither |
| `CaptureEvidence.SealedEvidence` | scripts/cutover-backup.ts:1740-1938 | a run that seals has passed all steps in their order, read sequences and catalog twice with the same result, and captured every live column with the type chain it has |
| `CaptureEvidence.ContradictionNeverSeals` | scripts/cutover-backup.ts:1855-1876 | a re-check that reads other sequences, another catalog, or a live table, column or chain that was not captured so, aborts the run, and it never seals whatever happens after |
| `CaptureEvidence.PassesOnlyAlive` | scripts/cutover-backup.ts:1791-1883 | inspection, dump, migration capture, last boundary and parse pass only while the keeper lives |
| `CaptureEvidence.FinishedRunsRelease` | scripts/cutover-backup.ts:1916-1937 | no finished run leaves its keeper running |
| `CaptureEvidence.WaitingEnds` | scripts/cutover-backup.ts:1700-1735 | while a run waits for its keeper only the next turn moves it, once what it waits for is settled: to the inspection, to writing after a clean close, or to the failure record |
| `CaptureEvidence.EveryRunCanBeEnded` | scripts/cutover-backup.ts:1916-1937 | wherever a run stands, when the pending step throws, the keeper is killed and the next step throws, it has sealed before or has written the failure record |
| `CaptureEvidence.IncompleteIff` | scripts/cutover-backup.ts:2526-2558 | the manifest is marked incomplete exactly when the assembly after sealing failed |
| `KeeperHistory.SettledOnce` | scripts/cutover-backup.ts:1646-1691 | over any callbacks the snapshot promise and the exit settle at most once, and an ended or acknowledged keeper stays so |
| `KeeperHistory.TrimIff` | scripts/cutover-backup.ts:1667-1682 | trimming leaves what stands between white space, and nothing else is white space than what the language trims |
| `KeeperHistory.ExportedIff` | scripts/cutover-backup.ts:1661-1691 | the keeper promises a snapshot exactly when the text received with its first newline is short enough and decodes to it, and no error, deadline or exit came before |
| `KeeperHistory.AcknowledgedIff` | scripts/cutover-backup.ts:1665-1671 | the rollback is acknowledged exactly when at some chunk the whole text since the close request is the marker up to white space |
| `KeeperHistory.ExitIff` | scripts/cutover-backup.ts:1646-1660 | the exit code is that of the first close or spawn error, whatever follows |
| `KeeperHistory.CleanExitIff` | scripts/cutover-backup.ts:1708-1725 | a close request made of a living keeper succeeds exactly when the marker comes back and the first end of the process has exit code 0 |
| `KeeperHistory.ReadySurvivesClose` | scripts/cutover-backup.ts:1653-1691 | after a close request neither output nor the exit refuses the snapshot promise, and nothing can fulfil it |
| `KeeperHistory.KeeperHasHistory` | scripts/cutover-backup.ts:1740-1938 | in every capture run the keeper is what the callbacks since its spawn made of it, with at most one close request, made while it lived |
| `KeeperHistory.SealedSnapshotWasHeld` | scripts/cutover-backup.ts:1740-1938 | a sealed manifest, said of the events alone: between the spawn and the close request of the run the process did not end and its first line decoded to the sealed snapshot before anything went wrong; after the request it sent the marker and ended with code 0 |
| `BackupCapture.SomeRunSeals` | scripts/cutover-backup.ts:1740-1938 | some run does seal a manifest |
| `BackupRestore.PreflightChecks` | scripts/cutover-backup.ts:2182-2206 | passes exactly when the receipt path is free or archived, a dump is given, the scratch options parse and the mode fits the manifest option |
| `BackupRestore.BindSource` | scripts/cutover-backup.ts:2213-2234 | passes exactly when the source manifest parses and dump, quiescence artifact, its evidence and the execution artifacts are the ones it names; then the parsed manifest is adopted |
| `BackupRestore.Prepare` | scripts/cutover-backup.ts:2182-2234 | staging and bindings follow preflight, each recorded once; a failure leaves the phases before it recorded |
| `BackupRestore.RunScratch` | scripts/cutover-backup.ts:2266-2412 | start, table of contents, restore and in full mode inspection and comparison are done exactly when each passes, and stop in the first that does not |
| `BackupRestore.InspectAndCompare` | scripts/cutover-backup.ts:2387-2411 | the restored inventory is adopted and compared; the drill goes on exactly when it equals the source inventory and the server is still the same |
| `BackupRestore.RunPhases` | scripts/cutover-backup.ts:2181-2415 | all phases complete exactly when every phase of the mode's plan passes; otherwise the run stops in the first that does not |
| `BackupRestore.CleanUp` | scripts/cutover-backup.ts:2416-2447 | cleanup is recorded once, and adds an error exactly when the container is not ours, not removed, or not the restored server, or the stage stays |
| `BackupRestore.FinalizeRestoreEvidence` | scripts/cutover-backup.ts:1951-2007 | exit 0 exactly when the receipt offered for sealing parses and can be written; otherwise a failed receipt is written |
| `BackupRestore.ParseReceiptIdempotent` | scripts/cutover-backup.ts:650-727 | a parsed receipt parses again, to itself |
| `BackupRestore.VerifiedMeansParity` | scripts/cutover-backup.ts:650-727 | a receipt that parses as verified has all nine phases ok, no errors, equal inventories, the matching image and the matching bindings |
| `BackupRestore.PassingReopensRestored` | scripts/cutover-backup.ts:2139-2452 | when every phase passes, the server to be reopened has the version of the restored inventory |
| `BackupRestore.ReopenIsRestored` | scripts/cutover-backup.ts:650-727 | so the reopen record of a clean full drill is valid, whatever the rest of the receipt says |
| `BackupRestore.CleanFullDrillSeals` | scripts/cutover-backup.ts:2139-2452 | a full drill without failures always seals, as verified |
| `BackupRestore.CleanSqlDrillSeals` | scripts/cutover-backup.ts:2139-2452 | a clean sql-only drill always seals |
| `BackupRestore.RunRestoreDrill` | scripts/cutover-backup.ts:2139-2452 | in every run no phase is recorded twice and each is recorded as it went, what is written parses again, exit 0 holds exactly when every phase, cleanup and, unless only listing, writing the receipt go right, verified means full parity that the world really showed, and the receipt of a success names the dump, image, manifest and inventories that were used |
| `DrillMeaning.FullDrillSucceedsIff` | scripts/cutover-backup.ts:2139-2452 | exit 0 of a full drill written out: the artifacts are those the source manifest names, image, versions, entry count and contents agree, the server is one and the same throughout and is not the source, and cleanup and writing go right |
| `DrillMeaning.InspectionPasses` | scripts/cutover-backup.ts:2387-2393 | inspection is done exactly when the inventory read parses and the server is still the one that was started |
| `DrillMeaning.ReopenRecord` | scripts/cutover-backup.ts:2403-2411 | a successful full drill that was asked for a loopback port records that port and the final server, out of recovery; without the request it records none |
| `DrillMeaning.SqlDrillSucceedsIff` | scripts/cutover-backup.ts:2139-2452 | the same for a drill without source manifest |
| `DrillMeaning.ListingSucceedsIff` | scripts/cutover-backup.ts:2139-2452 | and for a listing, which starts no server |
| `DrillMeaning.ReceiptParsesIff` | scripts/cutover-backup.ts:650-727 | the parser accepts exactly the receipts that meet the written-out conditions of their kind, and changes only the form of the inventories |
| `DrillMeaning.ParsedSource` | scripts/cutover-backup.ts:571-590 | a source manifest parses exactly when its inventory does, its server is the one of the boundary evidence, the boundary precedes the capture, and the observations lie in the capture in order |
| `BackupRestore.SomeDrillVerifies` | scripts/cutover-backup.ts:2139-2452 | some full drill that keeps its server succeeds |
| `GenesisBackfill.Database.BackfillKind` | scripts/backfill-genesis-events.ts:140-179 | one lane appends, in scan order, one genesis for each event-less row that parses, indexes it where the kind enters the index, and ends by its counts, its list of bad rows, the first bad row, or the fault that stopped it |
| `GenesisBackfill.Database.BackfillLanes` | scripts/b3-gate.ts:118-122 | lanes run one after the other and stop at the first throw; they complete exactly when no event-less row fails to parse or is hit by a fault |
| `GenesisBackfill.Database.BackfillGenesisEvents` | scripts/backfill-genesis-events.ts:642-676 | a full run handles every live row of all eight kinds, or stops at the first throw with everything before it committed; the new events come lane after lane in the order of the run |
| `GenesisBackfill.Database.Select` | scripts/backfill-genesis-events.ts:144-148 | a table is read as its live ids, each once, in any order |
| `GenesisBackfill.HubsAreSeededFirst` | scripts/backfill-genesis-events.ts:344-354 | genesis events of learning items come hubs first |
| `GenesisBackfill.Ordered` | scripts/backfill-genesis-events.ts:344-354 | the order handled is the scan order, for learning items with all parentless rows first |
| `GenesisBackfill.AnchoredAfter` | scripts/backfill-genesis-events.ts:140-179 | a run anchors the rows it seeds and no others |
| `GenesisBackfill.HandlesCompose` | scripts/backfill-genesis-events.ts:1-16 | handling one set of rows and then another is handling both |
| `GenesisBackfill.ResumedEqualsOneRun` | scripts/backfill-genesis-events.ts:1-16 | however often and wherever earlier attempts stopped, a completing run leaves the rows, index and multiset of events of one uninterrupted run |
| `GenesisBackfill.FurtherRunChangesNothing` | scripts/backfill-genesis-events.ts:1-16 | a run over rows that were all handled seeds nothing and changes nothing |
| `GenesisBackfill.ExactlyOneGenesis` | scripts/backfill-genesis-events.ts:1-16 | a row without an anchor that passes the parse barrier ends with exactly one genesis, which holds its snapshot |
| `GenesisBackfill.FoldReadsAfter` | scripts/backfill-genesis-events.ts:8-13 | the fold of a row that was not seeded reads the events it read before; a seeded row's fold reads its genesis last |
| `GenesisBackfill.BackfillKeepsDrift` | scripts/backfill-genesis-events.ts:8-13 | an event-sourced row drifts after the backfill exactly when it did before, a seeded row does not drift |
| `GenesisBackfill.SeedingAnchoredRowsHidesDrift` | scripts/backfill-genesis-events.ts:8-13 | a genesis for an event-sourced row would hide its drift, which is why these rows are skipped |
| `GateMeaning.BackfillMeans` | scripts/backfill-genesis-events.ts:136-640 | written out: handling rows adds one genesis, with the row, for each live row that no event created, that no index entry names where its kind is looked up there, and that parses; it indexes these but for question blocks and calibrations, and changes nothing else |
| `GateMeaning.StopsIff` | scripts/backfill-genesis-events.ts:136-640 | a row stops or fails its lane exactly when it is unaccounted for and does not parse, or its transaction is hit |
| `GateMeaning.FoldReads` | scripts/backfill-genesis-events.ts:8-13 | a fold reads exactly the events that concern its row, in the order of the log |
| `CutoverGate.AuditKind` | scripts/b3-gate.ts:129-135 | the audit of one kind lists exactly the drifting rows, split by the allowlist, unless a fold throws |
| `CutoverGate.Audit` | scripts/b3-gate.ts:124-140 | the audit is clean exactly when no fold of a live row throws and every row outside the allowlist equals its fold |
| `CutoverGate.Project` | scripts/b3-gate.ts:142-152 | one shell replaces or deletes its own row and nothing else; a throw leaves it |
| `CutoverGate.RebuildKinds` | scripts/b3-gate.ts:142-152 | after a rebuild every id that is live, named by an event or indexed holds what its shell leaves, and all other rows are as they were |
| `CutoverGate.RebuildComposes` | scripts/b3-gate.ts:142-152 | the shells of different rows do not interfere, so their order does not matter |
| `GateMeaning.RebuildMeans` | scripts/b3-gate.ts:142-152 | written out: rows that are live, named by an event or indexed become their folds; where a fold is nothing the row goes, unless no event or index entry accounts for it and its kind keeps such rows; all other rows stay |
| `CutoverGate.AllAnchored` | scripts/b3-gate.ts:118-122 | after a completed backfill every live row of the cluster has an anchor |
| `CutoverGate.GoIffFaithful` | scripts/b3-gate.ts:3-13 | clean audit and unchanged id set hold together exactly when every live row folds to a row (itself unless allowlisted) and no other named id folds to one |
| `GateMeaning.FaithfulMeans` | scripts/b3-gate.ts:3-13 | the condition of a GO written out on rows, events and index |
| `CutoverGate.GoKeepsRows` | scripts/b3-gate.ts:154-177 | after GO the live ids are unchanged and every row outside the allowlist equals its value before the gate |
| `CutoverGate.CleanAuditMeansNoPriorDrift` | scripts/b3-gate.ts:124-140 | a clean audit means the event-sourced rows outside the allowlist did not drift before the backfill either |
| `CutoverGate.AuditAfterRebuildFindsNothing` | scripts/b3-gate.ts:8-11 | placed after a rebuild the audit would find no drift, whatever the reducers compute |
| `CutoverGate.OnlyTheEarlyAuditSeesDrift` | scripts/b3-gate.ts:8-11 | for any differing row and fold there is a database on which the early audit fails while rebuild, id comparison and a late audit all pass |
| `CutoverGate.RunB3Gate` | scripts/b3-gate.ts:109-177 | GO exactly when the log is faithful to the rows; then no row outside the allowlist and no id has changed; a rejected rebuild or any exception leaves every row as it was; without throws and bad rows the gate reports |
| `JsonBraces.MatchingBrace` | scripts/gen-model-catalog.ts:137-154 | returns the first place where the depth outside strings comes back to zero, and -1 exactly when there is none |
| `JsonBraces.NeutralBraces` | scripts/gen-model-catalog.ts:137-154 | the closing brace of balanced text is where its opening brace closes, whatever surrounds it |
| `JsonBraces.NeutralQuote` | scripts/gen-model-catalog.ts:137-154 | a JSON string, escapes included, never counts as braces |
| `JsonLayout.IndentedLayout` | scripts/gen-model-catalog.ts:168-171 | indenting the lines of a pretty-printed value gives its layout at the deeper level |
| `JsonLayout.LayoutIsNeutral` | scripts/gen-model-catalog.ts:137-154 | every pretty-printed object is delimited by the matcher from its first brace |
| `CatalogSplice.DriftGuard` | scripts/gen-model-catalog.ts:297-311 | what stays on disk has, for every provider but the chosen one, the slice of the previous snapshot, whatever the formatter wrote |
| `CatalogLayout.SliceOfEntry` | scripts/gen-model-catalog.ts:157-166 | in the generated layout the slice of a provider is its key line and its whole object |
| `CatalogLayout.NoSlice` | scripts/gen-model-catalog.ts:157-166 | an id without an entry has no slice |
| `CatalogLayout.SliceOccurs` | scripts/gen-model-catalog.ts:189-196 | the text of a slice first occurs where its provider stands |
| `CatalogLayout.SpliceRefines` | scripts/gen-model-catalog.ts:181-213 | splicing the text of a laid-out snapshot gives the text of the snapshot with the kept list and that one provider replaced or appended, laid out again |
| `CatalogLayout.OtherSlicesStay` | scripts/gen-model-catalog.ts:177-180 | every other provider's slice is byte-identical |
| `CatalogLayout.TargetSliceIsRendered` | scripts/gen-model-catalog.ts:181-213 | the target slice is the key and the rendered bucket |
| `CatalogLayout.SpliceTwice` | scripts/gen-model-catalog.ts:181-213 | splicing twice is splicing once |
| `CatalogLayout.GuardPassesSplice` | scripts/gen-model-catalog.ts:297-311 | the drift guard keeps a splice that the formatter has left alone |
| `CatalogLayout.RenderedIsShaped` | scripts/gen-model-catalog.ts:168-171 | a rendered bucket has the layout of a provider object |
| `CatalogGenerated.GeneratedIsReady` | scripts/gen-model-catalog.ts:270-282 | what a full run writes is the text of a laid-out snapshot, ready for any kept id that is not a metadata key |
| `CountBudgets.Partition` | scripts/audit-draft-status.ts:284-298 | the counting loop splits the items into those beyond their key's budget and the rest, both in input order |
| `CountBudgets.ExcessIsFlagged` | scripts/audit-model-source.ts:353-364 | per key exactly max(0, head count - budget) items are flagged |
| `CountBudgets.NothingIsLost` | scripts/audit-draft-status.ts:284-298 | flagged and tolerated items together are the items |
| `CountBudgets.PassesIffWithinBudget` | scripts/audit-model-source.ts:353-364 | nothing is flagged exactly when every key stays within its budget |
| `CountBudgets.JudgeFiles` | scripts/audit-model-source.ts:407-416 | judging file by file flags what judging the whole list flags |
| `CountBudgets.BudgetFrom` | scripts/audit-model-source.ts:337-351 | the budget of a key is the number of base findings with that key after renaming |
| `CountBudgets.ModelGatePassesIff` | scripts/audit-model-source.ts:337-364 | the gate passes exactly when no literal of a model occurs more often in a file than at the base in the files that now have that name |
| `CountBudgets.RehomeCounts` | scripts/audit-draft-status.ts:439-449 | every name gets the sum of the counts of the files renamed to it, and the total stays |
| `CountBudgets.TotalOfTally` | scripts/audit-model-source.ts:337-351 | the total of a budget is the number of findings it was counted from |
| `CountBudgets.DebtNeverGrows` | scripts/audit-model-source.ts:337-364 | over any chain of passing commits with any renames the number of findings never grows |
| `CountBudgets.MissingSitesNeverGrow` | scripts/audit-draft-status.ts:122-138 | over any chain of commits that pass against the re-homed counts of their predecessor, with any renames, the insert sites without the key never grow in number |
| `CountBudgets.ReadDebtNeverGrows` | scripts/audit-draft-status.ts:277-309 | nor does either kind of finding of the read gate |
| `CountBudgets.RehomedTotal` | scripts/audit-draft-status.ts:439-449 | counts re-homed under any renames keep their total |
| `CountBudgets.ValidateDraftGate` | scripts/audit-draft-status.ts:122-138 | passes exactly when every file has at most as many sites without the key as its base budget |
| `CountBudgets.ValidateReadGate` | scripts/audit-draft-status.ts:277-309 | passes exactly when both kinds of finding stay within their budgets and no helper definition is amiss |

## Left out

- SccSearch.NontrivialSccs: the components are sets and their list has no order; the script sorts members and components by name.
- SccSearch.Search.Connect: the recursion is modelled as recursion, without a bound on the call stack.
- CycleCatalog.FindUncataloguedReciprocalReads: one violation per direction with its kind; the wording of messages is left out.
- DependencyRatchet.CompareDependencySnapshot: violations carry the pair, cycle or total they are about, not the text printed for them.
- RuntimeLanes.RuntimeSourceClosure: the result is a set; the script returns it sorted.
- TemplateScanner.ScannerComputesErasure: states the result for text rendered from the grammar; on other text the scanner is specified by its state machine. The scanner knows no regular-expression literals, so neither does the grammar.
- CommentLexers.BlankComments: the second pass that also blanks strings is not modelled.
- FunctionSpans.ComputeFunctionSpans: the regular expression that recognises a function head is the parameter `heads`.
- TableDigest.DigestStream: the SHA-256 value is represented by the bytes fed to it, the canonical column header by a string.
- TypeChain.ResolveTypeChain: parsing of the catalog rows out of database JSON is left out.
- DatabaseParity.EqualIffSameFacts: schema validation of single fields (lengths, digit strings) is assumed done; row hashes and counts are strings.
- BackupCapture.SealedOnlyWhenVouched: writing the failure record is assumed to succeed, and output chunks are text, not bytes that split a character.
- BackupRestore.RunRestoreDrill: of a failed receipt it says which phase failed and that there are errors, not their codes; timestamps are integers, container and image commands are outcomes chosen by the world; the file-system race around an existing receipt is left out.
- GenesisBackfill.ResumedEqualsOneRun: up to event ids, timestamps and the order of appended events; parallel runs are excluded, as the script documents.
- GenesisBackfill.Database.BackfillKind: the error text, with its cap on listed rows, is the list of failed ids.
- GenesisBackfill.AnchoredAfter: which events count as originating is a property of each event, not a list of action names per kind.
- CutoverGate.RunB3Gate: rows are their structural snapshots; columns that the fold does not own are left out. The reducers, what makes a fold throw, and the check that knowledge operations can be decoded are parameters.
- CutoverGate.RebuildKinds: each kind occurs once in a cluster, which the registry checks when it is loaded.
- CatalogLayout.SpliceRefines: provider ids are slugs without quotes, brackets and braces, and not the name of a metadata key, as the kept list's are; for an id with a brace the search for the object's opening brace would stop inside the key.
- CatalogSplice.SpliceProvider: the replacement of the kept list takes its text as it is; a dollar sign in it, which the script's string replacement would interpret, does not occur in the constant list.
- CountBudgets.BudgetFrom: keys are triples instead of their JSON text.
- Fetching and merging the catalog, trimming of fields, and the formatter between splice and drift guard: the guard is stated for any formatter output.
- Git, file system, docker, psql and pg_dump processes, HTTP, flag parsing and report printing: input and output only.
- Import scanning, AST visiting and the regular expressions that classify code: their results are the edge, site and finding lists the model starts from.
- `hasIdentifierSpread` (scripts/audit-question-content-writers.ts:233-256): no correctness claim, since it advances once too often after a closing quote and so skips a bracket directly behind a string.
- The word-list, census, profile and prompt-budget audits, the schema-write audit and the seeds, launchers and one-off backfills: single-pass lookups or wiring that would add only easy members.
