# DevSpace, verified

A Dafny model of the stateful parts of DevSpace, with proofs. It covers:

- **File sync from the container** (`Paths`, `IgnoreParser`, `RegexMatching`, `NegatedPaths`, `IgnorePruning`,
  `MatchedDirectories`, `PruningLimits`, `ExcludedPaths`, `ExcludedPatterns`, `Walk`, `ChangeStreaming`, `Downstream`,
  `Incremental`, `ShallowWatching`, `Mirroring`, `ExcludeLines`, `StaleEntry`). The server in the container remembers the
  state it last told the client. A watcher folds file events into a set of changed paths; a request either patches the
  remembered state at these paths or walks the tree again, and streams the difference in chunks of 64. Proved: which paths
  exclude lines ignore; what one walk records, including which ignored directories may be skipped unseen; that the streamed
  difference is a patch; exactly when patching equals walking; that dropped events are noticed; and, over whole runs,
  exactly when a client that applies the changes mirrors the tree.
- **Dependencies** (`Digraph`, `FirstPaths`, `DependencyGraph`, `DependencyResolver`, `IgnoredDependencies`,
  `DependencyManager`, `DependencyActions`). Resolving loads each config once and records who depends on whom, also on
  cyclic configs; executing runs an action on every dependency after those it depends on; and both together do so for
  exactly what the configs ask for. Proved also: exactly when either fails, which names are loaded without their own
  dependencies, and on which names the action runs when paths are chosen or skipped.
- **The reverse tunnel** (`Tunnel`). Reader goroutines and one sender share session buffers. Proved over all interleavings:
  bytes are neither lost, repeated, reordered nor stranded, and closing comes last in every session that its client does
  not close.
- **Optimistic writers** (`PullSecrets`, `ServiceAccounts`) and **the dev pod manager** (`DevPods`): read-modify-write
  loops of several clients, whatever others write between a read and the request that follows (`Turns`), and threads with
  one lock per name and a mutex around the map of pods.
- **Bookkeeping** (`FileIndex`, `Purge`): the client's index of synced files stays a tree, and a deployment is deleted by
  the last project that uses it.

Code that changes state step by step is written as classes and methods. Each method is verified against a specification
function or predicate, and the theorems are about those. Where several goroutines, clients or threads run at once, there
is a step system beside the methods: each step is one critical section or one request, and the results hold of every
state of every run.

Some properties one would expect do not hold of the code. For these there is a concrete input, or a run, that shows it:

- Skipping an ignored directory is not always sound. `PruningLimits.TrailingAnyDirs` is an excluding line that ignores a
  directory but not the files in it; `PruningLimits.DoubleSlashNegate` a negating line whose file is lost.
  `PruningLimits.OneLinePrunesSafely` says exactly which excluding lines are safe, and
  `PruningLimits.NegateLinePrunesSafely` which negating lines are safe after any of those.
- A client may keep a removed file if the server patches its memory while events are still queued:
  `StaleEntry.ClientKeepsRemovedFile`. `Incremental.IncrementalIsRescan` says exactly when one patch is right,
  `Mirroring.GuardIsExact` and `Mirroring.ClientMirrorsExactly` say so over runs, `Mirroring.DrainedRunsAreGuarded` that it
  is whenever no event was waiting, and `Mirroring.WalkIsDelivered` that the next full walk repairs everything.
- After an event on the base directory itself the state has an entry that no walk records, exactly if the base is not
  ignored (`Incremental.EventOnBaseStays`); matchers that require a full scan leave entries behind
  (`Incremental.FullScanLeavesOrphan`); with non-recursive watching a changed directory adds what is in it
  (`ShallowWatching.ChildrenAreAdded`), and `ShallowWatching.ShallowPatchIsRescan` says exactly when patching is right.
- If the client closes a session, data may follow a closing response of it: `Tunnel.DataAfterClosing`.
  `Tunnel.NothingFollowsExactly` says exactly when.
- A secret without a map of entries makes `CreatePullSecret` panic: `PullSecrets.PanicsWithoutEntries`.
- A project that is listed twice as a user of a deployment does not delete it: `Purge.DeletedByLastUser`.

`dafny verify dfyconfig.toml` checks everything.

## Model

| member | source | states |
|---|---|---|
| Paths.AboveIsSlashPrefix | helper/server/downstream.go:408-414 | the test HasPrefix(s, p + "/") means that p is a proper ancestor of s |
| Paths.JoinedPrefixIsAbove | helper/server/downstream.go:345-353 | each joined part of the segments that the watcher tries is an ancestor of the event's path |
| Paths.AboveIsJoinedPrefix | helper/server/downstream.go:345-353 | and every ancestor is one of the parts it tries |
| IgnoreParser.Anchor | vendor/github.com/sabhiram/go-gitignore/ignore.go:133-144 | every compiled line ends in a part that may match everything below |
| IgnoreParser.CompilePaths | helper/server/ignoreparser/ignoreparser.go:59-96 | no lines give no parser; otherwise the negated base-anchored paths are collected in order, and a full scan is required if and only if some negating line is not anchored at the base or has wildcards in its directories |
| ExcludedPaths.PathLine | vendor/github.com/sabhiram/go-gitignore/ignore.go:73-145 | a line that is a path from the base, without wildcards, ignores exactly this path and what is below |
| ExcludedPaths.NameLine | vendor/github.com/sabhiram/go-gitignore/ignore.go:73-145 | a line that is a name without wildcards ignores exactly the paths that have it as a segment |
| ExcludedPaths.ExtensionLine | vendor/github.com/sabhiram/go-gitignore/ignore.go:106-145 | folder/*.extension ignores what is covered by such a file in this folder as seen from the base; only if all names of the folder end in a plus sign, in such a folder anywhere |
| ExcludedPatterns.BetweenLine | vendor/github.com/sabhiram/go-gitignore/ignore.go:120-145 | two paths with /**/ between them ignore what is covered by a path that begins with the one, from the base, and goes on below it to end with the other |
| ExcludedPatterns.AnywhereLine | vendor/github.com/sabhiram/go-gitignore/ignore.go:123-145 | **/ and a name ignore what the name alone ignores |
| ExcludedPatterns.EverythingLine | vendor/github.com/sabhiram/go-gitignore/ignore.go:124-145 | a path followed by /** ignores what the path alone ignores |
| ExcludedPatterns.DirectoryLine | vendor/github.com/sabhiram/go-gitignore/ignore.go:133-145 | with a slash at its end, a path ignores what is below it, and itself only as a directory |
| ExcludedPatterns.NoLine | vendor/github.com/sabhiram/go-gitignore/ignore.go:73-88 | comments and lines of blanks ignore nothing |
| ExcludedPatterns.ExceptLine | helper/server/ignoreparser/ignoreparser.go:31-52 | of an excluded path, a negating line keeps a path, what is below it, and the directories that lead to it |
| RegexMatching.MatchesConcat | vendor/github.com/sabhiram/go-gitignore/ignore.go:120-145 | what a concatenation of pattern parts matches splits into matches of the parts |
| RegexMatching.ConcatMatches | vendor/github.com/sabhiram/go-gitignore/ignore.go:120-145 | and joined matches of the parts are matched by the concatenation |
| IgnorePruning.ExcludeExtends | vendor/github.com/sabhiram/go-gitignore/ignore.go:134-144 | under a condition on the compiled line, an excluding line that matches a directory matches everything in it |
| IgnorePruning.SubtreeLost | vendor/github.com/sabhiram/go-gitignore/ignore.go:134-144 | without the condition, if any directory is matched then one is matched with something in it that is not |
| NegatedPaths.NegateReaches | helper/server/ignoreparser/ignoreparser.go:38-48 | if a negated path that meets the condition matches something in a directory, then it leads through this directory, which is then not ignored, or it matches the directory too |
| NegatedPaths.UnsafeLoses | helper/server/ignoreparser/ignoreparser.go:38-48 | if a negated path that needs no full scan does not meet the condition, it matches something in a directory that it neither leads through nor matches |
| IgnorePruning.NegateReadings | helper/server/ignoreparser/ignoreparser.go:63-71 | the two readings of a negating line, one for the list of kept paths and one for the pattern, agree up to blanks and carriage returns at its end |
| IgnorePruning.LastMatchExtends | vendor/github.com/sabhiram/go-gitignore/ignore.go:204-221 | since the last matching line decides, it is enough that excluding lines extend to what is below and negating ones come with the directory |
| IgnorePruning.IgnoredBelowIgnored | helper/server/ignoreparser/ignoreparser.go:31-52 | a parser that requires no full scan, from lines that meet the conditions, ignores everything below an ignored directory |
| PruningLimits.ExcludingIsPlain | helper/server/ignoreparser/ignoreparser.go:63-81 | a line that the pattern compiler takes as excluding is one that CompilePaths does not take as negating |
| MatchedDirectories.DirectoryMatchedExactly | vendor/github.com/sabhiram/go-gitignore/ignore.go:120-145 | a compiled line matches no directory if and only if its tokens make two slashes meet, or require one slash and take up no name before or after it |
| PruningLimits.OneLinePrunesSafely | helper/server/ignoreparser/ignoreparser.go:18-21 | for the parser of one excluding line, skipping ignored directories is sound if and only if the tokens of the compiled line meet the condition or cannot match a directory |
| PruningLimits.LinesPruneSafely | helper/server/ignoreparser/ignoreparser.go:18-21 | any number of excluding and negating lines that each meet their condition make skipping ignored directories sound |
| PruningLimits.NegateLinePrunesSafely | helper/server/ignoreparser/ignoreparser.go:63-81 | a negating line that is anchored at the base may follow every excluding line that meets its condition, with skipping still sound, if and only if its path meets the condition for negated paths |
| PruningLimits.TrailingAnyDirs | vendor/github.com/sabhiram/go-gitignore/ignore.go:120-139 | the parser of a name, a slash, two stars and a slash ignores the directory of that name but not the files in it, so skipping is not sound |
| PruningLimits.DoubleSlashNegate | helper/server/ignoreparser/ignoreparser.go:68-71 | after a line that excludes everything, a file un-ignored by a negating line with two leading slashes is lost with its ignored directory |
| Walk.WalkedDescribes | helper/server/downstream.go:574-592 | whatever a walk records has type CHANGE, its own path, and the size, times and mode of the file; for a directory it says that it is one, and the rest is zero |
| Walk.WalkDir | helper/server/downstream.go:534-597 | the walk adds exactly the entries that are reached without passing through a skipped directory and are not filtered, over whatever the map held before |
| Walk.WalkEntry | helper/server/downstream.go:547-595 | one directory entry adds itself unless left out, and what is below it if it is a directory that is not skipped |
| Walk.OneMoreChild | helper/server/downstream.go:541-596 | children contribute independently of the order in which they are read |
| Walk.AllChildrenWalked | helper/server/downstream.go:541-596 | all children together give the whole walk |
| Walk.SkippingEqualsFiltering | helper/server/downstream.go:560-594 | the walk that skips ignored subtrees records what visiting everything and filtering records, if and only if everything below a skipped directory is ignored |
| Walk.RecordedHasOpenAncestors | helper/server/downstream.go:560-582 | what is recorded is reached through directories that are not skipped |
| ExcludeLines.CompiledSkipsSubtrees | helper/server/downstream.go:560-563 | parsers compiled from lines that meet the conditions make the skipping walk sound on every tree |
| ChangeStreaming.StreamChanges | helper/server/downstream.go:433-532 | the amount is the number of paths that were added or removed, became or ceased to be a directory, or changed in size or times, with or without a stream; what is sent tells of these paths, each once, with the new values or, after all those, as a deletion with the old ones, cut into chunks of 64; it fails only if the stream does |
| ChangeStreaming.CompareNew | helper/server/downstream.go:439-488 | the first loop deals with exactly the new and the changed paths, flushing full chunks |
| ChangeStreaming.CompareOld | helper/server/downstream.go:490-521 | the second adds exactly the removed ones |
| ChangeStreaming.Emit | helper/server/downstream.go:450-487 | one change is collected, and a full chunk is sent at once |
| ChangeStreaming.SendRemaining | helper/server/downstream.go:523-529 | the rest is sent as a last, shorter chunk, never an empty one |
| ChangeStreaming.ChunkCount | helper/server/downstream.go:480-529 | n changes make ceil(n / 64) chunks |
| ChangeStreaming.DiffIsPatch | helper/server/downstream.go:433-532 | a client that holds the old state and applies the changes in the order sent holds the new one, in the fields that are compared |
| ChangeStreaming.PathsOccurOnce | helper/server/downstream.go:442-521 | no path occurs twice in a change list |
| ChangeStreaming.MirrorIsUnique | helper/server/downstream.go:449 | a state determines what a client that mirrors it holds |
| Downstream.SuppressionKeepsCoverage | helper/server/downstream.go:343-356 | dropping an event below a recorded path leaves the set of covered paths as if it had been recorded |
| Downstream.Server.constructor | helper/server/downstream.go:56-64 | at first nothing is remembered, changed or scanned |
| Downstream.Server.HandleEvent | helper/server/downstream.go:338-358 | an event resets the scan time if 999 or more wait, is dropped if an ancestor is recorded, and is recorded otherwise |
| Downstream.Server.DeletePathFromState | helper/server/downstream.go:408-414 | removes the path and everything below it, and nothing else |
| Downstream.Server.ApplyChange | helper/server/downstream.go:363-406 | what the old state says is at the path is thrown away, then what is there now is put in |
| Downstream.Server.LookAt | helper/server/downstream.go:377-405 | what is put in: the path itself unless left out, and the walk from there |
| Downstream.FoundDescribes | helper/server/downstream.go:384-405 | whatever looking at a path puts in says of size, times, mode and kind what is there |
| Downstream.Server.Walk | helper/server/downstream.go:280-282 | a full walk into an empty state |
| Downstream.Server.Patch | helper/server/downstream.go:287-302 | all changes are applied to a copy of the old state, each once, in some order |
| Downstream.Server.GetWatchState | helper/server/downstream.go:265-303 | a full walk if nothing is remembered, an overflow or the period asks for one, or more than 100 paths changed; nothing if no path changed; a patched copy otherwise; the changes are cleared |
| Downstream.Server.Changes | helper/server/downstream.go:306-326 | the difference to the new state is delivered and the new state remembered; if sending fails the memory stays, but the changes are gone |
| Downstream.Server.ChangesCount | helper/server/downstream.go:232-263 | the number of differing paths when polling; otherwise 1 if a scan is due, else the number of changed paths |
| Downstream.NothingDelivered | helper/server/downstream.go:306-326 | a request that is through has sent nothing if and only if no path differs |
| Downstream.CountThenChanges | helper/server/downstream.go:232-326 | when polling, ChangesCount says 0 if and only if Changes on the same tree sends nothing |
| Downstream.WalkedKeyed | helper/server/downstream.go:574-592 | a walk stores every entry under its own path |
| Downstream.AppliedAllKeyed | helper/server/downstream.go:363-431 | so does patching |
| Downstream.WatchRoundKeyed | helper/server/downstream.go:265-303 | so does every reported state |
| Incremental.FoundIsPartOfRescan | helper/server/downstream.go:377-405 | looking at a changed path puts in exactly the part of a full walk at and below it |
| Incremental.AppliedAllIsPatched | helper/server/downstream.go:297-300 | the outcome of a list of changes is independent of their order |
| Incremental.IncrementalIsRescan | helper/server/downstream.go:287-302 | if the changes cover every difference, applying them equals a full walk if and only if every remembered entry that lies below a change but is not thrown away by one still exists |
| Incremental.RescanIsClosed | helper/server/downstream.go:534-597 | what a full walk records is closed under parent directories |
| Incremental.ClosedHasNoOrphans | helper/server/downstream.go:369-375 | from such a state every entry below a changed path is thrown away |
| Incremental.RescanThenPatch | helper/server/downstream.go:265-303 | patching the outcome of one full walk gives the outcome of the next |
| Incremental.EventOnBase | helper/server/downstream.go:363-393 | such a change, while the base is not remembered, does nothing if the base is ignored and no full scan is required, and otherwise puts a full walk over the old entries, with an entry for the base unless it is ignored |
| Incremental.EventOnBaseStays | helper/server/downstream.go:385-391 | after a change of the base itself there is an entry for it, which no walk records, if and only if the base is not ignored; whatever else has changed |
| Incremental.FullScanLeavesOrphan | helper/server/downstream.go:369-375 | with a matcher that requires a full scan, patching can leave a removed file behind |
| ShallowWatching.ShallowPatchIsRescan | helper/server/downstream.go:363-406 | with non-recursive watching, if the changes cover every difference, applying them equals a walk if and only if no changed directory has anything in it that is looked at and no entry below one is left behind |
| ShallowWatching.ChildrenAreAdded | helper/server/downstream.go:384-393 | with non-recursive watching, a change of a directory puts in the file in it, which no walk records |
| Mirroring.OverflowNeverMissed | helper/server/downstream.go:338-342 | after an event was dropped, once the queue is empty the next request makes a full walk, also if events are still on their way to the queue |
| Mirroring.SoundInRun | helper/server/downstream.go:265-361 | in every run the client mirrors what the server remembers, be it right or wrong |
| Mirroring.WalkRestores | helper/server/downstream.go:276-282 | from any state of any run, a full walk brings about that wherever the memory is out of date a pending path covers it |
| Mirroring.InvariantInRun | helper/server/downstream.go:265-361 | in any run, from its start or some full walk on, as long as patches are guarded, wherever the memory is out of date a pending path covers it; guarded means that each entry that the patch would leave behind still exists or lies below a waiting event, or that an event was dropped |
| Mirroring.GuardedRuns | helper/server/downstream.go:265-361 | runs in which all patches are guarded are a special case |
| Mirroring.GuardIsExact | helper/server/downstream.go:287-302 | a patch that starts in a state with this invariant, and with no event dropped, keeps it if and only if no entry is lost in this sense |
| Mirroring.ClientMirrorsTree | helper/server/downstream.go:306-361 | in any run with patches guarded since some full walk, when a request that began with no event waiting is through, the client holds what a full walk of the tree at that time records |
| Mirroring.ReportIsRescanExactly | helper/server/downstream.go:265-303 | the state reported with a drained queue is what a full walk records if and only if it came from one or the guard holds; else it has an entry too many |
| Mirroring.WalkIsDelivered | helper/server/downstream.go:265-361 | in any run, whatever was patched, dropped or waiting before, when a request that walks the whole tree is through the client holds what the walk has recorded |
| Mirroring.ClientMirrorsExactly | helper/server/downstream.go:265-361 | in any run, whatever happens until a request is through, the client then holds what a full walk would have recorded at its beginning if and only if it walked or the guard held; for a patch this is said if no event was waiting and patches were guarded since some full walk |
| Mirroring.NothingToReport | helper/server/downstream.go:283-285 | in such runs this also holds if such a request reports nothing |
| Mirroring.CountZeroIsSound | helper/server/downstream.go:248-258 | in watch mode and such runs, with no event waiting, if ChangesCount says 0 then no request finds a difference, not even one with a full walk |
| Mirroring.DrainedRunsAreGuarded | helper/server/downstream.go:265-303 | as long as patching starts only with no event waiting, from the start of a run or any full walk on, patches are guarded |
| ExcludeLines.CompiledConfigIsValid | helper/server/ignoreparser/ignoreparser.go:59-96 | exclude lines that meet the conditions and require no full scan give a matcher that skips whole subtrees on every tree |
| ExcludeLines.ClientHoldsNonExcluded | helper/server/downstream.go:265-361 | from lines to client: with such lines, in any run with patches guarded since some full walk, the client of a request that began with no event waiting ends up with exactly the files and directories that are not excluded |
| ExcludeLines.ClientHoldsFiles | helper/server/downstream.go:265-361 | in terms of lines, tree and client alone: for each file that the lines do not exclude the client then has its size and times, for each such directory that it is one, and nothing else |
| StaleEntry.ClientKeepsRemovedFile | helper/server/downstream.go:363-375 | a run without overflow or failure after which the client has a file that does not exist, with nothing pending |
| DependencyGraph.FindFirstPathRecursive | pkg/devspace/dependency/graph/graph.go:193-230 | the search terminates on every graph and finds a path if and only if there is one that avoids the marked nodes |
| DependencyGraph.StaysAcyclic | pkg/devspace/dependency/graph/graph.go:153-170 | an edge whose target does not reach its source closes no cycle |
| DependencyGraph.NodeGraph.constructor | pkg/devspace/dependency/graph/graph.go:18-26 | a graph with only its root |
| DependencyGraph.NodeGraph.AddEdge | pkg/devspace/dependency/graph/graph.go:143-172 | the edge is added unless it is there; it is refused, with nothing changed, if and only if it would close a cycle; the graph stays acyclic and reached from its root |
| DependencyGraph.NodeGraph.InsertNodeAt | pkg/devspace/dependency/graph/graph.go:59-81 | a new node is added below its parent, or an edge to an existing one if possible |
| DependencyResolver.TransformMap | pkg/devspace/dependency/resolver.go:185-194 | the values of the map, each once, ascending by name in the order of strings: at the first difference the smaller character, or the prefix, comes first |
| DependencyResolver.SortSorts | pkg/devspace/dependency/resolver.go:190-192 | sorting by insertion yields a list in order of names |
| DependencyResolver.ListingIsUnique | pkg/devspace/dependency/resolver.go:185-194 | the list does not depend on the order in which the map is enumerated |
| DependencyResolver.Resolver.constructor | pkg/devspace/dependency/resolver.go:43-62 | nothing is loaded at first |
| DependencyResolver.Resolver.ResolveRecursive | pkg/devspace/dependency/resolver.go:115-183 | the followed dependencies of a config are all in the graph afterwards, it has them as children in order, and children of the configs that are still being resolved are left alone |
| DependencyResolver.Resolver.ResolveOne | pkg/devspace/dependency/resolver.go:119-180 | one entry is passed over if it is skipped, not asked for or disabled, and followed otherwise |
| DependencyResolver.Resolver.Start | pkg/devspace/dependency/resolver.go:116-118 | the dependency starts with no children |
| DependencyResolver.Resolver.Follow | pkg/devspace/dependency/resolver.go:133-179 | one dependency is followed and appended to the children; this fails only if it cannot be downloaded or loaded, or something below it cannot |
| DependencyResolver.Resolver.AddChild | pkg/devspace/dependency/resolver.go:176-179 | the dependency becomes the last child, except of the root |
| DependencyResolver.Resolver.InsertEdge | pkg/devspace/dependency/resolver.go:142-174 | the dependency is in the graph afterwards, and below the root if the root asked for it |
| DependencyResolver.Resolver.AddNode | pkg/devspace/dependency/resolver.go:157-165 | a name is loaded only if it is not in the graph |
| DependencyResolver.Resolver.LoadDependency | pkg/devspace/dependency/resolver.go:157-173 | loading fails only if the config cannot be loaded; it resolves the dependency's own dependencies if and only if the config that asks for it wants them |
| DependencyResolver.Resolve | pkg/devspace/dependency/resolver.go:65-94 | resolution terminates on cyclic configs too, loads every name once, and returns in order the direct dependencies that are asked for, neither disabled nor filtered out; names loaded with their dependencies get theirs as children likewise; it fails if and only if the root, or a name that it comes to and does not load without its dependencies, asks for something that is missing, which without such names is anything reachable |
| IgnoredDependencies.FirstAskerDecides | pkg/devspace/dependency/resolver.go:142-173 | a name is loaded without its dependencies if and only if the config says so that asks for it first, in the order of the lists |
| IgnoredDependencies.HasFirstPath | pkg/devspace/dependency/resolver.go:115-183 | every loaded name has a first path from the root along which nobody was loaded without dependencies |
| IgnoredDependencies.LoadedIsReached | pkg/devspace/dependency/resolver.go:115-183 | exactly what the root reaches without going on from a name loaded without its dependencies is loaded |
| IgnoredDependencies.NoChildrenUnlessAskedFor | pkg/devspace/dependency/resolver.go:167-173 | a loaded name has no children if nobody asks for it with its dependencies |
| DependencyResolver.EverythingReached | pkg/devspace/dependency/resolver.go:115-183 | if no config asks to ignore dependencies, the graph's names are exactly those reached from the root |
| DependencyResolver.RootEdges | pkg/devspace/dependency/resolver.go:148-155 | edges to the root are refused, edges from the root to other nodes never |
| DependencyManager.Manager.ExecuteDependenciesRecursive | pkg/devspace/dependency/manager.go:102-208 | without failures it has entered what the depth-first search enters, by the same paths, and has acted on everything newly entered that passes the filters, children first; it fails only if the action fails on one of those; it returns, in order, the dependencies that were entered before their turn or whose dotted path passes the filters |
| DependencyManager.Manager.ExecuteDependency | pkg/devspace/dependency/manager.go:121-204 | a dependency is entered before, and acted on after, its own dependencies |
| DependencyManager.Manager.RunAction | pkg/devspace/dependency/manager.go:156-204 | the action runs once, if and only if the dotted path by which the dependency was entered passes the filters, and only then can it fail |
| FirstPaths.EnteredByPath | pkg/devspace/dependency/manager.go:102-150 | a dependency is entered by a path that repeats no name and avoids those entered before |
| FirstPaths.EnteredByFirst | pkg/devspace/dependency/manager.go:102-150 | no other such path comes before it in the order of the dependency lists |
| FirstPaths.FirstPathEntered | pkg/devspace/dependency/manager.go:102-150 | everything that can be reached is entered, and by its one first path |
| DependencyManager.HandleDependencies | pkg/devspace/dependency/manager.go:82-99 | on any graph, execution terminates; without failures every reached dependency is dealt with once, in an order in which each comes after its children unless they form a cycle with it; the action runs, in this order, exactly on those whose dotted path, as they are entered first, is among the chosen and not among the skipped ones; it returns the direct ones entered before their turn or let through themselves; it fails if and only if the action fails on one on which it is to run |
| DependencyManager.RunsByFirstPath | pkg/devspace/dependency/manager.go:102-164 | with filters, the action runs on a dependency if and only if they let it through by the first path to it, in the order of the dependency lists, that repeats no name |
| DependencyManager.DescendantsFirst | pkg/devspace/dependency/manager.go:130-154 | every dependency comes after all its descendants if and only if no cycle is reached |
| DependencyActions.ResolvedEdges | pkg/devspace/dependency/resolver.go:115-183 | the recorded children are the edges of the configs, except that the root has none |
| DependencyActions.ExecutedExactly | pkg/devspace/dependency/manager.go:77-82 | what execution reaches from the resolved children is what the configs ask for |
| DependencyActions.ResolveAndExecute | pkg/devspace/dependency/manager.go:77-99 | resolving and then executing, without filters: the action runs exactly once on every name that the configs ask for, after its own dependencies unless in a cycle with them; it fails if and only if something reachable is missing or the action fails on one of these names |
| DependencyActions.DescendantsRanBefore | pkg/devspace/dependency/manager.go:77-99 | without a cycle in the configs, everything comes after all that it depends on, directly or not |
| DependencyManager.GetDependencyByPath | pkg/devspace/dependency/manager.go:210-234 | the lookup succeeds if and only if the parts of the dotted path form a path that starts at a direct dependency, and gives its last node |
| DependencyManager.DottedIsLookedUp | pkg/devspace/dependency/manager.go:124-128 | the name by which the filters refer to a dependency is one by which it is looked up, if no name contains a dot |
| Tunnel.Session.constructor | helper/tunnel/session.go:47-62 | a new session is open and has an empty buffer |
| Tunnel.Session.Write | helper/tunnel/server.go:154-169 | bytes read are appended to the buffer, also together with an error, which closes the session |
| Tunnel.Session.Take | helper/tunnel/server.go:65-76 | the sender takes the whole buffer and whether the session is over |
| Tunnel.Session.Close | helper/tunnel/session.go:30-40 | closing leaves the buffer |
| Tunnel.TakeConserves | helper/tunnel/server.go:65-76 | taking moves the buffer into the response |
| Tunnel.ReaderConserves | helper/tunnel/server.go:136-177 | reading, buffering, looking at the open flag, and a close by the client keep the bytes of the session in order and none stranded |
| Tunnel.OneSessionConserves | helper/tunnel/server.go:136-177 | such a step of one session keeps the bytes of every session in order and none stranded |
| Tunnel.StepConserves | helper/tunnel/server.go:55-177 | every step of any goroutine keeps bytes in order and none stranded |
| Tunnel.ConservationInRun | helper/tunnel/server.go:55-177 | over all interleavings, accepted bytes are in order those sent, being sent, buffered and just read, and a non-empty buffer is about to be handed over or in the sender's hands |
| Tunnel.DeliveryGoesOn | helper/tunnel/server.go:55-177 | while accepted bytes are not sent, some goroutine can move on without a further read |
| Tunnel.ClosingComesLast | helper/tunnel/server.go:154-174 | as long as the client does not close this session, whatever it does to others, nothing follows a closing response of it, and after its reader has exited and the sender is idle all its bytes and a closing response have been sent |
| Tunnel.ServerClosesLast | helper/tunnel/server.go:154-174 | if the client closes none, this holds of all sessions |
| Tunnel.NothingFollowsExactly | helper/tunnel/server.go:65-76 | when the first closing response of a session has been taken, no continuation sends more of its data if and only if its reader is neither reading nor holding bytes that are not buffered yet |
| Tunnel.DataAfterClosing | helper/tunnel/session.go:30-35 | a run with data after a closing response: the client closes the session while its reader is reading |
| PullSecrets.NoChangeMeansPresent | pkg/devspace/pullsecrets/registry.go:104-106 | no change is seen if and only if the registry's entry is there and as wanted |
| PullSecrets.SecretStore.CreateSecret | pkg/devspace/pullsecrets/registry.go:81-89 | creating fails if the secret exists |
| PullSecrets.SecretStore.UpdateSecret | pkg/devspace/pullsecrets/registry.go:117-125 | updating fails if the secret is gone, and with a conflict if its version has changed |
| PullSecrets.AttemptedInSteps | pkg/devspace/pullsecrets/registry.go:71-130 | one poll is a client's step of reading and its step of writing, in whatever states they are taken |
| PullSecrets.Attempt | pkg/devspace/pullsecrets/registry.go:71-130 | one poll creates, updates, leaves, retries, fails or panics as these steps do, whatever others write before its read and between that and its request |
| PullSecrets.UndisturbedDecides | pkg/devspace/pullsecrets/registry.go:71-130 | the loop does not time out if in some poll nobody writes between the read and the request |
| PullSecrets.CreatePullSecret | pkg/devspace/pullsecrets/registry.go:50-136 | the loop polls until one poll decides or the time is over; undisturbed, it stores its entry and leaves the others: under the registry's address, or that of the Docker hub, the encoded user and password or the token alone, and an e-mail address; a secret without usable data is left as it is |
| PullSecrets.PutEffect | pkg/devspace/pullsecrets/registry.go:71-130 | an attempt leaves the server alone or writes the next version with only its own entry changed |
| PullSecrets.OthersEntriesStay | pkg/devspace/pullsecrets/registry.go:71-130 | no interleaving of clients removes an entry, and an entry is the same at two times unless a client of its registry has written to the server in between |
| PullSecrets.OwnersEntryStays | pkg/devspace/pullsecrets/registry.go:71-130 | an entry that one of the clients of its registry wants stays such an entry |
| PullSecrets.NoLostUpdate | pkg/devspace/pullsecrets/registry.go:71-130 | once a client is through, its registry has an entry of one of its clients, then and ever after; its own credentials, if no other client has this registry, whatever clients of other registries do |
| PullSecrets.SuccessMeansStored | pkg/devspace/pullsecrets/registry.go:71-130 | every client that is through was successful, and its entry was on the server at some time since its start |
| PullSecrets.AttemptsAreBounded | pkg/devspace/pullsecrets/registry.go:71-130 | with n clients and no other writers no client makes more than n attempts |
| PullSecrets.PanicsWithoutEntries | pkg/devspace/pullsecrets/registry.go:104-108 | an attempt assigns to a nil map if and only if the secret has no data or no map of entries |
| ServiceAccounts.Contains | pkg/devspace/pullsecrets/init.go:136-143 | whether the name is in the account that was read |
| ServiceAccounts.StepGrows | pkg/devspace/pullsecrets/init.go:124-157 | every step keeps the names as a prefix and without duplicates |
| ServiceAccounts.NamesOnlyGrow | pkg/devspace/pullsecrets/init.go:124-157 | over all interleavings names are only added, at the end, and never twice |
| ServiceAccounts.DoneMeansAdded | pkg/devspace/pullsecrets/init.go:136-156 | a client that is done finds its name in the account, then and ever after |
| ServiceAccounts.AccountStore.UpdateAccount | pkg/devspace/pullsecrets/init.go:146-153 | updating fails if the account is gone, and with a conflict if its version has changed |
| ServiceAccounts.AttemptedInSteps | pkg/devspace/pullsecrets/init.go:124-156 | one poll is a client's step of reading and its step of writing, in whatever states they are taken |
| ServiceAccounts.Attempt | pkg/devspace/pullsecrets/init.go:124-156 | one poll appends the name, leaves the account, retries or fails as these steps do, whatever others write before its read and between that and its request |
| ServiceAccounts.UndisturbedDecides | pkg/devspace/pullsecrets/init.go:124-156 | the loop does not time out if some poll finds the account and nobody writes between the read and the request |
| ServiceAccounts.AddPullSecretToServiceAccount | pkg/devspace/pullsecrets/init.go:119-163 | the loop polls until one poll decides or the time is over; undisturbed, it adds the name once, at the end, and leaves the others |
| DevPods.Manager.constructor | pkg/devspace/devpod/manager.go:55-61 | no pods at first |
| DevPods.Manager.Claim | pkg/devspace/devpod/manager.go:164-179 | a new pod takes the name unless some pod that was created for it is not done |
| DevPods.Manager.Find | pkg/devspace/devpod/manager.go:218-220 | the pod that has the name |
| DevPods.Manager.Delete | pkg/devspace/devpod/manager.go:227-229 | the name is free afterwards, the others stay |
| DevPods.Manager.Snapshot | pkg/devspace/devpod/manager.go:139-144 | exactly the pods in the map |
| DevPods.StepKeeps | pkg/devspace/devpod/manager.go:138-230 | every step keeps that pods which are not done are in the map, and what the threads know of it |
| DevPods.NoOrphanedPod | pkg/devspace/devpod/manager.go:159-230 | over all interleavings a pod that is not done is the map's entry for its name, so there is at most one for each name |
| DevPods.ClaimedExactly | pkg/devspace/devpod/manager.go:159-179 | over all interleavings, a start gets a new pod if and only if no pod created for the name is still running |
| DevPods.StopFindsRunning | pkg/devspace/devpod/manager.go:215-226 | over all interleavings, stop waits for the running pod of its name, if there is one |
| DevPods.WaitIsComplete | pkg/devspace/devpod/manager.go:75-157 | when Wait or Close returns, every pod that existed at its snapshot is done |
| DevPods.LocksExclude | pkg/devspace/devpod/manager.go:160-162 | two threads are never in locked sections of one name |
| DevPods.StopRemovesItsOwn | pkg/devspace/devpod/manager.go:217-230 | stop removes the pod that it has waited for, not a newer one, and no other name |
| FileIndex.Index.Set | pkg/devspace/sync/file_index.go:27-29 | the entry is stored under its name |
| FileIndex.Index.CreateDirInFileMap | pkg/devspace/sync/file_index.go:32-49 | the path and its ancestors are added as directories under their own names, present entries kept, nothing else added; the root itself never |
| FileIndex.Index.RemoveDirInFileMap | pkg/devspace/sync/file_index.go:53-65 | a present path is removed with everything below it; for an absent one nothing happens |
| FileIndex.TouchedIsCovering | pkg/devspace/sync/file_index.go:37-47 | the touched paths are the path and its ancestors |
| FileIndex.CreateKeepsTree | pkg/devspace/sync/file_index.go:32-49 | afterwards the path and its ancestors are there, nothing is lost, and every entry's ancestors are there |
| FileIndex.RemoveIsExact | pkg/devspace/sync/file_index.go:53-65 | nothing at or below the path remains and nothing else is touched, also when the path is absent |
| FileIndex.StaysATree | pkg/devspace/sync/file_index.go:27-65 | over any sequence of operations every entry's ancestors stay present |
| FileIndex.RemoveUndoesCreate | pkg/devspace/sync/file_index.go:32-65 | removing the topmost directory that a create has added restores the index |
| Purge.RemoteCache.GetDeployment | pkg/devspace/config/remotecache/schema.go:183-195 | the first entry of the name, or an empty one |
| Purge.RemoteCache.DeleteDeployment | pkg/devspace/config/remotecache/schema.go:197-209 | the entries of the name are dropped, the others keep their order |
| Purge.RemoteCache.SetDeployment | pkg/devspace/config/remotecache/schema.go:211-222 | the first entry of the name is replaced in place, or one is appended |
| Purge.OtherProjects | pkg/devspace/deploy/deploy.go:310-317 | the other projects, in order |
| Purge.PurgeDeployment | pkg/devspace/deploy/deploy.go:273-360 | one entry is left, loses the purging project, or is deleted; the others stay |
| Purge.Purge | pkg/devspace/deploy/deploy.go:257-361 | every entry that is named, or all if none is, is treated so, and what was deployed last is deleted first: gone, and deleted unless it never had an engine, if the purge is forced or made outside of a project or no other project uses it; otherwise it loses the purging project; nothing else changes |
| Purge.UndeployedAreRemoved | pkg/devspace/deploy/deploy.go:325-360 | what is deleted from the cluster is what disappears from the cache, except entries without an engine |
| Purge.RecordDeployment | pkg/devspace/deploy/deployer/kubectl/kubectl.go:198-206 | the first entry of the name, or a new one at the end, gets the engine, and the project besides those listed; other entries stay |
| Purge.DeletedByLastUser | pkg/devspace/deploy/deploy.go:309 | an unforced purge deletes exactly what no other project uses, if and only if the purging project is not the only user and listed more than once |
| Purge.NamesStayDistinct | pkg/devspace/config/remotecache/schema.go:197-222 | the cache never has two entries of one name |
| Purge.InCacheWhileUsed | pkg/devspace/deploy/deploy.go:308-360 | after any history of deploying and purging, forced or not, a deployment that was always made from a project is in the cache if and only if some project has deployed it and its use was not ended by a purge since; its entry lists exactly these projects |
| Purge.DeletedExactlyByLastUser | pkg/devspace/deploy/deploy.go:308-360 | an unforced purge deletes a deployment if and only if it selects it and no other project uses it; by a project that does not use it, or that does not select it, its entry is unchanged |

## Left out

- The transport: gRPC, protobuf, SSH, web sockets, standard-stream pipes and the Kubernetes API. A stream is the sequence of messages sent, with a number of sends that still succeed; the API server is one versioned object.
- `cmd/`, `docs/`, `ui/`, `e2e/`, plugins, hooks, logging, prompts, configuration loading and namespaces.
- Files: one snapshot of the tree per request, in which the base directory exists; no symbolic links, no permissions, no changes during one walk. The remote path does not end in a slash. Downloading the files themselves is not modelled.
- Time: the wall clock is a parameter of the requests; throttling, ping timeouts and polling intervals are left out. Watch events are assumed to be emitted at or above every recorded difference, together with it; they reach the queue later, in any order, and are dropped if it is full. The notify library is not part of this model.
- Copies: a map of pointers is modelled as a map of values, so `copyState` is the identity. Entries shared between states, and requests that run at the same time as each other, are not modelled.
- Patterns: in exclude lines only dots, question marks, stars and escaped stars are special. Other characters with a meaning in regular expressions are read literally, and file names have no newlines.
- IgnorePruning.IgnoredBelowIgnored: the condition on each line is sufficient for any number of lines. It is exact for one excluding line, and for one negating line after any excluding line that meets its condition; with other combinations one line may make up for another. Paths consist of names that are not empty.
- Incremental.IncrementalIsRescan: is about recursive watching and events strictly below the base. ShallowWatching has non-recursive watching, with events on the base's direct children; EventOnBase and EventOnBaseStays have events on the base.
- Mirroring.ClientMirrorsTree: assumes that no send fails (what was collected before a failed send is lost to the server, but a client whose request fails stops the sync), that watching is recursive, and that patches are guarded since some full walk. Equality is on the compared fields, not on the file mode.
- Dependencies: a name stands for one source; two sources of one name only give a warning in the program. Variables, profiles and clients that are passed on are left out, and so is the text of cycle errors.
- Tunnel.ClosingComesLast: is about streams that stay alive. The data sent by the client, the deletion of sessions after five seconds, and the end of the process are left out; session ids are never reused. A read that is going on when the connection is closed may still return data.
- Pull secrets: the runs have no other writers and no deletions, while the loops take whatever others do as a parameter, one turn for each poll before the timeout. No transient errors; JSON is a datatype and base64 a parameter.
- Dev pods: restarting, collecting errors in `StartMultiple`, and what Reset reverts. A pod may end at any time; that a cancelled or stopped pod does end is not stated.
- Purge: failures of hooks and of saving the cache. Deleting from the cluster is recorded by name; errors of it do not matter to the cache. Helm deployments are named by their release.
- File index: locking; paths are canonical and rooted at a slash, as the sync code builds them.
