# Verified model of the mutation-testing engine

The repository mutates Go programs: a walker edits one syntax tree in place, one mutation at a time; a driver copies
the project into a new directory for each mutation and saves the edited tree there; later the project is moved aside,
tests run against the mutants, and the project is moved back. This project models that engine in Dafny and proves what
it does on every tree, every project and every interleaving.

| files | what they model |
|---|---|
| `Sequences`, `Text`, `FileSystem` | path strings (`Split`, `Join`, `filepath.Clean`, the two gluing helpers) and the file system as a map from component paths to entries |
| `CopyRules`, `TreeCopy`, `CopyUtils`, `CopyOutcome`, `Disk` | copying a project into a directory below itself, and when that fails; `Disk` is the same code on one mutable disk |
| `Backup` | moving the project aside before the tests and back after them |
| `Ast`, `Noop`, `Locate`, `Mutators`, `Walk` | the syntax tree as a node store with aliased slices, the no-op statement, the mutators with their Change and Reset closures, and the walk |
| `SourceOrder`, `WalkMeaning`, `Offered`, `KeptVariables` | the walk against the source text and against what a program does, what every mutator offers on a whole tree, and what a mutant holds in the place of what it removes |
| `MutateRun`, `Protocol`, `Termination`, `Overlap`, `ProjectRun`, `Rerun`, `MutantScan`, `ScanMeaning` | one run of `mutate`: sequentially, as two processes over one unbuffered channel, its end, how far the two overlap, the files it leaves, the same run again, and how a later run finds the mutants |
| `AnyDisk` | what a run of `mutate` does on any disk, whatever lies in the way |
| `ManyFiles`, `ManyScanned` | `mutateFiles`: many files into one mutant folder, in any order, and how a later run finds them all |
| `Semantics`, `Congruence`, `Meaning`, `Polarity`, `ErrorBlocks` | what a tree means when it runs, calls of the functions it declares included, and what each mutant therefore means |
| `Names` | mutant names and the greedy pattern that reads them back |
| `Wildcards`, `WildcardSearch`, `WildcardFinds`, `WildcardSharing`, `WildcardMisses`, `RootSlash`, `Selection` | wildcard expansion over a shared array and below a root with or without a slash, and the set of files to mutate |

Conventions. Pointers are node ids; a slice is the id of its backing array, so two slice headers over one array see
each other's writes; "restored" means equality of the whole store. Errors of file-system calls are values (`Outcome`,
`Option`). Recursion without a bound of its own takes a `fuel` argument, and the theorems say for which fuel it ends,
or that none is enough. Type information, rendering of a tree, matching of a name against a glob, and of the
mutated program the arithmetic and the functions declared elsewhere are parameters; all theorems hold for every choice
of them.

## Model

| member | source | states |
|---|---|---|
| `Mutators.OfferedMutationsRestore` | mutator/statement/remove.go:43-57 | whatever any of the eight mutators offers at any node, Change makes a real difference and Reset gives back the very store, slice slots and node identities included |
| `Mutators.ResetUndoesChange` | mutator/branch/mutateif.go:22-34 | the same for every Change/Reset pair whose captured values are those of the store, of whatever kind the edit is |
| `Mutators.ChangeIsLocal` | mutator/branch/mutateelse.go:27-38 | a mutant differs from the original in one node or one slot of one backing array |
| `Offered.IfsOffered` | mutator/branch/mutateif.go:16-36 | branch/if offers, in the order of the walk, to empty every if there is, else-ifs and ifs with an else included, and nothing else: as many mutations as ifs, the `k`-th for the `k`-th if with the statements of its body |
| `Offered.CasesOffered` | mutator/branch/mutatecase.go:16-36 | branch/case likewise for every clause of every switch |
| `Offered.ElsesOffered` | mutator/branch/mutateelse.go:16-39 | branch/else likewise for every if whose else is a block |
| `Offered.OperandsOffered` | mutator/expression/remove.go:16-55 | expression/remove offers two mutations for every connective, and or or, first the left operand, then the right one, each for `true` or `false` as the operator wants |
| `Offered.RemovalsOffered` | mutator/statement/remove.go:31-60 | statement/remove offers, for every block and every clause in the order of the walk, each statement that is an expression, an increment or decrement, or an assignment other than `:=`, at its place and from first to last |
| `Offered.RemovalsCount` | mutator/statement/remove.go:31-60 | as many as there are such statements in all blocks and clauses |
| `Offered.TimeoutsOffered` | mutator/statement/removetimeout.go:16-41 | statement/timeout offers to zero every call that is a timeout |
| `Offered.HandlersOffered` | mutator/statement/removeblock.go:16-28 | statement/removeblock offers exactly the removable statements of the blocks to which a chain of error tests leads |
| `Offered.HandlersInOrder` | mutator/statement/removeblock.go:16-28 | if by if in the order of the walk, and in each block from first to last |
| `Offered.ErrorBodiesOffered` | astutil/locate.go:168-180 | in particular every removable statement of the body of an `if err != nil`, with error and nil in either order |
| `Offered.ReadsOfferedOnWalk` | mutator/distributed/readzero.go:14-28 | distributed/readzero offers exactly the zero assignments directly after the reads of all blocks, to the first variable on the left whose object is not an error |
| `KeptVariables.RemovedVariablesStay` | mutator/branch/mutateif.go:26-30 | what stands in the place of a removed statement, branch, case or else is one statement that blanks out, one for one and in order, the variables and the identifier-rooted selectors of the removed part that no selector encloses, each by its name, by itself, or as a composite literal if the field is an array, map, slice or struct; the empty statement if there are none |
| `KeptVariables.EveryVariableUsed` | astutil/query.go:38-96 | so every variable that occurs in the removed part is used there by its name, or through the outermost selector around it if that starts at an identifier |
| `Mutators.StatementMutationsExact` | mutator/statement/remove.go:17-56 | position `i` of a list is offered for removal exactly when its statement is an expression, an increment or decrement, or an assignment other than `:=` |
| `Mutators.CollectStatementMutations` | mutator/statement/remove.go:41-59 | the loop over the list collects exactly those mutations, in order |
| `Mutators.CollectReadZeroMutations` | mutator/distributed/readzero.go:14-28 | the loop over a block collects exactly the insertions, in order |
| `Mutators.RemoveBlockStaysInBlock` | mutator/statement/removeblock.go:16-26 | `statement/removeblock` edits only elements of the list of the block that the error-handling search returns |
| `Mutators.GrowList` | mutator/distributed/readzero.go:33-43 | copy, append and overlapping right shift give the old list with the new assignment at its index; the old array is only read |
| `Mutators.InsertedThenRemoved` | mutator/distributed/readzero.go:30-50 | the inserted element sits at its index, and taking that position out gives back the old list |
| `Mutators.AstHeap.RunChange` | mutator/branch/mutatecase.go:26-30 | the closures as they run on the shared tree: the new tree is the one `Change` computes, with the no-op built from the tree as it is then |
| `Mutators.AstHeap.RunReset` | mutator/branch/mutatecase.go:31-33 | the new tree is the one `Reset` computes from whatever tree it finds |
| `Walk.SitesFollowPreOrder` | walk.go:72-88 | the walk meets exactly the mutations of the nodes in pre-order |
| `SourceOrder.WalkFollowsText` | walk.go:72-88 | the nodes the walk visits are those whose text begins in the source text of the tree, each once, from first to last |
| `WalkMeaning.WalkedIsAllThatRuns` | walk.go:72-88 | two trees that agree on every node the walk visits below a node and below the declared functions, and on the lists of those nodes, give the node the same value, effects and outcome: the walk leaves out nothing that can run |
| `WalkMeaning.WalkedIsAllThatIsCalled` | walk.go:72-88 | likewise for every call of a declared function |
| `Walk.SitesRestore` | walk.go:77-85 | every mutation met anywhere in the tree is captured from the original, changes it at one place, and is undone by its Reset |
| `Walk.CountWalk` | walk.go:14-43 | the counting walk returns the number of mutations the mutating walk meets |
| `Noops.CollectsContributions` | astutil/query.go:38-96 | the pruned collection is the pre-order sequence of variable identifiers and identifier-rooted selectors that no selector encloses |
| `Noops.VariableKept` | astutil/query.go:27-96 | every occurrence of a variable is kept, by itself or through the selector chain around it, unless that chain starts at something else than an identifier |
| `Noops.CollectionConcat` | astutil/create.go:15-19 | collection distributes over concatenation of statement lists |
| `Noops.BlockNoop` | astutil/create.go:10-37 | a block and the list of its statements have the same no-op |
| `Noops.NoopShape` | astutil/create.go:21-36 | the no-op is the empty statement exactly if nothing is collected, and otherwise one blank on the left for each collected expression on the right |
| `Noops.IdentifierWalker.Walk` | astutil/query.go:10-96 | the visitor appends exactly the collected expressions to its field |
| `Noops.CreateNoopOfStatements` | astutil/create.go:15-37 | the loops build that no-op |
| `Protocol.StepKeeps` | walk.go:72-88 | every step of walker or driver and every rendezvous keeps the invariant: aligned program counters, tree equal to the original or to it with one mutation applied, work left equal to the mutations not yet handled, files equal to the sequential computation, messages and closes counted |
| `Protocol.MeetingsMatch` | cmd/mutation-framework/mutate.go:101-148 | although the channel runs both ways, only the intended sends and receives can meet, and neither side gets its own message |
| `Protocol.SingleOwner` | walk.go:77-84 | the tree is changed only by the walker, on Change while the driver waits or is on its way to wait, on Reset while it waits; while the driver copies and saves the walker is blocked and the tree is the original with exactly the mutation of the current id |
| `Protocol.TreeChangesIff` | walk.go:72-88 | a step makes a difference to the tree if and only if it is a Change or a Reset |
| `Protocol.UnawaitedChangeIff` | cmd/mutation-framework/mutate.go:99-149 | the tree changes while the driver is not waiting to receive if and only if the step is a Change and the driver is still counting |
| `Overlap.ChangeWhileCounting` | walk.go:72-88 | whenever the driver is about to acknowledge and the walker has another mutation of the node at hand, the next two steps can be that meeting and the next Change, with the driver still counting |
| `Overlap.OverlapIff` | walk.go:72-88 | some run changes the tree while the driver is not waiting if and only if some operator finds two mutations in the file |
| `Protocol.OriginalBetweenMutations` | walk.go:82-84 | after every Reset, between mutations and between operators the tree is the original |
| `Protocol.NeverStuck` | cmd/mutation-framework/mutate.go:99-149 | no reachable state is stuck before the driver has finished |
| `Protocol.FinishedRun` | cmd/mutation-framework/mutate.go:94-151 | every finished interleaving has the files and the list of the sequential computation, the original tree, four messages for each counted mutation and one close for each operator |
| `Termination.StepCosts` | walk.go:47-62 | every step and every rendezvous uses up a budget computed from the tree and the operators |
| `Termination.RunsEnd` | walk.go:47-88 | no run is longer than the budget of its first state |
| `Termination.MaximalIffFinished` | cmd/mutation-framework/mutate.go:94-151 | a run cannot be extended if and only if its driver has finished |
| `Termination.EveryRunFinishes` | cmd/mutation-framework/mutate.go:94-151 | every run, wherever it stands, extends to a finished one within the budget |
| `ProjectRun.MutateProducesTheMutants` | cmd/mutation-framework/mutate.go:86-152 | after any interleaving each mutation has its own directory, equal to the pruned project but for the one file, which holds the rendering of the original with exactly that mutation; no later mutant alters it; nothing else changes but missing parents; the returned list names the written mutants in order |
| `AnyDisk.ListedAreThere` | cmd/mutation-framework/mutate.go:113-139 | on every disk and in every finished interleaving: nothing disappears, no file becomes a directory or the other way round, and every mutant that is listed has its file |
| `AnyDisk.SavedIff` | cmd/mutation-framework/mutate.go:172-203 | a mutant is written and listed, or neither, and it is if and only if its tree can be rendered and its file can be written |
| `AnyDisk.HalfCopyStays` | cmd/mutation-framework/mutate.go:117-120 | when the copy of the project fails on its way, everything up to the entry that failed has been copied and stays |
| `Rerun.SecondRunChangesNothing` | cmd/mutation-framework/mutate.go:94-152 | whatever the interleavings, and with or without overwriting, a second run over the file leaves the disk as it is and returns the same list: without, every copy is refused and only the mutated file is written anew |
| `ProjectRun.DirsIncomparable` | cmd/mutation-framework/copy_utils.go:20-23 | directories of different operators or ids are different and none lies in another |
| `ManyFiles.AllMutantsIff` | cmd/mutation-framework/mutate.go:30-76 | for distinct files with something to mutate, in any order and interleaving: every mutant of every file is, at the end of the whole run, the pruned project of the start with its one mutation, if and only if no file lies below a directory named like a mutant of another one |
| `ManyFiles.AllMutantsSurvive` | cmd/mutation-framework/mutate.go:35-63 | if so, no `MkdirAll` panics, the mutants of all files done so far are complete after every round, and outside them only the directories on the way are new |
| `ManyFiles.ListsCollected` | cmd/mutation-framework/mutate.go:59-65 | and the list returned holds, file by file, exactly the mutants that were written |
| `ManyFiles.NotBothComplete` | cmd/mutation-framework/copy_utils.go:20-23 | a mutant that is to hold another file's mutant and that mutant are not both complete, whatever has happened |
| `ManyFiles.InsideIff` | cmd/mutation-framework/mutate.go:68-76 | a mutant of one file lies above the place of another file's mutants if and only if the second path passes through the first file's directory and an entry there with that mutant's name |
| `ManyFiles.OrderDoesNotMatter` | cmd/mutation-framework/mutate.go:35 | two runs over the same files in different orders of the map end with the same disk |
| `MutantScan.ScanFindsEverySite` | cmd/mutation-framework/test_runner.go:43-127 | after any finished run over a file whose directories are not named as the pattern says, the scan of the mutant folder finds each mutation site exactly once, under the original path and the directory and file that `mutate` used, or nothing if the file is not wanted |
| `MutantScan.ScanAgreesIff` | cmd/mutation-framework/test_runner.go:43-127 | the scan and the list returned by the run hold the same mutants if and only if the file is wanted and every mutated tree could be rendered, or it is not and none could |
| `ScanMeaning.ScanMeans` | cmd/mutation-framework/test_runner.go:52-127 | on any file system the scan finds an entry if and only if a way leads to it through directories that are no mutants, and before no directory of the way is listed a mutant whose file is missing; it fails if and only if the mutant folder cannot be listed or itself holds such a mutant |
| `ManyScanned.ScanFindsAllFiles` | cmd/mutation-framework/test_runner.go:43-127 | after `mutateFiles` has gone through Go files of whose directories none is named as the pattern says, in any order and interleaving, the scan does not fail and finds exactly the mutation sites of all wanted files, under the original paths and the directories and files that `mutate` used |
| `FileSystem.CopyFileMeans` | osutil/copy.go:47-81 | copying a file succeeds if and only if it is a file and the destination has a directory to hold it and is none itself; then only the destination changes, into the original's content, or into nothing if it is the original |
| `CopyUtils.FreshCopy` | cmd/mutation-framework/copy_utils.go:26-90 | a copy to a fresh place finishes without error; it is the source without the directories skipped at any depth; elsewhere only missing parents of the destination appear |
| `CopyUtils.RecursiveCopied` | cmd/mutation-framework/copy_utils.go:26-90 | the same with overwriting over an existing destination, merged entry by entry, as long as no file meets a directory |
| `CopyOutcome.CopySucceedsIff` | cmd/mutation-framework/copy_utils.go:26-90 | the copy, to a place that is free or may be overwritten, returns no error if and only if no kept entry meets one of the other kind there |
| `CopyUtils.CopyEndsIff` | cmd/mutation-framework/copy_utils.go:67-80 | copying a directory to a fresh place below itself ends if and only if the way there crosses a skipped name |
| `CopyUtils.RelativeFolderBlocks` | cmd/mutation-framework/copy_utils.go:92-115 | a relative mutant folder always blocks that way |
| `CopyUtils.DottedFolderNeverEnds` | cmd/mutation-framework/copy_utils.go:92-115 | written with a leading `./`, a folder of two or more components blocks nothing, and the copy never ends |
| `CopyUtils.AbsoluteFolderBlocks` | cmd/mutation-framework/copy_utils.go:101-115 | an absolute folder inside the working directory blocks the way only by accident: if the way contains the name of its top directory, or `.git` |
| `CopyUtils.MutantDirDenoted` | cmd/mutation-framework/mutate.go:160-169 | the path string built for a mutant denotes its directory however the slashes of its parts fall |
| `CopyRules.RelativeFolderSkips` | cmd/mutation-framework/copy_utils.go:92-97 | exactly the first component of the folder and `.git` are skipped |
| `CopyRules.FilterIsStable` | cmd/mutation-framework/copy_utils.go:120-128 | although the predicate overwrites its captured variable, all its calls agree |
| `CopyRules.MoveFilter.IsNotMutantsFolder` | cmd/mutation-framework/copy_utils.go:120-128 | what one call answers and leaves in the captured variable |
| `CopyRules.FilterMeaning` | cmd/mutation-framework/copy_utils.go:118-131 | a name is rejected exactly when it occurs in the folder's name, or below a nested folder also contains it |
| `Disks.Disk.CopyRecursive` | cmd/mutation-framework/copy_utils.go:26-90 | the loop on one mutable disk ends as the value-level copy does, in success, in error and in depth; an existing destination without overwrite is refused and nothing changes |
| `Disks.Disk.CopyFolderContents` | cmd/mutation-framework/copy_utils.go:135-165 | likewise for the move, including the errors of subdirectories that are dropped |
| `Disks.Disk.MoveAllContentsExceptMutantFolder` | cmd/mutation-framework/copy_utils.go:118-131 | likewise with the stateful filter |
| `Backup.OriginalDenoted` | cmd/mutation-framework/test_runner.go:161-165 | the path string of the backup denotes the directory `original` in the mutant folder |
| `Backup.BackupRuns` | cmd/mutation-framework/test_runner.go:161-170 | the backup into the mutant folder below the project runs without error |
| `Backup.BackupTaken` | cmd/mutation-framework/test_runner.go:161-170 | it holds exactly the selected entries, and the project is untouched |
| `Backup.RestoreBrings` | cmd/mutation-framework/test_runner.go:173-188 | after any test run outside the backup that changed no entry's kind, the restore brings back every selected entry and touches nothing else |
| `Backup.RestoreIff` | cmd/mutation-framework/test_runner.go:161-188 | everything selected is back if and only if the test run turned no selected file into a directory and no selected directory into a file |
| `Meaning.MutantMeansIntended` | mutator/statement/remove.go:48-55 | the six removing operators: in every program, world and fuel, every expression of the mutant has the value and trace, and every statement the outcome, of the program in which the statement is deleted, the logical operator replaced by its other operand, the branch or case empty, the else gone; the mutation may sit in a function of the file, and is felt wherever that is called, recursion included |
| `Congruence.CallAlike` | astutil/create.go:10-37 | a call of a function of the file runs alike in two trees that differ by neutral operands and statements without effect, wherever in them the difference lies |
| `Meaning.NoopRuns` | astutil/create.go:14-37 | running the generated statement ends in the very world it started in: no variable, heap cell or trace is changed |
| `Meaning.ReadZeroMeans` | mutator/distributed/readzero.go:14-50 | the block runs up to and including the read, the first variable on its left that has an object of another type than `error` becomes zero, and the block goes on |
| `Meaning.InsertionsExact` | mutator/distributed/readzero.go:14-28 | a position of a block gets an insertion directly after it if and only if its statement assigns from a read and has a variable for the byte count on its left |
| `Meaning.TimeoutMeans` | mutator/statement/removetimeout.go:16-38 | in every program, world and fuel, every expression and statement of the mutant runs as in the program whose call has the literal 0 as its only argument |
| `Meaning.TimeoutCall` | mutator/statement/removetimeout.go:29-33 | at the call itself the function is evaluated as before, the old arguments are not, and zero is passed |
| `Polarity.RemovalIsDirected` | mutator/expression/remove.go:25-54 | with operands that have truth values and no effect, and that do not themselves run the edited condition: under an even number of negations the original implies a mutant of a conjunction, and a mutant of a disjunction implies the original; under an odd number the reverse |
| `Polarity.RemovalIsDirectedElsewhere` | mutator/expression/remove.go:25-54 | the same without that last condition if no call in the condition can run a function of the file |
| `ErrorBlocks.BlockHandlesAnError` | astutil/locate.go:168-228 | an if chain of any length enters the returned block exactly when it reaches the test that owns the block and the error tested there is not nil |
| `ErrorBlocks.ChainRunsItsBlock` | astutil/locate.go:168-204 | running the chain is running the block it enters, from the world it enters it in |
| `ErrorBlocks.ReturnedIff` | astutil/locate.go:168-241 | a block is returned if and only if a chain of ifs leads to it, each the else of the one before and testing `err == nil`, whose last one tests `err != nil` before the block or `err == nil` with the block as its else; a test compares, in either order, an identifier whose object is of type `error` with one whose object is the untyped nil |
| `Names.NamesEqualIff` | cmd/mutation-framework/mutate.go:154-158 | for operator names without a dot, two mutant names are equal if and only if file, operator up to the replacement of slashes, and id are |
| `Names.SafeNameInjective` | cmd/mutation-framework/mutate.go:154-157 | without dashes of their own, operator names survive the replacement |
| `Names.SlashAndDashCollide` | cmd/mutation-framework/mutate.go:154-158 | operators that differ in a slash and a dash get the same names |
| `Names.FindMatchMeaning` | cmd/mutation-framework/test_runner.go:138-140 | the pattern search returns the leftmost match and there the longest group, or nothing if nothing matches |
| `Names.DecodesIff` | cmd/mutation-framework/test_runner.go:138-143 | the pattern reads the file name back from a printed name if and only if the operator name does not mention `go` |
| `Names.NameRoundTrip` | cmd/mutation-framework/test_runner.go:93-143 | a printed directory is recognised as a mutant and leads back to the path of the file |
| `Names.IsMutantIff` | cmd/mutation-framework/test_runner.go:92-96 | a directory is taken for a mutant if and only if its cleaned name splits as the pattern says: name characters, any character, `go`, name characters, any character, a digit |
| `Names.NotAMutant` | cmd/mutation-framework/test_runner.go:92-96 | so no name without `go`, or without a digit behind it, is taken for one |
| `Names.RecognisedIsRead` | cmd/mutation-framework/test_runner.go:138-143 | and of every name that is taken for one the file name can be read |
| `Names.DecimalUnique` | cmd/mutation-framework/mutate.go:154-158 | the id is printed in the one way that has no leading zero |
| `Names.RegisteredNamesAreGood` | mutator/statement/remove.go:13-15 | the names the mutators register meet those conditions |
| `Names.RegisteredNamesDiffer` | mutator/branch/mutateif.go:11-13 | and differ after the replacement |
| `Text.HasSuffixIff` | cmd/mutation-framework/config.go:178-188 | the suffix tests of the gluing helpers hold if and only if the text is something followed by the suffix |
| `Text.ContainsIff` | cmd/mutation-framework/copy_utils.go:128 | what the name filter tests is containment: the text is something, the part, and something |
| `Text.CleanLeadsSame` | cmd/mutation-framework/config.go:316-326 | a cleaned path leads where the path led, from every directory and with `..` anywhere, and has no piece left that could be dropped |
| `Text.AppendFolderComps` | cmd/mutation-framework/test_runner.go:130-136 | gluing two path strings concatenates what they denote, however the slashes fall |
| `WildcardMisses.CopiedIsExact` | cmd/mutation-framework/config.go:353-411 | a search that copies its pieces lists, without duplicates, exactly the files that fit the pattern, for any number of wildcards |
| `WildcardMisses.SharedIsExact` | cmd/mutation-framework/config.go:353-411 | so does the search of the program, with its shared array, if at most one piece is a wildcard |
| `WildcardMisses.SharedSearchExactIff` | cmd/mutation-framework/config.go:371-379 | the search of the program is right on every tree if and only if at most one piece is a wildcard |
| `WildcardMisses.TwoWildcardsMiss` | cmd/mutation-framework/config.go:371-379 | for every pattern with two wildcard pieces there is a tree with a file that fits and is not found |
| `RootSlash.RootSlashIff` | cmd/mutation-framework/config.go:122-124 | for every root and every pattern that something can fit: with at most one wildcard the program's search, and with any number the copying one, lists the wanted files of every tree if and only if the root was written with a slash at its end; wildcards are expanded before the configuration appends that slash |
| `RootSlash.SearchRightIff` | cmd/mutation-framework/config.go:295-411 | both conditions together: the program's search is right on every tree if and only if the root ends in a slash and at most one piece is a wildcard |
| `RootSlash.SplitGlue` | cmd/mutation-framework/config.go:312-326 | one path string put behind another has the last piece of the one and the first piece of the other as one piece |
| `WildcardSearch.FitsIff` | cmd/mutation-framework/config.go:439-467 | a piece with exactly one star stands for the ordinary names its glob matches, for all if it is just the star; any other piece stands for itself |
| `WildcardSearch.CleanKeepsPlace` | cmd/mutation-framework/config.go:312-326 | cleaning a path without `..` keeps what it denotes |
| `Selection.PathOf` | cmd/mutation-framework/config.go:417-436 | the loops build the pieces, each followed by a slash |
| `Selection.ExpandWildCardRecursive` | cmd/mutation-framework/config.go:295-411 | the recursion on one array ends on star-free directory names, by pieces left and then whether the current piece is a wildcard; it returns the paths, and leaves the array, as `Expand` with sharing says |
| `Selection.ExpandWildCard` | cmd/mutation-framework/config.go:273-276 | splitting a path and searching from its first piece |
| `Selection.Targets.ExpandWildCards` | cmd/mutation-framework/config.go:251-271 | both lists of the configuration become their unexpanded paths followed by the expansions |
| `Selection.Targets.GetIncludedFiles` | cmd/mutation-framework/config.go:212-235 | the included paths without the excluded ones |
| `Selection.SelectedExactly` | cmd/mutation-framework/config.go:212-293 | for paths with any number of stars but at most one wildcard piece each, a file is mutated if and only if an included path stands for it and no excluded path does; a path stands for itself unless it has exactly one star, and for what fits it if it has any |
| `Selection.OneStarIsEnough` | cmd/mutation-framework/config.go:439-448 | paths with at most one star are among those |
| `Selection.RevisedMeans` | cmd/mutation-framework/config.go:251-293 | for all paths: the revised list holds the paths that do not have exactly one star, and what the search finds for those that have any |
| `Selection.PatternStays` | cmd/mutation-framework/config.go:278-287 | a pattern stays in the list as if it were a file name if and only if it holds two or more stars |
| `Selection.WantedIsWholeFit` | cmd/mutation-framework/config.go:388-396 | if no literal directory of the pattern is a file, the wanted paths are the regular files that fit it piece by piece |

## Conditions

- The parsed tree has no sharing with what the mutators create, and children have smaller ids than their parents
  (`GoAst.Parsed`); `ErrorBlocks` also uses that it is a forest and that an untyped nil object is written `nil`.
- `MutateRun.Config` holds the arguments of a run and what follows from them; `ValidRun`, `NamesMutants` and
  `CopiesProject` say that its fields are the mutations the walk meets, the directories of the printed names, and the
  effect of `copyProject`.
- `MutantScan.CleanStart`: besides `Prepared`, the mutant folder holds nothing but the directories that `mutateFiles`
  creates for the file, whose names do not split as the pattern for mutants says.
- `ProjectRun.Prepared`: relative mutant folder of ordinary components with a slash at its end, working directory equal
  to the project root, distinct operators, a file name that is not skipped, no mutant directory there yet.
- `ManyFiles.AllReady`: each file by itself is `Prepared` at the start, and no file is there twice. A file that does not
  parse ends the loop, with the disk as after the files before it.
- `WildcardSearch.TreeOk`: the root is a directory, names are ordinary, directory names hold no star; `Usable` adds that
  the string of the root ends in a slash. Patterns have no piece `..`; the equivalences also want non-empty pieces with
  at most one star each, and names for each wildcard to stand for (`Ample`: two, `Fillable`: one). An empty root is
  refused by the configuration.
- In `Semantics`, reading a name or a field is total and has no effect, and `true`, `false` and `nil` are not shadowed.
  The functions and methods that the tree declares are run, on variables of their own; `call` stands only for those
  declared elsewhere.
- `Meaning.TimeoutMeans` compares with a tree that has a literal 0 among the nodes numbered below the call;
  `LiteralAdded` puts one under any unused number, and `TimeoutCall` needs none.

## Where the code departs from its description

- Two wildcard pieces: the name `newPathPieces` suggests a copy, but the array is shared, so files are missed
  (`TwoWildcardsMiss`); such a pattern also stays in the list (`PatternStays`).
- `moveAllContentsExceptMutantFolder` is described as ignoring the mutants folder, but also leaves out every entry whose
  name is part of the folder's name (`FilterMeaning`), so those are neither backed up nor restored.
- The skip test is meant to keep the copy out of its own destination, but a folder written with `./`, or an absolute
  one, is entered (`DottedFolderNeverEnds`, `AbsoluteFolderBlocks`).
- A copy of the project that fails is logged and otherwise ignored (`HalfCopyStays`); if the mutated file can still be
  written, the mutant is listed (`SavedIff`).
- A mutant whose tree cannot be rendered is not listed by `mutate`, but its directory, an unmutated copy of the
  project, stays and is found by a later run without mutation (`ScanAgreesIff`).
- The description of `mutate` has walker and driver take turns; in fact the next Change may run while the driver is
  still counting up its id, before it waits (`ChangeWhileCounting`, `OverlapIff`). The tree is not read there, so
  nothing is lost (`SingleOwner`).
- Wildcards are expanded while the root may still be without its slash, and then find nothing (`RootSlashIff`).
- A file below a directory that is named like a mutant of another file loses its mutants or spoils the other's
  (`AllMutantsIff`).

## Left out

- `MutatorSwap` and everything about network versions and network-call replacement: random choice, closures that are
  nil, and error tests that are inverted.
- `IsTimeoutCall`: a given set of calls.
- The checksums and packages that `createNewMutantInfo` reads.
- Checksums and the duplicate list: the list is made anew for each mutation, so nothing is ever a duplicate.
- File permissions, symbolic links, the final removal of the backup, and failures of the operating system other than
  those the file-system map can show.
- Printing, formatting, parsing and type checking of Go; whether a mutant compiles. A mutated `else` holds a bare
  statement where Go's grammar wants a block; what the printer makes of it is up to `render`.
- The general regular expressions behind globs: `matches` is any test of a name against a glob.
- Goto, labels, select, defer, goroutines, function literals and panics of the mutated program are not given a meaning
  of their own; loops and calls have a fuel bound, the same on both sides of every equation.
- Running tests, exit codes, `determinePassOrFail`, statistics, the failed-tests map, logging, flags, JSON and YAML.
