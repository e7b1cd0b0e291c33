# LoopMaster: a verified model

LoopMaster runs *loops*: trees of steps, parallel groups and conditionals. An engine walks the tree,
records each step, saves checkpoints, and resumes from them after a crash; checkpoints migrate between
loop versions; loops are written in a Python DSL or in LoopSpec documents; detached workers and people
report into job and question tables that several processes share. This project models those parts in
Dafny and proves what they promise, for all inputs, runs and interleavings. `dafny verify dfyconfig.toml`
checks everything.

## How the files fit together

| files | part of LoopMaster |
|---|---|
| `Values`, `Strings`, `Blocks` | values, strings, and the loop tree with its static conditions |
| `Engine` | the engine: `BlockExecContext` updates its state in place and is proved against the value function `RunAll`, which includes budget stops, cancellation, lost heartbeats, raising steps and raising callbacks |
| `Moments` | what one step does case by case, what every checkpoint holds, and what stops a run, field by field |
| `Resume`, `Safety`, `BudgetBounds` | what holds over whole histories of interrupted and resumed runs |
| `ResumeExact`, `BranchExact`, `OrderExact`, `Literals` | the exact static conditions; `Literals` carries them over to trees with boolean literals as conditions |
| `Sharing`, `Reuse` | runs that share a checkpoint object's or the caller's context dictionary, and which objects may be resumed twice |
| `LoopSpec`, `Compiler`, `Scope`, `ScopeRun` | the LoopSpec loader, the DSL compiler, the scope checker, and their meaning for runs |
| `Versions`, `Migration`, `RenameRun` | version strings, the migration graph and its search, migrating checkpoints, and what a rename means for runs |
| `Jobs`, `JobStore`, `Messages`, `HumanInput` | the shared job and question tables, and the step that waits for a person |
| `Collect`, `Replay`, `Retry`, `Prompt` | collecting a written tree, replaying a recording, retrying a step, marked prompts |

A step is an oracle from the step and the context to a result; a condition is a function of the context.
A *history* is any sequence of independent sessions, each fresh or resumed from a checkpoint saved by an
earlier one; every session has its own environment (world, faults, budget, protection). The engine works
on the context dictionary it is given, so sessions are independent only under a condition that a caller can
check (`Sharing.Guarded`): each starts from a checkpoint reloaded from its stored copy, or from a checkpoint
object (or initial dictionary) from which no earlier session executed a step. Under it runs that share
memory are a history (`Sharing.GuardedIsHistory`), so the results about histories apply to them.

## Main results

1. **Crash and resume** (`Resume.CrashResumeEquivalence`, for runs that share memory
   `Sharing.SharedResumeEquivalence` under `Guarded`): on a `Resumable` tree every history that ends
   normally ends with the executed order, context and results of one uninterrupted run. With literal
   conditions replaced by the branch they take (`Prune`), the condition, a syntactic check of the tree, is
   exact (`Literals.ResumableExactly`) for trees that write no condition twice outside never-taken branches:
   each of them that fails it has a world and a checkpoint from which resuming gives another outcome. With a
   repeated condition a tree may fail it and still be faithful (`Literals.RepeatedConditionFaithful`).
   The guard is exact: whatever session of whatever history saved a checkpoint, and whatever the first run
   from its object does, a second run from the object ends in every world as the first would have, if and
   only if no run from that checkpoint can execute a step (`Reuse.ReuseExactly`, for any tree;
   `Reuse.FaithfulFromExactly`, against the uninterrupted run). So over all checkpoints of a resumable tree a
   second run is faithful exactly when no choice of branches has a step (`Reuse.AlwaysFaithfulExactly`).
2. **Safety with arbitrary step outcomes**: nothing runs twice; trees without conditionals run a prefix; on
   `BranchSafe` trees both branches never run, and on `Ordered` trees, which all `Resumable` ones are, steps
   run in declaration order. Both conditions, taken on the pruned tree, are exact under the same proviso
   (`Literals.BranchSafeExactly`, `OrderExact.OrderedExactly`).
3. **Budgets**: the step bound, the totals as sums over the run's own steps, both limits before each step.
4. **Scoping**: the checker accepts exactly the documents whose conditions can be evaluated and whose
   references all resolve; in an accepted document a step that is certain at its reader has run before it,
   over any history.
5. **Compilation** (`Compiler.CompilingKeepsMeaning`): whatever compiles, with step names distinct and apart
   from block names, loads back as a tree that runs as the written one does, when a loaded step returns what
   the written step of its name returns. The loaded tree is the written one, up to the opaque payload of
   leaves and the names of conditionals, exactly when `Uniform` holds.
6. **Migration**: breadth-first search returns a shortest chain or none exists; migration is atomic; and to
   crash, rename a step in checkpoint and loop, and resume ends as one uninterrupted run of the renamed loop
   (`RenameRun.MigratedResumeEquivalence`).
7. **Shared tables**: terminal statuses absorb under all interleavings of the read and write halves of
   every call, up to the one statement that does not look at the status; questions are write-once.
8. **Small algorithms**: the prompt-marker round trip and the idempotence of version normalisation, each
   with its exact condition, the version round trip, replay queues, retry and backoff, the bounded human
   wait, collecting the written tree.

## Where the code and its documentation disagree

The model follows the code.

- `src/loopmaster/spec/compiler.py:3-7` says that constructs without an equivalent raise; an executor
  step's own `retry`/`on_error` is dropped without an error (`Compiler.PolicyDropped`), and the denied
  capabilities of one code block are applied to all of them (`Compiler.DenialsSpread`).
- A resumed run re-decides a conditional none of whose *direct* step or conditional children has run. An
  `if` without else that is followed by another step can therefore be decided differently
  (`ResumeExact.IfWithoutElseUnfaithful`), and a branch that opens with a parallel group can end with
  both branches executed (`BranchExact.ParallelFirstCrosses`). The conditions are `Resumable`, `BranchSafe`
  and, for the order of steps, `Ordered`.
- A run resumed from a checkpoint object writes into that object's own context dictionary, but not into its
  executed names. A second resume from the same object, instead of its stored copy, repeats steps on the
  later context: with a checkpoint saved before the only step of a loop (`Reuse.OneStepDiverges`) or between
  two steps (`Reuse.TwoStepsDiverge`). The objects for which it does no harm are exactly those from which
  nothing can run (`Reuse.ReuseExactly`).
- The startup sweep's UPDATE does not repeat the status guard of its SELECT, so it can turn a job that
  completed in between into an interrupted one (`Jobs.SweepClobbersExample`).
- A policy that aborts does not stop the loop or the retries: `Retry.AbortUsesAllAttempts`.
- Restoring a prompt leaves part of the injected text behind when that text holds a closing marker of its
  own (`Prompt.RestoreExactly`, `Prompt.ClosingMarkerStays`).
- Normalising some unparseable version strings twice is not the same as once
  (`Versions.NormalizeTwiceDiffers`); `Versions.NormalizeTwiceExactly` says for which strings it is.
- Migrating to a version with the same normal form returns the checkpoint as it is, with the old spelling
  (`Migration.KeepsOldSpelling`; `Migration.MigrateCheckpoint` says exactly when the result bears the target
  version).

## Model

| member | source | states |
|---|---|---|
| Engine.BlockExecContext.constructor | src/loopmaster/core/state.py:17-49 | A run starts empty, or from the names, results and context of a checkpoint; it works on the context object it is given, and its totals start at zero |
| Engine.BlockExecContext.TakeCheckpoint | src/loopmaster/core/state.py:52-91 | The checkpoint appended bears the loop's name, version and hash, and holds exactly the current executed names, their number, the context and the results: each with its name, success, error, tokens and cost, a step output as its dictionary of updates and any other output as it is; nothing else changes |
| Engine.BlockExecContext.ApplyStepResult | src/loopmaster/core/state.py:134-199 | The name is appended, the result recorded, and the output merged by its shape; failed steps count as executed |
| Engine.BlockExecContext.ExecuteSingleStep | src/loopmaster/core/runner.py:37-78 | One step with its checkpoints before and after, a raising step and a raising callback, as the specification `ExecuteStep` |
| Engine.BlockExecContext.RunConditionalBlock | src/loopmaster/core/runner.py:81-114 | A conditional sticks to a branch with an executed direct child, then-branch first, and otherwise evaluates its condition |
| Engine.BlockExecContext.RunStepBlock | src/loopmaster/core/runner.py:117-176 | Executed steps are skipped; cancellation, heartbeat and limits are looked at in this order before a step, and a limit saves a checkpoint |
| Engine.BlockExecContext.RunBlocks | src/loopmaster/core/runner.py:179-221 | The whole walk ends in the state `RunAll` gives, stopped or not |
| Engine.RunLoop | src/loopmaster/core/engine.py:141-177 | A whole run of a checkpoint that is not migrated first: it ends in the state `RunAll` gives, and the dictionary of the checkpoint object resumed from, or the caller's non-empty initial one, ends with the final context, while the object's names and results stay |
| Moments.SavedTell | src/loopmaster/core/runner.py:117-221 | Every checkpoint of every run, wherever it is saved, tells in all these fields of one moment of the run: executed names that continue the start, the results of just those steps, and their merge into the context in order |
| Moments.StopsFor | src/loopmaster/core/runner.py:117-221 | Why a run stopped: a cancellation, lost heartbeat or exception belongs to a step it came to, a limit to the totals; a limit, a lost heartbeat and an unexpected exception leave a checkpoint of the end, and a run that was not stopped executed no troubled step |
| Moments.StepHindered | src/loopmaster/core/state.py:94-131 | Cancellation, heartbeat (under protection), steps, cost and tokens are looked at in this order before a step; the first in the way stops the run before the step, and all but the cancellation leave a checkpoint that the engine does not hold |
| Moments.StepRaising | src/loopmaster/core/runner.py:139-221 | A step that raises is not executed; an unexpected exception leaves a checkpoint that the engine holds, an error of the loop's own kind only the one before the step |
| Moments.StepReturning | src/loopmaster/core/runner.py:139-176 | A step that returns is executed, its result kept and merged; unless the callback raises, cost and tokens are added and the run goes on; checkpoints before and after by the protection flags, after also without protection |
| Moments.BranchRule | src/loopmaster/core/runner.py:81-114 | A conditional takes the branch with an executed direct step or conditional, then-branch first; otherwise a literal is its own value and anything else is evaluated |
| Moments.RunOrder | src/loopmaster/core/runner.py:81-221 | A run visits a list in order, a group as its children one after the other, a conditional as the branch taken |
| Moments.MergeByKey | src/loopmaster/core/state.py:146-158 | A failed step sets its key to null; a step output or a dictionary sets its own keys, any other output the key of the step; no other key changes |
| Resume.RunIsWalk | src/loopmaster/core/runner.py:117-176 | Whatever stops a run and wherever it saves, its state and every checkpoint is a cut of the unlimited walk of the same tree |
| Resume.TraceClosed | src/loopmaster/core/runner.py:83-94 | Continuing any cut of a resumable walk stays on the same walk and completes to the same end |
| Resume.FaithfulHistory | src/loopmaster/core/state.py:17-91 | By induction over histories of independent sessions, every session of a deterministic world is a cut of one uninterrupted run |
| Resume.CrashResumeEquivalence | src/loopmaster/core/runner.py:81-176 | Any number of crashes and resumes, each from a checkpoint as it was saved, ends with the executed order, context and results of one uninterrupted run, and every saved checkpoint resumes to it |
| ResumeExact.PlainResumableExactly | src/loopmaster/core/runner.py:83-123 | On a `Resumable` tree resuming is faithful in every world from every checkpoint, and on no other tree whose conditions are pairwise different expressions |
| ResumeExact.IfWithoutElseUnfaithful | src/loopmaster/core/runner.py:83-114 | A concrete tree, an if without else and a step, on which resuming is not faithful |
| Literals.PruneHistory | src/loopmaster/core/runner.py:97-114 | A tree and the one with each literal conditional replaced by the branch it takes run alike in every history |
| Literals.PruneResumable | src/loopmaster/core/runner.py:97-114 | A tree that is resumable as written is resumable when pruned, so `PrunedResumeEquivalence` covers `CrashResumeEquivalence` |
| Literals.PrunedResumeEquivalence | src/loopmaster/core/runner.py:81-176 | Crash and resume equivalence for trees that are resumable once literal conditionals are replaced |
| Literals.ResumableExactly | src/loopmaster/core/runner.py:83-123 | Literal conditions admitted: a resumable tree is resumable when pruned; resuming is faithful in every world from every checkpoint if the pruned tree is `Resumable`, and only if, when that writes no condition twice |
| Literals.RepeatedConditionFaithful | src/loopmaster/core/runner.py:83-114 | A concrete tree with one condition written twice that resumes faithfully without being `Resumable` |
| Sharing.UntouchedIntact | src/loopmaster/core/state.py:17-91 | A checkpoint object from which no run executed a step equals its stored copy, and so does the initial dictionary |
| Sharing.LaunchLeaves | src/loopmaster/core/state.py:17-91 | One launch leaves its object with the old names and the final context, a non-empty initial dictionary with the final context, every other object as it was, and its checkpoints as new objects with copies |
| Sharing.GuardedIsHistory | src/loopmaster/core/state.py:17-49 | Runs that share memory, guarded so that each starts from a reloaded checkpoint or an object untouched so far, are a history of independent sessions |
| Sharing.SharedResumeEquivalence | src/loopmaster/core/runner.py:81-176 | Crash and resume equivalence for guarded runs that share memory |
| Reuse.ReuseExactly | src/loopmaster/core/state.py:39-49 | For any tree and any executed names: after any first run from an object with these names, made in any history of any world, a second, undisturbed run ends as the first would have, if and only if no run from such a checkpoint can execute a step |
| Reuse.FaithfulFromExactly | src/loopmaster/core/state.py:39-49 | When the pruned tree is resumable: a second run from an object with these names ends in every world as one uninterrupted run, if and only if no run from such a checkpoint can execute a step |
| Reuse.AlwaysFaithfulExactly | src/loopmaster/core/state.py:39-49 | When the pruned tree is resumable: a second run is faithful from every object of every history if and only if no choice of branches has a step; when no condition is written twice, if and only if no pass can execute a step |
| Reuse.CanMoveExactly | src/loopmaster/core/runner.py:117-176 | When the pruned tree is resumable and writes no condition twice, a run can execute a step after these names if and only if they are a proper beginning of the steps along some choice of branches |
| Reuse.GuardExact | src/loopmaster/core/state.py:17-49 | As soon as a guarded launch from an object executes a step, some world makes the next run from such an object end otherwise |
| Reuse.OneStepDiverges | src/loopmaster/core/state.py:39-49 | A checkpoint saved before the only step: a second run from its object ends otherwise than an uninterrupted run |
| Reuse.TwoStepsDiverge | src/loopmaster/core/state.py:39-49 | A checkpoint saved between two steps: a second run from its object ends otherwise than an uninterrupted run |
| Safety.HistoryKeeps | src/loopmaster/core/runner.py:117-176 | What every cut of a walk keeps holds of every outcome and every checkpoint of every history, whatever steps return |
| Safety.ExecutedOnce | src/loopmaster/core/runner.py:126-128 | No step name is ever executed twice, for any tree and any history |
| Safety.NeverBothBranches | src/loopmaster/core/runner.py:83-123 | On a branch-safe tree no history executes steps of both branches of a conditional |
| Safety.ExecutedInDeclarationOrder | src/loopmaster/spec/loader.py:77-91 | On an ordered tree the executed names of every outcome and checkpoint are a subsequence of the declared names, whatever steps return |
| Safety.ResumableOrdered | src/loopmaster/core/runner.py:83-114 | A resumable tree is ordered |
| Safety.FlatPrefix | src/loopmaster/core/runner.py:170-176 | Without conditionals the executed names are a prefix of the declared ones, and all of them when the run completes |
| BranchExact.PlainBranchSafeExactly | src/loopmaster/core/runner.py:83-94 | No history of a branch-safe tree executes both branches of a conditional; some history of any other tree does, if its conditions are pairwise different expressions |
| BranchExact.ParallelFirstCrosses | src/loopmaster/core/runner.py:83-94 | A concrete conditional whose then-branch opens with a parallel group, on which both branches can run |
| Literals.BranchSafeExactly | src/loopmaster/core/runner.py:83-94 | Literal conditions admitted: no history executes both branches of a conditional if the pruned tree is branch-safe, and only if, when that writes no condition twice |
| OrderExact.OrderedExactly | src/loopmaster/core/runner.py:83-123 | No history executes steps out of declaration order if the pruned tree is `Ordered`, and only if, when that writes no condition twice |
| BudgetBounds.RunMetered | src/loopmaster/core/state.py:94-131 | Executed steps never exceed the larger of max_steps and the starting count; the totals are the sums over the run's own steps; before each executed step they were strictly below both limits |
| BudgetBounds.StopIsJustified | src/loopmaster/core/state.py:94-131 | A run that a limit stopped had reached that limit |
| LoopSpec.BuildKeepsNames | src/loopmaster/spec/loader.py:685-803 | Building keeps the step names of a document and their order |
| LoopSpec.BuildsExactly | src/loopmaster/spec/loader.py:685-880 | Exactly the documents of the six leaf types, groups of leaves and branches build, each into the one tree that says the same, with the denials on all code blocks and nowhere else |
| LoopSpec.NameChecker.CheckNames | src/loopmaster/spec/loader.py:156-172 | The walk reports exactly the names seen before, in order, and remembers all names |
| LoopSpec.NamesAreDistinct | src/loopmaster/spec/loader.py:145-172 | The duplicate check passes if and only if the step names of the document are pairwise different |
| Compiler.SpecCompiler.CompileBlocks | src/loopmaster/spec/compiler.py:56-66 | A list compiles if and only if it is accepted, into the nodes that say what it says, in order; the denials of all code blocks are gathered |
| Compiler.SpecCompiler.CompileBlock | src/loopmaster/spec/compiler.py:120-181 | One block: groups of steps only, named by position; expressions as conditions, with the written or a generated name, then before else; prompts with model and text and no policy; the five supported executors; anything else is refused |
| Compiler.CompilesExactly | src/loopmaster/spec/compiler.py:120-271 | A tree compiles if and only if it is accepted as the previous row says, and into exactly one document |
| Compiler.DeniedSomewhere | src/loopmaster/spec/compiler.py:246-248 | The document denies a capability if and only if some code block anywhere in the tree does |
| Compiler.RoundTripExactly | src/loopmaster/spec/compiler.py:120-271 | Whatever compiles loads back with the same shape, step names and resumability, and, leaf payloads taken as opaque, as the same tree up to conditional names if and only if no executor step has its own policy and all code blocks deny alike |
| Compiler.CompilingKeepsMeaning | src/loopmaster/spec/compiler.py:120-159 | Every tree that compiles, with step names distinct and block names, written or generated, apart from them: in the environment where a loaded step returns what the written step of its name does, the loaded tree runs exactly as the written one, for every written environment and from every state |
| Compiler.CompilingKeepsRuns | src/loopmaster/spec/compiler.py:120-159 | In one and the same environment the two trees run alike if results depend on step names only, or if the tree is uniform |
| Compiler.DenialsSpread | src/loopmaster/spec/compiler.py:56-66 | Two concrete code blocks of which one denies a capability come back both denying it |
| Compiler.PolicyDropped | src/loopmaster/spec/compiler.py:170-174 | A shell step with its own policy compiles and comes back without it |
| Compiler.AlikeResumable | src/loopmaster/spec/loader.py:697-803 | Trees of the same shape are resumable alike |
| Scope.Checker.CheckRefs | src/loopmaster/spec/loader.py:527-558 | The references of one template report exactly the unknown roots, the bare raw results and the malformed candidates, in order |
| Scope.Checker.CheckCondition | src/loopmaster/spec/loader.py:578-682 | A condition reports exactly its unknown roots, in order, and then whether it cannot be evaluated |
| Scope.BareReported | src/loopmaster/spec/loader.py:527-545 | A bare reference is reported exactly for shell, HTTP and MCP leaves; with a field, or to code, human and prompt leaves, groups and branches, nothing is |
| Scope.AlwaysReported | src/loopmaster/spec/loader.py:527-558 | An undeclared name and a malformed candidate are always reported, a context key never |
| Scope.NameRegistered | src/loopmaster/spec/loader.py:578-682 | A node registers its name, unless that is white space only, as the kind of node it is |
| Scope.Checker.WalkSemantics | src/loopmaster/spec/loader.py:578-682 | Walking a list reports its errors in order and returns the names known after it and registered by it |
| Scope.Checker.WalkSiblings | src/loopmaster/spec/loader.py:620-682 | Parallel siblings are all checked against the names known before the group |
| Scope.Checker.WalkNode | src/loopmaster/spec/loader.py:578-682 | One node: both branches start from the same names, and register theirs for what follows |
| Scope.KnownIsInScope | src/loopmaster/spec/loader.py:578-682 | The names known at a location are the context keys and those declared at visible locations: earlier, not in a parallel sibling, not in the opposite branch |
| Scope.KnownRefers | src/loopmaster/spec/loader.py:578-682 | What the walk knows of a name is the kind of the last declaration of it visible at the location |
| Scope.ErrorsExact | src/loopmaster/spec/loader.py:578-682 | The walk reports nothing if and only if the node at every location is clean for the names known there |
| Scope.ScopeExactly | src/loopmaster/spec/loader.py:527-682 | A document is accepted if and only if at every location the condition can be evaluated and every reference is well formed, names a context key or a visible declaration, and is not, bare, the raw result of the last such declaration |
| ScopeRun.ScopingSound | src/loopmaster/spec/loader.py:578-682 | In an accepted document every reference resolves, and in any history a step that is certain at a reader has executed before the reader does |
| ScopeRun.OrderKept | src/loopmaster/core/runner.py:117-176 | One run from any state keeps a certain step ahead of its reader |
| Versions.ParseShow | src/loopmaster/checkpoint/migration.py:24-45 | Every version prints to a string that parses back to it |
| Versions.ParseExactly | src/loopmaster/checkpoint/migration.py:17-45 | A string parses to a version if and only if, without outer white space and one leading v, it is a major number, at most a minor, a patch and a prerelease, that spell this version |
| Versions.UnparsedForm | src/loopmaster/checkpoint/migration.py:122-128 | The normal form of what does not parse is it without outer white space and without its leading v's |
| Versions.VersionCharacters | src/loopmaster/checkpoint/migration.py:19-21 | The characters of numbers and prereleases, by code point |
| Strings.StripsOuter | src/loopmaster/checkpoint/migration.py:35 | Stripping takes exactly the outer white space |
| Strings.SpaceCharacters | src/loopmaster/checkpoint/migration.py:35 | The characters that count as white space, by code point |
| Versions.NormalizeRoundTrip | src/loopmaster/checkpoint/migration.py:122-128 | Normalising a parseable string keeps its version and is idempotent |
| Versions.SameVersionSameSpelling | src/loopmaster/checkpoint/migration.py:122-128 | Two parseable strings normalise alike if and only if they denote the same version |
| Versions.NormalizeTwiceDiffers | src/loopmaster/checkpoint/migration.py:122-128 | A concrete unparseable string on which normalisation is not idempotent |
| Versions.NormalizeTwiceExactly | src/loopmaster/checkpoint/migration.py:122-128 | Normalising twice is normalising once if and only if the string parses, or what is left without outer spaces and leading v's starts with no space and, if it is a version, is spelled in normal form |
| Versions.CompatiblePartialOrder | src/loopmaster/checkpoint/migration.py:47-53 | Compatibility is reflexive, antisymmetric and transitive |
| Versions.CompatibleExactly | src/loopmaster/checkpoint/migration.py:47-53 | The direction: a checkpoint is compatible exactly with a loop of the same major number (below 1, also the same minor) whose minor, then patch, then prerelease by code points is no smaller |
| Migration.MigrationRegistry.Register | src/loopmaster/checkpoint/migration.py:73-85 | Registering adds one step between the normalised versions, replaces the one between the same two, and touches no other loop |
| Migration.QueueSuccessors | src/loopmaster/checkpoint/migration.py:106-115 | One turn of the search queues exactly the unvisited successors with their paths |
| Migration.TurnKeepsFrontier | src/loopmaster/checkpoint/migration.py:100-116 | One turn of the search keeps the breadth-first invariant: queued paths are chains of sorted length from the source, and versions taken off the queue have all successors visited |
| Migration.ChainVisited | src/loopmaster/checkpoint/migration.py:100-116 | Under that invariant the end of any chain no longer than the frontier has been visited, by a path no longer than the chain |
| Migration.MigrationRegistry.FindPath | src/loopmaster/checkpoint/migration.py:87-116 | Ends on any graph, returns a contiguous chain of registered steps than which none is shorter, and None if and only if no chain exists |
| Migration.RunPath | src/loopmaster/checkpoint/migration.py:190-206 | The functions of the path are applied in order to a new object, or one of them failed |
| Migration.PathStates | src/loopmaster/checkpoint/migration.py:190-206 | Each function takes the state to its changed argument or to the checkpoint it returned, at the next version; the path fails at the first that raises or returns no checkpoint, and only then |
| Migration.WithEdgeOrder | src/loopmaster/checkpoint/migration.py:73-85 | A known target keeps its place among the steps from a version, a new one comes last |
| Migration.MigrateCheckpoint | src/loopmaster/checkpoint/migration.py:174-211 | The input is unchanged whatever happens; no path if and only if unreachable; otherwise a new object at the end of a shortest chain of functions applied in order, with version, hash (unless empty) and step index set and the rest kept, or the failure of one; the result bears the target version, and step_index the number of names, if and only if the versions normalise differently or the input already did |
| Migration.KeepsOldSpelling | src/loopmaster/checkpoint/migration.py:174-188 | A checkpoint of version v1.0 migrated to 1.0.0 comes back as it is |
| Migration.CheckpointObject.RenameStep | src/loopmaster/checkpoint/migration.py:150-171 | A rename changes executed names, the result's key and step name, and the context key, in place |
| Migration.RenamedByEntry | src/loopmaster/checkpoint/migration.py:150-171 | Entry by entry: every executed name, the one result with its step name, the context key unless the new one is taken, and nothing else |
| Migration.RenameKeeps | src/loopmaster/checkpoint/migration.py:150-171 | A rename to a fresh name keeps names distinct, in number and order, and every result key an executed name equal to its step name |
| Migration.RenamePathKeeps | src/loopmaster/checkpoint/migration.py:150-211 | A whole path of fresh renames succeeds and keeps the same, ending at the last version |
| Migration.RenameLosesResult | src/loopmaster/checkpoint/migration.py:159-164 | A rename loses a result if and only if both names have one |
| Migration.RenameThereAndBack | src/loopmaster/checkpoint/migration.py:150-171 | Renaming to a fresh name and back restores the checkpoint unless only the new name is a context key |
| RenameRun.RenameIsSwap | src/loopmaster/checkpoint/migration.py:150-171 | In a checkpoint whose results are keyed by executed names, a rename to a name not yet executed exchanges the two names throughout if and only if the new name is no context key, or one with the old one's value, and no stored output tells the names apart |
| RenameRun.SavedWellKept | src/loopmaster/core/state.py:52-91 | When every result bears its step's name, every checkpoint of every history has distinct executed names, step_index their number, and results keyed by executed names equal to their step names |
| RenameRun.RenameCommutes | src/loopmaster/checkpoint/migration.py:150-171 | Such a checkpoint, resumed on the renamed loop whose steps return what the old ones do with the names exchanged, runs as the old one on the old loop, name for name, through every fault and limit |
| RenameRun.MigratedResumeEquivalence | src/loopmaster/checkpoint/migration.py:150-211 | Crash, rename and resume on the renamed loop ends as one uninterrupted run of the renamed loop; a loop that does not know the new name has its old step names with the one replaced |
| Migration.CheckAndMigrate | src/loopmaster/checkpoint/migration.py:214-271 | The input is unchanged; it is migrated, by the functions of a shortest chain, to the loop's version and hash exactly when it does not match and a chain exists; otherwise it is returned as it is if it matches, always under the permissive policy, under the strict one for the same version and hash, and under the default one exactly if it is no newer in numbers; incompatibility is reported exactly when neither is possible |
| Jobs.StepKeepsExactly | src/loopmaster/mcp/job_ops.py:97-167 | One step of any process keeps a terminal status (interrupted may become cancelled) if and only if it is not the sweep's unguarded update of a settled row |
| Jobs.TerminalAbsorbs | src/loopmaster/mcp/job_ops.py:97-296 | Along any interleaving of the read and write halves of all calls a terminal status stays |
| Jobs.CreateResetsTerminalOnly | src/loopmaster/mcp/job_ops.py:58-69 | Creating a job resets only a terminal row of the same id |
| Jobs.AtomicSweepHarmless | src/loopmaster/mcp/job_ops.py:332-374 | As one atomic step the startup sweep disturbs no settled row |
| Jobs.SweepClobbersExample | src/loopmaster/mcp/job_ops.py:359-371 | A concrete interleaving in which the sweep interrupts a completed job |
| Jobs.FinishedWorkerIsTerminal | src/loopmaster/mcp/worker.py:245-365 | However the engine run ended and whatever others do, a finished worker leaves a terminal row |
| Jobs.WorkerVerdict | src/loopmaster/mcp/worker.py:245-330 | What each end of a worker writes: completed, cancelled or failed, with the error text, results, host and completion that go with it |
| Jobs.UpdateByField | src/loopmaster/mcp/job_ops.py:119-133 | Given arguments reach the row and absent ones leave it alone; completing without a status sets completed |
| Jobs.UpdateAllowed | src/loopmaster/mcp/job_ops.py:108-116 | An update may change any row that is not terminal, and a completed one only by completing it |
| Jobs.DecidedLands | src/loopmaster/mcp/job_ops.py:135-166 | A write decided on earlier lands if its guard still holds, with exactly the columns it sets, and otherwise changes nothing |
| Jobs.CancelLands | src/loopmaster/mcp/job_ops.py:276-291 | Cancelling reads and writes any row that is not completed, failed or cancelled, and sets status and time only |
| Jobs.TouchedOrReset | src/loopmaster/mcp/job_ops.py:58-76 | Touching moves the time of ready, running and in-progress rows only; creating resets terminal rows to the given fields only; deleting removes |
| Jobs.OthersStay | src/loopmaster/mcp/job_ops.py:58-320 | Creating, touching, deleting and marking change no row but the one named |
| Jobs.SweepSelects | src/loopmaster/mcp/job_ops.py:345-371 | The sweep puts a row on its list by status and host, never one with a live host |
| Jobs.RecordProgress | src/loopmaster/mcp/job_ops.py:184-220 | After each record: the results so far, the step count, in_progress until the last record, then completed or error |
| Jobs.RecordByField | src/loopmaster/mcp/job_ops.py:184-220 | One record: its result, the number of results, and status, error and completion by whether a step failed and whether all are in |
| Jobs.RecordingOrderIrrelevant | src/loopmaster/mcp/job_ops.py:184-220 | Recording all steps once each gives the same results, progress and status in every order |
| JobStore.Store.CreateJob | src/loopmaster/mcp/job_ops.py:19-86 | The method changes the table as the create action and returns the row now stored |
| JobStore.Store.UpdateJob | src/loopmaster/mcp/job_ops.py:97-167 | Read, compute and guarded write without interference: the new table, and the row returned |
| JobStore.Store.RecordStepResult | src/loopmaster/mcp/job_ops.py:169-249 | Recording one step result through the same two halves |
| JobStore.Store.CancelJob | src/loopmaster/mcp/job_ops.py:276-296 | Cancelling changes any row that is not settled, with it the pending questions of the job and nothing else, and says whether it did |
| JobStore.Store.TouchJob | src/loopmaster/mcp/job_ops.py:308-320 | Touching moves only the time of an active row, and says exactly whether there was one |
| JobStore.Store.MarkInterruptedJobsOnStartup | src/loopmaster/mcp/job_ops.py:332-374 | The loop over orphaned rows leaves exactly those interrupted and counts them; a row whose host is alive is never changed |
| JobStore.SweepSpares | src/loopmaster/mcp/job_ops.py:332-374 | A row is changed by the sweep if and only if it is an orphan, which is never a terminal row |
| JobStore.SweptByHost | src/loopmaster/mcp/job_ops.py:332-374 | Without a live host a running, in-progress or waiting row becomes interrupted, a ready one if and only if it records a dead host; every other row stays |
| JobStore.SweepExample | src/loopmaster/mcp/job_ops.py:365-371 | Of two in-progress jobs, with a live and a dead host, the sweep interrupts the second |
| JobStore.SweptIsSweep | src/loopmaster/mcp/job_ops.py:332-374 | The sweep method is the atomic sweep of the interleaving model |
| Messages.QuestionStep | src/loopmaster/mcp/message_store.py:43-163 | A pending row changes in one step only by an answer, an expiry that is due, or a cancellation of its job, with the fields that go with it; any other row is fixed |
| Messages.CallEffects | src/loopmaster/mcp/message_store.py:33-163 | What each call makes of the table, row by row and field by field |
| Messages.OneQuestionPerStep | src/loopmaster/mcp/message_store.py:50-52 | Within one job two questions are the same exactly if the same step asks |
| Messages.WriteOnce | src/loopmaster/mcp/message_store.py:83-129 | In any interleaving a row leaves pending at most once, and status, answer and question are then fixed while it exists |
| Messages.LaterAnswerIgnored | src/loopmaster/mcp/message_store.py:83-105 | Of two answers the first to arrive stays, whatever happens in between |
| Messages.MessageStore.Create | src/loopmaster/mcp/message_store.py:33-81 | A question with a placeholder in its text, default or options is refused without a trace; otherwise it is registered once per job and step |
| Messages.MessageStore.AnswerPending | src/loopmaster/mcp/message_store.py:83-105 | Succeeds if and only if the row is pending, and says otherwise why not; the stored answer is returned |
| Messages.MessageStore.SweepExpiredQuestions | src/loopmaster/mcp/message_store.py:116-129 | Expires exactly the pending rows past their time, and counts them |
| Messages.MessageStore.CancelPendingMessages | src/loopmaster/mcp/message_store.py:152-163 | Cancels exactly the pending rows of the job, and counts them |
| HumanInput.HumanInputExecutor.Execute | src/loopmaster/executors/human_input.py:121-203 | Whatever other processes do: the wait ends at the first look that finds an answer or a cancellation, with what it finds; at most MAX_ESCALATIONS escalations, with a timeout the wait ends within (MAX_ESCALATIONS+1)*(timeout+poll) and the policy speaks only after (escalations+1)*timeout; an unanswered question is answered with the default if there is one; a question lost meanwhile is a failure |
| HumanInput.HumanInputExecutor.Wait | src/loopmaster/executors/human_input.py:149-181 | No look before the last found an answer or a cancellation, the result is what the last look found, and without one the wait expired or was cut off after all sleeps; the clock moves by the sleeps, the deadline by the escalations |
| HumanInput.HumanInputExecutor.Finish | src/loopmaster/executors/human_input.py:183-203 | After the deadline: an answer at the last look counts; otherwise escalation fails, a default answers the question if it is still pending and succeeds unless the row is gone, and anything else times out |
| HumanInput.ThreeEscalations | src/loopmaster/executors/human_input.py:18 | There are at most three escalations |
| Collect.CollectedAreRoots | src/loopmaster/core/types.py:134-252 | After any constructor calls the list holds exactly the nodes that no other contains, in creation order |
| Collect.Collector.Absorb | src/loopmaster/core/types.py:222-252 | The contained nodes leave the list, the others keep their order |
| Collect.Collector.Evaluate | src/loopmaster/core/types.py:134-252 | Evaluating a nested expression appends one node that holds the expression as written |
| Collect.CollectBody | src/loopmaster/core/engine.py:116-139 | Evaluating a loop body collects the written tree |
| Replay.ReplayRunner.constructor | src/loopmaster/core/replay.py:145-150 | The queues hold, for every step name, its records in log order |
| Replay.ReplayRunner.GetMockResult | src/loopmaster/core/replay.py:160-188 | One request takes the first record waiting for the name, or none |
| Replay.ReplayRunner.HasRecording | src/loopmaster/core/replay.py:194-196 | A step has a recording if and only if a record is still waiting for it |
| Replay.KthRequest | src/loopmaster/core/replay.py:160-188 | In any series of requests the k-th for a name gets its k-th record, and None after the last |
| Replay.ServedPlusLeft | src/loopmaster/core/replay.py:160-188 | For every name the records served and those left are the recorded ones, in order |
| Replay.ReplayReturnsLog | src/loopmaster/core/replay.py:145-188 | Asking in recorded order returns the whole log and leaves the queues empty |
| Replay.ReplayIsFaithful | src/loopmaster/core/replay.py:96-117 | Recording raises on an output that is neither false nor a step output; a recorded result comes back unchanged if and only if its output is a step output or none, its success flag agrees with its error, and it names no model and no split of its tokens |
| Replay.RecordKeeps | src/loopmaster/core/replay.py:96-117 | A record keeps name, error, tokens, cost, duration, the given model and the updates of a step output |
| Retry.ExecuteStepRetries | src/loopmaster/core/step_executor.py:282-336 | At most max(1, retry) attempts, ending at the first that succeeds, is skipped, is refused or is last; k attempts wait backoff*(2^(k-1)-1); the fallback runs only after all failed; success exactly when some attempt succeeded |
| Retry.MaxAttempts | src/loopmaster/core/step_executor.py:288-289 | The number of attempts is the larger of 1 and the step's own retry, else the policy's, else 1 |
| Retry.WhatFollows | src/loopmaster/core/step_executor.py:290-336 | Condition by condition: when another attempt follows, when the fallback runs, and when waiting raises |
| Retry.PowersDouble | src/loopmaster/core/step_executor.py:306 | The waits start at one backoff and double |
| Retry.AbortUsesAllAttempts | src/loopmaster/core/step_executor.py:298-325 | A policy that aborts on every error still uses every attempt |
| Retry.MoreAttemptsKeepSuccess | src/loopmaster/core/step_executor.py:290-297 | A larger limit ends at the same attempt when that one succeeded |
| Prompt.SectionIsPreferred | src/loopmaster/agents/prompt_manager.py:27-40 | The section found is the match a backtracking matcher prefers, and none is found exactly when nothing matches |
| Prompt.InjectedForm | src/loopmaster/agents/prompt_manager.py:18-32 | The first injection, to the letter |
| Prompt.DefaultMarkers | src/loopmaster/agents/prompt_manager.py:15-16 | The two markers, to the letter |
| Prompt.ReplacesEach | src/loopmaster/agents/prompt_manager.py:26-30 | A later injection replaces each of two sections and keeps what lies around them |
| Prompt.RestoreExactly | src/loopmaster/agents/prompt_manager.py:18-42 | One injection into an unmarked prompt is undone up to surrounding white space if and only if the text lets nothing but blanks out of its section |
| Prompt.ClosingMarkerStays | src/loopmaster/agents/prompt_manager.py:35-42 | Injecting the closing marker into the empty prompt and restoring does not give the empty prompt back |
| Prompt.MarkerRoundTrip | src/loopmaster/agents/prompt_manager.py:18-55 | After any non-zero number of injections of texts without the closing marker, restoring gives the stripped prompt and a newline (nothing for a blank prompt) and extracting gives the last text, stripped |

## Left out

- LLM, HTTP, shell, MCP and code-block execution, streaming, telemetry, events, metrics, CLI, server wrappers and templates: a step is an oracle, the rest is plumbing.
- SQLite, JSON files, SHA-256, clocks and floating point: tables are maps, the digest of a question is taken as injective, time is a parameter, money and seconds are reals.
- Parsing of condition strings and of placeholder text: a condition is a function of the context, a template is its list of references; `Scope` takes both as parameters.
- Unicode digits and white space: strings are handled by their ASCII classes.
- Order of dictionary keys: results and context are maps, so where a renamed key stands is not captured.
- Compiler.RoundTripExactly: the payload of a leaf is one opaque text, so it does not model the fields that the compiler drops without an error (shell `check` and `capture_output`, HTTP `json_output`, code `env_allow`, the `timeout` of a step with an executor, `src/loopmaster/spec/compiler.py:184-271`) nor those that the builder drops (`data` and `allowed_status` of an HTTP leaf inside a group, `src/loopmaster/spec/loader.py:822-829`); a tree that has them loads back without them even if it is `Uniform`. `Compiler.CompilingKeepsMeaning` likewise takes what a loaded step returns from the written step of its name.
- Schema validation of documents (required keys, name patterns, non-empty lists): the builder is modelled on every node shape; that every compiled document passes it is not claimed.
- Literals.ResumableExactly: its only-if half assumes that no condition is written twice outside never-taken branches; it fails without that (`Literals.RepeatedConditionFaithful`), and no exact condition for repeated conditions is given. `ResumeExact.PlainResumableExactly` excludes literals as well.
- Literals.BranchSafeExactly: the same assumption, for the only-if half.
- OrderExact.OrderedExactly: the same assumption, for the only-if half. In all of these two conditions are the same if their texts are, while the evaluator strips a text first and takes an empty one as false (`src/loopmaster/core/condition.py:94`), so that "x" and " x " are one condition in the code and two here.
- Reuse.CanMoveExactly: assumes that no condition is written twice; `ReuseExactly` and `FaithfulFromExactly` do not.
- Reuse.GuardExact: speaks of checkpoint objects; that the caller's initial dictionary must not be reused either is only guarded against, not shown exact.
- Sharing.GuardedIsHistory: a context is a flat map, so nested lists and dictionaries that two checkpoints share are not captured.
- RenameRun.MigratedResumeEquivalence: the migrated loop is the old one with the two names exchanged and the same behaviour per step, whose results bear the step's name; migrations that change behaviour are outside it.
- Engine.RunLoop: does not model the compatibility check before a resume (`src/loopmaster/core/state.py:30-37`); a migrated checkpoint is a copy, so the object's own dictionary is then left alone. `Migration.CheckAndMigrate` models the check itself.
- Cost and token limits across resumes: the totals restart at zero, so nothing is claimed.
- Migration.MigrateCheckpoint: a migration function that keeps a reference to its argument and changes it later is not captured; a function is modelled by its effect on the copy and by what it returns.
- HumanInput.HumanInputExecutor.Execute: notifications, hooks and the job's status while it waits are not modelled.
- Messages.MessageStore.AnswerPending: the look-up after the UPDATE is taken together with it, so a row archived between the two is not captured.
- Jobs.RecordingOrderIrrelevant: timestamps and error texts are not compared.
- Retry.ExecuteStepRetries: the classification of error texts (`src/loopmaster/core/policies.py:32-50`) is a parameter.
- Prompt.MarkerRoundTrip: the expansion of escapes in a replacement is a parameter that leaves texts without backslashes alone.
- Heartbeat threads, the concurrency supervisor and the cancel watcher: the engine runs parallel groups one after another, and a lost heartbeat is a fault it may meet.
