# BryantLabs Studio: verified cores

A Dafny model of the parts of BryantLabs Studio that carry state across failures, restarts and
overlapping work, with proofs of what they promise. `dafny verify dfyconfig.toml` checks all of it.

| component | modules |
|---|---|
| the multi-agent pipeline as a resumable state machine | `PipelineSession`, `PipelineRun`, `PipelineResume`, `PipelineReview`, `PipelineBudget`, `PipelineAnswers`, `PipelineRunner` |
| the JSONC comment stripper | `Jsonc` |
| directory snapshots, no-follow removal, the output path guard and what the writer does behind it | `FileTree`, `Inside`, `Snapshot`, `Removal`, `Cleanup`, `OutputGuard`, `OutputWriter` |
| the process tree a teardown signals | `ProcessTree` |
| the coordinated apply of a plan and its run ids | `ApplyWrite`, `ApplyRun` |
| the editor model cache, the patch batch, the debounce timer | `MonacoSync`, `MonacoGenerations`, `PatchBatch`, `Debounce` |
| the scaffold fingerprint and the prompt page list | `Fingerprint`, `PromptPages` |
| shared vocabulary | `Options`, `Lists`, `Text`, `SplitJoin` |

Code that changes state step by step is a class or a method with loops (`PipelineRunner.Runner`,
`Removal.Disk`, `ApplyWrite.Workspace`, `ApplyRun.Applies`, `MonacoSync.Editor`,
`PatchBatch.Harness`, `Debounce.Completions`, and the methods of `Jsonc`, `Snapshot`, `OutputGuard`,
`OutputWriter`, `ProcessTree`, `Cleanup`, `Fingerprint` and `PromptPages`), tied by its `ensures` to
functions about which the laws are proved. What the code cannot see comes in as data: the answers of
dependencies, providers and reviews, the process table, the disk, file operations that fail, the passing
of time.

## Where the code does less than it seems to

Each of these is a theorem with its exact condition, and most come with an input on which they happen.

- Resuming a session that was cancelled at review applies its proposals without another review
  (`PipelineReview.NextResumeIsReviewedExactly`, `PipelineReview.RefusedReviewThenApplies`).
- The rollback of a failed apply leaves out files whose `action` is absent, though the write treated
  them as edits (`ApplyWrite.RollbackRestoresExactly`).
- Once both run ids are reset, a superseded apply run can mark itself completed; and an older
  completion can make the newest run count as stale (`ApplyRun.SupersededFinalizesExactly`,
  `ApplyRun.NewestIsStaleExactly`).
- Removing a directory throws, with the directory emptied but still there, when its own path runs through
  what is removed (`Removal.Disk.RemoveNoFollow`, `Removal.APathThroughItselfDoesNotSurvive`).
- `isInside` takes a name that starts with two dots for a step up, so a repository below such a name is
  not recognised as lying inside a directory that is removed, and a listed link is not compared with the
  repository at all (`Removal.RepositoryIsSparedExactly`, `Cleanup.CleanSparesRepositoryExactly`,
  `Removal.DotsHideTheRepository`, `Cleanup.ALinkInTheRepositoryGoes`).
- The check of a listed link compares the text of its path with the temporary directory, so a link that
  is reached through another link can lie elsewhere (`Removal.PlaceInTmpExactly`, `Cleanup.CleanSparesExactly`,
  `Removal.ALinkBelowALinkIsElsewhere`).
- Canonicalizing an output path twice can follow one link more than once, when the system's limit on
  links stopped the first pass (`OutputGuard.CanonicalTwiceExactly`, `OutputGuard.LimitCanMoveThePath`).
- The output guard asks whether a path lies in the repository, not whether the repository lies below it: to
  overwrite an ancestor of the repository that is no broad path removes the repository
  (`OutputWriter.PreparingSparesRepositoryExactly`, `OutputWriter.AnAncestorIsCleared`).
- A link that leads nowhere keeps its own name when it is canonicalized, so the guard accepts it wherever it
  points; nothing is made there, because no directory can be made at a link
  (`OutputWriter.PreparedExactly`, `OutputWriter.ADanglingLinkRefuses`).
- Expanding tracked pids is not idempotent when a dead pid leads out of the expansion
  (`ProcessTree.ExpandTwiceExactly`, `ProcessTree.ADeadPidLeadsOut`).
- The models kept up to date by deltas agree with a fresh full sync only while no file lies beyond the
  first 200 candidates (`MonacoSync.DeltasAgreeWithFullSync`, `MonacoSync.AFileIsCutOff`).
- A full sync of the models checks that it is the latest before it reads a file, not after: a read that is
  on its way when a newer sync begins lands later and can leave the model of a deleted file behind
  (`MonacoGenerations.SyncEndsRightExactly`, `MonacoGenerations.AnOlderReadLandsLast`).
- A delta sync checks no generation at all, so a read that was on its way when it began can land on top of
  what it read, or bring back a model it disposed (`MonacoGenerations.DeltaEndsRightExactly`).
- A patch batch with a repeated target fails with nothing missing, and a path that normalizing changes
  twice loses its content although the answer counts as ok (`PatchBatch.RepeatedTargetsFail`,
  `PatchBatch.OnceKeepsEveryTargetExactly`).
- The promise of a superseded completion request never settles (`Debounce.AnsweredExactly`,
  `Debounce.ASupersededRequestWaits`).
- The bytes a fingerprint is taken of are shared with other files as soon as there are two files or a NUL
  (`Fingerprint.SharedExactly`, `Fingerprint.NulsCollide`).

## Model

| member | source | states |
|---|---|---|
| `PipelineResume.ResumedRunContinues` | src/app/multiAgentPipeline.ts:93-119 | any run, interrupted at any phase-boundary checkpoint and resumed there with the answers not yet used, makes exactly the remaining dependency calls in the same order and ends in the same session, timestamps aside |
| `PipelineResume.ExecutedRunContinues` | src/app/multiAgentPipeline.ts:428-451 | the same for the run of a new session, from its queued session on |
| `PipelineResume.RunReplays` | src/app/multiAgentPipeline.ts:387-426 | the same event by event, for a run entered at any phase: the resumed run shows the original from the checkpoint on, with or without the checkpoint's own emission |
| `PipelineResume.LoopReplays` | src/app/multiAgentPipeline.ts:237-385 | the same inside the verify/repair loop, at every start of the verifier |
| `PipelineResume.ApplyTwice` | src/core/pipeline/stateMachine.ts:61-91 | starting the verifier a second time changes nothing, which is why its start is a restart point |
| `PipelineResume.RepairingSessionAppliesAgain` | src/app/multiAgentPipeline.ts:101-104 | a session that is repairing is no such restart point: resuming it applies again before anything else, whatever the answers |
| `PipelineAnswers.ResumedRunObeys` | src/app/multiAgentPipeline.ts:387-451 | a resumed run is its answers: each call, what it is given and the session shown just before it follow from the resumed session and the answers so far, answers come right behind their calls, the run is over exactly when they lead to no further call, and every field of the final session is what the answers make of it |
| `PipelineAnswers.ExecutedRunObeys` | src/app/multiAgentPipeline.ts:428-436 | the same of a new run, which first shows an idle session with the trimmed prompt and then asks the planner |
| `PipelineAnswers.LoopObeys` | src/app/multiAgentPipeline.ts:237-385 | the same of the rest of the verify/repair loop from any turn |
| `PipelineAnswers.RepairIsGivenTheApply` | src/app/multiAgentPipeline.ts:307-313 | in every new run the answer before a repair call is an apply's, and the repair is given its verification and files, the prompt, and the summary of the plan the planner answered with |
| `PipelineAnswers.ResumeStarts` | src/app/multiAgentPipeline.ts:93-119 | which call a resumed run makes first, for every status and state of the stages |
| `PipelineReview.AppliesAreReviewed` | src/app/multiAgentPipeline.ts:222-235 | over a fresh run and any chain of resumes, each from any session emitted before and cut off anywhere, every apply comes after an approval, provided no leg starts from a session cancelled at an unapproved review |
| `PipelineReview.NextResumeIsReviewedExactly` | src/app/multiAgentPipeline.ts:93-119 | that proviso is exact: after any such chain the next resume keeps the gate, for whatever answers, if and only if its session was not cancelled at review or an approval exists |
| `PipelineReview.NextResumeIsStrictExactly` | src/app/multiAgentPipeline.ts:400-423 | when every leg resumes the last emitted session, the latest review answer at every apply is an approval; the next resume keeps this if and only if that session was not cancelled at review |
| `PipelineReview.CancelledAppliesUnreviewed` | src/app/multiAgentPipeline.ts:106-107 | resuming a session cancelled at review breaks the gate, whatever the answers |
| `PipelineReview.RefusedReviewThenApplies` | src/app/multiAgentPipeline.ts:228-233 | and this happens: after any plan and any proposals, a refused review ends the run in such a session |
| `PipelineReview.HeardMeans` | src/app/multiAgentPipeline.ts:222-235 | the event-by-event monitor of the proofs says exactly that an approval exists, or was the last answer |
| `PipelineBudget.LoopBudget` | src/app/multiAgentPipeline.ts:245-384 | with `a` repairs recorded and limit `m`: at most max(0, m-a) repairs and one apply more, the final count is `a` plus the repairs, and the final status is decided by the last answers: completed exactly after an ok and verified apply or repair, cancelled exactly after a refused repair, failed otherwise |
| `PipelineBudget.LoopWithinBudget` | src/app/multiAgentPipeline.ts:245-384 | the invariant behind it, for the rest of the loop from any turn |
| `PipelineRunner.Runner.VerifyRepairLoop` | src/app/multiAgentPipeline.ts:237-385 | the loop over `current` and `repairAttempts` emits, calls, uses up and returns exactly what the specification of the loop says |
| `PipelineRunner.Runner.PlannerPhase` | src/app/multiAgentPipeline.ts:121-168 | the planner phase does exactly what its specification says, answered or not |
| `PipelineRunner.Runner.CoderPhase` | src/app/multiAgentPipeline.ts:170-220 | the same for the coder phase |
| `PipelineRunner.Runner.ReviewPhase` | src/app/multiAgentPipeline.ts:222-235 | the same for the review phase |
| `PipelineRunner.Runner.RunFromPhase` | src/app/multiAgentPipeline.ts:387-426 | the phases in order from any start phase, stopping at the first that does not pass, are the specified run |
| `PipelineRunner.Runner.ResumePipeline` | src/app/multiAgentPipeline.ts:438-451 | a resume is the specified run from the resolved phase, and obeys its answers |
| `PipelineRunner.Runner.ExecutePipeline` | src/app/multiAgentPipeline.ts:428-436 | an execution emits the new session, is the specified run from the planner on, and obeys its answers |
| `Jsonc.StripJsonComments` | src/monaco/tsconfig.ts:2-37 | the scanner, with its index that may run past the end, computes the stripping function on every text |
| `Jsonc.StripInvertsRender` | src/monaco/tsconfig.ts:5-36 | stripping a printed list of segments prints the list without its comments |
| `Jsonc.TokenizeInvertsRender` | src/monaco/tsconfig.ts:5-36 | every text, unterminated strings and comments included, is the print of a well-formed list |
| `Jsonc.KeptIsWellFormed` | src/monaco/tsconfig.ts:5-36 | joining the text around a removed comment makes no new comment and moves no string |
| `Jsonc.StripTwice` | src/monaco/tsconfig.ts:2-37 | stripping is idempotent on every text |
| `Snapshot.EqualSnapshotsMeanEqualTrees` | benchmarks/agentAcceptancePilot/fs.ts:106-179 | two snapshots compare equal if and only if the trees are identical after pruning skipped names at every level, whatever the listing order |
| `Snapshot.EqualSnapshotsExactly` | benchmarks/agentAcceptancePilot/fs.ts:42-63 | in terms of the trees alone: two snapshots compare equal if and only if at every path without a left-out name both trees show nothing, a directory, the same bytes, or a link to the same target |
| `Snapshot.SkipDecides` | benchmarks/agentAcceptancePilot/fs.ts:42-63 | which names are left out: the nine directory names, also as a part between slashes of either kind, and the names and endings that may hold secrets |
| `Snapshot.WalkSnapshot` | benchmarks/agentAcceptancePilot/fs.ts:117-144 | the recursive walk appends exactly the entries of the pruned tree below its directory |
| `Snapshot.SnapshotDirectory` | benchmarks/agentAcceptancePilot/fs.ts:106-115 | the entries are exactly those of the pruned tree |
| `Snapshot.DiffSnapshots` | benchmarks/agentAcceptancePilot/fs.ts:146-170 | exactly the paths added, removed, and changed in fingerprint |
| `Snapshot.SnapshotsEqual` | benchmarks/agentAcceptancePilot/fs.ts:176-179 | true exactly when no path differs in presence or fingerprint |
| `Snapshot.SkipBelow` | benchmarks/agentAcceptancePilot/fs.ts:54-63 | below a directory that is not skipped the relative path adds nothing to the skip rule |
| `Snapshot.FingerprintShows` | benchmarks/agentAcceptancePilot/fs.ts:172-174 | equal fingerprints mean the same kind, bytes and link target |
| `Snapshot.RelPathInjective` | benchmarks/agentAcceptancePilot/fs.ts:120-126 | two places of a tree never have one relative path |
| `Inside.IsInsideMeans` | benchmarks/agentAcceptancePilot/fs.ts:181-184 | `isInside` is being at or below the root, except below a name that starts with two dots |
| `FileTree.LessResolve` | benchmarks/agentAcceptancePilot/fs.ts:268-295 | deleting nodes can make a path fail but never makes it lead elsewhere, links included |
| `FileTree.RealTwice` | benchmarks/stress/scaffold/outputGuard.ts:27-29 | `realpath` of a real path is that path, whatever the limit on links |
| `Removal.Disk.RemoveNoFollow` | benchmarks/agentAcceptancePilot/fs.ts:268-295 | whatever fails on the way, only the physical subtree of the path changes, nodes of it are only deleted, and no link is followed; it returns normally, with exactly that subtree gone, if and only if the path denotes no directory or still resolves once the directory is emptied |
| `Removal.ChildStays` | benchmarks/agentAcceptancePilot/fs.ts:282-293 | while a directory whose path survives is emptied, the path of each entry leads to the entry and survives as well |
| `Removal.APathThroughItselfDoesNotSurvive` | benchmarks/agentAcceptancePilot/fs.ts:294 | a disk and a path through a link on which the last `rmdir` fails |
| `Cleanup.RemoveExactHarnessDirs` | benchmarks/agentAcceptancePilot/fs.ts:193-208 | for any list of directories and links: it removes exactly the longest prefix whose members in turn pass the check and survive, ends with exactly that verdict, and leaves exactly the tree without them, or one more directory half removed; plain lists are removed under exactly the condition below; with everything removed, all of it is gone and both conditions on what is spared are exact |
| `Cleanup.CleanIsGone` | benchmarks/agentAcceptancePilot/fs.ts:193-208 | when every path in turn passes its check and survives, none of the list denotes anything any more |
| `Cleanup.PlainListIsRemovedExactly` | benchmarks/agentAcceptancePilot/fs.ts:193-266 | directories whose paths run through no link are removed as a whole if and only if each is allowed, absolute, strictly under the temporary directory, not the home and apart from the repository, and none lies at or below an earlier one |
| `Cleanup.CleanSparesExactly` | benchmarks/agentAcceptancePilot/fs.ts:193-266 | when everything listed is removed, nothing outside the real temporary directory changed if and only if every listed link lies in it |
| `Cleanup.CleanSparesRepositoryExactly` | benchmarks/agentAcceptancePilot/fs.ts:193-266 | when everything listed is removed, the repository tree is as it was if and only if no listed link lies in it and no name with two leading dots hides it |
| `Cleanup.ALinkInTheRepositoryGoes` | benchmarks/agentAcceptancePilot/fs.ts:229-242 | a disk on which a listed link inside the repository passes and goes |
| `Removal.AcceptedDirectory` | benchmarks/agentAcceptancePilot/fs.ts:210-266 | a directory that passes the check is listed, absolute, a directory, and strictly inside the temporary directory once resolved |
| `Removal.CheckDecides` | benchmarks/agentAcceptancePilot/fs.ts:210-266 | a listed path passes the check if and only if it is allowed and absolute and denotes a link in the temporary directory, by text or by the real path of its parent, or a directory whose real path may be removed |
| `Removal.CheckRealDecides` | benchmarks/agentAcceptancePilot/fs.ts:246-265 | a real path may be removed if and only if it lies strictly under the temporary directory, is not the home, and neither holds nor lies in the repository, each up to names with two leading dots; otherwise the first reason in the code's order is given |
| `Removal.AcceptedReal` | benchmarks/agentAcceptancePilot/fs.ts:246-265 | how an accepted real path lies to the temporary directory and the repository |
| `Removal.PlaceInTmpExactly` | benchmarks/agentAcceptancePilot/fs.ts:229-242 | what a path denotes without following its last name lies in the temporary directory if and only if the real path of its parent is in it, which is the second test of a link |
| `Removal.AcceptedLink` | benchmarks/agentAcceptancePilot/fs.ts:229-242 | a link that passes lies in the temporary directory, unless it passed for the text of its path |
| `Removal.ALinkBelowALinkIsElsewhere` | benchmarks/agentAcceptancePilot/fs.ts:230 | a disk on which such a link lies elsewhere |
| `Removal.OutsideTmpIsSpared` | benchmarks/agentAcceptancePilot/fs.ts:210-295 | whatever is left of an accepted directory, nothing outside the temporary directory changed |
| `Removal.RepositoryIsSparedExactly` | benchmarks/agentAcceptancePilot/fs.ts:246-265 | the repository tree stays as it was if and only if neither lies below the other under a name with two leading dots |
| `Removal.DotsHideTheRepository` | benchmarks/agentAcceptancePilot/fs.ts:181-184 | a disk on which the repository goes |
| `OutputGuard.CanonicalizeOutputPath` | benchmarks/stress/scaffold/outputGuard.ts:44-56 | the loop over `cursor` and `missing` returns the real path of the longest existing prefix followed by the rest |
| `OutputGuard.CanonicalTwiceExactly` | benchmarks/stress/scaffold/outputGuard.ts:44-56 | canonicalizing is idempotent on a path if and only if its first missing name is also missing under the real ancestor |
| `OutputGuard.CanonicalTwice` | benchmarks/stress/scaffold/outputGuard.ts:44-56 | so it is on every tree with links and missing suffixes unless the system's limit on links cut the path short |
| `OutputGuard.LimitCanMoveThePath` | benchmarks/stress/scaffold/outputGuard.ts:44-56 | a disk on which the limit does |
| `OutputGuard.NormalizeInvertsText` | benchmarks/stress/scaffold/outputGuard.ts:44-46 | a printed path resolves to itself |
| `OutputGuard.NormalizeDecides` | benchmarks/stress/scaffold/outputGuard.ts:44-45 | a path without `..` is resolved by going down from the root or the working directory through its names |
| `OutputGuard.GuardDecides` | benchmarks/stress/scaffold/outputGuard.ts:58-131 | every decision of the guard, in order and in terms of the disk and the places alone: the root, the five system directories, the home, temporary and repository directories and the corpus's three ancestors are refused, and so on; everything not refused is resolved to its canonical path |
| `OutputGuard.ConfirmOutput` | benchmarks/stress/scaffold/write.ts:32-49 | the writer goes on exactly when the guard accepts and its second call returns the same path |
| `OutputGuard.SecondCallAgreesExactly` | benchmarks/stress/scaffold/write.ts:35-49 | on an unchanged disk and a path without edge white space and traversal segments, the second call returns the first's result if and only if the first missing name is also missing under the real ancestor |
| `OutputGuard.SecondCallAgrees` | benchmarks/stress/scaffold/write.ts:35-49 | so it does whenever the limit on links does not cut the path short |
| `OutputGuard.CutShortCanAgree` | benchmarks/stress/scaffold/outputGuard.ts:44-56 | a path that is cut short and yet canonicalized once and for all: being cut short is not the exact condition |
| `OutputGuard.ResolvedIsOutsideRepository` | benchmarks/stress/scaffold/outputGuard.ts:84-131 | by its names, a path the guard returns is outside the repository, unless the corpus was opted into and holds it, or it runs through a name with two leading dots; what this means for the disk is the subject of `OutputWriter` |
| `OutputWriter.PreparedExactly` | benchmarks/stress/scaffold/write.ts:51-54 | a confirmed directory can be cleared and made if and only if nothing but directories stands on the way to it, links that lead nowhere included; then it is empty, and nothing apart from its own path changed |
| `OutputWriter.PreparingSparesRepositoryExactly` | benchmarks/stress/scaffold/write.ts:51-54 | preparing it leaves the repository tree as it was if and only if it is no ancestor of the repository and, when it lies in the repository, was an empty directory |
| `OutputWriter.WriterSparesRepositoryExactly` | benchmarks/stress/scaffold/outputGuard.ts:39-131 | the same for every path the guard returns twice: an ancestor only to be overwritten, a place in the repository only by the corpus opt-in or through a name with two leading dots |
| `OutputWriter.PrepareOutput` | benchmarks/stress/scaffold/write.ts:35-54 | whatever fails, the disk is as it was or prepared, and for a path that prints without edge white space the condition above decides the repository |
| `OutputWriter.AnAncestorIsCleared` | benchmarks/stress/scaffold/outputGuard.ts:58-131 | to overwrite any real ancestor of the repository that is no broad path is accepted, and the repository is gone |
| `OutputWriter.ADanglingLinkRefuses` | benchmarks/stress/scaffold/outputGuard.ts:39-56 | a link into the repository that leads nowhere, canonicalized to its own name outside; no directory is made there |
| `ProcessTree.CollectProcessTree` | e2e/helpers/processTeardown.ts:79-96 | terminates and lists, once each, exactly the pids reachable through the root or live pids without the harness (none for a dead root that leads nowhere), each but the root before some parent of its own |
| `ProcessTree.ChildrenComeFirst` | e2e/helpers/processTeardown.ts:79-96 | with one parent each, every process precedes its parent |
| `ProcessTree.ExpandTrackedPids` | e2e/helpers/processTeardown.ts:124-133 | exactly the trackable pids and their trees, never the harness |
| `ProcessTree.ExpandTwiceExactly` | e2e/helpers/processTeardown.ts:124-133 | expanding again adds nothing if and only if no dead pid reached from a tracked one has a child that is not reached |
| `ProcessTree.ADeadPidLeadsOut` | e2e/helpers/processTeardown.ts:124-133 | a table on which one has |
| `ProcessTree.TerminateTrackedPids` | e2e/helpers/processTeardown.ts:136-154 | over three readings of the table, the first signals go to the expansion, the last to exactly the pids of the second expansion still alive, none to the harness |
| `ApplyWrite.Workspace.WriteApproved` | src/app/orchestration/applyPlanApply.ts:196-242 | the files written are a prefix of the approved list, the disk holds exactly those writes, and an error is reported exactly when the prefix is proper; with no outside fault the file that stopped it failed its check or did not match the disk |
| `ApplyWrite.ApprovedInOrder` | src/app/orchestration/applyPlanApply.ts:113-119 | the filter keeps exactly the files that are approved, ready and hold basis and proposal, each as often as it is listed, in the order of the list |
| `ApplyWrite.WentExactly` | src/app/orchestration/applyPlanApply.ts:218-226 | distinct files can all be written in turn if and only if each matches the disk at the start: a create is free, an edit holds its basis |
| `ApplyWrite.WrittenAt` | src/app/orchestration/applyPlanApply.ts:196-242 | for distinct paths the disk differs from its start at the written paths only, each holding its proposal |
| `ApplyWrite.WentFromStart` | src/app/orchestration/applyPlanApply.ts:218-226 | each compare-and-swap of the prefix held against the starting disk |
| `ApplyWrite.Workspace.ApplyEdit` | electron/fileWriter.cts:504-525 | writes only while the disk holds the basis, and otherwise changes nothing |
| `ApplyWrite.Workspace.CreateProjectFile` | electron/fileWriter.cts:531-556 | writes only to a path that is free |
| `ApplyWrite.Workspace.RollbackPartialApply` | src/core/build/followUpCheckpoint.ts:255-295 | whatever fails, the rolled back paths are those it got through that have an entry with an action, the disk and the list of rolled back paths are exactly those of undoing the paths it got through, it succeeds exactly when it got through all, and without outside faults it stops only where the specification does |
| `ApplyWrite.RolledBackSum` | src/core/build/followUpCheckpoint.ts:261-293 | a rollback in two parts is the rollback of the whole, and stops with the part that cannot be undone |
| `ApplyWrite.RollbackRestoresExactly` | src/app/orchestration/applyPlanApply.ts:244-289 | rolling back any written prefix succeeds, and it restores the starting disk if and only if no written file has no action and a changed content |
| `ApplyWrite.AnEditWithoutActionStays` | src/app/orchestration/applyPlanApply.ts:254-258 | such a file, which the rollback leaves as written |
| `ApplyWrite.ApplyApproved` | src/app/orchestration/applyPlanApply.ts:113-289 | of the files that are approved, ready and complete in themselves: without one, or in an incomplete batch, nothing is written; without outside faults verification starts if and only if every one passes its check and matches the disk, and whenever it starts each of them holds its proposal and nothing else changed; a failed write is left to a stale run and otherwise rolled back, under faults each path as written or restored, without them under the condition above, and the file that stopped it failed its check or did not match the disk |
| `ApplyRun.Applies.StartApplyCall` | src/app/orchestration/applyPlanApply.ts:105-106 | an apply runs under its session's id or a new one, which is then the active id; a new one clears the completed id and the session's own leaves it |
| `ApplyRun.Applies.FinishRun` | src/app/orchestration/applyPlanApply.ts:643-688 | the last stale check and the completion are one step: a run is marked completed exactly when it ended well and is not stale, and otherwise both ids stay |
| `ApplyRun.SupersededNeverFinalizes` | src/app/orchestration/applyPlanApply.ts:105-111 | under every interleaving without resets, a run marks itself completed only while its id is the one activated last |
| `ApplyRun.ANewRunCompletes` | src/app/orchestration/applyPlanRun.ts:26-31 | a run begun under a new id is never stale and completes when it ends well, for as long as no run is activated or completes after it and the refs are not reset |
| `ApplyRun.AResetMakesEveryRunFresh` | src/app/workspace/useWorkspacePlanApplyControls.ts:59-60 | right after a reset every run in flight would complete |
| `ApplyRun.SupersededFinalizesExactly` | src/core/planApply/applyPlanRun.ts:10-22 | under every interleaving, a superseded run that ended well completes if and only if no id is active and none but its own is recorded as completed |
| `ApplyRun.CompletionsAreCovered` | src/app/orchestration/applyPlanRun.ts:25-41 | completions and calls in flight together never outnumber activations |
| `ApplyRun.NewestIsStaleExactly` | src/core/planApply/applyPlanRun.ts:10-22 | the newest run counts as stale exactly when another completion is still recorded |
| `ApplyRun.ResetLetsASupersededRunFinalize` | src/app/workspace/useWorkspacePlanApplyControls.ts:59-60 | a run on which a reset lets a superseded run complete |
| `ApplyRun.AnOlderCompletionBlocksTheNewestRun` | src/app/orchestration/applyPlanApply.ts:105-106 | a run on which the newest apply, under its session's own id, is stale |
| `MonacoSync.Editor.SyncTypeScriptProject` | src/monaco/typescriptProject.ts:171-201 | whatever the order in which the reads end, the models are those of the readable ones among the first 200 candidates |
| `MonacoSync.CandidatesDecide` | src/monaco/typescriptProject.ts:183-185 | a path is a candidate if and only if it is TypeScript-like and listed behind fewer than 200 others that are |
| `MonacoSync.TypeScriptLikeDecides` | src/monaco/projectPaths.ts:1-12 | the eight endings, in any case of letters |
| `MonacoSync.Editor.SyncChangedFiles` | src/monaco/typescriptProject.ts:206-240 | whatever that order, deleted paths lose their models first and each changed path then has a model exactly when it is readable |
| `MonacoSync.SyncedDecides` | src/monaco/typescriptProject.ts:206-240 | a changed TypeScript-like path is then as on disk, any other deleted path has no model, and the rest is as it was |
| `MonacoSync.DeltasKeepCurrent` | src/monaco/typescriptProject.ts:206-257 | over any truthful deltas no model is stale, and a file has none if and only if it had none at the start and no delta names it changed |
| `MonacoSync.FullSyncIsCurrent` | src/monaco/typescriptProject.ts:171-201 | a full sync covers the disk if and only if the limit cuts no file off |
| `MonacoSync.DeltasAgreeWithFullSync` | src/monaco/typescriptProject.ts:171-240 | from a full sync that cut nothing off, truthful deltas leave the TypeScript-like models equal to the disk; a fresh full sync would leave the same if and only if it cuts nothing off |
| `MonacoSync.AFileIsCutOff` | src/monaco/typescriptProject.ts:171-185 | a disk of 201 files, of which a full sync leaves one without a model |
| `MonacoGenerations.ReachableIsSteady` | src/monaco/typescriptProject.ts:171-262 | whatever full and delta syncs, resets and edits a run interleaves, tasks belong to begun generations and reads are numbered in order, so the next rows hold of every state a run reaches |
| `MonacoGenerations.SyncEndsRightExactly` | src/monaco/typescriptProject.ts:171-201 | on a disk that does not change, a full sync leaves exactly the models of its readable candidates, under every interleaving with its own tasks and what older full and delta syncs have left, if and only if every read on its way when it begins, and every task of a delta, is harmless to it |
| `MonacoGenerations.InterleavedSyncIsTheSync` | src/monaco/typescriptProject.ts:186-200 | so it does whenever it begins with no read on its way and no task of a delta |
| `MonacoGenerations.DeltaEndsRightExactly` | src/monaco/typescriptProject.ts:206-240 | on a disk that does not change, a truthful delta leaves the model of every file it names as the disk has it, under every interleaving with what older syncs have left, if and only if each of their reads of such a file that is on its way when it begins changes nothing or found what is still on disk |
| `MonacoGenerations.LandLast` | src/monaco/typescriptProject.ts:188-237 | some interleaving completes everything and lands any given older read last |
| `MonacoGenerations.AnOlderReadLandsLast` | src/monaco/typescriptProject.ts:188-195 | a run after which a deleted file keeps its model, whether a full sync or the delta that names it came after |
| `PatchBatch.SequentialOkExactly` | benchmarks/editStress/liveApplyPlanPatch.ts:189-216 | file by file, the batch is ok if and only if the targets are distinct and each one's answer gives its content; its keys are then exactly the targets, each with that content |
| `PatchBatch.SequentialMissingExactly` | benchmarks/editStress/liveApplyPlanPatch.ts:217-231 | the missing list is exactly the targets no answered request gave content for; it is empty only for repeated targets |
| `PatchBatch.RepeatedTargetsFail` | benchmarks/editStress/liveApplyPlanPatch.ts:203-217 | repeated targets fail with nothing missing although every answer gave its content |
| `PatchBatch.OnceKeepsEveryTargetExactly` | benchmarks/editStress/liveApplyPlanPatch.ts:150-172 | an ok answer keeps every target if and only if each is the normal form of some target |
| `PatchBatch.ADoubledDotLosesItsFile` | src/core/planApply/markedFileParse.ts:23-25 | a path whose content is lost this way |
| `PatchBatch.LiveAccounting` | benchmarks/editStress/liveApplyPlanPatch.ts:99-131 | at most n+1 requests for n files, a repair only as the last, and the latency is the sum over all of them |
| `PatchBatch.RepairExactly` | benchmarks/editStress/liveApplyPlanPatch.ts:241-249 | a failed first attempt is repaired, outside the two special modes, exactly when its last answer's text is not blank |
| `PatchBatch.LiveRequests` | benchmarks/editStress/liveApplyPlanPatch.ts:99-264 | what each request asks for: the first attempt file by file, or for all files at once, and the repair for all files again, with the text of the last answer and, behind an answer with markers, the files no answer gave content for, otherwise all; the repair's answer decides the result |
| `PatchBatch.LiveOkKeysExactly` | benchmarks/editStress/liveApplyPlanPatch.ts:234-264 | an ok result of the whole batch holds exactly the targets if and only if each target is the normal form of some target |
| `PatchBatch.Harness.GenerateSequentialPerFile` | benchmarks/editStress/liveApplyPlanPatch.ts:189-232 | the loop over the files makes the specified requests and returns the specified result |
| `PatchBatch.Harness.LiveApplyPlanBatchPatch` | benchmarks/editStress/liveApplyPlanPatch.ts:77-265 | the whole batch is the specified outcome, requests included |
| `Fingerprint.ProjectBytesFingerprint` | benchmarks/stress/scaffold/generate.ts:277-286 | the loop feeds the records of the sorted paths, in order |
| `Fingerprint.SharedExactly` | benchmarks/stress/scaffold/generate.ts:277-286 | some other file map feeds the same bytes if and only if there are at least two files, or a NUL in a path or a content |
| `Fingerprint.SameBytesExactly` | benchmarks/stress/scaffold/generate.ts:277-286 | among maps with NUL-free paths and contents, equal bytes mean equal maps, whatever their insertion orders |
| `Fingerprint.SortMeans` | benchmarks/stress/scaffold/generate.ts:279 | the sorted keys are the keys in strict order |
| `Fingerprint.OrderedIsUnique` | benchmarks/stress/scaffold/generate.ts:279 | the keys alone determine that order |
| `Fingerprint.NulsCollide` | benchmarks/stress/scaffold/generate.ts:280-283 | two different maps with one byte stream |
| `PromptPages.ParseListedPages` | benchmarks/stress/scaffold/parsePromptPages.ts:4-23 | the loop over the lines computes the parsing function |
| `PromptPages.ReadIsClean` | benchmarks/stress/scaffold/parsePromptPages.ts:10-22 | whatever the text, every title read is trimmed, not empty and on one line |
| `PromptPages.ReadDecides` | benchmarks/stress/scaffold/parsePromptPages.ts:9-22 | the titles are those of the bullet lines up to the first features heading or the first blank line behind a title |
| `PromptPages.BulletDecides` | benchmarks/stress/scaffold/parsePromptPages.ts:18-21 | a bullet line is a star, white space and one line of text |
| `PromptPages.PromptText` | benchmarks/stress/prompts.ts:3-29 | what the printed prompt looks like once its outer white space is gone |
| `PromptPages.ParseInvertsPrintExactly` | benchmarks/stress/prompts.ts:3-29 | for a name, tagline and features free of the marker, parsing the printed prompt returns the page list in order if and only if every title is trimmed, not empty and on one line |
| `Debounce.AtMostOneTimer` | src/monaco/inlineTabCompletion.ts:28-60 | in every timed run at most one timer is live, the one the module knows |
| `Debounce.FiringTimerIsTheLatest` | src/monaco/inlineTabCompletion.ts:48-58 | a timer that fires carries the latest number, so the test against it never holds |
| `Debounce.FetchesAreSpaced` | src/monaco/inlineTabCompletion.ts:13 | two provider fetches never start less than 450 ms apart |
| `Debounce.RequestDecides` | src/monaco/inlineTabCompletion.ts:39-60 | a cancelled request is answered at once and disturbs nothing; any other waits for the only live timer, due in 450 ms |
| `Debounce.FiringDecides` | src/monaco/inlineTabCompletion.ts:51-58 | a timer that fires starts the fetch of its own request, unless that was cancelled meanwhile |
| `Debounce.CancelledNeverFetches` | src/monaco/inlineTabCompletion.ts:44-55 | a request cancelled before its fetch starts never starts one |
| `Debounce.LeavingClears` | src/monaco/inlineTabCompletion.ts:65-162 | a registration and each disposal leave no timer, and which providers they leave |
| `Debounce.AtMostOneProvider` | src/monaco/inlineTabCompletion.ts:65-162 | at most one provider is registered, the one the module would dispose |
| `Debounce.AnsweredExactly` | src/monaco/inlineTabCompletion.ts:32-60 | some continuation answers a waiting request if and only if its timer is still live; a superseded or cleared one waits forever |
| `Debounce.ASupersededRequestWaits` | src/monaco/inlineTabCompletion.ts:48-58 | two requests of which the first is never answered |
| `Debounce.Completions.DebouncedAiSuffix` | src/monaco/inlineTabCompletion.ts:39-60 | a request is exactly the step of the timed machine |
| `Debounce.Completions.RunTimer` | src/monaco/inlineTabCompletion.ts:51-58 | a timer's callback is exactly the step of the timed machine |
| `Debounce.Completions.RegisterInlineTabCompletions` | src/monaco/inlineTabCompletion.ts:65-150 | a registration disposes the old provider, clears the timer and registers its own |
| `Debounce.Completions.DisposeRegistration` | src/monaco/inlineTabCompletion.ts:151-155 | a returned disposer clears whatever timer there is and forgets the active provider only when it is its own |

## Left out

Pipeline:

- PipelineResume.ResumedRunContinues: a session emitted while the repair runs is not covered, because the code does not continue such a run (`PipelineResume.RepairingSessionAppliesAgain`).
- PipelineAnswers.ResumedRunObeys: of the sessions shown between an answer and the next call it states the last; the others are those of `PipelineRun`.
- Timestamps, durations, run log lines and token estimates, which no decision reads.
- The repair limit is read once; a limit that changes during a run is not modelled.
- A dependency that throws is a call that is never answered: the run ends there without a result.
- The goal and the summary of a plan arrive trimmed.

Text and files:

- Strings are sequences of Unicode characters, not of UTF-16 code units; lone surrogates and UTF-8 encoding are not modelled.
- Jsonc.StripInvertsRender: nothing is said about the JSON inside; parsing and the compiler options are left out.
- Devices, sockets, permissions and changes by other processes; the hash is a function without collisions.
- Snapshot.SnapshotDirectory: the order of the entries, which `localeCompare` decides, and the kind of the root.
- Snapshot.DiffSnapshots: the order of the three lists, which `localeCompare` decides.
- Cleanup.RemoveExactHarnessDirs: the names of the listed paths hold no `.` and `..` segments.
- The kernel's limit on links is a number that holds for each resolution.
- OutputGuard.ResolvedIsOutsideRepository: speaks of names only; the disk is in `OutputWriter`.
- OutputWriter.PrepareOutput: the projects and the manifest that are then written below the prepared directory.
- The copy of fixture trees.

Processes:

- The three readings of the process table are arbitrary but each is fixed while it is read; pids are not reused.
- The tracked roots and closed applications kept between calls, and the promise races around closing an application.

Apply:

- ApplyWrite.Workspace.WriteApproved: the quality checks are an arbitrary predicate and the completeness check an arbitrary answer.
- A file operation that fails leaves the disk as it was; parent directories that a create makes are not tracked.
- ApplyWrite.RollbackRestoresExactly: stated for target paths that are distinct, relative and absolute ones alike.
- Verification, quick repair, automatic fix, preview, undo batch, checkpoints, reports and memory around the writes.

Editor, benchmark and scaffold:

- MonacoSync.DeltasAgreeWithFullSync: one sync at a time, where `MonacoGenerations` has overlapping ones; type libraries under `node_modules`, models the editor opens itself, and different spellings of one path are left out. Disposal by URI prefix is the disposal of the project's models.
- PatchBatch.SequentialOkExactly: the contents the parser finds in a text are an arbitrary map from paths to contents; how the markers and fences are read, and paths that name members of every object, are left out.
- The prompt texts, token limits and time limits of the provider requests.
- Fingerprint.SameBytesExactly: equality of the bytes fed to the hash, not of the digest.
- Debounce.FetchesAreSpaced: a timer fires no sooner than it is due; how late is arbitrary. The local suggestions and the ranges of the returned items are left out.
- `pageComponentName`, `pageRouteId`, the file builders of the scaffold and the prompt table.
