# Verification model of ai-push-hooks

ai-push-hooks is a Git pre-push hook that runs modules of AI and script steps over the outgoing
commits. This project models, in Dafny, the parts of it that are algorithms or protocols, and proves
what they promise. Code that updates objects, arrays or dictionaries in place is modelled by classes
and methods with loops, proved against specification functions; the properties are lemmas about those
functions and contracts of the methods.

`dafny verify dfyconfig.toml` checks everything.

## What is modelled

| files | modelled code |
|---|---|
| `Redaction.dfy` | the matcher that finds a known value cut off at the end of a diagnostic, and the bounded diagnostic around it |
| `DocsSearch.dfy`, `DocsMeaning.dfy`, `DocsCollector.dfy`, `DocsFallback.dfy` | the bounded documentation search: capped per-query buffers, early exit, budgeted accumulator; what it shows; and the fallback that shows whole files |
| `Scheduler.dfy`, `SchedulerService.dfy`, `SchedulerEngine.dfy` | the workflow scheduler: the moves of a run, that none waits without a reason, and the loop over mutable module states and futures |
| `ApplyChecks.dfy`, `ApplyTrace.dfy`, `ApplyRun.dfy`, `ApplyPromise.dfy`, `ApplyStep.dfy` | the apply step: projection into a staging workspace, diff, pre-check, guarded propagation, post-check; and what it promises of the files |
| `AskSession.dfy` | the ask step: retries, and who finalizes a session |
| `Glob.dfy`, `Utf8.dfy`, `DiffText.dfy`, `Porcelain.dfy` | path globs with `**`, the bounded diff text, the `git status -z` reader |
| `OnceLoader.dfy` | double-checked loading, as in the plugin loader and the runner registry |
| `CodexEvents.dfy` | the Codex event stream and when a run is accepted |
| `ReleaseBookkeeping.dfy` | the interruptible deployment bookkeeping of a release |
| `HookVerdict.dfy` | the verdict of the hook, with deferred commits and fail-open |
| `Ordering.dfy`, `Strings.dfy`, `Options.dfy` | sorted listings of paths; joining and splitting; option and result types |

What the program cannot choose is a parameter that ranges over everything: the order in which steps
finish and how they end, what a runner does to its workspace, what others do to the checkout at every
moment, how a write to a server ends, which thread moves next, the text a redaction or a lenient
decoder gives. A theorem quantifies over all of it.

## Where the code does less than it seems

These are properties a reader might expect that do not hold. For each there is a concrete case and the
exact condition under which the property does hold.

- The documentation fallback does not count the separator in front of a block and can exceed its budget
  of 32000 characters by 2, never by more (`DocsFallback.FallbackExceedsExactly`,
  `DocsFallback.FallbackOverrunExists`).
- The checks before and after propagation see of a clean file what Git sees: a change of permissions
  other than the owner's execute bit passes (`ApplyChecks.PreCheckMeans`, `ApplyChecks.ModeChangeUnseen`).
- The ignore rules are read from the checkout, and a propagated `.gitignore` changes them. One that lifts
  a rule makes the check after propagation fail on an ignored file nobody touched, with the output already
  written; one that adds a rule can hide a file somebody else created meanwhile
  (`ApplyChecks.PostCheckMeans`, `ApplyChecks.LiftedRuleFails`, `ApplyChecks.AddedRuleHides`,
  `ApplyStep.FavourableDelivery`).
- A retained call is logged complete twice exactly when the runner of the next attempt cannot be set
  up; and an answer on which the JSON parser raises something other than a decoding error leaves its
  session unfinalized (`AskSession.RunAskStep`, `AskSession.RetainedCallLoggedTwice`,
  `AskSession.CrashLosesSession`).
- A status lookup that answers 404 counts as "no status", so a second success status can be posted
  (`ReleaseBookkeeping.PerformKeepsTidy`, `ReleaseBookkeeping.RunsKeepTidy`,
  `ReleaseBookkeeping.SecondSuccessPossible`).
- When finalization raises after a first commit, a fail-open setting lets the stale push through
  (`HookVerdict.RunHook`, `HookVerdict.FailOpenAfterCommit`), although the documentation of
  `PushSupersededError` says that the error ignores fail-open: it is never raised in that case.

## Model

| member | source | states |
|---|---|---|
| `Redaction.BuildFailure` | src/ai_push_hooks/executors/runners/contracts.py:438-446 | the table filled in place holds, at each position, the length of the longest proper border of the pattern up to there |
| `Redaction.FallBack` | src/ai_push_hooks/executors/runners/contracts.py:442-443 | one inner fallback loop ends, keeps every longer overlap ruled out, and stops at one the next character extends or at none |
| `Redaction.LongestOfCutSides` | src/ai_push_hooks/executors/runners/contracts.py:435-438 | looking only at the last and first `limit` characters loses no overlap |
| `Redaction.LongestPrefixSuffix` | src/ai_push_hooks/executors/runners/contracts.py:432-454 | for all strings the result is the length of the longest suffix of `value` that is a prefix of `prefix`, the full length included |
| `Redaction.BoundaryRedactionStart` | src/ai_push_hooks/executors/runners/contracts.py:457-474 | the least index whose nonempty rest is a proper prefix of a known value longer than one character; none exactly when there is no such index |
| `Redaction.BoundedDiagnostic` | src/ai_push_hooks/executors/runners/contracts.py:494-526 | never longer than `max_chars`, whatever the redaction gives; with a value cut off, it shows nothing from the least cut on and the redaction mark in full wherever there is room for it; with none, all of the text that fits |
| `Redaction.ExcerptHides` | src/ai_push_hooks/executors/runners/contracts.py:514-526 | an excerpt is a prefix of the text before the cut, then at most the redaction mark and the truncation marker |
| `Redaction.MarkIsShown` | src/ai_push_hooks/executors/runners/contracts.py:514-526 | the redaction mark stands in full where the cut value began, whenever it fits |
| `DocsSearch.AppendedWithinBudget` | src/ai_push_hooks/modules/docs.py:167-180 | the accumulator never exceeds its budget, separators included |
| `DocsSearch.AddedMeans` | src/ai_push_hooks/modules/docs.py:196-212 | a buffer holds the first distinct hits of its query up to the one that fills the budget; with chunks of at least 12 characters the limit of 4096 matches never bites first |
| `DocsSearch.IncludedPathLength` | src/ai_push_hooks/modules/docs.py:24-89 | every documentation path the patterns let in has at least 8 characters |
| `DocsSearch.ChunkLength` | src/ai_push_hooks/modules/docs.py:205 | every rendered hit has at least 12 characters |
| `DocsSearch.SaturatedBufferFills` | src/ai_push_hooks/modules/docs.py:299-307 | taking hits that add up to the budget always fills the accumulator, even when some were already taken for earlier queries |
| `DocsSearch.FullTakesNothing` | src/ai_push_hooks/modules/docs.py:167-172 | a full accumulator takes nothing more |
| `DocsSearch.CapOneQuery` | src/ai_push_hooks/modules/docs.py:299-307 | taking one query's capped buffer and taking its whole hit list give the same text |
| `DocsSearch.CapsNeverChangeTheAnswer` | src/ai_push_hooks/modules/docs.py:186-212 | over all queries in order the caps never change what the accumulator holds |
| `DocsSearch.SaturatedScan` | src/ai_push_hooks/modules/docs.py:278-279 | once a buffer is saturated no later document changes it, so stopping early is sound |
| `DocsSearch.ScanMeans` | src/ai_push_hooks/modules/docs.py:252-279 | after all documents a buffer stands for all distinct hits of its query, in document order |
| `DocsSearch.CappedSearchIsUncapped` | src/ai_push_hooks/modules/docs.py:235-312 | for all documents and queries the capped search with early exit gives what unbounded hit lists with the same order and de-duplication give, within the budget |
| `DocsCollector.ContextAccumulator.Append` | src/ai_push_hooks/modules/docs.py:167-180 | the new state and the answer are those of the specified append |
| `DocsCollector.QueryMatchBuffer.Add` | src/ai_push_hooks/modules/docs.py:196-212 | the new state is that of the specified add, whose meaning is `AddedMeans` |
| `DocsCollector.CollectQueryMatches` | src/ai_push_hooks/modules/docs.py:235-280 | one pass over documents, lines and queries with early exit leaves each buffer as a scan of its query alone over all documents would |
| `DocsCollector.TakeBuffers` | src/ai_push_hooks/modules/docs.py:299-309 | the two loops with the shared set of seen keys take what the specified taking takes |
| `DocsCollector.SearchDocsContext` | src/ai_push_hooks/modules/docs.py:283-312 | for all documents and queries the text is, line by line, the ranked hits as far as the budget goes (a hit is a line at most two lines from one that contains the query, in a scanned document; queries in order, within one in document order, each line once, printed `path:number: line`), a very first hit that is too long being cut; or nothing, or whole files, exactly when the source says so; at most the budget for a search, two more for the fallback |
| `DocsMeaning.ChunkShows` | src/ai_push_hooks/modules/docs.py:196-207 | a hit is printed as its path, its line number counted from 1 in decimal without leading zeros, and the text of the line |
| `DocsMeaning.DecimalMeans` | src/ai_push_hooks/modules/docs.py:205 | the digits of the line number have its value, and no zero leads |
| `DocsMeaning.HitsInOrder` | src/ai_push_hooks/modules/docs.py:252-277 | the uncapped list of a query holds exactly its hits, each once, in document order, although windows overlap |
| `DocsMeaning.OfferedIsRanked` | src/ai_push_hooks/modules/docs.py:299-305 | the keys offered over all queries are the hits of all of them, each once, the first query that hits one of two deciding which comes first |
| `DocsMeaning.UncappedSearchMeans` | src/ai_push_hooks/modules/docs.py:299-309 | the accumulator holds the longest run of ranked hits that fits in the budget, and is empty exactly when nothing is hit |
| `DocsFallback.FallbackBound` | src/ai_push_hooks/modules/docs.py:215-232 | the fallback never exceeds the budget by more than 2 |
| `DocsFallback.FallbackExceedsExactly` | src/ai_push_hooks/modules/docs.py:225-231 | it exceeds the budget exactly when a later block fits by itself but not with its separator |
| `DocsFallback.FallbackOverrunExists` | src/ai_push_hooks/modules/docs.py:225-231 | two files for which the text has 32002 characters |
| `DocsFallback.FallbackContext` | src/ai_push_hooks/modules/docs.py:215-232 | the text is that of the blocks, each a path line and the whole content, taken up to the first that does not fit, from at most eight files |
| `Scheduler.VisitKeepsInv` | src/ai_push_hooks/engine.py:92-120 | one module visited by the scheduling pass keeps the invariant of a run |
| `Scheduler.EndKeepsInv` | src/ai_push_hooks/engine.py:135-154 | one finished step, returned or raised, keeps it |
| `Scheduler.EveryRunIsSafe` | src/ai_push_hooks/engine.py:91-154 | under every order of completions: at most the cap in flight, one step per module, a mutating step alone, each module's steps a prefix of its list in order, and nothing submitted after the result of a raising step was read |
| `Scheduler.MutatingRunsAlone` | src/ai_push_hooks/engine.py:103-120 | when a mutating step is submitted nothing is in flight, and nothing happens before it ends |
| `Scheduler.EndRemaining` | src/ai_push_hooks/engine.py:145-154 | every returned step lowers the sum of the steps remaining, the measure on which the loop ends |
| `Scheduler.IdleVisitCompletes` | src/ai_push_hooks/engine.py:92-133 | a visit of a module that leaves nothing in flight has completed that module |
| `Scheduler.CompletedMeansRan` | src/ai_push_hooks/engine.py:122-124 | completed modules with nothing in flight mean that every step ran, but for those behind a requested skip |
| `Scheduler.SubmittedOnce` | src/ai_push_hooks/engine.py:92-120 | a safe log submits each step at most once, so the end it records of a step is the end of that one submission |
| `Scheduler.RaisesAreRecorded` | src/ai_push_hooks/engine.py:135-154 | a run with nothing in flight has recorded a raise exactly if some submitted step raised |
| `SchedulerEngine.WorkflowEngine.VisitModule` | src/ai_push_hooks/engine.py:92-120 | the branches over the mutable state make exactly the specified move; the module starts its next step exactly if it is idle and nothing stands in the way: room and no mutating step in flight for a read-only one, nothing in flight for a mutating one |
| `SchedulerEngine.WorkflowEngine.Collect` | src/ai_push_hooks/engine.py:135-154 | reading one result makes exactly the specified move |
| `SchedulerEngine.WorkflowEngine.Pass` | src/ai_push_hooks/engine.py:92-133 | a pass leaves nothing that could be started: afterwards a mutating step is in flight, or as many steps as may be, or no idle module has a read-only next step; with nothing in flight before, the first idle module is served first; with nothing in flight afterwards every module is completed, so there is no deadlock |
| `SchedulerEngine.WorkflowEngine.Run` | src/ai_push_hooks/engine.py:74-156 | the loop ends; its log is safe and records of every submitted step the end it really had; it returns exactly when no submitted step raises, and then every step ran and every module is completed; otherwise its error names the step that raised, the last thing read; the deadlock error is unreachable; and it never waits while something could be started, every end being read after such a wait with no submission in between |
| `SchedulerService.VisitStarts` | src/ai_push_hooks/engine.py:92-120 | a visited module starts its step exactly when it can |
| `SchedulerService.AttendedStep` | src/ai_push_hooks/engine.py:103-116 | of the modules a pass has looked at, none that could still start a step was passed over |
| `SchedulerService.PassDone` | src/ai_push_hooks/engine.py:92-120 | a pass that ends, at the last module or with a mutating step submitted, leaves nothing that could be started |
| `ApplyChecks.ConservativeMode` | src/ai_push_hooks/executors/apply.py:602-612 | a written mode lies in 0o777, lets nobody else write, keeps the execute bit of the replaced file's owner, keeps safe permissions as they were, and otherwise lets the owner read and write and nobody else do anything |
| `ApplyChecks.ViewsMean` | src/ai_push_hooks/executors/apply.py:757-802 | what the checks compare is content, execute bit and link target of watched paths, and which untracked files no rule hides |
| `ApplyChecks.ChangedPathsMeans` | src/ai_push_hooks/executors/apply.py:513-533 | accepted exactly when every path that differs, in content or mode, is allowed and unprotected; the answer is exactly those paths, the error exactly the offending ones |
| `ApplyChecks.PreCheckMeans` | src/ai_push_hooks/executors/apply.py:757-802 | with HEAD fixed, and nothing else: the check of the dirty set and the saved contents passes exactly when index and metadata are the same, every watched path looks the same to Git, the untracked paths Git reports are the same ones, and no initially dirty path changed at all |
| `ApplyChecks.PostCheckMeans` | src/ai_push_hooks/executors/apply.py:725-839 | with HEAD fixed, also when the ignore rules changed: it passes exactly when every propagated path is as expected, index and metadata are the same, and outside the staged changes every watched path looks the same to Git, no untracked path is newly reported, and no initially dirty path changed at all |
| `ApplyChecks.ModeChangeUnseen` | src/ai_push_hooks/executors/apply.py:757-802 | a clean file whose group gained write access passes the check |
| `ApplyChecks.LiftedRuleFails` | src/ai_push_hooks/executors/apply.py:805-826 | a propagated `.gitignore` that lifts a rule makes the check fail on an ignored file that nobody touched |
| `ApplyChecks.AddedRuleHides` | src/ai_push_hooks/executors/apply.py:805-826 | a propagated `.gitignore` that adds a rule lets a file pass that somebody else created and that was visible under the old rules |
| `ApplyTrace.QuietIsPatched` | src/ai_push_hooks/executors/apply.py:698-716 | when nobody interferes, the checkout is the old one with the writes patched in, everything else untouched |
| `ApplyTrace.EditSurvives` | src/ai_push_hooks/executors/apply.py:638-648 | an edit somebody else made is never overwritten unless it is exactly a recorded baseline |
| `ApplyRun.Checkout.CopyToStaging` | src/ai_push_hooks/executors/apply.py:396-469 | looks at the candidate paths in sorted order, each in its own moment, and copies exactly the eligible regular files as found then; with artifact access it stops exactly at the first eligible path that is something else |
| `ApplyRun.StillIsProjected` | src/ai_push_hooks/executors/apply.py:396-469 | when nobody interferes that is the eligible part of the one checkout, refused exactly if it holds something that cannot be copied |
| `ApplyRun.BuildOperations` | src/ai_push_hooks/executors/apply.py:667-697 | one operation for each changed path in sorted order, refused exactly when some output is a deletion of a non-file, has special bits, or changed since it was inventoried |
| `ApplyRun.ConflictsMean` | src/ai_push_hooks/executors/apply.py:625-635 | the conflicts collected are exactly the paths that differed from their baseline when each was looked at |
| `ApplyRun.Checkout.Preflight` | src/ai_push_hooks/executors/apply.py:615-635 | writes nothing; passes only if every destination was safe in the moment it was looked at; the conflicts reported are exactly the paths that differed from their baseline at the moment each was looked at, whatever others do meanwhile |
| `ApplyRun.HistoryMeans` | src/ai_push_hooks/executors/apply.py:638-716 | at every moment of a step: each of its writes went onto the recorded baseline and to a destination safe in that very moment, and every other change is what somebody else made, in that moment, of the checkout as it was |
| `ApplyRun.Checkout.WriteAll` | src/ai_push_hooks/executors/apply.py:699-716 | the writes done are a prefix of the operations and exactly the paths recorded as applied |
| `ApplyRun.Checkout.Propagate` | src/ai_push_hooks/executors/apply.py:698-722 | a refusal writes nothing; a failure reports exactly the paths written; every write went onto its recorded baseline |
| `ApplyRun.Checkout.PropagateOne` | src/ai_push_hooks/executors/apply.py:701-716 | a path is written only while its destination is safe and it equals its baseline |
| `ApplyStep.PatchedMeans` | src/ai_push_hooks/executors/apply.py:676-697 | a checkout with the operations patched in has at each changed path the staged content or a hole, elsewhere what it had, and passes the comparison with what was expected |
| `ApplyStep.Validate` | src/ai_push_hooks/executors/apply.py:951-992 | goes on exactly when the runner succeeded, its output is acceptable, and nothing Git can see had moved at a look after the runner, in that moment |
| `ApplyStep.Deliver` | src/ai_push_hooks/executors/apply.py:993-1022 | returns only when the last look confirms the result; otherwise its error says which paths were written; undisturbed it returns exactly if every path still is as copied and the ignore rules, as the writes leave them, bring no other untracked file to light |
| `ApplyStep.RunApplyStep` | src/ai_push_hooks/executors/apply.py:912-1023 | for every runner, also one that edits the ignore rules, and all interference: nothing is written before a lawful run, index and metadata included; the runner is given exactly the contents of the readable files, each as found in its own moment; on return exactly the paths it changed were written, each allowed and not guarded, and each holds a regular file with the content it left, readable and writable by its owner unless safe permissions were kept, or a hole where it deleted; each was written over its baseline, and every other path Git sees was spared; undisturbed, the checkout is the old one patched and the step succeeds exactly if all of that can be done |
| `ApplyPromise.CopyIsGiven` | src/ai_push_hooks/executors/apply.py:396-469 | path by path, each in its own moment, the workspace holds the content the checkout held, its permissions and no special bits |
| `ApplyPromise.GivenIsProjected` | src/ai_push_hooks/executors/apply.py:396-469 | undisturbed, the workspace is determined by the checkout, and nothing blocks the copy |
| `ApplyPromise.GoodOutputMeans` | src/ai_push_hooks/executors/apply.py:513-697 | output is acceptable exactly when the runner exited with 0, left only files and directories, and each path it changed is allowed, not guarded, not ignored, and reads again as the same file without special bits, or was a file and is gone |
| `ApplyPromise.ImplementsMeans` | src/ai_push_hooks/executors/apply.py:667-697 | the operations are, in sorted order, exactly the changed paths, each over what was copied and with what the runner left |
| `ApplyPromise.ExpectedMeans` | src/ai_push_hooks/executors/apply.py:805-839 | the last comparison passes exactly when every changed path holds what it is to hold |
| `ApplyStep.GrantableIsFine` | src/ai_push_hooks/executors/apply.py:912-1023 | undisturbed, a run that can be done is one whose looks and operations all succeed |
| `ApplyStep.FavourableDelivery` | src/ai_push_hooks/executors/apply.py:805-839 | undisturbed, only the ignore rules can make the last look fail, and they do exactly if they expose an untracked file outside the changes |
| `AskSession.RunAskStep` | src/ai_push_hooks/executors/ask.py:136-244 | exactly one call for each attempt up to the one that ends the run, at most `json_max_retries + 1`; every earlier attempt was answered with something invalid; the result is the validated payload exactly when the last attempt was answered with it and its finalizer returned, and each error is told by what the last attempt met; each call works in the session its attempt opens, or in the one the attempt before reported as resumable where the settings allow that, never with `json_retry_new_session`; no other session is open then; on every exit each session opened was handed to the finalizer exactly once, and by name exactly if it was ever reported, but for the session of a parser crash, which never is; each call is logged once, with exactly two kinds of exception |
| `AskSession.NewSessionsOnly` | src/ai_push_hooks/executors/ask.py:217-233 | with a new session for each attempt, or an adapter that cannot resume, every call works in the session its own attempt opens |
| `AskSession.EachSessionFinalized` | src/ai_push_hooks/executors/ask.py:136-244 | the session of every attempt that made a call was handed to the finalizer exactly once, unless its answer crashed the parser |
| `AskSession.MakeAttempt` | src/ai_push_hooks/executors/ask.py:137-241 | one pass of the retry loop ends the run exactly when it should, with the payload or the error that what it met calls for, or leaves exactly the retained session open |
| `AskSession.CallIsPending` | src/ai_push_hooks/executors/runner_workflow.py:405-412 | right after a call, in a new or a resumed session, exactly its session is still to be handed over |
| `AskSession.FinalizePending` | src/ai_push_hooks/executors/runner_workflow.py:451-475 | handing it over and logging the call settles all sessions and all calls |
| `AskSession.RetainPending` | src/ai_push_hooks/executors/ask.py:217-233 | keeping it for a resuming attempt leaves exactly that session open |
| `AskSession.FinalizeRetained` | src/ai_push_hooks/executors/runner_workflow.py:388-402 | when the next runner cannot be set up the retained session is handed over once and its call logged a second time |
| `AskSession.RetainedCallLoggedTwice` | src/ai_push_hooks/executors/runner_workflow.py:388-396 | an honest adapter with which that happens |
| `AskSession.CrashLosesSession` | src/ai_push_hooks/executors/ask.py:13-46 | an honest adapter whose reported session nobody finalizes, since the parser raised something else than a HookError |
| `Glob.Matcher.Matches` | src/ai_push_hooks/git_utils.py:325-347 | the memoised recursion ends, and its answer and every memo entry equal the meaning: some assignment of a run of components to each `**` matches all others one to one |
| `Glob.MeansStars` | src/ai_push_hooks/git_utils.py:335-340 | a leading `**` means that the rest matches after dropping nothing or after dropping one component |
| `Glob.MeansOne` | src/ai_push_hooks/git_utils.py:341-345 | any other component matches exactly one |
| `Glob.PathMatches` | src/ai_push_hooks/git_utils.py:313-349 | a path matches exactly when it is relative without empty, `.` or `..` parts, the pattern parses, and the meaning holds |
| `Utf8.RoundTrip` | src/ai_push_hooks/git_utils.py:617-625 | decoding undoes encoding for every text |
| `Utf8.CutAnywhere` | src/ai_push_hooks/git_utils.py:624-625 | cutting the bytes anywhere and ignoring what is broken gives the longest prefix of whole characters that fits |
| `Utf8.EncodedBytes` | src/ai_push_hooks/git_utils.py:617-625 | how many bytes, in which ranges, and which bits they carry (section 3 of RFC 3629) |
| `DiffText.DecodedDiffFits` | src/ai_push_hooks/git_utils.py:606-626 | for every decoder, output and limit the encoded text is at most the limit; it is the whole text, or its longest prefix that leaves room for the marker and the marker, or what fits of the marker |
| `DiffText.ValidDiffUnchanged` | src/ai_push_hooks/git_utils.py:616-621 | a valid UTF-8 diff that fits is passed on byte for byte |
| `DiffText.CollectBoundedGitDiff` | src/ai_push_hooks/git_utils.py:563-603 | a nonzero exit is an error exactly when the output was not cut |
| `DiffText.AddSection` | src/ai_push_hooks/git_utils.py:633-669 | a section is taken whole, cut at exactly the limit, or fails, each exactly under its condition |
| `DiffText.CollectDiff` | src/ai_push_hooks/git_utils.py:629-670 | whole sections, each a `### RANGE` line with the name of its range, the diff without the white space at its end, and a newline; unmarked the text is all of them, marked it is cut from the first `limit` bytes of what there was to show; it fits in the limit; it stops exactly where the diff does not fit, and fails exactly when a diff failed within the budget |
| `DiffText.StrippedMeans` | src/ai_push_hooks/git_utils.py:656-660 | only white space at the end is taken off a diff, and all of it |
| `DiffText.TrimmedIsUnique` | src/ai_push_hooks/git_utils.py:656-660 | that determines what is left |
| `Porcelain.ListRepoChanges` | src/ai_push_hooks/git_utils.py:352-376 | the index loop computes the specified parse; it accepts exactly what spells proper entries and gives the paths and the second paths of all of them |
| `Porcelain.ParsePrint` | src/ai_push_hooks/git_utils.py:352-376 | for every list of entries, renames and copies with their second path, parsing the printed form gives exactly all paths |
| `Porcelain.MissingOriginRejected` | src/ai_push_hooks/git_utils.py:369-373 | a last rename without its second path is rejected as such |
| `Porcelain.AcceptsExactly` | src/ai_push_hooks/git_utils.py:360-376 | records are accepted exactly when they spell proper entries, and the answer is their paths |
| `OnceLoader.MutualExclusion` | src/ai_push_hooks/plugin_loader.py:229-235 | two calls for one key are never both inside its lock |
| `OnceLoader.StepKeeps` | src/ai_push_hooks/plugin_loader.py:319-332 | every atomic step of every call keeps the invariant of locks, cache and log |
| `OnceLoader.LoadedOnce` | src/ai_push_hooks/plugin_loader.py:319-332 | under every interleaving: loads of a key never overlap, at most one succeeds, none begins after that, all callers get the object that this load gave, and a call fails only by its own failed load |
| `OnceLoader.FailedStaysRetryable` | src/ai_push_hooks/executors/runners/registry.py:106-112 | whoever looks for a key no load of which succeeded loads it |
| `OnceLoader.NeverStuck` | src/ai_push_hooks/executors/runners/registry.py:97-112 | while a call is unfinished some call can move |
| `OnceLoader.StepsForward` | src/ai_push_hooks/plugin_loader.py:319-332 | every step of a call that can move brings it nearer to its end, at most seven steps away, and leaves all others where they are |
| `OnceLoader.ReturnsAreLogged` | src/ai_push_hooks/executors/runners/registry.py:97-112 | under every interleaving what a finished call returned is what the log says of it |
| `OnceLoader.AloneItLoads` | src/ai_push_hooks/plugin_loader.py:319-332 | a call alone returns what is cached, or else what its load gives, which is then cached; a failed load caches nothing |
| `OnceLoader.Loader.SourceLock` | src/ai_push_hooks/plugin_loader.py:229-235 | one lock per key, distinct from all others, made only when there is none |
| `OnceLoader.Loader.Advance` | src/ai_push_hooks/plugin_loader.py:319-332 | each atomic section updates the shared tables as the specified step does |
| `CodexEvents.ParseCodexJsonl` | src/ai_push_hooks/executors/runners/codex.py:60-157 | accepts exactly the streams with well-shaped lines and no turn started inside another; failure means some failing event, success that there was none and that no turn started after the last completed one; text and thread are the last ones; never both flags |
| `CodexEvents.LowerMeans` | src/ai_push_hooks/executors/runners/codex.py:137-146 | a status is compared without regard to the case of its letters |
| `CodexEvents.TestsMean` | src/ai_push_hooks/executors/runners/codex.py:82-155 | which lines are malformed and which are failures |
| `CodexEvents.FailureIsPermanent` | src/ai_push_hooks/executors/runners/codex.py:109-155 | once a prefix of a stream has failed, no longer stream succeeds |
| `CodexEvents.SummaryIsUnique` | src/ai_push_hooks/executors/runners/codex.py:60-157 | a stream has one meaning, flags, text and thread, so the parser's answer is determined by it |
| `CodexEvents.RunCodex` | src/ai_push_hooks/executors/runners/codex.py:211-254 | a run is accepted exactly when it exited cleanly, its stream is complete, accepted and successful, and, for an analysis, its last message is not blank |
| `ReleaseBookkeeping.PerformKeepsTidy` | scripts/release_validation.py:1374-1487 | whatever else is in the store: a run of any tag, interrupted at any write or not, keeps at most one npm deployment of a tag with at most one success status, exactly unless a status lookup of that tag without a list hides an existing success |
| `ReleaseBookkeeping.RunsKeepTidy` | scripts/release_validation.py:1374-1487 | over any sequence of recordings and recoveries of any tags that stays so for a tag exactly if no run does that |
| `ReleaseBookkeeping.ListedRunsKeepTidy` | scripts/release_validation.py:1374-1487 | in particular when every status lookup of the tag gives a list |
| `ReleaseBookkeeping.FromNoneTidy` | scripts/release_validation.py:1374-1487 | starting from no deployment for the tag, with anything else in the store, there is never more than one deployment or one success status for it |
| `ReleaseBookkeeping.SecondSuccessPossible` | scripts/release_validation.py:1433-1446 | two runs after which there are two success statuses |
| `ReleaseBookkeeping.ReturnedIsRecorded` | scripts/release_validation.py:1374-1487 | a run that returns, and does not duplicate a status, leaves exactly one deployment for its tag, the one it names, with exactly one success status; only that tag has to be tidy before |
| `ReleaseBookkeeping.WritesOnlyItsOwn` | scripts/release_validation.py:1382-1387 | nothing is written unless the npm decision is complete, nothing but the release's own deployment is touched, and nothing is removed |
| `ReleaseBookkeeping.UndisturbedRunFinishes` | scripts/release_validation.py:1374-1447 | after any interruptions one undisturbed recording succeeds exactly unless a deployment of the tag has another identity |
| `ReleaseBookkeeping.UndisturbedRecoveryFinishes` | scripts/release_validation.py:1450-1487 | an undisturbed recovery returns, with a success status on the deployment it names, exactly if that one has the identity of the release |
| `ReleaseBookkeeping.RecordingMeans` | scripts/release_validation.py:1374-1447 | a recording uses the one deployment that is the release, creates it exactly if there is none, and refuses with several or with another one for the tag; then its status is posted unless one is seen |
| `ReleaseBookkeeping.CandidatesMean` | scripts/release_validation.py:1391-1400 | the candidates are the deployments with the full identity of the release, each once |
| `ReleaseBookkeeping.Server.RecordDeployment` | scripts/release_validation.py:1374-1447 | the steps against the server do that, for every way in which looks and writes can end |
| `ReleaseBookkeeping.Server.RecoverDeploymentStatus` | scripts/release_validation.py:1450-1487 | likewise for the recovery of a named deployment |
| `HookVerdict.RuntimeContext.RunAutoCommit` | src/ai_push_hooks/executors/autocommit.py:144-231 | one record is committed exactly when it has files, none of them was dirty before, and Git accepts; it is blocked exactly when one was; it says pushed exactly when that was asked for and succeeded; it may still raise after the commit |
| `HookVerdict.RuntimeContext.FinalizePendingAutoCommits` | src/ai_push_hooks/executors/autocommit.py:102-117 | commits the records in order up to the first that raises; the list is cleared exactly when none does |
| `HookVerdict.RunHookImpl` | src/ai_push_hooks/hook.py:232-276 | the verdict is `superseded` exactly when no submitted step raised, finalization and summary returned, and some step had changed files, committed or blocked; 0 exactly when skipped, passed with nothing to commit, or failed with fail-open; the log in its report is that of the steps as they really ended |
| `HookVerdict.RunHook` | src/ai_push_hooks/hook.py:279-312 | with fail-open off, 0 means every step of every module ran, none raised, and nothing was committed; a submitted step that raises means no commit, no superseding and, with fail-open off, a refusal; a superseded push stays superseded under every fail-open setting; a commit together with 0 happens exactly when finalization or summary raised after it under fail-open |
| `HookVerdict.FailOpenAfterCommit` | src/ai_push_hooks/hook.py:236-276 | a run of the hook with one apply step: its fix is committed, the name of the commit cannot be read back, and under fail-open the hook returns 0 |
| `HookVerdict.RaisesAfterCommit` | src/ai_push_hooks/executors/autocommit.py:102-117 | two records for which finalization raises with the first commit made |
| `HookVerdict.AllRaising` | src/ai_push_hooks/hook.py:232-276 | if every step raises and there is any step at all, some submitted step raised, which is the case in which `RunHook` commits nothing and, with fail-open off, refuses |
| `Ordering.SortedListingIsUnique` | src/ai_push_hooks/executors/apply.py:669 | a set of paths has one sorted listing, so "in sorted order" determines the order of the writes |
| `Ordering.BeforeMeans` | src/ai_push_hooks/executors/apply.py:669 | the order is the lexicographic one by code point |

## Left out

- `fnmatch` within one path component is a parameter of the matcher; for the documentation patterns it is assumed to match `*.md` as a suffix and `docs` as itself.
- Parsing of patterns by `relative_path_parts`: the model starts from the parsed components, or from "does not parse".
- Regular-expression redaction, terminal-control stripping and the choice of the redaction values: arbitrary functions and lists.
- The `errors="replace"` decoder: an arbitrary function from bytes to text.
- CodexEvents.LowerMeans: letters beyond ASCII are left as they are; none of them becomes, in lower case, a letter of the three words.
- JSON parsing: events, payloads and schema validation are taken decoded; the schemas themselves are easy branches.
- The text of prompts, log lines and error messages, and failures of the logger.
- Real files: links and reparse points above a path, descriptors, hashing (equal digests stand for equal contents), temporary files, parent directories, and the limits of 10000 files and 256 MB. Paths inside the Git directory or the hooks path are part of the "safe destination" and "guarded" parameters.
- Git: a path is dirty when HEAD and index, or index and worktree unless it is flagged, differ in content, execute bit or link target, or when it is untracked and not ignored; the extra source paths that configured copy detection may list are left out.
- Which changed outputs and which candidates the ignore rules hide (`git check-ignore`) are parameters of a request; the rules that decide what `git status` reports depend on the moment and on the checkout.
- The apply step's shortcut for an empty issue list, its test that HEAD is the pushed commit, and the validation of the allowlist itself: each a single branch before the protocol starts.
- Subprocess supervision, signals, timeouts and `KeyboardInterrupt`; a process is what it printed, its exit code, or a failure.
- Step bodies, step metadata and module error texts in the scheduler; a step ends by returning or raising.
- A plugin that loads itself while being loaded (the lock is not reentrant).
- The public npm and PyPI decisions and the HTTP layer: the decision and each reply are inputs; listings are complete and nobody else writes.
- DocsSearch.IncludedPathLength: concerns the files that the include patterns let in; listing them, the ignore pattern and the link checks are left out, since they only remove files.
- Configuration loading, argument parsing, revision-range selection, archive checks, the installer, the npm launcher, the mock provider and the live probes: many easy branches.
- The wording of the superseded message when one deferred commit succeeds and another is blocked.
