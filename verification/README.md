# Verified models of deck

deck turns requests into workflow files and applies them. This project models the parts of it in which
state, order and text surgery interact, and proves what they promise:

- **The authoring session** (`internal/askcli/author_runtime.go` and the files it uses). An agent reads,
  stages, edits and validates files in a bounded turn loop, until it finishes and the staged files are
  written to disk. `Session.dfy` says what every tool call, turn and run does to the session's state, with
  the disk, the provider and the validators free to answer anything and to change from call to call.
  `AuthoringSession.dfy` is the session object itself; each of its methods is proved to take the state to
  the one the specification names. `SessionInvariant.dfy`, `SessionRuns.dfy` and `SessionTheorems.dfy`
  prove what holds in every reachable state and of every whole run, on the facts of `LintFacts.dfy`,
  `RepairFacts.dfy` and `CheckFacts.dfy`; `EditFacts.dfy`, `QuietTurns.dfy`, `TurnEnds.dfy` and `PrepareDrop.dfy`
  say what calls, turns and repairs come to in terms of the texts, calls and diagnostics given; `ReadTrace.dfy`
  ties the snapshots that guard edits to what was rendered or staged; `AliasedScope.dfy` and `AliasedRuns.dfy`
  show exactly when a commit can differ from what was validated.
- **Automatic repair** (`internal/askrepair/repair.go`, `internal/askir/path_resolve.go`): renaming
  duplicate step ids, batches of edits walked in map order, and rewriting step paths to positions
  (`AutoRepair.dfy`, `StepIds.dfy`, `PathResolve.dfy`), and what comes of each diagnostic and each id
  (`RepairEdits.dfy`, `RenamedIds.dfy`).
- **Files and validation** (`Files.dfy`, `GenerationValidate.dfy`, `ScopeFacts.dfy`, `ReadWindow.dfy`, `TextEdit.dfy`,
  `PlanSlug.dfy`).
- **Generated documentation blocks** (`DocBlocks.dfy`), a text lens between two markers.
- **The apply run log** (`RunLog.dfy`), a journal and the snapshot kept beside it.
- **The plan critic** (`PlanReview.dfy`), its normaliser and the gate that stops a plan, with what each kind of
  finding takes to stop it (`PlanGate.dfy`).
- **Step selection** (`StepGuidance.dfy`) under arbitrary map iteration order, and what moves a score and
  gets a step selected (`ScoreFacts.dfy`, `SelectionFacts.dfy`).
- **Planning** (`Planning.dfy`, `PlanFacts.dfy`): the plan report, the dry run and slicing to one phase.
- **Tool offers** (`AuthoringTools.dfy`).

`Text.dfy` and `Sorting.dfy` hold the string operations the rest is built on.

Loops and objects of the source are methods and classes; each is proved equal to a function of its inputs
or of the old state, and the lemmas are about those functions. `EditFacts`, `QuietTurns`, `TurnEnds`,
`PrepareDrop`, `ScopeFacts`, `RepairEdits`, `RenamedIds`, `PlanGate`, `PlanFacts`, `ScoreFacts` and `SelectionFacts`
state what an operation as a whole comes to in terms of its inputs alone, not of the functions it is specified by.
Where the source walks a map, the method picks the next key freely, so its contract holds for every order.

## What turned out not to hold

Each of these is proved, with the exact condition or a counterexample beside it.

- A passing verdict survives later writes: `file_write` and `file_edit` do not clear `lastLintPassed`, so
  a session can finish with files no validate has seen (`SessionTheorems.StagingKeepsVerdict`). Whatever was
  staged since, the commit agrees with the verdict at a place exactly if nothing is staged there or the last
  file staged there has the validated text (`SessionTheorems.StaleVerdictAgreesIff`, and for the files a run
  returns `SessionTheorems.FinishedRunAgreesIff`).
- Even when nothing was staged since the last validate, a commit can differ from what was validated. Plan paths
  are only trimmed, so two of them can name one place; paths of tool calls are cleaned as well, so a call may
  reach one name and not the other. Every finished run commits at a place what its last verdict saw exactly if
  the place has one name, or no call can name any of its names and none ends in prepare.yaml, or a name of it
  blocks staging, or no file set can pass for want of the entry scenario (`AliasedRuns.HarmlessIff`).
  At all other places a run of two turns breaks the promise (`AliasedRuns.AliasBreaksCommit`).
  `AliasedRuns.CleaningDecides` is a scope with a place of either kind.
- A read of several paths that is refused at a later one returns only an error, and still counts the files
  before it as read in full, so they can be edited unseen (`ReadTrace.RefusedReadUnlocksEdit`).
- Two turns in a row that only read do not always finish a session with a passing verdict: calls named file_write
  that could not be parsed count as reading for the idle counter and as writes for the automatic validate, which
  resets the counter (`QuietTurns.UnparsedWritesValidate`). A run finishes by itself exactly if the two turns only
  read and no automatic validate came between them (`QuietTurns.AutoFinishIff`); it always does if the first of
  them does not end in such a call (`QuietTurns.TwoQuietTurnsFinish`).
- `shouldAutoValidate` says no after any number of trailing writes when a validate directly precedes them
  (`SessionTheorems.AutoValidatesIff`).
- Syncing a documentation block that contains its own end marker is not idempotent, leaves a trace under a
  later sync and does not read back; these laws hold exactly without it (`DocBlocks.SyncIdempotentIff`,
  `DocBlocks.LastSyncWinsIff`, `DocBlocks.ReadBackIff`).
- A second duplicate-id repair can rename again: a phase name such as "-\t-\tx" yields a prefix that starts
  with a tab, and ids are compared after trimming. A phase name is safe exactly if its prefix does not start
  with whitespace (`StepIds.CleanNameIff`), and then repaired ids name one step (`PathResolve.OneStepPerIdIff`).
- The order of the critic's findings can take a block away: of the findings with one key only the first counts,
  the key leaves out whether a finding is recoverable (`PlanReview.FirstTwinDecides`), and it joins fields that
  may hold bars themselves, so that a finding with another path and message can take the place
  (`PlanReview.KeysCollide`). Order is irrelevant exactly when each text some finding could stop the plan with is
  given by the plan itself or is what all findings of some key stop it with (`PlanReview.OrderIrrelevantIff`).
  The legacy texts of a critic never stop a plan at all (`PlanReview.ReasonsAreFirsts`).
- Normalising a critic twice is not the same as once; it is exactly when every finding's text is already among
  the legacy findings or satisfied (`PlanReview.NormalizeIdempotentIff`), and three times is always enough
  (`PlanReview.NormalizeStabilises`).
- Which steps are selected, and how many, can depend on map order (`StepGuidance.OrderShows`). It never does when
  each step that comes first for a capability left open by the high-confidence steps has such a capability no
  other of them supports (`StepGuidance.SameSelectionInAnyOrder`); where those steps leave no room that is exact
  (`StepGuidance.OrderNeverShowsIff`). What selection promises holds in every order.
- For a workflow without phases the report is empty and the dry run fails; and planning one phase is not
  filtering the whole plan when a later phase of the same name has steps
  (`Planning.DryRunAgreesWithReport`, `Planning.SliceIsFilter`).

## Model

| member | source | states |
|---|---|---|
| AuthoringSession.AuthoringSession.constructor | internal/askcli/author_runtime.go:199-237 | a new session is in the initial state of the specification and its approved paths are the plan's scope |
| AuthoringSession.AuthoringSession.CandidateFileList | internal/askcli/author_runtime.go:836-843 | the staged files come in path order whatever order the map yields them in |
| AuthoringSession.AuthoringSession.BaseFilesForLint | internal/askcli/author_runtime.go:860-874 | the readable approved files on disk, in order, normalised |
| AuthoringSession.AuthoringSession.LintFileList | internal/askcli/author_runtime.go:845-858 | what is validated: the staging, then the approved files on disk that are not staged |
| AuthoringSession.AuthoringSession.RunRead | internal/askcli/author_runtime.go:414-448 | only full windows are remembered as reads, and a path that cannot be read ends the call with the reads before it kept |
| AuthoringSession.AuthoringSession.CurrentFileContent | internal/askcli/author_runtime.go:748-767 | a staged file hides the disk |
| AuthoringSession.AuthoringSession.RunFileWrite | internal/askcli/author_runtime.go:506-519 | an approved path is staged normalised with a full snapshot; anything else stages nothing; the idle counter is reset either way |
| AuthoringSession.AuthoringSession.DecideEdit | internal/askcli/author_runtime.go:521-562 | which of the ten ways an edit ends, in the order the source tells them apart; what an edit makes of the text is `EditFacts.EditReplaces` |
| AuthoringSession.AuthoringSession.RunFileEdit | internal/askcli/author_runtime.go:521-562 | only an edit that passes every check changes the staging, and it stages the edited text (`EditFacts.EditSucceedsIff`, `EditFacts.EditReplaces`) |
| AuthoringSession.AuthoringSession.RemoveInvalidPrepareCandidate | internal/askcli/author_runtime.go:674-730 | when the prepare file goes, and which files, diagnostics and candidates stay |
| AuthoringSession.AuthoringSession.TryAutoRepairAfterLintFailure | internal/askcli/author_runtime.go:642-672 | the repaired files go back to staging, those in scope only |
| AuthoringSession.AuthoringSession.RunValidate | internal/askcli/author_runtime.go:589-621 | verdict flag, failure counter and staging after a validate, directly or through a repair |
| AuthoringSession.AuthoringSession.Dispatch | internal/askcli/author_runtime.go:373-412 | every tool has exactly its own effect |
| AuthoringSession.AuthoringSession.ExecuteTool | internal/askcli/author_runtime.go:373-412 | a call adds one transcript line that says what happened |
| AuthoringSession.AuthoringSession.AppendSyntheticFailure | internal/askcli/author_runtime.go:832-834 | a refused call leaves a line and nothing else |
| AuthoringSession.AuthoringSession.AcceptFinish | internal/askcli/author_runtime.go:284-340 | finishing takes a passing verdict, and files unless the route is refine |
| AuthoringSession.AuthoringSession.HandleToolCalls | internal/askcli/author_runtime.go:284-340 | all calls of a turn in order, finish and clarification only alone, and the idle counter afterwards |
| AuthoringSession.AuthoringSession.ShouldAutoValidate | internal/askcli/author_runtime.go:355-371 | the backward scan finds the longest run of trailing writes and what precedes it |
| AuthoringSession.AuthoringSession.DoTurn | internal/askcli/author_runtime.go:239-282 | one pass through the turn loop |
| AuthoringSession.AuthoringSession.CloseOut | internal/askcli/author_runtime.go:239-282 | automatic finish comes before automatic validate, and the failure budget is checked last; when it finishes is `QuietTurns.AutoFinishIff` |
| AuthoringSession.AuthoringSession.RunAuthoringAgentRuntime | internal/askcli/author_runtime.go:239-282 | the loop ends, as the specified run, in a state with every property promised of finished runs |
| EditFacts.EditSucceedsIff | internal/askcli/author_runtime.go:521-562 | an edit succeeds exactly when its path is in scope, the last full snapshot still is the text, old and new differ, old occurs, and without replace_all no two matches keep clear of each other; a failed one stages nothing |
| EditFacts.EditReplaces | internal/askcli/author_runtime.go:544-562 | a successful edit stages for its path alone the text before with its one match, or with all matches, replaced and the rest kept, normalised, and remembers it as seen in full |
| EditFacts.AmbiguousIff | internal/askcli/author_runtime.go:544-553 | an edit that passes the guards is ambiguous exactly when replace_all is off and two matches keep clear of each other, and finds nothing exactly when the text does not occur |
| EditFacts.WriteStagesText | internal/askcli/author_runtime.go:506-519 | a write succeeds exactly for a path in scope and stages the given text, normalised |
| EditFacts.ReadSucceedsIff | internal/askcli/author_runtime.go:414-448 | a read succeeds exactly when each of its paths is in scope or below an open directory, and is staged or can be looked up |
| EditFacts.ReadRemembersIff | internal/askcli/author_runtime.go:436-439 | a file is remembered as read in full exactly when it has text and the window asked for holds all its lines |
| QuietTurns.TurnFinishesIff | internal/askcli/author_runtime.go:239-282 | a turn ends the run by itself exactly when the counter stands, there are candidates, and all its calls only read |
| QuietTurns.AutoFinishIff | internal/askcli/author_runtime.go:239-353 | a run finishes by itself in a turn exactly when at the start of the turn before the verdict passed with candidates, both turns only read, and no automatic validate came between; it returns those candidates |
| QuietTurns.TwoQuietTurnsFinish | internal/askcli/author_runtime.go:239-353 | from a passing verdict with candidates, a run is over by itself at the end of the second turn that only reads at the latest, if the first does not end in a write that could not be parsed |
| QuietTurns.NeverInFirstTurn | internal/askcli/author_runtime.go:351-353 | no run finishes by itself in its first turn |
| QuietTurns.UnparsedWritesValidate | internal/askcli/author_runtime.go:355-371 | three writes that could not be parsed are a turn that only reads, and yet set off an automatic validate that resets the counter |
| TurnEnds.NoCallEndsRun | internal/askcli/author_runtime.go:239-262 | a provider that fails or makes no call ends the run with that problem |
| TurnEnds.ClarificationEnds | internal/askcli/author_runtime.go:284-297 | a clarification on its own ends the run with the question if it parses |
| TurnEnds.FinishAcceptedIff | internal/askcli/author_runtime.go:297-325 | a finish call on its own ends the run with the staged files exactly when it parses, the verdict passes, and there are files or the route is refine; otherwise it is turned down |
| TurnEnds.ControlIsAlone | internal/askcli/author_runtime.go:284-325 | a finish or clarification beside any other call breaks off the run, wherever it stands |
| TurnEnds.CallsAreMade | internal/askcli/author_runtime.go:284-340 | all other calls are made in order, with a transcript line for each under its name |
| TurnEnds.OtherToolsOnlyLog | internal/askcli/author_runtime.go:373-412 | searching, schema lookups and `init` change nothing but the transcript, except that `init` resets the idle counter; `init` fails where there are workflows |
| PrepareDrop.DropsIt | internal/askcli/author_runtime.go:674-730 | the prepare file that the last complaint is about and every diagnostic mentions goes from the staging and from the files validated again, if another file stays |
| PrepareDrop.DropsNothing | internal/askcli/author_runtime.go:674-730 | without such a file nothing goes |
| PrepareDrop.RepairReachesScope | internal/askcli/author_runtime.go:642-672 | when nothing is dropped, the repair works on all that was validated, limited to the plan's scope, and changes nothing if it does not apply |
| SessionInvariant.ExecuteKeepsInv | internal/askcli/author_runtime.go:373-621 | every tool call, whatever disk and validators answer, keeps scope, exact snapshots, the verdict's bookkeeping, and the link between the last passing verdict and the staging |
| SessionRuns.ExecuteQuietly | internal/askcli/author_runtime.go:284-412 | a tool that changes the staging resets the idle counter, and a read-only tool touches neither |
| SessionRuns.TurnKeeps | internal/askcli/author_runtime.go:239-282 | a turn started well either ends the run as promised or starts the next turn well |
| SessionRuns.EveryRunEndsWell | internal/askcli/author_runtime.go:239-282 | every run ends within the turn limit; if it finished the verdict passes, the files are the staging, and they are not empty unless it finished explicitly on the refine route |
| SessionRuns.ProviderCallsAreBounded | internal/askcli/author_runtime.go:127-131 | a run starts at most max(30, 3 * budget + 2) turns, each with one provider call |
| SessionRuns.EveryTurnStartsWell | internal/askcli/author_runtime.go:239-282 | at every turn start no automatic validate is due and the failures are within budget |
| SessionTheorems.CommitMatchesVerdict | internal/askcli/author_runtime.go:589-672 | in any state with a passing verdict and nothing staged since, writing the staging gives the tree the validators saw at every harmless workflow place, up to trailing line breaks of unstaged files |
| SessionTheorems.CommitRefinesValidation | internal/askcli/author_runtime.go:239-282 | the same for the files any finished run returns, if the disk is still the one validated |
| SessionTheorems.StagingKeepsVerdict | internal/askcli/author_runtime.go:506-562 | after a passing validate any text can be staged and the next finish call is still accepted |
| SessionTheorems.StaleVerdictAgreesIff | internal/askcli/author_runtime.go:506-621 | in any state with a passing verdict, whatever writes and edits came after it, the commit agrees with the verdict at a workflow place exactly if nothing is staged there or the last file staged there has the text the validators saw |
| SessionTheorems.FinishedRunAgreesIff | internal/askcli/author_runtime.go:239-340 | the files any finished run returns agree with its last verdict at a place with one name exactly if the text returned for the place, if any, is the one the validators saw |
| SessionTheorems.RunStaysInScope | internal/askcli/author_runtime.go:642-730 | at every turn start and at the end, after any repairs, all that is staged or validated is in the plan's scope, keyed by its own path and no deletion, and no validate was turned down for leaving the scope |
| SessionTheorems.StagedEditsAreNeverStale | internal/askcli/author_runtime.go:521-562 | an edit of a staged file is never refused as unread or stale |
| ReadTrace.ExecuteRemembers | internal/askcli/author_runtime.go:414-672 | every tool call, whatever it meets, leaves each full snapshot with the text last rendered in full or staged for its path |
| ReadTrace.RunRemembers | internal/askcli/author_runtime.go:239-282 | so it is at the start of every turn a run reaches |
| ReadTrace.EditsChangeWhatWasSeen | internal/askcli/author_runtime.go:521-562 | an edit that succeeds changes the text last rendered in full or staged for its path, which is still what is staged or, if nothing is, on disk |
| ReadTrace.SeenInSomeCall | internal/askcli/author_runtime.go:414-448 | that text comes from a window or a staged file of some call of the transcript |
| ReadTrace.OnlyReadsGoUnanswered | internal/askcli/author_runtime.go:414-448 | only a read of several paths can render something and fail |
| ReadTrace.RefusedReadUnlocksEdit | internal/askcli/author_runtime.go:414-448 | a read of a file and then of a path that is refused fails, and still lets the file be edited |
| SessionTheorems.DroppedCandidateEdit | internal/askcli/author_runtime.go:642-730 | after a validate whose repair drops a candidate, an edit against its text is stale unless the disk holds that text |
| SessionTheorems.VerdictBookkeeping | internal/askcli/author_runtime.go:589-621 | the verdict flag is the answer of the latest executed validate, the counter is the number of executed validates that failed on files, and the transcript agrees |
| SessionTheorems.AutoFinishIsQuiet | internal/askcli/author_runtime.go:351-353 | an automatic finish returns files that have not changed for two whole turns |
| SessionTheorems.AutoValidatesIff | internal/askcli/author_runtime.go:355-371 | exactly when an automatic validate is due, in terms of the transcript before its trailing writes |
| AliasedScope.SplitPasses | internal/askcli/author_runtime.go:845-874 | when one name of a place is staged and another is not, files on disk are listed after the staging, so the validators see the text on disk |
| AliasedRuns.AliasBreaksCommit | internal/askcli/generation_validate.go:130-160 | at every workflow place with several names, one of which a call can name or a repair drop, some run of two turns finishes with nothing staged since its passing validate and returns another text than the validators saw |
| AliasedRuns.HarmlessIff | internal/askcli/author_runtime.go:918-935 | with the session's own path cleaning: every finished run with nothing staged since its last validate commits at a place what that validate saw, exactly if the place has one name, or none that a call can name or a repair drop, or a name that blocks staging, or no file set can pass for want of an entry scenario |
| AliasedRuns.CleaningDecides | internal/askcli/author_runtime.go:918-935 | a scope with two places of two names each: at the one, a call can write one of the names and some run breaks the promise; at the other, both names are cleaned to a third and no run does |
| LintFacts.LintMembers | internal/askcli/author_runtime.go:845-874 | the validated files are every candidate and every other readable approved path, each once |
| LintFacts.LintIsShown | internal/askcli/author_runtime.go:845-874 | every validated file is staged or the normalised text on disk, and every staged file is validated |
| LintFacts.DroppingExcludesRepair | internal/askcli/author_runtime.go:642-730 | whenever the prepare file is dropped no diagnostic is left, structured repair does nothing and cannot fail, and the files validated again are the others |
| CheckFacts.BlockedNeverPasses | internal/askcli/author_runtime.go:589-672 | a validate that lints a path that may not be written is never passed, whatever the repair does |
| CheckFacts.CheckIsComplete | internal/askcli/author_runtime.go:589-672 | every validate lints all approved files on disk, and shows files that are not on disk, and names of one place that are only staged together, in path order |
| CheckFacts.AttemptKeepsGroups | internal/askcli/author_runtime.go:642-730 | a repair stages the names of a place that no call can name and no repair drops all together |
| RepairFacts.AttemptStaging | internal/askcli/author_runtime.go:642-672 | what a repair attempt leaves staged is in scope, tracked by exact snapshots and covered by the files validated again |
| GenerationValidate.AllowedPlanPaths | internal/askcli/generation_validate.go:130-160 | the scope is every path the plan mentions, trimmed and not blank |
| GenerationValidate.AllowedPathIsClean | internal/askcli/generation_validate.go:130-160 | a path in scope is its own trimming |
| GenerationValidate.UnmetContracts | internal/askcli/generation_validate.go:81-128 | for each contract in turn its producer and consumer, where they are asked for, with the kind of the contract |
| GenerationValidate.AskedForIff | internal/askcli/generation_validate.go:81-128 | a producer or consumer is asked for, for a kind of contract, exactly when a contract of that kind names it and it is in scope and was not generated |
| GenerationValidate.ValidatePlanContract | internal/askcli/generation_validate.go:81-128 | the advisory list in its order with repetitions, and the blocking, missing, gap and fix lists, whatever order the map of generated paths is walked in |
| GenerationValidate.ContractBlocksIff | internal/askcli/generation_validate.go:81-128 | nothing blocks exactly when all generated paths are in scope and a required entry scenario was generated |
| GenerationValidate.ValidateGeneration | internal/askcli/generation_validate.go:23-67 | the checks in their order, stopping at the first complaint |
| GenerationValidate.PassesIff | internal/askcli/generation_validate.go:23-67 | files pass exactly when they are there, stage and satisfy every check, and then the tree shown is the staged one |
| GenerationValidate.FirstComplaintWins | internal/askcli/generation_validate.go:23-67 | a complaint about contract or semantics means staging, files and entry points were in order |
| GenerationValidate.InScopeNeverOutside | internal/askcli/generation_validate.go:81-97 | files in scope are never rejected for leaving it |
| ScopeFacts.ScopeIff | internal/askcli/generation_validate.go:130-160 | a path is in scope exactly when it is one of the trimmed nonblank paths the plan gives as anchor, companion, target, file or entry scenario |
| ScopeFacts.MissingEntryBlocksIff | internal/askcli/generation_validate.go:81-187 | a missing entry scenario blocks exactly when scope or mode require it and no live file has its path |
| ScopeFacts.MissingPlannedIff | internal/askcli/generation_validate.go:99-187 | a path is reported as planned and missing exactly for a draft that plans to write it, needs the prepare workflow or its entry scenario, when it was not generated |
| ScopeFacts.LiveFilesPassIff | internal/askcli/generation_validate.go:23-67 | live files pass exactly when there are some, they stage, each validator is content, and the contract is kept |
| ScopeFacts.DeletionNeedsOnlyItsPath | internal/askcli/generation_validate.go:23-67 | a deletion passes the check of its file on account of its path alone |
| Files.NormalizeStable | internal/askcli/files.go:103-124 | normalised content and rendered text are fixed points, and normalising changes trailing line breaks only |
| Files.WriteFiles | internal/askcli/files.go:75-101 | files are written in order up to the first failure |
| Files.StageWorkspace | internal/askcli/files.go:126-159 | staging is the same writes over a copy of the workflow tree |
| Files.WrittenTree | internal/askcli/files.go:75-101 | after success every place holds what its last writer put there, or what it held before |
| Files.WrittenWasAllowed | internal/askcli/files.go:75-101 | a write that succeeds only named allowed, resolvable and permitted places |
| Files.FailedWriteIsPrefix | internal/askcli/files.go:75-101 | a failed write has written exactly the files before the one that failed |
| Files.CommitMatchesStage | internal/askcli/files.go:75-159 | committing the staged part gives what staging all shown files gave, exactly where staged and up to trailing line breaks elsewhere |
| ScopeFacts.MayBeWrittenIff | internal/workspacepaths/paths.go:108-157 | a file may be written exactly when its path has no two dots in a row and is a prepare or vars workflow or below scenarios or components, at the root or further down |
| ScopeFacts.NormalForm | internal/askcli/files.go:103-124 | the text of a YAML file ends in one line break or is empty; other text stays as it is |
| ScopeFacts.WriteSucceedsIff | internal/askcli/files.go:75-101 | live files are all written exactly when each may be, has a place, and may be put there |
| ScopeFacts.DeletionFailsIff | internal/askcli/files.go:75-101 | a deletion fails exactly for a path that may not be written or has no place, or a file that is there and may not go |
| ScopeFacts.StagingFailsIff | internal/askcli/files.go:126-159 | staging succeeds exactly when the workflow tree can be copied and the files written over it |
| PlanSlug.PlanSlug | internal/askcli/files.go:381-414 | the scan with its last-dash flag, the cut and the trims give the slug |
| PlanSlug.SlugIsWellFormed | internal/askcli/files.go:381-414 | for every input: not empty, at most 48 characters of a-z, 0-9 and dash, no leading, trailing or doubled dash |
| PlanSlug.SlugKeepsAlnums | internal/askcli/files.go:381-414 | letters and digits are kept in order from the first on, all of them if they fit |
| PlanSlug.WellFormedIsFixed | internal/askcli/files.go:381-414 | well-formed slugs are the fixed points |
| PlanSlug.SlugIdempotent | internal/askcli/files.go:381-414 | slugging a slug changes nothing |
| PlanSlug.SlugOfWords | internal/askcli/files.go:381-414 | words with any separators before, between and behind them become the words joined by single dashes, if that fits |
| ReadWindow.LinesRoundTrip | internal/askcli/author_runtime.go:789-815 | splitting into lines and joining gives the text back |
| ReadWindow.FullReadShowsEverything | internal/askcli/author_runtime.go:436-439 | "not truncated, from line 1" holds exactly when every line of a nonempty file was shown |
| ReadWindow.WindowShowsItsRange | internal/askcli/author_runtime.go:789-815 | bounds are valid for all offsets and limits, and the lines shown are the ones reported |
| ReadWindow.PagingReadsTheFile | internal/askcli/author_runtime.go:789-815 | paging with a positive limit ends and shows each line exactly once, in order |
| ReadWindow.WindowIsAsked | internal/askcli/author_runtime.go:789-815 | the window starts at the line asked for, or the first or past the last, and holds as many lines as asked for, or all that are left |
| TextEdit.UniqueMatch | internal/askcli/author_runtime.go:521-562 | a unique match replaced once or everywhere is the same edit, and all around it is kept |
| TextEdit.CountZeroIff | internal/askcli/author_runtime.go:521-562 | "not found" means the text does not occur |
| TextEdit.CountTwoIff | internal/askcli/author_runtime.go:544-553 | "ambiguous" means two matches keep clear of each other |
| TextEdit.ReplaceAllParts | internal/askcli/author_runtime.go:554-560 | replacing all matches joins the parts between them, none of which holds a match that would come first, by the new text |
| AutoRepair.TryAutoRepair | internal/askrepair/repair.go:27-148 | the result is one function of the arguments for every order of the two map walks, and nothing is applied when any repair fails; what is applied is `RepairEdits.EditsInOrder` |
| AutoRepair.IndexIsLast | internal/askrepair/repair.go:27-148 | a path is repaired at its last position |
| AutoRepair.ReplacedByRenaming | internal/askrepair/repair.go:523-554 | every replacement is the renaming of its own path's file |
| AutoRepair.ReplacedPathsExist | internal/askrepair/repair.go:27-148 | a replaced path is always in the list, so the branch that appends a file is dead |
| AutoRepair.TouchedPathIsNamed | internal/askrepair/repair.go:27-161 | only paths named by an allowed diagnostic are collected |
| AutoRepair.ReplacedTakesNoEdits | internal/askrepair/repair.go:27-148 | once a diagnostic has replaced a file, no list of further diagnostics changes its replacement or adds edits to it |
| AutoRepair.RepairFrame | internal/askrepair/repair.go:27-148 | number and positions stay; a file that differs is named by an allowed diagnostic and is either its renamed workflow or its edits, never both |
| AutoRepair.UnnamedDiagnosticsDoNothing | internal/askrepair/repair.go:27-161 | diagnostics that name no path they may repair leave every file alone and cannot make the call fail |
| RepairEdits.EditsInOrder | internal/askrepair/repair.go:27-148 | in a repair that applies, a file whose steps are not renamed is its text after one block of edits per allowed diagnostic about it, in their order, or stays if there are none |
| RepairEdits.OneDiagnostic | internal/askrepair/repair.go:27-148 | a repair from one diagnostic applies exactly the edits its operation asks for: a migration or one delete, one set of a fill value, a migration or one set of a literal, the edits of a review, or none; it fails exactly when they cannot be written |
| RepairEdits.OneRename | internal/askrepair/repair.go:27-148 | a renaming repair renders the workflow with its duplicate ids renamed, and applies nothing when there are no duplicates |
| RepairEdits.DiagnosticNames | internal/askrepair/repair.go:150-184 | a diagnostic is about the workflow file its file field names, with or without a line number, or else its path field |
| RepairEdits.LineSuffixIff | internal/askrepair/repair.go:173-184 | exactly a colon with a number behind it and something in front of it is cut off a file name |
| RepairEdits.WorkflowPathIff | internal/workspacepaths/paths.go:143-149 | a workflow file is one below a directory "workflows", at the root or further down |
| RepairEdits.RawPathIs | internal/askrepair/repair.go:186-208 | the root marker, the step kind and a dot in front of a path go, and a path not from the root of the file is taken below the named step |
| StepIds.FirstFree | internal/askrepair/repair.go:556-578 | the open-ended suffix search ends, at the first unused number |
| StepIds.UniqueStepId | internal/askrepair/repair.go:556-578 | the loop finds that number and leaves those counters |
| StepIds.UniqueFacts | internal/askrepair/repair.go:556-578 | an id handed out was free before; it changes exactly when the trimmed id was used; no id is ever freed |
| StepIds.RenameDuplicateStepIds | internal/askrepair/repair.go:523-554 | top-level steps first, then phase by phase, with one set of counters |
| StepIds.RenameKeepsEverythingElse | internal/askrepair/repair.go:523-554 | phases, steps, their order and all fields but step ids survive |
| StepIds.WorkflowAsRun | internal/askrepair/repair.go:523-554 | the renaming of the nested workflow is a single pass over the flat list of its ids |
| StepIds.ChangedIffDuplicate | internal/askrepair/repair.go:523-578 | a rename is reported exactly when two non-blank trimmed ids agree |
| StepIds.RenamedIdsAreDistinct | internal/askrepair/repair.go:523-578 | the resulting non-blank ids are pairwise distinct |
| StepIds.RenameStable | internal/askrepair/repair.go:523-578 | with prefixes that do not start with whitespace a second pass changes nothing |
| StepIds.UncleanPrefixBreaks | internal/askrepair/repair.go:556-596 | with any other prefix there are ids whose second pass renames again |
| StepIds.UncleanPhaseName | internal/askrepair/repair.go:588-596 | a phase name that yields such a prefix |
| StepIds.SecondPassRenamesNothing | internal/askrepair/repair.go:523-578 | a repaired workflow whose phase names give clean prefixes needs no further repair |
| StepIds.PlainNameIsClean | internal/askrepair/repair.go:588-596 | a phase name without whitespace other than the plain space gives a clean prefix |
| StepIds.CleanNameIff | internal/askrepair/repair.go:523-596 | a phase name gives a clean prefix if and only if no workflow of phases with that name needs a second repair |
| StepIds.RenamedIdIs | internal/askrepair/repair.go:556-578 | the new id of a duplicate is the prefix and the old id joined by a dash, followed by the first free number from 2 on if that is taken |
| StepIds.SanitizedIs | internal/askrepair/repair.go:588-596 | a phase name is lower-cased, trimmed of whitespace, its spaces made dashes and trimmed of dashes; a name of which nothing is left gives "step" |
| RenamedIds.StepsInOrder | internal/askrepair/repair.go:523-554 | the repair takes top-level steps first, with the prefix "step", and then phase by phase with the prefix of the phase |
| RenamedIds.IdsAreFreed | internal/askrepair/repair.go:523-578 | every step keeps its trimmed id unless an earlier step came with it or has got it; then the prefix goes in front, and the least free number from 2 on behind if that is taken too |
| PathResolve.LocateIsFirst | internal/askir/path_resolve.go:20-42 | the search finds the first step with the trimmed id, phases before top level, or knows there is none |
| PathResolve.RewrittenPathDenotesStep | internal/askir/path_resolve.go:20-42 | navigating by the rewritten path leads where the remaining segments lead below that step; other paths stay |
| PathResolve.ResolvedPathLeads | internal/askir/path_resolve.go:10-62 | the path an edit is sent with leads from the root of the file to the first step with the id it names and on below it; one that names no step, or does not parse, goes as it is, without a leading "vars" in a vars document |
| PathResolve.RepairedIdNamesOneStep | internal/askir/path_resolve.go:20-42 | after the duplicate-id repair the addressed step is the only one with its id |
| PathResolve.OneStepPerIdIff | internal/askir/path_resolve.go:20-42 | repaired ids always name one step if and only if the phase name gives a clean prefix |
| DocBlocks.LastSyncWinsIff | internal/askcontext/docblocks.go:51-60 | an earlier sync leaves no trace exactly when its block was free of the end marker |
| DocBlocks.SyncIdempotentIff | internal/askcontext/docblocks.go:51-60 | syncing twice equals once exactly when the block is free of the end marker |
| DocBlocks.ReadBackIff | internal/askcontext/docblocks.go:51-60 | the text read back is the block without trailing line breaks exactly when the block is free of the end marker |
| DocBlocks.OutsideUntouched | internal/askcontext/docblocks.go:51-60 | everything before the begin marker and after the end marker survives |
| DocBlocks.StrictAgrees | cmd/schema-gen/doc_blocks.go:33-42 | the erroring version fails exactly where the other does nothing for want of a region, and agrees elsewhere |
| DocBlocks.SettledIff | internal/askcontext/docblocks.go:51-60 | a sync changes nothing exactly when the region already reads as the block |
| DocBlocks.StillMissing | internal/askcontext/docblocks.go:45-60 | a sync of one region does not complete another |
| DocBlocks.StillDisjoint | internal/askcontext/docblocks.go:45-60 | a region clear of the synced one moves as a whole |
| DocBlocks.SyncBothIdempotent | internal/askcontext/docblocks.go:45-49 | syncing two regions is idempotent when they are disjoint or one misses a marker |
| DocBlocks.RealMarkersAreGood | internal/askcontext/docblocks.go:45-49 | the repository's own markers meet every assumption about markers |
| DocBlocks.SyncManagedBlocksIdempotent | internal/askcontext/docblocks.go:45-49 | the same for the two regions of the repository |
| RunLog.ApplyRunLogger.constructor | cmd/deck/apply_runlog.go:83-122 | a new log is empty and its record is the replay of nothing |
| RunLog.ApplyRunLogger.WriteEvent | cmd/deck/apply_runlog.go:157-191 | under any write, sync or flush failure the record stays the replay of exactly the events appended and synced, and the step order only grows at its end; each of the eight fields of each record is the trimmed text of that field in the last such event about the step that sets it, or its last positive attempt |
| RunLog.ApplyRunLogger.UpdateStep | cmd/deck/apply_runlog.go:193-232 | one event takes the replay of a journal to the replay of the longer one, whose records `RunLog.ReplayTells` reads field by field |
| RunLog.ApplyRunLogger.RebuildRecord | cmd/deck/apply_runlog.go:228-231 | the rebuilt list has one record per step, in step order |
| RunLog.LastTextIsLast | cmd/deck/apply_runlog.go:204-227 | a recorded text is that of the last event to set it, and blank when none does |
| RunLog.LastAttemptIsLast | cmd/deck/apply_runlog.go:204-227 | the recorded attempt is that of the last event about the step with a positive one, and 0 when there is none |
| RunLog.ReplayTells | cmd/deck/apply_runlog.go:193-232 | each of the eight fields of every record, by name, is what the last event about the step to set that same field says |
| RunLog.IdsAreTheNamedSteps | cmd/deck/apply_runlog.go:193-203 | steps are listed once, never blank, and exactly the ones events name |
| RunLog.IdsOnlyAppend | cmd/deck/apply_runlog.go:198-203 | first-seen order: later events never move a step |
| RunLog.RecordOfJoined | cmd/deck/apply_runlog.go:193-232 | a snapshot stands for the journal it was taken from: overlaying the replay of later events gives the whole replay |
| RunLog.RedeliveryIsHarmless | cmd/deck/apply_runlog.go:193-232 | the same event twice in a row counts once |
| RunLog.RecordedStepWasLogged | cmd/deck/apply_runlog.go:157-191 | every recorded step comes from a line of the journal |
| PlanReview.DedupePlanCriticFindings | internal/askcli/plan_review.go:297-319 | the first finding of each key, tidied, in order |
| PlanReview.AppendLegacy | internal/askcli/plan_review.go:268-282 | each non-blank text that no finding expresses yet is appended once |
| PlanReview.NormalizedPlanCriticFindings | internal/askcli/plan_review.go:261-295 | the loops with their seen map give the normalised findings |
| PlanReview.NormalizePlanCritic | internal/askcli/plan_review.go:108-132 | the three text lists are the sorted texts of the three classes of findings |
| PlanReview.FatalPlanReviewReasons | internal/askcli/plan_review.go:138-157 | the reasons are the sorted texts of the fatal or gated findings and what the plan adds; which findings those are is told by the lemmas of `PlanGate` |
| PlanReview.FindingsAreNormal | internal/askcli/plan_review.go:261-319 | normalised findings are tidy, have distinct keys and are none the plan satisfies |
| PlanReview.FindingIsLeftIff | internal/askcli/plan_review.go:261-319 | a structured finding is left exactly when the plan does not satisfy it and it is what the first finding of its key comes to |
| PlanReview.KeyIsAnswered | internal/askcli/plan_review.go:261-319 | the first structured finding of every key is left or satisfied |
| PlanReview.DedupeKeepsFirsts | internal/askcli/plan_review.go:297-319 | deduplication keeps exactly the first finding of each key |
| PlanReview.LegacyKeyInjective | internal/askcli/plan_review.go:321-323 | legacy findings with one key are one finding, although keys join fields with a bar |
| PlanReview.RenormalizeFacts | internal/askcli/plan_review.go:261-295 | normalising again only appends legacy findings for texts not dealt with, and deals with all |
| PlanReview.GateInvariance | internal/askcli/plan_review.go:108-157 | the reasons to stop are the same before and after normalising, for every plan and critic |
| PlanReview.ReasonsAreFirsts | internal/askcli/plan_review.go:138-157 | a text stops the plan exactly if the plan adds it or the first structured finding of some key stops with it; legacy texts never do |
| PlanReview.OrderIrrelevantIff | internal/askcli/plan_review.go:138-157 | the reasons are the same for every permutation of the findings exactly when each possible reason is one in any case |
| PlanReview.NormalizeAgain | internal/askcli/plan_review.go:108-132 | blocking texts and missing contracts are fixed from the first normalisation on; findings only grow |
| PlanReview.NormalizeIdempotentIff | internal/askcli/plan_review.go:108-132 | normalising once is enough exactly when the text of every finding is already a legacy finding of its list or satisfied |
| PlanReview.NormalizeStabilises | internal/askcli/plan_review.go:108-132 | from the third normalisation on nothing changes |
| PlanReview.FindingsCanGrowTwice | internal/askcli/plan_review.go:108-132 | a critic whose findings grow in the second and in the third normalisation |
| PlanReview.FirstDecides | internal/askcli/plan_review.go:297-336 | of two tidy findings with one key the first alone decides |
| PlanReview.FirstTwinDecides | internal/askcli/plan_review.go:297-336 | a recoverable twin in front takes a block away |
| PlanReview.KeysCollide | internal/askcli/plan_review.go:321-323 | two findings with different paths and messages and one key, of which the one in front takes the block of the other away |
| PlanReview.SatisfiedYetGated | internal/askcli/plan_review.go:338-436 | the only finding filtered as satisfied that would have gated the plan is a role-cardinality gap with roles counted but nodes or topology open |
| PlanGate.RefineIsNotGated | internal/askcli/plan_review.go:338-366 | a recoverable finding never stops a refinement |
| PlanGate.OtherCodesAreNotGated | internal/askcli/plan_review.go:338-407 | a recoverable finding of a code that is not listed stops no plan |
| PlanGate.RoleSelectorDecides | internal/askcli/plan_review.go:338-407 | a missing role selector stops a plan with many roles exactly until the selector is filled in |
| PlanGate.ArtifactContractsDecide | internal/askcli/plan_review.go:338-407 | a gap in the artifact contracts stops a plan that prepares artifacts exactly until it has a contract |
| PlanGate.SharedStateDecides | internal/askcli/plan_review.go:338-407 | a gap in the join contract stops a plan with many roles exactly until it shares some state |
| PlanGate.NodeCountDecides | internal/askcli/plan_review.go:338-407 | a gap in topology or cardinality stops a plan with many roles exactly until node count and topology are given, or, for cardinality, the roles are counted |
| PlanGate.ExpectedNodesDecide | internal/askcli/plan_review.go:338-407 | weak verification stops a plan that stages anything exactly until the nodes to expect are given |
| PlanGate.BlocksStop | internal/askcli/plan_review.go:325-336 | an unrecoverable block of a code that no plan can settle stops every plan |
| PlanGate.OnlyBlocksStop | internal/askcli/plan_review.go:325-336 | an unrecoverable finding of another severity stops no plan, unless its code is gated |
| PlanGate.ArtifactBlockSettledIff | internal/askcli/plan_review.go:419-522 | a block on artifact contracts is settled exactly when each kind of artifact that is wanted is delivered from the prepare workflow to the entry scenario |
| PlanGate.JoinBlockSettledIff | internal/askcli/plan_review.go:419-561 | a block on the join contract is settled exactly by a role selector, a join file and a contract that publishes one for the workers |
| PlanGate.CardinalityBlockSettledIff | internal/askcli/plan_review.go:419-575 | a block on role cardinality is settled exactly by roles that are counted and add up |
| PlanGate.VerificationBlockSettledIff | internal/askcli/plan_review.go:419-613 | a block on verification is settled exactly by both of these and expected counts with a final check in the control plane |
| PlanGate.UnclassifiedSettledIff | internal/askcli/plan_review.go:419-464 | a block without a code is settled exactly by what settles the findings its words speak of |
| PlanGate.ListOf | internal/askcli/plan_review.go:108-132 | in which of the three lists the text of a finding ends up, and that it is in none if the plan settles it |
| PlanGate.FindingsAreTidied | internal/askcli/plan_review.go:297-319 | a finding counts trimmed, as advisory if it gives no severity, and not at all without a text |
| PlanGate.TextsAreFindings | internal/askcli/plan_review.go:261-295 | a text on its own counts as a recoverable finding without a code, of the severity of its list |
| StepGuidance.TakeAny | internal/askcontext/stepguidance.go:338-355 | the capability points are the same whichever capability comes first |
| StepGuidance.ApplyCapabilityScore | internal/askcontext/stepguidance.go:333-372 | score and tidied reasons are the same for every map order |
| StepGuidance.ScoreStep | internal/askcontext/stepguidance.go:165-178 | penalties, capabilities, stage and topology together give the candidate |
| ScoreFacts.SupportsIff | internal/askcontext/stepguidance.go:374-385 | a step supports the capabilities it lists, whatever blanks are around them, and never a blank one |
| ScoreFacts.CapabilityAdds | internal/askcontext/stepguidance.go:338-355 | one more capability, none of staging, adds its points to the steps that support it and nothing to the others |
| ScoreFacts.StagingAdds | internal/askcontext/stepguidance.go:338-355 | packages and images add 35 once artifacts are staged anyway |
| ScoreFacts.FirstStagingCapability | internal/askcontext/stepguidance.go:165-175 | the first staging capability costs a Command 60 and, in a prepare+apply request, a step without the prepare role 45 |
| ScoreFacts.PreparingAdds | internal/askcontext/stepguidance.go:356-363 | preparing adds 24, and in a prepare+apply request 20 to steps that stage and minus 25 to a Command |
| ScoreFacts.TopologyAdds | internal/askcontext/stepguidance.go:364-371 | a topology of many nodes adds 35 to joining steps, or else 18 to verifying ones |
| ScoreFacts.CommandLoses | internal/askcontext/stepguidance.go:165-178 | what a Command loses against a typed step that is otherwise alike |
| ScoreFacts.PrepareRoleAdds | internal/askcontext/stepguidance.go:165-178 | what a step gains with the prepare role |
| ScoreFacts.ConfidenceOfScore | internal/askcontext/stepguidance.go:176-217 | high confidence is a score of 70 or more, medium one of 35 or more |
| StepGuidance.ScoreSteps | internal/askcontext/stepguidance.go:107-185 | the scored list is a ranking of exactly the steps with positive scores |
| SelectionFacts.BestFirst | internal/askcontext/stepguidance.go:180-185 | the list has the best score first, and equal scores by kind |
| SelectionFacts.ListedIff | internal/askcontext/stepguidance.go:107-179 | a step is listed exactly when its score is positive |
| StepGuidance.CandidatesAreDistinct | internal/askcontext/stepguidance.go:107-179 | candidates of steps of distinct kinds have distinct kinds |
| StepGuidance.DiscoverCandidateSteps | internal/askcontext/stepguidance.go:95-188 | for a catalogue of distinct kinds the scored list is the one ranking and the selection from it is good |
| StepGuidance.RankingIsUnique | internal/askcontext/stepguidance.go:180-185 | among distinct kinds there is only one ranking, so neither map order nor an unstable sort shows |
| StepGuidance.SelectCandidateSteps | internal/askcontext/stepguidance.go:219-254 | the passes with their map of kinds give the selection for the order met, and it is good |
| StepGuidance.EnsureCapabilityCandidate | internal/askcontext/stepguidance.go:256-274 | a capability no selected step supports gets its best supporter, if there is one |
| StepGuidance.SelectionIsGood | internal/askcontext/stepguidance.go:219-274 | in every order: distinct kinds, all high-confidence steps, every supportable capability supported, size at most five or high plus capabilities, and nothing left out while there is room |
| SelectionFacts.SelectedForAReason | internal/askcontext/stepguidance.go:219-274 | every selected step has high confidence, or is the best supporter of a capability no high-confidence step supports, or fills up a list of at most five with nothing better left out |
| SelectionFacts.HighsComeFirst | internal/askcontext/stepguidance.go:219-233 | the selection begins with the high-confidence steps by rank |
| StepGuidance.SelectionDependsOnOrder | internal/askcontext/stepguidance.go:234-236 | a family of lists for which the order of two capabilities changes how many steps are selected |
| StepGuidance.OrderShows | internal/askcontext/stepguidance.go:219-274 | eleven entries of the step catalogue and two capabilities whose order changes the number of selected steps |
| StepGuidance.SameSelectionInAnyOrder | internal/askcontext/stepguidance.go:219-274 | the same candidates are selected in every order when each first supporter of an open capability has one that no other supports |
| StepGuidance.UnentangledAreNeeded | internal/askcontext/stepguidance.go:219-274 | that is so when no such first supporter supports another open capability with a different first supporter |
| StepGuidance.OrderNeverShowsIff | internal/askcontext/stepguidance.go:219-274 | for a list that the high-confidence steps fill that condition is exact, for any set of capabilities |
| StepGuidance.RepeatedKindLosesCapability | internal/askcontext/stepguidance.go:256-274 | coverage needs distinct kinds: in a list that repeats one, a capability can stay unsupported |
| Planning.BuildPlanReport | internal/applycli/plan.go:97-159 | one entry per step in order with its action, counters that add up, or the first step whose condition cannot be evaluated |
| Planning.Conservation | internal/applycli/plan.go:114-152 | total = run + skip, and every skip is counted under one reason |
| Planning.WriteApplyDryRun | internal/applycli/service.go:107-163 | the lines printed up to the first failure, and how the dry run ends |
| Planning.DryPhaseAgrees | internal/applycli/service.go:136-160 | a phase shows the entries of its steps up to the first that cannot be evaluated |
| Planning.DryRunAgreesWithReport | internal/applycli/service.go:107-163 | for workflows with phases dry run and report succeed together, fail on the same step, and show PLAN exactly for the steps the report runs |
| Planning.SliceIsFilter | internal/applycli/workflow.go:11-46 | planning a selected phase is filtering the whole plan exactly when later phases of that name have no steps |
| PlanFacts.ReportSays | internal/applycli/plan.go:97-159 | there is a report exactly when no condition that is looked at fails; it has one entry for every step of every phase, at its place, that says what happens to it |
| PlanFacts.ErrorNamesFirst | internal/applycli/plan.go:97-159 | otherwise the error names the first step, in order, whose condition fails |
| PlanFacts.SummaryCounts | internal/applycli/plan.go:97-159 | each counter is the number of entries it is named after |
| PlanFacts.WholeWorkflow | internal/applycli/workflow.go:11-46 | without a phase name the plan is of all phases, or of the bare steps as one phase named "default" |
| PlanFacts.NamedPhase | internal/applycli/workflow.go:11-46 | with a name it is the first phase of that name, and an error exactly when there is none |
| PlanFacts.EveryStepIsPlanned | internal/applycli/workflow.go:11-46 | the default plan has an entry for every step of every phase |
| PlanFacts.DryPhaseShows | internal/applycli/service.go:136-160 | the dry run shows a phase by its name and one line per step that says whether it would run, or by a note that it was completed |
| PlanFacts.DryRunShowsNothing | internal/applycli/service.go:107-128 | without phases or a readable state it shows nothing, and the error names the phase that was asked for |
| AuthoringTools.SchemaLoopCount | internal/askcli/author_runtime_tools.go:555-568 | schema lookups since the last write, edit, validation or read |
| AuthoringTools.ReadOnlyStreakCount | internal/askcli/author_runtime_tools.go:570-581 | the length of the longest run of reading events at the end |
| AuthoringTools.ActiveTools | internal/askcli/author_runtime_tools.go:446-471 | a session with candidates that keeps reading is offered no reading tool |
| AuthoringTools.WhatIsOffered | internal/askcli/author_runtime_tools.go:446-471 | all available tools in the ordinary case, and otherwise exactly which of the nine |
| AuthoringTools.StreakIs | internal/askcli/author_runtime_tools.go:570-581 | the streak is the number of calls at the end that read, search or look up schemas |
| AuthoringTools.SchemaLoopIs | internal/askcli/author_runtime_tools.go:555-568 | the loop begins after the last read, write, edit or validation, whatever else came since |
| AuthoringTools.ActingLiftsTheRestriction | internal/askcli/author_runtime_tools.go:446-581 | any write, edit or validation clears both counters |
| AuthoringTools.ToolDefinitions | internal/askcli/author_runtime_tools.go:88-138 | no tool is defined twice, and the two that end a session always are |

## Left out

- SessionTheorems.CommitRefinesValidation: assumes the disk does not change between the validate and the commit, as the source has no lock, and no change of it within one tool call.
- AliasedRuns.HarmlessIff: sets aside places whose rejected names all read like a validator's complaint about a prepare file, and an entry scenario elsewhere that no call can name and whose place has rejected names that all read so or end in prepare.yaml; for those only the direction from harmless to agreement is stated (`SessionTheorems.CommitRefinesValidation`). The budget of verifications is at least one, as `internal/askcli/llm.go:145-156` gives it.
- AliasedRuns.AliasBreaksCommit: the run it gives may have the disk change between two validates, when the names of the place can only be told apart by dropping one.
- StepGuidance.OrderNeverShowsIff: only for lists filled by the high-confidence steps; with room left, the last two passes can level a difference, and only the direction of `StepGuidance.SameSelectionInAnyOrder` is stated.
- StepGuidance.RepeatedKindLosesCapability: the step catalogue produces no such list.
- Files.WriteFiles: leaves out the scaffold call before the loop, which makes directories and default files outside the workflow tree.
- GenerationValidate.ValidatePlanContract: the lists that end up sorted without repetitions are sets, of issues instead of their texts.
- StepGuidance.OrderShows: the lexical scores of the eleven entries are given, as lexical scoring is not modelled.
- DocBlocks.SyncBothIdempotent: overlapping regions and blocks that contain either region's markers are outside its conditions.
- StepGuidance.SelectionIsGood: takes distinct step kinds as given, which the step catalogue guarantees.
- RunLog.ApplyRunLogger.WriteEvent: a failed append is taken to leave no line; bytes of a line written in part are not modelled, nor are the fields only the journal line carries.
- Provider calls, OAuth, MCP, HTTP, the server, command wiring, prompts and rendering: input, output and text assembly. The provider is an arbitrary script of responses.
- YAML, JSON, JSON Schema, regular expressions, structured paths and edits, the step catalogue and its fill values: arbitrary functions of their arguments.
- The validators behind `validateGeneration`, their diagnostics, and the discovery of entry points: arbitrary answers per call, but for the one diagnostic of a rejected path (hints that the text of such a path could trigger besides are left out); lint summaries and critics do not feed back into the session's state.
- The glob, grep, schema, init and web_search tools: only their success and their effect on the transcript and the idle counter; `init` is taken to leave workflow files alone.
- `fsutil.ResolveUnder` and path normalisation: arbitrary functions from paths to places; `filepath.ToSlash` is the identity.
- `strings.ToLower` is exact for letters whose lower case is ASCII; all comparisons are with ASCII texts.
- Integers are unbounded, so a read window whose offset plus limit overflows is not modelled.
- The lexical part of step scoring (matching the prompt against kinds, groups and signals): an arbitrary score and reason list per step.
- What a plan contributes to the fatal reasons by itself (blockers, clarifications, scope, program and graph checks): an arbitrary set of texts, since it does not depend on the critic.
- Failing output writers, verbose logging, the state file and its location, retries, timeouts and registers of planned steps.
- The step executor, phase batching, plan normalisation and refine scope inference.
