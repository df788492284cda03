# Verified model of the awf runner

`awf` runs agent workflows: it claims a run id, drives an engine that appends to an event log, can be resumed after a
crash, shows what agents print, and checks workflow definitions before it starts. This project models the parts of it
where a mistake would be hard to see, and proves what they promise. Check it with `dafny verify dfyconfig.toml`.

What the modules hold, and the main results:

- **Terminal output** (`Utf8`, `DisplayStream`, `DisplayChunks`, `DisplayLaws`, `DisplayErasure`, `DisplayForms`, `DisplaySanitizer`).
  One byte machine `Run` specifies both sanitizers; the index loops are proved to compute it. About the machine:
  feeding a stream in pieces shows what the whole shows if and only if no chunk end cuts a rune; every output of every
  chunking is clean, well-formed UTF-8; fixed points are exactly the clean strings; complete control functions leave
  no trace, in every spelling and however they are cut; which bytes introduce, end and pass is stated in bytes.
- **Run lifecycle** (`RunLog`, `RunProtocol`, `RunExecutions`, `RunProgress`, `RunClosing`). Any number of `awf run` and `awf resume`
  processes, interleaved system call by system call, each of which may fail or die. An inductive invariant gives: one
  lock holder, only the holder appends, every log is legal (one `run.started`, first; epochs count up; at most one terminal
  event a frame, written by the process that opened it), and a refused process leaves no event. And the protocol is not
  safe by doing nothing: free ids can be claimed, idle runs resumed, and every terminal result recorded.
- **Commit boundary** (`CallCommit`). Blobs before pointer, a fault at any operation: no record ever points to a missing
  blob, orphans are invisible to folding, a run that crashes and retries ends with the store of one that did not, and
  folding it returns every node's own product.
- **Definition guards** (`WorkflowTree`, `PersistentGuard`, `ThreadedGuard`, `StepWalks`, `AdapterLaws`). Every recursive walk is proved
  equal to "the first fault of one document-order listing", the listing holds exactly the places of the tree, and
  accepting is characterised by routes and places, calls expanded across modules.
- **Inspect tree and tool-call count** (`RunPaths`, `InspectTree`, `InspectLaws`, `TreeRenderer`, `ToolCalls`). The memoised
  renderer writes exactly the view; the view shows a span if and only if nothing above it stops rendering, in
  sibling-sorted preorder.
- **Live tap, previews, cost, environment** (`TextLines`, `LiveRenderer`, `DisplayPreview`, `RunMetrics`, `FirstOccurrence`,
  `EnvAllowlist`).

## Where the code differs from what is said about it

- *Chunk independence.* A rune cut by the end of a chunk is dropped, not carried (agent/display_sanitize.go:184-186), so
  the stream form can show less or more than the one-shot form (`CutRuneSwallowsText`, `CutRuneRevealsText`). The exact
  condition is `TransparentThroughoutIffNoCut`. Safety and erasure need no such condition.
- *Removal of the log.* `awf run` removes the log unless a flag is set, and the flag is set only after the fsync of
  `run.started` (cli/run.go:431-437, 511-517). If that fsync fails, a log that holds `run.started` is removed, and, since
  the lock is released before the removal, possibly while a resume is already driving it (`FailedSyncCanLoseALiveRun`).
  `StartedLogRemovedIff` and `HistoryKeepsItsName` say that this is the only way.
- *Epochs.* Folding sets the epoch to 1 at `run.started` (engine/fold.go:120), so resumes write 2, 3, 4, ...
- *Empty logs.* An empty log folds without error (engine/fold.go:72-76); resume refuses it later, when it looks for the
  recorded backend (cli/backend.go:111-134). The model refuses it at admission.
- *Retry.* A retry that does not consult the log duplicates the record exactly when the fault struck after the append had
  landed (`BlindRetryExactIff`); the engine's rule of skipping completed nodes is what makes retry exact (`GuardedRetry`).
- *Tool calls.* The count by timestamps also counts calls that carry the very timestamp of the later restart
  (`CountIsPositionalIff`); it is the count by position when timestamps increase strictly.
- *Line budget.* A cut line is said to be capped at 512 bytes, but the marker is appended after the cut: a line stays
  within the budget exactly when it is not cut (`WithinBudgetIff`).

## What is assumed

- The run lock is a mutex that the kernel releases when its holder dies; files survive the removal of their name while
  they are open; an append that fails leaves no event (a torn tail is truncated on the next open); folding reads the log
  by name, not through the open handle (state/log.go:175-188).
- The engine appends nothing once it has returned, and returns no outcome after it wrote `run.cancelled` or `run.paused`
  (engine/interpreter.go:231-237, engine/controls.go:88-102).
- `writer`, `from`, `landed` and `wrote` in the protocol are history kept for the theorems, not data on disk.
- Blob digests do not collide, and decoding undoes encoding.
- Adapter references are values, not strings; `RefTextsDifferIff` says when the strings tell them apart. Lengths of module
  ids are counted in characters.
- Modules of a definition have workflows, imports are acyclic (`LoadedIdsAreRanked` shows that module ids as the loader
  forms them always provide the rank), and the order in which modules are walked is given.
- The spans given to the inspect tree are those of a projected log: one for each path, parents present
  (obs/project.go:240-301, obs/scopes.go:17-41). Without that, the recursion of the source need not end.
- In the live renderer, sanitizing and redacting are one function of the text, text is a sequence of code points (so truncation
  by runes is by position), and colour is off: the coloured banner puts its reset code after the newline
  (cli/agentrender.go:54), so the line-start law is stated without colour.
- Money is counted in reals and tokens in unbounded integers.

## Model

| member | source | states |
|---|---|---|
| Utf8.EncodeOfDecode | agent/display_sanitize.go:57-76 | re-encoding a decoded valid rune gives back the very bytes read, so emitting runes copies input |
| Utf8.DecodeOfEncode | agent/display_sanitize.go:57-76 | every scalar value survives encoding and decoding, whatever follows it |
| DisplaySanitizer.SanitizeDisplayBytes | agent/display_sanitize.go:40-80 | the one-shot loop shows exactly what the stream machine shows of the whole input from normal mode |
| DisplaySanitizer.StreamSanitizer.SanitizeBytes | agent/display_sanitize.go:104-216 | one call emits the machine's text for its chunk from the carried mode and carries the machine's final mode |
| DisplaySanitizer.ScanControlSequence | agent/display_sanitize.go:281-290 | a complete scan skips exactly to where the machine is back in normal mode; an incomplete one means it is still inside at the end |
| DisplaySanitizer.ScanStringControl | agent/display_sanitize.go:292-312 | the same for control strings, with the mode to carry when the chunk ends inside, also between ESC and backslash |
| DisplaySanitizer.ScanEscContinuation | agent/display_sanitize.go:265-279 | the same for what follows ESC |
| DisplaySanitizer.SkipControlSequence | agent/display_sanitize.go:254-263 | the one-shot skip loses no text that the machine would show |
| DisplaySanitizer.SkipStringControl | agent/display_sanitize.go:314-331 | the same for control strings with all four terminators |
| DisplaySanitizer.SkipEscapeSequence | agent/display_sanitize.go:240-252 | the same for escape sequences |
| DisplayStream.CutIsUnfinishedRune | agent/display_sanitize.go:184-186 | what a call drops is a suffix of its input, an unfinished rune, and only in normal mode |
| DisplayStream.ValidChunkHasNoCut | agent/display_sanitize.go:100-102 | a chunk of valid UTF-8 drops nothing, in any mode |
| DisplayStream.RunSplits | agent/display_sanitize.go:92-216 | a cut that drops nothing is invisible: text, mode and drop of the whole are those of the parts |
| DisplayStream.TransparentIffNoCut | agent/display_sanitize.go:184-186 | a chunk end is invisible to every continuation if and only if it cuts no rune |
| DisplayChunks.ChunksActAsWhole | agent/display_sanitize.go:104-216 | for every division without a cut rune, the calls together equal the machine on the whole string |
| DisplayChunks.LastChunkMayCut | agent/display_sanitize.go:104-216 | the last chunk may end anywhere |
| DisplayChunks.ValidChunksActAsWhole | agent/display_sanitize.go:92-102 | chunks of valid UTF-8 may cut control functions anywhere without effect |
| DisplayChunks.TransparentThroughoutIffNoCut | agent/display_sanitize.go:104-216 | a division is invisible after every one of its chunks if and only if no call takes the unfinished-rune return |
| DisplayChunks.CutRuneSwallowsText | agent/display_sanitize.go:184-186 | a concrete stream that shows less when cut inside a rune |
| DisplayChunks.CutRuneRevealsText | agent/display_sanitize.go:184-186 | a concrete stream that shows more when cut inside a rune |
| DisplayLaws.RunShowsCleanText | agent/display_sanitize.go:104-238 | from any mode and for any bytes the output is well-formed UTF-8 without control characters other than newline and tab |
| DisplayLaws.ChunksShowCleanText | agent/display_sanitize.go:104-238 | the same for all chunkings, also those that split runes |
| DisplayLaws.CleanMeansHarmless | agent/display_sanitize.go:218-220 | clean text is well-formed and holds no ESC, BEL, DEL or other control byte |
| DisplayLaws.FixedPointIffClean | agent/display_sanitize.go:40-80 | the fixed points of the sanitizer are exactly the clean strings |
| DisplayLaws.SanitizeIsIdempotent | agent/display_sanitize.go:40-80 | sanitizing twice is sanitizing once |
| DisplayLaws.OutputIsSubsequence | agent/display_sanitize.go:40-216 | the output is a byte subsequence of the input, in every mode |
| DisplayErasure.ErasedWithoutTrace | agent/display_sanitize.go:240-331 | a complete control function between a prefix that ends in normal mode and any suffix changes nothing that is shown |
| DisplayErasure.FunctionHiddenInChunks | agent/display_sanitize.go:104-331 | a control function divided at any bytes, even inside its introducer, shows nothing and ends in normal mode |
| DisplayErasure.HiddenBetweenChunks | agent/display_sanitize.go:92-216 | in a stream of chunks, such a function between others is as if it had not been sent |
| DisplayForms.SpellingsAgree | agent/display_sanitize.go:222-279 | ESC and a byte from @ to _, the raw C1 byte and the C1 character in UTF-8 have the same effect before any text |
| DisplayForms.StringErased | agent/display_sanitize.go:240-331 | the five control strings in three spellings each, with the four terminators and any body without one, all given in bytes, are erased |
| DisplayForms.SequenceErased | agent/display_sanitize.go:254-290 | a control sequence in its three spellings is erased up to the first byte from 0x40 to 0x7E |
| DisplayForms.PairErased | agent/display_sanitize.go:240-252 | any other byte after ESC goes with it and nothing more |
| DisplayForms.CharacterShownIff | agent/display_sanitize.go:57-80 | in normal mode a character is shown byte for byte exactly when it is newline, tab or no control character |
| DisplayForms.InvalidByteDropped | agent/display_sanitize.go:61-65 | a byte that starts no character and introduces nothing is dropped alone |
| DisplayForms.UnfinishedRuneIff | agent/display_sanitize.go:184-186 | the bytes a chunk end may drop are exactly the proper beginnings of encoded characters |
| RunLog.LegalIsFoldable | engine/fold.go:72-120 | a legal log is empty or begins with its only run.started, which is what folding demands |
| RunLog.EpochsCountUp | cli/resume.go:490-506 | resume epochs are 2, 3, 4, ... without gap, and folding reads the number of frames |
| RunLog.FinishedClosesFrame | cli/execute.go:174-188 | only a run.resumed can follow a run.finished |
| RunLog.OneTerminalPerFrame | cli/execute.go:148-188 | between two run.finished or run.cancelled a frame opens |
| RunLog.PausedFrameHasNoTerminal | cli/execute.go:148-154 | a frame with run.paused holds neither |
| RunLog.FrameHasOneWriter | cli/resume.go:133-148 | all events of a frame were written by the process that opened it |
| RunLog.FinishedOkNeedsFrom | cli/resume_admission.go:17-42 | a run.resumed after a latest run.finished of ok was written by a --from resume |
| RunLog.LatestFinishedIs | cli/resume_admission.go:17-42 | the latest run.finished is the one with no other behind it |
| RunProtocol.StepKeepsInv | cli/resume.go:119-506 | every step of every process, crash and refusal included, keeps the invariant of files, name, lock and program points |
| RunProtocol.WriteIsLegal | cli/resume.go:490-506 | any append is made by the lock holder to the file it has open and leaves a legal log |
| RunExecutions.InvAlways | cli/run.go:413-517 | the invariant holds in every state of every execution |
| RunExecutions.ReachableLogsLegal | cli/resume.go:133-506 | in every reachable state every log is legal, foldable and has epochs 2, 3, 4, ... |
| RunExecutions.OneHolder | runlock/runlock.go:38-64 | no two processes are past the lock at once |
| RunExecutions.OnlyTheHolderAppends | cli/resume.go:133-151 | each step leaves a log alone or adds one record of the current lock holder |
| RunExecutions.LogsOnlyGrow | state/log.go:141-161 | what a log held in one state is a prefix of what it holds in every later one |
| RunExecutions.StartedLogRemovedIff | cli/run.go:431-453 | a log with run.started loses its name exactly in the cleanup after a failed fsync of run.started |
| RunExecutions.LandedMeansSyncFailed | cli/run.go:511-517 | that cleanup is reached only through such a failed fsync |
| RunExecutions.HistoryKeepsItsName | cli/run.go:413-517 | while no such fsync fails, every log with events stands at the log path, in every state |
| RunExecutions.FailedSyncCanLoseALiveRun | cli/run.go:431-453 | a reachable state where the cleanup takes the log away from a resume that holds the lock |
| RunExecutions.RefusalLeavesNoTrace | cli/resume.go:119-192 | a process has an event in some log if and only if its program point says that it wrote one |
| RunProgress.ReturnLeadsTo | cli/execute.go:148-172 | a returned pair goes on to be recorded exactly for ok without error or one of the three failures with one |
| RunProgress.EveryOutcomeIsRecorded | cli/execute.go:168-188 | from every reachable running engine, each of these results can end the run with exactly its run.finished and the lock free |
| RunProgress.FreeIdCanBeClaimed | cli/run.go:413-517 | from every reachable state with a free id and lock, a run can get to the engine with exactly run.started in its log |
| RunProgress.FoldedIff | cli/resume.go:166-173 | a log can be folded exactly when it is empty or begins with its only run.started |
| RunProgress.AdmittedIff | cli/resume.go:175-192 | a folded log is admitted exactly for --from or when its latest run.finished is not ok |
| RunProgress.IdleRunCanBeResumed | cli/resume.go:119-506 | from every reachable state an undriven run that did not end ok, or any with --from, can be re-entered with exactly the next epoch's run.resumed |
| RunClosing.ResumeAdmission | cli/resume_admission.go:17-42 | refuses exactly an undecodable run.finished or a latest one that is ok; otherwise names the latest outcome or the cancel |
| RunClosing.AdmissionIgnoresOtherEvents | cli/resume_admission.go:17-42 | events other than run.finished never change admission |
| RunClosing.FinishRunResult | cli/execute.go:148-200 | run.finished is written exactly for valid terminal pairs, containers stay up exactly for a pause, and exit codes follow |
| CallCommit.RunStore.CommitCallProduct | engine/call_commit.go:10-36 | store and return value after a commit with a given fault, file references read in any order |
| CallCommit.EveryHistoryIsSound | conformance/atomic.go:13-36 | after any sequence of faulty commits every record references only present, decodable blobs |
| CallCommit.FoldSeesOnlyRecords | engine/fold.go:176-235 | a sound log folds, completes exactly the recorded paths, and orphan blobs change nothing |
| CallCommit.FoldReadsLatestRecords | engine/fold.go:176-235 | folding gives each path the value behind the outputs reference and the files of its latest record |
| CallCommit.CommitReadsBack | engine/call_commit.go:10-36 | once the record is in, folding returns the old results with the product's own value and files at the path; if it is not, the old results |
| CallCommit.SucceedsIff | engine/call_commit.go:10-36 | an attempt succeeds exactly when its blobs are present, its outputs encode and none of its operations fails |
| CallCommit.BlindRetryExactIff | engine/call_commit.go:10-36 | a retry that ignores the log is exact if and only if the fault struck before the record landed |
| CallCommit.GuardedRetry | engine/call_commit.go:10-36 | a retry that skips recorded nodes is exact after every fault |
| CallCommit.CrashyCommitEqualsClean | engine/call_commit.go:10-36 | any number of faults before success leave log and blobs of an uninterrupted commit |
| CallCommit.CrashyRunEqualsCleanRun | conformance/atomic.go:13-36 | the same for a whole run of commits |
| CallCommit.CrashyCommitReadsBack | engine/call_commit.go:10-36 | however it is interrupted, a commit that goes through is read back as its product |
| CallCommit.CrashyRunReadsBack | conformance/atomic.go:13-36 | after a whole run that crashed at will, folding returns every node's own product |
| WorkflowTree.VisitsAreExactlyThePlaces | cli/credential_guard.go:46-94 | the document-order listing holds exactly the agent steps and calls standing somewhere in the tree, with their context |
| WorkflowTree.ControlNodesList | cli/persistent_guard.go:76-118 | each kind of control node lists its branches in order, and only a gate's evaluate block starts judging |
| WorkflowTree.SharedRefIff | engine/runtime_resolution.go:41-52 | two uses share a reference exactly when names agree and both are bare or both are roles of the same imported module |
| WorkflowTree.RoleTextsDiffer | engine/runtime_resolution.go:51-51 | the length prefix makes the text of a role reference unambiguous |
| WorkflowTree.RefTextsDifferIff | engine/runtime_resolution.go:41-52 | texts tell references apart exactly while no bare name imitates the text of a role |
| AdapterLaws.BareNameIsHidden | engine/runtime_resolution.go:41-52 | in an imported module that declares a role, rebinding the bare name changes no lookup |
| AdapterLaws.RolesAreLocal | engine/runtime_resolution.go:41-52 | rebinding a module's roles changes no lookup in other modules or the root |
| AdapterLaws.JudgedAsRole | cli/persistent_guard.go:53-66 | the verdict on a judging step whose adapter is a role of its imported module, by that module's own entry |
| AdapterLaws.JudgedByName | cli/persistent_guard.go:53-66 | the verdict on any other judging step, by the bare name's entry |
| AdapterLaws.SameSessionVerdict | cli/persistent_guard.go:49-134 | resolvers that agree on what the modules can name get the same verdict from the whole guard |
| AdapterLaws.ThreadFaultIs | cli/threaded_guard.go:65-91 | each kind of error on a continuing step, exactly when |
| AdapterLaws.SameThreadVerdict | cli/threaded_guard.go:61-147 | resolvers that agree for the module get the same verdict on its whole tree |
| AdapterLaws.ComplainsIff | cli/input_files_guard.go:43-58 | a step is complained about exactly when it has input files, no container and a resolvable adapter that cannot inline them |
| AdapterLaws.WalkComplainsIff | cli/input_files_guard.go:43-107 | the walk complains exactly when some such step exists and names the first one and its adapter |
| AdapterLaws.DueIff | cli/credential_guard.go:46-71 | a warning is due exactly for steps whose adapter resolves, names variables and finds none set, and names step, adapter and variables |
| PersistentGuard.LoadedIdsAreRanked | loader/imports.go:40-45 | ids made of the parent's id and the import name make imports acyclic |
| PersistentGuard.GuardFindsFirstFault | cli/persistent_guard.go:49-122 | the recursive walk returns the first fault of the listing of judging steps, calls expanded in place |
| PersistentGuard.CallTargetIs | cli/persistent_guard.go:124-134 | a call leads to the loaded module that the first matching import edge points to, or nowhere |
| PersistentGuard.FaultNamesItsJudge | cli/persistent_guard.go:53-66 | a rejection names the first judge that is not harmless, as missing or as session-keeping |
| PersistentGuard.GuardAcceptsIff | cli/persistent_guard.go:49-134 | accepts if and only if every route to a judging step, through any chain of calls, ends at a resolvable adapter without a session |
| PersistentGuard.DefinitionAcceptedIff | cli/persistent_guard.go:24-47 | the same for all modules of a definition |
| ThreadedGuard.GuardFindsFirstFault | cli/threaded_guard.go:61-147 | the recursive walk returns the first fault of the listing |
| ThreadedGuard.StepIndex.Collect | cli/threaded_guard.go:149-185 | the shared map ends up with exactly the named agent steps of the tree, the last one for each id |
| ThreadedGuard.GuardAcceptsIff | cli/threaded_guard.go:61-147 | accepts if and only if every continuing step has the capability its position demands and its target keeps no session |
| ThreadedGuard.UniqueIdIsNamed | cli/threaded_guard.go:149-185 | with unique ids the continued step is the one with that id, anywhere in the tree |
| ThreadedGuard.CheckWorkflow | cli/threaded_guard.go:47-59 | indexing and checking together accept exactly the properly threaded workflows and report the first fault |
| StepWalks.WalkReportsFirst | cli/input_files_guard.go:43-107 | the input-files walk reports the first offending step of the same listing |
| StepWalks.SilentIffNoOffender | cli/input_files_guard.go:43-107 | it reports none if and only if no step offends |
| StepWalks.Warnings.Walk | cli/credential_guard.go:46-94 | the walk extends what has been written by the warnings due in its part of the listing, the first for each reference |
| StepWalks.OneWarningPerRef | cli/credential_guard.go:29-94 | every reference due a warning gets exactly one, in order of first mention |
| StepWalks.KeptIsFirstDue | cli/credential_guard.go:46-71 | what is written about a reference is the first warning due for it |
| StepWalks.CheckCredentialPresence | cli/credential_guard.go:25-44 | over all modules the warnings written are the first one due for each reference, with its step and variables |
| RunPaths.ParentOfJoin | engine/path.go:163-170 | trimming the last segment undoes joining one |
| RunPaths.DepthCountsSegments | engine/path.go:163-170 | depth counts the segments of a path |
| RunPaths.BeforeIff | cli/inspect.go:115-119 | path order is byte order: proper prefix, or smaller at the first difference |
| RunPaths.PrecedesIsStrict | cli/inspect.go:115-119 | sibling-sorted preorder is irreflexive and asymmetric |
| RunPaths.PrecedesIsTotal | cli/inspect.go:115-119 | it orders any two different paths |
| InspectTree.KidsAre | cli/inspect.go:107-119 | the children of a path are all spans with that parent, each once, in byte order of their paths |
| InspectTree.NotableBelowIsUnderAKid | cli/inspect.go:166-173 | something notable lies strictly below a path if and only if the subtree of a child holds it |
| TreeRenderer.TreeView.Index | cli/inspect.go:107-114 | the two maps hold every span at its path and every child in its parent's list |
| TreeRenderer.TreeView.SortChildren | cli/inspect.go:115-119 | every list of children is sorted in place, whatever the order in which the map is iterated |
| TreeRenderer.TreeView.MarkNotable | cli/inspect.go:120-134 | the memo covers the subtree and says of each span whether its subtree holds something notable |
| TreeRenderer.TreeView.SubtreeNotableBelow | cli/inspect.go:166-173 | the memo lookup decides whether something notable lies strictly below |
| TreeRenderer.TreeView.Render | cli/inspect.go:139-160 | appends exactly the view of the subtree |
| TreeRenderer.RenderTree | cli/inspect.go:106-164 | prints the view from the run span, or nothing without one |
| InspectLaws.TreeShowsIff | cli/inspect.go:139-160 | a span is printed if and only if rendering stops at none of its proper ancestors |
| InspectLaws.TreeIsInPreorder | cli/inspect.go:139-160 | rows come in sibling-sorted preorder, none twice |
| InspectLaws.NotableIsShown | cli/inspect.go:121-134 | with unlimited depth every failed, rejected, pending or incomplete span and all its ancestors are printed, whatever the fold set |
| InspectLaws.TroubleIsShown | cli/inspect.go:121-134 | the same with error, pending and the four outcomes spelled out |
| InspectLaws.HiddenIff | cli/inspect.go:146-156 | with unlimited depth a span is hidden if and only if a folded non-root ancestor has nothing notable beneath it |
| InspectLaws.UneventfulIsHiddenIff | cli/inspect.go:146-206 | the same with statuses spelled out: hidden if and only if below a span the fold set names and under which nothing has an error, is pending or has one of the four outcomes |
| InspectLaws.DepthLimitShows | cli/inspect.go:143-145 | with an empty fold set exactly the spans down to the depth limit are printed |
| InspectLaws.ViewIsAnnotated | cli/inspect.go:151-156 | rows carry their depth, and the collapsed note with the number of children follows exactly the folded rows that have children |
| ToolCalls.CountToolCalls | cli/inspect.go:269-290 | the two passes count, for each path, the tool calls stamped at or after its last start |
| ToolCalls.CallsAreCounted | cli/inspect.go:285-287 | the positional count is the number of positions holding a tool_use or tool_call event of the path |
| ToolCalls.CountIsPositionalIff | cli/inspect.go:269-290 | on non-decreasing timestamps that is the count by position if and only if no earlier call is tied with the last start |
| ToolCalls.CountIsPositional | cli/inspect.go:265-290 | on strictly increasing timestamps it always is |
| LiveRenderer.Renderer.Emit | cli/agentrender.go:42-60 | after any sequence of events the output is the transcript, defined by positions in the sequence and not by the two flags |
| LiveRenderer.FormatReasoning | cli/agentrender.go:137-155 | the loop prints the first three lines that are not blank |
| LiveRenderer.FormatToolResult | cli/agentrender.go:160-174 | the loop prints the header and every non-empty line |
| LiveRenderer.ReasoningReadsAs | cli/agentrender.go:131-155 | read line by line, reasoning is its first three thoughts, cut to 200 characters, the first behind the heading, the others indented |
| LiveRenderer.ThoughtsLineByLine | cli/agentrender.go:140-143 | thoughts are the lines with something other than white space, decided line by line |
| LiveRenderer.BodyLineByLine | cli/agentrender.go:167-172 | each non-empty line of a tool result is indented and cut to 200 characters, empty ones are left out |
| LiveRenderer.ToolResultShows | cli/agentrender.go:160-174 | the header tells success from failure, names the tool and its sizes, and the body follows |
| LiveRenderer.AnswersAreShownWhole | cli/agentrender.go:93-113 | answers and deltas are shown whole, empty texts not at all |
| LiveRenderer.OneLineIs | cli/agentrender.go:177-199 | the first line of a text, cut to 200 characters and marked if cut, whatever follows it |
| LiveRenderer.OneLinersShowFirstLine | cli/agentrender.go:100-115 | notices, calls and errors are a mark and the first line cut to 200 characters |
| LiveRenderer.OthersShowPayload | cli/agentrender.go:116-121 | other events show their kind and the first 120 characters of the payload |
| LiveRenderer.WholeLines | cli/agentrender.go:90-123 | the text of anything but a delta is empty or ends its line |
| LiveRenderer.LineStart | cli/agentrender.go:46-59 | when a non-delta event or the banner begins, the output is empty or ends in a newline |
| LiveRenderer.OneBanner | cli/agentrender.go:53-56 | the banner is written for exactly one event if any is live, and for none otherwise |
| LiveRenderer.DeltasUnbroken | cli/agentrender.go:46-59 | adjacent deltas come out concatenated, unless the first live event is among them |
| LiveRenderer.LiveBreaksDeltas | cli/agentrender.go:48-56 | at the first live event a delta stream is broken by exactly a newline and the banner |
| LiveRenderer.OthersEndDeltas | cli/agentrender.go:48-52 | another event ends a delta stream with exactly one newline |
| LiveRenderer.WholeLinesAbut | cli/agentrender.go:46-59 | after anything but a delta nothing is added, except the banner before the first live event |
| TextLines.JoinOfSplit | agent/display_helpers.go:46-60 | joining split lines gives the text back |
| TextLines.SplitOfJoin | agent/display_helpers.go:46-60 | splitting joined lines gives the lines back |
| DisplayPreview.Clip | agent/display_helpers.go:72-81 | the backward loop cuts at the last possible rune start within the budget |
| DisplayPreview.ClipKeepsRunes | agent/display_helpers.go:70-81 | a cut line of well-formed text is well-formed, at most three bytes under the budget, and names what it dropped |
| DisplayPreview.WithinBudgetIff | agent/display_helpers.go:40-81 | a shown line is within the budget if and only if it was not cut |
| DisplayPreview.ClipLines | agent/display_helpers.go:62-68 | every line is cut in place |
| DisplayPreview.Elide | agent/display_helpers.go:46-60 | the preview is the kept lines, each cut, joined |
| DisplayPreview.ElideShows | agent/display_helpers.go:40-60 | read back line by line it is head, note and tail, at most one line more than asked for |
| DisplayPreview.KeptLinesAre | agent/display_helpers.go:46-60 | the kept lines are the first headN, the note with the number hidden, and the last tailN, or all if they fit |
| DisplayPreview.CutNoteReads | agent/display_helpers.go:80-80 | the note behind a cut line, byte for byte |
| DisplayPreview.HiddenNoteReads | agent/display_helpers.go:51-57 | the note between head and tail, byte for byte, singular for one line |
| DisplayPreview.DecimalReadsBack | agent/display_helpers.go:57-80 | the number in a note is the number of lines or bytes left out |
| DisplayPreview.ShortIsWhole | agent/display_helpers.go:40-50 | a text within both budgets is shown whole, without trailing line ends |
| RunMetrics.FoldRunMetrics | cli/execute.go:260-297 | every figure is the stated sum or count over the agent steps of the log |
| RunMetrics.StepAddsItsFigures | cli/execute.go:260-297 | what one agent step adds to each figure, by the source of its cost |
| RunMetrics.NoStepAddsNothing | cli/execute.go:262-277 | other events, missing usage and all-zero metrics add nothing |
| RunMetrics.RollupIsAdditive | cli/execute.go:260-297 | the rollup of a concatenated log is the sum of the rollups |
| RunMetrics.StepsAreCounted | cli/execute.go:260-297 | agent steps are priced plus unpriced steps, and a cost is known if and only if some step is priced |
| RunMetrics.TotalSplits | cli/execute.go:260-297 | the total exceeds input, output and reported by the sum of the steps' gaps, so by nothing when every step is balanced |
| RunMetrics.TotalSplitsOnlyIf | cli/execute.go:260-297 | where no gap is negative, the figures agree if and only if every step is balanced |
| FirstOccurrence.FreshKeepsOrder | cli/agent_registry.go:40-58 | deduplication keeps the order of first occurrences |
| EnvAllowlist.DedupInPlace | cli/agent_registry.go:40-58 | the in-place loop leaves the first occurrences in front, overwriting nothing unread |
| EnvAllowlist.MergeWorkflowEnv | cli/agent_registry.go:70-93 | the merge is the first-occurrence deduplication of all non-empty names, nil exactly when there are none |
| EnvAllowlist.MergedIsTheUnion | cli/agent_registry.go:70-93 | a merge has no duplicates and holds exactly the non-empty names of both lists |
| EnvAllowlist.MergedKeepsOrder | cli/agent_registry.go:70-93 | its names come in the order in which the lists first mention them |
| EnvAllowlist.MergeIsAssociative | cli/agent_registry.go:70-93 | grouping does not matter when several lists are merged |

## Left out

- The engine's interpreter and its gate, map, prune, reduce and react executors: the protocol only uses what they promise about framing events.
- Digest, structural and runtime-drift checks of resume, and the reuse of containers: in the protocol they are refusals that may happen at any time.
- Reaching a lock holder that hangs, and cross-machine locking: the lock is a local mutex.
- `Commit` for ordinary steps (engine/commit.go:56), which follows the same blob-then-pointer order with more kinds of references.
- Projection of a log to spans: its output is taken to have one span a path and all ancestors.
- The text of an inspect line (name, cost, duration, tokens): a row carries its span and depth.
- Redaction and its regular expressions, colour, humanised sizes and number formatting outside previews.
- Flag parsing, usage text, exit-code tables, state-directory ownership, backends, adapters, telemetry and the web view.
- Floating-point rounding and integer overflow in the cost rollup.
