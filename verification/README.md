# Verified models of the stateful core

Dafny models of the components whose correctness hangs on state, order or arithmetic, with proofs over all inputs, all
runs or all reachable states. Run `dafny verify dfyconfig.toml` to check everything.

| files | component | main results |
|---|---|---|
| BatchPlans, BatchMeaning, BatchExecutor, BatchRuns | batch execution of tool calls in dependency waves | the wave-by-wave executor computes a set-by-set least fixpoint that no flag, order or race can change; an abort only cancels |
| WorkspaceTree, WorkspaceIndex, WorkspaceIndexQueue, IndexScans, IndexRuns, IndexRaces | the stored workspace index, its event queue and its workers, read by read | when a patch leaves the full scan in the store (if and only if); with one worker the index tracks the tree over every run in which no read throws, though the tree changes between any two reads; three runs, built from single reads, that lose entries for good |
| ContextPaths, LineDiff, ContextLedger | the context ledger and its line diff | what each delivery decodes to; two indexes and a byte counter stay right through eviction, and exactly when equal content is still found; a printed diff decodes exactly when it was not cut |
| McpLifecycle, McpLifecycleRuns, McpLifecycleHistory | overlapping start, stop and restart of the MCP server | one owner for at most one open server in every interleaving, no deadlock, every call settles, exactly when a call gets its own workspace, and from the answers heard how each operation ends |
| TextLines, TextFileReader, FilePages, PagedText | line ranges and paging of a text file | pages tile and end; for every text, exactly when they show their lines and give the file back |
| Utf8, LogRingBuffer | the bounded log of a process | exact accounting, the longest end that fits, polling exactly once |
| LogTail, LogHub | tailing log files and the desktop log | records do not depend on where reads were cut, even inside a character or a line end |
| TreeReader | the bounded tree listing | exactly the first entries of the full listing, in tree order |
| Snippets | snippet windows around matches | exactly the union of the windows, merged apart |
| Wrappers, Numbers, Sequences | result shapes, minimum and maximum, sequence selection and sorting | |

Code that works by changing fields is modelled as a class whose methods are proved against a specification function;
the theorems over runs are about those functions. Asynchronous code is cut at its awaits into steps, and a run is any
sequence of enabled steps: timers, the file system, child calls and servers appear as choices of the environment.

## Where the code differs from what one would expect

Each of these is proved, with the exact condition where there is one.

- A flush entered with all workers busy and events pending calls itself without progress (`FlushStallsIff`,
  `StallIsReachable`).
- With the default two workers the index can lose an entry for good though no read throws (`QuietAgreementIff`,
  `TwoWorkersLoseAnEntry`).
- With any number of workers, a file that vanishes between two reads of a scan takes its whole directory out of the index
  (ENOENT is taken for the scanned path itself; `VanishedTracksIff`, `VanishedFileLosesItsDirectory`), and a directory
  that turns into a file keeps the directory above it out (ENOTDIR saves nothing, and the worker ignores the result;
  `TurnedDirectoryLosesItsParent`). Neither event that is still to come brings the loss back. For ENOENT the condition is
  exact; for a later ENOTDIR or EISDIR it is proved to suffice that the path is to be updated again, and one run shows that
  an index can be wrong otherwise, but when exactly it is wrong is open.
- Patching the index at a symbolic link, or where stat finds something below a link or a file or below a directory that is
  undiscoverable while the path is not, differs from a full scan (`StoredIndexAgreesIff`, `LinkedDirectoryDiffers`).
  Where stat is blocked by a file the answer is an error although the stored index is right.
- A start or restart that finds another workspace's server stored, or its start under way, resolves with that workspace
  (`OwnWorkspaceIff`, `SecondStartSharesTheFirst`, `RestartIsOvertaken`).
- A file whose content a live entry still holds may be sent in full: the fingerprint index has one slot for a content, and
  loses it when the entry in the slot is replaced or evicted (`IndexStaysCompleteIff`, `EqualFileIsForgotten`).
- A diff of a text with CRLF gives the receiver the right lines without their carriage returns (`DiffGivesTextIff`,
  `CarriageReturnIsLost`).
- A diff that was cut at 160 lines is never applicable (`DiffDecodesIffUncut`, `LongAdditionIsCut`).
- A byte-targeted page drops the empty lines it starts with (`TargetedFaithfulIff`, `EmptyStartIsDropped`).
- In a trusted workspace every page whose range the reader refuses, because the file is over 2 MiB or ends before, holds
  the first lines of the file, as many as the byte target allows, under the requested numbers (`FallbackPageIff`,
  `FallbackTargetedIff`, `PastTheEnd`).
- Pages that lines follow lose their carriage returns, so paging gives a text back only if those lines have none
  (`PagingRebuildsIff`).
- A continuation token is used up even when the page size that comes with it is refused (`FilePageEngine.Continue`).
- A tree listing is marked truncated although it is complete exactly when it is full and the last item visited was passed
  over (`CompleteYetMarkedIff`, `CompleteYetMarked`).
- Paging loses a final line feed exactly when the last page is full, and counts the empty line after it otherwise
  (`FinalLineFeedLostIff`, `FinalLineFeedIsLost`).
- The guard of the reference branch of the ledger is redundant except for workspace ids with a NUL
  (`ReferenceGuardHoldsIff`).
- The ledger records what was prepared, delivered or not: "unchanged" means unchanged since last prepared (`Prepare`).

## Model

| member | source | states |
|---|---|---|
| BatchPlans.ValidatePlan | packages/mcp-server/src/parallel-tool-executor.ts:204-239 | a plan is accepted exactly when ids are unique, dependencies known, group ids unique and no dependency lives in a later group; the error thrown names something really wrong, and the checks come in that order |
| BatchPlans.CollectIds | packages/mcp-server/src/parallel-tool-executor.ts:205-209 | passes exactly when no call id occurs twice, and then holds all ids |
| BatchPlans.CheckDependencies | packages/mcp-server/src/parallel-tool-executor.ts:210-214 | passes exactly when every dependency names a call of the plan |
| BatchPlans.CheckGroupIds | packages/mcp-server/src/parallel-tool-executor.ts:216-222 | passes exactly when group ids are distinct |
| BatchPlans.IndexGroups | packages/mcp-server/src/parallel-tool-executor.ts:223-228 | every grouped call is mapped to the one group that lists it |
| BatchPlans.CheckGroupOrder | packages/mcp-server/src/parallel-tool-executor.ts:229-238 | passes exactly when no call of a group depends on a call of a later group |
| BatchPlans.GroupCallsMember | packages/mcp-server/src/parallel-tool-executor.ts:200-202 | a call is in the flattened plan exactly when some group lists it |
| BatchMeaning.SucceedsIff | packages/mcp-server/src/parallel-tool-executor.ts:113-139 | the least fixpoint of success: a call succeeds exactly when it returns a value and each dependency succeeds, in its own or an earlier set |
| BatchMeaning.UnfoundedIsUnresolved | packages/mcp-server/src/parallel-tool-executor.ts:113-119 | every call of a set whose members wait for each other is skipped as unresolved |
| BatchMeaning.InvokedIff | packages/mcp-server/src/parallel-tool-executor.ts:121-132 | a call is meant to be invoked exactly when all its dependencies succeed |
| BatchMeaning.SetMeaningSolves | packages/mcp-server/src/parallel-tool-executor.ts:107-141 | the fixpoint meaning obeys the local rule call by call, and leaves what no closed set supports unresolved |
| BatchMeaning.SolutionsAgree | packages/mcp-server/src/parallel-tool-executor.ts:107-141 | the local rule has one solution |
| BatchMeaning.SolutionIsMeaning | packages/mcp-server/src/parallel-tool-executor.ts:107-141 | whatever obeys the local rule is the fixpoint meaning |
| BatchMeaning.FlagsAndOrderIrrelevant | packages/mcp-server/src/parallel-tool-executor.ts:82-93 | the meaning of a plan is the same for every choice of parallel and safety flags and every listing order inside a set |
| BatchExecutor.ExecuteOne | packages/mcp-server/src/parallel-tool-executor.ts:150-198 | the race of invocation, timeout and abort: a value gives succeeded, that value and no code; an error failed and its code; a timeout timed out and TIMEOUT; or a cancellation, which carries CANCELLED and nothing of the call, and only if the abort is up |
| BatchExecutor.SelectWave | packages/mcp-server/src/parallel-tool-executor.ts:144-148 | a wave is the first call of a set that is not parallel, all calls when all are parallel-safe, and otherwise the first unsafe call alone |
| BatchExecutor.SplitReady | packages/mcp-server/src/parallel-tool-executor.ts:113-127 | which pending calls are ready, blocked and runnable, each list in pending order and without repetition |
| BatchExecutor.Frame.ReadyVerdict | packages/mcp-server/src/parallel-tool-executor.ts:121-127 | a ready call is blocked exactly when its meaning is to be skipped because a dependency failed |
| BatchExecutor.Frame.StuckVerdict | packages/mcp-server/src/parallel-tool-executor.ts:114-119 | when nothing is ready, every pending call is unresolved in the fixpoint sense |
| BatchExecutor.CancelPending | packages/mcp-server/src/parallel-tool-executor.ts:108-111 | an abort seen at the head of the loop cancels exactly what is pending |
| BatchExecutor.SkipUnresolved | packages/mcp-server/src/parallel-tool-executor.ts:114-119 | with nothing ready, everything pending is skipped as unresolved, which is what it means |
| BatchExecutor.SkipBlocked | packages/mcp-server/src/parallel-tool-executor.ts:121-125 | blocked calls are skipped with the error their meaning prescribes |
| BatchExecutor.RunWave | packages/mcp-server/src/parallel-tool-executor.ts:130-140 | one wave: its calls leave pending, each gets one result, the log grows by this wave |
| BatchExecutor.Round | packages/mcp-server/src/parallel-tool-executor.ts:113-140 | each pass of the loop strictly shrinks pending and keeps the picture of the set right |
| BatchExecutor.ExecuteSet | packages/mcp-server/src/parallel-tool-executor.ts:98-142 | a set terminates with a result for every call: its meaning, or a cancellation once the abort is up; every call is invoked at most once and after its dependencies succeeded |
| BatchRuns.SummaryAddsUp | packages/mcp-server/src/parallel-tool-executor.ts:243-250 | the five counts add up to the total |
| BatchRuns.SummaryCounts | packages/mcp-server/src/parallel-tool-executor.ts:243-250 | each field of the summary is the number of positions whose result has its own status |
| BatchRuns.CancelMissing | packages/mcp-server/src/parallel-tool-executor.ts:86-91 | a group reached after the abort gets a cancellation for each of its calls |
| BatchRuns.CancelSet | packages/mcp-server/src/parallel-tool-executor.ts:86-91 | such a group ends with its calls cancelled and no wave started |
| BatchRuns.RunSet | packages/mcp-server/src/parallel-tool-executor.ts:85-93 | one set on top of the sets before it |
| BatchRuns.RunGroup | packages/mcp-server/src/parallel-tool-executor.ts:85-93 | one group, against the meaning of its calls after the groups before it |
| BatchRuns.RunGroups | packages/mcp-server/src/parallel-tool-executor.ts:85-93 | the groups in order, against the set-by-set meaning |
| BatchRuns.RunUngrouped | packages/mcp-server/src/parallel-tool-executor.ts:82-84 | the ungrouped calls, or no set at all when there are none |
| BatchRuns.RunPlan | packages/mcp-server/src/parallel-tool-executor.ts:82-95 | a valid plan not aborted from the start ends with its set-by-set meaning, cancellations aside |
| BatchRuns.ExecuteBatch | packages/mcp-server/src/parallel-tool-executor.ts:68-96 | refuses exactly the invalid plans before anything runs; otherwise one result per call, in plan order, whose fields tell its meaning (the outcome of a call that ran, or the reason it was skipped, each with its own status and code) unless an abort that was seen cancelled it; each field of the summary is the number of results with its status; each call is invoked at most once, after its dependencies succeeded, in waves, none of them after the abort is seen; NOT_EXECUTED never appears |
| BatchRuns.WhatResultsTell | packages/mcp-server/src/parallel-tool-executor.ts:241-293 | under every abort timing each result of the report is a cancellation owed to an abort or tells its verdict in its own fields |
| BatchRuns.CancelledFromStart | packages/mcp-server/src/parallel-tool-executor.ts:77-80 | a signal that is up before the batch cancels everything and starts nothing |
| BatchRuns.AllSetsDone | packages/mcp-server/src/parallel-tool-executor.ts:85-95 | after the last set every guarantee of a run is in place |
| BatchRuns.UndisturbedRun | packages/mcp-server/src/parallel-tool-executor.ts:68-96 | without an abort, field by field: a call that is meant to run reports its own outcome (value: succeeded, that value, no code; error: failed, its code; timeout: timed out, TIMEOUT), one meant to be skipped the code of its reason; nothing else about the run matters |
| BatchRuns.InvokedInUndisturbedRun | packages/mcp-server/src/parallel-tool-executor.ts:121-132 | without an abort exactly the calls whose dependencies all succeed are invoked |
| WorkspaceTree.ScanDirectory | packages/application/src/workspace-index.ts:195-209 | the recursive scan appends exactly the listing of the directory to the shared list |
| WorkspaceTree.ScanMember | packages/application/src/workspace-index.ts:195-209 | the scan lists exactly what stands below the directory along discoverable paths |
| WorkspaceTree.ScanDistinct | packages/application/src/workspace-index.ts:195-209 | no path is listed twice |
| WorkspaceTree.RenderedPrefix | packages/application/src/workspace-index.ts:110 | equal stored text is the same path, and "starts with the text and a slash" means strictly below |
| WorkspaceIndex.Snapshot | packages/application/src/workspace-index.ts:247-249 | a snapshot holds the same entries, each as often |
| WorkspaceIndex.SnapshotSorted | packages/application/src/workspace-index.ts:247-249 | in order of their path texts |
| WorkspaceIndex.GoodIndexUnique | packages/application/src/workspace-index.ts:247-249 | two stored indexes with the same entries are the same list |
| WorkspaceIndex.FullScanMember | packages/application/src/workspace-index.ts:90-98 | the full scan holds exactly what stands in the tree along discoverable paths |
| WorkspaceIndex.EntriesSay | packages/application/src/workspace-index.ts:211-231 | the entry of each path reached along discoverable paths, and no other: a file with its size and text, a link with its own size and no text, a directory with neither |
| WorkspaceIndex.FullScanGood | packages/application/src/workspace-index.ts:90-98 | real paths, each once, in order |
| WorkspaceIndex.Remaining | packages/application/src/workspace-index.ts:110 | exactly the stored entries that are neither the path nor below it |
| WorkspaceIndex.StatUnderDirectories | packages/application/src/workspace-index.ts:112 | stat differs from lstat only at a link |
| WorkspaceIndex.PatchedMember | packages/application/src/workspace-index.ts:100-125 | what a patch leaves in the index: everything not at or below the path, and what is found there now |
| WorkspaceIndex.PatchedGood | packages/application/src/workspace-index.ts:100-125 | a patched index is again a good index |
| WorkspaceIndex.PatchedEntryAgrees | packages/application/src/workspace-index.ts:100-125 | entry by entry, a sufficient patch of the old full scan shows the new one |
| WorkspaceIndex.LinkDiffers | packages/application/src/workspace-index.ts:112 | patching at a symbolic link never gives the full scan, which shows the link itself |
| WorkspaceIndex.UnreachableDiffers | packages/application/src/workspace-index.ts:109-118 | patching below an undiscoverable directory, a link or a file, where stat finds something, never gives the full scan, which does not get there |
| WorkspaceIndex.IndexPathAgreesIff | packages/application/src/workspace-index.ts:100-125 | if the tree changed only at or below the path, the answer to patching the old full scan is the new full scan exactly when the path is undiscoverable, or reached along real discoverable directories and no link, or not so reached and stat says that nothing is there |
| WorkspaceIndex.StoredIndexAgreesIff | packages/application/src/workspace-index.ts:100-125 | and what is stored then is the new full scan exactly in those cases or when stat is blocked: the answer is an error, nothing is saved, and nothing had to be |
| WorkspaceIndex.BlockedChangesNothing | packages/application/src/workspace-index.ts:119-120 | below a file, or a link to one, nothing stands before or after such a change: old and new full scan are the same list |
| WorkspaceIndex.LinkedDirectoryDiffers | packages/application/src/workspace-index.ts:112 | one link to a directory with a file: neither a patch at the link nor one at the file behind it gives the full scan |
| WorkspaceIndex.WorkspaceIndexService.constructor | packages/application/src/workspace-index.ts:82-88 | nothing is stored at first |
| WorkspaceIndex.WorkspaceIndexService.IndexWorkspace | packages/application/src/workspace-index.ts:90-98 | stores and returns the full scan, or refuses an unknown workspace |
| WorkspaceIndex.WorkspaceIndexService.IndexPath | packages/application/src/workspace-index.ts:100-125 | the patch, branch by branch: unknown workspace, root, undiscoverable path, missing file, failed update |
| WorkspaceIndex.WorkspaceIndexService.RemovePath | packages/application/src/workspace-index.ts:127-136 | stores what remains |
| WorkspaceIndexQueue.PutKeepsPlaces | packages/application/src/workspace-index-queue.ts:51-57 | a newer event of a path takes the place of the older one, a new path goes last, and the others stay where they are |
| WorkspaceIndexQueue.EventsAddUp | packages/application/src/workspace-index-queue.ts:51-76 | in every reachable state enqueued = coalesced + pending + active + completed + failed, active is bounded, one event per path |
| WorkspaceIndexQueue.CountersCount | packages/application/src/workspace-index-queue.ts:51-128 | in every reachable state each counter is the number of its own steps: enqueued, settled without an error, settled with one; and the workers at work are those started and not settled |
| WorkspaceIndexQueue.LatestEventSurvives | packages/application/src/workspace-index-queue.ts:51-76 | the latest event of a path is pending or was dispatched after it was enqueued: nothing is dropped |
| WorkspaceIndexQueue.StartedWasEnqueued | packages/application/src/workspace-index-queue.ts:100-108 | nothing is dispatched that was not enqueued |
| WorkspaceIndexQueue.Queue.constructor | packages/application/src/workspace-index-queue.ts:46-49 | an idle queue with at least one worker |
| WorkspaceIndexQueue.Queue.Enqueue | packages/application/src/workspace-index-queue.ts:51-57 | the new state, and a step of the history |
| WorkspaceIndexQueue.Queue.StartWorkers | packages/application/src/workspace-index-queue.ts:100-108 | dispatches the oldest events until all workers are busy or nothing is pending, and no more |
| WorkspaceIndexQueue.Queue.WorkerSettled | packages/application/src/workspace-index-queue.ts:118-128 | a worker comes back with or without an error |
| WorkspaceIndexQueue.FlushStallsIff | packages/application/src/workspace-index-queue.ts:100-110 | a flush with events pending changes nothing, however often it calls itself, exactly when it is entered with all workers busy |
| WorkspaceIndexQueue.StallIsReachable | packages/application/src/workspace-index-queue.ts:100-110 | such a state is reachable for every concurrency |
| IndexScans.StillScanIsPatch | packages/application/src/workspace-index.ts:100-125 | read by read, one stat, readdir or file read at a time on a tree that stands still, an update ends up with exactly the patched index |
| IndexScans.VisitGoes | packages/application/src/workspace-index.ts:195-209 | the reads of one directory, on a tree that stands still, give what the recursive listing gives |
| IndexScans.ReadSplits | packages/application/src/workspace-index.ts:198-207 | however the tree has changed, a read gives entries and further reads for different paths, all among those it stands for: no path is listed twice |
| IndexScans.ReadIsRight | packages/application/src/workspace-index.ts:198-207 | what a read gives an entry for stands in the tree at that moment, with directories all the way up |
| IndexScans.ReadIsComplete | packages/application/src/workspace-index.ts:199-207 | what stands at that moment among the paths a read is for is listed by it or due to be read after it |
| IndexRuns.ChangeStable | packages/application/src/workspace-index.ts:164-169 | a tree change is excused by its own outstanding path, also between two reads of a scan |
| IndexRuns.NotifyStable | packages/application/src/workspace-index.ts:164-169 | delivering a notification moves a path to the queue or drops one that needs no event |
| IndexRuns.UndiscoverableStable | packages/application/src/workspace-index.ts:167 | an undiscoverable path needs no event |
| IndexRuns.BlockedTracks | packages/application/src/workspace-index.ts:119-120 | an update that fails because of a file further up leaves only what the event of that file will settle |
| IndexRuns.ReadKeepsScan | packages/application/src/workspace-index.ts:198-207 | one more read keeps a scan in step with the tree: what it has found and is not outstanding stands there, and what stands there has been found or is due |
| IndexRuns.ResultTracks | packages/application/src/workspace-index.ts:110-118 | a scan that has read everything settles its path, whatever changed between its reads |
| IndexRuns.ThrowTracks | packages/application/src/workspace-index.ts:119-123 | so does a read that throws, if it is the first stat or the path is to be updated again anyway |
| IndexRuns.VanishedTracksIff | packages/application/src/workspace-index.ts:119-123 | a read that throws ENOENT after the first stat leaves a right index exactly when something at or above the path is still to be worked off |
| IndexRuns.StepKeeps | packages/application/src/workspace-index-queue.ts:51-128 | with one worker every calm step of tree, watcher, queue and worker keeps the invariant; a tree change may come between any two reads |
| IndexRuns.RunKeeps | packages/application/src/workspace-index-queue.ts:51-128 | so does every calm run: one in which no read throws but the first stat of an update, or one whose path is to be updated again |
| IndexRuns.IndexTracksTree | packages/application/src/workspace-index.ts:154-209 | one worker, any calm run, changes between any two reads: at every moment, off the outstanding paths, the index and the full scan agree on every entry reached along discoverable directories |
| IndexRuns.QuietIndexIsFullScan | packages/application/src/workspace-index.ts:154-209 | when nothing is outstanding after such a run and discoverable paths have discoverable ancestors, the index is the full scan, list for list |
| IndexRaces.TwoWorkersLoseAnEntry | packages/application/src/workspace-index.ts:107-117 | with two workers, loads, reads and saves interleave so that a file is missing for good, though no read throws |
| IndexRaces.VanishedFileLosesItsDirectory | packages/application/src/workspace-index.ts:119-123 | step by step, for any number of workers: a file vanishes between the listing of its directory and its own stat, ENOENT is taken for the directory, and the directory with its other file is missing for good |
| IndexRaces.TurnedDirectoryLosesItsParent | packages/application/src/workspace-index.ts:119-120 | step by step, for any number of workers: a directory turns into a file between two listings, ENOTDIR fails the update, and the directory above it never gets into the index |
| IndexRaces.QuietAgreementIff | packages/application/src/workspace-index-queue.ts:46-49 | calm quiet runs always end with the full scan exactly when there is one worker |
| ContextPaths.Classify | packages/search/src/context-economy.ts:121-149 | automatic discovery shows exactly sources and metadata files, explicit requests everything |
| ContextPaths.IgnoredBelow | packages/search/src/context-economy.ts:104-112 | whatever stands before and behind it, a segment with an ignored name, in any case, makes a path ignored |
| ContextPaths.IgnoredIff | packages/search/src/context-economy.ts:104-112 | a path is ignored exactly when one of its segments has an ignored name |
| ContextPaths.KindsInOrder | packages/search/src/context-economy.ts:105-119 | for other paths: binary exactly by extension, generated exactly when not binary, metadata exactly when neither |
| ContextPaths.TiersAre | packages/search/src/context-economy.ts:121-149 | tier 0 for what discovery does not show, 1 for metadata, 2 for sources, 3 for explicit requests |
| ContextPaths.ExtensionIs | packages/search/src/context-economy.ts:106 | the extension is what follows the last dot, with the dot; a name without a dot has none |
| ContextPaths.UndiscoverableDirectoryDiscoverableFile | packages/search/src/context-economy.ts:101-150 | a directory whose name looks binary is undiscoverable while a file below it is discoverable |
| LineDiff.PrefixIsLongest | packages/search/src/context-economy.ts:194-195 | the common prefix is as long as possible |
| LineDiff.SuffixIsLongest | packages/search/src/context-economy.ts:196-201 | so is the common suffix beyond it |
| LineDiff.FindHunk | packages/search/src/context-economy.ts:194-203 | the two loops find that hunk |
| LineDiff.HunkApplies | packages/search/src/context-economy.ts:190-210 | applying the hunk to the old lines gives the new lines |
| LineDiff.HunkIsTight | packages/search/src/context-economy.ts:194-203 | the removed and added blocks share neither their first nor their last line |
| LineDiff.CutHunkMisapplies | packages/search/src/context-economy.ts:209 | a hunk that lost lines off its end never gives the new lines |
| LineDiff.CutPrintedLines | packages/search/src/context-economy.ts:209 | what is left of the printed lines after the limit |
| LineDiff.PrintedBodyReads | packages/search/src/context-economy.ts:204-208 | a printed hunk reads back as it was, whatever its lines contain |
| LineDiff.PrintedLinesAre | packages/search/src/context-economy.ts:204-208 | the printed lines one by one: a header with the decimal numbers of the first line and of the last line on the longer side, then each removed line behind a minus and each added line behind a plus |
| LineDiff.CreateLineDiff | packages/search/src/context-economy.ts:190-210 | nothing for equal texts, else the header, removed and added lines, cut at the limit |
| LineDiff.PrintedHunkDecodesIffUncut | packages/search/src/context-economy.ts:204-209 | for any two line lists, reading and applying the printed hunk gives the new lines exactly when nothing was cut off |
| LineDiff.DiffDecodesIffUncut | packages/search/src/context-economy.ts:190-210 | for any two different texts the printed diff exists, and decodes exactly when it fits the limit |
| LineDiff.DiffGivesTextIff | packages/search/src/context-economy.ts:190-210 | the lines of an applied uncut diff, joined by line feeds, are the new text exactly when that has no carriage return before a line feed |
| LineDiff.CarriageReturnIsLost | packages/search/src/context-economy.ts:190-210 | two lines whose line feed becomes CRLF: the diff is an empty hunk, and the receiver keeps its own text |
| LineDiff.LongAdditionIsCut | packages/search/src/context-economy.ts:209 | a text that gains 160 or more empty lines: its diff is cut at the default limit and does not decode |
| LineDiff.DiffFitsLimit | packages/search/src/context-economy.ts:209 | a printed diff never has more lines than its limit |
| ContextLedger.OtherKeys | packages/mcp-server/src/context-economy.ts:236-241 | exactly the entries under other keys |
| ContextLedger.TotalOthers | packages/mcp-server/src/context-economy.ts:238 | replacing an entry takes exactly its stored bytes off the counter |
| ContextLedger.EvictFromIndex | packages/mcp-server/src/context-economy.ts:247-253 | evicting the oldest entry with its index slot leaves the right index |
| ContextLedger.RemembersKeepsConsistent | packages/mcp-server/src/context-economy.ts:234-254 | recording keeps: counter = sum over live entries with content, every fingerprint slot a live entry with that content, both limits; the new entry is never evicted |
| ContextLedger.RemembersKeepsHonest | packages/mcp-server/src/context-economy.ts:187-194 | every live entry keeps the fingerprint and content its path was last prepared with |
| ContextLedger.DeliveryDecodes | packages/mcp-server/src/context-economy.ts:142-171 | with injective fingerprints every delivery decodes against the ledger just before: unchanged and reference to the requested content; a diff against the stored text to its lines unless it was cut, and to the content itself exactly when that has no CRLF |
| ContextLedger.WithheldIff | packages/mcp-server/src/context-economy.ts:150-154 | when only metadata is sent: always for a binary file, never for anything else asked for explicitly, and automatically exactly for binary, generated and metadata files and for data files (json, jsonl, ndjson, log, csv) over 128 KiB |
| ContextLedger.CheapestFirst | packages/mcp-server/src/context-economy.ts:155-171 | otherwise unchanged comes before a reference, a reference before a diff and a diff before the content, each exactly when the ledger allows it |
| ContextLedger.KindByContent | packages/mcp-server/src/context-economy.ts:118-136 | what the content makes of the kind of the path: ignored stays ignored, a NUL makes binary, generated text makes generated unless it is binary |
| ContextLedger.DiscoverableIff | packages/mcp-server/src/context-economy.ts:118-136 | a prepared file is shown to automatic discovery exactly when it is a source or a metadata file |
| ContextLedger.OneEntryPerFile | packages/mcp-server/src/context-economy.ts:256-258 | paths that differ only in the case of letters and the kind of slashes share one entry |
| ContextLedger.ReferenceGuardAlwaysHolds | packages/mcp-server/src/context-economy.ts:158-163 | wherever the reference branch is reached its guard is true, if nothing after a NUL in the workspace id looks unnormalised |
| ContextLedger.ReferenceGuardHoldsIff | packages/mcp-server/src/context-economy.ts:158-163 | and for no other workspace id: for any other, a consistent ledger with one entry reaches the branch with a false guard |
| ContextLedger.ContentOnlyWhenNothingHelps | packages/mcp-server/src/context-economy.ts:153-171 | full content is sent only when no earlier version is stored and no equal file is indexed; while the fingerprint index is complete, only when no live entry holds the content |
| ContextLedger.IndexStaysCompleteIff | packages/mcp-server/src/context-economy.ts:234-254 | recording an entry keeps a complete index complete exactly when no slot holder is replaced or evicted while another kept entry holds its content, unless the new entry takes over the slot of the entry it replaces |
| ContextLedger.SlotAfter | packages/mcp-server/src/context-economy.ts:236-253 | which fingerprints have a slot after an entry was recorded: those whose holder was neither replaced nor evicted, and that of the new entry if it found none |
| ContextLedger.EqualFileIsForgotten | packages/mcp-server/src/context-economy.ts:239 | two files with the same content, then the first one changes: a third file with that content is sent in full although the second one still holds it |
| ContextLedger.PreparedAgainIsUnchanged | packages/mcp-server/src/context-economy.ts:155-157 | preparing the same content again right away is reported unchanged since the first time |
| ContextLedger.ContextEconomyRuntime.constructor | packages/mcp-server/src/context-economy.ts:99-102 | an empty ledger with at least room for one entry |
| ContextLedger.ContextEconomyRuntime.Reset | packages/mcp-server/src/context-economy.ts:218-223 | back to the empty ledger |
| ContextLedger.ContextEconomyRuntime.Admit | packages/mcp-server/src/context-economy.ts:235-246 | the old entry of the key goes, the new one comes last, the counter is exact |
| ContextLedger.ContextEconomyRuntime.EvictOldest | packages/mcp-server/src/context-economy.ts:247-253 | one turn of the eviction loop: the oldest entry goes, with its bytes and its index slot |
| ContextLedger.ContextEconomyRuntime.EvictUntilFits | packages/mcp-server/src/context-economy.ts:247-253 | the eviction loop terminates with the longest run of newest entries that fits, and the index for them |
| ContextLedger.ContextEconomyRuntime.Remember | packages/mcp-server/src/context-economy.ts:234-254 | then the oldest entries go, no more than needed; the loop terminates |
| ContextLedger.ContextEconomyRuntime.ChooseDelivery | packages/mcp-server/src/context-economy.ts:142-171 | the delivery that WithheldIff, CheapestFirst and DeliveryDecodes are about, from the fields of the ledger |
| ContextLedger.ContextEconomyRuntime.Prepare | packages/mcp-server/src/context-economy.ts:108-196 | every delivery decodes against the ledger just before; content is withheld exactly for binary files and, automatically, for generated and metadata files and data files over 128 KiB; the request becomes the newest entry, with its content unless that is too large; the ledger stays consistent and honest |
| McpLifecycle.DesktopMcpLifecycle.constructor | apps/desktop/src/main/mcp-lifecycle.ts:33-39 | nothing runs and nothing is under way |
| McpLifecycle.DesktopMcpLifecycle.Status | apps/desktop/src/main/mcp-lifecycle.ts:41-45 | running exactly when a handle and its workspace are stored |
| McpLifecycle.DesktopMcpLifecycle.Start | apps/desktop/src/main/mcp-lifecycle.ts:47-67 | a call and the promise it gets, case by case: rejected for a blank workspace, put off while a stop is under way, settled with the status of what is stored, that of the start under way, or that of a new one |
| McpLifecycle.DesktopMcpLifecycle.Stop | apps/desktop/src/main/mcp-lifecycle.ts:69-83 | a call and the promise it gets, that of the stop under way or of a new one: wait for a start, close the handle, or settle at once |
| McpLifecycle.DesktopMcpLifecycle.Restart | apps/desktop/src/main/mcp-lifecycle.ts:85-88 | a stop, and a call whose start is put off until then |
| McpLifecycle.DesktopMcpLifecycle.AfterWorkspaceCheck | apps/desktop/src/main/mcp-lifecycle.ts:95 | a start after its first await: with a workspace that was found it goes on to its starter, without one it is rejected |
| McpLifecycle.DesktopMcpLifecycle.AfterStarter | apps/desktop/src/main/mcp-lifecycle.ts:96 | a start after the starter has answered |
| McpLifecycle.DesktopMcpLifecycle.FinishStart | apps/desktop/src/main/mcp-lifecycle.ts:97-99 | the only place that stores a handle |
| McpLifecycle.DesktopMcpLifecycle.StartDone | apps/desktop/src/main/mcp-lifecycle.ts:55-64 | clears its own start field and no other |
| McpLifecycle.DesktopMcpLifecycle.AfterAwaitedStart | apps/desktop/src/main/mcp-lifecycle.ts:102-111 | a stop after the start it waited for |
| McpLifecycle.DesktopMcpLifecycle.AfterClose | apps/desktop/src/main/mcp-lifecycle.ts:111 | the server has answered its close |
| McpLifecycle.DesktopMcpLifecycle.FinishStop | apps/desktop/src/main/mcp-lifecycle.ts:112-114 | the only place that drops a handle |
| McpLifecycle.DesktopMcpLifecycle.StopDone | apps/desktop/src/main/mcp-lifecycle.ts:71-80 | clears its own stop field and no other |
| McpLifecycle.DesktopMcpLifecycle.WakeUp | apps/desktop/src/main/mcp-lifecycle.ts:51 | a put-off call gets a new promise after a resolved stop, which may put it off again; after a rejected one it is rejected and nothing is begun |
| McpLifecycleRuns.StepKeeps | apps/desktop/src/main/mcp-lifecycle.ts:47-115 | every action of every interleaving keeps the invariant |
| McpLifecycleRuns.AlwaysInvariant | apps/desktop/src/main/mcp-lifecycle.ts:47-115 | which therefore holds in every reachable state |
| McpLifecycleRuns.AtMostOneServer | apps/desktop/src/main/mcp-lifecycle.ts:47-115 | at most one server is open, and it is the handle's or the one just handed to the start under way |
| McpLifecycleRuns.HandleNeverOverwritten | apps/desktop/src/main/mcp-lifecycle.ts:96-113 | a stored handle is never replaced, only dropped after its server is closed; a new one comes only from the start that was given it |
| McpLifecycleRuns.NoServerLost | apps/desktop/src/main/mcp-lifecycle.ts:94-115 | an open server stays open and owned until its own close is answered |
| McpLifecycleRuns.WhatPromisesCarry | apps/desktop/src/main/mcp-lifecycle.ts:97-114 | a start operation that resolves carries a server built for its own workspace, a stop operation the stopped status |
| McpLifecycleRuns.PromiseStays | apps/desktop/src/main/mcp-lifecycle.ts:47-92 | what a call has been settled with stays, and so does the promise of a call that is not put off |
| McpLifecycleRuns.WhatCallsCarry | apps/desktop/src/main/mcp-lifecycle.ts:47-92 | a start or restart call that resolves carries a running server built for the workspace its promise was about; a stop call, the stopped status |
| McpLifecycleRuns.OwnWorkspaceIff | apps/desktop/src/main/mcp-lifecycle.ts:47-67 | a start or restart call answered while no stop is under way: along every further run, if it resolves, it does so with its own workspace exactly when nothing was stored or under way, or that was for the same workspace |
| McpLifecycleRuns.SecondStartSharesTheFirst | apps/desktop/src/main/mcp-lifecycle.ts:53 | start(a) and start(b) at once: the second call resolves with a |
| McpLifecycleRuns.RestartIsOvertaken | apps/desktop/src/main/mcp-lifecycle.ts:51-87 | stop, start(a), restart(b): the start wakes first, and the restart resolves with a |
| McpLifecycleRuns.DownStaysDown | apps/desktop/src/main/mcp-lifecycle.ts:69-115 | what is down stays down until a new start operation begins |
| McpLifecycleRuns.ResolvedStopMeansClosed | apps/desktop/src/main/mcp-lifecycle.ts:69-115 | a stop that resolves leaves no server open, and none opens before a later start |
| McpLifecycleRuns.InternalStepShrinks | apps/desktop/src/main/mcp-lifecycle.ts:47-115 | without new calls every step brings the end nearer: no run of answers goes on for ever |
| McpLifecycleRuns.NeverStuck | apps/desktop/src/main/mcp-lifecycle.ts:47-115 | while a call is outstanding something can happen: no deadlock |
| McpLifecycleRuns.EveryCallSettles | apps/desktop/src/main/mcp-lifecycle.ts:47-115 | from every such state all outstanding calls can settle without a further call |
| McpLifecycleHistory.ServerOnlyAfterCheck | apps/desktop/src/main/mcp-lifecycle.ts:95-96 | in every run from the start: a server is only built for a start whose own workspace check said yes earlier in the run |
| McpLifecycleHistory.MissingWorkspaceRejects | apps/desktop/src/main/mcp-lifecycle.ts:95 | in every run: a start whose check said no, or failed, ends rejected and never has a server |
| McpLifecycleHistory.FoundAndServedRuns | apps/desktop/src/main/mcp-lifecycle.ts:95-99 | in every run: a start whose starter answered is about to store that server or has resolved running, with a server built for its own workspace |
| McpLifecycleHistory.StartResolvesIff | apps/desktop/src/main/mcp-lifecycle.ts:94-100 | a reported start has resolved exactly when its workspace was found and its server started, and rejected exactly when one of them failed |
| McpLifecycleHistory.StopRejectsIff | apps/desktop/src/main/mcp-lifecycle.ts:102-115 | a reported stop has rejected exactly when the server refused to close |
| McpLifecycleHistory.BlankIsRefused | apps/desktop/src/main/mcp-lifecycle.ts:48-50 | a start for a blank workspace is rejected at once and changes nothing else |
| McpLifecycleHistory.StartDuringStopWaits | apps/desktop/src/main/mcp-lifecycle.ts:51 | a start asked for while a stop is under way is put off until that stop and begins nothing, even if a server is still stored |
| McpLifecycleHistory.PutOffUntilStopped | apps/desktop/src/main/mcp-lifecycle.ts:51 | a call that was put off has got nothing, and keeps its place, until its stop has been reported |
| McpLifecycleHistory.RejectedStopRejectsWaiting | apps/desktop/src/main/mcp-lifecycle.ts:51 | a call that waits for a stop that rejects is rejected, and nothing is begun |
| TextLines.RawLinesShape | packages/filesystem/src/text-file-reader.ts:61-66 | no piece is empty, a line feed stands only at the end of a piece, and at the end of every piece but perhaps the last |
| TextLines.ConcatRaw | packages/filesystem/src/text-file-reader.ts:61-66 | the pieces put together are the text |
| TextLines.RawOfConcat | packages/filesystem/src/text-file-reader.ts:61-66 | pieces of that shape are cut apart again in the same way |
| TextLines.LinesOfPieces | packages/mcp-server/src/file-page-engine.ts:140-146 | the lines are the pieces without their terminators, and an empty line after a final line feed |
| TextLines.JoinSplitIff | packages/mcp-server/src/file-page-engine.ts:144-146 | splitting and joining gives a text back exactly when no carriage return stands before a line feed |
| TextLines.RejoinIff | packages/mcp-server/src/file-page-engine.ts:144-149 | joined lines are cut into the same lines exactly when none before the last ends in a carriage return |
| TextLines.NoCRLFIff | packages/mcp-server/src/file-page-engine.ts:145 | raw lines hold a carriage return before a line feed exactly when one of them ends so |
| TextLines.TerminatedIff | packages/mcp-server/src/file-page-engine.ts:145 | lines without their terminators, each given a line feed, are the raw lines again exactly when none of those ends in CRLF |
| TextFileReader.RangesTile | packages/filesystem/src/text-file-reader.ts:41-53 | no range gives the text; two adjoining ranges give together what their union gives |
| TextFileReader.RefusedWith | packages/filesystem/src/text-file-reader.ts:18-46 | each error and when it is given: a bad range, no file, over 2 MiB, binary, or a range that starts after the last line |
| TextFileReader.ServedInstead | packages/application/src/file-service.ts:139-156 | when the reader refuses: the error outside a trusted workspace; in one, base64 for an image or a binary file, and any other file whole, whatever range was asked for |
| FilePages.ServedLines | packages/mcp-server/src/file-page-engine.ts:69-75 | what the reader returns for a page: its lines, and one raw line more exactly when the file goes on |
| FilePages.JoinCount | packages/mcp-server/src/file-page-engine.ts:140-142 | joined lines are counted right, a single empty line as none |
| FilePages.BestCount | packages/mcp-server/src/file-page-engine.ts:148-160 | the most lines, at least one, that fit the byte target |
| FilePages.TakeLinesToBytes | packages/mcp-server/src/file-page-engine.ts:148-160 | the loop with its early exits finds exactly those lines |
| FilePages.GlueFaithfulIff | packages/mcp-server/src/file-page-engine.ts:153 | the byte-targeted cut keeps its lines exactly when it is one line or does not start with an empty one |
| FilePages.WholeLinesPageShows | packages/mcp-server/src/file-page-engine.ts:90-103 | any text: where a page without a target ends, what it holds, joined by line feeds or the untouched rest, and that it says truly whether lines are left |
| FilePages.PageTiles | packages/mcp-server/src/file-page-engine.ts:90-114 | with or without a target a page is a stretch of the lines and fits the target or is one line |
| FilePages.TargetedPageShowsIff | packages/mcp-server/src/file-page-engine.ts:96-100 | a page over its target shows its lines exactly when the first is not empty or the second alone exceeds the target, and one more line would not fit |
| PagedText.WholeLinesPageFaithfulIff | packages/mcp-server/src/file-page-engine.ts:90-103 | any text: a page without a target is its lines joined by line feeds exactly when lines follow it, or the rest of the text has no carriage return before a line feed |
| PagedText.TargetedFaithfulIff | packages/mcp-server/src/file-page-engine.ts:96-100 | any text: a page over its target is its lines exactly when the first is not empty or the second alone exceeds the target, and, if lines follow, none shown but the last of the page ends in a carriage return |
| PagedText.EmptyStartIsDropped | packages/mcp-server/src/file-page-engine.ts:153 | three lines, the first empty, and a target of one byte: the page does not show its lines |
| PagedText.CutPageIsRawIff | packages/mcp-server/src/file-page-engine.ts:92-94 | a page that lines follow is its raw lines, but for the last line feed, exactly when none of them ends in CRLF |
| FilePages.PagesTile | packages/mcp-server/src/file-page-engine.ts:58-114 | for any page sizes and any target each page starts one line after the one before, and as many requests as there are lines reach the end |
| PagedText.FaithfulPagesRebuildIff | packages/mcp-server/src/file-page-engine.ts:58-114 | pages with or without a target that show their lines and reach the end give the text back, but for one final line feed, exactly when it has no carriage return before a line feed |
| PagedText.FinalLineFeedLostIff | packages/mcp-server/src/file-page-engine.ts:90-103 | the final line feed is lost exactly when the text ends in one and the last page is full |
| PagedText.FinalLineFeedIsLost | packages/mcp-server/src/file-page-engine.ts:90-103 | one line and its line feed in a page of one line: nothing is left to read, and the line feed is lost |
| PagedText.PagingRebuildsIff | packages/mcp-server/src/file-page-engine.ts:58-146 | any text, any page sizes, no target: paging ends, and gives the text back but for a final line feed exactly when no line on a page that lines follow ends in CRLF |
| PagedText.FallbackPageIff | packages/application/src/file-service.ts:139-156 | any range the reader refuses, in a trusted workspace: the page repeats the first lines of the file under the requested numbers, and is right exactly where the file repeats itself |
| PagedText.FallbackTargetedIff | packages/application/src/file-service.ts:139-156 | the same with a byte target: as many of the first lines as fit, right exactly where the file has them again and none of them is dropped |
| PagedText.PastTheEnd | packages/application/src/file-service.ts:139-156 | a file of two lines asked for lines five on: the page says five and six, and holds the whole file |
| FilePages.FilePageEngine.constructor | packages/mcp-server/src/file-page-engine.ts:38-44 | no continuation is known |
| FilePages.FilePageEngine.ReadPage | packages/mcp-server/src/file-page-engine.ts:46-56 | a request is refused exactly for a blank path, a start line below one, a page size outside 1 to 5000 or a target outside 1 byte to 8 MiB, and then changes nothing; otherwise the page, and a token exactly when there is more |
| FilePages.FilePageEngine.Continue | packages/mcp-server/src/file-page-engine.ts:58-65 | a token answers once, even when the page size is refused; an unknown one changes nothing |
| FilePages.FilePageEngine.ReadAt | packages/mcp-server/src/file-page-engine.ts:67-129 | the page as computed step by step, and the continuation one line after it |
| FilePages.ServiceAnswersWithPages | packages/mcp-server/src/file-page-engine.ts:67-129 | over the text reader the engine's answers are the pages of the paging theorems, and its tokens lead to lines of the file |
| FilePages.ContinueAll | packages/mcp-server/src/file-page-engine.ts:58-65 | handing back token after token, each with a page size or without, gives exactly the pages of the paging theorems from where the first token leads |
| FilePages.ReadAll | packages/mcp-server/src/file-page-engine.ts:46-65 | a request and then its tokens give exactly the pages of the paging theorems, starting at the requested line or at line 1, with 200 lines unless the request or a token says otherwise |
| Utf8.HeadIsStable | apps/desktop/src/main/log-hub.ts:185 | more bytes do not change a character already decided |
| Utf8.DecodeInSteps | apps/desktop/src/main/log-hub.ts:185 | decoding in two steps, with the left-over bytes put before the next, is decoding at once |
| Utf8.HeadOfChar | apps/desktop/src/main/log-hub.ts:185 | the bytes of any character are read back as that character |
| Utf8.DecodeEncoded | packages/process/src/ring-buffer.ts:36 | encoding and decoding is the identity, whatever follows |
| Utf8.DecodePrefix | apps/desktop/src/main/log-hub.ts:185 | the first bytes of a text decode to its whole characters; the bytes of a cut one are held back |
| LogRingBuffer.EvictedIsFirstFit | packages/process/src/ring-buffer.ts:40-45 | eviction stops at the first suffix that fits together with the new chunk |
| LogRingBuffer.DecodedTail | packages/process/src/ring-buffer.ts:35-37 | the last bytes of a text decode to at most three replacement characters and the whole characters after them |
| LogRingBuffer.OversizeStored | packages/process/src/ring-buffer.ts:35-38 | so an oversize chunk is stored with at most six bytes over the bound |
| LogRingBuffer.StillTooMuch | packages/process/src/ring-buffer.ts:40-45 | what has been dropped would still not fit |
| LogRingBuffer.WithMoreChunks | packages/process/src/ring-buffer.ts:14-17 | appending in two goes is appending at once |
| LogRingBuffer.AlwaysAccounts | packages/process/src/ring-buffer.ts:14-49 | after any chunks: consecutive numbers, an exact byte counter, the kept entries the longest end of the history that fits, the flag set exactly when something was dropped or cut |
| LogRingBuffer.BoundHolds | packages/process/src/ring-buffer.ts:32-49 | with a positive bound only a single entry exceeds it, by at most six bytes |
| LogRingBuffer.NewerEntries | packages/process/src/ring-buffer.ts:21 | filtering by number is cutting the list |
| LogRingBuffer.ReadReturns | packages/process/src/ring-buffer.ts:19-22 | a read returns what came after the cursor and is kept: all of it for no tail or zero, the last so many entries for a positive tail, all but the first so many for a negative one |
| LogRingBuffer.TruncatedIff | packages/process/src/ring-buffer.ts:23-29 | truncated exactly when something was evicted, or the cursor is negative and anything was appended |
| LogRingBuffer.PollGetsTheRest | packages/process/src/ring-buffer.ts:19-30 | what one poll adds |
| LogRingBuffer.PollingGetsEverything | packages/process/src/ring-buffer.ts:19-30 | a reader polling from its last cursor never gets an entry twice or out of order, and gets every chunk unchanged as long as no poll said truncated |
| LogRingBuffer.LogRingBuffer.constructor | packages/process/src/ring-buffer.ts:6-12 | empty, with the given bound |
| LogRingBuffer.LogRingBuffer.Append | packages/process/src/ring-buffer.ts:14-17 | a text is appended line by line |
| LogRingBuffer.LogRingBuffer.AppendChunk | packages/process/src/ring-buffer.ts:32-49 | one chunk, with the eviction loop |
| LogRingBuffer.LogRingBuffer.Read | packages/process/src/ring-buffer.ts:19-30 | the read as computed |
| LogTail.TrimTakesBlanks | apps/desktop/src/main/log-hub.ts:189-190 | trimming takes blanks off both ends and nothing else, and leaves nothing exactly for a blank line |
| LogTail.RecordsAre | apps/desktop/src/main/log-hub.ts:188-192 | the records of any lines without trimming: the positions of the lines that are not blank, in order, and at each the line without the blanks at its ends |
| TextLines.SplitLinesConcat | apps/desktop/src/main/log-hub.ts:185-187 | all lines but the last are final; the last, an open carriage return included, is settled by what follows |
| LogTail.CompleteLinesInSteps | apps/desktop/src/main/log-hub.ts:185-187 | cutting a text in two does not change its complete lines |
| LogTail.FeedFollows | apps/desktop/src/main/log-hub.ts:185-192 | one read keeps: records of the complete lines consumed, last line pending, cut character held back |
| LogTail.RunFollows | apps/desktop/src/main/log-hub.ts:165-192 | so does any run on a growing file |
| LogTail.ReadsDoNotMatter | apps/desktop/src/main/log-hub.ts:165-192 | an append-only file, whatever the read sizes: of the complete lines consumed from where it was first opened exactly those that are not blank give a record, in order, which is the line without the blanks at its ends |
| LogTail.TextLog | apps/desktop/src/main/log-hub.ts:165-192 | for any text opened at its start, with positions given: exactly the lines that are not blank, among the complete lines of the characters consumed, give a record, the line without the blanks at its ends; in the end, among all complete lines |
| LogTail.TailedFile.constructor | apps/desktop/src/main/log-hub.ts:29 | a closed file |
| LogTail.TailedFile.Close | apps/desktop/src/main/log-hub.ts:207-218 | a failed turn drops what was pending |
| LogTail.TailedFile.Sync | apps/desktop/src/main/log-hub.ts:165-192 | one turn: what was consumed and what was put out, also after a truncation; the records since are exactly those of the complete lines that are not blank |
| LogTail.TailedFile.MakeReady | apps/desktop/src/main/log-hub.ts:169-179 | a file first seen is read from its last 256 KiB, one that shrank from its start, any other from where reading stopped |
| LogTail.TailedFile.Consume | apps/desktop/src/main/log-hub.ts:185-192 | one chunk |
| LogTail.TailedFile.RecordsOf | apps/desktop/src/main/log-hub.ts:188-192 | the loop over the lines: a record for each line that is not blank and no other, in order, each the line without the blanks at its ends |
| LogHub.SpacedAppend | apps/desktop/src/main/log-hub.ts:76-83 | a key that is not remembered is more than 4000 keys old |
| LogHub.OneSourceLonger | apps/desktop/src/main/log-hub.ts:141-144 | one more line keeps each source's list the end of what it showed, with rising ids |
| LogHub.OneSourceTakes | apps/desktop/src/main/log-hub.ts:76-84 | one more key keeps the remembered keys the last 4000 taken |
| LogHub.LogHub.constructor | apps/desktop/src/main/log-hub.ts:33-41 | all sources empty |
| LogHub.LogHub.Append | apps/desktop/src/main/log-hub.ts:132-146 | the line is shown under the next id and the last 2000 lines of its source are kept; other sources stay |
| LogHub.LogHub.Feed | apps/desktop/src/main/log-hub.ts:65-69 | one line end is cut off; an empty text is dropped |
| LogHub.LogHub.FeedIfNew | apps/desktop/src/main/log-hub.ts:71-86 | a remembered key is passed over, any other is taken; remembered are the last 4000 taken |
| LogHub.LogHub.Clear | apps/desktop/src/main/log-hub.ts:127-130 | one source starts over, ids go on |
| LogHub.LogHub.Snapshot | apps/desktop/src/main/log-hub.ts:119-125 | all kept lines of all sources, in the order shown |
| TreeReader.SortByNameSorts | packages/filesystem/src/tree-reader.ts:46 | the items of a directory come in name order, none lost |
| TreeReader.Walk.constructor | packages/filesystem/src/tree-reader.ts:36-37 | no entries, not truncated |
| TreeReader.Walk.Into | packages/filesystem/src/tree-reader.ts:38-66 | the recursive walk over the shared list does what visiting item by item, in name order, does |
| TreeReader.Walk.One | packages/filesystem/src/tree-reader.ts:52-64 | one item: passed over, or listed and walked |
| TreeReader.VisitsBounded | packages/filesystem/src/tree-reader.ts:47-51 | the walk keeps the first entries, and the flag is up exactly when an item is visited after the last allowed entry |
| TreeReader.VisitsMember | packages/filesystem/src/tree-reader.ts:38-66 | the visits hold exactly what is reached through listed directories within the depth |
| TreeReader.FullListingIff | packages/filesystem/src/tree-reader.ts:38-66 | so does the full listing |
| TreeReader.VisitsArranged | packages/filesystem/src/tree-reader.ts:46-64 | when no directory holds a name twice: a directory comes before what is in it, two paths come in the order of the names where they first differ, and what is below a directory follows it without interruption |
| TreeReader.FirstEntriesArranged | packages/filesystem/src/tree-reader.ts:46-64 | so do the first entries of the full listing |
| TreeReader.NotFullIsComplete | packages/filesystem/src/tree-reader.ts:47-51 | no flag means complete, the flag means full |
| TreeReader.CompleteYetMarkedIff | packages/filesystem/src/tree-reader.ts:47-62 | a complete listing is marked truncated exactly when it is full and the last item visited was passed over |
| TreeReader.CompleteYetMarked | packages/filesystem/src/tree-reader.ts:47-62 | one file and one link with room for one entry: the listing is complete, and marked |
| TreeReader.Read | packages/filesystem/src/tree-reader.ts:22-75 | the first maxEntries entries of the full listing, at most 8 levels and 5000 entries, 4 and 2000 by default; in tree order, each directory directly followed by all that is listed below it; errors exactly for bad bounds or a bad root |
| Snippets.SortSorts | packages/mcp-server/src/context-engine.ts:720 | ranges in order of their starts |
| Snippets.WindowsCover | packages/mcp-server/src/context-engine.ts:715-718 | the windows cover exactly the lines within 1 line of a match, or 2 in full and 4 in exhaustive mode; without matches the first 12 lines, or 40 |
| Snippets.Merge | packages/mcp-server/src/context-engine.ts:719-723 | merging in place covers the same lines; ranges in the file merge into ranges in the file with a line left out between any two |
| Snippets.MergedWindows | packages/mcp-server/src/context-engine.ts:715-723 | both together |
| Snippets.CreateSnippets | packages/mcp-server/src/context-engine.ts:713-730 | the snippets show exactly the wanted lines, sorted, disjoint and not adjacent, each with its own text |

## Left out

- Batch execution: message texts, durations and tool input; the code of a failed call is part of its outcome (the source
  takes `CHILD_FAILED` for an error without one); a child invocation that outlives its timeout, so waves are
  about starts and recorded results, not about wall-clock overlap.
- Workspace index: the JSON store, watchers of several workspaces, time stamps and modification times, `localeCompare`
  beyond being a total order on distinct texts, and the text normalisation of a path argument (paths are lists of names
  without "." and "..", and names without "\", which the source turns into a slash in scanned names, too, so that a POSIX
  file `a\b` would share its path text with `a/b`); what is derived from a file's bytes (hashes, symbols, imports) is one value.
- IndexRuns.IndexTracksTree: assumes a tree without symbolic links, one worker, and reads that throw only at the first stat
  or while the path is to be updated again, because the code does not keep the index right otherwise: LinkDiffers and the three
  runs of IndexRaces show it.
- Index scans: the children of a directory are read in the order of the listing, not sorted by name first; reads of the
  stored snapshot and its writing are one step each.
- BatchExecutor.ExecuteOne: a call has no timeoutMs of its own, so an outcome may be a timeout for any call; the source
  gives one only to calls that set it.
- Queue: the debounce timer, the `wake` slot of `drain`, error listeners and the text normalisation of event paths;
  unconditional termination of `flush` is false and not claimed.
- Context classification: lower-casing is that of ASCII letters, reasons are not modelled; the test for generated content
  and the SHA-256 fingerprint are parameters, the fingerprint assumed injective where it matters.
- Context ledger: counters of the economy statistics, the text summary and the record of deliveries.
- ContextLedger.DeliveryDecodes: a diff that was cut at the line limit is only shown to be a cut diff, because it does not
  decode, and one of a text with CRLF gives its lines only, because the line ends are not in the diff; a reference names a
  path without its workspace.
- MCP lifecycle: server crashes, what `createServerOptions` builds, and the endpoint text inside a status; a starter that
  fails is taken to leave nothing open, and a workspace check that throws is one that says no.
- File paging: the byte length, MIME type and relative path that accompany a page, base64 content, workspace resolution
  and permissions (the service is any function of workspace, path and range); numbers are integers.
- UTF-8: characters are Unicode scalar values, so lone UTF-16 surrogates, which the platform encodes as U+FFFD, do not
  occur; ill-formed bytes are replaced per maximal subpart, in one read as across several.
- Log hub: reading several log files at once, the text of parsed records, the 8192-character cut, time stamps, listeners;
  a failed read is a closed file, and the error line it feeds is not modelled.
- Tree reader: real paths and the root check are a flag on each item; path texts are lists of names; the statements about
  the order take it that no directory holds a name twice.
- Snippets: symbol extraction and the search that yields the matches.
- Not modelled at all: process management, permission profiles, command policy, repositories, redaction, HTTP and WebSocket
  servers, the tool catalog and Git parsing, which are lookups and validations without state of their own or talk to the
  platform; MCP child sessions (whose connects are not serialised); and the continuation maps of the context engine.
