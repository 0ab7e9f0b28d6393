# Verification of Orchis Foundry's stateful core

This project models the parts of the forge that hold state, run concurrently or parse text, and
proves what they keep. `dafny verify dfyconfig.toml` checks all of it.

| file | part of the system |
|---|---|
| `RepoPath`, `GitStore`, `BranchWriters` | browser and proposal commits on a bare repository, alone and interleaved |
| `Diff`, `DiffRender`, `DiffPatch`, `DiffFaithful`, `DiffAnchors` | the unified-diff parser, its two printers, git's own layout, comment anchors |
| `ScanQueue`, `ScanRuns` | the scan job queue and its worker, alone and interleaved |
| `Pulls`, `Proposals` | pull-request heads and numbers, the change-proposal gate |
| `Hub`, `HubRuns` | the publish/subscribe hub, alone and interleaved |
| `Outline` | the file outline and its block ranges |
| `Handles`, `Users`, `UserRuns`, `Tokens`, `TokenRuns` | handle allocation, the user table, personal access tokens |
| `Text`, `Wrappers` | strings, decimal printing, result types |

## How it is modelled

- **State that the program updates in place** is a class (`Store`, `Worker`, `Server`, `Gate`, `EventHub`,
  `Accounts`, `TokenStore`) whose methods follow the source statement by statement. Each is proved against a
  function or predicate on values, and the theorems are about those.
- **Interleavings** are state machines. `Next(state, event)` is one git command, one SQL statement, one channel
  operation or one lock step; an event says who moves and whether the step fails. `Run` folds `Next` over any list
  of events, so a lemma about every list is a lemma about every interleaving. Where calls can also run alone, a
  lemma says that the uninterrupted steps are the method of the class.
- **Commit ids** are commit contents (an ideal hash), so a parent chain cannot be circular. Which object a name of 40
  hexadecimal digits spells, and what `rev-parse` prints for any other text that names no ref, are parameters of the
  repository. Trees are maps from paths to blobs. `git apply` and `merge-base` are arbitrary functions of what they are
  given, and so is what `update-index` does with a deleted path that it takes for an option.
- **Tables** are sequences in id order or maps. In the queue, pulls and proposals a row's index stands for its id.
- **Failures** of git, SQL or the network are arguments of the call (`faults`) or flags of the event.
- **Strings** are Go's byte sequences; white space and lower-casing are read over code points.
- **Hashes, secrets, clocks**: password and token hashes are ideal, drawn secrets and instants are parameters. That a
  secret is never drawn twice is a hypothesis (`Fresh`) only where it is needed.

## What the proofs found

Each of these is a behaviour of the code as it is: a lemma with a concrete input shows it, and another says for all
inputs exactly when it happens.

- A `rev-parse` that fails on an existing branch leaves no expected value for the swap, and the branch's history is
  overwritten (`BlindWriterLosesHistory`; exactly when, `SwapKeepsTipIff`).
- A deleted path that starts with a dash reaches `update-index` as an option, so a commit that deletes `-q` succeeds
  and keeps the file (`QuietDeleteKeepsFile`; exactly when, `DeleteFaithfulIff`).
- `ValidRepoPath` admits paths such as `.git/x`, which the index then refuses (`AdmittedButRefused`; exactly when,
  `RefusedIff`).
- The diff parser takes a deleted line starting `-- ` and an added line starting `++ ` for file-name lines and drops
  them (`CommentDeletionIsLost`). File names that git prints quoted or with a trailing tab are not recovered. Reading
  back is exact if and only if neither occurs and there is a hunk (`FaithfulIff`).
- A pull's head is resolved by its bare name, so a tag of that name wins (`TagShadowsBranch`), as do the object that
  a name of 40 hexadecimal digits spells, what HEAD points at for a branch named `HEAD` or `@`, and whatever is printed
  for a pushed branch whose name looks like an option (`HexNameShadowsBranch`, `HeadShadowsBranch`,
  `OptionNameShadowsBranch`; exactly when, `RefreshedHeadIsTipIff`).
- The duplicate check and the insert of `Enqueue` are separate statements, and a failed check counts as none
  (`OverlappingCallsDuplicate`, `FailedCountDuplicates`; exactly when, `DuplicateStepIff`, `OneActiveJobIff`).
- A job whose status updates fail is processed again, or stays marked running beside the next one and blocks its pull
  and commit for ever (`FailedUpdatesRepeatJob`, `TwoRunning`, `StuckBlocksEnqueue`; exactly when, `QueueDiscipline`).
- "Never the default branch" fails for a default branch that is itself named `ai/proposal-<id>`
  (`ClashingDefaultMoves`; exactly when, `DefaultMovesIff`).
- A declaration without a body inside a braced block takes the next block after it for its own (`BodilessEscapes`;
  exactly when, `BraceNestingIff`).
- The last-admin guard also refuses to demote or delete an admin who is disabled, although that loses nobody
  (`GuardTooStrict`; exactly when, `UpdateGuardExact`, `DeleteGuardExact`).
- A returning OIDC login can give an account another account's email address (`ReturningLoginTakesEmail`; exactly
  when, `EmailsStepIff` for a step and `EmailsUniqueIff` for a run).
- Deleting a user is answered OK and deletes nothing when the user wrote something in somebody else's repository, or a
  comment in one of the user's own has a reply elsewhere (`CommentElsewhereBlocks`, `ReplyFromOutsideBlocks`; exactly
  when, `DeleteReplies`). What the user wrote at home does not stand in the way (`OwnPullsDoNotBlock`). Deleting a
  repository fails silently on such a reply, too (`RepoDeleteIff`).
- A rotated token loses its expiry, even one that has expired (`ExpiredTokenRevived`; exactly when,
  `RotationExpiryIff`).
- The duration of a token overflows: one asked for with 200000 days has expired when it is made (`LongTokenIsDead`;
  exactly when, `LifetimeIff`).
- Handle allocation is certain below 999 users and 999 is the exact bound (`AllocationSucceeds`,
  `AllocationBoundTight`).

## Model

| member | source | states |
|---|---|---|
| RepoPath.ValidRepoPath | internal/git/write.go:20-33 | accepts exactly the paths without NUL whose `/`-segments are all real names |
| RepoPath.EscapeHasBadSegment | internal/git/write.go:24-26 | the prefix, infix and suffix tests never reject a path the segment walk would accept |
| RepoPath.AdmittedIsJoin | internal/git/write.go:27-31 | a list of segments joined by `/` is admitted iff every segment is good, so admitted paths and segment lists correspond |
| GitStore.Store.CommitFiles | internal/git/write.go:149-247 | an error names the check that failed and leaves every ref unchanged; a success commits the folded changes over the parent tree and moves only that branch |
| GitStore.StageChanges | internal/git/write.go:205-221 | the loop that updates the index computes the left-to-right fold of the changes, or fails with git |
| GitStore.Store.ApplyPatchCommit | internal/git/write.go:66-139 | the same for a patch, which either applies to the parent tree or changes nothing |
| GitStore.Store.Publish | internal/git/write.go:223-246 | the ref moves iff no step fails and the expected old value, if there is one, still stands |
| GitStore.InvalidNames | internal/git/git.go:406-414 | what no branch name may start with, end in or contain, whatever is around it |
| GitStore.CommitLookup | internal/git/write.go:205-221 | unless a deleted path is taken for an option: the last change naming a path wins, a path no change names keeps its blob or its absence, and no protected path is committed |
| GitStore.DeleteFaithfulIff | internal/git/write.go:206-211 | a delete removes its path, whatever the tree and whatever git does with options, iff the path does not read as an option |
| GitStore.QuietDeleteKeepsFile | internal/git/write.go:208 | deleting the admitted path `-q` with an option that changes nothing succeeds and keeps the file |
| GitStore.ChangesKeepConsistent | internal/git/write.go:206-221 | no committed tree has a path that is both file and directory |
| GitStore.RefusedIff | internal/git/write.go:206-221 | a list of changes is refused iff one of them, after those before it, is an option that git does not take, adds a path that git protects, or would make a path both file and directory |
| GitStore.AdmittedButRefused | internal/git/write.go:20-33 | `.git/x` is an admitted path that the index always refuses |
| GitStore.CommitOnTip | internal/git/write.go:171-246 | a commit on an existing branch, end to end: child of the tip, the last change at each named path and the tip's blob elsewhere (no deleted path being taken for an option), no other ref moved |
| GitStore.CommitParent | internal/git/write.go:170-179 | under any faults: a commit is built on the tip of its branch; on a branch that is absent or not seen, on the base the caller named, or else on what HEAD points at; on nothing when rev-parse fails |
| GitStore.CommitContents | internal/git/write.go:161-235 | its tree is the changes or the patch applied to that commit's tree, or to the empty one; its message is the request's, and so is its author, with a default for each missing part |
| GitStore.CommitOnNewBranch | internal/git/write.go:176-246 | the first commit of a branch, end to end: child of the base, the last change at each named path and the base's blob elsewhere, the branch made and no other ref moved |
| GitStore.WriteSucceedsIff | internal/git/write.go:66-139 | without faults a write goes through iff the branch name is valid, the message and the edit are not empty, every path is admitted and the edit applies |
| BranchWriters.Serialisability | internal/git/write.go:171-246 | any interleaving on an existing branch in which no lookup of its tip fails: the tip's tree is the initial tree with the winners' edits in swap order, its parent chain is their commits in that order, and the winners are exactly those reporting success |
| BranchWriters.TipHasLastChange | internal/git/write.go:171-246 | likewise for file writers, no deleted path being taken for an option: the tip has at each path the last change to it by a winner, in swap order, and its initial blob where there is none |
| BranchWriters.NoLostUpdate | internal/git/write.go:83-137 | a commit reported as successful stays in the tip's history in every later state, on the value its swap replaced |
| BranchWriters.SwapReplacesParent | internal/git/write.go:237-245 | a successful swap moves one ref, and the new commit's parent is the tip it replaced |
| BranchWriters.UnguardedIffBlind | internal/git/write.go:173-175 | with any faults, a writer on an existing branch reaches its swap without an expected value iff its lookup of the branch or of its tip failed |
| BranchWriters.SwapKeepsTipIff | internal/git/write.go:171-245 | in every run with any faults, the new tip's parent is what the writer's rev-parse answered; the swap keeps the tip it replaces in the history iff the writer was never blind, or its commit is that tip, or the tip is in the history of that answer |
| BranchWriters.BlindWriterLosesHistory | internal/git/write.go:173-175 | a failed rev-parse on an existing branch ends with the old tip out of the history |
| BranchWriters.WinsAreNewlyWon | internal/git/write.go:243-246 | the winners of a run are the writers that come to report success in it |
| BranchWriters.SoloRunIsAttempt | internal/git/write.go:149-247 | the steps of one undisturbed writer, under any faults, are the store's write |
| Diff.ParseDiff | internal/git/diff.go:60-126 | the loop over mutable file, hunk and counters computes the line-by-line fold |
| Diff.ParsedShape | internal/git/diff.go:90-119 | for every text: left and right numbers run consecutively from the header's starts, texts never look like file-name lines, and the counts are those of the lines |
| Diff.AdvanceWraps | internal/git/diff.go:108-117 | the line counters are added to in two's complement: they wrap past the largest int |
| Diff.StartsSaturate | internal/git/diff.go:98-99 | a start that does not fit an int is read as the largest one |
| Diff.FileNameLines | internal/git/diff.go:74-89 | a `+++ ` line names the file whatever its name was, a `--- ` line only if it has none, and `/dev/null` is no name |
| DiffRender.WriteFiles | internal/scan/worker.go:110-125 | the worker's and the API's nested printing loops write the rendering |
| DiffRender.RenderDiff | internal/api/ai.go:21-46 | the rendering, cut at the byte cap and marked if it was longer |
| DiffRender.RenderedFile | internal/scan/worker.go:110-125 | each file stands between those before and after it, as a title line with its path twice and then its hunks |
| DiffRender.RenderInjective | internal/api/ai.go:26-40 | two diffs of the parsed shape print alike iff they are the same, paths included |
| DiffRender.RenderReadsBack | internal/api/ai.go:26-40 | any diff of the parsed shape, printed and parsed, is itself with its paths cleared |
| DiffRender.NormalForm | internal/git/diff.go:60-126 | for every text: parse, print, parse gives the same hunks, headers, texts, numbers and counts |
| DiffRender.TruncationMarkerInert | internal/api/ai.go:42-44 | the truncation marker adds nothing to what the cut text parses to |
| DiffPatch.ParseGitText | internal/git/diff.go:60-126 | what the parser makes of every edit script printed in git's layout, readable or not |
| DiffPatch.MatchPrintedHeader | internal/git/diff.go:48 | the header pattern reads back the starts and counts git printed, with unit counts omitted |
| DiffFaithful.FaithfulIff | internal/git/diff.go:65-125 | git's output is read back exactly, paths, hunks, numbers and counts, iff no text is a trap, each file has a hunk and its name is printed bare |
| DiffFaithful.FileFaithfulIff | internal/git/diff.go:74-119 | for one file: the hunks are recovered iff no line is a trap, and the whole file iff it is readable |
| DiffFaithful.HeaderPathFaithful | internal/git/diff.go:74-89 | the recovered path is the file's name iff git prints the name bare |
| DiffFaithful.ParsedHunksRebuildNewFile | internal/git/diff.go:90-119 | applying the recovered hunks to the old lines at their left numbers gives the new lines |
| DiffFaithful.CommentDeletionIsLost | internal/git/diff.go:82-89 | deleting a line that starts `-- ` leaves an empty hunk, and applying it changes nothing |
| DiffAnchors.AnchorsDistinct | web/app.bundle.js:7480-7491 | with ordered hunks every diff line has an anchor, and two lines share one iff they are the same line |
| DiffAnchors.PrintedAnchorsDistinct | web/app.bundle.js:7480-7491 | that holds for every file git prints, even one that is not read back exactly |
| DiffAnchors.NetChange | internal/git/diff.go:90-119 | for every printed diff: the header count differences add up to the change in length, and additions minus deletions is that sum iff as many added as deleted texts are taken for file names |
| ScanQueue.Worker.Enqueue | internal/scan/worker.go:29-44 | adds a job and fills the wake slot unless a job is active for that pull and commit |
| ScanQueue.EnqueueKeepsDeduplicated | internal/scan/worker.go:31-35 | serialised calls keep at most one active job per pull and commit, and leave one |
| ScanQueue.Worker.Process | internal/scan/worker.go:79-154 | every exit, case by case: an ownerless repository or a failed scan of something ends in error, all else in done; the check is ok for a clean or empty diff, fail for a blocked one, pending for any other verdict, cancelled when nothing was scanned |
| ScanQueue.Worker.Drain | internal/scan/worker.go:61-77 | terminates with no queued job, having taken exactly the queued ones, once each, in id order |
| ScanQueue.FinishingLowersCount | internal/scan/worker.go:61-77 | processing the polled job lowers the queued count, the measure of the drain |
| ScanQueue.RenderEmpty | internal/scan/worker.go:126-130 | the printed diff is empty iff there are no files, so nothing with changes skips the scan |
| ScanRuns.EveryRunKeepsWakeup | internal/scan/worker.go:29-77 | in every interleaving, a worker parked after a clean drain while a job is queued has a full wake slot or an enqueuer before its wake |
| ScanRuns.WakeWithoutTick | internal/scan/worker.go:52-57 | so the wake alone, after at most one enqueuer step, brings the worker back |
| ScanRuns.TickRecovers | internal/scan/worker.go:52-57 | the tick brings a parked worker back in any case: it polls again, takes the first queued job and starts it, or parks again if the poll fails |
| ScanRuns.CancelStops | internal/scan/worker.go:52-54 | a cancelled worker starts nothing more until the process restarts |
| ScanRuns.FailedInsertEndsCall | internal/scan/worker.go:36-39 | a call whose insert fails adds no job, wakes nobody and is over |
| ScanRuns.QueueDiscipline | internal/scan/worker.go:61-154 | with anything failing and any restarts: rows out of the queue are a prefix, starts follow id order without skips; no job starts twice iff no requeue is followed by a start; at most one row is running iff none is stuck before another is marked; all that left the queue finish iff none is stuck |
| ScanRuns.TwoRunning | internal/scan/worker.go:80-154 | a failed last update and the next job's mark leave two rows running |
| ScanRuns.StuckBlocksEnqueue | internal/scan/worker.go:31-35 | a row left running is so for ever, and its pull and commit are never queued again |
| ScanRuns.ProcessedJob | internal/scan/worker.go:80-154 | whatever happens meanwhile, the job is finished iff its last update succeeded, left running iff only the first did, and queued again iff neither |
| ScanRuns.FailedUpdatesRepeatJob | internal/scan/worker.go:80 | two rounds of failing updates process the same job twice |
| ScanRuns.DuplicateStepIff | internal/scan/worker.go:31-36 | a step makes a second active job for some pull and commit iff a call inserts while one is active |
| ScanRuns.OneActiveJobIff | internal/scan/worker.go:31-36 | so over every run there is at most one at every moment iff no call ever does |
| ScanRuns.OverlappingCallsDuplicate | internal/scan/worker.go:32-36 | two overlapping enqueues do |
| ScanRuns.FailedCountDuplicates | internal/scan/worker.go:31-36 | so does a call on its own whose count failed |
| ScanRuns.SoloCallIsEnqueue | internal/scan/worker.go:29-44 | an uninterrupted call is the queue's Enqueue |
| Pulls.Server.CreatePull | internal/api/pulls.go:247-285 | adds a pull with the next number and its scan job iff it has a title and the head resolves |
| Pulls.Server.OnRefUpdated | internal/api/hooks.go:50-83 | the loop over the open pulls computes the refresh |
| Pulls.NumberedMax | internal/api/pulls.go:265 | the largest number in a repository is how many pulls it has |
| Pulls.NumbersUnique | internal/api/pulls.go:265 | within a repository numbers grow with creation, so each names one pull |
| Pulls.RefreshTracksHeads | internal/api/hooks.go:66-82 | each open pull whose head resolves records what it resolves to; every other pull is untouched |
| Pulls.RefreshedHeadIsTipIff | internal/api/hooks.go:67 | for every branch name: the recorded head is the branch's tip iff the name is no object id, option or `@` and no ref that rev-parse prefers has it, or what it answers is the same commit, or it answers nothing and the head stood there before |
| Pulls.SettledPullFrozen | internal/api/hooks.go:50-51 | a merged or closed pull keeps its head and base in every run that does not settle it anew |
| Pulls.TagShadowsBranch | internal/api/hooks.go:67 | with a tag of the branch's name the tag's commit is recorded |
| Pulls.HexNameShadowsBranch | internal/git/diff.go:40-46 | a branch named with 40 hexadecimal digits is valid, and the object they spell is recorded |
| Pulls.HeadShadowsBranch | internal/git/diff.go:40-46 | for a branch named HEAD or `@`, what HEAD points at is recorded |
| Pulls.OptionNameShadowsBranch | internal/git/diff.go:40-46 | for a branch whose name starts with a dash, whatever rev-parse prints for that option is recorded |
| Pulls.CoverageInvariant | internal/api/hooks.go:48-83 | over every run: each pull's head has a job row, active jobs are unique per pull and commit, numbers are 1, 2, 3, ... |
| Pulls.FreshForgeCovered | internal/api/pulls.go:273-276 | so from an empty forge it holds in every run |
| Proposals.Gate.Create | internal/api/proposals.go:46-94 | stores a pending proposal with all it was given iff it has a title and a patch or changes |
| Proposals.Gate.Accept | internal/api/proposals.go:167-255 | the reply and the new state for every proposal, status and outcome of the write; nothing changes iff nothing is applied |
| Proposals.Gate.Reject | internal/api/proposals.go:258-280 | a pending proposal of that repository becomes rejected, and nothing else changes |
| Proposals.AcceptMovesOnlyTarget | internal/api/proposals.go:211-230 | an accept moves its target branch to the new commit and no other branch |
| Proposals.DefaultBranchUntouched | internal/api/proposals.go:191-230 | no run of create, accept and reject, with any faults, moves a default branch not named like a feature branch |
| Proposals.DefaultMovesIff | internal/api/proposals.go:191-230 | an accept moves the default branch iff it makes a commit (not the old tip again, where its lookup of the tip failed), the default branch is named like this proposal's feature branch, and the proposal names no other |
| Proposals.ClashingDefaultMoves | internal/api/proposals.go:194-196 | a default branch named like it is moved |
| Proposals.SettledForEver | internal/api/proposals.go:182-185 | an accepted or rejected row never changes again |
| Proposals.DecidedOnce | internal/api/proposals.go:182-185 | once rejected or accepted, a proposal makes no commit in any continuation, and another accept changes nothing |
| Proposals.AcceptedCommit | internal/api/proposals.go:187-219 | the commit an accept makes has the proposal's title and summary as message, its changes or else its patch applied, and is built on the branch it names or on its base |
| Proposals.FeatureBranches | internal/api/proposals.go:194-197 | every proposal has a feature branch of its own, and its name is one the writers take |
| Proposals.EveryAcceptIsRecorded | internal/api/proposals.go:237-250 | over every run each accepted proposal, and no other, records a commit that is its own edit over its parent, and heads stay covered |
| Proposals.AcceptOpensPull | internal/api/proposals.go:232-244 | a successful accept opens a pull from the branch it wrote to the default branch and records its number; the pull stands at the applied commit iff nothing shadows the branch's name, or rev-parse answers that very commit |
| Hub.EventHub.Subscribe | internal/realtime/hub.go:37-47 | adds one live subscription with the given topics and an empty buffer |
| Hub.EventHub.Unsubscribe | internal/realtime/hub.go:49-56 | removes and closes a live subscription; a second call does nothing |
| Hub.EventHub.Publish | internal/realtime/hub.go:59-73 | offers the event once to each live subscription to the topic, dropping it only on a full buffer |
| HubRuns.CloseSafety | internal/realtime/hub.go:49-73 | in every interleaving nothing is sent on a closed channel and none is closed twice |
| HubRuns.LiveIff | internal/realtime/hub.go:43-55 | at every moment of every run a subscription is live iff its Subscribe has put it in and no Unsubscribe has taken it out, and closed iff an Unsubscribe is past its close |
| HubRuns.PublishedWhileLive | internal/realtime/hub.go:59-72 | a subscription live before a publication begins and still live after it ends was offered the event iff it is one of its topics |
| HubRuns.UnsubscribedForGood | internal/realtime/hub.go:49-56 | after a returned Unsubscribe the subscription is out and closed, for good |
| HubRuns.NothingAfterClose | internal/realtime/hub.go:51-54 | nothing is delivered to a subscription once its channel is closed |
| HubRuns.Conservation | internal/realtime/hub.go:37-73 | received followed by buffered is, in order, what was offered and not dropped; at most 32 are buffered; nothing is offered twice |
| HubRuns.PublishedToAudience | internal/realtime/hub.go:63-72 | a finished publication reached exactly the subscriptions to its topic live when it took the lock: each received, holds or dropped it |
| HubRuns.DropsOnlyWhenFull | internal/realtime/hub.go:67-71 | a step drops an event only when the buffer holds 32, and otherwise appends it |
| HubRuns.LonePublish | internal/realtime/hub.go:59-73 | an undisturbed publisher's sends, in any order, are the one-piece publish |
| HubRuns.LoneSubscribe | internal/realtime/hub.go:37-47 | the steps of an undisturbed Subscribe are the one-piece call |
| HubRuns.LoneUnsubscribe | internal/realtime/hub.go:49-56 | likewise for Unsubscribe, of a live subscription or of one that is gone |
| HubRuns.LonePublishCall | internal/realtime/hub.go:59-73 | likewise for Publish, from its call to its return |
| Outline.IndentOf | internal/git/outline.go:140-152 | the width of the longest run of blanks the line starts with |
| Outline.BlockEnd | internal/git/outline.go:105-138 | Python: the first later line that is not blank and no deeper; braces: the first line by which they have opened and balanced, or the start line when none opens in time or it never balances |
| Outline.PythonNesting | internal/git/outline.go:106-117 | two Python blocks are nested or disjoint |
| Outline.BraceNestingIff | internal/git/outline.go:118-137 | a brace declaration inside a closed block stays inside iff its scan finds no block or its braces have balanced by the outer end |
| Outline.BraceNestingAfterOpen | internal/git/outline.go:118-137 | after the outer opening brace, iff its scan finds no block or meets a brace by the outer end |
| Outline.BraceWindow | internal/git/outline.go:118-137 | the range is the declaration's line alone unless an opening brace comes by the 41st line after it; then it ends where the braces first balance, if they do |
| Outline.BodilessEscapes | internal/git/outline.go:118-137 | five lines where the inner range outruns the outer one |
| Outline.Outline | internal/git/outline.go:72-100 | one entry per line that a rule matches, the first such rule, in file order |
| Outline.OutlineUnique | internal/git/outline.go:84-98 | that specification admits one outline only |
| Outline.RangesInFile | internal/git/outline.go:90-95 | every range lies within the file from its declaration on, and no line has two entries |
| Outline.SignatureTrimmed | internal/git/outline.go:94 | an entry's signature is its line without the blanks around it |
| Outline.PythonMatchesNeedText | internal/git/outline.go:41-44 | the Python patterns match no blank line |
| Outline.PythonFinds | internal/git/outline.go:41-44 | they find the identifier after `def`, `async def` or `class` at any indent, as a function or a class |
| Outline.PythonOutlineNested | internal/git/outline.go:84-117 | any two entries of a Python outline have nested or disjoint ranges |
| Outline.BraceOutlineNested | internal/git/outline.go:84-137 | in any other outline, an entry inside a closed block after its opening brace stays inside iff its scan finds no block or meets a brace by the outer end |
| Text.TrimmedWhole | internal/git/outline.go:94 | trimming removes blanks only, and only at the ends |
| Text.ValueDecimal | internal/auth/auth.go:328-340 | decimal printing is inverted by reading the digits |
| Text.DecimalCanonical | internal/auth/auth.go:328-340 | it has no leading zero except for zero |
| Handles.Itoa | internal/auth/auth.go:328-340 | on every 64-bit int the 20-byte buffer is never underrun and holds the decimal digits; a negative number prints as nothing |
| Handles.UniqueHandle | internal/auth/auth.go:96-112 | the first free one of 999 candidates, an error only when all are taken |
| Handles.CandidatesDistinct | internal/auth/auth.go:100-110 | the candidates are pairwise different, letter case aside |
| Handles.Pigeonhole | internal/auth/auth.go:101-110 | n taken candidates need n users |
| Handles.AllocationSucceeds | internal/auth/auth.go:96-112 | below 999 users a free handle is always found |
| Handles.AllocationBoundTight | internal/auth/auth.go:101-111 | for every base 999 users can exhaust the candidates |
| Handles.SanitizeHandle | internal/auth/password.go:100-113 | the loop keeps the allowed characters of the trimmed, lower-cased text |
| Handles.FilteredConcat | internal/auth/password.go:103-108 | each character is kept or dropped on its own, wherever it stands |
| Handles.FilteredChar | internal/auth/password.go:103-108 | kept are exactly a to z, the digits, dash, underscore and dot |
| Handles.SanitizedClean | internal/auth/password.go:100-113 | under any lower-casing that is right on ASCII: the result is a clean handle, a clean handle is unchanged, and doing it twice is doing it once |
| Users.Accounts.CreateLocalUser | internal/auth/password.go:35-72 | the statements amount to the sign-up transition |
| Users.Accounts.UpsertOIDCUser | internal/auth/auth.go:48-93 | the statements amount to the login transition |
| Users.Accounts.EnsureUserByHandle | internal/auth/auth.go:116-128 | finds the user or adds an admin |
| Users.Accounts.CreateSession | internal/auth/auth.go:229-246 | adds a session row for an existing user under an unused secret |
| Users.Accounts.UpdateUser | internal/api/admin.go:124-167 | the guard and the separate updates amount to one change of one row |
| Users.Accounts.DeleteUser | internal/api/admin.go:170-185 | the guards, the cascades, and the keys that can make the statement fail |
| Users.Accounts.DeleteRepo | internal/api/repos.go:282-295 | the cascade of a repository's delete, and the key that can make it fail |
| UserRuns.EveryHistory | internal/api/admin.go:116-185 | in every history there are no users or there is an enabled admin; handles are unique letter case aside; identities, sessions and posts have users |
| UserRuns.UpdateGuardExact | internal/api/admin.go:143-149 | an update leaves an enabled admin iff it is let through or its target is disabled |
| UserRuns.DeleteGuardExact | internal/api/admin.go:177-182 | the same for a delete |
| UserRuns.GuardTooStrict | internal/api/admin.go:144-149 | two admins, one disabled: demoting or deleting that one is refused and would have been harmless |
| UserRuns.AnotherActive | internal/api/admin.go:117-121 | with a count of two, another enabled admin is left whoever is touched |
| UserRuns.SignUpReplies | internal/auth/password.go:36-71 | which sign-ups are accepted, every field of the new row, its handle being the first free one for that base, and that no other row changes |
| UserRuns.LocalPart | internal/auth/password.go:48-50 | without a handle of their own, a new user's starts from the address up to its first `@` |
| UserRuns.MintReplies | internal/auth/auth.go:116-128 | finds the user with that handle, letter case aside, or adds one who is an admin, and touches no other row |
| UserRuns.OpenReplies | internal/auth/auth.go:229-246 | a session is opened iff the user exists and the secret is unused, and is that user's |
| UserRuns.SessionLifeIff | internal/api/admin.go:154-158 | in every history a session whose secret is not drawn again is there, and its user's, exactly until the user is deleted or an update that is let through disables them |
| UserRuns.ReturningLogin | internal/auth/auth.go:53-59 | a known identity finds its account and changes that account's profile only |
| UserRuns.FirstLogin | internal/auth/auth.go:64-92 | an unknown identity joins the account with its address or adds one with all the provider said, admin iff it is the first |
| UserRuns.SecondLoginSameUser | internal/auth/auth.go:49-59 | the same identity gives the same user whatever the provider says later |
| UserRuns.DeletedForEver | internal/api/admin.go:183 | a deleted user's id never comes back |
| UserRuns.UpdateReplies | internal/api/admin.go:129-166 | when each reply is given and what it leaves behind: the flags and the password asked for; disabling ends every session, and a refused password does not undo the flags |
| UserRuns.CascadeBlockedIff | internal/db/migrations/0003_pulls.sql:3-52 | the delete of a user fails iff the user wrote something in somebody else's repository, or a comment in one of the user's own has a reply elsewhere |
| UserRuns.DeleteReplies | internal/api/admin.go:170-185 | when the request is refused; an OK leaves the account, and everything else, iff that is so; otherwise the user, the user's repositories and sessions and what was written there are gone, and all other users stay |
| UserRuns.OwnPullsDoNotBlock | internal/db/migrations/0002_repos.sql:19-22 | a user with a pull request in a repository of their own is deleted with it |
| UserRuns.CommentElsewhereBlocks | internal/db/migrations/0003_pulls.sql:32-35 | one comment in another's repository keeps the account |
| UserRuns.ReplyFromOutsideBlocks | internal/api/pulls_write.go:55-58 | so does another user's reply, in another repository, to a comment in the user's |
| UserRuns.RepoDeleteIff | internal/api/repos.go:282-295 | deleting a repository leaves its rows iff some comment elsewhere replies to one in it |
| UserRuns.EmailsStepIff | internal/auth/auth.go:53-58 | a step breaks the uniqueness of addresses iff it is a returning login with another account's address |
| UserRuns.EmailsUniqueIff | internal/auth/auth.go:53-58 | in a run from the empty table addresses are unique at every moment iff no returning login in it takes another account's |
| UserRuns.ReturningLoginTakesEmail | internal/auth/auth.go:53-58 | two accounts with their own addresses, and a login that leaves them with one |
| Tokens.TokenStore.CreateToken | internal/auth/tokens.go:65-91 | adds one row with the hash, the peek, the joined scopes and the expiry |
| Tokens.WithoutIs | internal/auth/tokens.go:120-124 | exactly the row with that id and that owner goes; every other row stays |
| Tokens.TokenStore.ValidateToken | internal/auth/tokens.go:133-193 | the loop over the indexed rows finds the first unexpired one that verifies |
| Tokens.TokenStore.RotateToken | internal/api/tokens.go:57-82 | delete and create again with the same name and scopes |
| Tokens.CleanScopes | internal/api/tokens.go:43-48 | keeps exactly the valid scopes, which survive storage |
| Tokens.ScopesRoundTripIff | internal/auth/tokens.go:85-190 | scopes come back from storage iff none has a comma and they are not one empty scope |
| Tokens.ScopesStable | internal/api/tokens.go:63-76 | reading and storing again changes nothing |
| TokenRuns.IndexFaithful | internal/auth/tokens.go:133-192 | in every history, for every presented token, the 8-character index finds what verifying against every row finds |
| TokenRuns.ValidatesOwnerOnly | internal/auth/tokens.go:156-192 | with fresh secrets a token authenticates exactly its row's owner and scopes, while the row exists and is unexpired |
| TokenRuns.TokenLifetime | internal/auth/tokens.go:74-192 | a new token authenticates its maker with its scopes, in every continuation that does not revoke it, exactly until its lifetime is over, or for ever without one; up to 106751 days that is the days asked for |
| Tokens.LifetimeIff | internal/auth/tokens.go:77 | the lifetime is the days asked for iff they are at most 106751 |
| TokenRuns.LongTokenIsDead | internal/auth/tokens.go:77 | a token asked for with 200000 days has expired when it is made |
| TokenRuns.RevokedForEver | internal/auth/tokens.go:120-124 | a token deleted or rotated by its owner, or whose owner is gone, never authenticates again |
| TokenRuns.RotationKeepsScopesOnly | internal/api/tokens.go:75-76 | a rotated token authenticates the old one's user with the old one's scopes, at every instant |
| TokenRuns.RotationExpiryIff | internal/api/tokens.go:75-76 | the old token and the new one authenticate alike at every instant iff the old one had no expiry |
| TokenRuns.ExpiredTokenRevived | internal/api/tokens.go:57-82 | a one-day token, rotated ten days later, is valid again and for ever |

## Left out

- The git binary: packs, worktrees, renames, merges (`mergeBranches`), and how `git apply` and `merge-base` compute their answers; here they are arbitrary functions.
- SQL text, SQLite's locking, JSON, routing, SSE framing and middleware; a handler is a transition, and the methods of the `Worker`, `Server`, `Gate`, `Accounts` and `TokenStore` classes take their statements to succeed. What failing statements do to the queue and the wake slot is in `ScanRuns`.
- First creations of one branch that overlap, overlapping accepts of one proposal, racing admin requests: the code guards none of them, so those handlers are single steps here.
- BranchWriters.Serialisability: starts from an existing branch that nobody deletes or force-pushes; the swap has an expected value only then.
- DiffAnchors.PrintedAnchorsDistinct: asks for line numbers below 2^53, where the browser's numbers are exact.
- Merge statistics, branch and commit counts, language detection, webhooks, activity rows and the live events of the fan-out.
- The worker scans the pull's current head while its check row is on the job's commit; the diff is a parameter here. Findings rows and messages are not modelled.
- Job and pull rows that a repository's delete takes out of the queue and pull tables; the foreign keys are in `Users`.
- The patterns of the outline for languages other than Python, and the mapping from file names to languages; the nesting theorems hold for any rules.
- Role checks, login with a password, logging out, session expiry and device binding, OIDC exchange, Argon2 and base64, SSH keys, avatars.
- The table of Unicode lower-case letters: sign-up is modelled for any lower-casing that is right on ASCII.
- How `rev-parse` reads text that is neither a whole object id nor a ref: abbreviated ids, revision expressions, options and file names have an arbitrary answer.
- Other settings of git's path protection: protected names are those of its defaults on Linux (`.git` and `git~1` in any case, with trailing dots and blanks).
- Token instants are whole seconds, not formatted text; the user row that ValidateToken loads at the end is its id.
- A repository that cannot be opened: the fault is modelled where the branch is looked up, not where emptiness is asked.
