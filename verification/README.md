# A verified model of the RWX command-line client

The client keeps a remote sandbox in step with a local checkout, shares one session store between many
processes, talks to a language server, keeps SSH tunnels alive and edits text in several small formats. This
project models those parts in Dafny, branch by branch, and proves what they promise: over every input, every
reachable state, or every interleaving. Where a promise turns out not to hold, the model keeps the code as it is,
and a lemma names an input or a run that shows it; others say, for all inputs, when the promise does hold.

| module | part of the client |
|---|---|
| `Git`, `SandboxSync` | push, snapshot and pull between a local and a remote checkout |
| `SandboxStorage`, `SessionKeys`, `SandboxList` | the session store, its dirty flag, its keys and their migration, reconciliation with the API |
| `SandboxLock` | many processes sharing the store under one file lock |
| `TextEdits`, `Lines` | applying a language server's text edits |
| `Connection`, `Framing` | the JSON-RPC connection: correlation of requests and responses, message frames |
| `Tunnels` | SSH control masters and their state files |
| `Dotenv`, `DotenvValues`, `ShellQuoting`, `ArtifactDirs`, `YamlSplice`, `ShareDuration` | parsers, printers, allocators |
| `Decimals`, `Collections`, `TokenLists`, `Options`, `Characters` | decimal numerals, finite maps and sets, token lists, optional values, character classes |

Objects whose methods update fields are classes (`JsonRpcConn`, `Reader`, `Storage`, `Disk`, `Machine`, `Host`); loops are
loops; the overlap removal works in place on its array. Concurrent code is a state machine whose steps are the
critical sections and external calls of the source. External commands, files, the network and clocks appear as
parameters: the state they act on, the answers they give, the faults they may have.

## What the proofs say about the code

- **Sync.** A push always succeeds when the transport does, from any earlier sandbox state, and leaves the sandbox
  with the local HEAD, branch and index and the local files. Push, any remote edit of files that are tracked or not
  ignored, pull: the local files are those the edit would have left locally, over sessions of any length.
- **Intent-to-add cleanup.** `git reset HEAD --` on the files that were untracked does more than undo `git add -N`
  when such a file is still in HEAD: a staged deletion of a file kept on disk is undone (`CleanupCanLoseAStagedDeletion`).
  `CleanupRestoresIndex` gives the exact condition.
- **Re-keying by ancestry.** Sessions of several earlier positions are moved to the current one together. When two of them
  have the same config file, one overwrites the other (`RekeyLosesASession`); as the callers re-key only at a position
  without sessions, that is the exact condition (`RekeyAtFreshPosition`).
- **Key migration** is idempotent except for exactly the old keys whose branch part starts with "/" and whose resolved
  config path holds a colon (`MigrationIsIdempotent`, `SlashBranchMigratesTwice`).
- **Reconciliation** needs a second pass exactly when an expired session holds the key of a listed run
  (`OnePassSuffices`, `OnePassIsNotEnough`).
- **Shared store.** However the processes interleave, a branch and config file get at most one run, and one more for each
  removal of their session (`RunsAreBounded`, `BoundIsReached`). The second save of a new run, once it has its token, does not look at what is
  recorded by then: it takes the key from another run exactly when one is recorded there, which is possible only once a
  session under that key has been removed (`LateSaveDisplaces`); `LateSaveExists` is such a run. No other step takes a key from a run.
  A request that requires a sandbox never initiates one, and nobody is stuck while the lock is free.
- **JSON-RPC.** Numbers are never reused, answers reach their calls, the reader never blocks. But a request made after
  the reader has stopped is never woken by the connection (`LateRequestEndsOnItsOwn`, `LateRequestExists`), nor is one
  left outstanding when the reader leaves through its context check. Once the reader has stopped, exactly the calls the
  table still leads to are abandoned (`WhoIsAbandoned`).
- **Text edits** do not depend on the order they arrive in when starts are distinct. Otherwise the edits kept are the same
  for every order exactly when the scan never has a choice between different edits with one start (`OrderMatters`);
  `EqualStartsDependOnOrder` is a request with two results. Splicing the kept edits one after another is applying them at
  once, whatever the new texts, exactly when none after the first reaches past the last line (`TailsDecide`);
  `TailEditsShift` is a request for which the two differ.
- **Tunnels.** Every live master is recorded, at most one is live per tunnel, and no operation touches another tunnel, as long as
  the short hash tells the tunnels in use apart. `OpenTwoCloseOne` and `ExampleHost` show that such machines exist. Open, Close and
  CloseAll say exactly when they succeed; a tunnel whose master dies and leaves its socket file behind can be neither
  reopened nor closed (`LeftoverSocket`).
- **Dotenv.** A quoted value survives exactly when it does not end in a backslash or a double quote; a single-quoted text and an
  unquoted one are read as `DotenvValues` says, for every text of theirs. The test meant to
  treat `$(` specially looks at the group of the dollar sign, so it never holds: a name behind `$(` is looked up as
  anywhere else (`DollarParen`, `CommandSubstitutionIsExpanded`), and the text stays exactly when no name follows or the
  binding is that very text (`DollarParenStays`).
- **YAML.** Replacing the same root field twice equals replacing it once, exactly unless the first text ends in a blank or
  comment line and another key follows (`LastReplacementWins`, `FirstTextLeavesALine`).

## Model

| member | source | states |
|---|---|---|
| SandboxSync.CleanupRestoresIndex | internal/git/client.go:260-294 | The cleanup changes nothing but the index, and restores it exactly when no untracked file is still in HEAD |
| SandboxSync.CleanupCanLoseAStagedDeletion | internal/git/client.go:283-291 | A concrete checkout whose staged deletion the cleanup undoes |
| SandboxSync.GenerateDirtyPatches | internal/git/client.go:316-369 | Staged patch HEAD to index, unstaged patch index to worktree with untracked files included; the local checkout ends as the cleanup leaves it |
| SandboxSync.PreparedIs | internal/cli/service_sandbox.go:2204-2272 | Checkout, hard reset and cleaning take any sandbox to the local commit with a clean index; of its other files only the leftovers stay |
| SandboxSync.LeftoversApart | internal/cli/service_sandbox.go:2561-2584 | No leftover collides with a path of HEAD, the index or the files a push carries |
| SandboxSync.PatchesApply | internal/cli/service_sandbox.go:2545-2559 | Both patches apply to the prepared sandbox, whatever it was before, and give the local index and files |
| SandboxSync.SnapshotOnlyMovesTheRef | internal/cli/service_sandbox.go:2610-2637 | HEAD, branch, worktree and staged contents are as before; the ref holds a commit on HEAD of the files the baseline script adds |
| SandboxSync.PushMirrorsLocal | internal/cli/service_sandbox.go:2199-2284 | The complete sandbox state after a push, for new and reused sandboxes in any earlier state |
| SandboxSync.PushedPath | internal/cli/service_sandbox.go:2199-2284 | Every path of the sandbox after a push, from the two checkouts before it: what is carried, what goes, and which untracked files of the sandbox survive |
| SandboxSync.PushedWorktreeIsLocal | internal/cli/service_sandbox.go:2199-2284 | On a reused sandbox the worktrees agree on every path that is staged or not ignored |
| SandboxSync.ResetSandbox | internal/cli/service_sandbox.go:2204-2253 | Succeeds exactly without a fault of its commands, with the checked out and cleaned state |
| SandboxSync.RemovePreAppliedNewFiles | internal/cli/service_sandbox.go:2561-2584 | Files the patches will create are removed first, nothing else; fails exactly when there are some and its command fails |
| SandboxSync.ApplyDirtyPatches | internal/cli/service_sandbox.go:2545-2559 | Staged patch to index and worktree, then unstaged patch to the worktree; exactly when it succeeds |
| SandboxSync.SyncLocalChangesToSandbox | internal/cli/service_sandbox.go:2168-2285 | The steps in the source's order end in the state PushMirrorsLocal describes; it fails exactly when a command it runs fails, no patch is ever refused |
| SandboxSync.PullChangesFromSandbox | internal/cli/service_sandbox.go:2044-2166 | Fetches the diff against the sync ref, undoes the marking, applies the diff locally; exactly when it ends how, and what each failure leaves |
| SandboxSync.PushedBaselineFits | internal/cli/service_sandbox.go:2610-2637 | The recorded baseline lies within the local worktree and covers every file that is not ignored |
| SandboxSync.PullReproducesSandbox | internal/cli/service_sandbox.go:2044-2166 | For any sandbox state: the diff applies exactly when no newly tracked ignored file clashes, and then each path's content after the pull |
| SandboxSync.RemoteEditIsLocalEdit | internal/cli/service_sandbox.go:2044-2284 | Push, edit, pull equals making the edit locally |
| SandboxSync.SessionRefinesLocalWork | internal/cli/service_sandbox.go:2044-2284 | The same over any number of rounds, the sandbox arbitrary before each push |
| Git.DiffPatches | internal/cli/service_sandbox.go:2545-2559 | A patch between two trees applies to the first and gives the second |
| Git.DiffAt | internal/cli/service_sandbox.go:2545-2559 | A diff names exactly the paths that differ and adds those only the second tree has |
| Git.ApplyToIndexAt | internal/cli/service_sandbox.go:2545-2559 | A patch is refused unless index and worktree have all its pre-images, and puts its post-images in both |
| Git.CheckoutAt | internal/cli/service_sandbox.go:2204-2253 | What a forced checkout does to each path |
| Git.CleanAt | internal/cli/service_sandbox.go:2254-2272 | What each clean takes away |
| Git.MarkAt | internal/git/client.go:260-294 | What marking and resetting do to each entry |
| Git.StageAt | internal/cli/service_sandbox.go:2610-2637 | What staging everything and staging paths do to each path |
| SandboxStorage.LoadSandboxStorage | internal/cli/sandbox_storage.go:184-220 | What is loaded from a missing, an old and a current file, and when the flags are set |
| SandboxStorage.MigrateOldSessionKeys | internal/cli/sandbox_storage.go:543-550 | Every old key reaches its new key; every session in the result comes from one migrating there, in whatever order the map is visited |
| SandboxStorage.Storage.constructor | internal/cli/sandbox_storage.go:184-192 | A storage with the given fields |
| SandboxStorage.Storage.Save | internal/cli/sandbox_storage.go:222-291 | The file holds the sessions in the current version and the flags are cleared; a failed save leaves the file and the flags as they were |
| SandboxStorage.Storage.SaveWithTelemetry | internal/cli/service_sandbox.go:2799-2839 | An unchanged storage is left unsaved; for any other the save is attempted and its outcome returned |
| SandboxStorage.Storage.SetSession | internal/cli/sandbox_storage.go:379-386 | The whole new storage: one key set, flag raised |
| SandboxStorage.Storage.DeleteSession | internal/cli/sandbox_storage.go:388-395 | The whole new storage: one key gone, and when the flag is raised |
| SandboxStorage.Storage.DeleteSessionByRunID | internal/cli/sandbox_storage.go:397-406 | Deletes one session of the run if there is any, and says so |
| SandboxStorage.Storage.GetSessionByAncestry | internal/cli/sandbox_storage.go:455-481 | Finds a session exactly when the position is anonymous and an ancestor's key with the config exists; it is then under the new key and no longer under the old one, and all others are where they were |
| SandboxStorage.Storage.GetSessionsForBranchByAncestry | internal/cli/sandbox_storage.go:486-522 | Returns exactly the ancestors' sessions, each once, and moves each to the current position |
| SandboxStorage.Storage.Rekey | internal/cli/sandbox_storage.go:512-519 | The loop that moves the sessions equals re-keying them one after another |
| SandboxStorage.FindAncestorKey | internal/cli/sandbox_storage.go:460-472 | Finds a matching key exactly when there is one |
| SandboxStorage.CollectAncestorKeys | internal/cli/sandbox_storage.go:498-510 | Collects exactly the matching keys, each once |
| SandboxStorage.AncestorKeys | internal/cli/sandbox_storage.go:455-481 | A detached position's key is an ancestor's exactly when its commit is; no key of a named branch is |
| SandboxStorage.UnchangedMeansOnDisk | internal/cli/sandbox_storage.go:293-299 | Over any sequence of loads, changes and saves, failing ones included, an unset flag means memory equals disk |
| SandboxStorage.ChangeEffects | internal/cli/sandbox_storage.go:184-220 | What a load and each change do to memory and flags; none touches the disk |
| SandboxStorage.SaveEffects | internal/cli/sandbox_storage.go:222-291 | What a save leaves on disk and of the flags, and what a skipped or failed one does |
| SandboxStorage.SkippingEqualsSaving | internal/cli/service_sandbox.go:2799-2839 | Skipping unchanged saves gives the same disk as saving every time, whichever saves fail |
| SandboxStorage.PoliciesAgree | internal/cli/service_sandbox.go:2799-2839 | From one state, both policies end with the same sessions on disk and in memory |
| SandboxStorage.MigrationKeepsSessions | internal/cli/sandbox_storage.go:543-550 | No session is lost exactly when no two old keys migrate to one |
| SandboxStorage.RekeyKeepsSessions | internal/cli/sandbox_storage.go:512-519 | No session is lost exactly when the moved ones have distinct configs and no other session holds a new key |
| SandboxStorage.RekeyAtFreshPosition | internal/cli/service_sandbox.go:1292-1298 | Where the callers re-key, no session has a key of the position yet; then none is lost exactly when the moved ones have distinct configs |
| SandboxStorage.RekeyLosesASession | internal/cli/sandbox_storage.go:512-519 | Two positions, one config: what is left is the session moved last |
| SessionKeys.ParseUndoesSessionKey | internal/cli/sandbox_storage.go:317-325 | Parsing undoes key construction exactly for non-empty branches without ":/" |
| SessionKeys.SessionKeyInjective | internal/cli/sandbox_storage.go:524-537 | Distinct sessions have distinct keys |
| SessionKeys.MigrationIsIdempotent | internal/cli/sandbox_storage.go:552-578 | A second migration changes nothing, except for exactly the named family of keys |
| SessionKeys.MigrationDropsAColon | internal/cli/sandbox_storage.go:569-576 | Migrating an old key always changes it: it has fewer colons afterwards |
| SessionKeys.SlashBranchMigratesTwice | internal/cli/sandbox_storage.go:569-576 | Keys that migrate twice exist, with their two results |
| SessionKeys.OldKeyMigratesToItsParts | internal/cli/sandbox_storage.go:552-578 | The migrated key parses back to the branch and the config made absolute |
| SessionKeys.JoinResolves | internal/cli/sandbox_storage.go:569-576 | Joining a file name to a directory, to "./" and to "../" of it, also at the root |
| SessionKeys.YAMLNames | internal/cli/sandbox_storage.go:569 | A config path counts as one exactly when it ends in ".yml" or ".yaml" |
| SessionKeys.OldKeyExample | internal/cli/sandbox_storage.go:552-578 | The migrated key of an ordinary old one, written out |
| SandboxList.MergeRuns | internal/cli/service_sandbox.go:1684-1704 | The loop merges exactly the runs whose key is free, and reports whether anything was added |
| SandboxList.Classify | internal/cli/service_sandbox.go:1706-1750 | Lists exactly the active sessions and marks exactly the others |
| SandboxList.ListSandboxes | internal/cli/service_sandbox.go:1661-1775 | One pass from disk to disk; the file is rewritten only if the pass changed something and the save succeeds |
| SandboxList.MergeFacts | internal/cli/service_sandbox.go:1684-1704 | The merge keeps every session, adds only for free keys, and leaves every run's key taken |
| SandboxList.FirstRunWins | internal/cli/service_sandbox.go:1684-1704 | Of several runs listed for a free key the first gets it, with the run's id, URL and config file and nothing else |
| SandboxList.PassKeepsActive | internal/cli/service_sandbox.go:1678-1756 | No pass drops or overwrites a session confirmed active |
| SandboxList.TwoPassesConverge | internal/cli/service_sandbox.go:1678-1756 | After two passes a third changes nothing, all sessions are active and every listed run has its key |
| SandboxList.OnePassSuffices | internal/cli/service_sandbox.go:1678-1756 | One pass is a fixpoint exactly when no expired session holds a listed run's key |
| SandboxList.OnePassIsNotEnough | internal/cli/service_sandbox.go:1678-1756 | A store and a listing for which the first pass only frees the key and the second recovers the run |
| SandboxLock.ScanAgreesWithKey | internal/cli/service_sandbox.go:1233-1432 | Scanning a branch's sessions for the default config finds what the lookup by key finds |
| SandboxLock.ResolvesByKey | internal/cli/service_sandbox.go:1333-1363 | A request finds the run recorded under its key; without one it fails exactly when a sandbox is required to exist, and else goes on to initiate one |
| SandboxLock.ScanGoesByField | internal/cli/service_sandbox.go:1336-1346 | For a store whose keys and sessions disagree the scan finds what the lookup by key does not |
| SandboxLock.StepKeepsInv | internal/cli/service_sandbox.go:1233-1432 | Every step of every process keeps the protocol's invariant; no session disappears or moves to another run, except under keys with a session removed |
| SandboxLock.RunKeepsInv | internal/cli/service_sandbox.go:494-582 | So does every interleaving |
| SandboxLock.RunsAreBounded | internal/cli/service_sandbox.go:494-532 | At most one run per branch and config file plus one for each removal of their session, none beside a session recorded before; runs lost to a crash before their first save do not count |
| SandboxLock.AtMostOneRun | internal/cli/service_sandbox.go:494-532 | At most one run when the session is never removed |
| SandboxLock.RecordedSessionsStay | internal/cli/service_sandbox.go:545-582 | Until it is removed, a recorded session stays on its run and no run is initiated beside it, in spite of the second save after re-locking |
| SandboxLock.UsersShareTheRun | internal/cli/service_sandbox.go:1233-1432 | All processes using a sandbox for one branch and config use the same run, unless a session under its key was removed |
| SandboxLock.RequiringInitiatesNothing | internal/cli/service_sandbox.go:1354-1363 | In every interleaving: a request that requires a sandbox initiates no run and saves none of its own |
| SandboxLock.NobodyIsStuck | internal/cli/service_sandbox.go:1233-1432 | In every reachable state a process can go on exactly when it has not ended and the lock is free or its own; a crash frees the lock |
| SandboxLock.AnybodyMayCome | internal/cli/service_sandbox.go:1233-1242 | At any time a new process may list or make any request for a named branch |
| SandboxLock.StepRemove | internal/cli/service_sandbox.go:1263-1320 | Removing an expired, reset or stopped session under the lock takes exactly that session off the disk and keeps the invariant |
| SandboxLock.WhatIsRemoved | internal/cli/service_sandbox.go:1263-1320 | A request with a config file removes its own session only, one without any of its branch |
| SandboxLock.LateSaveDisplaces | internal/cli/service_sandbox.go:545-582 | For every step of every process: it takes a key from another run exactly when it is a second save and another run is recorded by then; and then a session under that key was removed before |
| SandboxLock.FindsNothing | internal/cli/service_sandbox.go:1233-1413 | Such interleavings exist: a process takes the lock, loads, finds nothing, initiates its run and records it |
| SandboxLock.RecordsItsRun | internal/cli/service_sandbox.go:506-532 | The part from the initiated run to the first save and the released lock, from any state of the others |
| SandboxLock.ReplacesIt | internal/cli/service_sandbox.go:1263-1413 | Before the first process gets its token, another one finds its run ended, removes the session and records a run of its own |
| SandboxLock.LateSaveExists | internal/cli/service_sandbox.go:545-582 | From the empty store: the first process then puts its ended run back in place of the new one |
| SandboxLock.BoundIsReached | internal/cli/service_sandbox.go:1263-1413 | An interleaving with one removal and two runs |
| TextEdits.SortDescending | internal/lsp/check.go:466-474 | Some descending permutation, all that callers may rely on |
| TextEdits.RemoveOverlaps | internal/lsp/check.go:476-487 | The compaction within the shared backing array equals the greedy scan on the original contents |
| TextEdits.SpliceEdit | internal/lsp/check.go:491-517 | One iteration of the splice loop on any lines and edit, with the index error of a column past the end of its line |
| TextEdits.SpliceText | internal/lsp/check.go:506-516 | Splicing lines is splicing the text between two offsets |
| TextEdits.WeaveOneMore | internal/lsp/check.go:489-517 | Simultaneous application grows by one splice when edits come from the bottom up |
| TextEdits.SpliceAll | internal/lsp/check.go:491-519 | The loop is the splices one after another, on the lines as they are by then, up to the first index error |
| TextEdits.Composes | internal/lsp/check.go:489-519 | With no late edit past the last line, splicing one after another is applying at once |
| TextEdits.TailsDecide | internal/lsp/check.go:497-504 | For every list of placed edits: the loop is simultaneous application whatever the new texts exactly when no edit after the first ends past the last line |
| TextEdits.StopsExactly | internal/lsp/check.go:506-507 | While no later edit ends past the last character: the index error comes exactly when some kept edit has a column past the end of its line |
| TextEdits.LateEnds | internal/lsp/check.go:497-504 | For placed edits, reaching past the last character is reaching past the last line |
| TextEdits.ApplyTextEdits | internal/lsp/check.go:461-520 | For any request: the loop's outcome on the edits kept from a descending order; for an applicable one that is the simultaneous application of those edits |
| TextEdits.KeptIsMaximum | internal/lsp/check.go:476-487 | With distinct starts no pairwise non-overlapping selection is larger than what is kept |
| TextEdits.KeptAreApart | internal/lsp/check.go:476-487 | The kept edits are pairwise non-overlapping |
| TextEdits.DescendingOrderIsUnique | internal/lsp/check.go:466-474 | Distinct starts leave one descending order |
| TextEdits.ArrivalOrderIrrelevant | internal/lsp/check.go:461-520 | The result does not depend on the order of arrival or on the sort |
| TextEdits.OrderMatters | internal/lsp/check.go:466-487 | For any request: all orders a sort may leave keep the same edits exactly when the scan never chooses between different edits with one start |
| TextEdits.NoChoiceOneResult | internal/lsp/check.go:461-520 | Such a request has one result |
| TextEdits.TwoEqualStarts | internal/lsp/check.go:476-487 | Two edits with one start: the lists kept agree only for equal edits, what is kept moreover for two insertions |
| TextEdits.EqualStartsDependOnOrder | internal/lsp/check.go:461-520 | A request with two different results |
| TextEdits.TailEditsShift | internal/lsp/check.go:497-504 | A request with distinct starts, in its only order and with both edits kept: the text of the loop and the different one of simultaneous application |
| TextEdits.OffsetMeaning | internal/lsp/check.go:489-507 | A line and column name the byte with that many newlines before it |
| Lines.JoinSplit | internal/lsp/check.go:489-519 | Joining the split lines gives the text back |
| Connection.JsonRpcConn.TakeNumber | internal/lsp/jsonrpc.go:79-80 | Fresh numbers from 1 on |
| Connection.JsonRpcConn.Register | internal/lsp/jsonrpc.go:82-85 | One fresh channel of capacity one under the number |
| Connection.JsonRpcConn.Forget | internal/lsp/jsonrpc.go:87-90 | Removes one entry, leaves channels alone |
| Connection.JsonRpcConn.Take | internal/lsp/jsonrpc.go:64-69 | Hands out the channel and removes the entry in one critical section |
| Connection.JsonRpcConn.Deliver | internal/lsp/jsonrpc.go:70-72 | Sends to the channel taken earlier, without the lock |
| Connection.JsonRpcConn.Receive | internal/lsp/jsonrpc.go:94-97 | A buffered message, or the close |
| Connection.JsonRpcConn.CloseAllPending | internal/lsp/jsonrpc.go:51-59 | Closing and deleting while ranging closes exactly the pending channels, each once |
| Connection.StepKeepsInv | internal/lsp/jsonrpc.go:44-112 | Every step of callers and reader keeps the invariant |
| Connection.RunKeepsInv | internal/lsp/jsonrpc.go:44-112 | So does every interleaving |
| Connection.AnswersBelongToTheirCalls | internal/lsp/jsonrpc.go:79-112 | Numbers are distinct, a call returns only a received message with its number, a channel sees one send or one close |
| Connection.OthersPassBy | internal/lsp/jsonrpc.go:62-73 | A request or notification of the peer, or an answer nobody waits for, changes nothing, whatever number it carries |
| Connection.CallStarts | internal/lsp/jsonrpc.go:76-93 | A new call takes the next number, has a fresh channel in the table under it, and waits once its frame is written |
| Connection.WriteFails | internal/lsp/jsonrpc.go:87-93 | A failed write ends it and removes its entry, nothing else |
| Connection.ContextEnds | internal/lsp/jsonrpc.go:95-112 | So does its context while it waits |
| Connection.CloseEnds | internal/lsp/jsonrpc.go:95-105 | A close of its channel ends it with that news |
| Connection.OnlyWaitingCallsEnd | internal/lsp/jsonrpc.go:95-112 | Nothing else ends a call, and a returned call stays as it is |
| Connection.StoppedForGood | internal/lsp/jsonrpc.go:44-60 | Both ways of leaving stop the reader for good, over every interleaving |
| Connection.ReaderNeverBlocks | internal/lsp/jsonrpc.go:44-77 | The reader's send finds room on an open channel; its closing loop closes no channel twice |
| Connection.ResponseReachesItsCall | internal/lsp/jsonrpc.go:62-73 | A response to a waiting call in the table is returned by that call |
| Connection.AfterStopOnlyTheContextEndsACall | internal/lsp/jsonrpc.go:44-61 | After the reader has stopped, a call in the table never sees an answer or a close |
| Connection.WhoIsAbandoned | internal/lsp/jsonrpc.go:44-60 | In any run, once the reader has stopped: a waiting call is abandoned exactly when the table leads to it, and any other can receive |
| Connection.RegisteredTooLate | internal/lsp/jsonrpc.go:79-85 | A request entering the table after the stop is abandoned at once |
| Connection.LateRequestEndsOnItsOwn | internal/lsp/jsonrpc.go:79-112 | And so it stays, whatever follows |
| Connection.LateRequestExists | internal/lsp/jsonrpc.go:44-85 | The shortest run with such a request |
| Connection.TwoWaysToStop | internal/lsp/jsonrpc.go:46-60 | A read error wakes every outstanding call, the context check abandons them |
| Framing.Reader.ReadLine | internal/lsp/jsonrpc.go:150-153 | The bytes up to and with the next line feed; an unfinished line is consumed |
| Framing.Reader.ReadMessage | internal/lsp/jsonrpc.go:146-185 | The loop over header lines equals the recursive reading, outcome and remaining bytes |
| Framing.ReadFrameWithHeaders | internal/lsp/jsonrpc.go:146-185 | A frame is read whole whatever its body and what follows, with other headers around the length |
| Framing.ReadFrame | internal/lsp/jsonrpc.go:118-185 | What is sent is read back, the rest untouched |
| Framing.WrittenOut | internal/lsp/jsonrpc.go:138-177 | A message as the peer writes it, the header spelled out |
| Framing.BadLength | internal/lsp/jsonrpc.go:160-166 | A length that is no number ends the reading behind its line |
| Framing.NoLength | internal/lsp/jsonrpc.go:168-170 | Headers without a length are a missing length |
| Framing.NegativeIsNone | internal/lsp/jsonrpc.go:168-170 | So is a negative one |
| Framing.ReadAllOfStream | internal/lsp/jsonrpc.go:118-185 | A stream of frames yields exactly the bodies, in order |
| Framing.CutFrame | internal/lsp/jsonrpc.go:149-177 | A frame cut short yields an error, never a body |
| Framing.ReadAllOfCutStream | internal/lsp/jsonrpc.go:146-185 | A stream cut at any byte yields a prefix of the bodies |
| Decimals.ValueOfDecimal | internal/lsp/jsonrpc.go:138 | A printed number denotes itself |
| Decimals.AtoiOfDecimal | internal/lsp/jsonrpc.go:161-165 | A printed length parses back |
| Decimals.AtoiOfSigned | internal/lsp/jsonrpc.go:161-165 | Parsing a printed number with or without a sign, and where the range ends |
| Tunnels.Host.CloseControlMaster | internal/ssh/tunnel.go:267-280 | Ends the master at a socket path; a missing socket file is no failure |
| Tunnels.Host.CloseExisting | internal/ssh/tunnel.go:101-121 | The tunnel about to be replaced has no master left, others are untouched; fails exactly when its recorded socket file is there without a master |
| Tunnels.Host.StartAndRecord | internal/ssh/tunnel.go:174-225 | A master is live and recorded, or, on any failure, neither |
| Tunnels.Host.ClearSocket | internal/ssh/tunnel.go:174-175 | Removing what lies at the new socket path cuts off no master |
| Tunnels.ChooseScheme | internal/ssh/tunnel.go:107-113 | The requested scheme, else that of the tunnel replaced, else http |
| Tunnels.ChoosePort | internal/ssh/tunnel.go:123-144 | The requested port, else that of the tunnel replaced if it is free, else a new one; fails exactly when a new one is needed and cannot be had |
| Tunnels.AcceptableMeans | internal/ssh/tunnel.go:83-113 | What a request must meet to be accepted, with and without a scheme of its own |
| Tunnels.Host.Open | internal/ssh/tunnel.go:83-226 | Keeps the invariant, other tunnels and their state files; exactly when it succeeds; then the master is live, and the state file says which port, scheme and socket |
| Tunnels.Host.Close | internal/ssh/tunnel.go:228-265 | Keeps the invariant and other tunnels; exactly when it succeeds; then neither master nor state is left |
| Tunnels.Host.CloseAll | internal/ssh/tunnel.go:282-320 | Ends masters of the run in that directory only and touches no other state file; succeeds exactly when each of its tunnels can be closed, and then leaves no master of the run |
| Tunnels.Host.ClosingMeans | internal/ssh/tunnel.go:101-121 | When a tunnel can be replaced and closed, in terms of its socket |
| Tunnels.Host.MasterDies | internal/ssh/tunnel.go:267-280 | The invariant allows masters to die at any time |
| Tunnels.Host.OneMasterPerSlot | internal/ssh/tunnel.go:83-226 | At most one live master per directory, run and key, in every reachable state |
| Tunnels.Host.SocketOwner | internal/ssh/tunnel.go:83-226 | A state file's socket serves the tunnel the file describes |
| Tunnels.Host.SocketIsFree | internal/ssh/tunnel.go:83-226 | A tunnel without a master finds its socket path unused |
| Tunnels.RecordNewMaster | internal/ssh/tunnel.go:205-223 | Writing the state of a new master keeps every other master recorded |
| Tunnels.SocketPathsDiffer | internal/ssh/tunnel.go:174 | Different names give different socket paths, whatever the temporary directory |
| Tunnels.SocketsDiffer | internal/ssh/tunnel.go:174 | State files of different tunnels name different sockets |
| Tunnels.ExampleHashIsGood | internal/ssh/tunnel.go:94-95 | A hash into sixteen hexadecimal digits that meets the assumption |
| Tunnels.OpenTwoCloseOne | internal/ssh/tunnel.go:83-265 | From an empty machine, two tunnels open and one closes: the other is live and recorded |
| Tunnels.ExampleHost | internal/ssh/tunnel.go:83-265 | The same with the example hash: the invariant has machines with a live master |
| Tunnels.LeftoverSocket | internal/ssh/tunnel.go:267-280 | A run in which a master dies and leaves its socket file: its tunnel can be neither reopened nor closed, whatever else works |
| Dotenv.StatementStart | internal/dotenv/parser.go:52-70 | What it returns is not empty and starts with neither white space nor a comment |
| Dotenv.StatementStartSkips | internal/dotenv/parser.go:52-70 | It is a suffix, only white space and comments come before it, and there is none exactly when the whole text is such |
| Dotenv.StatementProgress | internal/dotenv/parser.go:73-119 | The separator is consumed, or what is left starts with a character of a value |
| Dotenv.ExtractVarValue | internal/dotenv/parser.go:122-192 | What is left is a suffix, and a shorter one when the input starts with a value character |
| DotenvValues.UnquotedValue | internal/dotenv/parser.go:122-159 | An unquoted value is its line without the last comment and the blanks around it, references replaced; the line end is left |
| DotenvValues.PlainValue | internal/dotenv/parser.go:122-159 | Without a dollar sign it is taken as written |
| DotenvValues.SingleQuotedValue | internal/dotenv/parser.go:162-184 | A single-quoted value is taken verbatim exactly when every quote in it has a backslash before it and it ends in neither |
| DotenvValues.ReferenceIsReplaced | internal/dotenv/parser.go:259-273 | `$NAME` and `${NAME}`, also with one brace missing, become the binding or nothing |
| DotenvValues.EscapedReferenceStays | internal/dotenv/parser.go:259-265 | Behind a backslash a reference stays and the backslash goes |
| DotenvValues.LoneDollar | internal/dotenv/parser.go:259-273 | A dollar sign before anything else stays |
| DotenvValues.TextBefore | internal/dotenv/parser.go:259-273 | Text before a dollar sign stays |
| DotenvValues.NameIsRead | internal/dotenv/parser.go:73-119 | The name between an optional `export` and an equals sign or a colon, with any blanks |
| DotenvValues.UnexpectedInName | internal/dotenv/parser.go:94-107 | Any other character after a name is an error |
| DotenvValues.LineIsRead | internal/dotenv/parser.go:22-47 | A line read to its end binds its name for the lines after it |
| DotenvValues.UnquotedLine | internal/dotenv/parser.go:22-159 | The same for an unquoted value with blanks and a comment |
| DotenvValues.SingleQuotedLine | internal/dotenv/parser.go:22-184 | And for a single-quoted one |
| DotenvValues.NameAlone | internal/dotenv/parser.go:73-119 | A last line without a separator binds the empty name to its text |
| DotenvValues.LineEndsAreOne | internal/dotenv/parser.go:23 | A carriage return and a line feed count as one line end |
| DotenvValues.LoneReturnStays | internal/dotenv/parser.go:23 | A carriage return alone stays |
| DotenvValues.ExportAlone | internal/dotenv/parser.go:75-113 | `export` with nothing behind it is an error |
| DotenvValues.ErrorsEnd | internal/dotenv/parser.go:32-40 | An error ends the parsing and is the one returned |
| DotenvValues.NameCharacters | internal/dotenv/parser.go:94-107 | The characters of names, written out |
| Dotenv.Statement | internal/dotenv/parser.go:25-44 | Each statement leaves a strictly shorter rest, so parsing terminates |
| Dotenv.ParseBytes | internal/dotenv/parser.go:22-47 | The loop equals the recursive reading of all statements |
| Dotenv.ValueRoundTrip | internal/dotenv/parser.go:194-273 | The passes over escapes and variables together undo the escaping, for every value |
| Dotenv.ParseUndoesPrint | internal/dotenv/parser.go:22-207 | Parsing undoes printing for any list of bindings, the last of a name winning |
| Dotenv.OneBindingRoundTrip | internal/dotenv/parser.go:122-192 | One binding survives exactly when its value ends in neither a backslash nor a double quote |
| Dotenv.FinalQuoteLost | internal/dotenv/parser.go:162-183 | What a value with a final quote is read as |
| Dotenv.FinalBackslashUnterminated | internal/dotenv/parser.go:162-191 | A value with a final backslash is an unterminated one |
| Dotenv.ThirdPass | internal/dotenv/parser.go:259-273 | Variable expansion removes the escapes of dollar signs and expands nothing else |
| Dotenv.DollarParen | internal/dotenv/parser.go:259-273 | For all texts: what `$(` and what follows expand to |
| Dotenv.DollarParenStays | internal/dotenv/parser.go:266-268 | When `$(` stays, and when it loses its dollar sign as the branch would have it |
| Dotenv.CommandSubstitutionIsExpanded | internal/dotenv/parser.go:266-270 | `$(A)` becomes the value of A and a parenthesis |
| ShellQuoting.RunEscaped | internal/cli/service_sandbox.go:2656-2658 | Inside single quotes the escaped text reads back as the text |
| ShellQuoting.QuotingRoundTrip | internal/cli/service_sandbox.go:2656-2658 | Word splitting of the quoted arguments gives back exactly the argument list |
| ShellQuoting.OuterShellPassesScript | internal/cli/service_sandbox.go:2474-2476 | The outer shell sees three words, the last the whole script |
| ShellQuoting.ArgumentsSurviveBothShells | internal/cli/service_sandbox.go:2474-2476 | Through both quoting levels the inner shell's last command has exactly the arguments given |
| ShellQuoting.ArgumentsSurviveBefore | internal/cli/service_sandbox.go:2561-2584 | The same for scripts that go on after the arguments: the tokens are those of the way to the root, the command with its arguments, and the rest |
| ShellQuoting.OperatorFirst | internal/cli/service_sandbox.go:2572 | A rest that starts with an operator ends the command there |
| ShellQuoting.SimpleRest | internal/cli/service_sandbox.go:2572 | A rest without quotes and expansions leaves no quote open |
| ArtifactDirs.SafePathComponent | internal/cli/service_download_output.go:57-64 | Always one ordinary path component |
| ArtifactDirs.CleanNameIsKept | internal/cli/service_download_output.go:57-64 | A name that needs no cleaning is kept |
| ArtifactDirs.NumberedName | internal/cli/service_artifacts.go:587 | A key with nothing but spaces and dots becomes "artifact-" and the number of the request |
| ArtifactDirs.ReplaceSeparators | internal/cli/service_download_output.go:58 | Both separators become underscores, everything else stays |
| ArtifactDirs.NextFreeName | internal/cli/service_artifacts.go:598-611 | The search loop ends at the least free suffix |
| ArtifactDirs.ResumedSearch | internal/cli/service_artifacts.go:598-611 | Resuming at a memoised suffix finds what a fresh search finds |
| ArtifactDirs.ChooseName | internal/cli/service_artifacts.go:595-613 | Each name is the one a fresh search would give, and the memo stays sound |
| ArtifactDirs.ArtifactOutputDirs | internal/cli/service_artifacts.go:583-623 | The memoised loops equal the allocation with fresh searches; an unusable directory is the only failure |
| ArtifactDirs.UsedMeansRepeated | internal/cli/service_artifacts.go:586-597 | A generated name is never a base name |
| ArtifactDirs.NameOf | internal/cli/service_artifacts.go:595-613 | First occurrences keep their name; a repeated one gets the least suffix from 2 that collides with nothing |
| ArtifactDirs.SecondGetsTwo | internal/cli/service_artifacts.go:598-611 | The first repetition of a name gets "-2" |
| ArtifactDirs.NamesAreDistinct | internal/cli/service_artifacts.go:583-623 | All names are distinct |
| ArtifactDirs.DirsAreDistinct | internal/cli/service_artifacts.go:615-619 | So are all directories |
| ArtifactDirs.CleanKeysNameDirs | internal/cli/service_artifacts.go:583-623 | A request whose key is clean and not used before gets the directory named after its key |
| ArtifactDirs.DotsGetTheirNumber | internal/cli/service_artifacts.go:587 | A key of dots gets the number of its own request |
| ArtifactDirs.NamesAreComponents | internal/cli/service_artifacts.go:583-623 | Every directory is an immediate child of the collection directory |
| YamlSplice.LineStartOffsets | internal/cli/yaml.go:453-461 | The offset of every line of the split text; a final newline starts none |
| YamlSplice.LineCountMeans | internal/cli/yaml.go:453-461 | How many lines a text has; a final newline starts none |
| YamlSplice.PreviousLine | internal/cli/yaml.go:208-215 | Scanning back from a line start finds the start and the text of the line before |
| YamlSplice.CommentMeans | internal/cli/yaml.go:208-222 | A comment line is white space, a number sign and any text |
| YamlSplice.TopOfComments | internal/cli/yaml.go:205-222 | The comment block above a line, whole |
| YamlSplice.InsertBefore | internal/cli/yaml.go:196-230 | A splice at the start of that block: as text and as lines |
| YamlSplice.SecondInsertionLandsBelow | internal/cli/yaml.go:203-230 | The block stays with its key: a later insertion lands below the first one and above the block |
| YamlSplice.LeadIsWhole | internal/cli/yaml.go:331-343 | The lead of a line: only blank and comment lines, and none left above it, down to a floor |
| YamlSplice.LeadStart | internal/cli/yaml.go:330-344 | The backward scan finds that lead |
| YamlSplice.ReplaceRootField | internal/cli/yaml.go:311-366 | A splice from the key's line to the lead of the next key, or to the end: as text and as lines |
| YamlSplice.NextKeyIsNearest | internal/cli/yaml.go:326-347 | In a document in order, the next key is the nearest one below |
| YamlSplice.OtherKeysSurvive | internal/cli/yaml.go:318-366 | Every other root key survives with the lines that lead it |
| YamlSplice.LastReplacementWins | internal/cli/yaml.go:287-367 | Replacing twice equals replacing once, exactly unless the first text ends in a blank or comment line before another key |
| YamlSplice.FirstTextLeavesALine | internal/cli/yaml.go:331-346 | A document and two texts for which it does not |
| YamlSplice.CommentStays | internal/cli/yaml.go:331-346 | A comment above the next key stays with it |
| ShareDuration.FloatStringIsExact | internal/cli/service_apps.go:75-78 | Printing with at least as many decimals as the denominator's power of ten does not round |
| ShareDuration.FloatStringIsNearest | internal/cli/service_apps.go:75-78 | Whatever the fraction, the nearest multiple of a unit in the last place is printed |
| ShareDuration.DaysAsHours | internal/cli/service_apps.go:74-79 | The printed hours denote exactly the time of the days |
| ShareDuration.AppendPart | internal/cli/service_apps.go:69-84 | Text written part by part reads back as those parts |
| ShareDuration.NormaliseDuration | internal/cli/service_apps.go:59-86 | An invalid text is refused, and only that; the result has no days and denotes exactly the same time |
| ShareDuration.TimeAdds | internal/cli/service_apps.go:54-84 | One more part adds its number times its unit to the time |
| ShareDuration.SignsTurn | internal/cli/service_apps.go:65-68 | A sign turns the time round or does nothing |
| ShareDuration.Units | internal/cli/service_apps.go:54 | Each unit in terms of the next smaller one |

## Left out

- Git itself: file modes, renames, binary patches, submodules, LFS, shallow clones and the jj backend. A patch is its
  exact pre- and post-images; a path is never both a file and a directory; what is ignored is a fixed predicate. The fetch
  that precedes a checkout is part of it.
- SandboxSync.PullChangesFromSandbox: a refused patch is retried hunk by hunk with `--reject`; the model only says that the
  worktree is then arbitrary, because hunks are not part of a patch here. The files it reports are the paths of the patch; the code cuts
  them out of the patch's header lines at blanks, so it reports a path with a blank in it wrongly.
- SandboxSync.GenerateDirtyPatches: a file marked intent-to-add by the user and missing on disk is not told apart from an untracked one.
- SandboxSync.SyncLocalChangesToSandbox: setup files of a new sandbox, the metrics and the telemetry are left out.
- SandboxSync.ResetSandbox: the LFS check between checkout and clean is left out, as are LFS changes that make GenerateDirtyPatches return early.
- SandboxStorage.LoadSandboxStorage: an unreadable or malformed file is left out. Most commands end with an error then; resolving a sandbox and
  starting one only print a warning, and the former goes on with an empty store.
- SandboxLock.RunsAreBounded: covers named branches and version-1 stores whose keys and session fields agree; loads and saves succeed. A run whose
  creator crashes before its first save is recorded nowhere and counted as lost.
- SessionKeys.OldKeyMigratesToItsParts: `filepath.Join` is modelled for absolute working directories on a system with "/" as separator.
- SandboxList.ListSandboxes: a failing list request, which ends the command, printing, and closing the tunnels of expired sessions.
- TextEdits.ApplyTextEdits: columns are byte columns, as in the code; the protocol counts UTF-16 units. Lines and columns are not negative. Several
  insertions at one position come out in the order the sort leaves them in.
- Connection.JsonRpcConn.TakeNumber: the counter does not wrap at 64 bits.
- Framing.Reader.ReadMessage: decoding the JSON body is left out; a length past 64 bits is an invalid length.
- Tunnels.Host.Open: the ssh handshake, key files, port probing and readiness; the directory hash is taken to tell the tunnels in use apart, state files to be
  written by this program only, and ssh to end a live master when asked to.
- Dotenv.ParseBytes: the input is valid UTF-8, and letters and digits of names are the ASCII ones.
- ShellQuoting.ArgumentsSurviveBothShells: the token recognition and quote removal of sections 2.2 and 2.3 of the POSIX.1-2017 Shell Command Language, as far as the
  generated scripts use them; expansions are marked, not carried out.
- ArtifactDirs.ArtifactOutputDirs: creating and emptying the directories is a parameter.
- YamlSplice.InsertBefore: parsing, path lookup and printing of YAML; line numbers and the printed value are inputs. Multi-byte characters count as one.
- YamlSplice.ReplaceRootField: without a next root key everything below the field goes, trailing comments included, as in the code.
- ShareDuration.NormaliseDuration: time.ParseDuration, which receives the result, with its range check and its rounding to nanoseconds.
- HTTP calls, authentication, telemetry, prompts and output formatting, which would only add easy members.
