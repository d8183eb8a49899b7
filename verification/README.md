# Mystra verification

A Dafny 4.11 model of the parts of Mystra whose correctness is hardest to see from one body: the
publication of Workflow Skills on disk, the Session protocol between the Runtime that produces events
and the projection that consumes them, the reconnecting event subscription, the preparation of Task
Workspaces, and four supporting algorithms. `dafny verify dfyconfig.toml` checks everything.

## What is modelled

- **Skill publication** (`SkillPublication.dfy`, `SkillMaterializer.dfy`, `ArchiveMatching.dfy`,
  `ArchiveRules.dfy`, `SharedSkill.dfy`). A `Disk` holds the Skill paths, the backups, the staged trees, the installed
  manifest and its temporary file as mutable maps. Every step on it may succeed, throw, or be the last thing the process does, and
  a throwing recursive removal may leave a torn tree. `faults` counts the steps that threw although a
  sound file system would have done them, `missed` lists the backups a look for which threw, and
  `replaced` counts the renames that took the place of a backup, which a file system may refuse. A run
  is proved against `Committed`, the state a publication means, and `Disturbed`, what it may touch before
  its commit. `Undo` is the rollback as a function; the loop invariant of every forward step is that
  undoing what was published so far gives back the start. ZIP files reach the model as entry lists.
- **Session protocol** (`SessionProtocol.dfy`). `Apply` is `applySessionEventProjection` over 29 event
  kinds and 9 states, `AllowedTargets` the independent table of `state.ts`. Everything else is about
  runs of events.
- **Session worker** (`SessionWorker.dfy`, `ThreadScan.dfy`). The class `Worker` is
  `executeSessionAssignment` with its `sequence`, `responseStarted` and `codexOutput`. `Script` says what
  it must append; the numbering is proved from the counter and the hard-coded numbers. A `Reader` stands
  for `JSON.parse` and the record checks of one line.
- **Event subscription** (`EventsClient.dfy`, `ControlLines.dfy`). `Subscription` has the client's
  fields; around it the model keeps the pending timers, the number of sockets opened and the sockets told
  to close. Any enabled timer or socket event may come next, events of old sockets included.
- **Task Workspaces** (`WorkspaceAttempts.dfy`). A `Host` maps directory names to directories; a commit
  is the value of its whole history, as its hash is in Git. Steps succeed, throw or die as above.
- **Supporting algorithms**: merging windows of the event log (`EventMerge.dfy`), the prompt escape and
  the JSON string decoder of section 7 of RFC 8259 (`PromptEscape.dfy`), and the manifest order check
  (`ManifestOrder.dfy`). `Utf16.dfy` and `Common.dfy` are shared.

## What the code does that its readers may not expect

- All-or-nothing needs distinct Skills, and the assignment schema does not ask for them. If one Skill
  is assigned twice, the run always fails. When staging refuses it, with that refusal's code, nothing has
  changed; this is the usual end, because both archives are extracted into one directory and any path they
  share, such as the SKILL.md every uploaded Skill holds
  (apps/control-plane/src/lib/skills/skill-zip-validator.ts:351), cannot be created twice. If no file of
  one stands in the way of the other's, staging succeeds, the second swap fails with `publish_failed`, and a
  fault-free rollback leaves exactly `Leftover`. When no rename replaces the taken backup, that is the start if and only if not
  (the path of the Skill's first entry is taken when its turn comes, and the path of its second is free);
  otherwise the tree of the first path ends up at the second (`LeftoverIsStart`, `AfterRefusal`).
  `SharedSkillRun` is such a run.
- All-or-nothing also needs the look for a backup after a swap to succeed
  (packages/agent-cli/src/workflow-materializer.ts:73). If that `lstat` throws, the finished swap is not
  recorded, and its tree stays unless an earlier entry has the same path. `Rescued` says so for the entry
  whose backup was looked for.
- `child` refuses any name that starts with two dots, not only a way out of the root
  (packages/agent-cli/src/workflow-materializer.ts:219); `ChildOfCheckedName` states it.
- `session.response_started` may take a session from `dispatched` to `running`, an edge the transition
  table does not list (`ShortcutIsTwoEdges`); and a handoff taken from `interrupted` carries the stale
  interruption fields into `ready`, so `Shape` leaves them free there.
- A stdout chunk that arrives after the provider process settled, and completes a thread record nobody
  has announced, is published after the closing event and is rejected (`ProducerMeetsConsumer`,
  `LateChunkExample`).
- The announced thread id can differ from the adapter's, for a line that starts with a whole record and
  goes on (`FalseStartExample`), or when a long chunk pushes the record out of the observed window
  (`PushedOutExample`); `ChunkingIsInvisible` says exactly when it cannot.
- `stop()` called from a diagnostic callback while a reconnect is being scheduled leaves a stopped
  client with an armed timer; it opens no socket when it fires (`ArmedAfterStopIff`,
  `StoppedButArmedExample`, `NothingOpensAfterStop`).
- A Workspace attempt whose report does not validate fails after the directory has been published
  (apps/runner-daemon/src/workspace-materializer.ts:167-178); `Materialize` says when a directory is
  published, whether or not the report validates.

## Model

| member | source | states |
|---|---|---|
| SkillMaterializer.MaterializeWorkflowSkills | packages/agent-cli/src/workflow-materializer.ts:28-116 | success commits exactly the assignment and vouches for the schema, the Workspace, distinct Skills and every archive: delivered, at most 20,971,520 bytes long, with the revision's digest, unpacking to its manifest; any other end leaves the old manifest and every path outside the assignment's, unless the process died after the commit; one throwing step with distinct Skills changes nothing, unless it was the look for a swap's backup, and then exactly what `Rescued` says; with no throwing step the outcome and its code are determined, the first archive that is not delivered is refused with its own code and no change, staging is gone, and a repeated Skill leaves exactly `Leftover` |
| SkillMaterializer.Publish | packages/agent-cli/src/workflow-materializer.ts:49-96 | at every failure of one step, undoing the published list gives back the paths as they were, or exactly what an unrecorded swap leaves; with no throwing step, a refused staging has changed nothing and a repeated Skill leaves exactly `Leftover` |
| SkillMaterializer.SwapAll | packages/agent-cli/src/workflow-materializer.ts:62-74 | if all swaps go through, the Skills are distinct, the staged trees are in place and undoing them restores paths and backups; a failure by one throwing step or by a repeated Skill leaves exactly the stated paths |
| SkillMaterializer.SwapOne | packages/agent-cli/src/workflow-materializer.ts:63-73 | a failed swap with a fresh backup name leaves paths and backups as they were, unless the look for its backup failed, which is recorded, and then the swap has happened; a swap of a Skill that is no longer staged leaves exactly `AfterRepeat` |
| SkillMaterializer.Handle | packages/agent-cli/src/workflow-materializer.ts:69-72 | without a further fault the handler puts a backup of that name back at the path, which undoes the swap's first half if the name was fresh |
| SkillMaterializer.StageRemovals | packages/agent-cli/src/workflow-materializer.ts:76-106 | exactly the stale and listed paths that are not desired go, and at every exit undoing still gives the same start |
| SkillMaterializer.Commit | packages/agent-cli/src/workflow-materializer.ts:86-93 | whatever happens the installed manifest is the old one or the new one, and a thrown error means the old one |
| SkillMaterializer.RollBack | packages/agent-cli/src/workflow-materializer.ts:107-112 | without faults it restores what undoing from the last item gives; always only published paths change |
| SkillMaterializer.ExtractExactManifest | packages/agent-cli/src/workflow-materializer.ts:127-176 | what is staged, or the code of the refusal, is what the archive and the manifest determine; a failing step reads as an unsafe archive |
| SkillMaterializer.ListFiles | packages/agent-cli/src/workflow-materializer.ts:131-140 | the loop over entries succeeds exactly when each is acceptable and then lists the regular files in order |
| SkillMaterializer.StagedTreesAreExact | packages/agent-cli/src/workflow-materializer.ts:51-60 | with distinct Skills staging succeeds exactly when each archive is delivered with the right length and digest and by itself unpacks to its manifest; each staged tree is then its manifest's |
| SkillMaterializer.FetchIsExact | packages/agent-cli/src/workflow-materializer.ts:52-59 | an archive is unpacked exactly when it was delivered, is within the bound and has the digest; otherwise each of the three has its own code |
| SkillMaterializer.FirstUndelivered | packages/agent-cli/src/workflow-materializer.ts:51-60 | the first archive that is not delivered decides the refusal of the staging |
| SkillMaterializer.ObjectionIsExact | packages/agent-cli/src/workflow-materializer.ts:33-48 | the objections before staging, their order and codes, by the schema's numbers, the marker, the directories and the manifest |
| SkillMaterializer.SuccessIsVetted | packages/agent-cli/src/workflow-materializer.ts:33-74 | without objection and refusal is exactly: schema met, own Workspace, safe directories, readable manifest, distinct Skills and every archive accepted |
| SkillPublication.SkillPathIsNamed | packages/shared/src/workflow.ts:158-170 | a Skill path is the skills folder followed by 36 hexadecimal digits and dashes |
| SkillPublication.CommittedIsExactAndFramed | packages/agent-cli/src/workflow-materializer.ts:62-106 | after a publication each path holds its last entry's verified tree, each retired path is gone, all others are unchanged, and the manifest lists the entries in order, field by field |
| SkillPublication.DisturbanceIsRepaired | packages/agent-cli/src/workflow-materializer.ts:45-96 | a complete run gives the same result from any state a stopped run may leave before its commit |
| SkillPublication.CommittingTwiceIsOnce | packages/agent-cli/src/workflow-materializer.ts:48-93 | publishing the same assignment again changes nothing |
| SkillPublication.CrashesConverge | packages/agent-cli/src/workflow-materializer.ts:45-96 | after any number of runs stopped or failed at any step, one complete run gives what an uninterrupted first run gives |
| SkillPublication.ManifestTellsTheTruth | packages/agent-cli/src/workflow-materializer.ts:76-106 | across any sequence of published and rolled-back runs every installed path is on disk, with the last published assignment's tree |
| SkillPublication.SwapIsUndone | packages/agent-cli/src/workflow-materializer.ts:66-73 | undoing a swap with a fresh backup restores the paths and the backups exactly |
| SkillPublication.RemovalIsUndone | packages/agent-cli/src/workflow-materializer.ts:98-106 | undoing a removal restores the paths and the backups exactly |
| SkillPublication.UnrecordedSwap | packages/agent-cli/src/workflow-materializer.ts:107-111 | a swap missing from the list survives the rollback exactly when no earlier item has its path |
| SkillPublication.LeftoverIsStart | packages/agent-cli/src/workflow-materializer.ts:62-74 | after a repeated Skill and a fault-free rollback the paths are the old ones exactly when not (the first path is taken and the second free), and, if the taken backup was replaced, an earlier entry has the first path too |
| SkillPublication.LostBackup | packages/agent-cli/src/workflow-materializer.ts:107-111 | undoing without one of the backups empties its path, unless an earlier item has it |
| SkillMaterializer.RepeatLeaves | packages/agent-cli/src/workflow-materializer.ts:62-74 | undoing the swaps before a repeated Skill, after its own swap has failed, gives exactly `Leftover` |
| SkillMaterializer.UnseenSwap | packages/agent-cli/src/workflow-materializer.ts:73 | undoing all but a swap that was not recorded leaves its tree exactly when no earlier entry has its path |
| SkillMaterializer.MaterializeRepeatedly | packages/agent-cli/src/workflow-materializer.ts:28-116 | after any number of tries of an assignment, failed or dead at any step, a last one that succeeds leaves what one undisturbed run would have |
| SharedSkill.SharedSkillExample | packages/shared/src/workflow.ts:158-170 | an assignment of one Skill to two paths that the schema, the checks and staging accept, with the first path taken and the second free |
| SharedSkill.SharedSkillRun | packages/agent-cli/src/workflow-materializer.ts:28-116 | a fault-free run of it fails with publish_failed, empties the first path and leaves its tree at the second |
| ArchiveMatching.UnpackIsExact | packages/agent-cli/src/workflow-materializer.ts:127-176 | an archive is accepted exactly when its entries are acceptable, its files read as a permutation of the manifest, match it in content, fit the bound and can all be placed; it then leaves exactly the manifest's files |
| ArchiveMatching.MatchingIsExact | packages/agent-cli/src/workflow-materializer.ts:141-146 | the list is accepted exactly when it, or it without one common top folder, is a permutation of the manifest's paths |
| ArchiveMatching.AtMostOneReading | packages/agent-cli/src/workflow-materializer.ts:195-204 | no non-empty path set equals itself under a prefix, so the two readings exclude each other |
| ArchiveMatching.TestsArePermutation | packages/agent-cli/src/workflow-materializer.ts:144-146 | the three length, repetition and membership tests together mean being a permutation |
| ArchiveMatching.ExamineIsExact | packages/agent-cli/src/workflow-materializer.ts:148-169 | the writing loop ends well exactly when every file is the manifest's, the total fits and no file stands in another's way |
| ArchiveMatching.ChildOfCheckedName | packages/agent-cli/src/workflow-materializer.ts:216-221 | a checked name resolves strictly below its root at the segments it spells, unless its first two characters are dots, and then it is refused |
| ArchiveMatching.CheckedNamesDoNotCollide | packages/agent-cli/src/workflow-materializer.ts:216-221 | different checked names resolve to different places |
| ArchiveMatching.SplitJoins | packages/agent-cli/src/workflow-materializer.ts:178-187 | splitting a name at slashes and joining it is the identity, and no segment holds a slash |
| ArchiveRules.JoinSplits | packages/agent-cli/src/workflow-materializer.ts:178-187 | joining slash-free segments and splitting is the identity |
| ArchiveRules.NormalizeIsExact | packages/agent-cli/src/workflow-materializer.ts:178-187 | a name is accepted, unchanged, exactly when it is spelled by clean segments in normal form, without drive letter, backslash or NUL, in at most 1,024 units |
| ArchiveRules.AcceptableIsExact | packages/agent-cli/src/workflow-materializer.ts:132-138 | an entry is acceptable exactly when its bare name is safe, a recorded Unix type fits, it is not encrypted, and a file is stored or deflated |
| ArchiveRules.FilesAreEntries | packages/agent-cli/src/workflow-materializer.ts:131-140 | the listed files are the entries that name no folder, in order, with their contents |
| ArchiveRules.ManifestPaths | packages/agent-cli/src/workflow-materializer.ts:141 | the expected paths are exactly those the manifest names |
| ArchiveRules.ManifestFileOf | packages/agent-cli/src/workflow-materializer.ts:141 | for a path the last manifest entry's size and digest count |
| ArchiveRules.UnpackRefuses | packages/agent-cli/src/workflow-materializer.ts:127-146 | an archive that cannot be opened or has an unacceptable entry is unsafe; one whose files do not read as the manifest is a mismatch |
| ArchiveRules.ExamineComplains | packages/agent-cli/src/workflow-materializer.ts:149-169 | the first bad file decides: a mismatch for content or total, unsafe for its place |
| SessionProtocol.ReachableIffShape | packages/shared/src/session.ts:527-650 | a session is reachable from a fresh one exactly when its nullable fields fit its state |
| SessionProtocol.RunKeepsShape | packages/shared/src/session.ts:527-650 | every accepted run keeps the fields fitting |
| SessionProtocol.RealisedIffTableEdge | packages/shared/src/state.ts:7-27 | the moves reachable sessions make are exactly the table's edges and the one shortcut |
| SessionProtocol.ApplyFollowsTable | packages/shared/src/session.ts:503-650 | an event is accepted exactly in the states listed for its kind, with what it must carry; every accepted event stays, follows an edge or is the shortcut, and only four kinds end a session |
| SessionProtocol.AcceptedIff | packages/shared/src/session.ts:503-650 | exactly which events are accepted where, and the error of a wrong session or state |
| SessionProtocol.AcceptedState | packages/shared/src/session.ts:529-647 | the state each accepted kind leads to |
| SessionProtocol.AcceptedFields | packages/shared/src/session.ts:529-647 | what each accepted kind does to the interruption and failure fields |
| SessionProtocol.CanAlwaysClose | apps/control-plane/src/lib/sessions/session-service.ts:344-354 | every reachable session that has not ended accepts the two events of a close, and is closed |
| SessionProtocol.LaunchLogAccepted | apps/control-plane/src/lib/sessions/session-service.ts:375-393 | the log of a launch is accepted and leaves the first message active |
| SessionProtocol.ShortcutIsTwoEdges | packages/shared/src/session.ts:570-575 | the shortcut gives the session the two-edge path through message_pending gives |
| SessionProtocol.NothingAfterTerminal | packages/shared/src/session.ts:503-650 | no run continues after closed or failed |
| SessionProtocol.ReadyToReady | packages/shared/src/session.ts:548-620 | between two entries to ready a run contains a user message and later a response_started |
| SessionProtocol.MessagesAreConserved | packages/shared/src/session.ts:548-647 | as multisets of ids: submitted = finished + superseded + dropped + active |
| SessionProtocol.MessageCounts | packages/shared/src/session.ts:548-647 | the same balance in numbers, and both recorded ids were submitted in the run |
| SessionProtocol.EachReadyEntryFinishesOne | packages/shared/src/session.ts:596-620 | each entry to ready finishes one message, and the last message is a finished one |
| SessionProtocol.ProjectConcat | packages/shared/src/session.ts:527-650 | projecting a log in two parts is projecting it whole |
| SessionWorker.Worker.Execute | apps/runner-daemon/src/session/session-worker.ts:36-198 | the appended batches are the script's, from one source, numbered 1, 2, ..., n exactly when no late chunk publishes |
| SessionWorker.Worker.PublishResponseStarted | apps/runner-daemon/src/session/session-worker.ts:116-129 | the first call appends one numbered announcement, later calls change nothing |
| SessionWorker.Worker.Observe | apps/runner-daemon/src/session/session-worker.ts:130-141 | over a stretch of chunks the first id found is announced once, and nothing else is appended |
| SessionWorker.Worker.ReportCancellation | apps/runner-daemon/src/session/session-worker.ts:215-230 | two events numbered 1 and 2 by hand |
| SessionWorker.OneClosingEventAndLast | apps/runner-daemon/src/session/session-worker.ts:147-197 | the timely batches hold one closing event, the last; and so do all batches exactly when no late chunk publishes |
| SessionWorker.ProducerMeetsConsumer | apps/runner-daemon/src/session/session-worker.ts:36-198 | the projection accepts every appended event and ends in ready or failed as the closing event says, exactly when no late chunk publishes |
| SessionWorker.ExecutionEnds | apps/runner-daemon/src/session/session-worker.ts:36-198 | by the inputs alone: an accepted execution leaves the session ready exactly when the process ran and was aborted, or was read and exited with 0 (or 124 for Pi); completion exactly at 0; each of the six failures with its own code; one source id |
| SessionWorker.ReplyIsAppended | apps/runner-daemon/src/session/session-worker.ts:176-183 | a reply is appended exactly when the process ran, was read and replied |
| SessionWorker.AnnouncementByInputs | apps/runner-daemon/src/session/session-worker.ts:116-146 | what a resumed, a fresh Copilot or Pi, and a failing execution append first |
| SessionWorker.ScriptForms | apps/runner-daemon/src/session/session-worker.ts:36-198 | every execution is a lone failure, a lone cancellation or one announcement followed by one conclusion |
| SessionWorker.LateLogRejected | apps/runner-daemon/src/session/session-worker.ts:134-139 | a log with an announcement after its closing event is rejected |
| SessionWorker.LateChunkExample | apps/runner-daemon/src/session/session-worker.ts:151-163 | a failed start followed by its first chunk appends an announcement after the failure |
| SessionWorker.AnnouncedIdIsTheAdaptersId | apps/runner-daemon/src/session/session-worker.ts:130-175 | a fresh Codex execution that yields a result announces the id the adapter reads from the capture, however the output was cut, when every window agrees with it |
| ThreadScan.ChunkingIsInvisible | apps/runner-daemon/src/session/session-worker.ts:130-141 | for output of any length, every cut publishes what the adapter finds in the capture, if and only if every 65,536-unit window reads as nothing or that id and the last as that id; for output that fits one window, if and only if no line starts with a different record |
| ThreadScan.PrefixAgrees | packages/agent-adapters/src/session.ts:96-109 | scanning a cut text finds nothing or what the whole text holds |
| ThreadScan.ScanByLines | packages/agent-adapters/src/session.ts:96-109 | the scan line by line: one carriage return dropped, blank lines skipped, the first record taken |
| ThreadScan.WindowIsTheEnd | apps/runner-daemon/src/session/session-worker.ts:136 | a window is all that came before, or its last 65,536 units |
| ThreadScan.DisagreementIsPublished | apps/runner-daemon/src/session/session-worker.ts:134-139 | any window that disagrees has a cut that publishes the wrong id or none |
| ThreadScan.RecordInFirstWindow | apps/runner-daemon/src/session/session-worker.ts:134-139 | for output of any length, a chunk boundary within the first 65,536 units that leaves a readable record is enough, if no line starts falsely |
| ThreadScan.FalseStartExample | apps/runner-daemon/src/session/session-worker.ts:134-139 | a reader, an output and a cut that announce an id the adapter does not find |
| ThreadScan.PushedOutExample | apps/runner-daemon/src/session/session-worker.ts:136 | a reader and one long chunk for which the adapter's id is never announced by the observer |
| ThreadScan.NoRecordInsideALineSuffices | apps/runner-daemon/src/session/session-worker.ts:200-213 | it is enough that no proper prefix of a line is a record |
| ThreadScan.CapturedIsPrefix | apps/runner-daemon/src/session/provider-process.ts:39-42 | the capture is the output, or its first 1,048,576 units |
| EventsClient.Subscription.Handle | packages/agent-cli/src/events-client.ts:181-354 | each handler moves the client and its timers as the transition function says |
| EventsClient.ReconnectSafety | packages/agent-cli/src/events-client.ts:181-354 | at every point of every run: at most one reconnect, never beside a socket, delay in bounds, every other socket told to close, and never stranded without both |
| EventsClient.NothingOpensAfterStop | packages/agent-cli/src/events-client.ts:335-354 | after stop no socket is opened and every socket has been told to close |
| EventsClient.ArmedAfterStopIff | packages/agent-cli/src/events-client.ts:310-328 | a run has a stopped client with an armed reconnect exactly when a callback stopped it while scheduling |
| EventsClient.StepStrandsIff | packages/agent-cli/src/events-client.ts:310-328 | the same for one step from a safe client |
| EventsClient.StoppedButArmedExample | packages/agent-cli/src/events-client.ts:310-328 | a run of two events that ends with a stopped client and an armed reconnect |
| EventsClient.StepKeepsSafe | packages/agent-cli/src/events-client.ts:181-354 | every event, late closes of old sockets included, keeps the invariant |
| EventsClient.DelayIsBounded | packages/agent-cli/src/events-client.ts:316-321 | every delay lies between base and the larger of base and cap, and is the base or the whole number nearest to jitter times the window, which doubles per attempt up to the cap |
| EventsClient.AttemptCountsArmings | packages/agent-cli/src/events-client.ts:248-251 | in every run the attempt count is the number of reconnects armed since the last hello frame or stable reset |
| EventsClient.BackoffDoubles | packages/agent-cli/src/events-client.ts:316-327 | in every run, at full jitter, each further reconnect waits twice as long as the one before, up to the cap |
| EventsClient.FirstDelayIsBase | packages/agent-cli/src/events-client.ts:316-327 | at full jitter the first reconnect after the start or a reset waits the base |
| EventsClient.StopsExactly | packages/agent-cli/src/events-client.ts:192-218 | a client stops exactly on stop(), on 401 or 403, on close codes 4401 or 4403, or by a callback that runs |
| EventsClient.FailureArms | packages/agent-cli/src/events-client.ts:202-227 | every other failure of a running client arms a reconnect, unless one is pending |
| EventsClient.OpensSocket | packages/agent-cli/src/events-client.ts:181-227 | connect and a fired reconnect open one new socket and await its handshake |
| EventsClient.StopCancels | packages/agent-cli/src/events-client.ts:335-354 | stop cancels the timers it knows and gives a live socket its grace period |
| EventsClient.HandshakeEnds | packages/agent-cli/src/events-client.ts:209-246 | a close, a hello frame or the timeout ends the wait for a handshake |
| ControlLines.ControlInput.OnData | packages/agent-cli/src/events-client.ts:129-142 | a chunk delivers the trimmed non-empty lines it completes and keeps the rest, or drops it with a diagnostic over 16 KiB |
| ControlLines.FramingIgnoresChunks | packages/agent-cli/src/events-client.ts:128-148 | no diagnostic exactly when every unfinished line fits, and then the lines and the buffer are those of the whole input |
| ControlLines.LinesRebuildTheText | packages/agent-cli/src/events-client.ts:131-137 | cutting into lines loses nothing and leaves no line feed in a piece |
| ControlLines.TrimKeepsTheCore | packages/agent-cli/src/events-client.ts:133-135 | trimming removes white space at both ends only, and everything exactly when the line is blank |
| ControlLines.ControlsAreFullLines | packages/agent-cli/src/events-client.ts:132-137 | the handled lines are the lines that are not blank, in order, each trimmed |
| ControlLines.Utf8LengthIsSum | packages/agent-cli/src/events-client.ts:138 | the byte length is the sum over the code units, surrogate pairs taking four |
| Utf16.WhitespaceIsListed | packages/agent-cli/src/events-client.ts:133 | the code units trimming removes |
| WorkspaceAttempts.Materialize | apps/runner-daemon/src/workspace-materializer.ts:62-180 | only the attempt's own names change, an existing final directory never does, a new one is complete; a success reports the claim's sequence, reference, base and branch, which are those of the directory's marker and HEAD; with no throwing step the outcome and its code are determined, and a final directory appears exactly when the claim, the name and the remote allow it, even if the report does not validate |
| WorkspaceAttempts.Build | apps/runner-daemon/src/workspace-materializer.ts:105-161 | a built directory has its HEAD at the base on the branch and carries the marker, whatever a checkout hook did |
| WorkspaceAttempts.ResolveReadyWorkspace | apps/runner-daemon/src/workspace-materializer.ts:182-227 | an answer is what the directory's marker and repository determine |
| WorkspaceAttempts.ResolvesIffFrozen | apps/runner-daemon/src/workspace-materializer.ts:188-220 | a reference resolves to a base, a branch and a commit exactly when its directory's marker carries its Workspace, that base and that branch, and its HEAD is that commit on that branch, descending from the base |
| WorkspaceAttempts.NamedIff | apps/runner-daemon/src/workspace-materializer.ts:189 | which references name a Workspace |
| WorkspaceAttempts.DescendsIffLineage | apps/runner-daemon/src/workspace-materializer.ts:208-211 | a commit descends from another exactly when some line of parents, through any of them, leads there |
| WorkspaceAttempts.WorkspaceStaysReady | apps/runner-daemon/src/workspace-materializer.ts:182-227 | through any attempts and commits the reference keeps resolving with the frozen base and a descending commit; attempts alone change nothing |
| WorkspaceAttempts.CreatedAtMostOnce | apps/runner-daemon/src/workspace-materializer.ts:162-167 | a final directory appears at most once, by an attempt for it, complete and untouched |
| WorkspaceAttempts.SuccessesAgree | apps/runner-daemon/src/workspace-materializer.ts:79-101 | all successful attempts for a Workspace report one base and branch: their claims', and those of the marker and the HEAD |
| WorkspaceAttempts.NoSuccessAfterWork | apps/runner-daemon/src/workspace-materializer.ts:79-101 | once a commit was made no attempt succeeds again, since histories have no cycles |
| EventMerge.MergeSessionEvents | apps/control-plane/app/_components/session-presentation.ts:21-25 | one event per id, the last one given, in log order, nothing lost or added |
| EventMerge.LatestIsLast | apps/control-plane/app/_components/session-presentation.ts:22-23 | for each id the last event given counts |
| EventMerge.MergeListsUnion | apps/control-plane/app/_components/session-presentation.ts:21-25 | for windows of one log the merge is the strictly increasing list of all their events |
| EventMerge.ListIsUnique | apps/control-plane/app/_components/session-presentation.ts:21-25 | there is only one such list |
| EventMerge.MergeIsCommutative | apps/control-plane/app/_components/session-presentation.ts:21-25 | the order of two windows does not matter |
| EventMerge.MergeIsAssociative | apps/control-plane/app/_components/session-presentation.ts:21-25 | the grouping of three windows does not matter |
| EventMerge.MergeIsIdempotent | apps/control-plane/app/_components/session-presentation.ts:21-25 | a window already covered changes nothing |
| EventMerge.PagesRebuildTheLog | apps/control-plane/app/_components/session-presentation.ts:21-25 | pages covering a log rebuild it in any order and overlap |
| PromptEscape.PromptSafeTextRoundTrips | packages/shared/src/session.ts:274-279 | decoding the output as a JSON string body gives the original, for every UTF-16 string |
| PromptEscape.PromptSafeTextIsOnePass | packages/shared/src/session.ts:274-279 | the stringification and the three replacements together are one pass that spells each code unit as listed |
| PromptEscape.PromptSafeTextIsInjective | packages/shared/src/session.ts:274-279 | distinct prompts escape differently |
| PromptEscape.PromptSafeTextIsSafe | packages/shared/src/session.ts:274-279 | the output holds no markup character, control character or bare quote |
| PromptEscape.StringifyDecodes | packages/shared/src/session.ts:275 | JSON.stringify without quotes is undone by the decoder, surrogates included |
| PromptEscape.ReplaceAllKeepsMeaning | packages/shared/src/session.ts:276-278 | escaping a markup character in a string body does not change what it means |
| ManifestOrder.Compare | packages/shared/src/skill.ts:77-86 | the inner loop's result has the sign of the lexicographic comparison of the bytes |
| ManifestOrder.CheckManifestOrder | packages/shared/src/skill.ts:76-94 | one issue for each path that does not come after its predecessor, and no other |
| ManifestOrder.NoIssueIffStrictlySorted | packages/shared/src/skill.ts:74-94 | no issue exactly when the whole list is strictly sorted, hence free of repeats |
| ManifestOrder.LessAtDifference | packages/shared/src/skill.ts:79-86 | the order is decided at the first difference, or by length |

## Left out

- SkillMaterializer.MaterializeWorkflowSkills: with two or more throwing steps, or a dying process, only the paths the assignment touches and the manifest are bounded, because the rollback swallows its own failures.
- SharedSkill.SharedSkillRun: its result is stated for runs in which no step throws and the process survives, since every step may do either.
- EventMerge.MergeSessionEvents: does not fix the order of events with equal globalSequence, which a log does not contain.
- SessionWorker.AnnouncedIdIsTheAdaptersId: takes the captured output to be made of the observed chunks, as the process wrapper passes them to both.
- File contents: a file stands for its size and SHA-256, as if digests never collided.
- ZIP inflation, Unicode normalisation and JSON.parse: parameters of the model; an entry that cannot be read counts as a throwing step.
- Symbolic links inside a Workspace, case-insensitive file systems and changes by other processes during a run.
- An installed manifest whose entries are not records, and the temporary manifest file a failed run leaves beside it.
- The zod shape of identifiers, digests and download paths.
- Payload contents, text limits and redaction in Session events; only kinds, ids and sequence numbers are kept. The worker cuts replies at 32,768 characters and the chunk schema allows 16,384, so schema validity of every batch is not claimed.
- Failures of appendEvents, and the claim that leaves a session dispatched with its message active, which is an assumption.
- Request and response pairing, re-subscription, the hello frame's content and the catalog of the subscription client; nothing is guaranteed about delivery there.
- The 16 KiB check and the JSON checks on a single control line, and characters of several bytes cut by a chunk boundary.
- Floating point in the jitter: delays are computed over reals.
- Git itself: clone, fetch and ls-remote are steps with the results the code tests for; credentials, timeouts and output bounds are not modelled.
- Work on a Workspace other than commits on its branch, such as resets or branch switches.
- HTTP routes, persistence, user interface, task status tables and the fixed stage graph.
