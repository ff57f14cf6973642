# net-probe, modelled in Dafny

net-probe is a Panel that creates signed commands and an Agent that executes them, reports and upgrades itself. This
project models the parts of it whose correctness spans many calls, crashes or concurrent actors, and proves what holds
over all of their runs. `dafny verify dfyconfig.toml` checks everything.

**Commands (Bytes, Signing, Executor, ExecutorAnswers, ExecutorRuns, CommandExecutor, Panel, PanelResults,
PanelAnswers, PanelStore, Dispatcher, EndToEnd, Completion).** The executor's three critical sections are functions on
a value holding memory and disk, so that a crash can fall between any two of them and a write can succeed, fail before
its rename or fail after it; class `CommandExecutor` does the same in the source's form and is proved to compose these
functions. The Panel's tables are values with transactions on them; class `Store` runs the transactions with their
loops and faults, class `Dispatcher` the delivery loop. `ExecutorAnswers` and `PanelAnswers` write out, column by
column and code by code, what these calls answer and leave. `EndToEnd` puts both sides together: commands and replies
may be lost, repeated, delayed and reordered, the agent may crash anywhere, other agents may report what they like.
Two things are assumed of every delivered command: its signature verifies only for bytes the Panel signed, and its
payload does not collide under SHA-256 with the payload of a command the Panel holds. `Completion` shows that runs
meeting these assumptions reach success. A JSON text is stored as it is: re-encoding does not reformat it.

**Upgrade (Semver, Upgrade, UpgradeTransaction).** Primitive effects of the privileged helper, each of which may fail
or be the last before a crash, are the steps of a run; the contents of the request files are adversarial. Class
`RootHelper` holds the link, the version directories and the three request files.

**WebSocket (WebSocket, WebSocketClient, WebSocketMessages).** The wire form of sections 5.2 to 5.5 of RFC 6455 is
defined once as a spelling of frames, with the server's strict parser beside it; class `Conn` reads and writes it. Bit
operations of the source are written as arithmetic on octets.

**Queues (Refresher, Scheduler, Outbox, OutboxStore, Reporter, Alerts, AlertDeletions, AlertEffects,
AlertEvaluator).** The refresher and the scheduler are state machines whose events are the critical sections and
channel operations of every goroutine; the outbox carries a history of every report ever put, acknowledged, evicted or
moved aside; alert evaluations run statement by statement with acknowledgements and deletions between them.

Limits, codes and opcodes are written out in the contracts, so that these can be read without the definitions they
speak about.

## Findings

The code is kept as it is; where a promise does not hold the exact condition is proved.

- Execution is not exactly-once (docs/superpowers/specs/2026-08-30-resident-agent-control-channel-design.md:290-292):
  a command the agent's disk has passed can be run again exactly as long as the disk keeps its record in a state that
  is not terminal: `ExecutorRuns.RunsAgainIffUnfinishedOnDisk`. That is so after a crash inside the handler, after a
  pending outcome, and after a finished run whose outcome failed to reach the disk. Once the record is terminal, or
  trimmed, the command never runs again.
- internal/update/root.go:197 and :296 list the refused name characters in a raw string, so its escapes are not
  escapes and the characters `r`, `n`, `x` and `0` are refused. A release such as 1.10.0 can never be applied:
  `Upgrade.ZeroIsNeverApplied`, `UpgradeTransaction.AppliedIffNamesAreClean`.
- `upgrade_not_applied` does not always mean that the old version is linked: a switch whose directory sync fails after
  its rename leaves the new link in place without a rollback, and nothing else does:
  `UpgradeTransaction.NotAppliedButLinked`.
- A Request to the scheduler that passed its stop check can list itself after Run has answered its last waiters and
  then waits for its own context: `Scheduler.StopWindow`, with the exact condition in `Scheduler.AnswerableIffNotOver`.
- `Stop` of the scheduler prevents new collections but for one (internal/agent/scheduler.go:76): with the stop channel
  and the timer both ready the select may pick either. `Scheduler.AtMostOneAfterStop` and
  `Scheduler.OneMayStartAfterStop` say exactly when.
- `SendRequired` answers nil without a delivery when the file of the report is found unreadable in between
  (internal/agent/reporter.go:61-76), and in no other case: `Reporting.Reporter.SendRequired`, and
  `Reporting.NilWithoutDelivery` for such a call.
- An alert acknowledged between evaluations is the last of its key: it is never recovered, so the same condition never
  fires again. An acknowledgement that falls into a running evaluation can still be overwritten by it; the exact
  condition is `Alerts.AckIsPermanentIff`.
- Alert ids are reused. When a node is deleted while an evaluation runs, the evaluation can recover another node's new
  alert (`Alerts.FreedIdIsRecovered`), under the exact conditions of `AlertDeletions.UnsettledIffIdReused` and, with acknowledgements
  in between, `AlertDeletions.SettlesIffRepaired`.
- A database error during an evaluation discards the notifications of all alerts it has already opened or closed, and
  the next evaluation does not repeat them: `AlertEvaluator.NotificationsLostIff` says exactly when,
  `AlertEvaluator.LostNotification` is such a run.
- A failing transaction after a successful send (internal/panel/command/dispatcher.go:67-69) leaves a sent command
  queued, exactly then (`Dispatch.QueuedIffRefusedOrStopped`), and its result is refused (`Dispatch.SentButRefused`).

## Model

| member | source | states |
|---|---|---|
| `Signing.BuildSigningBytes` | internal/controlproto/sign.go:16-29 | the buffer grown field by field is the concatenation of the nine length-prefixed fields that the parser inverts |
| `Signing.NineFieldsInOrder` | internal/controlproto/sign.go:16-29 | octet for octet what is signed: the nine fields in this order, sequence and times as eight octets with negative times in two's complement, the payload by its hash alone |
| `Signing.LengthComesFirst` | internal/controlproto/sign.go:63-68 | a field is four octets of length, the most significant first, and the value |
| `Signing.TakeFieldInverts` | internal/controlproto/sign.go:63-68 | one length-prefixed field shorter than 2^32 octets is read back and what follows it is left alone |
| `Signing.ParseInvertsConcat` | internal/controlproto/sign.go:63-68 | a parser recovers every field from the concatenation, so no two field lists share an encoding |
| `Signing.Int64RoundTrip` | internal/controlproto/sign.go:76-78 | the two's-complement conversion and big-endian bytes of every int64 read back |
| `Signing.Uint64RoundTrip` | internal/controlproto/sign.go:70-74 | every uint64 reads back from its eight bytes |
| `Signing.SigningBytesInjective` | internal/controlproto/sign.go:16-29 | two commands with equal signing bytes agree in every signed field, unless their two payloads collide under the hash |
| `Bytes.BigEndianRoundTrip` | internal/controlproto/sign.go:70-74 | big-endian bytes of a number that fits read back as that number |
| `Bytes.BigEndianIsOnto` | internal/controlproto/sign.go:70-74 | every byte string is the big-endian form of the number it reads as |
| `Bytes.MostSignificantFirst` | internal/controlproto/sign.go:70-74 | at widths of two, four and eight octets the number is the sum of the octets times the powers of 256 in descending order |
| `Bytes.TrimmedMeans` | internal/panel/command/store.go:338-340 | results are compared after cutting exactly the white space at both ends |
| `Executor.Conclude` | internal/agent/commands.go:188-207 | a verdict is succeeded if and only if the handler returned an outcome neither failed nor pending with a code of at most 128 and data of at most 16384 octets that are empty or valid JSON, and then has that very code and data; code and data of every verdict fit and the data is JSON |
| `Executor.ConcludeMeans` | internal/agent/commands.go:188-207 | every case: within the bounds a failed outcome fails and a pending one stays running, each with the handler's own code or the name of the state and its own data; a panic is handler_failed; outside the bounds, or failed and pending at once, it is invalid_handler_result |
| `Executor.AdmissionKeepsImageOk` | internal/agent/commands.go:146-163 | appending the accepted record and trimming keeps ids distinct, sequences ascending and at most 256 records under HighestSeen; the new record is the last one kept |
| `Executor.ReceiveKeepsInv` | internal/agent/commands.go:109-164 | screening, admission and its write in any outcome keep the memory-and-disk invariant |
| `Executor.StartKeepsInv` | internal/agent/commands.go:168-185 | marking a record running, with the write failing before or after the rename and memory restored, keeps the invariant |
| `Executor.CompleteKeepsInv` | internal/agent/commands.go:208-224 | recording the outcome with any write outcome keeps the invariant; memory is not restored after a failed write |
| `Executor.RestartKeepsInv` | internal/agent/commands.go:69-96 | a crash at any point and the reload keep the invariant |
| `CommandExecution.SortIsIdentity` | internal/agent/commands.go:292-298 | any sorted permutation of strictly ascending records is those records, so the sort in trimming changes nothing |
| `CommandExecution.SortBySequence` | internal/agent/commands.go:293 | sorting yields a permutation ordered by sequence |
| `CommandExecution.CommandExecutor.Open` | internal/agent/commands.go:69-96 | which files and handlers are accepted, whatever records the file holds; what is accepted starts as a restart on it, with the invariants if the file has them |
| `CommandExecution.LoadedMeans` | internal/agent/commands.go:253-290 | a missing file is an empty image; a file is taken as it is exactly if it decodes, is of version 1 and holds at most 256 records |
| `CommandExecution.OwnFileIsAccepted` | internal/agent/commands.go:253-290 | the file an executor leaves in any run is accepted by its successor and has the invariants |
| `CommandExecution.CommandExecutor.TrimRecords` | internal/agent/commands.go:292-298 | trimming leaves exactly the newest 256 records |
| `CommandExecution.CommandExecutor.Execute` | internal/agent/commands.go:98-164 | a whole call does exactly what the three atomic sections composed do and keeps the invariant; a new command is answered as succeeded if and only if it passes every check, its three writes are made and the handler returns a plain outcome within the bounds, and then answer, record and file carry its code and data |
| `CommandExecution.CommandExecutor.ExecuteLocked` | internal/agent/commands.go:109-164 | the part under the execution mutex, for a command whose three first checks passed |
| `ExecutorAnswers.RefusalFields` | internal/agent/commands.go:314-320 | every refusal is a failed result for that command with its code and the empty object |
| `ExecutorAnswers.WellFormedMeans` | internal/agent/commands.go:100-108 | a well-formed command has version 1, type command, one of the four actions and a JSON payload; an authentic one also a valid signature and this agent's id |
| `ExecutorAnswers.UnauthenticIsRefused` | internal/agent/commands.go:100-108 | which of the first three refusals is given, in their order, with nothing changed |
| `ExecutorAnswers.KnownIsAnswered` | internal/agent/commands.go:113-127 | a recorded id: a different sequence or digest is duplicate_mismatch, a finished record is answered with its own result, neither changes anything, and an unfinished one is resumed whatever the clock says |
| `ExecutorAnswers.NewIsScreened` | internal/agent/commands.go:128-145 | a new id: more than 60 seconds early, expired, stale or without a handler, each with its own code in this order, and admitted otherwise |
| `ExecutorAnswers.AdmissionLeaves` | internal/agent/commands.go:146-164 | the accepted record goes to the end, the oldest gives way only when there were 256, the sequence becomes the highest seen, and without its write nothing runs |
| `ExecutorAnswers.MarkingLeaves` | internal/agent/commands.go:168-185 | without the mark on disk the handler does not run and memory is as it was; with it the handler runs once |
| `ExecutorAnswers.DuringTheCall` | internal/agent/commands.go:174-186 | while the handler runs its command is the current one and marked as running in memory and on disk |
| `ExecutorAnswers.RecordingLeaves` | internal/agent/commands.go:187-224 | the verdict is in memory whatever becomes of the last write, on disk unless that write was not made; only a finished command raises the highest completed sequence, and only a successful write publishes it and answers |
| `CommandExecution.CommandExecutor.AdmitAndResume` | internal/agent/commands.go:146-163 | admission continues into the execution of the record just admitted |
| `CommandExecution.CommandExecutor.ResumeAdmitted` | internal/agent/commands.go:157-163 | the search finds the admitted record, so the fall-through after the loop is never taken |
| `CommandExecution.CommandExecutor.ResumeLocked` | internal/agent/commands.go:168-232 | marking, handler call and recording compose the last two sections, whose effects `ExecutorAnswers` spells out |
| `ExecutorRuns.ExecuteIsThreeEvents` | internal/agent/commands.go:98-232 | an uninterrupted call is the run of its three events, so run results apply to it |
| `ExecutorRuns.InvAlways` | internal/agent/commands.go:98-298 | the bookkeeping invariant holds in every state an installed agent reaches over crashes, failed writes and any deliveries |
| `ExecutorRuns.NeverCalledAgain` | internal/agent/commands.go:109-141 | once a terminal result is on disk, no continuation calls a handler for that sequence again |
| `ExecutorRuns.RedeliveryAnswer` | internal/agent/commands.go:112-141 | redelivery then changes nothing and returns the stored result while the record is kept, afterwards only a refusal |
| `ExecutorRuns.HandlerRunsIff` | internal/agent/commands.go:98-186 | one delivery calls the handler if and only if the command is authentic and handled, was left unfinished or is new, timely and beyond every sequence seen, and the writes before the call succeed |
| `ExecutorRuns.CompletedNeverRetreats` | internal/agent/commands.go:215-222 | the published highest completed sequence never exceeds the value on disk and never goes back, crashes included |
| `ExecutorRuns.UnfinishedRunsAgain` | internal/agent/commands.go:109-127 | a command whose record on disk is not terminal can always be run again: crash, redelivery, call |
| `ExecutorRuns.RunsAgainIffUnfinishedOnDisk` | internal/agent/commands.go:98-224 | the exact limit of exactly-once, in every state of every run: a command the disk has passed can be run again if and only if the disk keeps its record and the record is not terminal |
| `ExecutorRuns.LostOutcomeRunsAgain` | internal/agent/commands.go:218-221 | in particular a finished command whose outcome write failed before its rename can be run again |
| `Panel.FindRow` | internal/panel/command/store.go:160-163 | the position of the row with an identifier, or none exists |
| `Panel.MaxSequence` | internal/panel/command/store.go:110-111 | the largest sequence of an agent, 0 without rows |
| `Panel.TransitionKeepsInv` | internal/panel/command/store.go:143-190 | every accepted transition keeps row, history and sequence invariants together |
| `Panel.CreateKeepsInv` | internal/panel/command/store.go:122-131 | inserting a command with its first event keeps them too |
| `Panel.PathClimbs` | internal/panel/command/store.go:192-205 | along allowed transitions the state rank climbs and dispatched occurs at most once |
| `Panel.HistoryIsShort` | internal/panel/command/store.go:143-205 | each log is a path of allowed transitions of at most five events ending in the row state; at most one attempt; every time column is the time of its event; result fields only after an end |
| `Panel.SequencesHaveNoGap` | internal/panel/command/store.go:109-111 | for each agent every sequence from 1 to the maximum exists |
| `Panel.SequencesAscend` | internal/panel/command/store.go:109-111 | of two rows of one agent the later has the larger sequence |
| `Panel.SequencesExact` | internal/panel/command/store.go:109-111 | an agent's sequences are exactly 1 to its largest, one row each |
| `PanelStore.BatchRow` | internal/panel/command/store.go:109-131 | the k-th inserted row is the requested command, numbered next for its agent, signed, queued and valid for its TTL |
| `PanelStore.BatchColumns` | internal/panel/command/store.go:109-125 | every column of the k-th row: the next sequence of its agent, 300, 1800 or 86400 seconds to live by action, the signature over the command as it stands, the actor |
| `PanelStore.BatchEvents` | internal/panel/command/store.go:126-130 | its event: created, by the actor, at the same time |
| `PanelStore.BatchShapeMeans` | internal/panel/command/store.go:70-79 | a batch needs a user, 1 to 100 agents, one of the four actions and a JSON payload of 1 to 65536 octets |
| `PanelStore.CommandsInOrder` | internal/panel/command/store.go:132 | the commands returned are those of the new rows in order |
| `PanelStore.BatchSequences` | internal/panel/command/store.go:109-131 | agents of one batch do not disturb each other's sequences |
| `PanelStore.KeyFree` | internal/panel/command/store.go:122-126 | inside the transaction an id is free exactly if free in the table and new in the batch |
| `PanelStore.Store.CreateBatch` | internal/panel/command/store.go:69-137 | all commands are created, or the tables are untouched, with the exact condition for either |
| `PanelStore.Store.DistinctAgents` | internal/panel/command/store.go:80-95 | the loop accepts exactly lists of distinct, non-empty agent ids |
| `PanelStore.Store.Insert` | internal/panel/command/store.go:103-136 | the transaction: committed exactly when no statement fails, with the rows and results it leaves |
| `PanelStore.Store.TransitionAt` | internal/panel/command/store.go:143-190 | one transaction changes the row and appends its event, or changes nothing |
| `PanelAnswers.TransitionIsExact` | internal/panel/command/store.go:143-205 | a transition is made exactly for fields within their bounds, an existing row and one of eleven edges; it sets the time and result columns of its own state only and writes one event |
| `PanelStore.Store.Expire` | internal/panel/command/store.go:255-278 | completes exactly if there are commits enough for the overdue rows; complete, exactly the queued and dispatched rows with an expiry no later than now have ended, at that time, and their number is returned; the log grows by expiries of nobody only; cut short only some rows have ended |
| `PanelStore.Outstanding` | internal/panel/command/store.go:208-209 | exactly the rows waiting for the agent, in table order |
| `PanelStore.OutstandingAscends` | internal/panel/command/store.go:208-209 | table order is ascending sequence order |
| `PanelStore.OutstandingIgnoresExpiry` | internal/panel/command/store.go:208-209 | expiring at a clock reading no later than the query's takes nothing from what is due |
| `PanelStore.Store.QueuedFor` | internal/panel/command/store.go:207-226 | in ascending sequence exactly the commands of the agent that are accepted or running, or queued or dispatched with an expiry after now |
| `PanelStore.Store.Advance` | internal/panel/command/store.go:315-321 | one advance commits the step or leaves the tables alone |
| `PanelStore.Store.ApplyAgentResult` | internal/panel/command/store.go:280-336 | answer and tables for every report and every number of commits, over the row found: nothing for an unsound or misaddressed report or an undelivered row; for a row at its end ok if and only if state, code and data are those it holds; otherwise as many stages as there are commits, with their times, result and events, and ok if and only if the reported one is reached |
| `PanelAnswers.FollowStages` | internal/panel/command/store.go:315-335 | the walk enters the stages from the row's to the reported one, one commit each, and writes row columns and events exactly so |
| `PanelStore.Store.Walk` | internal/panel/command/store.go:322-335 | the variable state follows the row through the remaining states |
| `PanelResults.TargetPathWalkable` | internal/panel/command/store.go:322-335 | the states walked for a report are a chain of allowed transitions of at most three |
| `PanelResults.TargetPathResumes` | internal/panel/command/store.go:322-335 | after part of the walk the rest is what the new row state asks for |
| `PanelResults.FollowWalks` | internal/panel/command/store.go:315-335 | the walk enters exactly as many states as commits succeed, in order, and touches no other row |
| `PanelResults.ResultIsResumable` | internal/panel/command/store.go:306-335 | stopping after any number of transactions and applying the result again gives the same states, codes, data, labels and answer as one uninterrupted call |
| `PanelResults.RecordedIsAcknowledged` | internal/panel/command/store.go:306-309 | a result already recorded is acknowledged without a change |
| `PanelResults.UndeliveredIsRefused` | internal/panel/command/store.go:312-314 | a result for a queued or expired row is refused and changes nothing |
| `PanelResults.FinalRowsStay` | internal/panel/command/store.go:306-314 | no result alters a row that has reached an end |
| `Dispatch.HandlingIsAllowed` | internal/panel/command/dispatcher.go:50-70 | revoking and marking dispatched are always allowed transitions of a waiting row |
| `Dispatch.SentAscends` | internal/panel/command/dispatcher.go:37-60 | what is sent goes out in ascending sequence |
| `Dispatch.SentIff` | internal/panel/command/dispatcher.go:41-66 | a command is among those sent if and only if its turn was taken, its creator may send it and the hub took it |
| `Dispatch.QueuedIffRefusedOrStopped` | internal/panel/command/dispatcher.go:60-70 | a row that had its turn is queued afterwards if and only if it was queued before and its send was refused or its turn ended the dispatch; queued although sent if and only if the marking transaction failed |
| `Dispatch.SentButRefused` | internal/panel/command/store.go:312-314 | whatever the agent reports about a command that was sent and not marked is refused |
| `Dispatch.Dispatcher.HandleOne` | internal/panel/command/dispatcher.go:42-70 | one turn in terms of the roles: an Admin may send everything, an Operator everything but an upgrade, a Viewer nothing; what may not be sent ends as failed with authorization_revoked, what may is sent exactly if the hub takes it and marked if it was queued; with the event each change writes |
| `Dispatch.Dispatcher.Deliver` | internal/panel/command/dispatcher.go:41-72 | the loop takes turns in order until one stops it, for an unreadable creator, a broken send or a failed transition |
| `Dispatch.Dispatcher.DispatchAgent` | internal/panel/command/dispatcher.go:32-73 | for every turn taken, sent and the row afterwards are exactly what the role of the creator, the hub and the commit decide; sends in ascending sequence; every other row is as expiry left it; expiry and query read the clock separately and either may fail |
| `EndToEnd.VerifiedIsGenuine` | internal/agent/commands.go:103-105 | a delivered command that verifies equals, in every signed field, one that some row holds |
| `EndToEnd.NextKeepsInv` | internal/panel/command/store.go:280-336 | the invariant linking rows, replies, agent memory and agent disk survives every event |
| `EndToEnd.Agreement` | internal/panel/command/store.go:303-335 | over all runs with loss, duplication, delay, forgery attempts, expiry and crashes: a row succeeded with (code, data) only if the handler ran for that very command and returned that plain outcome |
| `Completion.CommandCanSucceed` | internal/panel/command/store.go:322-335 | the assumptions can be met: every well-formed command whose signature verifies and whose action is handled has a possible run that ends with its row succeeded |
| `EndToEnd.LogsAndSequences` | internal/panel/command/store.go:101-205 | in every run each log is such a path, and the sequences of each agent are exactly 1 to its largest, one row each |
| `EndToEnd.OnlyPanelCommandsRun` | internal/agent/commands.go:103-108 | no handler is called except for a command the Panel created for this agent |
| `EndToEnd.NoMismatchEndToEnd` | internal/agent/commands.go:118-121 | no verified delivery is refused as a mismatching duplicate |
| `EndToEnd.ApplyIsAdvances` | internal/panel/command/store.go:280-336 | a call of ApplyAgentResult, complete or cut short, is a run of this system |
| `Semver.LessIsStrictOrder` | internal/update/manifest.go:189-199 | the version order is irreflexive, transitive and total |
| `Semver.CompareVersion` | internal/update/manifest.go:189-199 | negative if and only if the first of the three numbers that differ is smaller on the left, positive if and only if it is larger, zero if and only if all are equal |
| `Semver.ParseParts` | internal/update/manifest.go:169-187 | the parsing loop computes the specified parse |
| `Semver.ParsesExactlyCanonical` | internal/update/manifest.go:169-187 | exactly the canonical decimal spellings below 2^63, with an optional leading v, parse |
| `Semver.ValueMeans` | internal/update/manifest.go:180 | digits have their decimal place values |
| `Upgrade.GateOnlyUpgrades` | internal/update/state.go:54-101 | what passes has a version whose first number differing from the installed one is larger, and is carried by a signed command and a signed, fresh, matching manifest |
| `Upgrade.GatePassesIff` | internal/update/state.go:54-101 | the gate both ways: which names, ids, command fields, payload and file let a request pass |
| `Upgrade.ManifestPassesIff` | internal/update/manifest.go:76-146 | the manifest both ways: signed, newer, for this platform and protocol, supported by the Panel, 1 to 33554432 octets, not expired, valid for at most 86400 seconds, at most 300 early, size and hash of the file |
| `Upgrade.BelowMeans` | internal/update/manifest.go:189-199 | the version order on strings, by the first of the three parsed numbers that differs |
| `Upgrade.CanonicalUUIDMeans` | internal/update/state.go:170-185 | an id is canonical exactly as 8, 4, 4, 4 and 12 lower-case hexadecimal digits between hyphens |
| `Upgrade.SafeBasenameMeans` | internal/update/state.go:165-168 | a safe name has 1 to 255 characters, no separator, line end or NUL, and is no dot name |
| `Upgrade.CleanMeansZeroFree` | internal/update/root.go:197 | among well-formed versions the name check refuses exactly those with a digit 0 |
| `Upgrade.RetainKeeps` | internal/update/root.go:286-309 | retention never removes the current or the previous version directory |
| `Upgrade.RetainLeaves` | internal/update/root.go:286-309 | retention removes only listed directories with clean names that are not kept, and all of them if it succeeds |
| `Upgrade.NextKeepsInv` | internal/update/root.go:195-317 | every effect, failing or not, keeps the link on an existing directory and never lowers the version to fall back to |
| `Upgrade.NeverDowngraded` | internal/update/root.go:79-114 | over any number of helper runs the first of the three numbers that changes has risen, and the linked directory exists |
| `Upgrade.LinkNeverDangles` | internal/update/root.go:220-309 | at every moment, also after a switch that failed halfway, link and fallback directory exist |
| `Upgrade.AppliedOnce` | internal/update/state.go:54-101 | applied results have strictly rising versions, so no request is applied twice |
| `Upgrade.ZeroIsNeverApplied` | internal/update/root.go:195-199 | no version containing the digit 0 is ever reported as applied |
| `UpgradeTransaction.TransactionIsRun` | internal/update/helper.go:37-90 | the transaction is one of the runs the safety results speak about |
| `UpgradeTransaction.TransactionOutcomes` | internal/update/helper.go:37-90 | for every script of system calls, which of the four results it ends in; one result is written, last, and each comes with the exact link and the effects before it |
| `UpgradeTransaction.TransactionLeaves` | internal/update/helper.go:37-90 | the one result recorded, and after an applied upgrade exactly which version directories are left |
| `UpgradeTransaction.NotAppliedButLinked` | internal/update/helper.go:56-59 | upgrade_not_applied is reported with the new version linked if and only if the version was stored under a clean name and the switch failed after its rename |
| `UpgradeTransaction.RetainSucceedsIff` | internal/update/root.go:292-307 | without faults retention succeeds exactly when every name it must remove passes the name check |
| `UpgradeTransaction.AppliedIffNamesAreClean` | internal/update/helper.go:52-89 | the faultless case: a valid upgrade is applied if and only if its version has no digit 0 and every other directory to remove has a name free of the refused characters |
| `UpgradeTransaction.AppliedRequestIsRefused` | internal/update/root.go:79-114 | an applied request found claimed again is refused and moved aside |
| `UpgradeTransaction.UnappliedRequestPassesAgain` | internal/update/root.go:79-114 | a request whose transaction left the link alone passes again exactly while its manifest is in date |
| `UpgradeTransaction.RunNeverDowngrades` | internal/update/root.go:45-114 | from one helper run to the next the version only rises and its directory exists |
| `UpgradeTransaction.RootHelper.InstallArtifact` | internal/update/root.go:195-218 | the directory and target an install leaves, also when it fails after making the directory |
| `UpgradeTransaction.RootHelper.RetainVersions` | internal/update/root.go:286-309 | the loop leaves what the specified retention leaves |
| `UpgradeTransaction.RootHelper.Rollback` | internal/update/helper.go:60-69 | switch back, restart and report, whatever fails |
| `UpgradeTransaction.RootHelper.ApplyVerifiedUpdate` | internal/update/helper.go:37-90 | the whole transaction equals its specification, returns the result the script ends in, and succeeds only if applied and reported |
| `UpgradeTransaction.RootHelper.RestartAndProve` | internal/update/helper.go:70-89 | the part after the switch |
| `UpgradeTransaction.RootHelper.Claim` | internal/update/root.go:79-94 | which file is claimed, and the directory after a rename that may fail or be followed by a sync error |
| `UpgradeTransaction.RootHelper.Refuse` | internal/update/root.go:138-156 | a refused request is reported only after it was moved aside and only with a canonical id |
| `UpgradeTransaction.RootHelper.ProcessPendingUpdate` | internal/update/root.go:79-114 | files, link, results and directories after one helper run, which never lowers the installed version |
| `UpgradeTransaction.FilesMeans` | internal/update/root.go:79-114 | the three files after a run, case by case: a claimed file goes before a pending one, what passes the gate stays claimed, everything else is moved aside |
| `UpgradeTransaction.RunMeans` | internal/update/root.go:79-156 | what a run does to the host: nothing without a decodable request, the transaction on one that passes, and for a refused one a rejected result exactly if the id is canonical, the file was moved and the write was made |
| `WebSocket.XorTwice` | internal/wsclient/wsclient.go:282-285 | masking with the same octet twice restores it |
| `WebSocket.MaskedTwice` | internal/wsclient/wsclient.go:282-285 | masking a payload twice restores it |
| `WebSocket.XorBits` | internal/wsclient/wsclient.go:282-285 | each bit of the masked octet is set if and only if the bits of payload and mask differ |
| `WebSocket.XorByteMeans` | internal/wsclient/wsclient.go:282-285 | the same for the eight bits of an octet |
| `WebSocket.LengthInverse` | internal/wsclient/wsclient.go:170-186 | each spelling of a length reads back, the rest untouched |
| `WebSocket.DecodeInvertsSpell` | internal/wsclient/wsclient.go:255-291 | a parser of sections 5.2 and 5.3 of RFC 6455 recovers every legal masked frame across the 125/126 and 65535/65536 boundaries |
| `WebSocket.DecodeIsExact` | internal/wsclient/wsclient.go:255-291 | the same parser accepts nothing but the one minimal spelling of a legal frame |
| `WebSocketClient.ScanReadsFrame` | internal/wsclient/wsclient.go:162-202 | readFrame inverts every length spelling of a legal server frame within the limit and leaves the rest of the stream |
| `WebSocketClient.ScanIsExact` | internal/wsclient/wsclient.go:162-202 | readFrame accepts nothing but spellings of legal server frames within the limit |
| `WebSocketClient.ScanIff` | internal/wsclient/wsclient.go:162-202 | a frame is returned if and only if the stream begins with its octets, spelled out: no reserved bit, no mask, the length in network order, within the limit, control frames final and of at most 125 octets |
| `WebSocketClient.ScanFailure` | internal/wsclient/wsclient.go:165-200 | which error it is otherwise, in the order of the checks; the end of the stream between frames differs from one within a frame |
| `WebSocketClient.WrittenIsDecoded` | internal/wsclient/wsclient.go:255-291 | what writeFrame reports as written is one final masked frame with that opcode and payload to a server's parser |
| `WebSocketClient.Conn.ReadFull` | internal/wsclient/wsclient.go:165 | n octets are consumed, or everything with the right end-of-file error |
| `WebSocketClient.Conn.ReadFrame` | internal/wsclient/wsclient.go:162-202 | result and remaining stream for every input, errors included |
| `WebSocketClient.Conn.WriteFrame` | internal/wsclient/wsclient.go:255-291 | the exact octets sent: 128 plus the opcode, the mask bit with the shortest of the three lengths in network order, the mask, and each payload octet combined with its mask octet by exclusive or; sent if and only if it is no control frame over 125 octets and the network takes it |
| `WebSocketClient.ClientFrameOctets` | internal/wsclient/wsclient.go:255-285 | the same octets for every opcode, mask and payload |
| `WebSocketClient.Conn.MaskPayload` | internal/wsclient/wsclient.go:282-285 | each octet is the exclusive or, bit by bit, of the payload octet and the mask octet at its position modulo four |
| `WebSocketClient.Conn.Write` | internal/wsclient/wsclient.go:211-216 | only text and binary messages are written |
| `WebSocketClient.Conn.StartPing` | internal/wsclient/wsclient.go:218-234 | the token is listed before its ping is written, and struck off again when it cannot be |
| `WebSocketClient.Conn.Read` | internal/wsclient/wsclient.go:119-160 | the loop terminates and equals its turn-by-turn specification from any stream, also when a cancelled context ends the stream or a write |
| `WebSocketClient.TurnByOpcode` | internal/wsclient/wsclient.go:124-159 | what Read makes of one frame by the number of its opcode: 8 echoes and ends, 9 is answered by a frame of opcode 10 with the same payload, 10 settles its token, 0, 1 and 2 build the message in order and within the limit, anything else is an error |
| `WebSocketMessages.PassOver` | internal/wsclient/wsclient.go:124-159 | reading over fragments, pings and pongs in any order collects the payloads, answers pings in order and settles pongs |
| `WebSocketMessages.MessageIsRead` | internal/wsclient/wsclient.go:119-160 | every fragmented message interleaved with control frames is read back whole, with first fragment's type, the rest of the stream untouched |
| `WebSocketMessages.CloseStopsReading` | internal/wsclient/wsclient.go:128-132 | a close frame before completion ends reading after its echo |
| `WebSocketMessages.ReadMeansMessage` | internal/wsclient/wsclient.go:119-160 | when Read returns a message, the stream began with exactly such frames and the limit held |
| `WebSocketMessages.ReadsExactlyMessages` | internal/wsclient/wsclient.go:119-160 | Read returns (type, body) if and only if the stream begins with a message of section 5.4 of that type and body and the pongs its pings ask for can be written |
| `Refresher.NextKeepsInv` | internal/panel/geo/refresher.go:176-213 | queue, pending, processing, dirty and worker agree after every step of producers and worker |
| `Refresher.PendingIsQueuedOrInFlight` | internal/panel/geo/refresher.go:51-66 | in every interleaving pending is exactly queued plus in hand; the queue has no repeats, at most 128 entries, and dirty marks only what is processed |
| `Refresher.DoneIsForgotten` | internal/panel/geo/refresher.go:196-205 | a finished refresh nobody asked for again leaves the address free, so that the next enqueue queues it |
| `Refresher.EnqueueSchedules` | internal/panel/geo/refresher.go:176-194 | an enqueue that is not deferred leaves a refresh to come, also in the window before processing is marked |
| `Refresher.ScheduledAdvances` | internal/panel/geo/refresher.go:51-66 | no step loses a scheduled refresh, the worker brings it nearer and producers cannot push it back |
| `Refresher.ServedWithin` | internal/panel/geo/refresher.go:51-66 | after a bounded number of worker steps the refresh has started or was deferred |
| `Refresher.EveryEnqueueIsServed` | internal/panel/geo/refresher.go:176-213 | each enqueue is followed within 515 worker steps by a refresh starting after it, unless a full queue defers that address |
| `Refresher.GeoRefresher.Enqueue` | internal/panel/geo/refresher.go:176-194 | deferred exactly if not pending and 128 are queued; otherwise appended if not pending, marked dirty if being processed, and nothing else changes |
| `Refresher.GeoRefresher.Receive` | internal/panel/geo/refresher.go:56 | the worker takes the oldest address |
| `Refresher.GeoRefresher.MarkProcessing` | internal/panel/geo/refresher.go:57-59 | the address in hand is marked as being processed, and queue and sets still agree |
| `Refresher.GeoRefresher.FinishProcessing` | internal/panel/geo/refresher.go:196-213 | a dirty address is appended again, or deferred exactly when 128 are queued; one nobody asked for again leaves pending; it leaves processing and dirty either way |
| `Scheduler.NextKeepsInv` | internal/agent/scheduler.go:44-172 | waiters stay in one place each, in order, and none with a completed Trigger is forgotten |
| `Scheduler.WaitersAreSafe` | internal/agent/scheduler.go:56-161 | at most one reply per waiter, only from a collection started after it was listed; while Run is live a triggered waiter has a token, a pending run or a closed stop channel |
| `Scheduler.AnsweredWithin` | internal/agent/scheduler.go:90-161 | a waiter listed before Run takes its list for the last time is answered within a bounded number of loop steps |
| `Scheduler.AnswerableIffNotOver` | internal/agent/scheduler.go:90-161 | a listed waiter can still be answered if and only if that last taking has not happened |
| `Scheduler.StopWindow` | internal/agent/scheduler.go:57-66 | a request past its stop check can list itself after Run is gone and is never answered |
| `Scheduler.StoppedRefuses` | internal/agent/scheduler.go:57-62 | a Request after Stop is refused at its first step and never listed |
| `Scheduler.AtMostOneAfterStop` | internal/agent/scheduler.go:76-81 | after Stop at most one more collection starts, whatever happens |
| `Scheduler.OneMayStartAfterStop` | internal/agent/scheduler.go:130-155 | and one can if and only if the loop stood before a collection, at its probe or in its select |
| `Scheduler.TriggersCoalesce` | internal/agent/scheduler.go:44-54 | any positive number of triggers during a collection becomes one follow-up run and an empty slot; none means sleep |
| `Scheduler.CollectionScheduler.RemoveWaiter` | internal/agent/scheduler.go:163-172 | removes the first occurrence and nothing else |
| `Scheduler.WithoutSplits` | internal/agent/scheduler.go:163-172 | what is removed is the first occurrence, the rest keeps its order |
| `Scheduler.CollectionScheduler.FailWaiters` | internal/agent/scheduler.go:157-161 | every listed waiter is told once, in order, that the scheduler has stopped, and the list is empty |
| `Scheduler.CancelsAll` | internal/agent/scheduler.go:157-161 | the last steps of the loop, taken together, do the same |
| `Outbox.UniqueMeans` | internal/agent/outbox.go:219-233 | the same non-empty destinations, each once |
| `Outbox.UniqueKeepsOrder` | internal/agent/outbox.go:219-233 | in the order of their first occurrences |
| `Outbox.TotalIsLength` | internal/agent/outbox.go:183-189 | the cost of a directory is the length of its bodies and pending destination names written one after the other |
| `Outbox.UniqueDestinations` | internal/agent/outbox.go:219-233 | the loop computes that list in first-occurrence order |
| `Outbox.EvictKeepsLongestSuffix` | internal/agent/outbox.go:163-181 | eviction keeps exactly the longest suffix in name order that fits both limits |
| `Outbox.StoredKeepsInv` | internal/agent/outbox.go:79-83 | a put keeps every report accounted for |
| `Outbox.EvictFirstKeepsInv` | internal/agent/outbox.go:172-178 | an eviction keeps every report accounted for |
| `Outbox.MovedKeepsInv` | internal/agent/outbox.go:150-157 | moving unreadable files aside keeps every report accounted for |
| `Outbox.AckKeepsInv` | internal/agent/outbox.go:101-129 | after an acknowledgement each report is still owed to exactly the unacknowledged rest, and leaves only with its last one |
| `Outbox.AckLeaves` | internal/agent/outbox.go:101-129 | an acknowledgement takes out its destination, keeps the others in order, and removes the record with the last one; nothing else changes |
| `Outbox.AckKeepsEarned` | internal/agent/reporter.go:98-103 | acknowledging after an accepted delivery keeps the rule that nothing is acknowledged that was not accepted |
| `Outbox.SendingKeepsInv` | internal/agent/reporter.go:98-101 | a delivery to a destination that has not acknowledged keeps the rule that nothing is sent after its acknowledgement |
| `Outbox.ReportsAreConserved` | internal/agent/outbox.go:65-181 | over every run: pending is the deduplicated destinations minus the acknowledged ones; a report leaves only fully acknowledged, evicted or unreadable; nothing is delivered after its acknowledgement or acknowledged without being accepted |
| `OutboxStore.PutMeansKept` | internal/agent/outbox.go:84-92 | Put succeeds only if the new report is kept whole and both limits hold |
| `OutboxStore.PutLeavesExactly` | internal/agent/outbox.go:65-93 | directory and answer under every fault: unchanged without a body, a destination or the write; stored with an error after a write reported as failed; otherwise the readable files cut at the front no further than both limits need, ok exactly if everything succeeded and the report is left |
| `OutboxStore.PutSucceedsIff` | internal/agent/outbox.go:65-93 | without faults Put succeeds if and only if the report fits together with every report named after it; with a forward clock, if it fits alone |
| `OutboxStore.DurableOutbox.List` | internal/agent/outbox.go:139-161 | the readable files in name order, unreadable ones moved aside |
| `OutboxStore.DurableOutbox.EnforceLimits` | internal/agent/outbox.go:163-181 | the loop evicts as specified, its running total is the sum of the remaining costs and it never indexes an empty list |
| `OutboxStore.DurableOutbox.ItemCost` | internal/agent/outbox.go:183-189 | the loop computes the cost |
| `OutboxStore.DurableOutbox.Put` | internal/agent/outbox.go:65-93 | directory and answer for every argument and fault; after a success at most maxItems files, whose bodies and destination names are together no longer than maxBytes |
| `OutboxStore.DurableOutbox.Ack` | internal/agent/outbox.go:101-129 | rewrites or removes the record, or leaves everything alone on an error, whether or not anything was sent |
| `Reporting.Reporter.Deliver` | internal/agent/reporter.go:88-104 | the exact answer for one destination: an error if and only if the context is over, or the sink accepted and the file is gone or the acknowledgement is not written; with other goroutines listing meanwhile |
| `Reporting.OneDeliveryMeans` | internal/agent/reporter.go:88-104 | one delivery is an error exactly if the context is over, or the sink accepted and the file is gone or the acknowledgement is not written; the report stays pending exactly if the sink is unknown or refuses |
| `Reporting.WorseMeans` | internal/agent/reporter.go:83-107 | a flush is an error if any delivery is, and complete only if every delivery is |
| `Reporting.Reporter.FlushItem` | internal/agent/reporter.go:87-105 | the exact answer and log for one report and every behaviour of its sinks; without an error every configured destination was tried |
| `Reporting.Reporter.Flush` | internal/agent/reporter.go:79-108 | the exact answer and the exact log of deliveries and acknowledgements for every behaviour of sinks, files and context; nil means the outbox is empty; without an error every listed, configured destination was tried; nothing else is touched |
| `Reporting.FlushWithoutFaults` | internal/agent/reporter.go:79-108 | without faults a flush never fails, and it empties the outbox if and only if every destination of every report is configured and accepts |
| `Reporting.FlushSendsOnce` | internal/agent/reporter.go:86-104 | what a flush adds to the log: no destination gets the same report twice, and only listed reports go to configured destinations they are pending for |
| `Reporting.NothingAfterError` | internal/agent/reporter.go:88-103 | an error ends the deliveries of a report at the first destination where it happens, and nothing is delivered after it |
| `Reporting.NothingAfterFailedReport` | internal/agent/reporter.go:87-103 | and it ends the flush: nothing is delivered for later reports |
| `Reporting.Reporter.Send` | internal/agent/reporter.go:45-50 | whether the report is stored, and the exact answer of the flush that follows |
| `Reporting.Reporter.SendRequired` | internal/agent/reporter.go:52-77 | exactly which calls get past storing and listing; of these, nil exactly when the required sink has accepted this body and acknowledged it during the call, or the file was found unreadable |
| `Reporting.UnreadableIsForgotten` | internal/agent/reporter.go:61-76 | a report found unreadable leaves the listing with nothing sent |
| `Reporting.NilWithoutDelivery` | internal/agent/reporter.go:52-77 | a call that answers nil although the only sink refused |
| `Reporting.Fates` | internal/agent/reporter.go:61-76 | what can have become of a report between Put and the last listing |
| `Alerts.Newest` | internal/panel/alert/alert.go:208-225 | the row kept for a key is one of its rows |
| `Alerts.NewestMeans` | internal/panel/alert/alert.go:208-225 | the row kept for a key is the latest of its key, and none is kept exactly if the key has no row |
| `Alerts.FiringMeansNewest` | internal/panel/alert/alert.go:112-130 | a key is firing exactly when its newest row is |
| `Alerts.IndexIsNeverViolated` | internal/panel/db/db.go:232 | at most one firing row per key, always the newest, and no insert meets the unique index, however acknowledgements and deletions interleave |
| `Alerts.EvaluationSettles` | internal/panel/alert/alert.go:112-147 | a complete evaluation leaves each triggered key firing or acknowledged and no other key firing, with any acknowledgements in between |
| `AlertDeletions.OpenAfterStep` | internal/panel/alert/alert.go:112-147 | a statement leaves a key with an open alert if and only if it opens one, or there was one and the statement neither deletes its node nor recovers its row |
| `AlertDeletions.SettlesIffRepaired` | internal/panel/alert/alert.go:112-147 | with deletions and acknowledgements anywhere, a complete evaluation leaves a triggered key open if and only if every statement that closed it was followed by one that opened it |
| `AlertDeletions.OnlyTriggeredFire` | internal/panel/alert/alert.go:134-147 | a complete evaluation, with deletions or without, leaves no untriggered key firing |
| `AlertDeletions.UnsettledIffIdReused` | internal/panel/db/db.go:231 | a triggered key whose node is kept ends without an open alert if and only if it had none before and its new row received the id, freed by a deletion, of a snapshot row that was firing and is not triggered, provided nobody acknowledges that row in between |
| `Alerts.FreedIdIsRecovered` | internal/panel/api/admin.go:331 | a concrete run in which a node deleted during an evaluation makes it recover another node's new alert |
| `Alerts.FiresIffAbsentOrRecovered` | internal/panel/alert/alert.go:112-123 | whenever a triggered key is visited, a row is inserted if and only if the key had no open alert when the evaluation began |
| `Alerts.AcknowledgedForGood` | internal/panel/api/admin.go:641-657 | an acknowledged newest row that no running evaluation threatens neither fires nor recovers again until its node is deleted |
| `Alerts.AckIsPermanentIff` | internal/panel/api/admin.go:641-657 | an acknowledgement is permanent if and only if no running evaluation's older snapshot makes it open another alert for the key or recover the row |
| `AlertEvaluator.OpenedMeans` | internal/panel/alert/alert.go:113-123 | an alert is opened for exactly the visited keys without an open one |
| `AlertEvaluator.ClosedMeans` | internal/panel/alert/alert.go:134-147 | an alert is closed for exactly the visited firing keys no longer triggered |
| `AlertEvaluator.TextsMean` | internal/panel/alert/alert.go:120-147 | an opened alert is announced with its new message, a closed one with the message its row had |
| `AlertEvaluator.DueMeans` | internal/panel/alert/alert.go:149-160 | first the opened alerts, then the closed ones, each text after its own prefix |
| `AlertEffects.FireExactly` | internal/panel/alert/alert.go:113-132 | one turn of the first loop, column by column: a row with the next id for a key without an open alert, or last seen, and the message of a firing one |
| `AlertEffects.RecoverExactly` | internal/panel/alert/alert.go:134-147 | one turn of the second loop: the newest row of a firing key no longer triggered ends now, and no other row changes |
| `AlertEvaluator.AlertTable.LoadExisting` | internal/panel/alert/alert.go:208-225 | the loop keeps the newest row of each key |
| `AlertEvaluator.AlertTable.Insert` | internal/panel/alert/alert.go:116-120 | an insert adds the firing row and keeps the table in order |
| `AlertEvaluator.AlertTable.Ack` | internal/panel/api/admin.go:641-657 | acknowledges the row with that id whatever its status, or finds none |
| `AlertEvaluator.AlertTable.Fire` | internal/panel/alert/alert.go:112-132 | the first loop, up to a failing statement, is the run of its steps, with one text per inserted row |
| `AlertEvaluator.AlertTable.Recover` | internal/panel/alert/alert.go:134-147 | the second loop is the run of its steps up to exactly the key whose statement fails, with one text per recovered alert |
| `AlertEvaluator.AlertTable.Notify` | internal/panel/alert/alert.go:149-160 | every message is sent after its prefix whatever became of the others |
| `AlertEvaluator.ReachMeans` | internal/panel/alert/alert.go:134-147 | the second loop is finished exactly if there are statements enough for the alerts to close; otherwise as many are closed as statements succeed |
| `AlertEvaluator.AlertTable.Evaluate` | internal/panel/alert/alert.go:112-161 | every column of every row afterwards, also when a statement fails; completed exactly if there are statements enough for both loops; completed, exactly the triggered keys are open and one message with its prefix was sent for every alert opened or closed; otherwise nothing was sent |
| `AlertEvaluator.NotificationsLostIff` | internal/panel/alert/alert.go:118-119 | notifications are lost if and only if an evaluation is cut short after it has opened or closed an alert |
| `AlertEvaluator.LostNotification` | internal/panel/alert/alert.go:112-161 | two alerts to open and a database that fails after one statement: nothing is sent, and the next evaluation sends only the second |

## Left out

- Executor.Complete: the callback run after a plain outcome was persisted (internal/agent/commands.go:225-230) is not modelled; its effects are outside the executor.
- Executor.RestartKeepsInv: a restart reads back what the last rename left; power loss that undoes a rename whose directory sync failed is not modelled.
- CommandExecution.CommandExecutor.Open: decoding commands.json, and creating its directory, are not modelled; the invariants start from a file an executor wrote.
- Executor.Digest: hexadecimal and base64 spellings are dropped; digests and signatures are octet strings.
- PanelStore.Store.Expire: the order of the expiry events is that of the table, not of (agent, sequence).
- PanelStore.Store.CreateBatch: a failing random source for command ids is not modelled; ids are arguments.
- Dispatch.Dispatcher.DispatchAgent: no other writer acts between its statements; `EndToEnd` covers interleavings through single-row events.
- EndToEnd.Agreement: several agents share one Panel, but only one agent's memory and disk are followed; the others may report anything about their own rows.
- Upgrade.GateOnlyUpgrades: signature, hash, URL, base64 and JSON checks and the artifact file are uninterpreted; what they are asked is modelled.
- UpgradeTransaction.RootHelper.RetainVersions: entries that are not directories, symbolic links and ownership are represented by a removal that fails.
- UpgradeTransaction.RootHelper.ApplyVerifiedUpdate: the readiness proof is a yes or no from outside.
- UpgradeTransaction.AppliedIffNamesAreClean: the listing of version directories is an arbitrary order of names given from outside.
- Upgrade.AppliedOnce: the agent's side of an upgrade (download, staging, readiness file, removal of claimed files) is not modelled; files are adversarial.
- WebSocketClient.Conn.Read: the opening handshake, Close with a status and reading after a close are not modelled; a cancelled context is the end of the input and of the writes; the sum of two lengths cannot exceed an int64 for slices that fit in memory.
- WebSocketClient.Conn.StartPing: two pings with the same random token are one; the wait itself is not modelled.
- Refresher.EveryEnqueueIsServed: what refreshOne does with the database and the provider is not modelled, nor stopping by context.
- Scheduler.AnsweredWithin: the collection is assumed to return; timer lengths and jitter are not modelled.
- OutboxStore.DurableOutbox.Put: ids are fresh numbers in name order; a quarantine keeps no more than 16 files, which is not modelled.
- Reporting.Reporter.Flush: one flush or put at a time; listings of other goroutines are included, concurrent reporters on one outbox are not.
- AlertEvaluator.AlertTable.Evaluate: failures of the initial queries and acknowledgements between its statements are left to the runs of module Alerts.
- Alerts.EvaluationSettles: which conditions trigger a rule (thresholds, versions, mutes) is an argument.
- The hub, the Agent's connection loop, enrolment, PKI, configuration, HTTP handlers, service detection, metrics, retention and the web front end: they would add easy members or parsing of external tools.
