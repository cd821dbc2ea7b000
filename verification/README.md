# XiaoYou runtime protocols, verified

This project models the hand-built protocols of the XiaoYou runtime and its operations scripts, and proves what they
promise over every run: the notification outbox and its delivery workers, the agenda service tickets, the robot turns,
the migration of a runtime home, the release installer, the operations worker, and six smaller algorithms (the
adversarial variants of the reliability gate, the session rotation, the drain wait, the semantic deployment gate with
the JSON text of a row, and the CONNECT parser and printer of the egress proxy).

`dafny verify dfyconfig.toml` checks everything. One module stands for one component:

| module | component |
|---|---|
| `Outbox`, `OutboxProtocol`, `OutboxRequeue` | the outbox file with claim and receipt; any number of delivery workers and other writers; when an id may be queued again |
| `AgendaTickets`, `AgendaProtocol`, `AgendaAdapter` | the ticket table; submissions, settlements, disconnects and restarts around it; the adapter whose methods are steps and runs of that |
| `RobotTurns`, `RobotProtocol` | the turn table and the maps beside it; submissions, retries, replies and restarts |
| `HomeInventory`, `HomeTarget`, `HomeMigration` | the walk over a home; copy and prune of the target; migrate and verify |
| `Installer` | switching release links with an undo log |
| `OpsWorker`, `OpsProtocol` | the replay store and one worker; any number of workers |
| `Variants` | generated variants and the two collision checks |
| `SessionRotation` | candidate scan and rotation |
| `DrainWait` | the polling loop |
| `JsonRow`, `SemanticGate` | canonical rows, snapshots and their comparison |
| `ConnectProxy` | request line parser and request printer |
| `Options`, `Text`, `Decimal` | optional values; `str.strip`, `str.join`; decimal numerals |

Where the source changes something step by step there is a class with the same fields, whose methods are proved
against functions on values; the protocols are transition systems over the same functions, with every interleaving,
crash and clock reading, and the main results are about all their runs.

## What is assumed

- Outbox: one `update_json` is atomic; lease ids are fresh. Other writers of the file may queue messages with no
  attempts yet, withdraw rows that are not sent, and queue an id again as the fixed daily reports do; a writer that
  changes several rows at once is taken row by row. The permission recheck, the offboarding list and the last inbound
  times are arbitrary at every claim. Instants are microseconds, and a stored time keeps whole seconds.
- Agenda: one SQL statement or transaction is atomic; one gateway process runs at a time, with one settlement thread
  beside its event loop. The reply bridge answers arbitrarily, also with an exception after storing the job.
- Robot: every lock-protected section is atomic; the conversation of a turn is what tenant, device and session give.
- Home migration: the owner of both trees runs it, and can list every directory of the home (the walk of the source
  raises at one that cannot be listed, scripts/xiaoyou_runtime_home_migration.py:116, and no phase has an outcome then);
  temporary names are fresh; home and target are disjoint; target nodes do not clash in kind with the entries; the home
  does not hold the receipt file; the backup of a sound database is faithful. A file whose owner may not read it stops
  the copy.
- Installer: any file operation may fail; a move within the base is a rename; no target lies below another one; labels
  are distinct; different paths may denote one location.
- Operations worker: an insertion that conflicts changes nothing; the trust check, the executor and the report intake
  answer arbitrarily.
- Digests (SHA-256) are taken to be injective: the digested text stands for them. `update`, `insert` and `delete`
  statements are the corresponding map and sequence updates.

## What turned out not to hold

- An outbox id that is queued again, as the fixed daily reports do, may be sent again although the first send may have
  arrived. Queueing again is safe exactly from rows that failed (`OutboxRequeue.SafeExactlyFromFailed`): then a message
  is sent again only after a failure receipt for each earlier send (`OutboxProtocol.ResendOnlyAfterFailureReceipt`). The
  report queues again from the other ended rows too, and a daily report is sent twice from a row that was sent outside its
  window (`OutboxRequeue.SentIsResent`), was withdrawn during a send (`OutboxRequeue.WithdrawnIsResent`), ended as
  unknown when its lease ran out (`OutboxRequeue.ExpiredIsResent`), or was trimmed from a full file
  (`OutboxRequeue.TrimmedIsResent`). What is said about ended rows holds for ids that the run does not queue again; three
  sends for each queueing hold for all (`OutboxProtocol.AtMostThreeSendsPerQueueing`).
- Above 2000 rows a claim can drop the very row that it hands out (`Outbox.ClaimKeepsItsRow` says exactly when,
  `Outbox.ClaimLosesItsRow` gives the files). Every writer that adds rows keeps the newest 2000, so such a file is a
  foreign or an old one.
- A completed agenda ticket can be overwritten. It is still at risk exactly while a submission of it has not settled how
  it ends, or a disconnect has it or can get it (`AgendaProtocol.CompletedLostExactlyAtRisk`); a settlement that meets a
  timeout loses it (`AgendaProtocol.CompletedIsLost`).
- A recorded robot turn may never get a response. In every reachable state it can still get one exactly if a
  submission of it is under way and not about to end, it is active at its chat, or a reply to it is on its way
  (`RobotProtocol.AnsweredExactlyUnlessGivenUp`); a retry of a stranded one waits for ever or is told to recover
  (`RobotProtocol.StrandedForever`). A turn is left so when it
  comes to a busy chat or device (`RobotProtocol.BusyRefusalStrands`; two turns of one device do it,
  `RobotProtocol.BusyDeviceStrands`), when the device identity cannot be bound to it after it was recorded
  (`RobotProtocol.RefuseStrands`), when its submission ends without a response, as a cancelled one does, and no reply is
  on its way (`RobotProtocol.LeaveStrands`), and when the process restarts (`RobotProtocol.RestartStrands`).
- Different devices of a tenant share a chat id for some sessions exactly when one name is the other one, a colon and a
  further identifier (`RobotTurns.DevicesCollideExactly`).
- Pruning the persistent home leaves stale paths behind exactly when the owner cannot list and traverse a directory
  above one of them (`HomeTarget.Home.Prune`, `HomeMigration.PruneCondition`).
- A finished target keeps a side file of an older database exactly if the home names that file but has no database
  (`HomeMigration.SideFileStaysExactly`, with such a home in `HomeMigration.SideFileHome`).
- A row of the operations worker is `RUNNING` for ever exactly if no living worker owns it
  (`OpsProtocol.FinishedExactlyIfOwned`).
- The digest-collision check of the reliability gate never notices repeated texts, because the index is part of what is
  digested (`Variants.HashCollision`); the text check does, from 601 variants on.
- A rotation deletes the routes that its scan found. What leads elsewhere is left exactly if the scan's rows still tell
  which routes lead to a candidate (`SessionRotation.DeletionExactly`); the check afterwards does not notice a redirected
  route that was deleted (`SessionRotation.CheckUnderInterference`).
- A CONNECT host of nothing but dots is accepted as an empty host, which cannot be forwarded
  (`ConnectProxy.EmptyHostExactlyDots`, `ConnectProxy.ForwardedTarget`).

## Model

| member | source | states |
|---|---|---|
| `Outbox.LeasedExactlyWhenDeliverable` | runtime/plugins/tuoguan_core/__init__.py:1007-1140 | supporting: a row is handed out if and only if it is a waiting direct message that is due, permitted, fresh, complete, addressed to an active colleague, and not in the quiet period of a conversation |
| `Outbox.ClosedExactlyWhenDoomed` | runtime/plugins/tuoguan_core/__init__.py:1011-1119 | supporting: a claim closes a row if and only if its lease ran out, its retry time is unreadable, or it is due and excluded, denied, stale, unreadable, incomplete or for an offboarded colleague |
| `Outbox.ClosedAsReasonSays` | runtime/plugins/tuoguan_core/__init__.py:1014-1119 | supporting: expired leases end unknown, the four data errors end failed with the error kept, everything else ends suppressed with its reason, and the recorded reason is true of the row |
| `Outbox.VerdictEffect` | runtime/plugins/tuoguan_core/__init__.py:1130-1141 | supporting: a claim either ends a row without touching its message, or hands it out under the new lease with one more attempt and a five-minute expiry |
| `Outbox.EffectConsumes` | runtime/plugins/tuoguan_core/__init__.py:1005-1142 | every claim and every receipt with an effect strictly decreases the number of status changes left to a row |
| `Outbox.ClaimConserves` | runtime/plugins/tuoguan_core/__init__.py:1005-1142 | with at most 2000 rows a claim changes exactly the first actionable row, keeps its message and loses no row |
| `Outbox.FinishConserves` | runtime/plugins/tuoguan_core/__init__.py:1175-1208 | a receipt whose lease is no longer current changes nothing; a current one changes exactly its own row and loses none |
| `Outbox.ClaimKeepsItsRow` | runtime/plugins/tuoguan_core/__init__.py:1141 | the handed-out row survives the trimming to 2000 rows if and only if it is among the newest 2000 |
| `Outbox.ClaimLosesItsRow` | runtime/plugins/tuoguan_core/__init__.py:1141 | for every row that can be handed out there is a file in which it is lost with its claim |
| `Outbox.OutboxFile.ClaimNext` | runtime/plugins/tuoguan_core/__init__.py:992-1152 | the claim loop acts on the first row that is not passed over, as specified for values |
| `Outbox.OutboxFile.Finish` | runtime/plugins/tuoguan_core/__init__.py:1155-1218 | the receipt loop settles the claimed row exactly when the lease is still current and the row still being sent: the lease goes, a success is sent without a retry time, a failure keeps the error and is tried again 60 seconds later if there were fewer than three attempts, and is failed otherwise |
| `Outbox.FailedSendWaits` | runtime/plugins/tuoguan_core/__init__.py:1189-1193 | after a failed receipt that counts, with fewer than three attempts made, no claim within 59 seconds does anything with the message |
| `Outbox.RetryIsDue` | runtime/plugins/tuoguan_core/__init__.py:1026-1035 | from 60 seconds on a claim treats the row as one without a retry time |
| `OutboxProtocol.StepKeeps` | runtime/plugins/tuoguan_core/__init__.py:934-1218 | every step of any worker and of the other writers keeps the invariant: distinct ids, and for ids that were queued again, if at all, only after they failed, no open send of a waiting or failed row, and open sends of a row being sent only under its lease |
| `OutboxProtocol.AtMostThreeSends` | runtime/plugins/tuoguan_core/__init__.py:946-1202 | over any run that does not queue it again, with any workers, crashes and clocks, a message is sent at most three times |
| `OutboxProtocol.AtMostThreeSendsPerQueueing` | runtime/plugins/tuoguan_core/__init__.py:1130-1139 | over any run at all, a message is sent at most three times for each time that it was queued |
| `OutboxProtocol.ResendOnlyAfterFailureReceipt` | runtime/plugins/tuoguan_core/__init__.py:1180-1202 | over any run in which each step that queues it again finds its row failed, a message is sent again only when every earlier send of it has a recorded failure receipt |
| `OutboxProtocol.TerminalRowsStay` | runtime/plugins/tuoguan_core/__init__.py:1011-1023 | a row that is sent, failed, suppressed or of unknown result is never changed or replaced by any continuation that does not queue its id again |
| `OutboxProtocol.CrashAbandons` | runtime/plugins/tuoguan_core/__init__.py:968-977 | a worker that stops in the middle of a send leaves its row to nobody |
| `OutboxProtocol.LostSendEndsUnknown` | runtime/plugins/tuoguan_core/__init__.py:1011-1022 | such a row is never sent again by any continuation that does not queue its id again, and stays as it is until it is ended |
| `OutboxProtocol.ExpiredClaimEnds` | runtime/plugins/tuoguan_core/__init__.py:1011-1022 | a claim that passes over all rows before one that is being sent ends that row as unknown exactly if its lease has run out |
| `OutboxProtocol.AtMostSixStatusChanges` | runtime/plugins/tuoguan_core/__init__.py:1005-1208 | over any run that does not queue it again a message changes its status at most six times |
| `OutboxProtocol.StepConserves` | runtime/plugins/tuoguan_core/__init__.py:1005-1208 | with at most 2000 rows a step that adds no row loses none and changes at most the first actionable row, or the row of its receipt or withdrawal, keeping the message |
| `OutboxProtocol.PassIsRun` | runtime/plugins/tuoguan_core/__init__.py:949-977 | one pass of the delivery loop is a run of protocol steps of its worker |
| `OutboxProtocol.Drain` | runtime/plugins/tuoguan_core/__init__.py:934-989 | the delivery round takes at most 50 passes, each of which finds something to do, ends early only when nothing is actionable, leaves the file as these passes leave it, and is a run of the protocol |
| `OutboxRequeue.SafeExactlyFromFailed` | runtime/plugins/tuoguan_core/daily_reporter.py:116-136 | for any set of statuses under which queueing again may find a row (or none), every run that keeps to it sends again only after failure receipts if and only if the set holds nothing but `failed` and statuses from which a row is never queued again |
| `OutboxRequeue.QueuedAgainExactly` | runtime/plugins/tuoguan_core/daily_reporter.py:116-136 | supporting: a known id is queued again exactly if it is gone, has ended without being sent, or was sent outside its window |
| `OutboxRequeue.SentIsResent` | runtime/plugins/tuoguan_core/daily_reporter.py:119-127 | a message whose send succeeded, queued again because it was sent outside its window and still deliverable, is sent again |
| `OutboxRequeue.WithdrawnIsResent` | runtime/plugins/tuoguan_core/proactive_work.py:1718-1734 | so is one withdrawn as suppressed, or with an unknown result, while a worker was sending it |
| `OutboxRequeue.ExpiredIsResent` | runtime/plugins/tuoguan_core/daily_reporter.py:128-136 | so is one whose send was lost and whose row ended as unknown when the lease ran out |
| `OutboxRequeue.TrimmedIsResent` | runtime/plugins/tuoguan_core/daily_reporter.py:132-136 | so is one whose row a full file dropped during the send, when another message was queued |
| `OutboxRequeue.OthersAreResent` | runtime/plugins/tuoguan_core/daily_reporter.py:1117-1134 | a fixed daily report meets these conditions: queueing it again from any status other than `failed`, or when it is gone, is not safe |
| `AgendaTickets.TicketTable.RequeueUnclaimed` | runtime/plugins/agenda_service_work/adapter.py:164-171 | exactly the dispatched tickets without an agent claim become issued again, and the count says how many |
| `AgendaTickets.TicketTable.ClaimIssued` | runtime/plugins/agenda_service_work/adapter.py:513-542 | a claim succeeds exactly for an issued, unexpired, attested ticket; a rejected claim leaves the table as it was |
| `AgendaTickets.TicketTable.NextIssued` | runtime/plugins/agenda_service_work/adapter.py:831-842 | overdue issued tickets expire, and the first issued ticket left is picked |
| `AgendaProtocol.StepKeeps` | runtime/plugins/agenda_service_work/adapter.py:544-606 | every step of submissions, settlement, disconnect, restart, agent and clock keeps the invariant of table, staged replies and process maps |
| `AgendaProtocol.AtMostOneAgentClaim` | runtime/plugins/tuoguan_core/runtime_contract.py:441-500 | over any run, restarts included, a ticket gives rise to at most one agent claim, and a claimed ticket is not open |
| `AgendaProtocol.NeverReopened` | runtime/plugins/agenda_service_work/adapter.py:164-171 | a ticket that was claimed or ended is never issued or dispatched again |
| `AgendaProtocol.AtMostOneCompletedJob` | runtime/plugins/agenda_service_work/adapter.py:695-799 | in every interleaving at most one completed terminal is staged per ticket |
| `AgendaProtocol.CompletedIsBacked` | runtime/plugins/agenda_service_work/adapter.py:712-799 | a completed ticket has a staged reply that is not blank, is the recorded text, and carries the ticket's own chat and message |
| `AgendaProtocol.CompletedLostExactlyAtRisk` | runtime/plugins/agenda_service_work/adapter.py:577-606 | in every reachable state some continuation loses a completed ticket if and only if a submission of it has not settled how it ends, or a disconnect has it or can still get it |
| `AgendaProtocol.CompletedIsLost` | runtime/plugins/agenda_service_work/adapter.py:577-589 | a run in which the settlement completes a ticket while its submission times out, whose late overwrite takes that back though the reply stays staged |
| `AgendaAdapter.Adapter.SubmitTicket` | runtime/plugins/agenda_service_work/adapter.py:544-606 | a call of the ingress is a run of the protocol; it is let in exactly for a claimable ticket of a free chat. Undisturbed, a reply leaves the ticket dispatched, a timeout or failure ends it so and stages exactly one job without a completed reply if the bridge stores it, and the chat is free again; at a busy chat it leaves the ticket dispatched and nothing else |
| `AgendaAdapter.Adapter.SettlePublicModelTerminal` | runtime/plugins/agenda_service_work/adapter.py:695-829 | a settlement is a run of the protocol; it succeeds exactly for an agent-claimed ticket bound to the message whose available reply was stored and kept. Undisturbed, it completes the ticket with that reply or fails it, stages the one job that the bridge stores, and remembers the ticket exactly if it was completed or an unavailable reply was taken; an uncorrelated one changes nothing |
| `AgendaAdapter.Adapter.Disconnect` | runtime/plugins/agenda_service_work/adapter.py:173-207 | a disconnect is a run of the protocol that leaves exactly the active tickets failed, a job for each that the bridge stored, in order, and the maps empty |
| `AgendaAdapter.Adapter.CloseSection` | runtime/plugins/agenda_service_work/adapter.py:801-829 | supporting: from any state, the end of a settlement is the corresponding protocol step |
| `AgendaAdapter.Adapter.OverwriteSection` | runtime/plugins/agenda_service_work/adapter.py:878-884 | supporting: from any state, the unguarded completion is the corresponding protocol step |
| `RobotTurns.OperationIdInjective` | runtime/plugins/robot_poc/adapter.py:1118-1120 | different accepted (device, session, turn) triples have different operations |
| `RobotTurns.DevicesCollideExactly` | runtime/plugins/robot_poc/adapter.py:1123-1131 | different accepted devices of a tenant share a chat id for some accepted sessions if and only if one name is the other one, a colon and a further identifier of at most 118 characters |
| `RobotTurns.PlainDevicesNeverCollide` | runtime/plugins/robot_poc/adapter.py:1123-1131 | devices without a colon never share a chat id |
| `RobotTurns.ChatIdsCollide` | runtime/plugins/robot_poc/adapter.py:1123-1131 | two such devices and sessions |
| `RobotTurns.RobotAdapter.Fence` | runtime/plugins/robot_poc/adapter.py:498-508 | the fence opens exactly when chat and device are free for the operation, and then holds both |
| `RobotTurns.RobotAdapter.ClearDelivered` | runtime/plugins/robot_poc/adapter.py:342-353 | after a durable delivery the operation is active at no device and not at its chat, and nothing else is released |
| `RobotProtocol.StepKeeps` | runtime/plugins/robot_poc/adapter.py:434-644 | every step of submissions, replies, deliveries and restarts keeps the invariant of table, maps and dispatch log |
| `RobotProtocol.DispatchedAtMostOnce` | runtime/plugins/robot_poc/adapter.py:452-468 | over any run, restarts included, a turn is given to the agent at most once |
| `RobotProtocol.OneLiveTurnPerDevice` | runtime/plugins/robot_poc/adapter.py:498-508 | in every reachable state both active maps hold the same operations, each exactly once |
| `RobotProtocol.TextIsFixed` | runtime/plugins/robot_poc/adapter.py:869-929 | a recorded turn keeps its text for ever |
| `RobotProtocol.RetryNeverStarts` | runtime/plugins/robot_poc/adapter.py:452-468 | a retry with another text is always a conflict; with the same text it is cached, waits or is told to recover |
| `RobotProtocol.ClearedIsReleased` | runtime/plugins/robot_poc/adapter.py:342-353 | clearing an operation wherever it is active removes exactly its own chat and its own device |
| `RobotProtocol.BusyRefusalStrands` | runtime/plugins/robot_poc/adapter.py:499-506 | a claimed turn that comes to the fence is left recorded, unanswered and held by nobody if and only if its chat or its device is busy |
| `RobotProtocol.BusyDeviceStrands` | runtime/plugins/robot_poc/adapter.py:498-508 | a run from an empty table in which the second of two turns of one device is stranded |
| `RobotProtocol.RestartStrands` | runtime/plugins/robot_poc/adapter.py:869-929 | a restart strands exactly the recorded turns without a response |
| `RobotProtocol.RefuseStrands` | runtime/plugins/robot_poc/adapter.py:478-497 | every fresh submission whose identity binding is rejected is a two-step run that leaves its turn recorded and stranded |
| `RobotProtocol.LeaveStrands` | runtime/plugins/robot_poc/adapter.py:634-644 | a submission that ends without a response strands its turn if and only if no reply to it is on its way |
| `RobotProtocol.AnsweredExactlyUnlessGivenUp` | runtime/plugins/robot_poc/adapter.py:434-644 | in every reachable state, some continuation gives a recorded turn without a response one if and only if the turn is not given up: a submission of it is under way and not about to end, it is active at a chat, or a reply to it is on its way |
| `RobotProtocol.StrandedForever` | runtime/plugins/robot_poc/adapter.py:452-468 | a stranded turn stays without a response in every continuation |
| `RobotProtocol.SubmitText` | runtime/plugins/robot_poc/adapter.py:434-644 | a whole submission is a run of the protocol, and a repeated one changes nothing. Undisturbed, a fresh one records the turn, with a response exactly if it came through the fence and the agent failed, and stays active at chat and device exactly if it broke off behind the fence or was handed to reply recovery |
| `RobotProtocol.Send` | runtime/plugins/robot_poc/adapter.py:297-432 | a whole reply is a run of the protocol. Undisturbed, a direct or durable one gives the active turn its response and nobody waits for it any more, so that a later submission of the same text gets it; a durable one frees its chat and device; no other turn changes. Notices, hand-overs and whatever is not accepted change nothing |
| `RobotProtocol.FailSection` | runtime/plugins/robot_poc/adapter.py:931-955 | supporting: from any state, recording a failure is the corresponding protocol step |
| `RobotProtocol.LeaveSection` | runtime/plugins/robot_poc/adapter.py:634-644 | supporting: from any state, leaving a submission is the corresponding protocol step |
| `HomeInventory.Inventory.Collect` | scripts/xiaoyou_runtime_home_migration.py:72-157 | the recursive walk appends exactly what the specification of the walk reports, and terminates on every tree with links |
| `HomeInventory.Inventory.Take` | scripts/xiaoyou_runtime_home_migration.py:160-220 | the inventory of a home is the walk over its top directory |
| `HomeInventory.InventoryExact` | scripts/xiaoyou_runtime_home_migration.py:85-157 | an inventory without problems holds exactly the non-excluded logical paths that denote a directory or file through internal links, each once, and describes each truthfully |
| `HomeInventory.ProblemsExact` | scripts/xiaoyou_runtime_home_migration.py:73-157 | the problems of a home are exactly the links out of it, the links to nothing, the returns to a directory that the path went through, and the special files, at the paths that are not excluded and have not come back to a directory before |
| `HomeInventory.InventoryParentClosed` | scripts/xiaoyou_runtime_home_migration.py:180-195 | every ancestor of a recorded path is recorded as a directory |
| `HomeInventory.WalkComplete` | scripts/xiaoyou_runtime_home_migration.py:117-157 | a walk without problems records every path that is stored below a node that is not excluded |
| `HomeTarget.ByDepthOrdered` | scripts/xiaoyou_runtime_home_migration.py:268-275 | the directories come parents first and each once |
| `HomeTarget.Home.Unlock` | scripts/xiaoyou_runtime_home_migration.py:283-286 | unlocking from the top never lacks a permission and ends with every directory usable by its owner |
| `HomeTarget.Home.PutFiles` | scripts/xiaoyou_runtime_home_migration.py:288-299 | every file except the database files is put in place with its content and mode, up to the first one that cannot be read |
| `HomeTarget.Home.Relock` | scripts/xiaoyou_runtime_home_migration.py:301-306 | relocking from the bottom never loses access to an ancestor and gives every directory its source mode |
| `HomeTarget.Home.Copy` | scripts/xiaoyou_runtime_home_migration.py:268-306 | on any target, also one left read-only, the copy succeeds exactly if every file to copy can be read; then every entry is in place under its own mode, and in any case nothing else is touched |
| `HomeTarget.Home.Prune` | scripts/xiaoyou_runtime_home_migration.py:334-363 | the prune removes everything that has to go if and only if its owner can list and traverse all directories above it, and never touches anything else |
| `HomeMigration.BackupDatabase` | scripts/xiaoyou_runtime_home_migration.py:309-331 | a sound copy replaces the database and its side files go; an unsound one changes nothing |
| `HomeMigration.PruneCondition` | scripts/xiaoyou_runtime_home_migration.py:334-363 | in a staged target the prune can finish exactly when the stale paths of the old target are reachable |
| `HomeMigration.FinalizedExactly` | scripts/xiaoyou_runtime_home_migration.py:396-435 | the finalized target has exactly the promised paths and contents if and only if the prune left only kept paths |
| `HomeMigration.SideFileStaysExactly` | scripts/xiaoyou_runtime_home_migration.py:309-331 | a side file of an older target database stays if and only if the home has no database but names that file |
| `HomeMigration.SideFileHome` | scripts/xiaoyou_runtime_home_migration.py:309-331 | a home and a target that meet all that a finalization asks for, and for which it stays |
| `HomeMigration.Migrate` | scripts/xiaoyou_runtime_home_migration.py:366-435 | which phase ends how; a seed is done exactly if every file is readable and the database sound or absent, and then the target mirrors the home (kinds, modes, contents, database, receipt) beside what was there before; finalizing reaches exactly the promised target if and only if every stale path is reachable, and mirrors the home whenever it is done |
| `HomeMigration.Verify` | scripts/xiaoyou_runtime_home_migration.py:438-487 | the verification passes exactly when the inventory has no problem, every file reads as its source and the database is there and sound |
| `HomeMigration.VerifyExactly` | scripts/xiaoyou_runtime_home_migration.py:438-487 | so the verification passes exactly if every file that a path of the home denotes is read in the target with its content, and the database is there and sound |
| `HomeMigration.VerifyAfterFinalize` | scripts/xiaoyou_runtime_home_migration.py:448-478 | verifying after a finalization on an unchanged home finds no mismatch |
| `Installer.UniqueTargets` | scripts/xiaoyou_release_installer.py:63-70 | of every repeated path the first target is kept and nothing else is dropped |
| `Installer.InstallLosesNoFile` | scripts/xiaoyou_release_installer.py:255-281 | a planned installation takes no file away from any target location, in a tree or behind a link, whichever targets share it |
| `Installer.SwitchedAt` | scripts/xiaoyou_release_installer.py:315-330 | a location ends as the link of the last target that denotes it |
| `Installer.SwitchedElsewhere` | scripts/xiaoyou_release_installer.py:315-330 | locations of no target are untouched |
| `Installer.LogGrows` | scripts/xiaoyou_release_installer.py:319-328 | a log extended by the undo of the last step still undoes everything since the start |
| `Installer.Base.Switch` | scripts/xiaoyou_release_installer.py:315-330 | whichever operation fails, the undo entry written so far takes the location back to what it was |
| `Installer.Base.SwitchAll` | scripts/xiaoyou_release_installer.py:314-330 | after any prefix of steps the undo log replays to the initial state and has its backups, and switching fails only where a file operation does |
| `Installer.Base.Rollback` | scripts/xiaoyou_release_installer.py:331-347 | locations with no reported error denote what the full replay of the log gives them, and a log that has its backups reports an error exactly if a file operation fails |
| `Installer.Base.Install` | scripts/xiaoyou_release_installer.py:292-364 | an apply is refused exactly if a target holds a file that is not behind payload, slash and its source. Otherwise it succeeds exactly if no file operation fails, and then every target denotes the link to payload, slash and the source of the last target at its location and nothing else changed; it is rolled back exactly if one operation fails and no other one in the rollback, and then every location is as it was, and otherwise all but the reported ones |
| `Installer.LinkLeadsBelow` | scripts/xiaoyou_release_installer.py:314-327 | after an installation every target denotes a link below the payload |
| `Installer.SameLinkExactly` | scripts/xiaoyou_release_installer.py:314-327 | two locations then have the same link if and only if their last targets have the same source |
| `OpsWorker.CheckReport` | scripts/xiaoyou_ops_worker_v2.py:297-328 | a report is accepted exactly when it was printed, matches id, PR, SHA and action of the command, and claims no change |
| `OpsWorker.ReplayStore.Reserve` | scripts/xiaoyou_ops_worker_v2.py:205-222 | a reservation succeeds exactly when neither comment nor command is in the table |
| `OpsWorker.ReplayIsIgnored` | scripts/xiaoyou_ops_worker_v2.py:370-414 | once taken up, a comment or command is never taken up again, however it ended |
| `OpsWorker.Worker.ProcessComment` | scripts/xiaoyou_ops_worker_v2.py:351-414 | the handling of a comment has exactly the specified effect on store, executor and intake |
| `OpsWorker.Worker.RunOnce` | scripts/xiaoyou_ops_worker_v2.py:417-426 | a pass counts every comment once, by what became of it in turn, and counts as reported exactly the rows that become reported |
| `OpsProtocol.StepKeeps` | scripts/xiaoyou_ops_worker_v2.py:198-240 | every step of any worker keeps the invariant of rows, executions, dispatches and owners |
| `OpsProtocol.ExecutedAtMostOnce` | scripts/xiaoyou_ops_worker_v2.py:376-391 | over any run the executor starts at most once per comment and at most once per command id |
| `OpsProtocol.PostedMatchesReserved` | scripts/xiaoyou_ops_worker_v2.py:315-326 | every dispatched report matches id, PR, SHA and action of a command reserved under its comment, one per command |
| `OpsProtocol.StatusIsTrue` | scripts/xiaoyou_ops_worker_v2.py:389-413 | a reported row was executed and dispatched with that result; a failed one was executed, and dispatched only if it failed there |
| `OpsProtocol.AbandonedForever` | scripts/xiaoyou_ops_worker_v2.py:198-240 | a row whose worker is gone never changes, and its command is neither executed nor reported again |
| `OpsProtocol.FinishedExactlyIfOwned` | scripts/xiaoyou_ops_worker_v2.py:381-414 | in every reachable state a running row can still be finished if and only if a living worker owns it |
| `OpsProtocol.DeathAbandons` | scripts/xiaoyou_ops_worker_v2.py:389-413 | a worker that dies past its reservation leaves a running row that nobody owns |
| `OpsProtocol.HandledIsRun` | scripts/xiaoyou_ops_worker_v2.py:370-414 | handling a comment without interference is a run of the protocol |
| `Variants.VariantsDistinct` | scripts/xiaoyou_reliability_gate.py:59-70 | for every text, also an empty one, the variants below index 600 are pairwise different |
| `Variants.VariantsRepeat` | scripts/xiaoyou_reliability_gate.py:64-69 | the generator has period 600 |
| `Variants.TextCollision` | scripts/xiaoyou_reliability_gate.py:161-165 | the text-collision check fires exactly when more than 600 variants are asked for |
| `Variants.TextCollisions` | scripts/xiaoyou_reliability_gate.py:158-166 | then it names every scenario, otherwise none |
| `Variants.HashInputExactly` | scripts/xiaoyou_reliability_gate.py:73-75 | for all ids, digest inputs agree if and only if id, stripped input and index do, or one id takes in the index line of the other |
| `Variants.HashInputInjective` | scripts/xiaoyou_reliability_gate.py:73-75 | for ids without a newline only the first is possible |
| `Variants.HashCollision` | scripts/xiaoyou_reliability_gate.py:150-157 | the digest check fires if and only if there are rows and the count is negative, or positive with a malformed row or two rows that share a digest input; for ids without a newline the latter means the same id and stripped input |
| `SessionRotation.PromptTokensIsMaximum` | scripts/rotate_wecom_sessions_for_latency.py:64-80 | the prompt size of a session is the largest value that a route reports for it, or 0 |
| `SessionRotation.CandidateSessions` | scripts/rotate_wecom_sessions_for_latency.py:28-107 | the four passes select exactly the live sessions of the users that reach the message or the prompt limit, with their sizes |
| `SessionRotation.SelectedExactly` | scripts/rotate_wecom_sessions_for_latency.py:28-107 | a session is selected if and only if it is an open one of the users that has at least one and enough messages, or a route reports a prompt for it that is positive and large enough |
| `SessionRotation.DeletingMatches` | scripts/rotate_wecom_sessions_for_latency.py:216-217 | deleting the matching rows one by one leaves exactly the routes that lead elsewhere, in order |
| `SessionRotation.Gateway.MatchingRoutes` | scripts/rotate_wecom_sessions_for_latency.py:110-130 | the rows whose entry leads to one of the sessions, in order |
| `SessionRotation.Gateway.Verify` | scripts/rotate_wecom_sessions_for_latency.py:222-239 | the writeback check passes exactly when all candidates are closed and no route or mirror entry names one |
| `SessionRotation.Gateway.Rotate` | scripts/rotate_wecom_sessions_for_latency.py:133-257 | without interference an applied rotation is verified: it archives and ends exactly the candidates, leaves exactly the routes and mirror entries that name none of them, reports how many it found, and changes nothing else |
| `SessionRotation.DeletionExactly` | scripts/rotate_wecom_sessions_for_latency.py:216-217 | for any scan and any later table, deleting the scanned rows leaves exactly the routes that lead elsewhere if and only if those rows still tell which routes lead to a candidate |
| `SessionRotation.CheckUnderInterference` | scripts/rotate_wecom_sessions_for_latency.py:222-239 | what the check then reports: success if and only if every candidate could be closed and every later route to one was in a scanned row |
| `SessionRotation.RedirectedRowIsDeleted` | scripts/rotate_wecom_sessions_for_latency.py:216-217 | a redirected route that is deleted all the same |
| `SessionRotation.RotatedOnce` | scripts/rotate_wecom_sessions_for_latency.py:206-215 | rotated sessions are no candidates of any later scan |
| `DrainWait.WaitForQuiesced` | scripts/xiaoyou_wecom_callback_drain.py:158-205 | the loop ends at the first sample that decides, and its polls before the last fit into the allowed time at the poll interval, with the source's lower limits of 0.1 and 0.05 seconds |
| `DrainWait.LongestRun` | scripts/xiaoyou_wecom_callback_drain.py:187-191 | counting from the start of the current run of zeros finds every run that spans the window |
| `DrainWait.QuiescedMeans` | scripts/xiaoyou_wecom_callback_drain.py:169-197 | quiet is reported only after a contiguous suffix of active, valid, idle samples as long as the window |
| `DrainWait.TimedOutMeans` | scripts/xiaoyou_wecom_callback_drain.py:199-204 | a timeout is reported at the first sample past the deadline, and only if no run of zeros up to it spans the window |
| `DrainWait.IdleWait` | scripts/xiaoyou_wecom_callback_drain.py:187-204 | over idle samples the wait ends quietly exactly if the window has passed at its last sample, and always if the window fits before the deadline |
| `DrainWait.EndsOnce` | scripts/xiaoyou_wecom_callback_drain.py:172-205 | a wait has one outcome |
| `JsonRow.QuotedTail` | scripts/xiaoyou_agenda_semantic_gate.py:86-88 | a quoted JSON string can be read back in only one way, whatever follows |
| `JsonRow.EncodePrefixFree` | scripts/xiaoyou_agenda_semantic_gate.py:38-41 | in a row, null, integers, reals, strings and blobs can be read back in only one way |
| `JsonRow.EncodeRowInjective` | scripts/xiaoyou_agenda_semantic_gate.py:81-88 | rows of one table have the same text exactly when they are equal |
| `JsonRow.EncodeRowOneLine` | scripts/xiaoyou_agenda_semantic_gate.py:86-90 | the text of a row holds no newline |
| `SemanticGate.SortedIsCanonical` | scripts/xiaoyou_agenda_semantic_gate.py:89 | a multiset of lines has one sorted list |
| `SemanticGate.TableSnapshot` | scripts/xiaoyou_agenda_semantic_gate.py:68-95 | the snapshot loop computes the specified row count, digest and columns |
| `SemanticGate.SnapshotDecides` | scripts/xiaoyou_agenda_semantic_gate.py:68-95 | snapshots are equal exactly when the columns and the multisets of rows are |
| `SemanticGate.CompareSnapshots` | scripts/xiaoyou_agenda_semantic_gate.py:112-150 | the comparison separates exactly the differing tables by kind, and its verdict follows from them |
| `SemanticGate.Gate` | scripts/xiaoyou_agenda_semantic_gate.py:98-150 | the gate accepts two databases exactly when every table other than the two with heartbeats and statistics is in both with the same columns and multiset of rows, or in neither |
| `SemanticGate.ReorderIsAccepted` | scripts/xiaoyou_agenda_semantic_gate.py:89-90 | reordering rows is never noticed |
| `ConnectProxy.AcceptedIsParsed` | scripts/agnes_egress_proxy.py:79-93 | a line that can be taken apart into method, host, digits and version is parsed as that target |
| `ConnectProxy.ParsedIsAccepted` | scripts/agnes_egress_proxy.py:79-93 | nothing else is parsed |
| `ConnectProxy.ParsedShape` | scripts/agnes_egress_proxy.py:79-93 | a parsed host is plain or empty and its port is from 1 to 65535 |
| `ConnectProxy.LineRoundTrip` | scripts/agnes_egress_proxy.py:96-98 | a printed request line is read as printed if and only if the host is a plain one, colons allowed, and the port is legal |
| `ConnectProxy.RequestRoundTrip` | scripts/agnes_egress_proxy.py:96-104 | so is the first line of the whole printed request, if and only if the host also holds no line end |
| `ConnectProxy.RequestReadsBack` | scripts/agnes_egress_proxy.py:96-104 | read line by line, the printed request has exactly the request line, the host, the keep-alive and, if there is one, the credential, if and only if neither host nor credential holds a line end |
| `ConnectProxy.EmptyHostExactlyDots` | scripts/agnes_egress_proxy.py:93 | the parsed host is empty if and only if the line names nothing but dots |
| `ConnectProxy.ForwardedTarget` | scripts/agnes_egress_proxy.py:79-104 | a parsed target survives printing and parsing if and only if the line names more than dots |
| `ConnectProxy.DotsAreEmptyHost` | scripts/agnes_egress_proxy.py:93 | every host of nothing but dots is accepted as an empty host, whose request line is refused |

## Left out

- Text of the outbox: permission stamps, the reasons and times of a withdrawal, audit rows, message ids, receipts and
  lease times other than the expiry; the reason code of a denied permission.
- Futures and coroutines of the agenda and robot adapters: a submission may return or give up at any time.
- Row order of tickets beyond the order of the table, and the payload and identity checks of a claim, which are one flag.
- Contents of robot requests (envelope, voice, identity lookup); a turn is its operation, text, device and chat.
- Ownership, times and temporary names of copied files; hashing of file contents; the directory listing order beyond depth.
- Verification of releases, staging, receipts of an installation, and the copy into the canonical release directory.
- Failure codes of the operations worker as texts; errors of the network library that end a pass instead of failing a comment.
- The other checks of the reliability gate, which compare single fields.
- The order in which rotation candidates are reported, hashes in the report, and the handoff columns.
- The SQL text, the read-only connection and the JSON file of a semantic snapshot; text that cannot be encoded as UTF-8.
- Sockets, header reading, relaying and routing of the egress proxy.
- HomeInventory.Inventory.Collect: links are resolved in one step, so a chain of links is one link to its end.
