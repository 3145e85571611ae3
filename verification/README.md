# Verified model of the agent's delivery path, upgrades and coordinators

This project models the parts of the VPS manager where state has to survive
failures, concurrency or unbounded input, and proves what they promise:

- **Event windows** (`EventTypes`, `EventWindow`, `EventWindowProps`, `EventChain`, `EventStall`,
  `EventBurst`, `EventJson`, `Framing`, `EventSource`, `Nano`): framing JSON objects by hand, filtering
  and capping Docker events, the synthesized gap event, the proposed watermark, chains of windows, and
  concrete responses that show where the exact conditions fail.
- **Durable delivery** (`Delivery`, `DeliveryRuns`, `EndToEnd`): the store with memory and disk kept
  apart, writes that may take effect yet report failure, the push cycle, and the end-to-end statement
  that no event is lost silently between the daemon and the acknowledged watermark.
- **Upgrade jobs** (`UpgradeJob`, `UpgradeRules`, `UpgradeRuns`, `UpgradeService`): every read and every compare-and-set
  write a separate step of any number of concurrent callers, leases, fencing tokens and deadlines.
- **Privileged binary swap** (`HelperDisk`, `Helper`, `Daemon`): one file operation at a time, each of which can
  fail or misreport, with a crash possible after any of them, and the daemon's reading of the disk.
- **Command receipts** (`Receipts`), **canonical JSON** (`CanonicalText`, `Canonical`,
  `CanonicalDecode`, `CanonicalPrinters`), **alert evaluators** (`Alerts`), **container selection** (`Selection`) and the
  **lifecycle coordinator** (`Lifecycle`).

`Lex` and `Options` hold the string order and the option type the others share. Code that changes state step by step is modelled by
methods proved equal to functions of the old state; the theorems are lemmas about those functions over
every run. A crash is a restart from what is durable: in delivery and receipts a cycle whose remaining
operations had no effect, in the helper any disk an operation left on its way. Inputs the model takes
from outside are parameters: clocks, hashes, encoders, the decoder of one JSON object, the outcome of
every write, push, daemon call and service restart.

Where the code and its comments or documentation disagree, the model follows the code:

- `ReserveSequence` is documented to change nothing when its write fails; the directory sync after the
  rename can fail too, and then the disk is one ahead. No sequence is reissued either way.
- Proposed boundary digests are not capped at 256 on the live path. A batch with more distinct digests at
  its boundary is never persisted (`EndToEnd.CollectedBatchPersists`), 257 deaths within one second reach
  that (`EndToEnd.BurstNeverPersists`), and delivery then stalls for good (`EndToEnd.StallsForGood`).
- The gap event's count is taken before events are popped for its own bytes, so it could be too low
  (`EventWindowProps.GapCount`, `EventBurst.GapCountsTooFew`); but the encoder's texts are so short that
  this never happens and the byte cap never bites (`EventJson.EncodedCountsAreExact`).
- A job can be swapped in more than once when the disk no longer shows that it was
  (`Helper.SwapsAgainUnbacked`, `Helper.SwapsAgainMisread`); `Helper.Host.HandleApply` says exactly when.
- The executing mark is saved as not executed, so a death inside the daemon call leads to a second call;
  the promotion of executed receipts to uncertain is never reached from receipts this worker writes.
- The deadline check strips the clock's sign, so a clock before the epoch does not fail closed.
- The Go string encoder always escapes U+2028 and U+2029, and before Go 1.22 spells backspace and form
  feed differently from JavaScript; the release build uses a newer Go, the module file admits older ones.
- The updater's signed-bytes function accepts a `null` document, the release pipeline's does not.
- Any error of the helper's existence check counts as "no binary installed", so an unreadable but
  existing binary is replaced without a backup (`Helper.MisreadIsTheOnlyGap`).
- `container_unhealthy` has a window of one and a clear run of three, so negatives never clear it.

## Model

| member | source | states |
|---|---|---|
| `EventWindow.ReadEvents` | packages/agent/internal/metrics/docker_monitoring_collection.go:488-604 | the reading loop stops at exactly the first read that calls for it and for the right reason, and has accepted exactly the prefix before it, although it only keeps running counters |
| `EventWindow.JudgeDecoded` | packages/agent/internal/metrics/docker_monitoring_collection.go:518-562 | a decoded item within the caps closes the boundary, comes too late after it, or leaves the counters as the longer prefix determines them |
| `EventWindow.AdmitScoped` | packages/agent/internal/metrics/docker_monitoring_collection.go:560-604 | an in-scope item marks the overrun, fills the batch and starts the boundary, is accepted, or is passed over, and the counters stay those of the prefix |
| `EventWindow.CollectDockerEventWindow` | packages/agent/internal/metrics/docker_monitoring_collection.go:457-604 | a window whose start is not before its end fails; any other hands over the outcome its stopping read determines |
| `EventWindow.TruncateDockerTransmit` | packages/agent/internal/metrics/docker_monitoring_collection.go:732-750 | with one slot reserved for the gap event, the kept prefix is the longest within count and bytes, and its byte count is exact |
| `EventWindow.AppendDockerGapFitting` | packages/agent/internal/metrics/docker_monitoring_collection.go:717-730 | events are popped only until the gap event fits, and it is always the last event; a gap that fits nowhere goes alone |
| `EventWindow.Finish` | packages/agent/internal/metrics/docker_monitoring_collection.go:481-487 | a stopped window transmits the kept prefix and one gap event, with the requested watermark |
| `EventWindow.TripFits` | packages/agent/internal/metrics/docker_monitoring_collection.go:581-591 | the caps hold up to the item that fills the batch and fail from it on |
| `EventTypes.ClassifySpec` | packages/agent/internal/metrics/docker_monitoring_collection.go:527-580 | the loop's sequence of checks accepts exactly the admissible reads that were not already committed, at their own time |
| `EventTypes.AcceptedTime` | packages/agent/internal/metrics/docker_monitoring_collection.go:222-241 | an accepted event carries its own nanosecond time unreduced whenever it has one, its seconds times 10^9 and the reduced mark only without one, and a negative or missing time is never accepted |
| `EventTypes.AcceptsExactly` | packages/agent/internal/metrics/docker_monitoring_collection.go:527-580 | admission on the daemon's own fields: an event is accepted exactly when its one rendering (key, action, time, id) lies in the window and kind, action, caps, ids, codes and committed digests do not refuse it |
| `EventTypes.SafeIdExactly` | packages/agent/internal/metrics/docker_monitoring_validate.go:13-39 | a bounded id is a string of letters, digits and four marks, not empty and not too long |
| `EventTypes.BoundaryDigestsSpec` | packages/agent/internal/metrics/docker_monitoring_collection.go:624-639 | boundary digests are the sorted set of digests of the events accepted at that time |
| `EventWindowProps.WindowRelations` | packages/agent/internal/metrics/docker_monitoring_validate.go:227-248 | every collected window meets the agent's window and watermark relations, and is lossy exactly when its last event is a gap, which names the reason and reaches from the start to the proposal |
| `EventWindowProps.WindowCaps` | packages/agent/internal/metrics/docker_monitoring_collection.go:481-487 | at most 100 events, within 64 KiB whenever a lone gap event fits, and the output is a prefix of the accepted events followed by at most one gap event |
| `EventWindowProps.WhyStopped` | packages/agent/internal/metrics/docker_monitoring_collection.go:488-604 | each way a window stops, in numbers of events and bytes: deadline, oversize, overrun, boundary, failure or the end of the response |
| `EventWindowProps.QuietWindowCompletes` | packages/agent/internal/metrics/docker_monitoring_collection.go:488-622 | an undisturbed window over a response within every cap is read to its end and completes |
| `EventWindowProps.SentEventsAreReads` | packages/agent/internal/metrics/docker_monitoring_collection.go:527-622 | every transmitted event is some daemon event's own rendering, at that event's own time |
| `EventWindowProps.GapCount` | packages/agent/internal/metrics/docker_monitoring_collection.go:717-730 | the gap's skipped count never exceeds what is missing, and is exact if and only if the events kept when its slot was reserved leave room for its bytes or there are none |
| `EventBurst.GapCountsTooFew` | packages/agent/internal/metrics/docker_monitoring_collection.go:717-730 | a concrete window of events of 660 bytes, longer than the encoder ever writes, whose gap counts two of three missing events |
| `EventJson.EventShort` | packages/agent/internal/metrics/docker_monitoring.go:164-188 | the encoded text of every valid event is at most 500 bytes |
| `EventJson.FullByCount` | packages/agent/internal/metrics/docker_monitoring_collection.go:581-591 | with the texts the encoder writes, the batch fills up by count alone |
| `EventJson.EncodedCountsAreExact` | packages/agent/internal/metrics/docker_monitoring_collection.go:717-750 | with the texts the encoder writes, a stopped window transmits the first 99 accepted events, or all, and a gap that counts exactly the others, within 64 KiB |
| `EventWindowProps.ProposedDigests` | packages/agent/internal/metrics/docker_monitoring_collection.go:624-639 | a boundary stop proposes its own timestamp with exactly the digests accepted there |
| `EventWindowProps.BoundarySeparates` | packages/agent/internal/metrics/docker_monitoring_collection.go:533-540 | on a time-ordered stream a boundary stop falls exactly between the boundary timestamp and the next one |
| `EventChain.TakenIsUncapped` | packages/agent/internal/metrics/docker_monitoring_collection.go:527-591 | until it stops, the window accepts what a pass without caps accepts |
| `EventChain.SplitExactly` | packages/agent/internal/metrics/docker_monitoring_collection.go:533-604 | events accepted before a boundary overflow, followed by those an uncapped pass accepts when resumed at its watermark, are exactly one uncapped pass, unless the boundary time is the window's start and the response repeats an event committed there before |
| `EventChain.SplitDisjoint` | packages/agent/internal/metrics/docker_monitoring_collection.go:533-604 | none is accepted twice: the first part ends at the boundary, the resumed part starts after it |
| `EventBurst.BoundaryAtSinceForgets` | packages/agent/internal/metrics/docker_monitoring_collection.go:624-639 | a concrete window that fills up by count exactly at its start forgets an already committed event: the resumed pass accepts it again |
| `EventChain.BoundaryTakesAll` | packages/agent/internal/metrics/docker_monitoring_collection.go:533-604 | a window stopped by boundary overflow has accepted every acceptable event up to its proposed watermark and none after it |
| `EventChain.CompleteSends` | packages/agent/internal/metrics/docker_monitoring_collection.go:614-622 | a window read to its end transmits every deliverable event it sees that was not committed before |
| `EventChain.DeliverableIsAcceptable` | packages/agent/internal/metrics/docker_monitoring_collection.go:527-580 | what the agent is meant to deliver is exactly what a window around it accepts apart from committed events, rendered from the daemon's own fields |
| `EventChain.RoundAccounts` | packages/agent/internal/metrics/docker_monitoring_collection.go:481-622 | within one window every deliverable event up to the proposed watermark is transmitted, covered by the gap event, or was committed before |
| `EventChain.NothingLostSilently` | packages/agent/internal/metrics/docker_monitoring_collection.go:457-622 | over a chain of windows, each starting at the last proposal, nothing between its start and its last watermark is lost silently |
| `Framing.NextDockerJSONValue` | packages/agent/internal/metrics/docker_monitoring_collection.go:317-387 | one call answers what the byte budget, the depth bound and the braces outside strings dictate, reading no byte past the object |
| `Framing.BlankExactly` | packages/agent/internal/metrics/docker_monitoring_collection.go:333-335 | the blanks skipped between objects are exactly JSON white space |
| `Framing.ObjectCloses` | packages/agent/internal/metrics/docker_monitoring_collection.go:340-385 | a JSON object within the depth bound closes exactly at its end, never at braces or escaped quotes inside strings (section 7 of RFC 8259) |
| `Framing.FramedUnique` | packages/agent/internal/metrics/docker_monitoring_collection.go:317-387 | at an object that closes within budget the only admissible answer is that object's text |
| `Framing.NextObject` | packages/agent/internal/metrics/docker_monitoring_collection.go:317-387 | a call takes off exactly the first of the remaining objects |
| `Framing.FrameAll` | packages/agent/internal/metrics/docker_monitoring_collection.go:317-387 | repeated calls over whitespace-separated objects within the bounds return exactly those texts, in order, then the end of the stream |
| `EventSource.ReadStream` | packages/agent/internal/metrics/docker_monitoring_collection.go:494-515 | a body of such objects yields one read per object, in order, and nothing else |
| `EventSource.CollectFromBody` | packages/agent/internal/metrics/docker_monitoring_collection.go:457-604 | framing and window together: the outcome is determined by exactly the objects the body holds |
| `Nano.CmpIsNumeric` | packages/agent/internal/metrics/docker_monitoring_validate.go:70-78 | comparing canonical decimal strings by length and bytes compares the numbers, and only equal strings spell equal numbers |
| `Nano.CanonicalIsSpelling` | packages/agent/internal/metrics/docker_monitoring_validate.go:44-60 | the canonical strings are exactly the spellings of the numbers below 10^32, and each reads back as the number it spells |
| `Delivery.Store.PersistPending` | packages/agent/internal/state/docker_state.go:236-268 | accepts only a valid batch that starts at the committed watermark and moves forward while nothing is pending; memory follows the disk only when the write reported success |
| `Delivery.Store.CommitAcknowledgement` | packages/agent/internal/state/docker_state.go:272-312 | moves the watermark to the proposal of the pending batch whose ids match, and to nothing else |
| `Delivery.Store.ReserveSequence` | packages/agent/internal/state/docker_state.go:323-340 | hands out a value only after the counter is durably beyond it |
| `Delivery.Store.Load` | packages/agent/internal/state/docker_state.go:147-181 | a restart takes over an authentic, loadable record from disk and refuses any other |
| `Delivery.Store.AtomicReplace` | packages/agent/internal/state/fs_atomic.go:62-117 | a write completes, fails without effect, or takes effect and still reports an error |
| `Delivery.Runner.HandleAck` | packages/agent/internal/run/run.go:315-368 | commits only on a successful acknowledgement, of any of the three statuses, that confirms exactly the pending batch |
| `Delivery.Runner.PushWithState` | packages/agent/internal/run/run.go:221-307 | one cycle of replay, minimal push or persist-then-push does what the cycle of the state machine does, for every failure of its writes and its push |
| `DeliveryRuns.SequencesNeverReissued` | packages/agent/internal/run/run.go:221-307 | over every run with crashes and misreported writes a fresh snapshot's sequence is strictly above all earlier ones; only a replay of the very same branch repeats a value |
| `DeliveryRuns.PendingStartsAtWatermark` | packages/agent/internal/state/docker_state.go:236-268 | in every reachable state a pending batch starts at the committed watermark, moves forward and can be reconstructed, and what is on disk loads |
| `DeliveryRuns.CommitsChain` | packages/agent/internal/state/docker_state.go:272-312 | committed batches were transmitted and chain without a break from the initial watermark to the one on disk |
| `DeliveryRuns.WatermarkNeverMovesBack` | packages/agent/internal/state/docker_state.go:534-552 | the durable watermark's time never decreases over a run |
| `DeliveryRuns.AcknowledgementDecides` | packages/agent/internal/run/run.go:315-368 | with a clean commit the pending batch leaves memory, moving memory and disk to its proposal, if and only if the status is one of the three successful ones and VPS, ids, agent and watermark all match; one mismatch changes neither memory nor disk |
| `DeliveryRuns.EveryStatusCommits` | packages/agent/internal/run/run.go:325-332 | whichever of the three ways the server says it has the batch, nothing is pending any more |
| `DeliveryRuns.PersistBeforePush` | packages/agent/internal/run/run.go:262-307 | a fresh complete batch reaches the network if and only if it is well formed, continues the committed watermark and was cleanly written, all spelled out; a right answer then moves memory and disk to its proposal, and a batch that is not well formed lets host metrics alone through |
| `DeliveryRuns.MinimalReservesFirst` | packages/agent/internal/run/run.go:252-276 | a snapshot without events goes out under a sequence the disk is already past, or not at all |
| `DeliveryRuns.RepeatedPersist` | packages/agent/internal/state/docker_state.go:236-268 | while a batch is pending nothing is written: persisting that very batch again is reported as done, any other is refused |
| `DeliveryRuns.DerivedReconstructs` | packages/agent/internal/run/run.go:404-556 | reconstructing undoes deriving: a persisted batch replays as the exact branch that was bound |
| `EndToEnd.WindowsMove` | packages/agent/internal/metrics/docker_monitoring_collection.go:533-622 | every completed window proposes strict progress over the watermark it started from |
| `EndToEnd.CollectedBatchPersists` | packages/agent/internal/state/docker_state.go:424-450 | a batch collected from the committed watermark is persisted if and only if at most 256 distinct digests were accepted at its boundary time, which the live path does not ensure |
| `EventBurst.BoundaryTooWide` | packages/agent/internal/metrics/docker_monitoring_collection.go:624-639 | 257 container deaths within one second reported without nanoseconds make a window propose 257 boundary digests |
| `EndToEnd.BurstNeverPersists` | packages/agent/internal/state/docker_state.go:424-450 | no store accepts the batch of that window |
| `EventStall.SameBoundary` | packages/agent/internal/metrics/docker_monitoring_collection.go:533-604 | a later window from the same watermark over the same events, and whatever follows them, stops at the same read with the same proposal |
| `EndToEnd.StallsForGood` | packages/agent/internal/run/run.go:221-307 | once more than 256 distinct digests share a boundary time, every such later window is refused again: over every run with crashes and misreported writes the watermark stays and no complete batch is transmitted |
| `EndToEnd.BurstStalls` | packages/agent/internal/run/run.go:221-307 | a concrete instance: an agent whose very first window finds that burst never transmits a complete batch |
| `EndToEnd.NothingLostEndToEnd` | packages/agent/internal/run/run.go:118-307 | over any run with crashes and misreported writes, once the durable watermark has reached a deliverable event's time some transmitted batch contains the event or a gap event covering it |
| `UpgradeRuns.InterleavingsAreAtomic` | packages/api/src/persistence/repositories/local-upgrade.repository.ts:137-159 | under any interleaving of separate reads and compare-and-set writes the job's history is a chain of writes, each computed on the very row it replaced |
| `UpgradeRuns.AtomicIsLawful` | packages/api/src/local-upgrade/local-upgrade.service.ts:545-978 | what any single call's write may do to token, state, evidence and baseline |
| `UpgradeRules.ReconcileRule` | packages/api/src/local-upgrade/local-upgrade.service.ts:846-908 | reconcile ends a live job as succeeded on a proving heartbeat, otherwise if and only if its phase or overall deadline lies strictly before now, with the state and code its state calls for; the whole row is stated |
| `UpgradeRules.ClaimRule` | packages/api/src/local-upgrade/local-upgrade.service.ts:534-599 | a claim writes if and only if the job is live and unleased: only a queued job becomes claimed, any other keeps its state; the whole row is stated |
| `UpgradeRules.ProgressRule` | packages/api/src/local-upgrade/local-upgrade.service.ts:601-643 | progress writes if and only if the job is live, the token current and the lease unexpired; the whole row is stated |
| `UpgradeRules.ResultRule` | packages/api/src/local-upgrade/local-upgrade.service.ts:646-829 | what a result leaves in every state and for every verdict, field by field, or that it writes nothing |
| `UpgradeRuns.Fencing` | packages/api/src/local-upgrade/local-upgrade.service.ts:545-643 | after a claim raised the token no progress write and no first terminal result with an older token takes effect; only the late rolled_back refinement is exempt |
| `UpgradeRuns.FinalRecordsFrozen` | packages/api/src/local-upgrade/local-upgrade.service.ts:646-700 | a succeeded, rolled_back or failed record never changes again |
| `UpgradeRuns.UnverifiedStays` | packages/api/src/local-upgrade/local-upgrade.service.ts:658-691 | rollback_unverified moves only to rolled_back or itself |
| `UpgradeRuns.NoFailureAfterSwap` | packages/api/src/local-upgrade/local-upgrade.service.ts:696-760 | no write moves a post-swap job to failed, whatever state its caller had read |
| `UpgradeRuns.DeadlineEnds` | packages/api/src/local-upgrade/local-upgrade.service.ts:138-209 | past the overall deadline reconcile always has an end to write: failed before the swap, success only on a confirming heartbeat, attention otherwise |
| `UpgradeRuns.ReconcileEndsOrLoses` | packages/api/src/local-upgrade/local-upgrade.service.ts:846-908 | a caller reconciling past the overall deadline ends the job, or another caller wrote it meanwhile |
| `UpgradeRuns.SuccessRestsOnHeartbeat` | packages/api/src/local-upgrade/local-upgrade.service.ts:791-827 | every succeeded job rests on a read of a fresh heartbeat of the release build, later than the pinned baseline when there is one |
| `UpgradeRuns.RollbackRestsOnHeartbeat` | packages/api/src/local-upgrade/local-upgrade.service.ts:915-978 | every rolled_back job rests on a fresh heartbeat of the baseline build strictly after a pinned baseline |
| `UpgradeRuns.BaselinePinnedOnce` | packages/api/src/local-upgrade/local-upgrade.service.ts:630-641 | the baseline heartbeat is pinned by the first accepted restarting report and never changes |
| `UpgradeRuns.NoRestartNoRollback` | packages/api/src/local-upgrade/local-upgrade.service.ts:915-978 | a job without an accepted restarting report never ends rolled_back |
| `UpgradeService.Repository.CompareAndSet` | packages/api/src/persistence/repositories/local-upgrade.repository.ts:137-159 | writes if and only if the revision is the expected one, and then applies the patch to the row its caller had read |
| `UpgradeService.Service.RuleOverdue` | packages/api/src/local-upgrade/local-upgrade.service.ts:846-908 | heartbeat success outruns every deadline; otherwise a patch is made if and only if a deadline lies strictly before now, and it leaves the row the state calls for |
| `UpgradeService.Service.ReconcileJob` | packages/api/src/local-upgrade/local-upgrade.service.ts:846-908 | one pass ends an overdue or proven job with the row its state calls for, was overtaken by another write, or read a job that had ended or is in time; undisturbed it makes exactly its own write or none |
| `UpgradeService.Service.ClaimJob` | packages/api/src/local-upgrade/local-upgrade.service.ts:534-599 | hands out a lease valid at the claim's own time on a live job, with the reconcile flag telling post-swap; contention means three attempts were each overtaken; undisturbed an overdue or proven job is ended first, and a live one is leased by exactly one write or its standing lease |
| `UpgradeService.Service.PhasePatch` | packages/api/src/local-upgrade/local-upgrade.service.ts:619-635 | the row an accepted report leaves holds the lease exactly until a minute later, gives the phase its own deadline, moves neither token, overall deadline nor ruling, and pins the baseline heartbeat exactly at the first restarting report |
| `UpgradeService.Service.ReportProgress` | packages/api/src/local-upgrade/local-upgrade.service.ts:601-643 | acceptance means this call's own write is the last one, made under the current token and a valid lease; refusals say what the row they saw shows; undisturbed it is accepted exactly on a live, leased job |
| `UpgradeService.Service.RuleResult` | packages/api/src/local-upgrade/local-upgrade.service.ts:693-827 | a first result is ruled by state and heartbeat, and left open only for a success without its heartbeat |
| `UpgradeService.Service.AnswerEnded` | packages/api/src/local-upgrade/local-upgrade.service.ts:658-691 | a report on an ended job refines rollback_unverified, reads back a ruling it repeats under the winning token, or conflicts |
| `UpgradeService.Service.ReportResult` | packages/api/src/local-upgrade/local-upgrade.service.ts:646-829 | a result ends the job by this call's own write, reads back an ended job, awaits a heartbeat, or conflicts; undisturbed it writes exactly when its rule has a row to write, so an unverified rollback is refined and a proven success is never kept waiting |
| `Helper.Host.Change` | packages/agent/internal/updater/helper.go:172-184 | a file operation completes, fails without effect, or takes effect and reports an error; every disk it leaves satisfies the invariant |
| `Helper.Host.CopyHashed` | packages/agent/internal/updater/helper.go:665-709 | an exclusive, verified copy: a leftover destination refuses it, and success means exactly the wanted content is in place |
| `Helper.Host.RestoreBackup` | packages/agent/internal/updater/helper.go:505-528 | reinstalls the recorded old binary or leaves the installed one untouched; without faults it succeeds if and only if the backup is intact and no leftover blocks it |
| `Helper.Host.AutoRollback` | packages/agent/internal/updater/helper.go:477-501 | reports auto_rolled_back only with the old binary installed, and always then without faults and with an intact backup |
| `Helper.Host.RestartOrRollback` | packages/agent/internal/updater/helper.go:457-473 | restarted means new is installed, auto_rolled_back means old is; without faults it restarts and records it, and with a backup a single failing operation never ends in restart_failed_rollback_failed |
| `Helper.Host.ReconcileApply` | packages/agent/internal/updater/helper.go:532-573 | a recorded job is never swapped again: the binary is untouched, and without faults the answer is already_current, recovered_restarted with the restart recorded, recovered_no_swap or unclear exactly as old, new and installed binary and phase dictate |
| `Helper.Host.BackUp` | packages/agent/internal/updater/helper.go:404-426 | the recorded old binary is what the existence check shows of the installed one, backed up with its content; without faults it succeeds if and only if no earlier backup is in the way |
| `Helper.Host.Swap` | packages/agent/internal/updater/helper.go:428-453 | intent precedes the rename, verify_failed means nothing was swapped, and without faults the new binary is renamed in exactly once and the job ends restarted |
| `Helper.Host.HandleApply` | packages/agent/internal/updater/helper.go:307-453 | verify_failed guarantees the binary is untouched; a recorded job is only reconciled, with its exact answer; without faults the new binary is renamed in, once, if and only if the caller could see that it will be, with the whole disk stated; with one failing operation the host ends on the old or the new binary and says which |
| `Helper.Host.HandleRollback` | packages/agent/internal/updater/helper.go:576-607 | rolled_back means the recorded old binary is installed; without faults it is answered if and only if the job has a record with a backup that is already or can be restored, and anything else leaves binary and record as they were |
| `Helper.Host.HandleCleanup` | packages/agent/internal/updater/helper.go:612-633 | removes the backup before the journal and never touches the binary; without faults exactly that is gone |
| `Helper.RunAll` | packages/agent/internal/updater/helper.go:232-288 | whatever is requested, however operations fail and wherever crashes fall, every disk ever left is safe |
| `HelperDisk.RecordedJobIsSafe` | packages/agent/internal/updater/helper.go:307-607 | no job's new binary is renamed in more often than once plus the times the disk stopped showing it; for the recorded job the binary is the recorded old or new one unless it was misread as absent, a replaced binary has a backup hashing to old until cleanup, rolled_back means old is installed, and the daemon would hold only an unrecorded restore or a misread binary |
| `Helper.SwapsAgainUnbacked` | packages/agent/internal/updater/helper.go:312-436 | a job that replaced nothing and lost its record to another job is swapped in a second time |
| `Helper.SwapsAgainMisread` | packages/agent/internal/updater/helper.go:415-436 | a job that lost its record but has its backup is swapped in a second time when the existence check errs |
| `Helper.RollbackUndoesApply` | packages/agent/internal/updater/helper.go:307-607 | a rollback undoes an apply that swapped if and only if a binary was installed and the existence check found it |
| `Helper.MisreadIsTheOnlyGap` | packages/agent/internal/updater/helper.go:418-436 | after a swap without faults the installed binary is recorded, and its content backed up, if and only if the existence check answered |
| `HelperDisk.DaemonAgrees` | packages/agent/internal/updater/daemon.go:245-280 | for every disk the helper can leave with a record: when the daemon adopts, fails, rolls back or holds, each as an if-and-only-if, and a hold needs a misread binary or an unrecorded restore |
| `Daemon.Job.Reconcile` | packages/agent/internal/updater/daemon.go:178-280 | with its own record the daemon follows the installed binary; without one each answer is an if-and-only-if on what is on disk: carry on only if no swap was claimed, ask again only if nothing shows a mutation, fail only on verify_failed, hold everything else |
| `Daemon.Job.RunRestarting` | packages/agent/internal/updater/daemon.go:379-421 | which outcomes of the helper carry on, fail as pre-swap or hold, each exactly |
| `Daemon.Job.ConsumeWithRuling` | packages/agent/internal/updater/daemon.go:561-596 | the backup goes only on a ruling of success or rollback, or on a failure without local evidence of a swap |
| `Daemon.FailedCleanupNeedsOld` | packages/agent/internal/updater/daemon.go:178-280 | after reconciling any disk the helper can leave with this job's record, a ruling of failure lets the backup go only with the old binary installed |
| `Daemon.FailedApplyKeepsBinary` | packages/agent/internal/updater/daemon.go:379-596 | from an apply request through the reading of its outcome to a ruling of failure: the backup goes only if that apply left the installed binary as it was |
| `Receipts.SettledIsValid` | packages/agent/internal/commands/worker.go:193-226 | whatever the daemon returns the terminal receipt is valid, so the second validation cannot fail, and success is claimed only for a certain, error-free, bounded answer |
| `Receipts.SettledExactly` | packages/agent/internal/commands/worker.go:199-226 | the terminal receipt case by case: stage, executed flag, code and output of the daemon's answer, or uncertain without output when the answer is out of bounds |
| `Receipts.TerminalReports` | packages/agent/internal/commands/command.go:258-286 | a valid receipt can be reported exactly when it is terminal, and the report tells its ids, stage, executed flag, code and output |
| `Receipts.ExpiredIsNumeric` | packages/agent/internal/commands/worker.go:315-326 | the string comparison decides exactly whether the deadline has been reached |
| `Receipts.RawIdExactly` | packages/agent/internal/commands/worker.go:182-185 | a target is used only if it is 64 lowercase hexadecimal digits |
| `Receipts.CommandExactly` | packages/agent/internal/commands/command.go:223-249 | which commands are valid, field by field |
| `Receipts.ReceiptExactly` | packages/agent/internal/commands/command.go:289-324 | which receipts are valid, field by field; uncertain means executed |
| `Receipts.Worker.PersistReceipt` | packages/agent/internal/commands/worker.go:452-466 | only a valid receipt replaces the file, and never another command's |
| `Receipts.Worker.CommitReceipt` | packages/agent/internal/commands/worker.go:469-483 | the file is cleared only for matching ids after a delivered report |
| `Receipts.Worker.ReportTerminal` | packages/agent/internal/commands/worker.go:254-284 | the report tells the receipt's own ids, stage, executed flag, code and output; the receipt stays until a delivered report clears it, and is cleared when disk and network work |
| `Receipts.Worker.CallDaemon` | packages/agent/internal/commands/worker.go:192-231 | exactly one daemon call, then its own terminal receipt, then the report; a death or failed write in between is counted as a loss |
| `Receipts.Worker.Execute` | packages/agent/internal/commands/worker.go:178-232 | at most one daemon call, only for a resolved target before the deadline, and then always when disk and network work; the receipt it ends with is stated |
| `Receipts.Worker.FailClosed` | packages/agent/internal/commands/worker.go:235-248 | a refusal never touches the daemon and ends as a failed, unexecuted receipt with its code |
| `Receipts.Worker.Resume` | packages/agent/internal/commands/worker.go:91-126 | a terminal or executed receipt is only reported, an unfinished one is executed, and when disk and network work each ends as stated |
| `Receipts.Worker.Start` | packages/agent/internal/commands/worker.go:128-174 | a command is executed only if it is valid, for this instance and this VPS, and durable; each refusal has its own code |
| `Receipts.Worker.ProcessOne` | packages/agent/internal/commands/worker.go:77-89 | per receipt the daemon calls are at most one plus the losses between a call and its terminal write; once terminal there are no more calls and every report is identical |
| `Receipts.Worker.Run` | packages/agent/internal/commands/worker.go:77-89 | the same over any number of cycles and deaths; no unfinished receipt is ever marked executed |
| `CanonicalText.TextUnique` | packages/agent/internal/updater/canonical.go:126-160 | canonical text reads back one way only |
| `CanonicalText.TextsAlike` | packages/api/src/release/release-manifest.canonical.ts:14-37 | texts of the two printers are equal only for values that print alike throughout: same structure, strings quoted alike, numbers printed alike |
| `CanonicalDecode.UnquoteQuote` | packages/agent/internal/updater/canonical.go:18-27 | unquoting as section 7 of RFC 8259 reads a string undoes quoting, in both printers' styles |
| `CanonicalDecode.ReadText` | packages/agent/internal/updater/canonical.go:126-160 | the text of a value, followed by anything that may follow one, reads back as that value |
| `CanonicalDecode.DecodePrint` | packages/agent/internal/updater/canonical.go:34-44 | decoding canonical text gives the document back, in canonical order |
| `Canonical.PrintsEqualIffSame` | packages/agent/internal/updater/canonical.go:70-160 | two documents print the same text if and only if they are equal up to key order at every depth |
| `Canonical.OrdersAgree` | packages/api/src/release/release-manifest.canonical.ts:28-30 | Go's byte order and JavaScript's code-unit order agree on two keys if and only if the first characters in which they differ do not straddle the end of the basic plane (section 3.2.3 of RFC 8785) |
| `CanonicalPrinters.OrdersDisagree` | packages/agent/internal/updater/canonical.go:84-89 | a concrete pair of keys is ordered differently, and a document with both prints differently |
| `CanonicalPrinters.SortOrder` | packages/agent/internal/updater/canonical.go:84-89 | sorting indices by key yields every index, in strictly ascending key order |
| `CanonicalPrinters.ConvertCanonical` | packages/agent/internal/updater/canonical.go:70-124 | members collected in any order come out sorted by key at every depth |
| `CanonicalPrinters.WriteCanonicalValue` | packages/agent/internal/updater/canonical.go:126-160 | the writer appends exactly the value's text to the buffer |
| `CanonicalPrinters.CanonicalJson` | packages/agent/internal/updater/canonical.go:34-44 | decode, sort and write compute the canonical text |
| `CanonicalPrinters.QuotesAgree` | packages/agent/internal/updater/canonical.go:18-27 | the two string encoders agree on a string if and only if it has no line or paragraph separator and, before Go 1.22, no backspace or form feed |
| `CanonicalPrinters.PrintersAgree` | packages/api/src/release/release-manifest.canonical.ts:14-37 | both printers give a document the same text if and only if every string is quoted alike, no two sibling keys clash, and JavaScript prints every number as it is spelled |
| `CanonicalPrinters.PlainIsPortable` | packages/api/src/release/release-manifest.canonical.ts:14-37 | ASCII strings and canonically spelled safe integers are portable |
| `CanonicalPrinters.SignedBytesAgree` | packages/api/src/release/release-manifest.canonical.ts:44-51 | a plain manifest is verified over the bytes that were signed; only null is accepted by one side alone |
| `CanonicalPrinters.SignatureCoversDocument` | packages/agent/internal/updater/verify.go:76-87 | equal signed bytes mean documents equal up to key order once the top-level signature is removed |
| `Alerts.WindowIsRecent` | packages/api/src/docker/docker-alert-evaluator.ts:175-201 | the window holds the last five complete observations, however many others were mixed in |
| `Alerts.MachineIsStatelessRule` | packages/api/src/docker/docker-alert-evaluator.ts:175-241 | after any run, acknowledgements included, the alert is active if and only if at least three of the last five dated observations that are neither stale, gap nor partial and say available or unavailable said unavailable |
| `Alerts.TransitionTells` | packages/api/src/docker/docker-alert-evaluator.ts:175-241 | the transition tells exactly what became of the alert: opened, persisted, resolved or frozen |
| `Alerts.OpensExactly` | packages/api/src/docker/docker-alert-evaluator.ts:528-569 | a threshold rule opens if and only if the signal is not neutral, the cooldown is over and enough of its window is positive |
| `Alerts.ResolvesExactly` | packages/api/src/docker/docker-alert-evaluator.ts:528-569 | an active threshold alert resolves if and only if its window ends in a full run of negatives, and then cools down |
| `Alerts.RulesOpen` | packages/api/src/docker/docker-alert-evaluator.ts:327-334 | how many of how many readings open each threshold rule |
| `Alerts.RulesResolve` | packages/api/src/docker/docker-alert-evaluator.ts:327-334 | how many negatives in a row resolve each rule that can be resolved, and the cooldown that follows |
| `Alerts.ActiveAlertPersists` | packages/api/src/docker/docker-alert-evaluator.ts:203-226 | an alert that stays active keeps its opening time and acknowledgement, and counts each complete unavailable observation once |
| `Alerts.ClearRunReachable` | packages/api/src/docker/docker-alert-evaluator.ts:528-569 | an active alert is cleared by its run of negative observations if and only if the rule's window can hold the run |
| `Alerts.WhichRulesClear` | packages/api/src/docker/docker-alert-evaluator.ts:327-334 | container_unhealthy is never cleared this way, the other threshold rules are |
| `Selection.SelectDockerContainers` | packages/agent/internal/metrics/docker_monitoring_collection.go:47-80 | the cut and the rotation loop select what the sorted order and the rotation dictate |
| `Selection.SortedSpec` | packages/agent/internal/metrics/docker_monitoring_collection.go:55-62 | sorting keeps exactly the containers, in strict order: unhealthy or changed first, then running, then the rest, each by key |
| `Selection.SelectionSize` | packages/agent/internal/metrics/docker_monitoring_collection.go:47-80 | the result is min(limit, 20, n) distinct containers of the input |
| `Selection.PriorityFirst` | packages/agent/internal/metrics/docker_monitoring_collection.go:66-72 | every unhealthy, changed or running container is selected if and only if they number at most min(limit, 20); otherwise whoever is selected is preferred to every one of them left out |
| `Selection.FairSelection` | packages/agent/internal/metrics/docker_monitoring_collection.go:73-79 | over as many consecutive rotations as there are containers neither unhealthy, changed nor running, each of them is selected exactly as often as there are spare places |
| `Selection.SelectedRest` | packages/agent/internal/metrics/docker_monitoring_collection.go:73-79 | the spare places go, in order, to the rest from the rotation's place on, around its end |
| `Lifecycle.Coordinator.TryAcquire` | packages/api/src/agents/agent-lifecycle-coordinator.ts:22-41 | refused if and only if somebody holds the lifecycle; otherwise one live ticket is added, which waits if and only if it is an uninstall and an ingest of its VPS is running |
| `Lifecycle.Coordinator.StartIngest` | packages/api/src/agents/agent-lifecycle-coordinator.ts:43-55 | refused if and only if an uninstall holds or awaits the lifecycle; otherwise its ticket is a live, granted ingest of that VPS |
| `Lifecycle.Coordinator.ReleaseTicket` | packages/api/src/agents/agent-lifecycle-coordinator.ts:35-40 | the first release ends its ticket and frees a lifecycle, changes other tickets only by granting, and a second release changes nothing |
| `Lifecycle.ReleaseEffect` | packages/api/src/agents/agent-lifecycle-coordinator.ts:35-62 | after a release a waiting uninstall is granted if and only if no ingest of its VPS is left, and the slot is dropped if and only if nobody is live in it |
| `Lifecycle.Coordinator.DrainSlot` | packages/api/src/agents/agent-lifecycle-coordinator.ts:56-62 | wakes all waiters once no ingest is left and drops an idle slot |
| `Lifecycle.Coordinator.IsLifecycleActive` | packages/api/src/agents/agent-lifecycle-coordinator.ts:63-65 | answers whether somebody holds the lifecycle; it may leave an idle slot behind |
| `Lifecycle.AtMostOneHolder` | packages/api/src/agents/agent-lifecycle-coordinator.ts:22-41 | under every interleaving a VPS has at most one lifecycle holder |
| `Lifecycle.UninstallSeesNoIngest` | packages/api/src/agents/agent-lifecycle-coordinator.ts:22-55 | a granted uninstall sees no ingest until it is released |
| `Lifecycle.WaitingHasReason` | packages/api/src/agents/agent-lifecycle-coordinator.ts:56-59 | an uninstall still waiting has a running ingest to wait for, so no wake-up is missed |
| `Lifecycle.LiveTicketsStayRegistered` | packages/api/src/agents/agent-lifecycle-coordinator.ts:56-62 | whoever is live holds the slot new callers get; dropping an idle slot separates nobody |
| `Lifecycle.BusyMeansHeld` | packages/api/src/agents/agent-lifecycle-coordinator.ts:22-41 | a VPS counts as busy exactly while somebody unreleased holds it |

## Left out

- EventWindow.CollectDockerEventWindow: the agent instance id check, the caller's identity fields and read errors other than a malformed object, because they end the window before its loop or as a failed read.
- Framing.FrameAll: bytes are characters and the reader never fails midway, because a read error ends the stream like a malformed object.
- Delivery.Runner.PushWithState: a runner without durable state, which only strips the Docker branch, and retries inside one push, which repeat the same branch.
- Delivery.Store.Load: whether owner, mode, version, key and authentication code are right is one given answer, and the exclusive first creation of the file is not modelled, because both are foreign checks.
- Helper.RunAll: the pending and result files, symlink and ownership checks beyond their outcome, and a daemon running while the helper is midway.
- EventJson.EncodedCountsAreExact: formatted times are any text of at most 64 characters, because the time formatter is a foreign function.
- Daemon.Job.Reconcile: the daemon's own journal writes, its reports to the server and the polling loops around these decisions, because they only repeat or delay them.
- UpgradeService.Service.ReconcileJob: the other jobs of the same VPS and the audit records, because each job is reconciled on its own row.
- UpgradeService.Service.ReportResult: the job-not-found answer and free-text reasons.
- UpgradeService.Service.ReportProgress: phases may go backward, because the code accepts any phase from any live state.
- Receipts.Worker.Execute: the per-command timeout derived from deadline and reserve, because it only bounds the foreign call.
- CanonicalPrinters.PrintersAgree: JavaScript's number printing is an arbitrary function of the spelling, because it is a foreign function.
- Alerts.ClearRunReachable: removal, identity mismatch and freezing in the dispatcher, and the restart-loop and event-gap rules, which are evaluated separately.
- Lifecycle.Coordinator.ReleaseTicket: object references are indices of an allocation list rather than heap objects, which keeps a dropped slot and its successor distinct.
- Decoding whole event streams at once and finalizing capped windows with truncated digests: not on the live path.
- Creation of upgrade jobs, the release catalogue, controllers, persistence in SQL, and the web interface: plumbing.
- Host metrics, storage aggregates, HTTP, SSH, systemd and the Docker socket: foreign calls.
- Sequence and rotation counters are natural numbers: 64-bit wrap-around is not modelled.
