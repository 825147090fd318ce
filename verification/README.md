# Verified model of YipYap's alerting core

YipYap watches monitors, raises alerts, escalates them through policies and talks to other systems with
CloudEvents. This project models the parts of it that keep state over time and proves what they guarantee over
every run:

- **Alert lifecycle** (`Escalation*.dfy`, `Detector.dfy`). The scheduler turns check results into trigger and
  recover events; the escalation engine opens, escalates, acknowledges and resolves alerts. Handlers, listings and
  the turns of a tick interleave freely, and a turn works on the copy its tick listed, however old. `Engine` is
  the engine statement by statement, proved against one-step functions; the theorems about all runs are about
  those functions.
- **Reply gate** (`RateLimiter.dfy`, `LimiterRuns.dfy`, `LimiterWidth.dfy`, `Registry.dfy`, `ReplyGate.dfy`, `ReplyRuns.dfy`). The
  sliding-window limiter, the registry of outbound events, and the dispatcher that combines them.
- **Signing keys** (`KeyRotation*.dfy`). Weekly rotation with overlapping retirement.
- **Concurrency and delivery** (`SingleFlight.dfy`, `WorkerPool.dfy`, `Bus.dfy`, `Consumers.dfy`, `Notify.dfy`,
  `TokenCache.dfy`). Goroutines are step machines whose steps interleave freely; objects that run under one lock
  are classes.
- **Configuration and time** (`Redaction.dfy`, `Maintenance.dfy`). Redaction and merge of secrets, recurring
  maintenance windows, and the ticker that reports them.

`Recency.dfy` (least-recently-used lists) and `Common.dfy` are shared vocabulary. `dafny verify dfyconfig.toml`
checks everything.

## Where the code and its documentation part

The model follows the code. Each point below is a theorem here.

- A turn in a tick writes its listed copy back (`internal/escalation/engine.go:428`). An alert acknowledged after
  the listing fires again and its timeline reads triggered, acknowledged, escalated
  (`EscalationSafety.StaleTurnUndoesAck`). Exactly which turns do this: `TurnUndoesAckExactly`,
  `TurnKeepsPhasesExactly`; exactly which runs: `LanguageExactly`.
- The auto-resolve flag has no effect: with or without it a recovery resolves the monitor's one unresolved alert,
  and the sweep that follows finds nothing (`EscalationEngine.Engine.HandleRecover`).
- A check result is handed to the batch writer before the previous one is looked up
  (`internal/checker/scheduler.go:541-553`), and the writer drops results when its buffer is full
  (`internal/checker/batchwriter.go:44-50`). After a restart a monitor may therefore be compared with its own new row
  and its alert be missed (`Detector.RacedCheckMissesAlert`), or with a row older than its last result and its alert
  never be resolved (`Detector.DroppedRowKeepsAlert`). Exactly when a look-up does harm: `HarmExactly`,
  `StepAgreesExactly`; exactly which runs agree throughout: `AlertExactlyWhenDue`.
- The limiter decides in 64-bit nanoseconds, and its products wrap. Its verdicts are right in all runs if and only if
  the limits are at most 153,722,866 a minute (`LimiterWidth.VerdictsAreRightExactly`). One above, a run admits a call
  more than the limit; two above, the first call of all is refused (`LimiterWidth.WrapAdmitsBeyondLimit`,
  `WrapRefusesFirstCall`). The burst bound is proved up to the exact limit.
- The comment on minting says that saving first is so that "we never end up with two actives if Save races"
  (`internal/auth/jwks/manager.go:200`). A failed save indeed leaves one, but a refused retirement after it leaves
  two, and the older is never retired (`KeyRotationRuns.InterruptionMakesOrphan`, `OrphanNeverRetires`). The number of
  active keys is one more than the number of refusals (`OneActiveExactlyWithoutInterruption`).
- A panic inside a single-flight function leaves its entry in the map and its waiters blocked for good
  (`SingleFlight.PanicBlocksKey`).
- The notification key does not name the channel, so a user reached through two targets of a step hears once
  (`Notify.RoundReachesEveryTargetExactly`), and a retry within five minutes is not heard
  (`Notify.RetryIsHeardExactly`). The key is claimed before the provider is looked up, so a job refused for want of
  a provider is reported as success when it is delivered again (`Notify.RefusedThenLost`). Exactly when the success
  of a duplicate is worth something: `Notify.DuplicateCause`.
- A worker pool without workers drops its queue when stopped (`WorkerPool.StopSettlesExactly`); one without allowed
  attempts counts jobs as sent that were never sent (`WorkerPool.NoAttemptsSendNothing`). The type allows both; the
  providers wired in `cmd/yipyap/notify.go` all have workers, and the default is five attempts.
- A daily or weekly window that starts later in the day and runs past midnight is not recognised after midnight
  (`Maintenance.DailyExactly`, `Maintenance.WeeklyExactly`).

## Model

| member | source | states |
|---|---|---|
| EscalationSafety.EveryRunIsSafe | internal/escalation/engine.go:104-331 | In every interleaving of triggers, recoveries, acknowledgements, listings, turns on copies of any age and configuration edits: at most one unresolved alert per monitor, escalation rows only for unresolved alerts and naming their own current step, every organisation's gauge equal to its number of unresolved alerts, and timelines with one trigger at the start and at most one resolution at the end |
| EscalationSafety.LanguageExactly | internal/escalation/engine.go:349-487 | After a run every timeline is triggered (escalated or notified)* ack* resolved? if and only if every turn of the run was quiet: its alert's row still fired, or the turn was idle or a retry that reaches nobody |
| EscalationSafety.QuietRunsKeepPhases | internal/escalation/engine.go:104-331 | In a run of quiet turns every stored status is where the alert's timeline stands |
| EscalationInvariants.PhaseIsLanguage | internal/escalation/engine.go:104-331 | The automaton that follows an alert's log accepts exactly the timelines of that shape, given by positions |
| EscalationSafety.TurnKeepsPhasesExactly | internal/escalation/engine.go:427-442 | A turn keeps statuses and timelines in step if and only if the stored row still fires or the turn is silent: idle, or a retry that reaches nobody |
| EscalationSafety.TurnUndoesAckExactly | internal/escalation/engine.go:427-428 | An acknowledged alert is set back to firing by exactly the turns that move its listed copy to another step |
| EscalationSafety.StaleTurnUndoesAck | internal/escalation/engine.go:468-469 | A concrete run of four operations after which an acknowledged alert fires again and its timeline leaves the language |
| EscalationSafety.ResolvedIsFinal | internal/escalation/engine.go:211-256 | Whatever runs afterwards, stale turns included, a resolved alert keeps its row and its timeline |
| EscalationInvariants.TriggerKeeps | internal/escalation/engine.go:104-209 | A trigger keeps every part of the invariant, and keeps statuses and timelines in step |
| EscalationInvariants.ResolveKeeps | internal/escalation/engine.go:211-256 | A resolution keeps every part of the invariant, and keeps statuses and timelines in step |
| EscalationInvariants.AcknowledgeKeeps | internal/escalation/engine.go:295-331 | An acknowledgement keeps every part of the invariant, and keeps statuses and timelines in step |
| EscalationInvariants.TurnKeeps | internal/escalation/engine.go:360-486 | A turn on any listed copy keeps the invariant; while its row still fires it also keeps statuses and timelines in step |
| EscalationRounds.RoundsWalkThePlan | internal/escalation/engine.go:393-484 | Under a fixed configuration the k-th notification round of an alert is entry k of the list of (loop, step, retry), without gaps; one pass has the sum of (repeat count + 1) over the steps as its length, bounded loops give at most MaxLoops + 1 passes, and a policy that does not loop one |
| EscalationRounds.CycleIsLexicographic | internal/escalation/engine.go:401-444 | One pass of a policy lists exactly the (step, retry) pairs with retry up to the step's repeat count, in strict lexicographic order |
| EscalationRounds.RoundsNeverEarly | internal/escalation/engine.go:190-206 | The first round goes out when the alert starts, and each round comes no earlier than that plus the waits of all rounds before it |
| EscalationRounds.TurnAddsNextRound | internal/escalation/engine.go:360-486 | In every reachable state the turn of an escalating alert adds exactly the next round of the plan, timed at the turn, once the wait of the latest is over, and adds none exactly when it is not over or no round is left |
| EscalationRounds.EveryRunKeepsRounds | internal/escalation/engine.go:190-206 | In every run under a fixed configuration an alert's rounds follow the plan from its start, each after the wait of the one before, and its escalation row stands on the latest |
| EscalationRounds.ChooseFollowsPlan | internal/escalation/engine.go:401-484 | What a tick chooses for a row standing on round k is round k + 1, or nothing while its wait lasts or when the plan ends |
| EscalationJobs.JobsAreForTargets | internal/escalation/engine.go:505-581 | The jobs of a round are, in order and each once, one for every user of every target that resolves and has an enabled channel of the monitor's organisation, with that user, that channel's kind and the key alert-step-user |
| EscalationJobs.JobExactly | internal/escalation/engine.go:505-581 | A job is among them if and only if some target resolves to its user and has a channel of its kind that is enabled and belongs to the monitor's organisation |
| EscalationJobs.TriggerSends | internal/escalation/engine.go:147-208 | The outbox and timeline a trigger leaves: one triggered entry, then the first step's jobs and a notified entry for each, or none for a muted monitor, a missing policy, a suppressed round or an unresolved alert |
| EscalationJobs.TurnSends | internal/escalation/engine.go:393-484 | The outbox and timeline a turn leaves: an escalated entry unless it retries, then the jobs of the step it moves to and a notified entry for each; an idle turn leaves nothing |
| EscalationJobs.EveryJobHasTarget | internal/escalation/engine.go:498-582 | In every run each job ever sent came from a round, not suppressed, one of whose targets resolved to its user with an enabled channel of its kind belonging to the monitor's organisation |
| EscalationRows.OpenedRow | internal/escalation/engine.go:127-176 | A trigger adds a row exactly for a known monitor without an unresolved alert, and nothing else changes; a degraded result gets the monitor's degraded severity or else warning, any other result its down severity or else critical; error and start are the event's |
| EscalationRows.EveryAlertAsOpened | internal/escalation/engine.go:104-487 | In every run, stale turns and configuration edits included, a stored alert's monitor, organisation, severity, error and start are still those one trigger opened it with under the configuration of that time |
| EscalationRows.FirstStepEntered | internal/escalation/engine.go:178-206 | A new alert stands on its policy's first step at its start with no retries and loops behind it, unless its monitor is muted or has no policy with steps |
| EscalationRows.AcknowledgedRow | internal/escalation/engine.go:295-331 | An acknowledgement writes status, time and user of an unresolved alert, logs channel and user, and changes nothing else; of a resolved or unknown one it changes nothing |
| EscalationRows.RecoveredRow | internal/escalation/engine.go:211-256 | A recovery writes status and time of the monitor's unresolved alert, takes its escalation row away and logs it, and leaves every other row and the acknowledgement alone |
| EscalationRows.MovesExactly | internal/escalation/engine.go:360-444 | A turn moves exactly when the alert escalates, its monitor is known and still has a policy, the policy still has the step it stands on, that step's wait is over, and a repeat, a later step or another pass is left |
| EscalationRows.TurnedRow | internal/escalation/engine.go:427-484 | A turn that moves on writes firing, the new step and the acknowledgement of the listed copy; a retry or an idle turn writes no row, and no turn writes another alert's |
| EscalationRows.EveryAckHasUser | internal/escalation/engine.go:295-331 | In every run the time and user of an acknowledged alert are those of one acknowledgement of it |
| Escalation.NextStep | internal/store/sqlite/escalations.go:153-169 | The next step is the first in order beyond the given position; none means that no step lies beyond |
| Escalation.FindStep | internal/escalation/engine.go:381-391 | Finds the first step with an id, and none exactly when no step has it |
| EscalationEngine.Engine.HandleTrigger | internal/escalation/engine.go:104-209 | The handler as written opens, counts, logs and escalates as the one-step trigger does, and fails exactly for an unknown monitor |
| EscalationEngine.Engine.HandleRecover | internal/escalation/engine.go:211-261 | The handler as written, with its auto-resolve sweep, resolves the monitor's one unresolved alert and changes nothing else, whatever the auto-resolve flag |
| EscalationEngine.Engine.AutoResolveAlerts | internal/escalation/engine.go:265-293 | The sweep leaves the monitor without unresolved alerts, resolves exactly those it had, keeps the gauge exact, and changes nothing if there were none; it ends |
| EscalationEngine.Engine.HandleAck | internal/escalation/engine.go:295-331 | Acknowledges any alert that is not resolved, leaves a resolved one alone, and fails exactly for an unknown alert |
| EscalationEngine.Engine.ProcessTurn | internal/escalation/engine.go:360-486 | The loop body as written makes exactly the chosen move: retry, next step, restart or nothing |
| EscalationEngine.Engine.ProcessFiringAlerts | internal/escalation/engine.go:349-487 | A tick takes every firing alert once, oldest first, and leaves the rows their turns leave |
| EscalationEngine.Engine.NotifyStep | internal/escalation/engine.go:489-582 | One round: nothing but the round itself under suppression; otherwise the last notification time, and a job and a log entry per user of each target whose channel exists, is enabled and belongs to the organisation |
| EscalationEngine.Engine.NotifyTargets | internal/escalation/engine.go:498-582 | The jobs and log entries of all targets, in order, each target and each user once |
| EscalationEngine.Engine.GetActiveByMonitor | internal/store/sqlite/alerts.go:76-80 | The unresolved alert of a monitor, the latest started if there were several, none exactly when there is none |
| EscalationEngine.Engine.ListFiring | internal/store/sqlite/alerts.go:96-114 | Exactly the firing alerts, each once, oldest first |
| EscalationEngine.Engine.UpdateAlert | internal/store/sqlite/alerts.go:82-94 | Writes the mutable columns and keeps monitor, organisation, error and start time as stored |
| EscalationEngine.TickIsARun | internal/escalation/engine.go:349-487 | A whole tick is a run of one listing and the turns of the listed copies |
| EscalationEngine.UndisturbedTickIsQuiet | internal/escalation/engine.go:349-487 | A tick nobody interferes with takes only quiet turns, so it stays within the theorem on timelines |
| Detector.AlertExactlyWhenDue | internal/checker/scheduler.go:543-567 | Over any run of checks, restarts, acknowledgements, ticks and edits, with any rows looked up, it holds at all times that a monitor has an unresolved alert exactly when its latest result is not up and some earlier result was up or some step went from degraded to down, if and only if every look-up of the run is harmless |
| Detector.KeptRowsAgreeThroughout | internal/checker/scheduler.go:541-553 | If every look-up of a monitor not remembered finds that monitor's own last result, as with a writer that loses nothing and a row not yet written, alerts are what is due throughout the run |
| Detector.StepAgreesExactly | internal/checker/scheduler.go:543-567 | One operation keeps alerts and what is due in agreement if and only if its look-up is harmless: the monitor is remembered, or the row looked up and its own last result leave the alert alike |
| Detector.HarmExactly | internal/checker/scheduler.go:549-553 | A look-up does harm exactly when it hides an up result from a standing alert, or differs from the monitor's own last result on whether the result raises an alert not due yet |
| Detector.CheckMovesAlert | internal/checker/scheduler.go:555-567 | Whatever was looked up, a check's signal sets its own monitor's alert and leaves every other monitor's alone |
| Detector.AlertDueStep | internal/checker/scheduler.go:559-567 | One more result changes whether an alert is due exactly as the published signal says |
| Detector.CheckWritesRow | internal/checker/scheduler.go:555-567 | From result to row: a check that finds up before and not up now opens an alert with the result's severity, error and time if there is none; one that finds up after anything else resolves the alert it has; one that finds no change or no earlier status writes nothing |
| Detector.RacedCheckMissesAlert | internal/checker/scheduler.go:541-553 | A concrete run, up, restart, down compared with its own row, in which an alert is due and none exists |
| Detector.DroppedRowKeepsAlert | internal/checker/batchwriter.go:44-50 | A concrete run, up, down with its row dropped, restart, up, in which the alert stays open on an up monitor |
| Detector.Scheduler.ExecuteCheck | internal/checker/scheduler.go:543-567 | Remembers the result and publishes the signal for the remembered status, or for the newest logged one if none is remembered |
| LimiterRuns.SweepsAndCapAreInvisible | internal/cloudevents/reply/rate_limiter.go:119-147 | In any run, with janitor passes anywhere, the verdicts of a key are those of a limiter that never drops a bucket, as long as fewer than 10,000 other keys are used between one of its uses and the next |
| LimiterRuns.FewKeysAreExact | internal/cloudevents/reply/rate_limiter.go:119-147 | Over at most 10,000 distinct keys that holds for every key, so every verdict is that of the limiter that never drops a bucket |
| LimiterRuns.EveryRunUsedSince | internal/cloudevents/reply/rate_limiter.go:119-147 | In every run, janitor passes included, map and list agree, the cap holds, and every key in front of another in the list has been used since that other's last use |
| LimiterRuns.BurstBound | internal/cloudevents/reply/rate_limiter.go:108-170 | For a key that fewer than 10,000 others come between, with limits up to L calls a minute (60 where unset), any interval of length d up to a minute admits n of its calls with n * 60s <= L * (60s + d), across window boundaries |
| LimiterRuns.VerdictsAreClosedForm | internal/cloudevents/reply/rate_limiter.go:149-169 | Every verdict on such a key is a closed form over the admitted calls of its key: those of the current window in full, those of the window before by the share still inside the last minute |
| LimiterWidth.VerdictsAreRightExactly | internal/cloudevents/reply/rate_limiter.go:149-169 | Over all runs, every verdict on a key kept in use with limits up to L is the one its admitted calls call for, if and only if L is at most 153,722,866 |
| LimiterWidth.DecisionIsRightExactly | internal/cloudevents/reply/rate_limiter.go:158-166 | The decision is right on every bucket that weighs no more than the limit, at every time, if and only if the limit is at most 153,722,866 |
| LimiterRuns.ListIsRecentUses | internal/cloudevents/reply/rate_limiter.go:119-147 | Between janitor passes the list is the 10,000 most recently used keys, most recent first |
| LimiterRuns.BucketSurvivesExactly | internal/cloudevents/reply/rate_limiter.go:119-147 | Between janitor passes a bucket survives exactly while fewer than 10,000 other keys have been used since |
| RateLimiter.AllowSound | internal/cloudevents/reply/rate_limiter.go:43-50 | A call keeps map and list holding the same keys, the list each once, and the cap |
| RateLimiter.EvictSound | internal/cloudevents/reply/rate_limiter.go:173-181 | Eviction drops the least recently used bucket and only it, from map and list alike |
| RateLimiter.SweepSound | internal/cloudevents/reply/rate_limiter.go:204-215 | A janitor pass keeps map and list together and never grows them |
| RateLimiter.SweepExactly | internal/cloudevents/reply/rate_limiter.go:204-215 | A janitor pass drops exactly the buckets whose window began two minutes ago or earlier; the others keep their counts and their order |
| RateLimiter.KeysAreInjective | internal/cloudevents/reply/rate_limiter.go:108-112 | Organisation ids without a bar give every (organisation, type) pair its own bucket |
| RateLimiter.Limiter.AllowCall | internal/cloudevents/reply/rate_limiter.go:108-170 | The method as written decides on the key's rolled or new bucket, counts an admitted call, marks the key most recently used, and keeps map, list and cap |
| RateLimiter.Limiter.SweepOnce | internal/cloudevents/reply/rate_limiter.go:204-215 | The walk in any order leaves exactly the buckets younger than the grace, in the map and in the order of the list |
| Recency.RankIsDistinctSince | internal/cloudevents/reply/rate_limiter.go:119-147 | In a least-recently-used list a key's position is the number of distinct other keys used since its own last use |
| Recency.TouchTruncated | internal/cloudevents/reply/rate_limiter.go:119-147 | Truncating such a list before a use makes no difference to the truncated list after it |
| Registry.LookupIsExact | internal/cloudevents/reply/registry.go:80-129 | After any run of records and look-ups, a look-up returns the latest entry recorded under its id exactly when it is no older than the time to live and fewer than maxEntries other ids were recorded since |
| Registry.EveryRunTracks | internal/cloudevents/reply/registry.go:80-129 | In every run the unexpired ids held are the most recently recorded unexpired ones, up to the capacity, and index and list agree |
| Registry.LookupRemovesExactly | internal/cloudevents/reply/registry.go:111-129 | A look-up removes its own entry exactly when that is older than the time to live, and never another; the order of the rest stays |
| Registry.DropExpiredIsLivePart | internal/cloudevents/reply/registry.go:153-163 | Because the list is sorted by time, stopping at the first unexpired entry from the back drops every expired one |
| Registry.MemoryRegistry.RecordEvent | internal/cloudevents/reply/registry.go:80-106 | Stores the entry at the front, in place of an older one, then evicts; refuses exactly the empty id |
| Registry.MemoryRegistry.Lookup | internal/cloudevents/reply/registry.go:111-129 | Returns a held unexpired entry, removes one it finds expired, and changes nothing else |
| Registry.MemoryRegistry.EvictAll | internal/cloudevents/reply/registry.go:153-170 | The two eviction loops drop the expired entries from the back, then the excess ones |
| ReplyRuns.HandledExactly | internal/cloudevents/reply/dispatcher.go:387-500 | After any run a reply reaches its handler exactly when its event was published, is still known and young enough, belongs to the expected organisation and channel, the type has a handler, is opted in and granted the trust its type needs (both flags for deregister, the elevated one for the eight alert types, none for others), and the limiter admits it; it is rate limited exactly when only the limiter refuses |
| ReplyRuns.RefusalExactly | internal/cloudevents/reply/dispatcher.go:387-488 | For each refusal in front of the limiter, the exact condition after any run: the first check failed decides, trust included |
| ReplyRuns.AuditExactly | internal/cloudevents/reply/dispatcher.go:354-382 | Each refusal is recorded once, against the event's alert, monitor and organisation, a foreign event against the organisation that expected its own; missing references and types not opted in are not recorded, nor is any handled reply |
| ReplyRuns.ReferenceExactly | internal/cloudevents/reply/dispatcher.go:505-531 | The reference is the text of the first of the three attributes that has any, and there is none exactly when none has |
| ReplyRuns.RefusedLeaveNoTrace | internal/cloudevents/reply/dispatcher.go:479-482 | Taking every reply refused before the limiter out of a run changes no other verdict, no handler run and no limiter state |
| ReplyRuns.HandledAreAdmitted | internal/cloudevents/reply/dispatcher.go:490-499 | The handler runs of any key in any interval number exactly the limiter's admissions |
| ReplyRuns.DispatchIsCall | internal/cloudevents/reply/dispatcher.go:490-499 | A dispatch past the early checks makes exactly one limiter call and runs the handler exactly when it is admitted |
| ReplyRuns.HandlerBurstBound | internal/cloudevents/reply/dispatcher.go:490-499 | The burst bound holds through the whole gate for the handler runs of any organisation and reply type that fewer than 10,000 others come between |
| ReplyGate.Dispatcher.DispatchCore | internal/cloudevents/reply/dispatcher.go:387-500 | The dispatch as written gives the verdict, audit row, registry, limiter and handler run of the one-step dispatch |
| ReplyGate.Dispatcher.Screen | internal/cloudevents/reply/dispatcher.go:417-488 | The checks in front of the limiter, in order, each with its audit row, and none for a type that is not opted in |
| ReplyGate.Dispatcher.ExtractAlertref | internal/cloudevents/reply/dispatcher.go:505-531 | The first non-empty reference among the three attribute names, in order |
| ReplyGate.Dispatcher.Register | internal/cloudevents/reply/dispatcher.go:261-279 | A handler for a type other than the empty one is registered; nothing else changes |
| KeyRotationRuns.OneYoungActiveKey | internal/auth/jwks/manager.go:185-211 | In every run without a refused retirement exactly one key is active after each rotation that got past the minting, whatever it or earlier ones failed at, and that key is younger than a week |
| KeyRotationRuns.AdvertisedBound | internal/auth/jwks/types.go:70-88 | In every run without failed demotions, whatever else fails, at most three keys are advertised at any time, plus one for each refused retirement |
| KeyRotationRuns.AdvertisedBoundAfterDemotion | internal/auth/jwks/manager.go:213-230 | That bound holds after each rotation whose demotion completes, whatever failed before |
| KeyRotationRuns.AtMostThreeAdvertised | internal/auth/jwks/types.go:70-88 | At most three keys are advertised at any time of a run in which no retirement was refused and no demotion failed |
| KeyRotationRuns.AtMostThreeAfterDemotion | internal/auth/jwks/manager.go:213-230 | Whatever demotions failed before, at most three keys are advertised after each rotation whose demotion completes, if no retirement was refused |
| KeyRotationRuns.SignerStaysAdvertised | internal/auth/jwks/types.go:77-80 | A key that could sign at time t stays advertised for the fourteen days after, whatever boots and rotations happen, with failures at any call |
| KeyRotationRuns.StatusMovesForward | internal/auth/jwks/manager.go:185-237 | One operation, completed or failed at any call, moves a key's status forward by at most one step, and deletes only keys expired and retired for thirty days |
| KeyRotationRuns.RotationByRow | internal/auth/jwks/manager.go:174-238 | A rotation that goes through, row by row and in seconds: a new active key exactly when none is active or the active one is a week old, the previous one retiring; a retiring key expires at fourteen days after its retirement; one that retired more than thirty days ago is deleted; every other row stays |
| KeyRotationRuns.FailureByRow | internal/auth/jwks/manager.go:174-238 | A rotation that fails, row by row: nothing is deleted, the new key is saved and the previous one retired unless it failed before, and exactly the overdue keys the demotion got to expire |
| KeyRotationRuns.DeletedExactly | internal/auth/jwks/manager.go:232-236 | In every run an operation deletes a key if and only if it is a rotation that goes through and the key, no longer active, retired more than thirty days before |
| KeyRotationRuns.NothingOldIsKept | internal/auth/jwks/types.go:77-85 | In every run, after a rotation that goes through no stored key retired more than thirty days before |
| KeyRotationRuns.InterruptionMakesOrphan | internal/auth/jwks/manager.go:200-210 | A rotation that fails to retire the previous key leaves that key active beside a younger active one |
| KeyRotationRuns.OrphanNeverRetires | internal/auth/jwks/manager.go:294-305 | An active key joined by a younger active key stays active in every continuation |
| KeyRotationRuns.OneActiveExactlyWithoutInterruption | internal/auth/jwks/manager.go:200-210 | Over every run, whatever its rotations fail at, once a key is saved the active keys number one more than the refused retirements, so there is exactly one if and only if none was refused |
| KeyRotation.Manager.Rotate | internal/auth/jwks/manager.go:174-238 | The rotation as written saves, retires, demotes and prunes row by row to the rotated table; with an error at the listing, the generation, the save, the retirement, the second listing, any of the expiries or the pruning it stops there and leaves exactly what was done before |
| KeyRotation.Manager.MintIfDue | internal/auth/jwks/manager.go:187-211 | A new key is saved and the previous one retired exactly when none is active or the active one is a week old; an error at either call leaves what was done before |
| KeyRotation.Manager.DemoteOverdue | internal/auth/jwks/manager.go:213-230 | The row-by-row loop expires exactly the retiring keys whose overlap is over, or exactly as many of them as updates succeeded before one failed |
| KeyRotation.Manager.LatestActive | internal/auth/jwks/manager.go:294-305 | The scan with a running best finds an active key none was created after, and none exactly when no key is active |
| KeyRotation.Manager.EnsureInitialKey | internal/auth/jwks/boot.go:20-50 | The first boot saves an active key exactly when nothing is advertised |
| KeyRotation.Manager.GetActiveSigner | internal/auth/jwks/manager.go:261-278 | The signer is an active key none was created after, and none exactly when no key is active |
| KeyRotation.Manager.ListAll | internal/store/sqlite/oidc_signing_keys.go:46-88 | Exactly the stored rows, each once, by time of creation |
| SingleFlight.EveryRunIsSound | internal/cloudevents/oidc/singleflight.go:40-62 | In every interleaving callers, calls and the map agree: entries belong to drivers that have not returned, waiters to calls, results to finished executions |
| SingleFlight.ExecutionsNeverOverlap | internal/cloudevents/oidc/singleflight.go:40-62 | In every interleaving two executions of the function for one key never overlap |
| SingleFlight.CallersShareOneExecution | internal/cloudevents/oidc/singleflight.go:42-61 | A caller returns the result of exactly the execution behind the entry it found or made, and reports having run it exactly if it made it |
| SingleFlight.ResultNeverChanges | internal/cloudevents/oidc/singleflight.go:53-55 | A stored result is never replaced |
| SingleFlight.ResultWasAnswered | internal/cloudevents/oidc/singleflight.go:51-55 | In every interleaving a stored result is what the driver's own execution of the function answered, at a step before which none was stored |
| SingleFlight.DeleteRemovesOwnEntry | internal/cloudevents/oidc/singleflight.go:56-59 | The driver's delete always removes its own entry |
| SingleFlight.NoCallerIsStuck | internal/cloudevents/oidc/singleflight.go:40-62 | A caller that has not returned can take its next step, or waits for a driver that can, or whose function panicked |
| SingleFlight.AtRestAllReturned | internal/cloudevents/oidc/singleflight.go:40-62 | In every run without a panic, when no caller can take its next step every caller has returned |
| SingleFlight.StepsFinish | internal/cloudevents/oidc/singleflight.go:40-62 | Every step of callers already inside lowers a measure, so they finish in that many steps |
| SingleFlight.PanicMakesDead | internal/cloudevents/oidc/singleflight.go:51-61 | A panic in the function leaves the call's entry in the map with its driver gone |
| SingleFlight.PanicBlocksKey | internal/cloudevents/oidc/singleflight.go:51-61 | From then on, in every continuation, the key maps to the dead call and all its callers wait |
| TokenCache.GetHitsExactly | internal/cloudevents/oidc/client.go:96-155 | Without deletions a Get hits exactly when the key was put and fewer than max other keys were put or hit since its own last use, and returns the token put last |
| TokenCache.NoTokenIsLostEarly | internal/cloudevents/oidc/client.go:96-155 | With deletions and expiry passes anywhere, a token that was put and not deleted since is still cached while fewer than max other keys were put or hit since its last use |
| TokenCache.HitIsLatest | internal/cloudevents/oidc/client.go:96-155 | In every run a cached token is the latest put under its key and has not been deleted or expired by a pass since |
| TokenCache.EveryRunIsSound | internal/cloudevents/oidc/client.go:58-67 | In every run the recency list is a duplicate-free listing of the cached keys, no longer than the bound |
| TokenCache.ListIsRecentUses | internal/cloudevents/oidc/client.go:96-155 | Without deletions the list is the most recently used keys up to the bound, most recent first |
| TokenCache.MemoryTokenCache.Put | internal/cloudevents/oidc/client.go:136-155 | Overwrites and touches a cached key, or evicts the head of the array at the bound and appends; keeps items and array together |
| TokenCache.MemoryTokenCache.Get | internal/cloudevents/oidc/client.go:96-106 | Returns the cached item and moves its key to the end of the array, or misses and changes nothing |
| TokenCache.MemoryTokenCache.DeleteLocked | internal/cloudevents/oidc/client.go:157-165 | The scan takes exactly the key out of items and array, and keeps the order of the rest |
| TokenCache.MemoryTokenCache.TouchLocked | internal/cloudevents/oidc/client.go:170-177 | The scan moves exactly the key to the end and keeps the order of the rest |
| TokenCache.MemoryTokenCache.DeleteExpired | internal/cloudevents/oidc/client.go:120-131 | The walk in any order deletes exactly the expired items and returns their number |
| WorkerPool.EveryRunConserves | internal/notify/worker.go:74-128 | In every interleaving of submitters, workers, Stop and cancellation every accepted job is queued, held by one worker or booked once; gauges and counters agree with the places; jobs leave the queue in the order of acceptance; verdicts are honest |
| WorkerPool.CountsAddUp | internal/notify/worker.go:102-128 | accepted = queued + held + sent + failed in every reachable state |
| WorkerPool.BookedOnceHonestly | internal/notify/worker.go:113-159 | No job is booked twice; one booked as sent was delivered, when attempts are allowed; one booked as failed was refused by every allowed send or the pool was cancelled |
| WorkerPool.StopSettlesExactly | internal/notify/worker.go:94-100 | When Stop returns every accepted job has been booked exactly once if and only if the pool had a worker or accepted nothing |
| WorkerPool.NoAttemptsSendNothing | internal/notify/worker.go:130-159 | A pool allowed no attempts books every job as sent without a send |
| WorkerPool.SubmittedAreKept | internal/notify/worker.go:74-81 | In every run the jobs submitted before the stop are exactly, as a multiset, those waiting, those accepted and those turned away after the close: none is lost, doubled or exchanged |
| WorkerPool.WorkersAreLaunched | internal/notify/worker.go:85-91 | The pool has exactly as many workers as were launched, whatever happens |
| WorkerPool.CommandsExactly | internal/notify/worker.go:94-100 | The pool is stopped, closed and cancelled exactly by the commands that say so, and closed only after the stop |
| WorkerPool.ClosedAcceptsNothing | internal/notify/worker.go:74-81 | Once the queue is closed no job is accepted in any continuation, submissions already waiting included |
| WorkerPool.StopIsReached | internal/notify/worker.go:94-100 | From any state with the queue closed the pool makes at most as many further steps as its measure says, in whatever order, and when it can make none every worker has left and Stop returns |
| WorkerPool.StepsFinish | internal/notify/worker.go:113-128 | Every step of waiting submitters and workers lowers a measure that is never negative |
| WorkerPool.SendWithRetry | internal/notify/worker.go:130-159 | The loop as written ends where the machine's steps end; it stops at the first success, at the cancellation or after the last attempt, with pauses only between attempts |
| WorkerPool.BackoffClosedForm | internal/notify/worker.go:152-155 | After the first, the pauses are the initial one times powers of two, up to the cap |
| Bus.JoinSplit | internal/bus/channel.go:76-77 | Joining the tokens of a subject gives the subject, so different subjects have different tokens |
| Bus.TokensHaveNoDots | internal/bus/channel.go:76-77 | No token holds a dot, which with the round trip fixes the tokens of every subject |
| Bus.PlainMatchesOnlyItself | internal/bus/channel.go:70-75 | A pattern without wildcards matches exactly itself, which makes the equality shortcuts right |
| Bus.MatchesExactly | internal/bus/channel.go:66-93 | Matching by positions: in front of the first > each token of the pattern is * or the subject's own, and the subject has as many tokens, or more if there is a > |
| Bus.ChannelBus.SubjectMatchesLoop | internal/bus/channel.go:69-93 | The token loop behind its shortcuts agrees with the recursive meaning of * and > |
| Bus.ChannelBus.Snapshot | internal/bus/channel.go:96-103 | Exactly the subscriptions some matching pattern lists, each once |
| Bus.ChannelBus.Publish | internal/bus/channel.go:95-129 | Every matching broadcast subscription receives once, each queue with a match through exactly one matching member, and nobody else |
| Bus.ChannelBus.QueueSubscribe | internal/bus/channel.go:33-38 | Adds one subscription at the end of its pattern's list |
| Bus.ChannelBus.Unsubscribe | internal/bus/channel.go:43-63 | Removes exactly the pattern's subscriptions with that queue name |
| Consumers.ConsumerCache.Ensure | internal/api/handlers/cloudevents_consumer.go:138-206 | Returns the organisation's own cached consumer, touched, or a new one below the cap, subscribed once, or refuses and changes nothing; keeps counters exact and capped, one subscription per cached consumer and none for others, and evicted marks on exactly the dropped ones |
| Consumers.ConsumerCache.SweepOnce | internal/api/handlers/cloudevents_consumer.go:242-271 | Drops exactly the consumers idle beyond the limit, and keeps counters, marks and subscriptions exact |
| Consumers.ConsumerCache.Release | internal/api/handlers/cloudevents_consumer.go:254-257 | Taking one consumer out keeps every organisation's counter equal to its cached consumers |
| Consumers.NameTellsOrg | internal/api/handlers/cloudevents_consumer.go:284-287 | Equal names have equal organisations and digests, whatever characters an organisation id contains |
| Consumers.MatchesOwnOrgOnly | internal/cloudevents/publisher.go:28-30 | A consumer's subject matches an event if and only if the event is of its own organisation, for ids without dots and wildcards |
| Consumers.EventsReachOwnConsumersOnce | internal/api/handlers/cloudevents_consumer.go:156-191 | Whatever the bus delivers for an event of an organisation, each cached consumer of that organisation gets exactly one copy, and every other name none |
| Notify.DuplicateExactly | internal/notify/dispatcher.go:187-206 | A submission is a duplicate exactly when it has a key that some earlier one claimed less than five minutes before, wherever cleanup passes happened; otherwise it is handed over exactly when its channel has a provider |
| Notify.HandOversApart | internal/notify/dispatcher.go:187-206 | Two submissions of one key that both claim it are at least five minutes apart |
| Notify.CleanUpExactly | internal/notify/dispatcher.go:223-231 | After a cleanup pass exactly the keys whose last claim is at most five minutes old are in the map |
| Notify.HandedExactly | internal/notify/dispatcher.go:150-171 | In every run the workers have been handed exactly the jobs whose submission was answered so, in order |
| Notify.DuplicateCause | internal/notify/dispatcher.go:150-162 | When a submission is reported as success because it is a duplicate, the workers were handed a job of its key within the last five minutes if and only if the claim it ran into, the last one, found its channel's provider |
| Notify.HandedByLastClaim | internal/notify/dispatcher.go:150-164 | Within five minutes of the last claim of a key, the workers were handed a job of that key if and only if that claim was a hand-over |
| Notify.RefusedThenLost | internal/notify/dispatcher.go:127-162 | A job refused for want of a provider and delivered again within five minutes, whatever happens between, is reported as success although the workers were handed no job of its key, and nothing changes |
| Notify.RoundReachesEveryTargetExactly | internal/escalation/engine.go:547-581 | With free keys a round hands over the first job of every user, so all of its jobs exactly when no user occurs twice |
| Notify.RetryIsHeardExactly | internal/escalation/engine.go:402-409 | A retry of a round is handed over exactly when five minutes have passed, and not at all otherwise |
| Notify.Dispatcher.DispatchJob | internal/notify/dispatcher.go:150-171 | Claims the key, then hands the job to its channel's workers or reports the missing provider; a duplicate is success |
| Notify.Dispatcher.CleanUpPass | internal/notify/dispatcher.go:223-231 | The walk in any order deletes exactly the claims past their expiry |
| Redaction.RoundTrip | internal/api/handlers/notification_channels.go:131-164 | Merging a redacted configuration over its original gives the original, for every object and every list of dotted paths, overlapping ones included |
| Redaction.NoSecretIsShown | internal/api/handlers/notification_channels.go:80-95 | After redaction every secret position is missing or shows the sentinel, overlapping paths included |
| Redaction.MergeAllExactly | internal/api/handlers/notification_channels.go:147-164 | For every list of secret paths, overlapping ones included, at any position without a restored secret below it a merge leaves the stored value if a secret position at or above it is restored, and else the edited one |
| Redaction.ParentChanges | internal/api/handlers/notification_channels.go:100-129 | A concrete edit in which restoring a secret changes the object above it, so a position with a restored secret below is rightly excepted |
| Redaction.MergeChangesOnlySentinels | internal/api/handlers/notification_channels.go:100-129 | A merge changes a position only at, above or below a secret path at which the edit shows the sentinel |
| Redaction.MergeAllElsewhere | internal/api/handlers/notification_channels.go:147-164 | A position apart from every secret path keeps its edited value |
| Redaction.MergeKeepsEdits | internal/api/handlers/notification_channels.go:100-129 | Edits that show the sentinel at no secret position are stored unchanged |
| Redaction.RedactAt | internal/api/handlers/notification_channels.go:80-95 | Redaction shows the sentinel at a position that exists and changes nothing when it does not |
| Redaction.RedactElsewhere | internal/api/handlers/notification_channels.go:80-95 | Redaction changes no position apart from its path |
| Redaction.MergeAt | internal/api/handlers/notification_channels.go:100-129 | A merge puts the stored value back exactly where the edit shows the sentinel and a value is stored, and otherwise changes nothing |
| Maintenance.DailyExactly | internal/domain/maintenance.go:46-49 | A daily window is active exactly during its occurrences if and only if it starts at midnight, or does not run past midnight within its recurrence |
| Maintenance.WeeklyExactly | internal/domain/maintenance.go:51-67 | A weekly window is active exactly during its occurrences on selected weekdays if and only if no occurrence of the first week is cut off at midnight |
| Maintenance.OnceExactly | internal/domain/maintenance.go:28-30 | A one-off window is active exactly from its start to its end, whatever its recurrence end |
| Maintenance.OnceStartsAndEnds | internal/maintenance/ticker.go:90-139 | A one-off row kept unchanged over polls in time order gets one started event once a poll falls between its start and its end, after it one ended event, not early, once a poll falls after its end, and no other |
| Maintenance.CalendarIs | internal/domain/maintenance.go:51-67 | Days have 86,400 seconds, the first is a Thursday, and each weekday is followed by the next |
| Maintenance.ChangeExactly | internal/maintenance/ticker.go:90-139 | One poll owes a window nothing when its activity has not changed, else started, ended, or for a deleted open one an early end |
| Maintenance.EventsAlternate | internal/maintenance/ticker.go:90-139 | Over any run of polls, with windows created, edited, deleted and created again in between, a window's events alternate beginning with started, and one is open exactly while the last poll saw it stored and active |
| Maintenance.PollAll | internal/maintenance/ticker.go:70-86 | A ticker polled over and over has emitted exactly each window's history and remembers exactly what its last poll saw |
| Maintenance.Ticker.Poll | internal/maintenance/ticker.go:90-139 | After a poll exactly the stored windows are remembered, with their activity, and each window got exactly the events it was owed |
| Maintenance.Ticker.PollDeleted | internal/maintenance/ticker.go:127-138 | Windows without a row are forgotten, an open one after an early end; the others are left alone |

## Left out

- Detector.AlertExactlyWhenDue: checks and their events are taken in order; the bus delivers in goroutines whose order is not modelled. Which row a look-up finds is free, so the batch writer itself is left out, and edits of the configuration remove no monitor.
- Notify.Dispatcher.DispatchJob: in-memory deduplication only; the database store and the outbox are not part of this model.
- Bus.ChannelBus.Publish: states who receives; the random choice is any member of the queue, and handlers run at once. Subscriptions carry a serial number that the code does not have.
- KeyRotation.Manager.Rotate: at most one call of a rotation errs, and a call that errs has no effect; encryption, key material and identifiers are opaque.
- WorkerPool.EveryRunConserves: counting a job and calling the dead-letter callback are one step; panics inside Send are not modelled.
- Consumers.ConsumerCache.Ensure: ensure and sweep are taken one at a time; the interleavings of a failing subscription and of the late unsubscribe are not covered. The digest is any function with results of one length, so filters of one organisation may share a name.
- RateLimiter.Limiter.AllowCall: only the decision wraps at 64 bits; times before the zero time and counts beyond 64 bits do not occur.
- Redaction.RoundTrip: configurations are JSON values, not nested maps changed in place, so aliasing is not captured; decoding, encoding and the untouched text of an undecodable configuration are left out.
- Store rows are maps and lists with the order each query promises; SQL, drivers, transactions and read or write errors other than missing rows are left out. Rows deleted behind the engine's back, as when a monitor is deleted, are left out too.
- Each handler reads the clock once; the lists of the limiter and the registry are sequences of keys, without list elements and pointers.
- Handlers of the HTTP API that acknowledge and resolve alerts: they bypass the engine and its guards.
- EscalationEngine.Engine.NotifyStep: a job is its alert, organisation, channel, user and key; encryption of the channel configuration, its failure, SMS and voice quotas (a no-op here), and the second write to the bus are left out.
- Resolution of on-call schedules and team members: a step's targets arrive resolved. New identifiers are assumed unused.
- Heartbeat checks, the resynchronisation of monitors, and the check workers' queues.
- Grading of results by latency and match rules: a result is any status.
- Accepted reply types arrive as the set of types the configured globs match; glob matching itself is left out.
- The token client around its cache: requests, refresh ahead of expiry and error wrapping.
- Monthly recurrence, time zones other than UTC, and parsing of weekday lists.
- Ordering of policy steps that share a position: positions are taken as the API stores them, strictly increasing.
- WebSockets, mail, web pages, metrics other than the active-alert gauge, logging, seed data and configuration loading.
