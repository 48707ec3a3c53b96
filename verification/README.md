# Probakgo: models and proofs

Probakgo watches backups: clients report, the server evaluates alerts and tells people about
them on three channels, and administrators log in to a web interface. This project models the
parts of it that are state machines or protocols and proves what they are for.

Each file is one component.

| file | what it models |
|---|---|
| `alert_life.dfy`, `alert_life_laws.dfy` | the life of one alert in `alert_states` and `telegram_alert_deliveries`, against the full history of what was recorded for it |
| `alert_tables.dfy` | the tables and every statement or transaction on them, for all alerts at once |
| `alert_runs.dfy` | runs of table operations, and what retention changes in them |
| `alert_engine.dfy` | one evaluation: which sync it gets when evaluators fail |
| `dispatch.dfy` | one round of the notification dispatcher per channel |
| `ban_life.dfy`, `banhammer.dfy` | login bans: sliding window, escalation, lazy expiry, cleanup, stored mirror, restart |
| `limiter.dfy` | the fixed-window rate limiter |
| `last_job.dfy` | the client's reconstruction of the last backup job |
| `schedules.dfy` | reading day lists and merging several backup jobs into one schedule per VM |
| `staleness.dfy` | when a PVE report is stale |
| `key_binding.dfy` | binding an API key to the first machine that uses it |
| `report_submission.dfy` | idempotent report submission under crashes and retries |
| `nas_backup.dfy` | the daily copy to the NAS, claimed by compare-and-swap |
| `two_factor.dfy`, `two_factor_runs.dfy` | pending 2FA challenges, one-use time steps, and any interleaving of logins |
| `task_group.dfy` | tracked background work and its shutdown |
| `wrappers.dfy` | the optional value |

How the models are built:

- A committed SQL statement or transaction, and a region under a lock, is one atomic step: the
  database runs on a single connection (`internal/db/db.go:28`).
- Code that changes state is a class with the same fields, and each method is proved against a
  function on values. What the system promises is then proved of those functions, over every
  step and every run. Ghost histories (`notes`, `admitted`, `checks`, `uses`, `attempts`) are
  the reference: they record events only, and the invariants say that the stored flags are
  exactly what the history says.
- What the main operations store and answer is stated in columns and literal numbers, beside the
  functions their proofs use, so that a wrong function shows.
- Times, tokens, what a send returned and where a process crashes are parameters. A method that
  takes a time asks for a clock that does not run backwards; the value-level runs of the 2FA,
  NAS, key and report protocols ask for nothing about the clock.

What the code does that its comments do not say, each proved here:

- The email mark has no presence guard, unlike the push mark. Email state agrees with the
  history along a run if and only if no email mark arrives after the alert was resolved
  (`RunKeepsEmailIff`); a late one makes the next episode count as mailed.
- A push mark is guarded by presence, not by episode, and an alert that was resolved between the
  sync and the selection is still selected. The mark lands on an episode nobody was told of if
  and only if the alert is present and resolved or appeared since its selection
  (`PushMarkLands`). Email and Telegram marks land there in the same cases and, besides, on
  every resolved alert whose row still exists (`UnguardedMarkLands`).
- A sync that names a resolved alert twice records two appearances in a row; one that names a
  new alert twice is rolled back (`SyncKeepsLedgerIff`, `SyncAlertStates`).
- Retention leaves all alerts indistinguishable along a run of table operations if and only if it
  takes no row that carries an email mark and no later operation depends on a row that it took:
  an email mark for such a row, or a sync or Telegram batch that commits only thanks to it
  (`RetentionIsInvisibleIff`). A batch that is rolled back is lost for its other alerts too
  (`BatchIsLostForOthers`). When marks are for alerts that a sync found and retention deletes
  nothing as recent as that, only a row deleted with an email mark can show (`OnlyMarkedRowsShow`).
  This is about what `Observe` lists: present alerts, their sent lookups and the pending lists. Two
  readers look at resolved alerts too and see the deletion at once: the Telegram sent lookup and
  the event info of the alert page (`RetentionSeenIff`).
- `ListBanned` and `IsBanned` differ exactly at the instant a ban expires; `Blocked` and
  `allow` differ exactly at the instant a full window ends.
- A restart keeps an active ban if and only if its expiry in whole seconds is still ahead.
- The last job always contains the connected component of the most recently ended task. It is
  that component if and only if each of its tasks that starts more than two hours after its own
  end is near an earlier one of the order or is the head (`JobIsComponentIff`). The order of
  input and ties does not matter if and only if no such task that ended last shares its end with
  a different task (`OrderDoesNotMatterIff`).
- A VM can get a weekend day from a job that does not cover it, because merging changes the
  schedule the job hands to its next VM: it gets a day of no covering job if and only if a job
  covering it took the day over from a VM listed before (`WeekendDayIff`).
- At most one scheduled NAS copy per calendar day needs no monotone clock.
- A retried report with newer contents is dropped if and only if its ID was stored before.
- A 2FA code can be accepted a second time after 2FA is disabled: after the reset exactly the
  positive recorded steps are claimable again (`ResetFreesUsedSteps`), and two requests can be
  granted with one step (`CodeUsedTwice`). The sessions are of an old version and are not
  admitted (`NoTwoLoginsShare`).

## Model

| member | source | states |
|---|---|---|
| `AlertLife.Appended` | internal/store/alert_state.go:105-157 | recording one more note keeps the events alternating exactly when an appearance follows an even number of events and a resolution an odd one; it decides whether the episode is open |
| `AlertLife.SentAppended` | internal/store/alert_state.go:187-198 | a notice counts for the open episode from its mark on an open episode until the next event, whatever else is recorded |
| `AlertLife.OwedAppended` | internal/store/alert_state.go:137-153 | a resolution is owed exactly from the critical end of an announced episode until it is told or the alert appears again |
| `AlertLife.TelegramAppended` | internal/store/telegram.go:216-275 | per destination: a delivery stands until the alert appears again, and it is unanswered until its resolution is told |
| `AlertLife.SentMeansOpen` | internal/store/alert_state.go:137-151 | in any history a sent notice means an open episode and an owed resolution a closed one |
| `AlertLifeLaws.StepKeepsLedger` | internal/store/alert_state.go:73-160 | every statement keeps: events alternate starting with appeared, the alert is present exactly when the last is appeared, and delivery rows are what the history says for every destination |
| `AlertLifeLaws.StepKeepsTelegram` | internal/store/telegram.go:192-275 | after any statement a delivery row exists, and is unanswered, exactly when the history says so |
| `AlertLifeLaws.StepKeepsPush` | internal/store/alert_state.go:187-198 | every statement keeps the push marker and pending flag equal to the history |
| `AlertLifeLaws.StepKeepsEmail` | internal/store/alert_state.go:250-261 | a statement keeps the email marker and pending flag equal to the history if and only if it is not an email mark on a resolved alert |
| `AlertLifeLaws.FlagsMeanPresence` | internal/store/alert_state.go:137-151 | a sent marker implies present, a pending resolution implies not present |
| `AlertLifeLaws.MarksTouch` | internal/store/alert_state.go:187-308 | a mark or answer changes its own channel's column of an email or push row, with its time, and nothing an evaluation wrote; it makes the row as recent as itself exactly when it applies |
| `AlertLifeLaws.TelegramMarksTouch` | internal/store/telegram.go:216-275 | a Telegram mark records an unanswered delivery to its destination with its time, an answer its time on a delivery that exists, and no other delivery changes |
| `AlertLifeLaws.SyncKeepsLedgerIff` | internal/store/alert_state.go:104-128 | without assuming distinct IDs: a sync keeps the history alternating if and only if it does not name a resolved alert twice |
| `AlertLifeLaws.UpsertsOfPresent` | internal/store/alert_state.go:117-127 | repeating a present alert in one evaluation records nothing and keeps its deliveries |
| `AlertLifeLaws.RunKeepsLedger` | internal/store/alert_state.go:73-160 | over every run of complete and partial syncs, marks of any channel and retention: history, presence, Telegram rows and push flags agree |
| `AlertLifeLaws.RunKeepsEmailIff` | internal/store/alert_state.go:250-261 | email agrees all along a run if and only if no email mark of it arrives late |
| `AlertLifeLaws.LateEmailMarkHidesNextEpisode` | internal/store/alert_state.go:250-261 | on any resolved alert, and through any run without events that keeps the row, a late mark makes the next episode count as mailed although nobody was told of it |
| `AlertLifeLaws.TurnsOnlyGrow` | internal/store/alert_state.go:105-157 | no run takes back or reorders an event |
| `AlertLifeLaws.MarkedUntilResolved` | internal/service/immediate_notifications.go:310-333 | a marked alert stays marked, so is not selected again, through any run in which it does not resolve |
| `AlertLifeLaws.NewEpisodeUnmarked` | internal/store/alert_state.go:117-127 | each new episode starts unmarked on push, on every Telegram destination and, where email agrees, on email |
| `AlertLifeLaws.UnmarkedUntilMarked` | internal/store/alert_state.go:187-198 | no statement but the push mark makes an unmarked alert count as pushed |
| `AlertLifeLaws.PushMarkLands` | internal/service/immediate_notifications.go:245-269 | select whatever is not recorded as sent, present or not, then any page syncs, then mark: the alert ends up marked exactly when present, and on an episode nobody was told of exactly when it is present and resolved or appeared since the selection |
| `AlertLifeLaws.UnguardedMarkLands` | internal/store/alert_state.go:250-261 | email and Telegram marks land exactly where the row exists, so on a resolved alert whenever it is absent, and on an episode nobody was told of in the same cases as push |
| `AlertLifeLaws.PushMarkOnUnannouncedEpisode` | internal/service/immediate_notifications.go:245-269 | from any unannounced present alert two page syncs before the mark lead there |
| `AlertLifeLaws.PushMarkOnReturnedAlert` | internal/web/handlers/alerts.go:327-346 | from any resolved alert one page sync that finds it again leads there |
| `AlertLifeLaws.SyncPresence` | internal/store/alert_state.go:61-71 | a partial sync makes the present set old union new, a complete one makes it the evaluation |
| `AlertLifeLaws.PartialThenComplete` | internal/store/alert_state.go:61-160 | a partial sync of a subset and then the complete one leave the same row, deliveries and events as the complete one alone, up to timestamps |
| `AlertLifeLaws.ResyncIsQuiet` | internal/store/alert_state.go:61-160 | syncing the same evaluation again adds no event and changes timestamps only |
| `AlertLifeLaws.TwinsStep` | internal/store/alert_state.go:512-549 | a pruned alert stays indistinguishable from the kept one through a statement if and only if it is not an email or Telegram mark for a row that retention took |
| `AlertLifeLaws.RetentionTwins` | internal/store/alert_state.go:530-541 | deleting a row leaves the alert indistinguishable if and only if the row carries no email mark |
| `AlertRuns.Perform` | internal/store/alert_state.go:73-346 | every table operation of a run is what the method of the store does to all alerts at once, roll-back included |
| `AlertRuns.TablesTwinsStep` | internal/store/telegram.go:216-236 | tables with and without retention stay indistinguishable through an operation, for every alert, if and only if it does not commit only thanks to a row that retention took and marks no such row on email |
| `AlertRuns.RetentionIsInvisibleIff` | internal/store/alert_state.go:512-549 | all along any run of table operations all alerts are indistinguishable from those of tables without the retention if and only if it takes no row with an email mark and no operation depends on a row it took |
| `AlertRuns.RetentionIsInvisible` | internal/store/alert_state.go:512-549 | then the present list, the sent lookups of present alerts and the pending lists of the three channels show after the run what they would have shown without retention |
| `AlertRuns.BatchIsLostForOthers` | internal/store/telegram.go:216-236 | a Telegram batch that commits only thanks to a row retention took is lost for every other alert of the batch |
| `AlertRuns.OnlyMarkedRowsShow` | internal/service/immediate_notifications.go:69-110 | when batches are of alerts that a sync found and retention deletes nothing as recent as that, retention is invisible if and only if it takes no row with an email mark |
| `AlertLifeLaws.RetentionSeenIff` | internal/store/telegram.go:192-214 | the Telegram sent lookup and the event info of the alert page, which look at resolved alerts too, change at the deletion exactly when the row (and, for the lookup, its delivery) is taken |
| `AlertLifeLaws.AnsweredAlertIsTaken` | internal/store/alert_state.go:530-541 | an alert told, resolved and answered on Telegram is such a row |
| `AlertLifeLaws.RetentionAtOnce` | internal/store/alert_state.go:530-541 | at the deletion itself the present list, the sent lookups of present alerts and the pending lists do not change, whatever the marks |
| `AlertLifeLaws.StrayMarkShows` | internal/store/telegram.go:216-236 | for every pair of a kept and a pruned alert a stray Telegram mark shows at once as a pending resolution, and a stray email mark when the alert is found again |
| `AlertLifeLaws.MarkedRowShows` | internal/store/alert_state.go:530-541 | a row taken although it carries an email mark shows when the alert is found again |
| `AlertTables.AlertStore.SyncAlertStates` | internal/store/alert_state.go:73-160 | both loops over any evaluation do to every alert's rows exactly its own sync step, or nothing when a new alert is named twice; written out column by column: a found alert gets the facts of its last mention, keeps its first seen and its marks if it was known and loses an earlier episode's deliveries, a missed one keeps its facts and owes a resolution on each marked channel if those are critical, any other stays; the invariant survives if and only if no resolved alert is named twice |
| `AlertTables.SyncStores` | internal/store/alert_state.go:73-160 | that column by column account, for one alert of the tables |
| `AlertTables.ResolutionFollowsLastSeverity` | internal/store/alert_state.go:137-151 | an announced alert that is found and then missed by a complete sync is owed a resolution by email or push exactly when it was last found critical |
| `AlertTables.AlertStore.UpsertFound` | internal/store/alert_state.go:103-128 | the upsert loop, driven by the rows read before it, and exactly when its transaction fails |
| `AlertTables.AlertStore.ResolveMissing` | internal/store/alert_state.go:130-157 | the resolve loop completes the sync of every alert, found or not |
| `AlertTables.SyncKeepsFaith` | internal/store/alert_state.go:73-160 | a sync of all alerts keeps the invariant if and only if it names no resolved alert twice, and never harms email alone |
| `AlertTables.MarksKeepFaith` | internal/store/alert_state.go:187-346 | a batch mark keeps the invariant of every alert; email's exactly when no listed alert was resolved before |
| `AlertTables.AlertStore.MarkAlertCriticalPushesSent` | internal/store/alert_state.go:187-198 | marks exactly the present ones of the list and touches no other alert |
| `AlertTables.AlertStore.MarkAlertCriticalEmailsSent` | internal/store/alert_state.go:250-261 | marks every listed row, and email agreement survives exactly when all of them are present |
| `AlertTables.AlertStore.MarkAlertCriticalTelegramsSent` | internal/store/telegram.go:216-236 | records all deliveries of the batch or, when one alert has no row, none |
| `AlertTables.AlertStore.MarkAlertResolutionPushesSent` | internal/store/alert_state.go:335-346 | answers exactly the absent ones of the list on push |
| `AlertTables.AlertStore.MarkAlertResolutionEmailsSent` | internal/store/alert_state.go:297-308 | answers the listed rows on email, keeping both invariants |
| `AlertTables.AlertStore.MarkAlertResolutionTelegramsSent` | internal/store/telegram.go:265-275 | answers the listed deliveries of one destination, keeping both invariants |
| `AlertTables.AlertStore.DeleteOldAlertHistory` | internal/store/alert_state.go:530-548 | a row goes exactly when its alert is resolved, waits for no resolution on any channel or destination and was last touched before the cutoff; its deliveries go with it and every other row and delivery stays as it was; the present list, the sent lookups of present alerts and the pending lists do not change |
| `AlertTables.AlertStore.ListPresentAlerts` | internal/store/alert_state.go:30-59 | lists exactly the present alerts |
| `AlertTables.AlertStore.ListCriticalPushSentAlertIDs` | internal/store/alert_state.go:162-185 | answers exactly the present and pushed ones of the list |
| `AlertTables.AlertStore.ListCriticalEmailSentAlertIDs` | internal/store/alert_state.go:216-239 | answers exactly the present and mailed ones of the list |
| `AlertTables.AlertStore.ListCriticalTelegramSentAlertIDs` | internal/store/telegram.go:192-214 | answers those of the list with a delivery for the destination, present or not |
| `AlertTables.AlertStore.ListPendingAlertResolutionPushes` | internal/store/alert_state.go:310-333 | lists exactly the alerts whose history owes a push resolution |
| `AlertTables.AlertStore.ListPendingAlertResolutionEmails` | internal/store/alert_state.go:263-286 | lists exactly the alerts whose history owes an email resolution, while email agrees |
| `AlertTables.AlertStore.ListPendingAlertResolutionTelegrams` | internal/store/telegram.go:238-263 | lists exactly the absent alerts with an unanswered delivery for the destination |
| `AlertEngine.RunAll` | internal/service/alertengine.go:101-124 | every alert of the evaluators that succeeded, in order, and no error exactly when all did |
| `AlertEngine.CollectedMeansReported` | internal/service/alertengine.go:101-124 | an alert comes out of a run exactly when some evaluator that succeeded reports it |
| `AlertEngine.Evaluate` | internal/service/alertengine.go:126-133 | an alert that was present is resolved if and only if every evaluator succeeded and none reported it; an absent one becomes present if and only if reported; the sync commits unless loading failed or a new alert is named twice |
| `Dispatch.CriticalAlertsPending` | internal/service/immediate_notifications.go:292-333 | due is an ID exactly when some alert of the evaluation has it with severity critical and a kind other than `pbs_report_stale` and `pbs_stale`, it is not suppressed, and the channel has no notice of it on record (email and push look at present alerts only, Telegram at all) |
| `Dispatch.RoundDrains` | internal/service/immediate_notifications.go:82-110 | a delivered round leaves nothing called for and present unrecorded and no resolution owed on its channel, changes no other channel and no presence; a round in which nothing went out changes nothing |
| `Dispatch.RoundKeepsLedgers` | internal/service/immediate_notifications.go:82-110 | a round keeps the invariants, email's too when what it announces is present |
| `Dispatch.PushRound` | internal/service/immediate_notifications.go:82-98 | select, send, mark, then the resolutions: exactly one round of the push channel for every alert; an undelivered message is not recorded |
| `Dispatch.EmailRound` | internal/service/immediate_notifications.go:154-208 | nothing changes unless the batch is due and no backoff is active; then exactly one round of the email channel: a digest records both lists or none, separate messages stop at the first failure, one with no alerts is not sent, and what failed is not recorded |
| `Dispatch.TelegramRound` | internal/service/immediate_notifications.go:120-147 | exactly one round of one destination; the batch is recorded whenever it was delivered and its alerts still have rows |
| `BanLife.FailureRefines` | internal/ratelimit/banhammer.go:211-267 | sliding window: a failure bans exactly when no ban is in force and the failures strictly within the window since the last reset reach maxFails, and the state keeps saying what the history says |
| `BanLife.FailureRule` | internal/ratelimit/banhammer.go:123-128 | with k bans since the last lift, a failure that finds no ban running and is at least the maxFails-th strictly within the window bans for the k-th duration, or the last when they are used up, zero standing for ever |
| `BanLife.RecentCounts` | internal/ratelimit/banhammer.go:229-237 | the pruning loop leaves as many failures as there are later than the start of the window |
| `BanLife.FailureKey` | internal/ratelimit/banhammer.go:211-267 | memory, stored row and history of a key after a failure agree, and a new ban lasts as long as the number of bans since the last unban says |
| `BanLife.FailureCoupled` | internal/store/ip_bans.go:37-52 | the store gets a new row exactly when the key got banned, and keeps agreeing with the history |
| `BanLife.RecentAgain` | internal/ratelimit/banhammer.go:229-237 | pruning an already pruned list of failures loses nothing a later window could count |
| `BanLife.CheckRefines` | internal/ratelimit/banhammer.go:186-209 | a check resets the failures exactly when the ban in force has run out |
| `BanLife.SweepRefines` | internal/ratelimit/banhammer.go:163-184 | the cleanup keeps every entry saying what the history says |
| `BanLife.CleanupIsInvisible` | internal/ratelimit/banhammer.go:163-184 | every later sequence of calls answers the same with or without the cleanup |
| `BanLife.AlikeForever` | internal/ratelimit/banhammer.go:186-324 | entries with the same bans and the same recent failures answer every sequence of calls alike |
| `BanLife.PermanentUntilLifted` | internal/ratelimit/banhammer.go:188-201 | a permanent ban answers every check until an unban, whatever else happens |
| `BanLife.RestartRefines` | internal/ratelimit/banhammer.go:97-121 | after Load every escalation level is kept and only failures of unbanned keys are forgotten |
| `BanLife.RestartKeepsBanIff` | internal/store/ip_bans.go:13-52 | an active ban survives a restart if and only if its whole-second expiry is ahead; it is lost or ends early by less than a second |
| `BanLife.ListDisagreesIff` | internal/ratelimit/banhammer.go:303-324 | the list and the check disagree exactly at the instant of expiry |
| `BanHammers.Banhammer.RecordFailure` | internal/ratelimit/banhammer.go:211-267 | a trusted address is never counted; any other is banned exactly when no ban runs and this is at least the maxFails-th failure strictly within the window, for the duration that the number of bans since the last lift selects, and then the store has the new row to the second; no other key changes |
| `BanHammers.Banhammer.Count` | internal/ratelimit/banhammer.go:224-253 | the in-place part: prune, append, compare, escalate |
| `BanHammers.Banhammer.IsBanned` | internal/ratelimit/banhammer.go:186-209 | banned exactly while the ban in force runs, with the time left, -1 for a permanent one and 0 when free; noticing an expired ban resets the failures |
| `BanHammers.Banhammer.ClearFailures` | internal/ratelimit/banhammer.go:269-278 | the failures of the key no longer count, its bans and the store are untouched |
| `BanHammers.Banhammer.UnbanIP` | internal/ratelimit/banhammer.go:280-293 | the address and its key are forgotten in memory and in the store, and nothing else |
| `BanHammers.Banhammer.CleanupAt` | internal/ratelimit/banhammer.go:163-184 | sweeps every entry in place, keeps exactly those with a running ban, an earlier ban or a recent failure, and changes no history and no stored row |
| `BanHammers.Banhammer.ListBanned` | internal/ratelimit/banhammer.go:303-324 | exactly the keys whose ban in force has not passed, with its start and expiry and the count of the history |
| `BanHammers.Banhammer.Restart` | internal/ratelimit/banhammer.go:97-121 | a new process that loads the store is valid for the same histories and keeps every escalation level |
| `RateLimiter.AllowKeepsPace` | internal/ratelimit/ratelimit.go:46-57 | a call keeps the windows apart, every admission inside one and none over the limit |
| `RateLimiter.AtMostTwiceTheLimit` | internal/ratelimit/ratelimit.go:46-57 | no interval as long as a window sees more than twice the limit |
| `RateLimiter.BlockedPredictsAllow` | internal/ratelimit/ratelimit.go:63-70 | Blocked implies the refusal of allow at that instant, and they differ only when a full window ends at that instant |
| `RateLimiter.Limiter.Allow` | internal/ratelimit/ratelimit.go:46-57 | the answer and the bucket, the record of admissions and windows, and that no other key changes |
| `RateLimiter.Limiter.Bounded` | internal/ratelimit/ratelimit.go:46-57 | after any calls in any order, cleanups included, at most twice the limit in any interval as long as a window |
| `RateLimiter.Limiter.Blocked` | internal/ratelimit/ratelimit.go:63-70 | for a positive limit true exactly while the last window is open and the limit has been admitted in it, and then an attempt at that instant is refused |
| `RateLimiter.Limiter.Cleanup` | internal/ratelimit/ratelimit.go:32-44 | drops exactly the finished windows, and no later allow or Blocked answers differently |
| `LastJob.LinkedIsInJob` | client/pve.go:158-172 | for every input: whatever is linked to the most recently ended task by gaps of at most two hours is in the job |
| `LastJob.JobIsLinked` | client/pve.go:158-172 | every task of the job is linked to the most recently ended one, when each that starts long after its own end is near an earlier one |
| `LastJob.JobIsComponentIff` | client/pve.go:158-172 | the job is exactly the connected component of the most recently ended task if and only if each of its tasks that starts over two hours after its own end is near an earlier one of the order or equals the head |
| `LastJob.NearMeans` | client/pve.go:158-172 | two tasks are near when neither starts more than 7200 seconds after the other ends |
| `LastJob.LinkedIsReached` | client/pve.go:158-172 | a task that is linked to the head but starts long after its own end is near an earlier one of the order |
| `LastJob.OrderDoesNotMatterIff` | client/pve.go:155-172 | every input order and order of ties gives the same job if and only if no task that ended last and starts over two hours after its own end shares its end with a different task |
| `LastJob.InOtherJob` | client/pve.go:155-172 | a task of one order's job ended after whatever the other order's job leaves out |
| `LastJob.ImplausibleOrderMatters` | client/pve.go:155-172 | two sorts of the same two tasks are cut at one and at two, and the longer job is not its component |
| `LastJob.SortByEnd` | client/pve.go:155-156 | a permutation, latest end first |
| `LastJob.GroupLastJob` | client/pve.go:161-172 | the loop keeps exactly the tasks before the first gap over two hours below the earliest start so far: what it leaves out ends more than 7200 seconds before every start it keeps, and each task it keeps ends within that of an earlier one |
| `LastJob.CutMeans` | client/pve.go:158-172 | where the sequence is cut, in seconds |
| `LastJob.RowsOf` | client/pve.go:219-271 | each VM of the job has exactly one row, from a task of the job that no other of that VM outlasts |
| `LastJob.BackupJobTasks` | client/pve.go:151-277 | sort, group and deduplicate together: each VM of the job once, and exactly when the job is the component |
| `Schedules.WithRange` | client/backup_config.go:563-568 | the range loop ends and sets exactly the days met counting around the week from the first to the last |
| `Schedules.EveryDayCanBeNamed` | client/backup_config.go:544-577 | exactly the seven days are readable, a range may go from a day to itself or all around the week, and a blank part is accepted |
| `Schedules.ParseDays` | client/backup_config.go:544-577 | a list is accepted exactly when every part is readable and some day is named, and then sets exactly the named days |
| `Schedules.ParsePVEDays` | client/backup_config.go:533-578 | the words for every day, for the working days and for the weekend set exactly these, anything else is a list |
| `Schedules.DiscoverSchedules` | client/backup_config.go:119-155 | the two loops, with the running change of the job's own schedule, compute the fold that the laws are about; a VM has a schedule exactly when an enabled job with a schedule lists it |
| `Schedules.MergeIsRight` | client/backup_config.go:131-155 | for every job list and VM: (weekdays, start) is the greatest of the covering jobs, the Monday-Friday pattern is that of one of these, no weekend day of a covering job is lost, and a VM has a schedule exactly when covered |
| `Schedules.MergePicks` | client/backup_config.go:614-622 | the entry gets weekdays, start and Monday-Friday pattern of the job that comes, if the VM had none or the job has more weekdays, or as many and a later start, or the same start and more days, counted as sets; otherwise it keeps its own, and weekend days add up |
| `Schedules.FirstBestIsPicked` | client/backup_config.go:131-155 | when no usable job runs on a weekend day, for every job list and VM: the schedule is that of the first of the covering jobs that no other one beats in (weekdays, start, number of days) |
| `Schedules.MergeMany` | client/backup_config.go:141-152 | merging one job keeps that right for every VM it covers and leaves the others alone |
| `Schedules.RunningDayIff` | client/backup_config.go:141-147 | a job runs on a weekend day when it comes to its n-th VM if and only if it does so itself or took the day over from a VM listed before |
| `Schedules.GivenDayIff` | client/backup_config.go:141-152 | after a job a VM has a weekend day if and only if it had it or the job ran on it when it came to the VM |
| `Schedules.WeekendDayIff` | client/backup_config.go:131-155 | for every job list, VM and weekend day: the VM gets the day if and only if a job covering it runs on it or took it over from a VM listed before, so the second is exactly when a day of no covering job leaks |
| `Schedules.NoLeak` | client/backup_config.go:131-155 | no weekend day leaks into a VM when every job that lists it after another VM comes before all jobs that run on that day |
| `Schedules.WeekendLeaksToTheNextVM` | client/backup_config.go:141-147 | two jobs with which a VM gets a Saturday that no job covering it has |
| `Staleness.LookBack` | internal/service/report.go:243-256 | the loop always decides within two weeks, by the latest expected day whose cutoff, the finish time on the morning after, has passed: stale exactly when the report is from before that day; the fallback is unreachable |
| `Staleness.DecidedBy` | internal/service/report.go:243-256 | the deciding day is an expected one whose finish time on the next morning has passed and after which no expected one's has, and the report is stale exactly when it is from before that day starts |
| `Staleness.SomeDayIsDue` | internal/service/report.go:244-253 | with some weekday expected, a day 8 to 14 days back is due even across the shortest days |
| `Staleness.OneDay` | internal/service/report.go:243 | every time, midnight included, is in exactly one day of any calendar with days of 23 to 25 hours |
| `Staleness.IsStaleForConfigsAt` | internal/service/report.go:211-257 | the decision for any configuration, never stale without an expected weekday |
| `Staleness.OnceStaleAlwaysStale` | internal/service/report.go:243-256 | with configuration and report fixed, stale once means stale ever after |
| `Staleness.FreshUntilNextCutoff` | internal/service/report.go:250-254 | with the report fixed nothing turns stale or fresh before the next expected day is due |
| `Staleness.LatestDueUnique` | internal/service/report.go:244-255 | the deciding day is unique |
| `Staleness.HasActiveConfigs` | internal/domain/schedule.go:42-49 | some configuration counts exactly when some weekday is expected |
| `Staleness.ExpectedFinish` | internal/service/report.go:259-270 | a readable server time comes first, then a readable global one, then nine; always a time of day |
| `Staleness.IsStaleForLoadedPVEConfig` | internal/service/report.go:198-204 | suppressed by a zero limit or a confirmed empty inventory and never stale without an expected weekday; otherwise the same decision with the server's finish time |
| `KeyBinding.AcceptedWasHeld` | internal/service/auth.go:30-64 | under every interleaving an accepted request carries a machine ID the key row held during that request |
| `KeyBinding.StepKeepsSound` | internal/store/apikey.go:157-194 | what every read, bind, re-read, unbind, toggle, deletion and creation keeps of every request in flight |
| `KeyBinding.ReadDecides` | internal/service/auth.go:32-43 | what the first read decides, in the order of the checks |
| `KeyBinding.BindDecides` | internal/service/auth.go:42-61 | the bind is won on an unbound row only and then accepts; a beaten request is accepted exactly when the row it reads again carries its own machine |
| `KeyBinding.AdministratorsChange` | internal/store/apikey.go:157-194 | what an unbind, a toggle and a deletion do to their key and to no other |
| `KeyBinding.WithoutUnbindOneMachine` | internal/service/auth.go:42-61 | in a run without an unbind of the key all accepted requests of it carry one machine ID, whatever happens to other keys |
| `KeyBinding.UnbindLetsAnotherIn` | internal/store/apikey.go:184-188 | with an unbind in between a second machine is accepted |
| `KeyBinding.AuthService.ValidateServerKey` | internal/service/auth.go:30-64 | undisturbed: accepted exactly for an active server key that is unbound or bound to this machine, which is then bound to it; the error says which check failed, and a rejection changes nothing |
| `KeyBinding.AuthService.BindAPIKeyMachineID` | internal/store/apikey.go:157-168 | the first machine wins: a free key is bound to this one, a bound key keeps its own, no other key changes, and no later bind of the key changes anything |
| `ReportSubmission.ReportStore.InsertWindowsReportData` | internal/store/windows.go:106-135 | a report goes in with all its disks or not at all, a repeated ID of the server is ignored, one without an ID is always stored, and IDs stay unique |
| `ReportSubmission.InsertKeepsUnique` | internal/store/windows.go:115-135 | inserting keeps one report per server and ID, never changes a stored one, and the ID is known afterwards |
| `ReportSubmission.StepKeepsInv` | client-windows/main.go:56-110 | crashes, torn writes, lost posts, late posts, lost answers and retries keep the marker and the stored reports in step |
| `ReportSubmission.RunIsIdempotent` | client-windows/main.go:56-110 | from any store without duplicates and any pending file, over every run: at most one report per server and ID is stored, no stored one changes, and a marker is removed only after a report with its ID was stored on the server it was posted to |
| `ReportSubmission.FileKeptUntilStored` | client-windows/main.go:76-81 | a marker changes only by its removal after a report with its ID was stored on the server that answered |
| `ReportSubmission.UndisturbedDelivers` | client-windows/main.go:56-110 | after any history and however the client before it ended, a client that nothing disturbs gets one report stored, under the pending ID or else its own, and removes the marker |
| `ReportSubmission.ClientEnds` | client-windows/main.go:84-110 | a client that dies or fails leaves the pending file as it is, unless it died writing one |
| `ReportSubmission.RetryIsDroppedIff` | internal/store/windows.go:115-124 | a post is stored if and only if its ID is new on that server, and is answered positively either way |
| `NASBackup.AtMostOneScheduledCopyPerDay` | internal/service/nas_backup.go:246-272 | from any stored row, over any interleaving of processes, manual copies, restarts and configuration changes: the scheduled claims, the remembered one included, are of strictly increasing days, and the last error is about the latest attempt |
| `NASBackup.ConfiguredDayIsCopied` | internal/service/nas_backup.go:246-272 | after any history, a process that died while copying included: once a time of day is configured, an undisturbed look at or after it, on a day later than the last scheduled claim, copies and records the outcome |
| `NASBackup.DueWindow` | internal/service/nas_backup.go:233-244 | on a day not used up an enabled row with a send time is due from that minute to the end of the day and not before; any other is not due |
| `NASBackup.OnlyTheLatestClaims` | internal/store/nas_backup.go:49-56 | the compare-and-swap succeeds only for a process that saw the latest attempt, and then its view of the schedule is current |
| `NASBackup.ClaimDecides` | internal/store/nas_backup.go:49-56 | a process of the scheduler claims only while the row is enabled, anybody only when the attempt it loaded is still the latest, and whoever fails leaves the row as it is |
| `NASBackup.StepKeepsInv` | internal/service/nas_backup.go:246-325 | every step of every process keeps that |
| `NASBackup.ManualKeepsTheSlot` | internal/service/nas_backup.go:274-309 | a manual claim never changes whether the scheduled copy is due |
| `NASBackup.FinishOnlyTheLatest` | internal/store/nas_backup.go:62-65 | a finish changes the row exactly when its attempt is the latest, and how |
| `NASBackup.Scheduler.RunNASBackup` | internal/service/nas_backup.go:246-272 | undisturbed: copies exactly when the lock is free and the row is due, so never before the send time; then the day is used up, the attempt is the latest and the outcome is on record |
| `NASBackup.Scheduler.ClaimNASBackup` | internal/store/nas_backup.go:49-56 | of all who saw the same last attempt one claims; a scheduled claim uses the day up, a manual or failed one changes nothing that is due |
| `NASBackup.Scheduler.FinishNASBackupResult` | internal/store/nas_backup.go:62-65 | only the latest attempt has its outcome recorded, and what is due and who can claim stays as it was |
| `TwoFactor.IssueKeepsSafe` | internal/session/challenge.go:35-53 | a new challenge keeps at most 10000 held, five checks and one completion per token |
| `TwoFactor.ChallengeRules` | internal/session/challenge.go:35-108 | the numbers: a challenge lives for 300 seconds, 10000 live ones leave no room, and five checks are allowed while it lives |
| `TwoFactor.SetPendingMeans` | internal/session/challenge.go:35-64 | the new challenge is alive exactly when there was room and the cookie was saved; the browser's previous one ends when there was room; no other is touched |
| `TwoFactor.AllowKeepsSafe` | internal/session/challenge.go:95-108 | an attempt keeps the bounds, whether it is allowed or ends the challenge |
| `TwoFactor.ConsumeKeepsSafe` | internal/session/challenge.go:86-93 | a completion keeps the bounds and cannot be repeated |
| `TwoFactor.Challenges.Issue` | internal/session/challenge.go:42-53 | expired challenges make room first; refused exactly when 10000 live ones are held |
| `TwoFactor.Challenges.SetPending` | internal/session/challenge.go:35-64 | the three critical sections of a new challenge, including taking it back when the cookie cannot be saved |
| `TwoFactor.Challenges.GetPending` | internal/session/challenge.go:78-84 | answers exactly a challenge that is alive |
| `TwoFactor.Challenges.AllowAttempt` | internal/session/challenge.go:95-108 | allowed exactly while alive with fewer than five checks; otherwise the challenge is gone |
| `TwoFactor.Challenges.Consume` | internal/session/challenge.go:86-93 | true exactly for a live challenge of this user and version, the first time, and it is gone either way |
| `TwoFactor.ClaimKeepsSound` | internal/store/user.go:131-141 | a claim keeps the accepted steps increasing and each within one of the current step at its check |
| `TwoFactor.UsedStepIsRefused` | internal/store/user.go:131-141 | a step accepted since the last reset is never claimable |
| `TwoFactor.ResetFreesUsedSteps` | internal/store/user.go:115-119 | after 2FA is disabled a recorded step is claimable again exactly when it is positive |
| `TwoFactor.Users.ClaimStep` | internal/store/user.go:131-141 | accepted exactly when later than the last; then later than every step accepted since the reset |
| `TwoFactor.Users.DisableTOTP` | internal/store/user.go:115-119 | resets the steps and raises the version |
| `TwoFactor.Users.EnableTOTP` | internal/store/user.go:101-113 | raises the version and keeps the last step |
| `TwoFactor.ValidateStep` | internal/totp/totp.go:49-67 | for a six-digit code and a readable secret: the earliest step s with 30(s-1) <= now < 30(s+2) that has this code, and false exactly when there is none; times before the epoch round as the source's division does |
| `TwoFactor.NearMeans` | internal/totp/totp.go:49-67 | within one of the current step means 30(s-1) <= now < 30(s+2) |
| `TwoFactor.AnswerableMeans` | internal/web/handlers/auth.go:144-172 | a challenge can be answered while it is unexpired with fewer than five checks and its user is active, has 2FA on and still has its version |
| `TwoFactor.UpdateDecides` | internal/store/user.go:101-113 | an update ends every challenge issued before; one issued since can be answered exactly when the user is left active with 2FA on |
| `TwoFactor.Login2FA` | internal/web/handlers/auth.go:144-203 | back to back, a session is granted exactly to an answerable challenge with a code whose step is still claimable; it costs the challenge and the step, and a refusal costs no step |
| `TwoFactorRuns.StepKeepsInv` | internal/web/handlers/auth.go:144-203 | every step of logins, sensitive actions, resets and restarts keeps the bounds, the step order and what each request in flight relies on |
| `TwoFactorRuns.RunIsSafe` | internal/web/middleware.go:122-147 | over any interleaving: at most 10000 challenges, five checks, one completion, increasing steps s with 30(s-1) <= t < 30(s+2) at their check; a granted session of the current version owns a step accepted since the last reset |
| `TwoFactorRuns.NoTwoLoginsShare` | internal/web/handlers/auth.go:173-195 | no two logins share a challenge, and no two of a user's current version share a step |
| `TwoFactorRuns.CodeUsedTwice` | internal/web/handlers/auth.go:173-195 | from any state with two requests trying a code of one user, a reset between their claims lets both be granted with one step, and both versions are old |
| `TwoFactorRuns.ReachesTrying` | internal/web/handlers/auth.go:144-172 | any request with a fresh challenge of an active user with 2FA gets as far as trying a code and leaves every other request and challenge as it was |
| `TwoFactorRuns.SensitiveSpends` | internal/web/middleware.go:122-147 | a sensitive action goes through exactly with a step around its time that is later than every accepted one, and spends it |
| `TaskGroups.NilMeansAllFinished` | internal/service/background.go:48-66 | when shutdown returned nil every unit ever tracked has finished, and in no continuation is another one tracked |
| `TaskGroups.NoAddDuringWait` | internal/service/background.go:23-32 | in every reachable state the counter is not negative and is never raised while somebody waits |
| `TaskGroups.WaitEndsIff` | internal/service/background.go:55-65 | a wait can end exactly when no unit is running |
| `TaskGroups.ShutdownReturnsNil` | internal/service/background.go:48-66 | after any history a call of shutdown returns nil when the units that then run end, in whatever order |
| `TaskGroups.RunKeepsInv` | internal/service/background.go:23-66 | any interleaving of trackers, finishing units and callers of shutdown keeps the counter equal to the running units, and once closed nothing is added |
| `TaskGroups.TaskGroup.Track` | internal/service/background.go:23-32 | tracked exactly while not closed |
| `TaskGroups.TaskGroup.Done` | internal/service/background.go:31-43 | ends one running unit |
| `TaskGroups.TaskGroup.Close` | internal/service/background.go:48-54 | closes and cancels, whoever calls first |
| `TaskGroups.TaskGroup.Poll` | internal/service/background.go:55-65 | returns nil only with no unit running, and an error only once the context ended |

## Left out

- The alert evaluators and their thresholds, maintenance filtering and suppression windows: an evaluation is any list of alerts, suppressed is any set of IDs.
- Failed database calls other than the modelled roll-backs; the discarded errors of the ban store are taken as successes.
- AlertTables.AlertStore.DeleteOldAlertHistory: says nothing of the Telegram sent lookup and the event info of resolved alerts, which change (RetentionSeenIff), and does not delete old rows of `alert_state_events` (alert_state.go:523); the event table is the ghost history here, which is complete by design.
- The order of lists, and the columns readers only display beyond facts and update time.
- Deletion of Telegram destinations, which removes their deliveries by the foreign key of migration 044; the same key makes deleting an alert state remove its deliveries, and that part is modelled.
- The email batch interval and the waiting time after SMTP failures: when a batch is due and a backoff is active are parameters of the email round.
- Dispatch.PushRound: runs without interference; what page syncs between its steps can do is PushMarkLands.
- Dispatch.EmailRound: runs without interference; where its mark lands is UnguardedMarkLands, and what a late one does is RunKeepsEmailIff.
- Dispatch.TelegramRound: runs without interference; where its mark lands is UnguardedMarkLands.
- Parsing of addresses and prefixes: `isTrusted` and `banKey` are arbitrary functions of the address, so the grouping of IPv6 addresses by /64 is not stated.
- A Banhammer without a store, and an expiry that happens to equal the permanent sentinel of year 9999.
- Durations, sizes, file matching, log texts and the aggregate fallback of `backupJobTasks`; its rows are the tasks they are made from, and decoding of the task list is taken as done.
- LastJob.SortByEnd: one admissible outcome of the unstable sort; OrderDoesNotMatterIff covers the others.
- Schedules.ParseDays: takes the parts of the list; splitting the text at commas and recognising day names are not modelled.
- Schedules.ParsePVEDays: takes the token as one of its kinds; trimming and lower case are not modelled.
- The other staleness entry points (`IsStaleForServer` by name, the 24-hour `IsStale`), which are lookups around the same decision.
- Staleness.LookBack: a day is 23 to 25 hours long and its start is an arbitrary increasing function of its number; other calendar changes of a time zone are not modelled.
- The report insertion of PVE and PBS, which has the shape of the Windows one.
- ReportSubmission.FileKeptUntilStored: the ID a client writes is any non-empty text; that two clients do not draw the same random ID is not modelled, and one client process runs at a time.
- NASBackup.AtMostOneScheduledCopyPerDay: attempt texts are assumed distinct; scheduled ones have a resolution of one second.
- TwoFactor.Login2FA: its calls run back to back; TwoFactorRuns says what holds when other requests come between them. Bans, notifications and cookies of the handler are not modelled.
- TwoFactorRuns.RunIsSafe: users are neither created nor deleted during a run, and the enrolment check that does not claim its step is not modelled.
- HMAC, truncation and formatting of codes: `generateCode` is any function from steps to texts; tokens are fresh by assumption.
- UpdateAPIKeyLastUsed, login audit rows and the remaining columns of users and keys.
- TaskGroups.TaskGroup.Poll: shutdown's blocking wait is looked at one instant at a time; that the running units end is not stated, only what follows when they do (ShutdownReturnsNil).
