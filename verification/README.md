# Verified models of the Sarbato / WeddingOS kernels

Dafny models of the deterministic logic inside the worker, the job package, the contracts package
and the calendar of a wedding-planning system, with proofs of what that logic guarantees.
`dafny verify dfyconfig.toml` checks everything.

| file | what it models |
|---|---|
| `Seating*.dfy` | the seating allocator: existing assignments, household groups, required and forbidden tables, tightest fit, score |
| `Campaign*.dfy` | one campaign and its recipients: fan-out, two-phase delivery, terminal failure, settlement, the organiser's requests, provider reports |
| `Csv*.dfy` | the CSV printer and the character-level parser |
| `Calendar.dfy`, `IsoWeek.dfy`, `Zone.dfy` | civil dates, the ISO week key, and the two-pass search for the instant of a wall-clock time |
| `Backup.dfy` | backup schedules claimed by many workers |
| `Commercial.dfy` | overflow-checked offer totals and the budget summary |
| `Planning*.dfy`, `Json*.dfy` | the rule-based plan, its enrichment and coverage, and the canonical serialisation behind the input hash |
| `Chunks.dfy`, `Html.dfy`, `Contrast.dfy` | document chunks, HTML escaping, and the readable text colour |
| `Retry.dfy` | error classification, retry delays, and the attempts of one consumer execution |
| `Ordering.dfy`, `Wrappers.dfy` | sorting, lists without repetitions, sums; optional values and results |

Code that updates variables or rows is modelled by methods with loops and by classes over the stored
fields, each proved against a specification function; the properties are then proved of the
specification. Expressions are functions. `SeatingOutcome`, `SeatingReport`, `CampaignActions`, `CsvExport`,
`PlanningContents` and `JsonText` say what comes out without using the definitions that compute it.

What the proofs brought to light, each stated below with its exact condition and a reachable case:

- A campaign can be left being sent to nobody, by a late failure or by a provider report on a recipient armed again
  (`CampaignReports.StallsExactly`, `StallHappens`, `StallByReportHappens`), and provider reports can break the rule
  that settlement keeps (`CampaignReports.WebhookCoherentExactly`, `PartialWithRecipientInFlight`). Of the first stall
  only a cancellation gets it out: the summary job that would settle it is requested nowhere
  (`CampaignReports.StallNeedsOrganiser`).
- The two-hour lease on a backup schedule never decides anything: `next_run_at` alone prevents two executions
  at once, for executions shorter than a day (`Backup.LeaseNeverDecides`, `Backup.NoOverlapExactly`).
- A backup whose worker dies stays RUNNING and blocks its period (`Backup.EndsExactly`, `Backup.CrashHappens`).
- The status written when an attempt ends is not guarded, so a finished execution can run again when attempts
  overlap (`Retry.ReopensExactly`, `Retry.CompletedExecutionRunsAgain`), and `max_attempts` bounds the failures that are
  reported, not the attempts (`Retry.RetriesBounded`, `Retry.AttemptsUnboundedExactly`); a transient SMTP reply is final and a
  permanent one is retried (`Retry.ReplyFollowedExactly`).
- The programme of the wedding day is due before the logistics it depends on
  (`PlanningTables.DependenciesDueFirstExactly`, `ProgrammeDueBeforeLogistics`), and enrichment may break the
  structure of a plan while keeping its coverage (`PlanningProperties.StructureBrokenExactly`,
  `EnrichmentMayRepeatKeys`, `EnrichmentMayStray`).
- The comment on the zone search promises correctness around daylight-saving transitions; with one change in the
  window it holds exactly outside the skipped hour (`Zone.TwoPassesFindIt`).
- A document may have 500 000 characters. One of up to 80 899 is kept whole; of a longer one only the first 80 100 are
  certain to reach a chunk, and nothing beyond 160 000 ever does (`Chunks.CapacityExact`, `Chunks.WorkerReach`,
  `Chunks.LongTextCut`).
- A locale comparison that calls two different keys equal makes the input hash depend on member order
  (`Json.OrderInsensitiveIffTotal`, `Json.TiedKeysDiffer`).

Assumptions that several models share: each database transaction is one atomic step; clocks of database and
workers agree; identifiers are distinct within their table. Campaign fan-out and the failure path take
different advisory locks, so atomicity is an assumption about the database there, not a consequence of locks.

## Model

| member | source | states |
|---|---|---|
| SeatingConstraints.ContradictoryConstraints | packages/jobs/src/operations.ts:63-91 | the conflict list is the sorted, repetition-free list of exactly the keys of constraints whose opposite is among the constraints |
| SeatingConstraints.KeyEqualsSubject | packages/jobs/src/operations.ts:315-326 | two keys are equal exactly when kind and subject agree: the same guests in either role, household and table |
| SeatingConstraints.ContradictionsExact | packages/jobs/src/operations.ts:66-90 | a constraint is reported as contradictory exactly when a constraint of the opposite kind has the same subject |
| SeatingConstraints.ClashesReported | packages/jobs/src/operations.ts:71-88 | a constraint is reported exactly when one of a kind that excludes its own (three pairs of kinds) has the same subject |
| SeatingAlgorithm.SeatExistingAssignments | packages/jobs/src/operations.ts:110-134 | the loop over existing assignments computes the specified plan and the order in which guests were seated |
| SeatingAlgorithm.GroupByHousehold | packages/jobs/src/operations.ts:136-147 | the groups are exactly the households of unseated guests, each listing each of its unseated members once |
| SeatingAlgorithm.OrderGroups | packages/jobs/src/operations.ts:149-152 | the queue takes the groups largest first, equal sizes by household id, each exactly once |
| SeatingAlgorithm.GroupKeysCompareAsHouseholds | packages/jobs/src/operations.ts:143-151 | prefixed group keys compare as the household ids do |
| SeatingAlgorithm.TightestTable | packages/jobs/src/operations.ts:154-204 | the head of the filtered and sorted candidates is the admissible table with the fewest remaining seats, least id among equals; a conflict or an empty list is answered exactly when several tables are required or none fits |
| SeatingAlgorithm.PlaceHousehold | packages/jobs/src/operations.ts:153-225 | one pass of the household loop is one step of the specified allocation |
| SeatingAlgorithm.PlaceHouseholds | packages/jobs/src/operations.ts:149-225 | the household loop computes the specified allocation |
| SeatingProperties.TightestFitExists | packages/jobs/src/operations.ts:171-204 | if some admissible table has room, a tightest one exists |
| SeatingProperties.TightestFitUnique | packages/jobs/src/operations.ts:195-203 | the tightest fit is unique, so the choice is deterministic |
| SeatingProperties.CapacityRespected | packages/jobs/src/operations.ts:120-133 | no table is over capacity in the result, and its counter equals the number of its assignments |
| SeatingProperties.FirstValidDecides | packages/jobs/src/operations.ts:110-134 | the first existing assignment of a guest that is valid when reached decides the guest's seat |
| SeatingProperties.SeatedByFirstValid | packages/jobs/src/operations.ts:110-134 | a guest seated before the households are placed sits where a first valid existing assignment puts them |
| SeatingProperties.ExistingKept | packages/jobs/src/operations.ts:116-133 | an honoured existing assignment is unchanged in the final result |
| SeatingProperties.HouseholdWhole | packages/jobs/src/operations.ts:153-225 | the unseated members of a household end at one admissible table or all without a seat, the latter only for contradictory required tables or because every admissible table is too full even in the final occupancy |
| SeatingProperties.AllocateSettles | packages/jobs/src/operations.ts:110-225 | the whole allocation keeps the counters consistent, extends the existing seats, seats nobody unknown and settles every household |
| SeatingOutcome.EveryHouseholdInTurn | packages/jobs/src/operations.ts:149-225 | every household, counting only the seats of existing assignments and of the households with more unseated guests (or as many and a smaller id), got as a whole the allowed table with the fewest seats left, least id among equals; or none, because no allowed table had room or its demands contradict each other |
| SeatingOutcome.AdmissibleIsAllowed | packages/jobs/src/operations.ts:154-194 | the filters let through exactly the tables that every demand names, no rule rejects, that are demanded if locked, and that have accessible seats enough for the group |
| SeatingOutcome.PlaceGroupTurns | packages/jobs/src/operations.ts:153-225 | one turn of the household loop, in capacities and people sitting at tables, with what each new assignment says |
| SeatingOutcome.HouseholdsReportedRightly | packages/jobs/src/operations.ts:166-208 | no household is reported that has a seat, or for the wrong one of the two reasons |
| SeatingOutcome.ExistingInTurn | packages/jobs/src/operations.ts:110-134 | each existing assignment in turn is honoured exactly if its table exists, its guest is unseated and a seat is free, and otherwise adds the one conflict that says why not |
| SeatingSuggestion.CollectViolations | packages/jobs/src/operations.ts:227-244 | the violation list holds exactly the texts of violated optional preferences, one entry for each violated constraint |
| SeatingSuggestion.BuildSuggestion | packages/jobs/src/operations.ts:93-277 | the suggestion presents exactly the specified allocation: sorted assignments, unassigned guests, conflicts, warnings, utilisation and score |
| SeatingSuggestion.EveryGuestAccountedFor | packages/jobs/src/operations.ts:246-266 | every guest has one assignment or is listed as unassigned, never both |
| SeatingReport.SuggestedInTurn | packages/jobs/src/operations.ts:93-277 | the suggestion lists exactly the seats of an allocation in which every household got what its turn left it |
| SeatingReport.UtilizationExact | packages/jobs/src/operations.ts:250-258 | each utilisation row names its table and its capacity and counts the assignments to it |
| SeatingReport.PreferencesExact | packages/jobs/src/operations.ts:227-244 | the reported preferences are exactly the optional wishes of two named guests that the listed assignments do not meet |
| SeatingReport.ScoreExact | packages/jobs/src/operations.ts:259-274 | the score is 100 less 30 for each conflict, 10 for each unassigned guest and 2 for each unmet preference, never below zero |
| SeatingSuggestion.UtilizationAccountsForAssignments | packages/jobs/src/operations.ts:250-266 | the reported occupancy is within each capacity and sums to the number of assignments |
| SeatingSuggestion.UnassignedHasReason | packages/jobs/src/operations.ts:165-208 | an unassigned guest belongs to a household left out as a whole for one of two reported reasons, and for want of room only if the final utilisation shows every admissible table too full |
| SeatingSuggestion.OrderDoesNotMatter | packages/jobs/src/operations.ts:93-277 | permuting guests, tables and constraints changes nothing but the order of the utilisation rows |
| Campaign.Store.FinalizeIfSettled | apps/worker/src/main.ts:3948-3998 | settles a campaign being sent whose recipients are all out of flight, as the specification says |
| Campaign.Store.ProcessFanout | apps/worker/src/main.ts:3361-3440 | the fan-out loop queues every pending recipient once and records one delivery request for each, at the new row version |
| Campaign.Store.ProcessDelivery | apps/worker/src/main.ts:3578-3790 | the second delivery transaction sends, cancels or rolls back as specified, and throws exactly when it cannot deliver |
| Campaign.Store.FailConsumer | apps/worker/src/main.ts:8410-8479 | a terminal failure of a recipient in flight marks it failed and settles the campaign if it was the last |
| CampaignProperties.RunCoherent | apps/worker/src/main.ts:3956-3970 | over every interleaving, a completed or partial campaign has nobody in flight and is partial exactly when somebody failed |
| CampaignProperties.RunSentOnce | apps/worker/src/main.ts:3625-3749 | over every run each recipient is sent at most one message, exactly one when its row says SENT |
| CampaignProperties.SettledAtOnce | apps/worker/src/main.ts:3948-3998 | the worker step that takes the last recipient out of flight settles the campaign in the same transaction, with one event when the job has an actor |
| CampaignProperties.WorkerUsesMoves | apps/worker/src/main.ts:3408-3431 | 2 for each pending and 1 for each queued recipient: worker steps never raise the sum and lower it whenever they change a row |
| CampaignProperties.BoundedMoves | apps/worker/src/main.ts:3361-3790 | worker steps change rows at most that many times between two requests of the organiser |
| CampaignProperties.RunSettles | apps/worker/src/main.ts:3948-3998 | over every worker run from a campaign being sent, it is over exactly when nobody is in flight, with exactly one settlement event when the jobs have actors |
| CampaignProperties.OverIsFinal | apps/worker/src/main.ts:3963-3971 | worker steps leave a settled campaign alone |
| CampaignProperties.DoneStaysThrough | apps/worker/src/main.ts:3460-3471 | over every run of worker and organiser steps a row that is sent, reported on, unsubscribed or cancelled never changes and no row is removed |
| CampaignProperties.JobOutcome | apps/worker/src/main.ts:3442-3790 | whatever steps run between the transactions of a job, also between a delivery that threw and the record of its failure, it leaves its recipient out of flight: one that its last transaction finds in flight becomes SENT, CANCELLED or FAILED by stated conditions, and every other row stays as that transaction found it |
| CampaignProperties.RunAnswered | apps/api/src/guests/invitation-campaign.service.ts:1671-1809 | over every run there are at most as many settlements as send requests |
| CampaignProperties.RunFresh | apps/worker/src/main.ts:3422-3430 | no two delivery requests and no two settlements of a run share a deduplication key |
| CampaignActions.SettledWithFailures | apps/worker/src/main.ts:3956-3997 | a campaign being sent with nobody in flight is settled, with the number of failed recipients in its event |
| CampaignActions.FanoutAsksOnce | apps/worker/src/main.ts:3400-3431 | an accepted fan-out queues every pending recipient, asks for its delivery exactly once at the new version of its row, and for no other |
| CampaignActions.HistoryKeepsAsked | apps/worker/src/main.ts:3408-3431 | over every history no row is queued whose delivery has not been asked for at its version |
| CampaignActions.DeliverySendsExactly | apps/worker/src/main.ts:3625-3711 | a delivery sends one mail, to its recipient, exactly under the stated conditions, and never one to anybody else |
| CampaignActions.PreparedExactly | apps/worker/src/main.ts:3460-3488 | which recipients the first transaction skips and for which it is ready |
| CampaignActions.RequestExactly | apps/api/src/guests/invitation-campaign.service.ts:1671-1789 | when a request to send is accepted and what it does to every row: new ones pending, chosen failed ones armed again, all others unchanged |
| CampaignActions.RetryExactly | apps/api/src/guests/invitation-campaign.service.ts:1680-1700 | a retry arms every failed recipient again, exactly if there is one and nobody is in flight |
| CampaignActions.CancelExactly | apps/api/src/guests/invitation-campaign.service.ts:1810-1819 | cancelling takes everybody out of flight and changes no other row |
| CampaignActions.ArchiveExactly | apps/api/src/guests/invitation-campaign.service.ts:3398-3414 | which campaigns can be archived |
| CampaignActions.ClosedSendsNothing | apps/worker/src/main.ts:3625-3638 | over every history a cancelled or archived campaign stays so and sends no mail |
| CampaignActions.ReportExactly | packages/database/prisma/migrations/20260718211500_slice_3_webhook_campaign_reconciliation/migration.sql:51-75 | what a provider report does to its row, to the campaign and to nothing else |
| CampaignReports.StallsExactly | apps/worker/src/main.ts:3361-3440 | with provider reports among the steps, a campaign comes to be sent to nobody exactly when a scheduled one with nobody in flight is fanned out, or when the last recipient in flight of a campaign being sent is reported as delivered or opened for an earlier message |
| CampaignReports.StallEndsExactly | apps/worker/src/main.ts:3948-3971 | such a stall ends exactly by the settling transaction of a delivery that has skipped a recipient as done, by the summary job, by a cancellation, or by a failure reported for an accepted message |
| CampaignReports.OnceDoneExactly | apps/worker/src/main.ts:3460-3471 | the recipients that a delivery can have skipped are exactly those done now or with an accepted message: those that were done at some time of the history |
| CampaignReports.JobEndsStallExactly | apps/worker/src/main.ts:3564-3577 | an uninterrupted delivery job settles a stalled campaign exactly when its recipient is done |
| CampaignReports.StallHappens | apps/api/src/guests/invitation-campaign.service.ts:1714-1746 | a history of six steps that ends in a stall by fan-out |
| CampaignReports.StallNeedsOrganiser | apps/worker/src/main.ts:3948-3971 | no delivery, failure or report ends the stall of that history, only a cancellation or the summary job |
| CampaignReports.StallByReportHappens | apps/api/src/guests/invitation-campaign.service.ts:1691-1699 | a history in which a row armed again is reported as opened for its first message: the campaign is queued for nobody, and after the next fan-out SENDING to nobody, until a repeated delivery skips the recipient |
| CampaignReports.SummaryEndsStall | apps/worker/src/main.ts:3891-3900 | the summary job, which nothing in the repository requests, settles a stalled campaign |
| CampaignReports.WebhookCoherentExactly | packages/database/prisma/migrations/20260718211500_slice_3_webhook_campaign_reconciliation/migration.sql:52-75 | a provider report keeps the settlement rule exactly under a condition on the row, the campaign status and the counts |
| CampaignReports.HistoryCoherent | packages/database/prisma/migrations/20260718211500_slice_3_webhook_campaign_reconciliation/migration.sql:52-75 | over every history whose reports all meet that condition the settlement rule holds |
| CampaignReports.PartialWithoutFailure | packages/database/prisma/migrations/20260718211500_slice_3_webhook_campaign_reconciliation/migration.sql:68-75 | a history that ends with a partial campaign in which nobody failed |
| CampaignReports.PartialWithRecipientInFlight | packages/database/prisma/migrations/20260718211500_slice_3_webhook_campaign_reconciliation/migration.sql:68-75 | a history that ends with a partial campaign and a recipient in flight, whose delivery then fails |
| CampaignReports.HistoryFreshAndAnswered | packages/database/prisma/migrations/20260718211500_slice_3_webhook_campaign_reconciliation/migration.sql:52-75 | deduplication keys stay unique and settlements within the send requests with provider reports in any order |
| CampaignReports.JobAmongReports | apps/worker/src/main.ts:3564-3577 | with provider reports in either gap, a job leaves its recipient in flight exactly when it had found it done and the recipient was armed again before the next transaction |
| CampaignReports.JobSkipsRearmed | apps/worker/src/main.ts:3564-3577 | a history in which that happens |
| CampaignReports.HistoryResends | packages/database/prisma/migrations/20260718211500_slice_3_webhook_campaign_reconciliation/migration.sql:52-66 | with provider reports in any order, a recipient gets at most one message more than failures were reported for it |
| Csv.ParseCsvRecords | apps/worker/src/main.ts:5165-5201 | the indexed loop computes the recursive record grammar and fails exactly on an odd number of quotes |
| Csv.OpenIffOddQuotes | apps/worker/src/main.ts:5195-5199 | a quote is left open exactly when the text has an odd number of quotes |
| Csv.ImportUndoesExport | apps/worker/src/main.ts:5165-5201 | reading a printed table gives its non-blank records cell for cell, up to the formula prefix and a final carriage return of a record |
| Csv.ImportUndoesManagedExport | apps/worker/src/main.ts:5045-5055 | the same for the header and rows of a managed artifact |
| Csv.ImportExact | apps/worker/src/main.ts:5185-5193 | nothing but the prefix is changed exactly when no record ends in a carriage return |
| Csv.FormulaPrefixAmbiguity | apps/worker/src/main.ts:8584-8587 | two cells print alike exactly when they are equal or one is the other's formula-safe form |
| CsvExport.ExportReadsByHeader | apps/worker/src/main.ts:5045-5055 | importing a managed export gives the headers and, for every row, under each header the formula-safe value that the row has there, or nothing |
| CsvExport.FormulaSafeExactly | apps/worker/src/main.ts:8584-8587 | exactly the values that start with one of four characters are prefixed, and no printed value starts with one |
| CsvExport.ImportedHaveText | apps/worker/src/main.ts:5186-5193 | no blank record is returned |
| CsvExport.PlainTextReadsBack | apps/worker/src/main.ts:5180-5194 | text without quotes is read cell by cell and line by line, for LF and for CR LF line ends |
| Calendar.CivilUnique | apps/worker/src/main.ts:9186-9190 | a real date is recovered from its day number |
| Calendar.YearUnique | apps/worker/src/main.ts:9191-9191 | a day lies in one year only |
| Calendar.KnownDates | apps/worker/src/main.ts:9186-9191 | the day numbers of the months of a common year and of some other dates |
| Calendar.KnownYears | apps/worker/src/main.ts:9191-9191 | leap and common years around four centuries |
| IsoWeek.IsoWeekKey | apps/worker/src/main.ts:9185-9196 | the date-shifting computation gives the key of the week that the day's Thursday lies in |
| IsoWeek.WeekRange | apps/worker/src/main.ts:9192-9195 | week numbers are 1 to 53 |
| IsoWeek.SamePeriodIffSameWeek | apps/worker/src/main.ts:9185-9196 | two days have the same key text exactly when they lie in the same Monday-to-Sunday week |
| IsoWeek.WeeksGrow | apps/worker/src/main.ts:9185-9196 | of two days in different weeks, the later has the later year and week number |
| IsoWeek.KeysGrow | apps/worker/src/main.ts:9195-9195 | in years of four digits the key texts of days in different weeks compare as the days do |
| IsoWeek.NextWeek | apps/worker/src/main.ts:9185-9196 | seven days later it is the next week of the year, or week 1 of the next year after week 52 or 53 |
| IsoWeek.FirstWeekHasFourthOfJanuary | apps/worker/src/main.ts:9191-9195 | week 1 is the week of the fourth of January (section 4.1.4 of ISO 8601:2004) |
| IsoWeek.KeyTextInjective | apps/worker/src/main.ts:9195-9195 | the text names one week |
| IsoWeek.KeyShape | apps/worker/src/main.ts:9195-9195 | the key of a four-digit year is its digits, a hyphen, a W and the week in two digits |
| Zone.ZonedDateTimeToInstant | src/lib/calendar-model.ts:43-68 | the two-pass loop over broken-down times computes D - off(D - off(D)) |
| Zone.PartsRoundTrip | src/lib/calendar-model.ts:55-64 | reading the clock and counting the parts back loses nothing |
| Zone.MissingExactlyInGap | src/lib/calendar-model.ts:50-67 | with one offset change in the window, a wall-clock time is missing exactly when it lies in the skipped gap |
| Zone.TwoPassesFindIt | src/lib/calendar-model.ts:50-67 | with one offset change in the window, the result shows the requested time exactly when some instant does |
| Zone.GapMissedByTheJump | src/lib/calendar-model.ts:50-67 | in the gap the result is off by exactly the jump, early or late by a stated condition |
| Zone.RepeatedTimeResolved | src/lib/calendar-model.ts:50-67 | of the two instants that show a repeated time, which one is returned |
| Zone.OnePassFindsItExactly | src/lib/calendar-model.ts:50-67 | one pass finds the time exactly when the change does not fall between the two instants it looks at |
| Zone.OnePassIsNotEnough | src/lib/calendar-model.ts:50-54 | a real time that one pass misses |
| Zone.TwoChangesDefeatIt | src/lib/calendar-model.ts:50-67 | with two changes in the window two passes can miss a time that is shown |
| Zone.FieldsRoundTrip | src/lib/calendar-model.ts:25-31 | for offsets of any number of seconds the date and time fields come back from the instant exactly when the time is not in the gap, or is late by a jump of less than a minute |
| Zone.InstantRoundTrip | src/lib/calendar-model.ts:25-68 | an instant comes back from its own shown time exactly unless the other instant that shows it is preferred |
| Backup.Store.ScheduleDueBackup | apps/worker/src/main.ts:8977-9039 | the claiming transaction moves the schedule on and creates a run unless its key exists |
| Backup.Store.Report | apps/worker/src/main.ts:9124-9170 | the closing transaction ends the run and drops the lease |
| Backup.RunsKeepInvariant | apps/worker/src/main.ts:8977-9177 | over every run of claims, reports, crashes, pauses and requests the schedule has moved on past every run it claimed |
| Backup.OneRunAPeriod | apps/worker/src/main.ts:8999-9037 | any two runs of one schedule start a whole interval apart and in different periods |
| Backup.KeysStayUnique | apps/worker/src/main.ts:9002-9037 | no two runs share an idempotency key |
| Backup.DueClaimCreatesExactly | apps/worker/src/main.ts:9002-9038 | a due claim creates a run exactly when no API request took its key |
| Backup.LeaseNeverDecides | apps/worker/src/main.ts:8981-8990 | a due schedule always has a free lease: next_run_at outlasts the lease, which therefore never decides |
| Backup.NoOverlapExactly | apps/worker/src/main.ts:9011-9020 | no two executions of a schedule overlap in any run exactly when every execution ends in less than a day |
| Backup.TimeLimitPreventsOverlap | apps/worker/src/main.ts:9043-9048 | in particular under the 90-minute limit of executions |
| Backup.CrashedRunIsNeverReplaced | apps/worker/src/main.ts:9002-9037 | a run whose worker died stays RUNNING, and no run with its key ever ends |
| Backup.EndsExactly | apps/worker/src/main.ts:9124-9170 | a claimed run that is RUNNING can still end, by whatever steps follow, exactly when a worker executes it |
| Backup.CrashHappens | apps/worker/src/main.ts:9022-9040 | a daily schedule is claimed and its worker dies: the run is reachable, RUNNING, and never ends |
| Backup.PeriodsDiffer | apps/worker/src/main.ts:8999-9001 | times a whole interval apart lie in different dates or ISO weeks |
| Backup.SamePeriodExactly | apps/worker/src/main.ts:8999-9001 | two times have one period exactly when they lie on one UTC date, or for a weekly schedule in one ISO week |
| Backup.ClaimExactly | apps/worker/src/main.ts:8981-9039 | when a claim takes effect, and that it leases for two hours and moves the schedule on by one or seven days |
| Backup.FinishExactly | apps/worker/src/main.ts:9124-9170 | a report ends its run as COMPLETED or FAILED, frees the schedule and changes nothing else |
| Backup.SetEnabledExactly | apps/api/src/platform/platform.service.ts:1575-1588 | pausing and resuming set the switch and free the schedule |
| Backup.PausedClaimsNothing | apps/worker/src/main.ts:8984-8985 | while paused a schedule claims no run, whatever else happens |
| Commercial.SubtotalExact | packages/contracts/src/commercial.ts:490-497 | the checked fold over lines overflows exactly when the unbounded subtotal does not fit, in any order |
| Commercial.OfferTotalsExact | packages/contracts/src/commercial.ts:485-509 | an offer succeeds exactly when three exact values fit; then subtotal = discount + base, the tax is nearest to the exact tax with halves up, and total = base + tax |
| Commercial.LineAdds | packages/contracts/src/commercial.ts:490-496 | an optional line that is not selected adds nothing, any other quantity times unit price |
| Commercial.DiscountCapped | packages/contracts/src/commercial.ts:497-497 | the discount is what was asked for, or the subtotal if that is less |
| Commercial.OfferOrderDoesNotMatter | packages/contracts/src/commercial.ts:490-497 | neither success nor any total depends on the order of the lines |
| Commercial.NegativePricesBreakOrder | packages/contracts/src/commercial.ts:29-29 | why prices must not be negative: with one, the order decides whether the fold overflows |
| Commercial.LastCheckOnlyAtOneBasisPoint | packages/contracts/src/commercial.ts:499-507 | the check on the total can fail alone only at a rate of one basis point |
| Commercial.LastCheckFailsAlone | packages/contracts/src/commercial.ts:507-507 | an offer on which it does |
| Commercial.BudgetExact | packages/contracts/src/commercial.ts:511-559 | the summary overflows exactly when one of five one-pass sums does; otherwise every amount is that sum, the forecast taking what is committed, or else the estimate, of each live item |
| Commercial.BudgetBalances | packages/contracts/src/commercial.ts:536-558 | remaining + committed = target, outstanding is what is committed beyond payments, the forecast lies between committed and committed + estimated, and both flags are exact |
| Commercial.ItemAdds | packages/contracts/src/commercial.ts:523-545 | a deleted or cancelled item changes no amount; any other adds each of its amounts to its own sum, and to the forecast what is committed or else the estimate |
| Commercial.CategoryAdds | packages/contracts/src/commercial.ts:522-529 | a deleted category adds nothing, any other its allocation |
| Commercial.EmptyBudget | packages/contracts/src/commercial.ts:511-559 | the summary of an empty budget |
| Commercial.BudgetOrderDoesNotMatter | packages/contracts/src/commercial.ts:511-559 | the summary does not depend on the order of categories or items |
| Commercial.CheckedSumExact | packages/contracts/src/commercial.ts:561-568 | a checked sum of non-negative amounts is exact or overflows, exactly by the unbounded sum |
| Planning.AddTasks | packages/jobs/src/planning.ts:470-520 | the inner loop adds the relevant tasks of a phase in template order with consecutive positions |
| Planning.AddPhases | packages/jobs/src/planning.ts:423-521 | the nested loops produce the specified outline, each item rendered at its position |
| Planning.GeneratePlan | packages/jobs/src/planning.ts:407-546 | the provider returns the specified plan with its coverage and warnings |
| Planning.MissingExactly | packages/jobs/src/planning.ts:591-610 | a category is missing exactly when it is required and no included item has it |
| PlanningProperties.KeysUnique | packages/jobs/src/planning.ts:423-520 | no two items share a key |
| PlanningProperties.PositionsConsecutive | packages/jobs/src/planning.ts:421-510 | positions count up from zero |
| PlanningProperties.ParentsPrecede | packages/jobs/src/planning.ts:423-520 | the parent of every item is a phase that comes before it |
| PlanningProperties.DependenciesPrecede | packages/jobs/src/planning.ts:515-517 | every dependency is the key of an item that comes before |
| PlanningProperties.NoDependencyCycle | packages/jobs/src/planning.ts:726-735 | no chain of dependencies returns to where it started |
| PlanningProperties.NothingMissing | packages/jobs/src/planning.ts:523-527 | for every input the generated plan covers every relevant category |
| PlanningContents.ItemsDated | packages/jobs/src/planning.ts:636-645 | an item has an absolute date exactly when the event date is exact and not flexible and it has a relative one, and lies that many days from the event |
| PlanningContents.TaskPresentExactly | packages/jobs/src/planning.ts:666-674 | a listed category has its task exactly when the answer about it does not decline it |
| PlanningContents.PhasesPresent | packages/jobs/src/planning.ts:423-468 | every phase has its item, and its milestone unless it lies after the event |
| PlanningContents.TasksDescribed | packages/jobs/src/planning.ts:470-520 | what a task says: parent, category, offsets, priority raised one step if preferred, progress, dependencies |
| PlanningContents.MilestonesDescribed | packages/jobs/src/planning.ts:424-468 | what phases and milestones say |
| PlanningProperties.EnrichedNothingMissing | packages/jobs/src/planning.ts:558-588 | for every enrichment or failure of it no relevant category is missing, and the coverage shown is that of the items |
| PlanningProperties.EnrichmentTakenExactly | packages/jobs/src/planning.ts:562-588 | the enrichment is taken exactly when its items cover what is required; else the baseline items come back marked as fallback |
| PlanningContents.EnrichedFields | packages/jobs/src/planning.ts:564-586 | warnings and provider of an accepted enrichment replace those of the plan; a fallback adds one warning |
| PlanningProperties.EnrichmentMayRepeatKeys | packages/jobs/src/planning.ts:564-576 | only coverage survives: an accepted enrichment may repeat keys |
| PlanningProperties.PlanStructured | packages/jobs/src/planning.ts:423-520 | a generated plan repeats no key, has every parent and dependency earlier, and counts its positions up |
| PlanningProperties.StructureBrokenExactly | packages/jobs/src/planning.ts:562-576 | for every enrichment, the plan repeats a key, has a parent or dependency that is not earlier, or miscounts positions exactly when items of the enrichment that cover what is required do |
| PlanningProperties.EnrichmentMayStray | packages/jobs/src/planning.ts:564-576 | a covering enrichment that leaves a parent and a dependency unresolved |
| PlanningTables.StandardRulesWellFormed | packages/jobs/src/planning.ts:104-380 | the provider's own tables meet the condition under which the above is proved |
| PlanningTables.DependenciesDueFirstExactly | packages/jobs/src/planning.ts:726-735 | a task is due no earlier than its dependencies, exactly except the programme of the day, which is due a week before the logistics it depends on |
| PlanningTables.ProgrammeDueBeforeLogistics | packages/jobs/src/planning.ts:341-358 | every generated plan contains that exception: the programme due 21 days before, the logistics 14 days before |
| Json.SameTextIffSame | packages/jobs/src/planning.ts:616-625 | for a total order on keys, two values have the same canonical text exactly when they are equal up to member order at every depth |
| Json.ReadsBack | packages/jobs/src/planning.ts:616-625 | equal texts that continue differently still come from equal values, so texts are prefix-free up to numbers |
| Json.OrderInsensitiveIffTotal | packages/jobs/src/planning.ts:618-623 | the text is independent of member order exactly when the comparison of keys is total |
| Json.TiedKeysDiffer | packages/jobs/src/planning.ts:620-620 | two keys that the comparison calls equal let their order through |
| JsonText.ObjectTextAscends | packages/jobs/src/planning.ts:618-623 | an object in any order is printed with its keys in ascending order |
| JsonText.MemberTextAt | packages/jobs/src/planning.ts:621-621 | each member is its quoted key, a colon and the text of its value |
| JsonText.ArrayTexts | packages/jobs/src/planning.ts:617-617 | items in order, between commas, in brackets |
| JsonText.LiteralTexts | packages/jobs/src/planning.ts:624-624 | literals and numbers (sections 3 and 6 of RFC 8259) |
| JsonText.EscapesDecode | packages/jobs/src/planning.ts:621-624 | what is written between quotes decodes to the string (section 7 of RFC 8259) |
| JsonText.NoRawControls | packages/jobs/src/planning.ts:621-624 | no control character is written as it is |
| Chunks.CutAndTrim | apps/worker/src/main.ts:1965-1975 | the cutting loop terminates and computes the specified slices, trimmed |
| Chunks.ChunkDocumentText | apps/worker/src/main.ts:1963-1977 | the chunks are the trimmed slices that are not empty |
| Chunks.SlicesContiguous | apps/worker/src/main.ts:1967-1975 | the slices lie back to back from the start of the text |
| Chunks.SlicesSized | apps/worker/src/main.ts:1967-1968 | at most `maximum` slices of at most `size` characters |
| Chunks.SliceLong | apps/worker/src/main.ts:1969-1972 | every slice but the last is longer than half of `size` |
| Chunks.SlicesCutRight | apps/worker/src/main.ts:1967-1974 | every slice starts where those before it end, and ends at the last newline of its second half, at its full size if there is none, or with the text |
| Chunks.SlicesGoOn | apps/worker/src/main.ts:1967-1967 | slices are taken until the text or their number is used up |
| Chunks.ChunkIsTrimmedSlice | apps/worker/src/main.ts:1973-1976 | the chunks are what trimming leaves of the slices with something visible |
| Chunks.ChunksCounted | apps/worker/src/main.ts:1967-1967 | there are at most `maximum` chunks |
| Chunks.ChunksSized | apps/worker/src/main.ts:1973-1976 | every chunk is a trimmed, non-empty text of at most `size` characters |
| Chunks.NothingLostExactly | apps/worker/src/main.ts:1967-1976 | the visible characters are all kept, in order, exactly when only white space lies beyond the last slice |
| Chunks.CapacityExact | apps/worker/src/main.ts:1963-1977 | every normalised, trimmed document of a length keeps all visible characters exactly when the length is at most (maximum - 1) * (size / 2 + 1) + size |
| Chunks.ReachesAtLeast | apps/worker/src/main.ts:1967-1975 | a text that is not cut to its end is cut at least as far as maximum * (size / 2 + 1) |
| Chunks.AlwaysReachedExactly | apps/worker/src/main.ts:1967-1975 | in such documents longer than can be kept whole, a position is certain to be reached exactly below maximum * (size / 2 + 1) |
| Chunks.LongTextCut | apps/worker/src/main.ts:1967-1967 | a visible character at or beyond maximum * size is always lost |
| Chunks.WorkerCapacity | apps/worker/src/main.ts:1903-1909 | with chunks of 1600 and at most 100 of them, every document of 80899 characters is kept and some document of 80900 is not |
| Chunks.WorkerReach | apps/worker/src/main.ts:1903-1909 | with the worker's sizes, exactly the first 80100 characters of a longer document are certain to be reached |
| Html.SequenceIsSimultaneous | apps/worker/src/campaign-invitation-email.ts:231-238 | the five replacements in sequence equal one replacement of each character |
| Html.EscapesAgree | apps/worker/src/main.ts:8799-8807 | both escapers are undone by decoding and never merge two texts |
| Html.EscapeHtmlInert | apps/worker/src/campaign-invitation-email.ts:231-238 | the escaped text has no markup character, and every ampersand starts a character reference |
| Contrast.GuaranteeExact | apps/worker/src/campaign-invitation-email.ts:203-216 | the chosen colour has a contrast of at least t on every background exactly when the candidates contrast by at least t * t (contrast ratio of WCAG 2.1 section 6) |
| Contrast.ChosenSquared | apps/worker/src/campaign-invitation-email.ts:203-216 | on every background the square of the chosen contrast is at least the contrast of the candidates |
| Contrast.FirstWinsTies | apps/worker/src/campaign-invitation-email.ts:203-208 | the second candidate is taken only if it contrasts strictly better |
| Contrast.ReachesExactly | apps/worker/src/campaign-invitation-email.ts:210-216 | a contrast ratio is reached exactly when one luminance is that many times above the other |
| Retry.DelayBounded | packages/jobs/src/index.ts:1054-1059 | every delay is between one second and 144 seconds and less than 1.2 times its base |
| Retry.DelaysGrow | packages/jobs/src/index.ts:1054-1059 | a later attempt waits longer whatever the seeds, until the eighth |
| Retry.TransientReplyRetriedExactly | packages/jobs/src/index.ts:1094-1101 | a failure with a 4yz reply asks for a retry exactly when attempts are left and the error has a connection code |
| Retry.PermanentReplyFinalExactly | packages/jobs/src/index.ts:1094-1101 | a failure with a 5yz reply is final exactly when the attempts are used up |
| Retry.ReplyFollowedExactly | packages/jobs/src/index.ts:1094-1101 | the classification does what section 4.2.1 of RFC 5321 calls for exactly on the last attempt, or for a transient reply with a connection code |
| Retry.RetryableExactly | packages/jobs/src/index.ts:1083-1102 | which errors may be retried |
| Retry.FailExactly | apps/worker/src/main.ts:8520-8540 | a failure below the limit waits for its delay, between the stated base and a fifth more; any other is a dead letter at once |
| Retry.FailEnqueueExactly | packages/database/prisma/migrations/20260718155000_slice_2a_consumer_hardening/migration.sql:453-459 | only the dispatcher that holds the lock records that its job was not enqueued |
| Retry.ExecutionRow.BeginConsumer | packages/database/prisma/migrations/20260719224500_fix_worker_aggregate_id_contract/migration.sql:34-46 | begin raises the attempt number by one and refuses finished executions |
| Retry.ExecutionRow.CompleteConsumer | apps/worker/src/main.ts:8342-8354 | completing writes COMPLETED and drops the lock, whatever the row says by then |
| Retry.ExecutionRow.FailConsumer | apps/worker/src/main.ts:8362-8546 | a failure writes DEAD_LETTER or FAILED with the next delay, whatever the row says by then |
| Retry.RetriesBounded | apps/worker/src/main.ts:8366-8368 | however attempts overlap or get lost, fewer failures than max_attempts ask for a retry |
| Retry.OrderlyAttemptsBounded | apps/worker/src/main.ts:8362-8546 | one attempt at a time, none lost: at most max_attempts attempts, and a finished execution never changes |
| Retry.LostAttemptsUnbounded | packages/database/prisma/migrations/20260718155000_slice_2a_consumer_hardening/migration.sql:356-372 | attempts that get lost are not bounded by max_attempts |
| Retry.AttemptsUnboundedExactly | apps/worker/src/main.ts:8366-8368 | the attempt number can still pass every bound exactly while the execution is unfinished or can be reopened |
| Retry.ReopensExactly | apps/worker/src/main.ts:8520-8540 | a finished execution can be reopened exactly when an attempt below the limit is still open |
| Retry.CompletedExecutionRunsAgain | apps/worker/src/main.ts:8520-8540 | a run of two overlapping attempts after which a completed execution is begun a third time |

## Left out

- Seating: the `percent` field of the utilisation, a double rounded after two floating-point operations.
- Seating: KEEP_TOGETHER and KEEP_APART are modelled as the code has them, checked for contradiction only; accessible seats are counted for one group at a time, as in the code.
- Seating: `localeCompare` on ids is taken as code-unit order, which it is for lower-case UUIDs; guest and table ids are distinct, as primary keys.
- SeatingConstraints.KeyEqualsSubject: assumes ids without a colon, as UUIDs are; an id with a colon can make two keys collide.
- Campaign: advisory locks, the lookup of addresses and tokens, delivery-attempt rows and activity texts; the send is one event inside a transaction, so a message accepted just before its transaction rolls back is outside the model.
- Campaign: the bookkeeping of worker executions is unconstrained, every delivery and failure may come at any time and any number of times; RSVP answers appear as what a delivery finds.
- CampaignProperties.JobOutcome: describes the last attempt of a job among steps of the worker and the organiser; a retryable failure leaves the recipient in flight and is a step without effect, and CampaignReports.JobAmongReports says what provider reports change.
- Csv: strings are sequences of Unicode characters, lone surrogates and the byte order mark are not modelled; conversion of numbers and booleans to text happens before.
- IsoWeek.IsoWeekKey: years 0 to 99, which `Date.UTC` moves to the twentieth century, are counted as written.
- Zone: time zones are arbitrary offset functions with second precision; parsing of input strings, years before 100 and instants that a Date cannot hold are left out.
- Zone.OnePassIsNotEnough: shows one zone and one time; the exact condition is in OnePassFindsItExactly.
- Backup: which of several due schedules a query picks, the platform actor, artifacts and verification rows, retention; an API request may create a run under any key.
- Backup: daily keys are dates, not their text; the cron expression is not used by the code either.
- Commercial: amounts are whole numbers, as the input schemas demand; the safe-integer checks keep doubles exact, and the quotient by 10000 is below 2^40, where rounding a double cannot cross a half.
- Planning: titles, descriptions, owners, effort, assumptions and labels; whether a task is done or preferred is a given predicate of its category instead of text matching; an unparsable exact date, on which the code throws, is left out.
- Planning: of the fields an enrichment may replace, warnings, items and provider are modelled.
- Planning: an enrichment that changes the baseline object it is handed, in place, instead of answering with fields of its own.
- Json: numbers are given by their text, strings by their characters; `undefined`, cyclic values and objects with `toJSON` are left out.
- Chunks: a document cut off at 500 000 characters may end in white space, which the documents of the model do not; characters are Unicode characters, so a slice that splits a surrogate pair is not seen.
- Contrast: luminances are arbitrary reals from 0 to 1; the power curve that computes them from colours is left out.
- Retry: lock staleness and due times do not restrict claims, so the model has more runs than the database; outbox and background-job rows, which are derived from the executions, are left out.
- Retry: the job and outbox transition tables of packages/jobs/src/index.ts, which the worker does not consult.
- Retry.LostAttemptsUnbounded: constructs runs in which every worker dies; how likely that is is not modelled.
- Campaign: the summary job is a step of the model although no code in the repository records the payload that would start it.
- Consumer selection, schemas, content policies, encryption, rendering of XLSX, PDF and SVG, navigation and page layout: tables, library calls or text matching without state.
- Transport and accommodation capacity checks, quiet times and risk scores: one-step expressions.
