# Assoluto: verified models of the order portal's core

Assoluto is a multi-tenant order portal for job shops. This project models, in Dafny, the parts of it
whose correctness is an argument rather than a reading, and proves that argument.

| file | what it models |
|---|---|
| `Dates.dfy`, `Easter.dfy`, `WorkingDays.dfy`, `DemoCalendar.dfy` | the Gregorian calendar, Easter, Czech holidays |
| `WorkdayShift.dfy`, `DemoClock.dfy`, `Timeline.dfy`, `OrderPlan.dfy` | the demo seed: shifts by working days, event slots, timelines, order numbers |
| `Outbox.dfy`, `OutboxProtocol.dfy` | the e-mail outbox: one row at a time, and under interleaved senders, jobs, rollbacks and purges |
| `OffsiteBackup.dfy` | nightly sync and expiry of off-site copies, whole histories of runs, tenant purge |
| `EmailThrottle.dfy` | the sliding-window limiter, refining a plain log of accepted attempts |
| `LocalDays.dfy` | instants and local calendar days under changing offsets |
| `StockRounding.dfy`, `StockLedger.dfy` | one stock booking and its roundings; bookings under a row lock |
| `PlanCaps.dfy`, `QuoteRearm.dfy` | lock, read, write protocols: plan limits, the demo's open quote |
| `Attachments.dfy`, `Paths.dfy` | attachment rows and stored objects across failures; storage keys |
| `DecimalContext.dfy` | decimal arithmetic rounded to 28 digits |
| `Digits.dfy`, `Money.dfy`, `Numbers.dfy`, `QtyField.dfy` | printers of money and decimals, and the readers that undo them |
| `XmlText.dfy`, `ForeignTotal.dfy`, `MoneyS3.dfy`, `MoneyS3Fields.dfy` | text cleaning, the total of a foreign order, the Money S3 element tree and what is read in it |
| `OpsAlert.dfy` | the limiter of operations alerts |
| `Arith.dfy`, `Sorting.dfy`, `Wrappers.dfy` | shared arithmetic, a stable sort, options and results |

Code that updates state in place is a class or a method with loops (`Outbox.Outbox`,
`OffsiteBackup.Bucket`, `EmailThrottle.EmailThrottle`, `StockLedger.AssetRow`, `Attachments.Files`,
`OpsAlert.AlertLimiter`, the methods of `DemoClock`, `Timeline`, `OrderPlan` and `MoneyS3`), proved
against a function or predicate of values. Concurrency is a state machine: an action that cannot
happen changes nothing, a run is a list of actions, and a property of every run is an invariant of every
step. Time is whole seconds, or real numbers where the source uses floats.

## Assumptions

- A row read again under its lock is the committed row, a lock is held until commit or rollback, and a
  query sees what was committed when it runs (PostgreSQL's default isolation).
- UUIDs are fresh and hold no slash.
- Prague's offset is constant during the business hours of a day and differs by at most one hour
  between days; the throttle and the alert limiter are called one at a time, the throttle on a clock
  that does not go back.
- SMTP, object storage and the database answer in any way: tries, puts and deletions may fail at any
  point, and a failed put may have stored the object. `randint` gives any value of its range.
- Years are unbounded (Python's run from 1 to 9999), and so are exponents of decimals.

## Where the code falls short of a stated property

Each of these is proved, with a failing input and the exact condition under which the property does hold.

- The sum of stored movements equals the stock exactly when no committed booking drifted: no withdrawal
  had a fourth decimal of exactly 5, whose row is rounded up and whose total is rounded down, and no sum
  was lifted to such a half by the decimal context's 28 digits (`StockLedger.StockIsSumOfMovementsIff`).
  On a stock of 1.000, consuming 0.0005 does the first (`StockLedger.HalfWithdrawalDrifts`) and receiving
  0.0004999999999999999999999999 the second (`StockLedger.LiftedReceiptDrifts`). Quantities of at most 19
  decimals rule out the second (`StockLedger.StockIsSumWithFewDecimals`), of at most three decimals both
  (`StockLedger.StockIsSumOfThousandths`).
- The audit log's day filter agrees with local dates exactly in the zones none of whose changes has a
  midnight strictly inside (`LocalDays.FilterAgreesIffNoMidnightInside`); clocks going back from 00:01 to
  23:01 break it (`LocalDays.ClockBackOverMidnight`).
- A hard request commits within its limit exactly when what transactions that saw no cap inserted since
  its count, less what was freed, fits the room its own insert leaves
  (`PlanCaps.HardRequestCommitsWithinItsLimit`, `PlanCaps.UncappedInsertBreaksTheCap`).
- The attribute `ICAgendy` of the Money S3 export is XML text exactly when every character kept of the
  identifier is an XML character, since it alone is not cleaned; a control character in the request's
  `ico` breaks it (`MoneyS3.AgendaIsXmlTextIff`, `MoneyS3.ControlCharacterIsExported`).
- With nothing under way the store holds exactly the keys that rows name if and only if no step of the
  run leaked: a put that failed after storing, a commit that failed or a process that died after a put,
  objects given up on after a deletion, a preview task that failed or died after its put, or a deletion
  that commits past a preview stamped since it read its row (`Attachments.AtRestTheStoreIsTheRows`).
  The last is no failure (`Attachments.LateStampLeavesAnOrphan`), although the comment in the route
  speaks of failures only.
- The throttle keeps no more buckets than the keys of the last four windows and 512 at the moment of a
  sweep (`EmailThrottle.EmailThrottle.BucketsAreBoundedAtTheSweep`); at any later moment, however
  close, some calls have broken it, because the next sweep waits for the 512th call
  (`EmailThrottle.OutgrowTheWindows`).

Four more results say how far a theorem reaches:

- `OffsiteBackup.DeletedOnlyAfterTheGracePeriod` speaks of completed runs because the code does: a run that
  listed a file as present but crashed before it stored its manifest does not reset the date from which
  the copy counts as missing (`OffsiteBackup.CrashedSightingDoesNotReset`).
- The quantity field agrees with the exporter's number exactly for numbers of at most 28 digits, the
  zeros of a large whole number included; 1E+30 would make it raise (`QtyField.FieldAgreesWithTheExport`,
  `QtyField.HugeQuantityRaises`), but the quantities stored always agree (`QtyField.ColumnsAgree`).
- A price in major units would print a dash from 10^28 cents on (`Money.MajorPrintsAsMinor`), but the
  amounts stored always print (`Money.ColumnsPrint`).
- The total of an order abroad can raise, exactly when `ForeignTotal.TotalRaisesOutOfRange` says, but not
  for what the database holds: fewer than ten thousand lines of the columns' values never do
  (`ForeignTotal.ColumnsNeverRaise`, `MoneyS3.StoredOrdersAreExportable`).

## Model

| member | source | states |
|---|---|---|
| Easter.EasterIsASundayInSeason | app/demo/seed.py:154-166 | for every year the algorithm's date is valid, a Sunday by the day-number function, from 22 March to 25 April |
| Easter.EasterIsFirstSundayAfterTheMoon | app/demo/seed.py:154-166 | it is the first of all Sundays strictly after 21 March plus h', h' being h less one when h = 29, or h = 28 and a > 10 |
| Easter.EasterAgreesWithGauss | app/demo/seed.py:154-166 | it is the date of Gauss's algorithm, written down independently |
| WorkingDays.SixDaysContainAWorkingDay | app/demo/seed.py:170-181 | any six consecutive days contain a working day |
| WorkingDays.WorkingDayIs | app/demo/seed.py:154-181 | a date works exactly when it is Monday to Friday, none of the eleven fixed holidays, and neither the Friday before Easter Sunday nor the Monday after it |
| Dates.CalendarIsGregorian | app/demo/seed.py:154-181 | month lengths, leap years, and that 1 January 2000 is a Saturday |
| WorkingDays.SixIsTheLeast | app/demo/seed.py:170-181 | six is the least: 24 to 28 December 2025 are five days off |
| WorkingDays.FiveDaysMayNot | app/demo/seed.py:170-181 | so is Christmas of every year whose 24 December is a Wednesday |
| DemoCalendar.CzechCalendarIsDense | app/demo/seed.py:180-191 | so the Czech calendar meets the condition under which the shift loop terminates |
| WorkdayShift.ShiftWorkingDays | app/demo/seed.py:184-191 | the loop terminates and computes the shift function below |
| WorkdayShift.ShiftLands | app/demo/seed.py:184-191 | for n other than 0 the result is a working day with exactly abs(n) working days crossed |
| WorkdayShift.ShiftIsTheNthWorkingDay | app/demo/seed.py:184-191 | and it is the only such day |
| WorkdayShift.ShiftsAdd | app/demo/seed.py:184-191 | shifts of the same sign add |
| WorkdayShift.ShiftAndBack | app/demo/seed.py:184-191 | shifting a working day by n and then by -n returns it |
| WorkdayShift.ShiftIsMonotone | app/demo/seed.py:184-191 | a longer shift lands strictly further |
| DemoClock.AnchorDay | app/demo/seed.py:194-205 | the last complete working day before now: today's once it is 16:30, and no complete working day is later |
| DemoClock.SlotsAreWide | app/demo/seed.py:1568-1573 | with at most 63 events a day every slot is at least nine minutes wide |
| DemoClock.DaySlots | app/demo/seed.py:1568-1573 | the inner loop asks for an empty random range exactly when a day has more than 63 events; else its times lie from 07:04 to before 16:26, 8 min 1 s apart |
| DemoClock.Slots | app/demo/seed.py:1550-1574 | it fails exactly when more than 63 consecutive events share a day, and else gives every event a time on its day |
| DemoClock.SlotsIncrease | app/demo/seed.py:1550-1574 | for a chronological list the instants strictly increase; events of one day are 8 min 1 s apart |
| DemoClock.SlotsAreInThePast | app/demo/seed.py:1550-1574 | every event lies on a working day and before now |
| Timeline.Validate | app/demo/seed.py:1580-1614 | a timeline passes exactly when it meets all rules, stated declaratively, and an error names a broken one |
| Timeline.RankIsThePlace | app/demo/seed.py:1580-1614 | ranks are the places in the pipeline from draft to closed |
| Timeline.LastStatusIs | app/demo/seed.py:1580-1614 | the status judged is that of a step after which there is none |
| Timeline.QuotesPromiseIs | app/demo/seed.py:1580-1614 | an order past submission and not cancelled must promise a date |
| Timeline.BuildHistory | app/demo/seed.py:1963-1982 | the history rows are those of the steps, and form a from/to chain |
| Timeline.RowOfStep | app/demo/seed.py:1963-1982 | the m-th step has the m-th row, with its status and its time, and there are no other rows |
| Timeline.HistoryEndsInStatus | app/demo/seed.py:1963-1982 | the chain of an accepted order ends in the order's status |
| Timeline.MilestonesInOrder | app/demo/seed.py:1911-1947 | in increasing times any two milestones that are present come in the order of the pipeline, whichever lie skipped between them, a skipped submission filled in included, and a cancellation comes last |
| Timeline.SubmittedIs | app/demo/seed.py:1911-1926 | an order is submitted at its step into that status, without one at its second step unless that cancels it, and else never |
| OrderPlan.DatesAreOff | app/demo/seed.py:1635-1636 | a requested or promised date is a working day exactly that many working days after the anchor, or before it when negative |
| OrderPlan.PlannedMilestonesInOrder | app/demo/seed.py:1911-1947 | the times a planned order was given do increase, so its milestones come in that order |
| OrderPlan.NumberOrders | app/demo/seed.py:1636-1645 | numbers count on from the base of the day that opened the year, and grow with creation within a year |
| OrderPlan.SerialsCountOn | app/demo/seed.py:1640-1645 | between two orders of a year with none of it in between serials grow by one |
| OrderPlan.SeasonStartsTheSerials | app/demo/seed.py:1617-1645 | the first order of a year on its n-th day gets serial 2n/5 + 1, so never above 147 |
| OrderPlan.NumberTextsDiffer | app/demo/seed.py:1644 | different numbers print differently |
| OrderPlan.NumberAsPrinted | app/demo/seed.py:1644 | a number prints as its year, a dash and its serial in at least six digits |
| OrderPlan.PlanOrders | app/demo/seed.py:1623-1645 | it fails exactly on a repeated title, an implausible timeline or an overfull day, and else plans every order, in order of creation and, at one instant, of specification, numbered in that order |
| Outbox.BackoffGrowsToTheCap | app/email/outbox.py:72-76 | waits are at least a minute, never shrink, and stay at four hours from the ninth attempt on |
| Outbox.BackoffTable | app/email/outbox.py:72-76 | the wait for every number of attempts: 1, 2, 4 to 128 minutes, then 240 |
| Outbox.RecordedFields | app/email/outbox.py:138-191 | every outcome adds the tries made; a failure waits by their sum or, from twelve on, gives up |
| Outbox.DroppedFields | app/email/outbox.py:194-214 | a dropped mail fails at once, loses its context and keeps its attempts |
| Outbox.OutcomesAreOrderly | app/email/outbox.py:138-214 | every outcome leaves a row pending with its context, sent without it, or failed; it raises attempts and never makes the row purgeable at once |
| Outbox.JobKeepsTryingForSixteenHours | app/email/outbox.py:138-191 | after three inline tries the job gives up no earlier than 972 minutes after that deferral |
| Outbox.GivingUpTakesAllTheWaits | app/email/outbox.py:138-191 | from any attempt count, giving up takes at least the sum of the remaining waits |
| OutboxProtocol.JobsWaitBeforeGivingUp | app/email/outbox.py:138-347 | so it does in every interleaving from any committed deferral of a mail that is left to the jobs |
| OutboxProtocol.JobsKeepTryingForSixteenHours | app/email/outbox.py:138-347 | deferred after three tries, such a mail is not given up on in the next 972 minutes, whatever runs, rollbacks and purges come between |
| OutboxProtocol.DeliveryTakesEffect | app/email/outbox.py:138-273 | in every interleaving a committed inline delivery leaves the row it claimed with its tries added, and sent, given up on or deferred |
| OutboxProtocol.FailedDeliveryKeepsTrying | app/email/outbox.py:138-347 | three failed tries of a new mail defer it at three attempts, from which the 972 minutes run |
| OutboxProtocol.DueRowsAreClaimed | app/email/outbox.py:315-335 | a job run may claim a free row exactly when it is pending and due, for one try |
| OutboxProtocol.RollbackFreesTheRow | app/email/outbox.py:256-335 | a lost transaction leaves the row as it was and free |
| OutboxProtocol.SuppressedMailIsDropped | app/email/outbox.py:194-214 | a suppressed mail is failed without its context and without a try |
| OutboxProtocol.PurgeTakesTheExpired | app/email/outbox.py:337-346 | a job's purge takes exactly the rows sent over 7 or failed over 30 days before its start |
| Outbox.SendWithRetries | app/tasks/email_tasks.py:91-137 | it succeeds exactly when one of the given number of tries would, stops at the first that does, and else makes them all |
| Outbox.Outbox.Enqueue | app/email/outbox.py:219-253 | one new pending row, due after two minutes |
| Outbox.Outbox.RecordOutcome | app/email/outbox.py:138-191 | no other row changes, and this one field by field: attempts grow by the tries, and it is sent, given up on, or due after the wait for the sum |
| Outbox.Attempt | app/email/outbox.py:116-135 | a mail that cannot be rendered is one failed try; any other gets the tries of the retry loop |
| Outbox.Outbox.DeliverRow | app/email/outbox.py:256-273 | a row that is not pending is left alone, a suppressed one retired, any other tried and recorded: sent exactly when it renders and one of its tries gets through, with the tries made |
| Outbox.Outbox.DrainBatch | app/email/outbox.py:315-335 | it deals with as many due rows as the limit allows, earliest first, each once and by the mailer's answer, leaves none due below the limit, and counts the sent and the deferred |
| Outbox.Outbox.Purge | app/email/outbox.py:337-346 | exactly the rows sent over 7 or failed over 30 days ago go; no pending row does |
| Outbox.Outbox.Drain | app/email/outbox.py:315-347 | a row is gone after a job run exactly when it was long settled before it |
| OutboxProtocol.StepIsSound | app/email/outbox.py:256-347 | every step of senders, jobs, commits, rollbacks and purges keeps the invariant of every mail |
| OutboxProtocol.NoRowHasTwoSenders | app/email/outbox.py:256-273 | in every run no row is held by two senders |
| OutboxProtocol.NothingIsSentTwiceOrLate | app/email/outbox.py:256-335 | whoever may send holds a row recorded neither sent nor failed, and a job run has not tried it before |
| OutboxProtocol.SendsAreOnePlusTheLost | app/email/outbox.py:256-335 | successful sends of a mail are those lost between a send and its commit, plus one when it is recorded sent |
| OutboxProtocol.EveryMailIsAccountedFor | app/email/outbox.py:138-347 | a mail is always exactly one of pending with its context, sent, failed or purged, with at most twelve failures |
| OutboxProtocol.PendingIsNeverPurged | app/email/outbox.py:337-346 | in every run a row that is gone was deleted by the purge of a job run, settled and past its retention then |
| OutboxProtocol.MailsRemain | app/email/outbox.py:337-346 | no later step forgets a mail, so the machine can say so of its row |
| OffsiteBackup.DeletedOnlyAfterTheGracePeriod | app/ops/offsite_backup.py:174-221 | a copy goes only if a completed run over 180 days before saw it missing and so did every completed run since |
| OffsiteBackup.CrashedSightingDoesNotReset | app/ops/offsite_backup.py:174-221 | a run that sees the file and crashes is no such run: the copy goes although the file was listed a second before |
| OffsiteBackup.MissingCopyGoesAfterTheGracePeriod | app/ops/offsite_backup.py:174-221 | a copy that stays missing goes at the first completed run past the grace period |
| OffsiteBackup.PresentFilesAreSafe | app/ops/offsite_backup.py:174-221 | a copy whose file is there is kept and no longer tracked |
| OffsiteBackup.Bucket.ExpireDeletedCopies | app/ops/offsite_backup.py:174-221 | the loop computes the expiry step of the histories above and, key by key, deletes all versions of what has been missing for more than 180 days by the old manifest and dates the rest of the missing; nothing on an empty listing; with its counts |
| OffsiteBackup.Bucket.DeleteAllVersions | app/ops/offsite_backup.py:164-171 | the key is gone and no longer key with the same beginning is |
| OffsiteBackup.Bucket.SyncAttachments | app/ops/offsite_backup.py:111-129 | a file without a copy of its size gets one version of that size on top, everything else stays as it was, and the counts are right |
| OffsiteBackup.Bucket.PurgeTenant | app/ops/offsite_backup.py:132-156 | refused exactly for an empty prefix; a dry run only counts; else exactly the versions under the prefix go |
| OffsiteBackup.TenantsAreDisjoint | app/ops/offsite_backup.py:140-143 | no object lies under the prefixes of two tenants, even when one slug starts with the other |
| EmailThrottle.EmailThrottle.Allow | app/security/email_throttle.py:59-82 | the answer is the plain log's: fewer than max accepted attempts of the normalised key lie in the closed window, whatever pops and sweeps have dropped; no key is always allowed |
| EmailThrottle.NoWindowOverflows | app/security/email_throttle.py:59-82 | any closed window, wherever it starts, holds at most max acceptances of a key |
| EmailThrottle.SweepKeepsMirrors | app/security/email_throttle.py:84-90 | a sweep leaves the recent part of every key's log in its deque, so it changes no answer |
| EmailThrottle.EmailThrottle.BucketsAreBoundedAtTheSweep | app/security/email_throttle.py:59-90 | whenever a sweep has just run, buckets never exceed the keys alive in the last four windows plus 512 |
| EmailThrottle.OutgrowTheWindows | app/security/email_throttle.py:59-90 | and for every time after a sweep some calls leave more of them at that time |
| EmailThrottle.PaddingDoesNotMatter | app/security/email_throttle.py:61 | white space on either side does not change the key |
| EmailThrottle.CapitalsDoNotMatter | app/security/email_throttle.py:61 | nor do capitals: texts that differ at most by a letter and its capital, by code, have one key |
| EmailThrottle.KeysTellAddressesApart | app/security/email_throttle.py:61 | and texts of one key differ in nothing but blanks at their ends and capitals |
| EmailThrottle.NoKeyIsBlank | app/security/email_throttle.py:61-64 | there is no key exactly for a missing or blank address |
| EmailThrottle.SpacesByCode | app/security/email_throttle.py:61 | white space, by code point |
| LocalDays.FilterAgreesIffNoMidnightInside | app/timezones.py:171-202 | the start of a day splits instants as their local dates do exactly in the zones without a change over a midnight |
| LocalDays.ClockBackOverMidnight | app/timezones.py:193-202 | a zone in which an instant after the day's start is dated the day before |
| LocalDays.DayRangeFilter | app/services/audit_service.py:289-292 | the from/to filter keeps exactly the events dated in the range |
| LocalDays.DaysTileTheTimeLine | app/timezones.py:193-202 | every instant lies in exactly one day, long and short days included |
| LocalDays.FoldZeroIsEarliest | app/timezones.py:193-202 | a repeated wall reading is resolved to its earliest instant |
| LocalDays.LocalDateIs | app/timezones.py:171-192 | a local date is the whole days of 86400 s on a wall that is ahead of UTC by the offset of the last change |
| DecimalContext.FixRespects | app/services/asset_service.py:164 | rounding to 28 digits never crosses a number of at most 28 digits, carries included |
| DecimalContext.FixIsNearest | app/services/asset_service.py:164 | it goes to the nearest, and from the middle to the even digit |
| DecimalContext.AddedInUnits | app/services/asset_service.py:164 | before it, a sum is exact |
| StockRounding.BookingDrift | app/services/asset_service.py:97-188 | the stored total is the one before plus the stored movement, plus 0.001 exactly when the withdrawal ends in a half or its sum is lifted to one |
| StockRounding.StoredIsTheNearest | app/services/asset_service.py:172-188 | a column holds the nearest thousandth, a half away from zero |
| StockRounding.ReceiptIsLifted | app/services/asset_service.py:164-188 | on any stock but none, a receipt just below half a thousandth with the decimals that bring the sum to 29 digits raises the total and books nothing |
| StockRounding.FewDecimalsAreExact | app/services/asset_service.py:164 | with at most 19 decimals no sum that fits the column is rounded |
| StockLedger.AssetRow.AddMovement | app/services/asset_service.py:97-209 | each refusal by its input, missing, infinite and NaN quantities included; a withdrawal books minus its magnitude and never raises the stock, a receipt its magnitude and never lowers it, a correction its own sign; one movement and one audit row are added |
| StockLedger.BookRefusesExactly | app/services/asset_service.py:164-188 | a booking is refused exactly when more is withdrawn than there is, or a column would need ten digits before the point |
| StockLedger.PostingKeepsBalance | app/services/asset_service.py:147-207 | a booking keeps the stock within its column, equal to the trail's total and to its movements plus the drifts |
| StockLedger.StockIsNeverNegativeAndTraceable | app/services/asset_service.py:113-207 | in every interleaving stock is never negative and fits its column, the trail chains in commit order by the sums the decimal context makes, and alone rebuilds it |
| StockLedger.StockIsSumOfMovementsIff | app/services/asset_service.py:97-207 | in every interleaving stock equals the sum of its movements exactly when no committed booking drifted |
| StockLedger.StockIsSumWithFewDecimals | app/services/asset_service.py:97-207 | with at most 19 decimals entered, exactly when no committed withdrawal ended in half a thousandth |
| StockLedger.StockIsSumOfThousandths | app/services/asset_service.py:97-207 | with at most three decimals entered, always |
| StockLedger.HalfWithdrawalDrifts | app/services/asset_service.py:97-207 | a run of two bookings after which stock is 1.000 and its movements sum to 0.999 |
| StockLedger.LiftedReceiptDrifts | app/services/asset_service.py:97-207 | for any stock, runs of two receipts after which it is 0.001 more than its movements sum to |
| PlanCaps.HardRequestCommitsWithinItsLimit | app/platform/usage.py:139-209 | in every interleaving a hard request commits within the limit it read exactly when the uncapped inserts since its count, less what was freed, fit the room it leaves; always when there are none |
| PlanCaps.UsageStaysWithinTheLimit | app/platform/usage.py:139-209 | with one limit L and hard requests, rows stay at most L and stored bytes strictly below (L + 1) MiB at every moment |
| PlanCaps.RoundingNeverExceedsByAMebibyte | app/services/attachment_service.py:111-125 | usage rounded down plus the request rounded up within L leaves less than one MiB above L |
| PlanCaps.UnitsOf | app/services/attachment_service.py:111-125 | usage in whole MiB is rounded down, a request up and at least one, rows are counted as they are |
| PlanCaps.CheckDecides | app/platform/usage.py:139-209 | a hard request goes on exactly when it fits the limit it read, a soft one always |
| PlanCaps.LoneRequest | app/platform/usage.py:139-209 | alone, it is inserted exactly when it fits; without a positive limit always |
| PlanCaps.UncappedInsertBreaksTheCap | app/platform/usage.py:159-179 | the allowance for uncapped inserts is needed |
| Attachments.StepIsSound | app/routers/attachments.py:149-218 | every step of uploads, deletions, re-armed rows and thumbnail tasks, failing or not, keeps the invariant |
| Attachments.NoRowPointsAtNothing | app/routers/attachments.py:149-218 | in every run every key that a committed row names is in the store, shared keys included |
| Attachments.AtRestTheStoreIsTheRows | app/routers/attachments.py:325-346 | when nothing is under way the store holds exactly the keys that rows name if and only if no step of the run leaked |
| Attachments.LateStampLeavesAnOrphan | app/tasks/thumbnail_tasks.py:154-167 | a run without failures that leaves an unreferenced preview |
| Attachments.PreviewIsStamped | app/tasks/thumbnail_tasks.py:154-167 | a preview that nothing interferes with is stored and named by its row |
| Attachments.Files.Upload | app/routers/attachments.py:149-218 | the row is committed with its object or not at all, by steps of the machine |
| Attachments.Files.Delete | app/routers/attachments.py:293-346 | the row goes, and of its objects those no other row uses, but for the ones the store is stuck on |
| Attachments.Files.Rearm | app/demo/seed.py:2585-2617 | a new row that shares the objects of another |
| QuoteRearm.RearmedOnlyWhenNoneWasOpen | app/demo/seed.py:2454-2572 | in every interleaving a quote is re-armed only by a caller that saw none open under the lock, and no other re-arms one between its check and its commit |
| QuoteRearm.NeverTwiceWithoutClosing | app/demo/seed.py:2454-2572 | between two re-arms every open quote was closed, the first one's included |
| QuoteRearm.LoneCaller | app/demo/seed.py:2454-2572 | a caller that nobody interferes with gets a quote exactly when none was open and the people of the seed are there |
| Attachments.Files.KeysStillUnreferenced | app/services/attachment_service.py:184-201 | exactly the keys that no row stores or thumbnails |
| Attachments.StorageKeysTellTheAttachment | app/services/attachment_service.py:51-68 | within a tenant equal storage keys mean the same order, attachment and cleaned file name |
| Attachments.StorageKeyEndsInTheName | app/services/attachment_service.py:51-68 | the last segment of a key is the cleaned file name, which holds no slash whatever the client sent |
| Attachments.SafeNameIs | app/services/attachment_service.py:64 | that is what follows the last slash, backslashes turned into underscores, or `file` |
| Attachments.KeysAre | app/services/attachment_service.py:65-72 | both keys as they are written, under the tenant's prefix |
| Attachments.PreviewsAreNotFiles | app/services/attachment_service.py:51-72 | a preview's key is never a file's |
| Money.MoneyReadsBack | app/templating.py:50-77 | a reader gives every amount of cents back from its print, in any currency |
| Money.MoneyNeverCollides | app/templating.py:50-77 | two amounts of one currency, or an amount and a missing one, never print alike |
| Money.AmountShowsWhatThereIs | app/templating.py:72-76 | there is a minus exactly below zero and a comma exactly when there are cents |
| Money.Symbols | app/templating.py:41-70 | the symbols of crown, euro and dollar, crowns for no currency, and the code for any other |
| Money.TextsAreTagged | app/templating.py:50-77 | amount and symbol are one space apart, and a missing amount is a dash |
| Money.UpperByCode | app/templating.py:69 | capitals, by code |
| Digits.DigitsByCode | app/templating.py:74 | digits, by code |
| Digits.GroupedInThrees | app/templating.py:74 | counted from the right, every fourth character of the whole part is a space, and no other |
| Money.MajorPrintsAsMinor | app/templating.py:80-116 | a decimal prints as its half-up cents do, or as a dash from 10^28 cents on |
| Money.ColumnsPrint | app/templating.py:80-116 | a column of two decimals always prints, as its cents do |
| Money.CentsPrintTheSame | app/templating.py:80-116 | cents given as a decimal print the same through both filters exactly when they have at most 28 digits |
| Money.CentsAreTheNearest | app/templating.py:104-106 | the cents printed are the nearest, ties away from zero |
| Money.TrailingZeroKeepsTheCents | app/templating.py:104-106 | trailing zeros of a decimal do not change them |
| Numbers.NumReadsBack | app/services/accounting_export.py:237-242 | a reader gives the value and sign of every finite decimal back from its print |
| Numbers.PrintsTellNumbersApart | app/services/accounting_export.py:237-242 | two decimals print alike exactly when they are equal with the same sign |
| Numbers.NumIsTidy | app/services/accounting_export.py:237-242 | no needless zero stands at either end of a printed number |
| MoneyS3Fields.NumIsPlain | app/services/accounting_export.py:237-242 | a number is printed in digits, a point and a minus |
| QtyField.FieldAgreesWithTheExport | app/templating.py:349-374 | the field shows the exporter's number exactly when that has at most 28 digits, zeros of a large whole number included |
| QtyField.HugeQuantityRaises | app/templating.py:349-374 | 1E+30 makes it raise |
| QtyField.QtyIsNumOfTheRounded | app/templating.py:349-374 | whatever it shows is the exporter's number of the value rounded to 28 digits, half to even |
| QtyField.ColumnsAgree | app/templating.py:349-374 | decimals of at most 28 digits with no positive exponent always agree |
| XmlText.XmlSafeCleans | app/services/accounting_export.py:255-261 | what is left is Char of section 2.2 of XML 1.0, never longer, and XML text is left alone |
| XmlText.XmlSafeOfOne | app/services/accounting_export.py:255-261 | a single character is kept exactly when it is Char of section 2.2 of XML 1.0 |
| XmlText.XmlSafeConcat | app/services/accounting_export.py:255-261 | and a text is cleaned part by part |
| XmlText.SpacesByCode | app/services/accounting_export.py:211-234 | white space, by code point |
| XmlText.CollapseIsCollapsed | app/services/accounting_export.py:211-220 | collapsing leaves single spaces between words, and exactly such texts alone |
| XmlText.CollapseKeepsLetters | app/services/accounting_export.py:211-220 | collapsing loses white space and nothing else |
| XmlText.CollapseJoinsTheWords | app/services/accounting_export.py:211-220 | it joins the words of the text by single spaces |
| XmlText.ClippedFits | app/services/accounting_export.py:211-220 | a clipped text has between one character and the limit, and there is none exactly when there are no letters |
| XmlText.ClippedIsTheBeginning | app/services/accounting_export.py:211-220 | it is the collapsed text, or a mark after all of its beginning that fits, but for white space |
| XmlText.FitsIsNeverCut | app/services/accounting_export.py:223-234 | an identifier is shown with all its letters or not at all |
| XmlText.StripIsTrimmed | app/services/accounting_export.py:223-234 | stripping leaves no white space at either end and every letter |
| XmlText.StripIsTheKept | app/services/accounting_export.py:223-234 | it keeps exactly the characters with a letter at or before and at or after them |
| ForeignTotal.TotalIsTheExactSum | app/services/accounting_export.py:507-510 | rounding every product and sum to 28 digits changes nothing, and quantising gives the exact sum to the cent, half to even, when the lines' magnitudes stay below 28 digits of the finest product |
| ForeignTotal.TotalRaisesOutOfRange | app/services/accounting_export.py:507-510 | for every list of lines it raises exactly when the cents of the running sum are 10^28 or more |
| ForeignTotal.TotalRaisesExactly | app/services/accounting_export.py:507-510 | for lines of whole cents, none negative, exactly when their exact sum is 10^28 cents or more, however the sums before were rounded |
| ForeignTotal.ColumnsNeverRaise | app/services/accounting_export.py:507-510 | with quantities of NUMERIC(12, 3), prices of NUMERIC(12, 2) and fewer than ten thousand lines it never raises, and is the exact sum to the cent, half to even |
| ForeignTotal.HugeTotalRaises | app/services/accounting_export.py:507-510 | one piece at 10^k raises for every k from 26 on |
| MoneyS3.StoredOrdersAreExportable | app/services/accounting_export.py:504-510 | an order of stored values with fewer than ten thousand items never fails to export |
| MoneyS3.BuildOrder | app/services/accounting_export.py:469-542 | it fails exactly when the running sum of a foreign order is 10^28 cents or more; else the element conforms: children in the schema's order, XML characters and short enough texts at every depth |
| MoneyS3.BuildMoneyS3 | app/services/accounting_export.py:444-544 | the export fails exactly on no orders, an unknown rate and a foreign order whose running sum is 10^28 cents or more, in this order; else the tree conforms, has one element per order, and `ICAgendy` is the stripped identifier if it fits |
| MoneyS3Fields.ExportedOrders | app/services/accounting_export.py:469-542 | the i-th element is the i-th order |
| MoneyS3Fields.ExportedItems | app/services/accounting_export.py:517-542 | its `Polozka` elements are those of its items |
| MoneyS3Fields.ExportedItem | app/services/accounting_export.py:517-542 | its j-th item is the order's j-th, with its place and the rate |
| MoneyS3Fields.ItemNumbers | app/services/accounting_export.py:527-535 | `PocetMJ` reads back as the quantity, and `Cena` at home or `Valuty` abroad as the unit price |
| MoneyS3Fields.ItemRates | app/services/accounting_export.py:407-532 | `SazbaDPH` is 0, 21 or 12 by the rate asked for, `TypCeny` 0 |
| MoneyS3Fields.ItemStockCard | app/services/accounting_export.py:536-542 | unit and code are those of the item, in a stock card that is there exactly when one of them is |
| MoneyS3Fields.OrderFields | app/services/accounting_export.py:471-502 | title, note, both dates and number of an order stand in their own elements, its partner in `DodOdb` |
| MoneyS3Fields.PartnerFields | app/services/accounting_export.py:480-500 | the partner's name stands in three places, its identifiers in theirs, its address in three |
| MoneyS3Fields.AddressFields | app/services/accounting_export.py:432-442 | street, city and postal code of an address are the partner's |
| MoneyS3Fields.HomeIsCzk | app/services/accounting_export.py:470 | an order is at home exactly when its currency is CZK in any case |
| MoneyS3Fields.TotalFields | app/services/accounting_export.py:504-515 | abroad `Celkem` reads back as the total and `Kod` is the currency, at home there is neither |
| MoneyS3Fields.TotalIsTheWorth | app/services/accounting_export.py:507-510 | the total of a stored order is the sum of quantity times price over its items, to the nearest cent |
| MoneyS3.AgendaIsXmlTextIff | app/services/accounting_export.py:463-466 | that attribute is XML text exactly when every character kept of the identifier is an XML character |
| MoneyS3.ControlCharacterIsExported | app/services/accounting_export.py:463-466 | an identifier for which it is not |
| MoneyS3.FirmIsLeftOutWhenEmpty | app/services/accounting_export.py:480-500 | `DodOdb` is there exactly when some field of the partner leaves something to print |
| MoneyS3.ItemsOfOrder | app/services/accounting_export.py:517-542 | the items among an order's children are all its items, in order |
| MoneyS3.ItemsAreCounted | app/services/accounting_export.py:517-532 | `Poradi` of the items counts 1 to n |
| MoneyS3.NeverBothPrices | app/services/accounting_export.py:527-534 | an item has `Cena` exactly at home and `Valuty` exactly abroad, when priced |
| MoneyS3.WordingIsKept | app/services/accounting_export.py:517-525 | an item's full wording, cleaned, is `Popis` when it has at most 50 characters and else the first line of `Poznamka` |
| MoneyS3.WordingHasAllLetters | app/services/accounting_export.py:519 | that wording has all letters of the item's text, in order |
| MoneyS3.NoteIsKept | app/services/accounting_export.py:517-525 | an item's note, stripped and cleaned, ends `Poznamka`, and is all of it when the wording was not cut |
| OpsAlert.AlertLimiter.ShouldSend | app/email/ops_alert.py:62-72 | the decision is the log's: an alert goes out unless one went out less than 15 minutes ago, and reports the calls since |
| OpsAlert.NothingIsForgotten | app/email/ops_alert.py:62-72 | calls equal the alerts, the suppressed calls they report and those pending |
| OpsAlert.LastAlertIs | app/email/ops_alert.py:62-72 | the last alert it compares with is one of the signature after which there is none |
| OpsAlert.AlertsAreApart | app/email/ops_alert.py:62-72 | two alerts of one signature are at least an interval apart |

## Left out

- The POHODA data pack: a second tree builder of the same kind as the Money S3 one.
- MoneyS3.BuildMoneyS3: dates are given as their ISO texts; numbers are finite; attributes and serialising
  to bytes are not modelled; `upper()` is ASCII only.
- MoneyS3.BuildOrder: elements are values, appended to lists; the source appends to mutable ones.
- Attachments.NoRowPointsAtNothing: requests are served one at a time; a deletion overlapping a
  re-armed quote, the orphan sweep and the quota check are not in the machine.
- OffsiteBackup.Bucket.PurgeTenant: batches of 1000 and their partial errors; a failed run leaves part of the versions.
- StockLedger.AssetRow.AddMovement: several bookings in one transaction, the error texts, and the limits of
  the decimal context and the driver on exponents.
- QuoteRearm.RearmedOnlyWhenNoneWasOpen: the choice of the template and the rows of the new order.
- PlanCaps.HardRequestCommitsWithinItsLimit: what counts as a user or an order of the month is a number; the e-mail to admins is left out.
- EmailThrottle.EmailThrottle.Allow: lower-casing is ASCII only; the process lock is a serial call.
- LocalDays.FilterAgreesIffNoMidnightInside: zones are lists of offset changes, each over on the wall
  before the next begins; the zone database and sub-second instants are left out.
- Money.MoneyReadsBack: amounts are integers or missing; other inputs, which print a dash, and
  non-ASCII currency codes are left out.
- QtyField.FieldAgreesWithTheExport: decimals only; the text of other values is `str`'s.
- OrderPlan.PlanOrders: item lines, persons, texts and audit rows of the seed.
- Outbox.Outbox.Drain: `last_error`, tenants and what is rendered.
- Templates, routing, authentication, billing, mail texts and pictures.
