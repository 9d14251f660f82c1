# Maternal Healthcare Tracker — a Dafny model of its core

This project models the decision logic of the Maternal Healthcare Tracker, a PHP
application for antenatal care (ANC), and proves properties of that model.

- **The ANC reminder cron job** (`backend/cron/send_reminders.php`):
  - `calculateNextANCDate`: the fixed checkup schedule, with exact calendar day arithmetic from the LMP date.
  - `generateUpcomingReminders`: which pregnancies get a reminder, and the row that is inserted for each.
  - The dispatch loop: which reminders are due today, which channels are tried, how the outcome decides the `is_sent` update, and how the sent and failed counters move.
- **The patient dashboard** (`frontend/dashboards/patient_dashboard.php`):
  - the trimester milestones;
  - the timeline labels;
  - the countdown to the expected due date (EDD).
- **The visits API** (`backend/api/visits.php`):
  - role gates and the required-field check;
  - the assigned-doctor check and insert defaults;
  - the whitelist of updatable fields;
  - who may read which visits.
- **Alert resolution** (`backend/api/resolve_alert.php`): the role gate, `alert_id` validation, the assigned-doctor check, and the update.
- **Patient registration** (`register.php`, lines 7-45): the missing-field list, the error message, and the normalised record handed to `Auth::register`.

## How the model is built

Tables are immutable sequences of rows inside one `Database.Db` value. Each request handler is a pure function from
(database, caller, decoded request) to an `Outcome`, which holds the reply and the new database.

- **Dates** are day ordinals: days since 0001-01-01 in the proleptic Gregorian calendar.
  - `Calendar` proves the conversion from (year, month, day) to an ordinal and back.
  - So PHP's `DateInterval('P<n>D')` and `strtotime('... -2 days')` become integer addition. This is exact across month ends and leap days.
  - `new DateTime` on a `YYYY-MM-DD` text accepts months 00-12 and days 00-31 and lets the surplus roll over, as PHP does: `2024-02-30` is 1 March 2024 and day 00 is the last day of the month before.
- **`CURDATE()` and `NOW()`** are parameters. One instant `now` stands for every `NOW()` of a cron run, although each `UPDATE ... sent_at = NOW()` reads the clock anew.
- **The e-mail and SMS senders** are one parameter, `senders: Reminder -> Attempt`. It says what each sender would do for a reminder: deliver, not deliver, or raise.
- **`Auth::register`** is a parameter of `Registration.Submit`.
- **The session user** is an input (`Requests.Caller`, `ResolveAlert.Session`).
- **PHP value semantics** are written out because the code depends on them:
  - `isset`;
  - `empty` (`0` and `"0"` count as empty);
  - `??`;
  - the `(int)` cast of a string, which reads the leading numeral with its fraction and exponent (PHP 7.1 and later);
  - `trim`;
  - `is_numeric`: a numeral with optional sign, fraction and exponent, between optional white space;
  - loose `==` between a nullable id and an id (`null == 0`).
- **The reminder loop is stated for any "planner".** A planner is a record holding the date computation and the two text compositions. `ReminderGeneration.CronPlanner` is the planner of the code, and the lemmas about the cron job instantiate the general ones with it.

Behaviour of the code that is easy to misread, and that the model follows:

- **Due reminders.** Only reminders dated exactly today are due (`DATE(r.reminder_date) = CURDATE()`), not "today or earlier". An overdue unsent reminder is never selected again (`ReminderDispatch.OverdueNeverDue`).
- **Unreadable LMP date.** `new DateTime` throws inside the generation loop. The exception reaches the outer `catch`, so the remaining pregnancies get nothing and no summary is printed. Rows inserted before the exception stay: the pregnancy is not skipped, the run stops there.
- **Sender exceptions.** An exception from the e-mail sender skips the SMS attempt. An exception from either sender fails the reminder, even if the other channel delivered.
- **The worked example.** LMP 2024-01-01 in week 6 gives the week-8 visit on 2024-02-26 and a reminder dated 2024-02-24 (`ReminderGeneration.WorkedExampleReminder`).

Behaviour of the code that the proofs bring out:

- **Late reminders.** Generation runs after dispatch. A reminder it dates before today is never sent: it is overdue from the next day on (`ReminderDispatch.OverdueNeverDue`). One it dates today is sent only if the job runs again the same day (`ReminderJob.SameDayRerunSendsLateReminder`). Neither blocks a duplicate on the next run (`ReminderGeneration.SecondRunSelection`).
- **Impossible LMP dates.** An LMP of `2024-02-30` does not raise: the day runs on into March (`Calendar.FebruaryThirtiethRollsOver`), so that pregnancy still gets a reminder.
- **The timeline never shows "Current".** A milestone in the current week is already completed, and that flag is tested first (`PatientDashboard.TimelineNeverCurrent`).
- **Re-resolving overwrites.** Resolving an alert does not check that it is still open, so resolving it again overwrites the resolver and the time (`ResolveAlert.ReResolveOverwrites`).
- **Week 0 cannot be recorded.** A visit in gestational week 0 is rejected as missing, because `empty(0)` holds (`Visits.WeekZeroRejected`).
- **Odd registration ages.** An age of `"0"` is reported missing. An age that does not start like a number registers as 0. An age in exponent form is multiplied out: `"2e1"` registers as 20 (`Registration.ExponentAgeRegistered`).
- **Reading visits.** Every role other than `pregnant_woman` and `doctor_asha`, including `admin`, may read any visit.
- **`resolve_alert.php` status codes.** Only the role gate sets an HTTP status (403). Every other error reply goes out with status 200.

## Model

| member | source | states |
|---|---|---|
| AncSchedule.WeeksStrictlyIncreasing | backend/cron/send_reminders.php:207-209 | The checkup weeks 8, 12, …, 40 strictly increase and none exceeds 40. |
| AncSchedule.FirstAbove | backend/cron/send_reminders.php:211-218 | The loop with early return finds the first entry strictly above the current week: every earlier entry is at or below it, and None means no entry is above it. |
| AncSchedule.NextAncWeek | backend/cron/send_reminders.php:207-220 | A next checkup week exists exactly when the current week is below 40. It is a scheduled week after the current one, and no scheduled week after the current one is smaller. |
| AncSchedule.NextAncDate | backend/cron/send_reminders.php:205-221 | Null exactly from week 40 on. An exception exactly when a later week exists and `new DateTime` cannot read the LMP text. Otherwise the visit is the LMP's day + 7 × week days exactly. |
| AncSchedule.WorkedExampleVisit | backend/cron/send_reminders.php:213-216 | LMP on 1 January in week 6 gives the visit on 26 February, in every year 1..9999. |
| AncSchedule.LeapYearVisit | backend/cron/send_reminders.php:213-216 | LMP on 20 December in week 10 gives 13 March after a leap day and 14 March otherwise: the day count crosses February exactly. |
| Calendar.ToOrdinal | backend/cron/send_reminders.php:213-215 | A valid date's day number lies inside its year and inside its month: no fewer than the days before its month, fewer than the days before the next. |
| Calendar.FromOrdinal | backend/cron/send_reminders.php:186 | Every day number is the number of a valid date. |
| Calendar.OrdinalInjective | backend/cron/send_reminders.php:215 | Distinct valid dates have distinct day numbers. |
| Calendar.FromToOrdinal | backend/cron/send_reminders.php:213-216 | Converting a date to its day number and back gives the same date. |
| Calendar.AddDays | backend/cron/send_reminders.php:215 | Adding k days moves the day number by exactly k. |
| Calendar.NextDayInMonth | backend/cron/send_reminders.php:215 | Inside a month, the next day of the month has the next day number, and adding one day gives it. |
| Calendar.NextDayAcrossMonthEnd | backend/cron/send_reminders.php:215 | The day after a month's last day is the first of the next month, or 1 January of the next year. |
| Calendar.IsoText | backend/cron/send_reminders.php:216 | `format('Y-m-d')` is ten characters with dashes at positions 4 and 7. |
| Calendar.ParseIso | backend/cron/send_reminders.php:213 | A `YYYY-MM-DD` text reads as its three numbers: a four-digit year, a month of at most 12 and a day of at most 31. |
| Calendar.ParseIsoText | backend/cron/send_reminders.php:213-216 | Three numbers in those ranges written as `Y-m-d` read back as themselves, so every date PHP writes reads back. |
| Calendar.Settle | backend/cron/send_reminders.php:213 | For the numbers of a real date, the day `new DateTime` settles on is that date's day number. |
| Calendar.ParseDay | backend/cron/send_reminders.php:213 | A text that is not `YYYY-MM-DD` gives no day. The text of a real date gives that date's day number. |
| Calendar.SettleRunsIntoNextMonth | backend/cron/send_reminders.php:213 | A day past the end of its month is that many days into the next month. |
| Calendar.SettleDayZero | backend/cron/send_reminders.php:213 | Day 00 is the last day of the month before. |
| Calendar.NewYearsEve | backend/cron/send_reminders.php:213 | The day before 1 January is 31 December of the year before. |
| Calendar.MonthEve | backend/cron/send_reminders.php:213 | The day before the first of a month is the last day of the month before. |
| Calendar.SettleMonthZero | backend/cron/send_reminders.php:213 | Month 00 is December of the year before. |
| Calendar.FebruaryThirtiethRollsOver | backend/cron/send_reminders.php:213 | `Y-02-30` is 1 March in a leap year and 2 March otherwise. |
| ReminderDispatch.DueAmong | backend/cron/send_reminders.php:14-26 | A row is returned exactly when it is dated today, unsent, and its pregnancy and that pregnancy's user are active. |
| ReminderDispatch.DueReminders | backend/cron/send_reminders.php:14-26 | The due query returns exactly the table's rows that meet the WHERE clause and the joins. |
| ReminderDispatch.OverdueNeverDue | backend/cron/send_reminders.php:19 | A reminder dated before today is never due again. |
| ReminderDispatch.Deliver | backend/cron/send_reminders.php:32-63 | E-mail is tried iff `send_via` is email or both. SMS is tried iff it is sms or both and e-mail did not raise. The verdict is an error iff a called sender raised, and sent iff no error and some called sender delivered. Any other `send_via` fails. |
| ReminderDispatch.SentCount | backend/cron/send_reminders.php:48-51 | The sent count never exceeds the number of reminders processed. |
| ReminderDispatch.SentIds | backend/cron/send_reminders.php:48-50 | An id is marked sent exactly when some processed reminder with that id was delivered. |
| ReminderDispatch.MarkIdSent | backend/cron/send_reminders.php:49-50 | The update sets `is_sent` and `sent_at` on every row with the id and leaves all other rows as they were. |
| ReminderDispatch.Dispatched | backend/cron/send_reminders.php:31-64 | Dispatch changes only the reminders table and keeps its length. |
| ReminderDispatch.DispatchDue | backend/cron/send_reminders.php:28-64 | Each due reminder is processed once: sent + failed = processed, sent equals the number of delivered reminders, and the table ends with exactly the delivered ids marked sent. |
| ReminderDispatch.SentRowsUnchanged | backend/cron/send_reminders.php:20 | A row already marked sent is never touched by dispatch (ids unique). |
| ReminderDispatch.RerunSameDayRetriesFailures | backend/cron/send_reminders.php:14-50 | Re-running dispatch the same day processes exactly the due reminders that were not delivered the first time. |
| ReminderDispatch.DispatchKeepsStampsConsistent | backend/cron/send_reminders.php:49 | After dispatch every sent row has a `sent_at` no earlier than its creation. |
| ReminderDispatch.ThreeReminderBatch | backend/cron/send_reminders.php:31-58 | Both channels delivering, e-mail-only failing, and e-mail failing with SMS delivering give two sent reminders. |
| ReminderGeneration.SelectAmong | backend/cron/send_reminders.php:164-179 | A pregnancy is selected exactly when it is active, its user is active, it is before week 40 and it has no `anc_visit` reminder dated after today. Unique ids stay unique. |
| ReminderGeneration.Selected | backend/cron/send_reminders.php:164-179 | The query result is exactly the table's pregnancies meeting the WHERE clause. |
| ReminderGeneration.CronPlannerValid | backend/cron/send_reminders.php:176-184 | The code's date computation gives up only from week 40 on, and every visit it gives lies at least two days after day 0, so the reminder date two days earlier exists. |
| ReminderGeneration.AncReminder | backend/cron/send_reminders.php:186-200 | The inserted row is an unsent `anc_visit` reminder of the pregnancy, dated two days before the visit, with the given title and message. |
| ReminderGeneration.GenerateFor | backend/cron/send_reminders.php:181-202 | Only the reminders and their id counter change. Existing rows are kept, at most one row is added per pregnancy, and the new rows are unsent `anc_visit` reminders with consecutive ids. |
| ReminderGeneration.ScheduledPrefix | backend/cron/send_reminders.php:181-184 | Counts the leading pregnancies that get a visit date; the next one, if any, does not. |
| ReminderGeneration.GenerateForRow | backend/cron/send_reminders.php:181-200 | The j-th added row is the reminder of the j-th selected pregnancy, with the j-th id, while every pregnancy up to it gets a date. |
| ReminderGeneration.GenerateForOutcome | backend/cron/send_reminders.php:181-213 | The loop inserts one row per pregnancy up to the first one without a date. It completes iff every pregnancy gets a date, and otherwise aborts at that pregnancy. |
| ReminderGeneration.GenerateForRows | backend/cron/send_reminders.php:181-200 | The added rows, in order, are exactly the planned reminders of the leading pregnancies that get a date. |
| ReminderGeneration.GenerateForKeys | backend/cron/send_reminders.php:186-199 | Each added row carries its pregnancy's id and the date two days before that pregnancy's visit. |
| ReminderGeneration.GenerateUpcomingRows | backend/cron/send_reminders.php:161-221 | For the cron job: pregnancies up to the first unreadable LMP each get a reminder whose date + 2 is `calculateNextANCDate`'s visit. An unreadable LMP aborts the run at that pregnancy. |
| ReminderGeneration.WorkedExampleReminder | backend/cron/send_reminders.php:186-188 | LMP on 1 January in week 6 gives a reminder dated 24 February and titled "ANC Visit Reminder - Week 6". |
| ReminderGeneration.AddedRowsFor | backend/cron/send_reminders.php:170-200 | After a completed run, a pregnancy has a future reminder among the added rows exactly when its new reminder is dated after today. |
| ReminderGeneration.SecondRunSelectionFor | backend/cron/send_reminders.php:164-200 | After a completed run, a second run the same day selects a pregnancy exactly when the first run selected it and its new reminder is dated today or earlier. |
| ReminderGeneration.SecondRunSelection | backend/cron/send_reminders.php:164-200 | The same statement for the cron job's own date computation. |
| ReminderGeneration.AddedFutureAnc | backend/cron/send_reminders.php:170-199 | Every added row belongs to a selected pregnancy. An added future reminder belongs to a pregnancy that had no future reminder before. |
| ReminderGeneration.GenerateKeepsAtMostOneFutureAncFor | backend/cron/send_reminders.php:170-200 | If a pregnancy had at most one future `anc_visit` reminder, it still has at most one after generation, whether the run completes or aborts. |
| ReminderGeneration.GenerateKeepsAtMostOneFutureAnc | backend/cron/send_reminders.php:170-200 | The same statement for the cron job. |
| ReminderJob.RunJob | backend/cron/send_reminders.php:12-78 | The run dispatches, then generates. The summary is printed iff generation completes, and it reports processed = due count, sent + failed = processed, and sent = delivered count. |
| ReminderJob.RunKeepsDispatch | backend/cron/send_reminders.php:31-67 | Rows that existed before the run end as dispatch left them. Every row the run adds is an unsent `anc_visit` reminder. |
| ReminderJob.DispatchKeepsSelection | backend/cron/send_reminders.php:49-177 | Dispatch does not change which pregnancies generation selects. |
| ReminderJob.AddedRowOwner | backend/cron/send_reminders.php:181-200 | Every row the loop adds belongs to the selected pregnancy in the matching position. |
| ReminderJob.AddedRowDue | backend/cron/send_reminders.php:14-200 | A row generation adds belongs to an active pregnancy of an active user, so if it is dated today it is due. |
| ReminderJob.SameDayRerunSendsLateReminder | backend/cron/send_reminders.php:14-200 | A reminder the run creates dated today is among the due reminders of a second run on the same day. |
| PatientDashboard.TrimesterMilestones | frontend/dashboards/patient_dashboard.php:64-77 | Ten milestones with weeks 4, 8, …, 40 and the fixed titles; each is completed iff the current week has reached its week. |
| PatientDashboard.MilestonesOrdered | frontend/dashboards/patient_dashboard.php:65-76 | The weeks strictly ascend, and the completed milestones form a prefix. |
| PatientDashboard.CompletedPrefixCount | frontend/dashboards/patient_dashboard.php:65-76 | Among the first k milestones, min(k, max(0, week div 4)) are completed. |
| PatientDashboard.CompletedMilestones | frontend/dashboards/patient_dashboard.php:65-76 | The completed count is min(10, max(0, week div 4)). |
| PatientDashboard.TimelineNeverCurrent | frontend/dashboards/patient_dashboard.php:233-243 | Each milestone is labelled Completed if its week is reached and Upcoming otherwise; never Current. |
| PatientDashboard.DaysUntilEdd | frontend/dashboards/patient_dashboard.php:47-56 | The countdown is 0 once the due date's midnight has passed, and otherwise the whole days of the remaining interval, measured to the microsecond as `new DateTime()` and `diff()` (PHP 8.1+) measure it. |
| PatientDashboard.JustPastMidnight | frontend/dashboards/patient_dashboard.php:51-56 | At 00:00:00.3, two days before the due date, the countdown is 1: the fraction of a second past midnight already costs a day. |
| PatientDashboard.DaysUntilEddInDays | frontend/dashboards/patient_dashboard.php:55-56 | In calendar days: the days from today to the due date, one fewer once today's midnight is behind, never below 0. |
| PatientDashboard.DaysUntilEddMonotone | frontend/dashboards/patient_dashboard.php:55-56 | The countdown never grows as time passes. |
| Requests.Coalesce | backend/api/visits.php:216-231 | `??` yields the request's value when it is set and the default otherwise. |
| Requests.AsId | backend/api/visits.php:183 | A non-negative integer binds to that id; null and arrays bind to no row. |
| Requests.AsIdOfPaddedText | backend/api/visits.php:183 | A digit string with leading zeros selects its value ("007" is 7), and "-0" selects 0, as MySQL compares them. |
| Requests.AsIdOfDecimalText | backend/api/visits.php:183 | A decimal id sent as text selects the same row as the number. |
| Visits.FirstMissing | backend/api/visits.php:172-179 | The reported field is required and empty, and every field before it is present. None means every required field is present. |
| Visits.FirstMissingAt | backend/api/visits.php:172-179 | The first empty field in order is the one reported, whatever follows it. |
| Visits.InsertedColumns | backend/api/visits.php:212-232 | A new visit has every column: the request's value where set, otherwise `'routine'` for `visit_type`, `'nil'` for `protein_urine`, and null elsewhere. |
| Visits.ActivePregnancy | backend/api/visits.php:182-184 | The row found is active and has the bound id. None is found exactly when no active row has that id. |
| Visits.CreateVisit | backend/api/visits.php:161-245 | 403 for roles other than `doctor_asha`/`admin`; 400 naming the first missing field; 404 without an active pregnancy; 403 for a doctor not assigned to it. Success iff none of these applies. The appended visit records the caller as doctor, and nothing changes on failure. |
| Visits.WeekZeroRejected | backend/api/visits.php:172-179 | A create with gestational week 0 or "0" is rejected with "Missing required field: gestational_week". |
| Visits.AllowedFieldsComplete | backend/api/visits.php:284-290 | The allowed-field list names every updatable column exactly once, and each column's rank is its position. |
| Visits.KeysNotUpdatable | backend/api/visits.php:284-290 | `pregnancy_id`, `doctor_id` and `visit_id` are not updatable columns. |
| Visits.RequestedFrom | backend/api/visits.php:292-297 | From position k on, the loop collects exactly the allowed columns the request sets, in list order. |
| Visits.PlanUpdate | backend/api/visits.php:281-305 | The SET list is exactly the allowed fields set in the request, in list order, each bound to its value, with `visit_id` as the last parameter. |
| Visits.ApplyUpdate | backend/api/visits.php:307-308 | The update writes each listed column's parameter, keeps every other column, and keeps the id and both keys. |
| Visits.UpdateRows | backend/api/visits.php:307-308 | The UPDATE changes exactly the rows with the visit's id. |
| Visits.VisitById | backend/api/visits.php:264-266 | The visit found is in the table and has the bound id. None is found exactly when no row has that id. |
| Visits.UpdateVisit | backend/api/visits.php:247-311 | 403 for other roles; 400 without `visit_id`; 404 for an unknown visit; 403 for another doctor's visit; 400 "No fields to update" when no allowed field is set. Success iff none of these applies; otherwise nothing changes. Only the visits table changes, and it keeps its length. |
| Visits.UpdateWritesRequestedFields | backend/api/visits.php:281-308 | An accepted update writes the request's value into every field it sets on the selected visit, and leaves that visit's other fields, its keys and every other visit alone. |
| Visits.DeleteVisit | backend/api/visits.php:313-351 | 403 for other roles; 400 without `visit_id`; 404 for an unknown visit; 403 for another doctor's visit. Success iff none of these applies, and then exactly the rows with that id disappear; otherwise nothing changes. |
| Visits.RemoveId | backend/api/visits.php:347-348 | The DELETE keeps exactly the rows with another id. |
| Visits.WritesNeedDoctorOrAdmin | backend/api/visits.php:161-319 | Create, update and delete all answer 403 and change nothing for any role except `doctor_asha` and `admin`. |
| Visits.GetVisits | backend/api/visits.php:44-159 | With a `visit_id`, one visit is returned exactly when it exists, is fully joined and the caller may view it. A returned visit is viewable, and a refusal is a 403 or 404. |
| Visits.ListedVisitsViewable | backend/api/visits.php:82-154 | Every visit the listings return passes the single-visit permission check. |
| Visits.ViewableVisitsListed | backend/api/visits.php:82-154 | Conversely, every fully joined visit the caller may read on its own is in the listing by role and in the listing of its pregnancy. |
| ResolveAlert.AlertIdOf | backend/api/resolve_alert.php:20-25 | An unset or non-numeric `alert_id` is invalid. An integer is taken as is, and a numeric string is cast with `(int)`. |
| ResolveAlert.DecimalAlertIdAccepted | backend/api/resolve_alert.php:20-25 | An id written in decimal is accepted and read back as that id. |
| ResolveAlert.FractionalAlertIdCut | backend/api/resolve_alert.php:20-25 | An id with a fractional part, such as `"12.5"`, is numeric and is cut to its whole part. |
| ResolveAlert.ResolveRows | backend/api/resolve_alert.php:54-57 | Exactly the rows with the id become resolved, with the time and resolver; every other row is unchanged. |
| ResolveAlert.JoinedAlert | backend/api/resolve_alert.php:33-38 | The join finds the alert with the id and the pregnancy it belongs to whenever both exist. |
| ResolveAlert.Resolve | backend/api/resolve_alert.php:9-60 | 403 "Access denied" unless the caller is a logged-in doctor or admin; "Invalid alert ID" and "Alert not found" otherwise. Success iff the caller is admin or the assigned doctor, and then exactly that alert is marked resolved by the caller; nothing changes on failure. |
| ResolveAlert.ReResolveOverwrites | backend/api/resolve_alert.php:53-57 | Resolving an already resolved alert succeeds again and replaces the resolver and time. |
| ResolveAlert.ResolveIdempotent | backend/api/resolve_alert.php:53-57 | Resolving twice by the same admin at the same instant leaves the table as resolving once. |
| Registration.MissingAmong | register.php:11-18 | A field is listed exactly when it is required and empty (absent, "" or "0"). |
| Registration.MissingAmongAppend | register.php:14-18 | Collecting over two lists in turn gives the two collections in turn; with the one-field case this fixes the list entry by entry and in declared order. |
| Registration.MissingAmongSingle | register.php:14-17 | One field is listed exactly when it is empty. |
| Registration.NothingFilledListsAll | register.php:11-18 | A form with none of the required fields lists all seven in declared order. |
| Registration.AllBlankListsAll | register.php:14-18 | When every field is empty, all of them are listed. |
| Registration.NoneBlankListsNone | register.php:14-18 | When no field is empty, none is listed. |
| Registration.Normalize | register.php:23-35 | The role is always `pregnant_woman`. Password and LMP pass unchanged and the age is `(int)`-cast. Every other text field is its input with surrounding whitespace removed, and no longer starts or ends with whitespace. |
| Registration.NormalizeIdempotent | register.php:23-35 | Typing a normalised record back in yields the same record. |
| Registration.RoleIgnoresForm | register.php:27 | The `user_role` field of the form has no effect on the record. |
| Registration.Submit | register.php:7-45 | An empty POST does nothing. Missing fields give the error listing them comma-joined, without calling `register`. Otherwise `register` gets the normalised record; success sets the success message, and failure sets the error to the result's message. |
| Registration.ZeroAgeIsMissing | register.php:15 | An age of "0" is reported missing and nobody is registered. |
| Registration.WordAgeRegistersZero | register.php:30 | An age that starts with neither a digit, a sign, a point nor white space passes the check and registers as 0. |
| Registration.ExponentAgeRegistered | register.php:30 | An age written `me k` registers as m × 10^k. |
| Text.Trim | register.php:24 | `trim` removes only surrounding whitespace, and its result neither starts nor ends with it. |
| Text.TrimKeepsClean | register.php:24 | Trimming an already trimmed text changes nothing. |
| Text.ReadNumeral | register.php:30 | A numeral read is non-empty, lies inside the text, has only digits in its whole part and fraction, and ends before any further digit. |
| Text.NoNumeral | register.php:30 | No numeral starts a text exactly when, after an optional sign, it starts with neither a digit nor a point followed by a digit. |
| Text.Mantissa | register.php:30 | The digits around an optional point are found exactly when the text starts with a digit or with a point and a digit; they are digits, and the mantissa ends before any further digit. |
| Text.ReadSignedDecimal | register.php:30 | An integer as PHP prints it is read as one numeral with no fraction or exponent. |
| Text.IntCastReadsSignedDecimal | register.php:30 | `(int)` reads back every integer PHP prints. |
| Text.ReadDecimalFraction | backend/api/resolve_alert.php:20-25 | Digits, a point and digits are read as one numeral with that whole part and fraction. |
| Text.IntCastCutsFraction | backend/api/resolve_alert.php:25 | `(int)` of `m.f` is m: the fraction is cut off. |
| Text.ReadDigitsExponent | register.php:30 | Digits, an `e` and digits are read as one numeral whose exponent is the second run of digits. |
| Text.IntCastDigitsExponent | register.php:30 | `(int)` of digits, `e` and digits is the first value times ten to the second. |
| Text.IntCastReadsExponent | register.php:30 | `(int)` of `me k` is m × 10^k. |
| Text.DigitsValueAppend | register.php:30 | The digits of a followed by those of b denote a times ten to the power of the length of b, plus b. |
| Text.DecimalRoundTrip | backend/cron/send_reminders.php:188 | The decimal digits PHP prints for a number denote that number. |
| Text.SignedDecimalRoundTrip | backend/api/visits.php:183 | A printed integer parses back as that integer. |
| Text.Join | register.php:21 | `implode` of a single entry is that entry. |

## Left out

- The e-mail and SMS senders (`sendEmailReminder`, `sendSMSReminder`) and the HTML/SMS text they compose: abstracted as the `senders` parameter.
- `logActivity`, every `echo` and its formatting, and `set_time_limit`: output and plumbing with no effect on the data.
- SQL `ORDER BY` (`r.reminder_time`, `v.visit_date DESC`): rows are taken in table order. Contents and counts do not depend on the order.
- Transactions, rollback, PDO exceptions and the 500 replies of the outer `catch`: a failed request is modelled as leaving the database unchanged.
- Primary keys are assumed unique where a lemma needs it (stated as a precondition). The auto-increment counters are fields of `Db`.
- The column default of `reminders.send_via`: the schema is not part of this model, so it is the field `Db.reminderSendViaDefault`.
- `backend/auth/auth.php`:
  - sessions, password hashing and redirects;
  - the caller and session are inputs, and `Auth::register` is a parameter.
- `index.php`, `admin_dashboard.php`, `doctor_dashboard.php`, and the setup and debug scripts: no logic of the modelled core.
- `progressPercent` in the patient dashboard: floating point.
- The database trigger that creates risk alerts on visit insert: it is not part of this model.
- Time zones and daylight saving: days have 86400 seconds.
- `ReminderDispatch.DispatchDue`: stamps every sent row with the same `now`. In PHP each `UPDATE` reads its own `NOW()`, so later rows of a run may carry later times.
- `Calendar.ParseIso`: accepts only `YYYY-MM-DD`. PHP's `DateTime` also accepts many other formats, which the model treats as unreadable.
- `Calendar.ParseDay`: gives no day before 0001-01-01. PHP reads `0000-00-00` as 30 November of year -1.
- Dates outside years 1-9999: not modelled.
- `PatientDashboard.DaysUntilEdd`: takes the due date as a day, so parsing `edd_date` is not modelled.
- `Text.IntCast`: exact and unbounded. PHP reads a numeral with a fraction or exponent as a double, which rounds beyond about 15 significant digits, and a value beyond the 64-bit integer range does not cast to itself.
- `Requests.AsId`: binds only non-negative integers, booleans (as 1 and 0) and strings of decimal digits, leading zeros included, with `"-0"` binding 0. MySQL's lenient string-to-number comparison (`'12abc'` matching 12, `' 5'` matching 5) is not modelled.
- JSON floats are not a `Requests.Value`. Arrays are kept only as their size, which is all `empty` reads.
- Form fields submitted as arrays (`name[]=`) are not modelled: every form field is text.
- `Visits.UpdateVisit`: its ensures state the gates, the outcome and the table shape. The per-row effect is stated by `Visits.UpdateWritesRequestedFields`.
- `ReminderDispatch.SentCount`: its ensures only bound the count. `ReminderDispatch.DispatchDue` and `ReminderJob.RunJob` state that the counter equals it.
- `Text.Join`: its ensures cover only the single-entry case. The full message is stated through `Registration.Submit`.
