/** The cron job as a whole (backend/cron/send_reminders.php, lines 12-78):
    dispatch today's reminders, then generate upcoming ones, then print a
    summary. An exception from the generation step reaches the outer
    `catch`, so no summary is printed, while every update and insert made
    before it stays. */
module ReminderJob {
  import opened Wrappers
  import opened Calendar
  import opened AncSchedule
  import opened Database
  import opened ReminderDispatch
  import opened ReminderGeneration

  /** The three counts the job prints. */
  datatype Summary = Summary(sent: nat, failed: nat, processed: nat)

  /** The database after the run, and the summary if one is printed. */
  datatype JobRun = JobRun(db: Db, summary: Option<Summary>)

  /** One run of the job on `today` at instant `now`. */
  method RunJob(db: Db, today: Day, now: nat, senders: Reminder -> Attempt) returns (run: JobRun)
    ensures var g := GenerateUpcoming(Dispatched(db, today, now, senders), today, now);
            && run.db == g.db
            && (run.summary.Some? <==> g.Completed?)
    ensures run.summary.Some? ==>
              && run.summary.value.processed == |DueReminders(db, today)|
              && run.summary.value.sent + run.summary.value.failed == run.summary.value.processed
              && run.summary.value.sent == SentCount(DueReminders(db, today), senders)
  {
    var db1, sent, failed := DispatchDue(db, today, now, senders);
    var g := GenerateUpcoming(db1, today, now);
    if g.Completed? {
      run := JobRun(g.db, Some(Summary(sent, failed, |DueReminders(db, today)|)));
    } else {
      run := JobRun(g.db, None);
    }
  }

  /** Whatever the generation step does, the rows that existed before the
      run end exactly as the dispatch loop left them, and every row the run
      adds is an unsent `anc_visit` reminder. */
  lemma RunKeepsDispatch(db: Db, today: Day, now: nat, senders: Reminder -> Attempt)
    ensures var d := Dispatched(db, today, now, senders);
            var rows := GenerateUpcoming(d, today, now).db.reminders;
            && |rows| >= |db.reminders|
            && (forall k :: 0 <= k < |db.reminders| ==> rows[k] == d.reminders[k])
            && (forall k :: |db.reminders| <= k < |rows| ==> !rows[k].isSent && rows[k].kind == AncVisit)
  {
    var d := Dispatched(db, today, now, senders);
    CronPlannerValid();
    assert d.reminders <= GenerateUpcoming(d, today, now).db.reminders;
  }

  /** The dispatch step changes only `is_sent` and `sent_at`, which the
      generation query does not read: it selects the same pregnancies it
      would have selected before dispatch. */
  lemma DispatchKeepsSelection(db: Db, today: Day, now: nat, senders: Reminder -> Attempt)
    ensures Selected(Dispatched(db, today, now, senders), today) == Selected(db, today)
  {
    var d := Dispatched(db, today, now, senders);
    forall p | true
      ensures NeedsReminder(d, p, today) == NeedsReminder(db, p, today)
    {
      if HasFutureAnc(db.reminders, p.id, today) {
        var k :| 0 <= k < |db.reminders| && FutureAncFor(db.reminders[k], p.id, today);
        assert FutureAncFor(d.reminders[k], p.id, today);
      }
      if HasFutureAnc(d.reminders, p.id, today) {
        var k :| 0 <= k < |d.reminders| && FutureAncFor(d.reminders[k], p.id, today);
        assert FutureAncFor(db.reminders[k], p.id, today);
      }
    }
    SelectAmongSameNeeds(db, d, db.pregnancies, today);
  }

  /** Two states that agree on which pregnancies need a reminder select the
      same ones. */
  lemma {:induction false} SelectAmongSameNeeds(db: Db, db': Db, ps: seq<Pregnancy>, today: Day)
    requires forall p :: NeedsReminder(db', p, today) == NeedsReminder(db, p, today)
    ensures SelectAmong(db', ps, today) == SelectAmong(db, ps, today)
  {
    if |ps| > 0 {
      SelectAmongSameNeeds(db, db', ps[1..], today);
    }
  }

  /** A reminder the run creates dated today is inserted after today's
      dispatch, but it is due: a second run on the same day sends it. (One
      dated before today is never due again, `OverdueNeverDue`.) */
  lemma SameDayRerunSendsLateReminder(db: Db, today: Day, now: nat, senders: Reminder -> Attempt, k: nat)
    requires PregnancyIdsUnique(db.pregnancies)
    requires var rows := GenerateUpcoming(Dispatched(db, today, now, senders), today, now).db.reminders;
             |db.reminders| <= k < |rows| && rows[k].date == today
    ensures var after := GenerateUpcoming(Dispatched(db, today, now, senders), today, now).db;
            after.reminders[k] in DueReminders(after, today)
  {
    var d := Dispatched(db, today, now, senders);
    CronPlannerValid();
    AddedRowDue(d, today, CronPlanner(), now, k);
  }

  /** Every row the generation loop adds belongs to a selected pregnancy,
      which is active with an active user; so a row dated today is due. */
  lemma AddedRowDue(d: Db, today: Day, plan: Planner, now: nat, k: nat)
    requires ValidPlanner(plan) && PregnancyIdsUnique(d.pregnancies)
    requires var rows := GenerateFor(d, Selected(d, today), plan, now).db.reminders;
             |d.reminders| <= k < |rows| && rows[k].date == today
    ensures var after := GenerateFor(d, Selected(d, today), plan, now).db;
            IsDue(after, after.reminders[k], today)
  {
    var sel := Selected(d, today);
    var after := GenerateFor(d, sel, plan, now).db;
    AddedRowOwner(d, sel, plan, now, k);
    var p := sel[k - |d.reminders|];
    assert p in d.pregnancies && NeedsReminder(d, p, today);
    assert after.pregnancies == d.pregnancies && after.users == d.users;
    FindUniquePregnancy(after, p);
  }

  /** The `k`-th row of the table after the loop, if the loop added it,
      belongs to the pregnancy in the matching position of `sel`. */
  lemma AddedRowOwner(db: Db, sel: seq<Pregnancy>, plan: Planner, now: nat, k: nat)
    requires ValidPlanner(plan)
    requires forall j :: 0 <= j < |sel| ==> sel[j].currentWeek < FinalWeek
    requires |db.reminders| <= k < |GenerateFor(db, sel, plan, now).db.reminders|
    ensures k - |db.reminders| < |sel|
    ensures GenerateFor(db, sel, plan, now).db.reminders[k].pregnancyId == sel[k - |db.reminders|].id
  {
    GenerateForKeys(db, sel, plan, now);
  }

  /** With unique ids, looking a pregnancy up by its own id finds it. */
  lemma FindUniquePregnancy(db: Db, p: Pregnancy)
    requires PregnancyIdsUnique(db.pregnancies) && p in db.pregnancies
    ensures FindPregnancy(db, p.id) == Some(p)
  {
    var i := IndexOf(db.pregnancies, (q: Pregnancy) => q.id, p.id);
    var j :| 0 <= j < |db.pregnancies| && db.pregnancies[j] == p;
    assert i.Some? && db.pregnancies[i.value].id == p.id;
    assert i.value == j;
  }
}
