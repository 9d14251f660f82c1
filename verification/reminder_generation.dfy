/** `generateUpcomingReminders` (backend/cron/send_reminders.php,
    lines 161-203): one `anc_visit` reminder, two days before the next
    scheduled checkup, for every active pregnancy that has none dated after
    today. */
module ReminderGeneration {
  import opened Wrappers
  import opened Text
  import opened Calendar
  import opened AncSchedule
  import opened Database

  /** Days between the reminder and the visit it announces. */
  const LeadDays: nat := 2

  const TitlePrefix: string := "ANC Visit Reminder - Week "

  /** An `anc_visit` reminder of pregnancy `pid` dated after `today`. */
  predicate FutureAncFor(r: Reminder, pid: nat, today: Day) {
    r.pregnancyId == pid && r.kind == AncVisit && r.date > today
  }

  /** The `NOT IN (SELECT ... WHERE reminder_date > CURDATE() AND
      reminder_type = 'anc_visit')` sub-query holds `pid`. Whether the
      reminder was sent does not matter. */
  predicate HasFutureAnc(rows: seq<Reminder>, pid: nat, today: Day) {
    exists k :: 0 <= k < |rows| && FutureAncFor(rows[k], pid, today)
  }

  /** The WHERE clause of the pregnancy query (lines 164-177). */
  predicate NeedsReminder(db: Db, p: Pregnancy, today: Day) {
    && p.isActive
    && UserActive(db, p.userId)
    && !HasFutureAnc(db.reminders, p.id, today)
    && p.currentWeek < FinalWeek
  }

  function SelectAmong(db: Db, ps: seq<Pregnancy>, today: Day): (sel: seq<Pregnancy>)
    ensures forall p :: p in sel <==> p in ps && NeedsReminder(db, p, today)
    ensures PregnancyIdsUnique(ps) ==> PregnancyIdsUnique(sel)
  {
    if |ps| == 0 then []
    else
      var rest := SelectAmong(db, ps[1..], today);
      assert PregnancyIdsUnique(ps) ==> forall q :: q in rest ==> q.id != ps[0].id;
      (if NeedsReminder(db, ps[0], today) then [ps[0]] else []) + rest
  }

  /** The pregnancies the query returns, in table order. It is evaluated
      once, before any insert. */
  function Selected(db: Db, today: Day): (sel: seq<Pregnancy>)
    ensures forall p :: p in sel <==> p in db.pregnancies && NeedsReminder(db, p, today)
    ensures forall j :: 0 <= j < |sel| ==> NeedsReminder(db, sel[j], today)
    ensures PregnancyIdsUnique(db.pregnancies) ==> PregnancyIdsUnique(sel)
  {
    SelectAmong(db, db.pregnancies, today)
  }

  /** What the loop learns about one pregnancy from the date computation,
      and the texts it writes: the title for a week and the message for a
      visit day. The loop is stated for any planner; the cron job uses
      `CronPlanner`. */
  datatype Planner = Planner(next: Pregnancy -> NextVisit, title: int -> string, describe: Day -> string)

  /** `calculateNextANCDate($pregnancy['current_week'], $pregnancy['lmp_date'])`. */
  function NextVisitOf(p: Pregnancy): NextVisit {
    NextAncDate(p.currentWeek, p.lmpDate)
  }

  /** The title of line 188, with the week as PHP prints an integer. */
  function WeekTitle(week: int): string {
    TitlePrefix + SignedDecimal(week)
  }

  /** `date('M j, Y', ...)` of the visit inside the fixed message text. */
  function VisitMessage(visit: Day): string {
    "Your next ANC visit is recommended for " + LongText(FromOrdinal(visit))
      + ". Please schedule your appointment with your healthcare provider."
  }

  /** The date computation, the title and the message of lines 182-189. */
  function CronPlanner(): Planner {
    Planner(NextVisitOf, WeekTitle, VisitMessage)
  }

  /** What the loop relies on from the date computation: it gives up only
      from week 40 on, and every visit lies far enough from day 0 for the
      reminder two days earlier to be a day. */
  ghost predicate ValidPlanner(plan: Planner) {
    forall p :: && (plan.next(p).NoFurtherVisit? <==> p.currentWeek >= FinalWeek)
                && (plan.next(p).VisitOn? ==> plan.next(p).day >= LeadDays)
  }

  lemma CronPlannerValid()
    ensures ValidPlanner(CronPlanner())
  {
  }

  /** The row inserted for pregnancy `p` whose next visit is on `visit`
      (lines 186-200), given the insert's id, the column default of
      `send_via` and the creation instant. */
  function AncReminder(p: Pregnancy, visit: Day, title: string, message: string, id: nat, via: SendVia, now: nat): (r: Reminder)
    requires visit >= LeadDays
    ensures r.id == id && r.pregnancyId == p.id && r.kind == AncVisit
    ensures r.date + LeadDays == visit
    ensures r.title == title && r.message == message
    ensures !r.isSent && r.sentAt.None? && r.createdAt == now && r.sendVia == via
  {
    Reminder(id, p.id, AncVisit, title, message, visit - LeadDays, via, false, None, now)
  }

  /** The row for pregnancy `p` when the planner gives it a visit date. */
  function PlannedRow(plan: Planner, p: Pregnancy, id: nat, via: SendVia, now: nat): Reminder
    requires ValidPlanner(plan) && plan.next(p).VisitOn?
  {
    var visit := plan.next(p).day;
    AncReminder(p, visit, plan.title(p.currentWeek), plan.describe(visit), id, via, now)
  }

  /** `INSERT INTO reminders`: appended with the next auto-increment id. */
  function Insert(db: Db, r: Reminder): Db {
    db.(reminders := db.reminders + [r], nextReminderId := db.nextReminderId + 1)
  }

  /** Either the loop ran to the end, or `new DateTime` raised for the
      given pregnancy: the exception leaves the function, so later
      pregnancies get nothing, while rows already inserted stay. */
  datatype Generation = Completed(db: Db) | Aborted(db: Db, pregnancyId: nat)

  /** The `foreach` over the selected pregnancies (lines 181-202), with the
      date computation as a parameter. Only the reminder table and its id
      counter change, existing rows are kept, and every new row is an
      unsent `anc_visit` reminder with consecutive ids. */
  function GenerateFor(db: Db, sel: seq<Pregnancy>, plan: Planner, now: nat): (g: Generation)
    requires ValidPlanner(plan)
    ensures g.db == db.(reminders := g.db.reminders, nextReminderId := g.db.nextReminderId)
    ensures db.reminders <= g.db.reminders
    ensures |g.db.reminders| - |db.reminders| == g.db.nextReminderId - db.nextReminderId <= |sel|
    ensures forall k :: |db.reminders| <= k < |g.db.reminders| ==>
              && g.db.reminders[k].kind == AncVisit
              && !g.db.reminders[k].isSent
              && g.db.reminders[k].id == db.nextReminderId + (k - |db.reminders|)
    decreases |sel|
  {
    if |sel| == 0 then Completed(db)
    else match plan.next(sel[0])
      case UnparseableLmp => Aborted(db, sel[0].id)
      case NoFurtherVisit => GenerateFor(db, sel[1..], plan, now)
      case VisitOn(visit) =>
        var r := PlannedRow(plan, sel[0], db.nextReminderId, db.reminderSendViaDefault, now);
        GenerateFor(Insert(db, r), sel[1..], plan, now)
  }

  /** `generateUpcomingReminders($db)` run on `today` at instant `now`. */
  function GenerateUpcoming(db: Db, today: Day, now: nat): Generation {
    CronPlannerValid();
    GenerateFor(db, Selected(db, today), CronPlanner(), now)
  }

  /** How many leading pregnancies of `sel` get a visit date. */
  function ScheduledPrefix(sel: seq<Pregnancy>, plan: Planner): (n: nat)
    ensures n <= |sel|
    ensures forall j :: 0 <= j < n ==> plan.next(sel[j]).VisitOn?
    ensures n < |sel| ==> !plan.next(sel[n]).VisitOn?
  {
    if |sel| == 0 || !plan.next(sel[0]).VisitOn? then 0 else 1 + ScheduledPrefix(sel[1..], plan)
  }

  /** Row `j` of the inserted block is the reminder of the `j`-th selected
      pregnancy, with the `j`-th id after the counter, as long as that
      pregnancy and every earlier one gets a visit date. */
  lemma {:induction false} GenerateForRow(db: Db, sel: seq<Pregnancy>, plan: Planner, now: nat, j: nat)
    requires ValidPlanner(plan)
    requires j < |sel|
    requires forall i :: 0 <= i <= j ==> plan.next(sel[i]).VisitOn?
    ensures |GenerateFor(db, sel, plan, now).db.reminders| > |db.reminders| + j
    ensures GenerateFor(db, sel, plan, now).db.reminders[|db.reminders| + j]
            == PlannedRow(plan, sel[j], db.nextReminderId + j, db.reminderSendViaDefault, now)
    decreases |sel|, 1
  {
    if j == 0 {
      GenerateForFirstRow(db, sel, plan, now);
    } else {
      GenerateForLaterRow(db, sel, plan, now, j);
    }
  }

  lemma GenerateForFirstRow(db: Db, sel: seq<Pregnancy>, plan: Planner, now: nat)
    requires ValidPlanner(plan)
    requires 0 < |sel| && plan.next(sel[0]).VisitOn?
    ensures |GenerateFor(db, sel, plan, now).db.reminders| > |db.reminders|
    ensures GenerateFor(db, sel, plan, now).db.reminders[|db.reminders|]
            == PlannedRow(plan, sel[0], db.nextReminderId, db.reminderSendViaDefault, now)
  {
    var r := PlannedRow(plan, sel[0], db.nextReminderId, db.reminderSendViaDefault, now);
    var db1 := Insert(db, r);
    GenerateForStep(db, sel, plan, now);
    var rows := GenerateFor(db1, sel[1..], plan, now).db.reminders;
    assert db1.reminders <= rows;
    assert rows[|db.reminders|] == db1.reminders[|db.reminders|] == r;
  }

  lemma {:induction false} GenerateForLaterRow(db: Db, sel: seq<Pregnancy>, plan: Planner, now: nat, j: nat)
    requires ValidPlanner(plan)
    requires 0 < j < |sel|
    requires forall i :: 0 <= i <= j ==> plan.next(sel[i]).VisitOn?
    ensures |GenerateFor(db, sel, plan, now).db.reminders| > |db.reminders| + j
    ensures GenerateFor(db, sel, plan, now).db.reminders[|db.reminders| + j]
            == PlannedRow(plan, sel[j], db.nextReminderId + j, db.reminderSendViaDefault, now)
    decreases |sel|, 0
  {
    var r := PlannedRow(plan, sel[0], db.nextReminderId, db.reminderSendViaDefault, now);
    var db1 := Insert(db, r);
    var tail := sel[1..];
    GenerateForStep(db, sel, plan, now);
    assert forall i :: 0 <= i <= j - 1 ==> tail[i] == sel[i + 1];
    GenerateForRow(db1, tail, plan, now, j - 1);
    assert tail[j - 1] == sel[j];
    assert |db1.reminders| + (j - 1) == |db.reminders| + j;
    assert db1.nextReminderId + (j - 1) == db.nextReminderId + j;
    assert db1.reminderSendViaDefault == db.reminderSendViaDefault;
  }

  /** One turn of the loop on a pregnancy that gets a visit date. */
  lemma GenerateForStep(db: Db, sel: seq<Pregnancy>, plan: Planner, now: nat)
    requires ValidPlanner(plan)
    requires |sel| > 0 && plan.next(sel[0]).VisitOn?
    ensures var r := PlannedRow(plan, sel[0], db.nextReminderId, db.reminderSendViaDefault, now);
            GenerateFor(db, sel, plan, now) == GenerateFor(Insert(db, r), sel[1..], plan, now)
  {
  }

  /** On pregnancies before week 40 the loop inserts one row per pregnancy
      up to the first one without a visit date and stops there; it
      completes exactly when every pregnancy gets a date. */
  lemma {:induction false} GenerateForOutcome(db: Db, sel: seq<Pregnancy>, plan: Planner, now: nat)
    requires ValidPlanner(plan)
    requires forall j :: 0 <= j < |sel| ==> sel[j].currentWeek < FinalWeek
    ensures var g := GenerateFor(db, sel, plan, now);
            var n := ScheduledPrefix(sel, plan);
            && (g.Completed? <==> n == |sel|)
            && (g.Aborted? ==> n < |sel| && g.pregnancyId == sel[n].id)
            && |g.db.reminders| == |db.reminders| + n
    decreases |sel|
  {
    if |sel| > 0 && plan.next(sel[0]).VisitOn? {
      var r := PlannedRow(plan, sel[0], db.nextReminderId, db.reminderSendViaDefault, now);
      GenerateForOutcome(Insert(db, r), sel[1..], plan, now);
    }
  }

  /** The rows a run inserts, in order: the reminder of each leading
      pregnancy that gets a visit date, with consecutive ids. */
  lemma GenerateForRows(db: Db, sel: seq<Pregnancy>, plan: Planner, now: nat)
    requires ValidPlanner(plan)
    requires forall j :: 0 <= j < |sel| ==> sel[j].currentWeek < FinalWeek
    ensures var g := GenerateFor(db, sel, plan, now);
            var n := ScheduledPrefix(sel, plan);
            && (g.Completed? <==> n == |sel|)
            && (g.Aborted? ==> n < |sel| && g.pregnancyId == sel[n].id)
            && |g.db.reminders| == |db.reminders| + n
            && forall j :: 0 <= j < n ==>
                 g.db.reminders[|db.reminders| + j]
                 == PlannedRow(plan, sel[j], db.nextReminderId + j, db.reminderSendViaDefault, now)
  {
    GenerateForOutcome(db, sel, plan, now);
    forall j | 0 <= j < ScheduledPrefix(sel, plan)
      ensures GenerateFor(db, sel, plan, now).db.reminders[|db.reminders| + j]
              == PlannedRow(plan, sel[j], db.nextReminderId + j, db.reminderSendViaDefault, now)
    {
      GenerateForRow(db, sel, plan, now, j);
    }
  }

  /** The key columns of the inserted rows: pregnancy, type and date. */
  lemma GenerateForKeys(db: Db, sel: seq<Pregnancy>, plan: Planner, now: nat)
    requires ValidPlanner(plan)
    requires forall j :: 0 <= j < |sel| ==> sel[j].currentWeek < FinalWeek
    ensures var g := GenerateFor(db, sel, plan, now);
            var n := ScheduledPrefix(sel, plan);
            && |g.db.reminders| == |db.reminders| + n
            && forall j :: 0 <= j < n ==>
                 && g.db.reminders[|db.reminders| + j].pregnancyId == sel[j].id
                 && g.db.reminders[|db.reminders| + j].date + LeadDays == plan.next(sel[j]).day
  {
    GenerateForOutcome(db, sel, plan, now);
    forall j | 0 <= j < ScheduledPrefix(sel, plan)
      ensures GenerateFor(db, sel, plan, now).db.reminders[|db.reminders| + j].pregnancyId == sel[j].id
      ensures GenerateFor(db, sel, plan, now).db.reminders[|db.reminders| + j].date + LeadDays
              == plan.next(sel[j]).day
    {
      GenerateForRow(db, sel, plan, now, j);
    }
  }

  /** The same for the cron job itself: the selected pregnancies with a
      readable LMP date, in order up to the first unreadable one, each get
      a reminder dated two days before `calculateNextANCDate`'s visit; an
      unreadable date aborts the run at that pregnancy. */
  lemma GenerateUpcomingRows(db: Db, today: Day, now: nat)
    ensures var sel := Selected(db, today);
            var g := GenerateUpcoming(db, today, now);
            var n := ScheduledPrefix(sel, CronPlanner());
            && (forall j :: 0 <= j < n ==> ParseDay(sel[j].lmpDate).Some?)
            && (n < |sel| ==> ParseDay(sel[n].lmpDate).None?)
            && (g.Completed? <==> n == |sel|)
            && (g.Aborted? ==> n < |sel| && g.pregnancyId == sel[n].id)
            && |g.db.reminders| == |db.reminders| + n
            && forall j :: 0 <= j < n ==>
                 && g.db.reminders[|db.reminders| + j].pregnancyId == sel[j].id
                 && NextAncDate(sel[j].currentWeek, sel[j].lmpDate)
                    == VisitOn(g.db.reminders[|db.reminders| + j].date + LeadDays)
  {
    var sel := Selected(db, today);
    CronPlannerValid();
    GenerateForOutcome(db, sel, CronPlanner(), now);
    GenerateForKeys(db, sel, CronPlanner(), now);
  }

  /** The worked example, in any year: LMP on the first of January in week 6
      gives a reminder on the 24th of February titled
      "ANC Visit Reminder - Week 6" (2024-01-01 gives 2024-02-24). */
  lemma WorkedExampleReminder(p: Pregnancy, y: int, id: nat, via: SendVia, now: nat)
    requires 1 <= y <= 9999
    requires p.lmpDate == IsoText(Date(y, 1, 1)) && p.currentWeek == 6
    ensures NextVisitOf(p).VisitOn?
    ensures var visit := NextVisitOf(p).day;
            var r := AncReminder(p, visit, WeekTitle(p.currentWeek), VisitMessage(visit), id, via, now);
            r.date == ToOrdinal(Date(y, 2, 24)) && r.title == "ANC Visit Reminder - Week 6"
  {
    WorkedExampleVisit(y);
    assert SignedDecimal(6) == "6";
  }

  /** The new reminder for `p` is dated after `today`. */
  predicate PlannedAfter(plan: Planner, p: Pregnancy, today: Day) {
    plan.next(p).VisitOn? && plan.next(p).day - LeadDays > today
  }

  lemma HasFutureAncAppend(before: seq<Reminder>, added: seq<Reminder>, pid: nat, today: Day)
    ensures HasFutureAnc(before + added, pid, today)
            <==> HasFutureAnc(before, pid, today) || HasFutureAnc(added, pid, today)
  {
    var all := before + added;
    if HasFutureAnc(before, pid, today) {
      var k :| 0 <= k < |before| && FutureAncFor(before[k], pid, today);
      assert all[k] == before[k];
    }
    if HasFutureAnc(all, pid, today) {
      var k :| 0 <= k < |all| && FutureAncFor(all[k], pid, today);
      if k >= |before| {
        assert added[k - |before|] == all[k];
      }
    }
    if HasFutureAnc(added, pid, today) {
      var k :| 0 <= k < |added| && FutureAncFor(added[k], pid, today);
      assert all[|before| + k] == added[k];
    }
  }

  /** After a completed run over pregnancies with distinct ids, the added
      rows hold a future reminder of the `j`-th pregnancy exactly when its
      new reminder is dated after today. */
  lemma AddedRowsFor(db: Db, sel: seq<Pregnancy>, plan: Planner, now: nat, j: nat, today: Day)
    requires ValidPlanner(plan)
    requires forall i :: 0 <= i < |sel| ==> sel[i].currentWeek < FinalWeek
    requires PregnancyIdsUnique(sel)
    requires GenerateFor(db, sel, plan, now).Completed?
    requires j < |sel|
    ensures var rows := GenerateFor(db, sel, plan, now).db.reminders;
            HasFutureAnc(rows[|db.reminders|..], sel[j].id, today) <==> PlannedAfter(plan, sel[j], today)
  {
    var added := GenerateFor(db, sel, plan, now).db.reminders[|db.reminders|..];
    CompletedKeys(db, sel, plan, now);
    AddedFutureFor(added, sel, plan, j, today);
  }

  /** A completed run adds one row per pregnancy, in order, each carrying
      its pregnancy and dated two days before its visit. */
  lemma CompletedKeys(db: Db, sel: seq<Pregnancy>, plan: Planner, now: nat)
    requires ValidPlanner(plan)
    requires forall i :: 0 <= i < |sel| ==> sel[i].currentWeek < FinalWeek
    requires GenerateFor(db, sel, plan, now).Completed?
    ensures var added := GenerateFor(db, sel, plan, now).db.reminders[|db.reminders|..];
            && |added| == |sel|
            && forall k :: 0 <= k < |sel| ==>
                 && plan.next(sel[k]).VisitOn?
                 && added[k].kind == AncVisit
                 && added[k].pregnancyId == sel[k].id
                 && added[k].date + LeadDays == plan.next(sel[k]).day
  {
    var rows := GenerateFor(db, sel, plan, now).db.reminders;
    GenerateForOutcome(db, sel, plan, now);
    GenerateForKeys(db, sel, plan, now);
    var added := rows[|db.reminders|..];
    forall k | 0 <= k < |sel|
      ensures added[k] == rows[|db.reminders| + k]
    {
    }
  }

  /** Among rows that are one per pregnancy of `sel`, with distinct
      pregnancy ids, the `j`-th pregnancy has a future reminder exactly
      when its own row is dated after today. */
  lemma AddedFutureFor(added: seq<Reminder>, sel: seq<Pregnancy>, plan: Planner, j: nat, today: Day)
    requires PregnancyIdsUnique(sel)
    requires j < |sel| && |added| == |sel|
    requires forall k :: 0 <= k < |sel| ==>
               && plan.next(sel[k]).VisitOn?
               && added[k].kind == AncVisit
               && added[k].pregnancyId == sel[k].id
               && added[k].date + LeadDays == plan.next(sel[k]).day
    ensures HasFutureAnc(added, sel[j].id, today) <==> PlannedAfter(plan, sel[j], today)
  {
    var pid := sel[j].id;
    if PlannedAfter(plan, sel[j], today) {
      assert FutureAncFor(added[j], pid, today);
    } else {
      forall k | 0 <= k < |added|
        ensures !FutureAncFor(added[k], pid, today)
      {
        if k != j {
          assert sel[k].id != pid;
        }
      }
    }
  }

  /** Idempotence as the code has it, for any date computation: after a
      completed run, a second run on the same day selects a pregnancy
      exactly when the first run selected it and the reminder it then
      created is dated today or earlier. A reminder dated after today blocks
      a duplicate; one dated today or earlier does not. */
  lemma SecondRunSelectionFor(db: Db, today: Day, plan: Planner, now: nat, p: Pregnancy)
    requires ValidPlanner(plan)
    requires PregnancyIdsUnique(db.pregnancies)
    requires GenerateFor(db, Selected(db, today), plan, now).Completed?
    requires p in db.pregnancies
    ensures NeedsReminder(GenerateFor(db, Selected(db, today), plan, now).db, p, today)
            <==> NeedsReminder(db, p, today) && !PlannedAfter(plan, p, today)
  {
    var g := GenerateFor(db, Selected(db, today), plan, now);
    var added := g.db.reminders[|db.reminders|..];
    assert g.db.reminders == db.reminders + added;
    HasFutureAncAppend(db.reminders, added, p.id, today);
    assert UserActive(g.db, p.userId) == UserActive(db, p.userId);
    if NeedsReminder(db, p, today) {
      var sel := Selected(db, today);
      var j :| 0 <= j < |sel| && sel[j] == p;
      AddedRowsFor(db, sel, plan, now, j, today);
    }
  }

  /** The cron job's instance of `SecondRunSelectionFor`. */
  lemma SecondRunSelection(db: Db, today: Day, now: nat, p: Pregnancy)
    requires PregnancyIdsUnique(db.pregnancies)
    requires GenerateUpcoming(db, today, now).Completed?
    requires p in db.pregnancies
    ensures NeedsReminder(GenerateUpcoming(db, today, now).db, p, today)
            <==> NeedsReminder(db, p, today) && !PlannedAfter(CronPlanner(), p, today)
  {
    CronPlannerValid();
    SecondRunSelectionFor(db, today, CronPlanner(), now, p);
  }

  /** No two `anc_visit` reminders of pregnancy `pid` are dated after today. */
  predicate AtMostOneFutureAnc(rows: seq<Reminder>, pid: nat, today: Day) {
    forall a, b :: 0 <= a < b < |rows| && FutureAncFor(rows[a], pid, today)
                   ==> !FutureAncFor(rows[b], pid, today)
  }

  /** Generation never gives a pregnancy a second future reminder, whether
      it completes or aborts. */
  lemma GenerateKeepsAtMostOneFutureAnc(db: Db, today: Day, now: nat, pid: nat)
    requires PregnancyIdsUnique(db.pregnancies)
    requires AtMostOneFutureAnc(db.reminders, pid, today)
    ensures AtMostOneFutureAnc(GenerateUpcoming(db, today, now).db.reminders, pid, today)
  {
    CronPlannerValid();
    GenerateKeepsAtMostOneFutureAncFor(db, today, CronPlanner(), now, pid);
  }

  /** Every inserted row belongs to a selected pregnancy, and a future
      one to a pregnancy that had no future reminder before the run. */
  lemma AddedFutureAnc(db: Db, today: Day, plan: Planner, now: nat, pid: nat, k: nat)
    requires ValidPlanner(plan)
    requires |db.reminders| <= k < |GenerateFor(db, Selected(db, today), plan, now).db.reminders|
    ensures k - |db.reminders| < |Selected(db, today)|
    ensures FutureAncFor(GenerateFor(db, Selected(db, today), plan, now).db.reminders[k], pid, today) ==>
              && Selected(db, today)[k - |db.reminders|].id == pid
              && !HasFutureAnc(db.reminders, pid, today)
  {
    var sel := Selected(db, today);
    GenerateForKeys(db, sel, plan, now);
    assert NeedsReminder(db, sel[k - |db.reminders|], today);
  }

  lemma GenerateKeepsAtMostOneFutureAncFor(db: Db, today: Day, plan: Planner, now: nat, pid: nat)
    requires ValidPlanner(plan)
    requires PregnancyIdsUnique(db.pregnancies)
    requires AtMostOneFutureAnc(db.reminders, pid, today)
    ensures AtMostOneFutureAnc(GenerateFor(db, Selected(db, today), plan, now).db.reminders, pid, today)
  {
    var sel := Selected(db, today);
    var rows := GenerateFor(db, sel, plan, now).db.reminders;
    var n0 := |db.reminders|;
    forall a, b | 0 <= a < b < |rows| && FutureAncFor(rows[a], pid, today)
      ensures !FutureAncFor(rows[b], pid, today)
    {
      if b < n0 {
        assert rows[a] == db.reminders[a] && rows[b] == db.reminders[b];
      } else if a < n0 {
        AddedFutureAnc(db, today, plan, now, pid, b);
        assert rows[a] == db.reminders[a];
        assert HasFutureAnc(db.reminders, pid, today);
      } else {
        AddedFutureAnc(db, today, plan, now, pid, a);
        AddedFutureAnc(db, today, plan, now, pid, b);
        assert sel[a - n0].id != sel[b - n0].id;
      }
    }
  }
}
