/** Selection and dispatch of the reminders due today
    (backend/cron/send_reminders.php, lines 14-64). The email and SMS
    senders are black boxes: `senders(r)` says what each of them would do
    for reminder `r` if it were called. */
module ReminderDispatch {
  import opened Wrappers
  import opened Calendar
  import opened Database

  /** The WHERE clause and joins of the due-reminder query: dated exactly
      today, not sent, and its pregnancy and that pregnancy's user active. */
  predicate IsDue(db: Db, r: Reminder, today: Day) {
    && r.date == today
    && !r.isSent
    && var p := FindPregnancy(db, r.pregnancyId);
       p.Some? && p.value.isActive && UserActive(db, p.value.userId)
  }

  /** The due rows among `rows`, in table order. */
  function DueAmong(db: Db, rows: seq<Reminder>, today: Day): (due: seq<Reminder>)
    ensures |due| <= |rows|
    ensures forall r :: r in due <==> r in rows && IsDue(db, r, today)
  {
    if |rows| == 0 then []
    else (if IsDue(db, rows[0], today) then [rows[0]] else []) + DueAmong(db, rows[1..], today)
  }

  /** The result of the due-reminder query. */
  function DueReminders(db: Db, today: Day): (due: seq<Reminder>)
    ensures forall r :: r in due <==> r in db.reminders && IsDue(db, r, today)
  {
    DueAmong(db, db.reminders, today)
  }

  /** A reminder dated before today is never selected again: overdue unsent
      reminders are not retried. */
  lemma OverdueNeverDue(db: Db, r: Reminder, today: Day)
    requires r.date < today
    ensures r !in DueReminders(db, today)
  {
  }

  /** What one sender does when called. */
  datatype SendResult = Delivered | NotDelivered | Raised

  /** What the email and the SMS sender would do for one reminder. */
  datatype Attempt = Attempt(email: SendResult, sms: SendResult)

  /** Sent: marked sent. Failed: `$success` stayed false. Errored: a sender
      raised and the `catch` counted a failure. */
  datatype Verdict = Sent | Failed | Errored

  /** Which senders were called, and the verdict. */
  datatype Delivery = Delivery(emailCalled: bool, smsCalled: bool, verdict: Verdict)

  predicate EmailSelected(via: SendVia) {
    via == ViaEmail || via == ViaBoth
  }

  predicate SmsSelected(via: SendVia) {
    via == ViaSms || via == ViaBoth
  }

  /** The body of the `try` (lines 34-46). Email is tried first; an exception
      from it skips the SMS call, and an exception from either sender fails
      the reminder even when the other channel delivered. Otherwise success
      is the OR of the channels called. */
  function Deliver(via: SendVia, a: Attempt): (d: Delivery)
    ensures d.emailCalled <==> EmailSelected(via)
    ensures d.smsCalled <==> SmsSelected(via) && !(EmailSelected(via) && a.email == Raised)
    ensures d.verdict == Errored <==>
              (d.emailCalled && a.email == Raised) || (d.smsCalled && a.sms == Raised)
    ensures d.verdict == Sent <==>
              d.verdict != Errored
              && ((d.emailCalled && a.email == Delivered) || (d.smsCalled && a.sms == Delivered))
    ensures !EmailSelected(via) && !SmsSelected(via) ==> d.verdict == Failed
  {
    var emailCalled := EmailSelected(via);
    if emailCalled && a.email == Raised then Delivery(true, false, Errored)
    else
      var success := emailCalled && a.email == Delivered;
      var smsCalled := SmsSelected(via);
      if smsCalled && a.sms == Raised then Delivery(emailCalled, true, Errored)
      else
        var success' := success || (smsCalled && a.sms == Delivered);
        Delivery(emailCalled, smsCalled, if success' then Sent else Failed)
  }

  predicate Succeeds(r: Reminder, senders: Reminder -> Attempt) {
    Deliver(r.sendVia, senders(r)).verdict == Sent
  }

  /** How many of `due` are sent. */
  function SentCount(due: seq<Reminder>, senders: Reminder -> Attempt): (n: nat)
    ensures n <= |due|
  {
    if |due| == 0 then 0
    else SentCount(due[..|due| - 1], senders) + (if Succeeds(due[|due| - 1], senders) then 1 else 0)
  }

  /** The ids of the reminders of `due` that are sent. */
  function SentIds(due: seq<Reminder>, senders: Reminder -> Attempt): (ids: set<nat>)
    ensures forall r :: r in due && Succeeds(r, senders) ==> r.id in ids
    ensures forall id :: id in ids ==> exists r :: r in due && r.id == id && Succeeds(r, senders)
  {
    if |due| == 0 then {}
    else
      var init := due[..|due| - 1];
      var last := due[|due| - 1];
      assert forall r :: r in due ==> r in init || r == last;
      SentIds(init, senders) + (if Succeeds(last, senders) then {last.id} else {})
  }

  /** `UPDATE reminders SET is_sent = 1, sent_at = NOW()` on one row. */
  function MarkSent(r: Reminder, now: nat): Reminder {
    r.(isSent := true, sentAt := Some(now))
  }

  /** The `UPDATE ... WHERE id = ?` of line 49 over the whole table. */
  function MarkIdSent(rows: seq<Reminder>, id: nat, now: nat): (rows': seq<Reminder>)
    ensures |rows'| == |rows|
    ensures forall k :: 0 <= k < |rows| ==>
              rows'[k] == if rows[k].id == id then MarkSent(rows[k], now) else rows[k]
  {
    seq(|rows|, k requires 0 <= k < |rows| =>
      if rows[k].id == id then MarkSent(rows[k], now) else rows[k])
  }

  /** The state after the dispatch loop, stated row by row: a row is marked
      sent exactly when a due reminder with its id was delivered; every
      other row and every other table is as before. */
  function Dispatched(db: Db, today: Day, now: nat, senders: Reminder -> Attempt): (db': Db)
    ensures db' == db.(reminders := db'.reminders)
    ensures |db'.reminders| == |db.reminders|
  {
    var ids := SentIds(DueReminders(db, today), senders);
    db.(reminders := seq(|db.reminders|, k requires 0 <= k < |db.reminders| =>
      if db.reminders[k].id in ids then MarkSent(db.reminders[k], now) else db.reminders[k]))
  }

  /** `rows` is `orig` with exactly the rows whose id is in `ids` marked
      sent at `now`. */
  predicate MarkedFrom(rows: seq<Reminder>, orig: seq<Reminder>, ids: set<nat>, now: nat) {
    && |rows| == |orig|
    && forall k :: 0 <= k < |rows| ==>
         rows[k] == if orig[k].id in ids then MarkSent(orig[k], now) else orig[k]
  }

  /** Marking one more id keeps the table in step with the id set. */
  lemma MarkIdSentStep(rows: seq<Reminder>, orig: seq<Reminder>, ids: set<nat>, id: nat, now: nat)
    requires MarkedFrom(rows, orig, ids, now)
    ensures MarkedFrom(MarkIdSent(rows, id, now), orig, ids + {id}, now)
  {
  }

  /** One more processed reminder: the count and the id set grow by it
      exactly when it is sent. */
  lemma SentPrefixStep(due: seq<Reminder>, i: nat, senders: Reminder -> Attempt)
    requires i < |due|
    ensures SentCount(due[..i + 1], senders)
            == SentCount(due[..i], senders) + (if Succeeds(due[i], senders) then 1 else 0)
    ensures SentIds(due[..i + 1], senders)
            == SentIds(due[..i], senders) + (if Succeeds(due[i], senders) then {due[i].id} else {})
  {
    assert due[..i + 1][..i] == due[..i];
  }

  /** The dispatch loop (lines 28-64): every due reminder is processed once,
      counted once as sent or as failed, and the table ends as `Dispatched`
      describes. */
  method DispatchDue(db: Db, today: Day, now: nat, senders: Reminder -> Attempt)
    returns (db': Db, sent: nat, failed: nat)
    ensures sent + failed == |DueReminders(db, today)|
    ensures sent == SentCount(DueReminders(db, today), senders)
    ensures db' == Dispatched(db, today, now, senders)
  {
    var due := DueReminders(db, today);
    var rows := db.reminders;
    sent, failed := 0, 0;
    var i := 0;
    while i < |due|
      invariant 0 <= i <= |due|
      invariant sent + failed == i
      invariant sent == SentCount(due[..i], senders)
      invariant MarkedFrom(rows, db.reminders, SentIds(due[..i], senders), now)
    {
      var r := due[i];
      var d := Deliver(r.sendVia, senders(r));
      SentPrefixStep(due, i, senders);
      if d.verdict == Sent {
        MarkIdSentStep(rows, db.reminders, SentIds(due[..i], senders), r.id, now);
        rows := MarkIdSent(rows, r.id, now);
        sent := sent + 1;
      } else {
        failed := failed + 1;
      }
      i := i + 1;
    }
    assert due[..|due|] == due;
    db' := db.(reminders := rows);
    assert db'.reminders == Dispatched(db, today, now, senders).reminders;
  }

  /** A reminder already sent is never touched again. */
  lemma SentRowsUnchanged(db: Db, today: Day, now: nat, senders: Reminder -> Attempt, k: nat)
    requires ReminderIdsUnique(db.reminders)
    requires k < |db.reminders| && db.reminders[k].isSent
    ensures Dispatched(db, today, now, senders).reminders[k] == db.reminders[k]
  {
    assert db.reminders[k] !in DueReminders(db, today);
  }

  /** Running the dispatch again the same day processes exactly the
      reminders that were not delivered the first time. */
  lemma RerunSameDayRetriesFailures(db: Db, today: Day, now: nat, senders: Reminder -> Attempt, k: nat)
    requires ReminderIdsUnique(db.reminders)
    requires k < |db.reminders|
    ensures var db' := Dispatched(db, today, now, senders);
            IsDue(db', db'.reminders[k], today)
            <==> IsDue(db, db.reminders[k], today) && !Succeeds(db.reminders[k], senders)
  {
    var due := DueReminders(db, today);
    var rk := db.reminders[k];
    if rk.id in SentIds(due, senders) {
      var r :| r in due && r.id == rk.id && Succeeds(r, senders);
      var j :| 0 <= j < |db.reminders| && db.reminders[j] == r;
      assert j == k;
    }
  }

  /** `is_sent = 1` always comes with a `sent_at` no earlier than the row's
      creation. */
  predicate StampsConsistent(rows: seq<Reminder>) {
    forall k :: 0 <= k < |rows| && rows[k].isSent ==>
      rows[k].sentAt.Some? && rows[k].sentAt.value >= rows[k].createdAt
  }

  lemma DispatchKeepsStampsConsistent(db: Db, today: Day, now: nat, senders: Reminder -> Attempt)
    requires StampsConsistent(db.reminders)
    requires forall k :: 0 <= k < |db.reminders| ==> db.reminders[k].createdAt <= now
    ensures StampsConsistent(Dispatched(db, today, now, senders).reminders)
  {
  }

  /** The batch of three: A (both channels, both deliver), B (email only,
      not delivered), C (both, email not delivered, SMS delivered) gives two
      sent and one failed. */
  lemma ThreeReminderBatch(a: Reminder, b: Reminder, c: Reminder, senders: Reminder -> Attempt)
    requires a.sendVia == ViaBoth && senders(a) == Attempt(Delivered, Delivered)
    requires b.sendVia == ViaEmail && senders(b).email == NotDelivered
    requires c.sendVia == ViaBoth && senders(c) == Attempt(NotDelivered, Delivered)
    ensures SentCount([a, b, c], senders) == 2
  {
    assert Succeeds(a, senders) && !Succeeds(b, senders) && Succeeds(c, senders);
    assert [a][..0] == [];
    assert SentCount([a], senders) == 1;
    assert [a, b][..1] == [a];
    assert SentCount([a, b], senders) == 1;
    assert [a, b, c][..2] == [a, b];
  }
}
