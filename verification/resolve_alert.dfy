/** Resolving a risk alert (backend/api/resolve_alert.php): who may do it,
    which `alert_id` values are accepted, and what the update writes.
    `NOW()` arrives as `now`; the session is an input. */
module ResolveAlert {
  import opened Wrappers
  import opened Text
  import opened Requests
  import opened Database

  /** The session `Auth` reads: nobody logged in, or the current user. */
  datatype Session = LoggedOut | LoggedIn(caller: Caller)

  /** `isLoggedIn() && (hasRole('doctor_asha') || hasRole('admin'))`. */
  predicate MayResolve(session: Session) {
    session.LoggedIn? && (session.caller.role == DoctorAsha || session.caller.role == Admin)
  }

  /** Lines 20-25: the id `(int)$input['alert_id']` when the field is set
      and `is_numeric`; `None` gives "Invalid alert ID". */
  function AlertIdOf(input: Body): (r: Option<int>)
    ensures !IsSet(input, "alert_id") ==> r.None?
    ensures IsSet(input, "alert_id") && input.fields["alert_id"].Int? ==>
              r == Some(input.fields["alert_id"].i)
    ensures IsSet(input, "alert_id") && input.fields["alert_id"].Str? ==>
              var s := input.fields["alert_id"].s;
              r == if IsNumeric(s) then Some(IntCast(s)) else None
    ensures IsSet(input, "alert_id") && (input.fields["alert_id"].Bool? || input.fields["alert_id"].List?) ==>
              r.None?
  {
    if !IsSet(input, "alert_id") then None
    else match input.fields["alert_id"]
      case Int(i) => Some(i)
      case Str(s) => if IsNumeric(s) then Some(IntCast(s)) else None
      case _ => None
  }

  /** An id written in decimal is accepted and read back as that id. */
  lemma DecimalAlertIdAccepted(fields: map<string, Value>, n: nat)
    requires "alert_id" in fields && fields["alert_id"] == Str(Decimal(n))
    ensures AlertIdOf(Object(fields)) == Some(n)
  {
    ReadSignedDecimal(n);
    IntCastReadsSignedDecimal(n);
  }

  /** An id with a fractional part is numeric too, and the cast cuts the
      fraction off: "12.5" resolves alert 12. */
  lemma FractionalAlertIdCut(fields: map<string, Value>, n: nat, f: string)
    requires AllDigits(f)
    requires "alert_id" in fields && fields["alert_id"] == Str(Decimal(n) + "." + f)
    ensures AlertIdOf(Object(fields)) == Some(n)
  {
    ReadDecimalFraction(n, f);
    IntCastCutsFraction(n, f);
  }

  /** A resolved alert: flag set, resolution time and resolver recorded. */
  function MarkResolved(a: RiskAlert, resolver: nat, now: nat): RiskAlert {
    a.(isResolved := true, resolvedAt := Some(now), resolvedBy := Some(resolver))
  }

  /** `UPDATE risk_alerts SET is_resolved = 1, resolved_at = NOW(),
      resolved_by = ? WHERE id = ?` over the whole table. */
  function ResolveRows(rows: seq<RiskAlert>, id: nat, resolver: nat, now: nat): (rows': seq<RiskAlert>)
    ensures |rows'| == |rows|
    ensures forall k :: 0 <= k < |rows| && rows[k].id != id ==> rows'[k] == rows[k]
    ensures forall k :: 0 <= k < |rows| && rows[k].id == id ==>
              && rows'[k].id == id && rows'[k].pregnancyId == rows[k].pregnancyId
              && rows'[k].isResolved && rows'[k].resolvedAt == Some(now) && rows'[k].resolvedBy == Some(resolver)
  {
    seq(|rows|, k requires 0 <= k < |rows| =>
      if rows[k].id == id then MarkResolved(rows[k], resolver, now) else rows[k])
  }

  /** The alert row `SELECT ra.*, p.assigned_doctor_id FROM risk_alerts ra
      JOIN pregnancies p ...` returns, with the pregnancy it joins. */
  function JoinedAlert(db: Db, id: int): (r: Option<(RiskAlert, Pregnancy)>)
    ensures r.Some? ==> id >= 0 && r.value.0 in db.alerts && r.value.0.id == id
                        && r.value.1 in db.pregnancies && r.value.1.id == r.value.0.pregnancyId
    ensures id >= 0 && FindAlert(db, id).Some? && FindPregnancy(db, FindAlert(db, id).value.pregnancyId).Some?
            ==> r.Some?
  {
    if id < 0 then None
    else match FindAlert(db, id)
      case None => None
      case Some(a) =>
        match FindPregnancy(db, a.pregnancyId)
        case None => None
        case Some(p) => Some((a, p))
  }

  /** The whole request (lines 9-60). Only the role gate sets a status;
      every other reply goes out with PHP's default 200. */
  function Resolve(db: Db, session: Session, input: Body, now: nat): (o: Outcome)
    ensures !MayResolve(session) ==> o == Reject(db, 403, "Access denied")
    ensures MayResolve(session) && AlertIdOf(input).None? ==> o == Reject(db, 200, "Invalid alert ID")
    ensures MayResolve(session) && AlertIdOf(input).Some? && JoinedAlert(db, AlertIdOf(input).value).None?
            ==> o == Reject(db, 200, "Alert not found")
    ensures !o.reply.success ==> o.db == db
    ensures o.reply.success <==>
              && MayResolve(session)
              && AlertIdOf(input).Some?
              && var j := JoinedAlert(db, AlertIdOf(input).value);
                 && j.Some?
                 && (session.caller.role == DoctorAsha ==> LooseIdEq(j.value.1.assignedDoctorId, session.caller.id))
    ensures o.reply.success ==>
              var id := AlertIdOf(input).value;
              && o.db == db.(alerts := o.db.alerts)
              && |o.db.alerts| == |db.alerts|
              && forall k :: 0 <= k < |db.alerts| ==>
                   if db.alerts[k].id == id
                   then o.db.alerts[k] == MarkResolved(db.alerts[k], session.caller.id, now)
                   else o.db.alerts[k] == db.alerts[k]
  {
    if !MayResolve(session) then Reject(db, 403, "Access denied")
    else match AlertIdOf(input)
      case None => Reject(db, 200, "Invalid alert ID")
      case Some(id) =>
        match JoinedAlert(db, id)
        case None => Reject(db, 200, "Alert not found")
        case Some((a, p)) =>
          var caller := session.caller;
          if caller.role == DoctorAsha && !LooseIdEq(p.assignedDoctorId, caller.id) then
            Reject(db, 200, "You can only resolve alerts for your patients")
          else
            Outcome(Reply(200, true, "Alert resolved successfully"),
                    db.(alerts := ResolveRows(db.alerts, id, caller.id, now)))
  }

  /** Nothing checks that the alert is still open: resolving it again
      succeeds and the second resolver and time replace the first. */
  lemma ReResolveOverwrites(db: Db, first: Session, second: Session, input: Body, t1: nat, t2: nat, k: nat)
    requires Resolve(db, first, input, t1).reply.success
    requires MayResolve(second) && second.caller.role == Admin
    requires k < |db.alerts| && Some(db.alerts[k].id as int) == AlertIdOf(input)
    ensures var db1 := Resolve(db, first, input, t1).db;
            var o := Resolve(db1, second, input, t2);
            && db1.alerts[k].isResolved
            && o.reply.success
            && o.db.alerts[k].resolvedBy == Some(second.caller.id)
            && o.db.alerts[k].resolvedAt == Some(t2)
  {
    var db1 := Resolve(db, first, input, t1).db;
    var id := AlertIdOf(input).value;
    StillJoined(db, db1, id);
    assert db1.alerts[k] == MarkResolved(db.alerts[k], first.caller.id, t1);
  }

  /** An alert found and joined before a resolve is found and joined after it. */
  lemma StillJoined(db: Db, db1: Db, id: int)
    requires db1 == db.(alerts := db1.alerts) && |db1.alerts| == |db.alerts|
    requires forall k :: 0 <= k < |db.alerts| ==>
               db1.alerts[k].id == db.alerts[k].id && db1.alerts[k].pregnancyId == db.alerts[k].pregnancyId
    requires JoinedAlert(db, id).Some?
    ensures JoinedAlert(db1, id).Some?
  {
    var j := JoinedAlert(db, id).value;
    assert FindAlert(db, id) == Some(j.0);
    SameIdLookup(db, db1, id, j.0.pregnancyId);
  }

  /** Resolving keeps every alert's id and pregnancy, so a lookup by id
      still finds an alert of the same pregnancy. */
  lemma SameIdLookup(db: Db, db1: Db, id: nat, pid: nat)
    requires db1 == db.(alerts := db1.alerts) && |db1.alerts| == |db.alerts|
    requires forall k :: 0 <= k < |db.alerts| ==>
               db1.alerts[k].id == db.alerts[k].id && db1.alerts[k].pregnancyId == db.alerts[k].pregnancyId
    requires FindAlert(db, id).Some? && FindAlert(db, id).value.pregnancyId == pid
    ensures FindAlert(db1, id).Some? && FindAlert(db1, id).value.pregnancyId == pid
  {
    var key := (a: RiskAlert) => a.id;
    var i := IndexOf(db.alerts, key, id).value;
    assert key(db1.alerts[i]) == id;
  }

  /** Resolving twice at the same time by the same caller leaves the table
      as resolving once does. */
  lemma ResolveIdempotent(db: Db, session: Session, input: Body, now: nat)
    requires Resolve(db, session, input, now).reply.success
    requires session.caller.role == Admin
    ensures var db1 := Resolve(db, session, input, now).db;
            Resolve(db1, session, input, now).db == db1
  {
    var db1 := Resolve(db, session, input, now).db;
    var id := AlertIdOf(input).value;
    var j := JoinedAlert(db, id).value;
    SameIdLookup(db, db1, id, j.0.pregnancyId);
    var db2 := Resolve(db1, session, input, now).db;
    assert db2.alerts == db1.alerts;
  }
}
