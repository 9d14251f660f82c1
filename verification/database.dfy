/** The tables the modelled code reads and writes, held in memory. Rows are
    kept in table order; ids are the primary keys. `CURDATE()` and `NOW()`
    are not part of the store: every operation receives them. */
module Database {
  import opened Wrappers
  import opened Calendar
  import opened Requests

  /** A `users` row, reduced to what the joins test. */
  datatype Account = Account(id: nat, isActive: bool)

  /** A `pregnancies` row. `lmpDate` is the text PDO returns for the
      `lmp_date` column. */
  datatype Pregnancy = Pregnancy(
    id: nat,
    userId: nat,
    assignedDoctorId: Option<nat>,
    lmpDate: string,
    currentWeek: int,
    isActive: bool)

  /** The `send_via` column. Any text other than the three known ones is
      kept as is: `ViaOther(name)` stands only for a `name` that is none of
      "email", "sms" and "both", which have their own constructors. */
  datatype SendVia = ViaEmail | ViaSms | ViaBoth | ViaOther(name: string)

  /** The `reminder_type` column. */
  datatype ReminderKind = AncVisit | OtherKind(name: string)

  /** A `reminders` row; `date` is `reminder_date` as a day ordinal,
      timestamps are abstract instants. */
  datatype Reminder = Reminder(
    id: nat,
    pregnancyId: nat,
    kind: ReminderKind,
    title: string,
    message: string,
    date: Day,
    sendVia: SendVia,
    isSent: bool,
    sentAt: Option<nat>,
    createdAt: nat)

  /** The `visits` columns a doctor fills in, besides the keys. */
  datatype Column =
    | VisitDate | VisitType | GestationalWeek | Weight
    | BloodPressureSystolic | BloodPressureDiastolic
    | Hemoglobin | SugarLevel | ProteinUrine | FundalHeight
    | FetalHeartRate | Complaints | ExaminationNotes | Advice
    | NextVisitDate | RiskFactors | Medications

  /** The column's name, which is also its key in a request body. */
  function ColumnName(c: Column): string {
    match c
    case VisitDate => "visit_date"
    case VisitType => "visit_type"
    case GestationalWeek => "gestational_week"
    case Weight => "weight"
    case BloodPressureSystolic => "blood_pressure_systolic"
    case BloodPressureDiastolic => "blood_pressure_diastolic"
    case Hemoglobin => "hemoglobin"
    case SugarLevel => "sugar_level"
    case ProteinUrine => "protein_urine"
    case FundalHeight => "fundal_height"
    case FetalHeartRate => "fetal_heart_rate"
    case Complaints => "complaints"
    case ExaminationNotes => "examination_notes"
    case Advice => "advice"
    case NextVisitDate => "next_visit_date"
    case RiskFactors => "risk_factors"
    case Medications => "medications"
  }

  /** A `visits` row: the id, the two foreign keys, and the other columns. */
  datatype Visit = Visit(id: nat, pregnancyId: nat, doctorId: nat, columns: map<Column, Value>)

  /** A `risk_alerts` row. */
  datatype RiskAlert = RiskAlert(
    id: nat,
    pregnancyId: nat,
    isResolved: bool,
    resolvedAt: Option<nat>,
    resolvedBy: Option<nat>)

  /** The database. `nextReminderId`/`nextVisitId` are the auto-increment
      counters; `reminderSendViaDefault` is the column default `send_via`
      takes when an insert leaves it out. */
  datatype Db = Db(
    users: seq<Account>,
    pregnancies: seq<Pregnancy>,
    reminders: seq<Reminder>,
    visits: seq<Visit>,
    alerts: seq<RiskAlert>,
    nextReminderId: nat,
    nextVisitId: nat,
    reminderSendViaDefault: SendVia)

  /** Position of the first row whose key is `id`. */
  function IndexOf<T>(rows: seq<T>, key: T -> nat, id: nat): (r: Option<nat>)
    ensures r.Some? ==> r.value < |rows| && key(rows[r.value]) == id
                        && forall j :: 0 <= j < r.value ==> key(rows[j]) != id
    ensures r.None? ==> forall j :: 0 <= j < |rows| ==> key(rows[j]) != id
  {
    if |rows| == 0 then None
    else if key(rows[0]) == id then Some(0)
    else match IndexOf(rows[1..], key, id)
      case None => None
      case Some(i) => Some(i + 1)
  }

  /** The row with primary key `id`, if any. */
  function Lookup<T>(rows: seq<T>, key: T -> nat, id: nat): (r: Option<T>)
    ensures r.Some? ==> r.value in rows && key(r.value) == id
    ensures r.None? ==> forall j :: 0 <= j < |rows| ==> key(rows[j]) != id
  {
    match IndexOf(rows, key, id)
    case None => None
    case Some(i) => Some(rows[i])
  }

  function FindUser(db: Db, id: nat): Option<Account> {
    Lookup(db.users, (u: Account) => u.id, id)
  }

  function FindPregnancy(db: Db, id: nat): Option<Pregnancy> {
    Lookup(db.pregnancies, (p: Pregnancy) => p.id, id)
  }

  function FindVisit(db: Db, id: nat): Option<Visit> {
    Lookup(db.visits, (v: Visit) => v.id, id)
  }

  function FindAlert(db: Db, id: nat): Option<RiskAlert> {
    Lookup(db.alerts, (a: RiskAlert) => a.id, id)
  }

  /** The user exists and `is_active = 1`. */
  predicate UserActive(db: Db, id: nat) {
    var u := FindUser(db, id);
    u.Some? && u.value.isActive
  }

  /** Primary keys are unique. */
  predicate PregnancyIdsUnique(ps: seq<Pregnancy>) {
    forall i, j :: 0 <= i < j < |ps| ==> ps[i].id != ps[j].id
  }

  predicate ReminderIdsUnique(rs: seq<Reminder>) {
    forall i, j :: 0 <= i < j < |rs| ==> rs[i].id != rs[j].id
  }

  /** The reply and the database after a request that may write. */
  datatype Outcome = Outcome(reply: Reply, db: Db)

  /** A refused request: the reply carries the status and message, and
      nothing is written. */
  function Reject(db: Db, status: int, message: string): (o: Outcome)
    ensures !o.reply.success && o.reply.status == status && o.reply.message == message && o.db == db
  {
    Outcome(Reply(status, false, message), db)
  }
}
