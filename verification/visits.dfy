/** The visits API (backend/api/visits.php): who may read, create, update
    and delete visit records, what a request must carry, and what each
    accepted request writes. The caller is already logged in; the JSON body
    and the query string arrive decoded. */
module Visits {
  import opened Wrappers
  import opened Requests
  import opened Database
  import opened Sequences

  /** How many columns `$allowedFields` lists. */
  const ColumnCount := 17

  /** The `k`-th entry of `$allowedFields`. */
  function ColumnAt(k: nat): Column
    requires k < ColumnCount
  {
    [VisitDate, VisitType, GestationalWeek, Weight,
     BloodPressureSystolic, BloodPressureDiastolic,
     Hemoglobin, SugarLevel, ProteinUrine, FundalHeight,
     FetalHeartRate, Complaints, ExaminationNotes, Advice,
     NextVisitDate, RiskFactors, Medications][k]
  }

  /** `$allowedFields`: the columns an update may set, in order; the
      insert lists the same columns after the two keys. */
  function AllowedFields(): seq<Column> {
    seq(ColumnCount, k requires 0 <= k < ColumnCount => ColumnAt(k))
  }

  /** The fields a create request must carry, in the order they are checked. */
  const RequiredFields: seq<string> := ["pregnancy_id", "visit_date", "gestational_week"]

  /** The start of the message naming the first missing field. */
  const MissingField := "Missing required field: "

  /** Only `doctor_asha` and `admin` may write visits. */
  predicate MayWrite(caller: Caller) {
    caller.role == DoctorAsha || caller.role == Admin
  }

  /** The first required field that is unset or empty, in the given order. */
  function FirstMissing(fields: seq<string>, input: Body): (r: Option<string>)
    ensures r.Some? ==> exists i :: 0 <= i < |fields| && fields[i] == r.value
                          && MissingOrEmpty(input, fields[i])
                          && forall j :: 0 <= j < i ==> !MissingOrEmpty(input, fields[j])
    ensures r.None? <==> forall j :: 0 <= j < |fields| ==> !MissingOrEmpty(input, fields[j])
  {
    if |fields| == 0 then None
    else if MissingOrEmpty(input, fields[0]) then Some(fields[0])
    else
      var r := FirstMissing(fields[1..], input);
      assert forall j :: 1 <= j < |fields| ==> fields[j] == fields[1..][j - 1];
      r
  }

  /** The first empty field is the one reported, whatever follows it. */
  lemma {:induction false} FirstMissingAt(fields: seq<string>, input: Body, i: nat)
    requires i < |fields| && MissingOrEmpty(input, fields[i])
    requires forall j :: 0 <= j < i ==> !MissingOrEmpty(input, fields[j])
    ensures FirstMissing(fields, input) == Some(fields[i])
  {
    if i > 0 {
      assert fields[1..][i - 1] == fields[i];
      FirstMissingAt(fields[1..], input, i - 1);
    }
  }

  /** The value the insert binds for a column the request leaves unset. */
  function DefaultFor(c: Column): Value {
    match c
    case VisitType => Str("routine")
    case ProteinUrine => Str("nil")
    case _ => Null
  }

  /** The columns of a new visit: every column, holding the request's value
      or else the column's default. */
  function InsertedColumns(input: Body): (m: map<Column, Value>)
    ensures forall c :: c in m && m[c] == Coalesce(input, ColumnName(c), DefaultFor(c))
  {
    AllowedFieldsComplete();
    map c: Column | c in AllowedFields() :: Coalesce(input, ColumnName(c), DefaultFor(c))
  }

  /** The active pregnancy a bound `pregnancy_id` selects: the first row
      with that id and `is_active = 1`, if there is one. */
  function ActivePregnancy(db: Db, id: Value): (r: Option<Pregnancy>)
    ensures r.Some? ==> r.value in db.pregnancies && r.value.isActive && Some(r.value.id) == AsId(id)
    ensures r.None? <==> forall k :: 0 <= k < |db.pregnancies| ==>
                           !(Some(db.pregnancies[k].id) == AsId(id) && db.pregnancies[k].isActive)
  {
    match AsId(id)
    case None => None
    case Some(pid) =>
      var rows := Filter(db.pregnancies, (p: Pregnancy) => p.id == pid && p.isActive);
      assert forall k :: 0 <= k < |db.pregnancies| ==>
                (db.pregnancies[k].id == pid && db.pregnancies[k].isActive ==> db.pregnancies[k] in rows);
      if |rows| == 0 then None
      else
        assert rows[0] in db.pregnancies;
        Some(rows[0])
  }

  /** `handleCreateVisit` (lines 161-245). */
  function CreateVisit(db: Db, caller: Caller, input: Body): (o: Outcome)
    ensures !MayWrite(caller) ==> o == Reject(db, 403, "Only doctors can create visits")
    ensures MayWrite(caller) && FirstMissing(RequiredFields, input).Some? ==>
              o == Reject(db, 400, MissingField + FirstMissing(RequiredFields, input).value)
    ensures MayWrite(caller) && FirstMissing(RequiredFields, input).None? ==>
              var p := ActivePregnancy(db, Field(input, "pregnancy_id"));
              && (p.None? ==> o == Reject(db, 404, "Pregnancy not found"))
              && (p.Some? && caller.role == DoctorAsha && !LooseIdEq(p.value.assignedDoctorId, caller.id) ==>
                    o == Reject(db, 403, "You can only create visits for your assigned patients"))
    ensures o.reply.success <==>
              && MayWrite(caller)
              && FirstMissing(RequiredFields, input).None?
              && var p := ActivePregnancy(db, Field(input, "pregnancy_id"));
                 p.Some? && (caller.role == Admin || LooseIdEq(p.value.assignedDoctorId, caller.id))
    ensures !o.reply.success ==> o.db == db
    ensures o.reply.success ==>
              && o.db == db.(visits := o.db.visits, nextVisitId := db.nextVisitId + 1)
              && |o.db.visits| == |db.visits| + 1
              && o.db.visits[..|db.visits|] == db.visits
              && var v := o.db.visits[|db.visits|];
                 && v.id == db.nextVisitId
                 && v.doctorId == caller.id
                 && Some(v.pregnancyId) == AsId(Field(input, "pregnancy_id"))
                 && (forall c :: c in v.columns)
                 && (forall c :: IsSet(input, ColumnName(c)) ==> v.columns[c] == input.fields[ColumnName(c)])
                 && (forall c :: !IsSet(input, ColumnName(c)) ==> v.columns[c] == DefaultFor(c))
  {
    if !MayWrite(caller) then Reject(db, 403, "Only doctors can create visits")
    else match FirstMissing(RequiredFields, input)
      case Some(f) => Reject(db, 400, MissingField + f)
      case None =>
        match ActivePregnancy(db, Field(input, "pregnancy_id"))
        case None => Reject(db, 404, "Pregnancy not found")
        case Some(p) =>
          if caller.role == DoctorAsha && !LooseIdEq(p.assignedDoctorId, caller.id) then
            Reject(db, 403, "You can only create visits for your assigned patients")
          else
            var v := Visit(db.nextVisitId, p.id, caller.id, InsertedColumns(input));
            Outcome(Reply(200, true, "Visit created successfully"),
                    db.(visits := db.visits + [v], nextVisitId := db.nextVisitId + 1))
  }

  /** Because `empty()` treats 0 and "0" as empty, a visit in gestational
      week 0 cannot be recorded. */
  lemma WeekZeroRejected(db: Db, caller: Caller, fields: map<string, Value>, week: Value)
    requires MayWrite(caller)
    requires "pregnancy_id" in fields && !IsEmptyValue(fields["pregnancy_id"])
    requires "visit_date" in fields && !IsEmptyValue(fields["visit_date"])
    requires week == Int(0) || week == Str("0")
    ensures CreateVisit(db, caller, Object(fields["gestational_week" := week]))
            == Reject(db, 400, MissingField + "gestational_week")
  {
    WeekZeroMissing(fields, week);
  }

  lemma WeekZeroMissing(fields: map<string, Value>, week: Value)
    requires "pregnancy_id" in fields && !IsEmptyValue(fields["pregnancy_id"])
    requires "visit_date" in fields && !IsEmptyValue(fields["visit_date"])
    requires week == Int(0) || week == Str("0")
    ensures FirstMissing(RequiredFields, Object(fields["gestational_week" := week])) == Some("gestational_week")
  {
    var input := Object(fields["gestational_week" := week]);
    assert !MissingOrEmpty(input, RequiredFields[0]) && !MissingOrEmpty(input, RequiredFields[1]);
    assert MissingOrEmpty(input, RequiredFields[2]);
    FirstMissingAt(RequiredFields, input, 2);
  }

  /** The request sets column `c`. */
  predicate Requested(input: Body, c: Column) {
    IsSet(input, ColumnName(c))
  }

  /** The position of each column in `AllowedFields()`. */
  function Rank(c: Column): nat {
    match c
    case VisitDate => 0
    case VisitType => 1
    case GestationalWeek => 2
    case Weight => 3
    case BloodPressureSystolic => 4
    case BloodPressureDiastolic => 5
    case Hemoglobin => 6
    case SugarLevel => 7
    case ProteinUrine => 8
    case FundalHeight => 9
    case FetalHeartRate => 10
    case Complaints => 11
    case ExaminationNotes => 12
    case Advice => 13
    case NextVisitDate => 14
    case RiskFactors => 15
    case Medications => 16
  }

  lemma RanksBelowCount()
    ensures forall c :: Rank(c) < ColumnCount
  {
  }

  lemma ColumnAtRank(k: nat)
    requires k < ColumnCount
    ensures Rank(ColumnAt(k)) == k
    ensures forall c :: Rank(c) == k ==> c == ColumnAt(k)
  {
    RankColumnAt();
  }

  lemma RankColumnAt()
    ensures forall c :: Rank(c) < ColumnCount && ColumnAt(Rank(c)) == c
  {
  }

  /** Every column is listed exactly once. */
  lemma AllowedFieldsComplete()
    ensures forall c :: c in AllowedFields() && Rank(c) < |AllowedFields()| && AllowedFields()[Rank(c)] == c
    ensures forall k :: 0 <= k < |AllowedFields()| ==> Rank(AllowedFields()[k]) == k
  {
    assert forall k :: 0 <= k < ColumnCount ==> Rank(ColumnAt(k)) == k;
    forall c ensures c in AllowedFields() && Rank(c) < |AllowedFields()| && AllowedFields()[Rank(c)] == c {
      assert AllowedFields()[Rank(c)] == c;
    }
  }

  /** Key columns and the visit id are not among the updatable columns, so
      a request naming them never changes them. */
  lemma KeysNotUpdatable(c: Column)
    ensures ColumnName(c) != "pregnancy_id" && ColumnName(c) != "doctor_id" && ColumnName(c) != "visit_id"
  {
  }

  /** The statement `handleUpdateVisit` prepares: the columns after `SET`
      and the bound parameters, the visit id last. */
  datatype UpdateStatement = UpdateStatement(columns: seq<Column>, params: seq<Value>)

  /** The allowed columns from the `k`-th on that the request sets, in
      `$allowedFields` order: the loop of lines 284-297. */
  function RequestedFrom(input: Body, k: nat): (cols: seq<Column>)
    requires k <= ColumnCount
    ensures forall c :: c in cols <==> Requested(input, c) && k <= Rank(c)
    ensures forall i :: 0 <= i < |cols| ==> Requested(input, cols[i]) && k <= Rank(cols[i])
    ensures forall i, j :: 0 <= i < j < |cols| ==> Rank(cols[i]) < Rank(cols[j])
    decreases ColumnCount - k
  {
    if k == ColumnCount then
      RanksBelowCount();
      []
    else
      var c := ColumnAt(k);
      ColumnAtRank(k);
      (if Requested(input, c) then [c] else []) + RequestedFrom(input, k + 1)
  }

  /** Lines 281-305: one `field = ?` per allowed column the request sets, in
      `$allowedFields` order, each bound to the request's value, then the
      visit id. */
  function PlanUpdate(input: Body): (u: UpdateStatement)
    requires IsSet(input, "visit_id")
    ensures forall c :: c in u.columns <==> IsSet(input, ColumnName(c))
    ensures |u.params| == |u.columns| + 1
    ensures forall i :: 0 <= i < |u.columns| ==>
              IsSet(input, ColumnName(u.columns[i])) && u.params[i] == input.fields[ColumnName(u.columns[i])]
    ensures u.params[|u.columns|] == input.fields["visit_id"]
    ensures forall i, j :: 0 <= i < j < |u.columns| ==> Rank(u.columns[i]) < Rank(u.columns[j])
  {
    var cols := RequestedFrom(input, 0);
    UpdateStatement(cols, seq(|cols|, i requires 0 <= i < |cols| => input.fields[ColumnName(cols[i])])
                          + [input.fields["visit_id"]])
  }

  /** The `UPDATE visits SET ... WHERE id = ?` on one row: each listed
      column takes the parameter in its position, every other column and
      both keys keep their values. */
  function ApplyUpdate(v: Visit, u: UpdateStatement): (v': Visit)
    requires |u.params| == |u.columns| + 1
    ensures v'.id == v.id && v'.pregnancyId == v.pregnancyId && v'.doctorId == v.doctorId
    ensures forall c :: c in v'.columns <==> c in v.columns || c in u.columns
    ensures forall c :: c in u.columns ==> v'.columns[c] == u.params[PositionIn(u.columns, c)]
    ensures forall c :: c in v.columns && c !in u.columns ==> v'.columns[c] == v.columns[c]
  {
    v.(columns := map c: Column | c in v.columns || c in u.columns ::
                    if c in u.columns then u.params[PositionIn(u.columns, c)] else v.columns[c])
  }

  /** Replaces every row whose id is `id`. */
  function UpdateRows(rows: seq<Visit>, id: nat, u: UpdateStatement): (rows': seq<Visit>)
    requires |u.params| == |u.columns| + 1
    ensures |rows'| == |rows|
    ensures forall k :: 0 <= k < |rows| ==>
              rows'[k] == if rows[k].id == id then ApplyUpdate(rows[k], u) else rows[k]
  {
    seq(|rows|, k requires 0 <= k < |rows| => if rows[k].id == id then ApplyUpdate(rows[k], u) else rows[k])
  }

  /** The visit a bound `visit_id` selects. */
  function VisitById(db: Db, id: Value): (r: Option<Visit>)
    ensures r.Some? ==> r.value in db.visits && Some(r.value.id) == AsId(id)
    ensures r.None? <==> forall k :: 0 <= k < |db.visits| ==> Some(db.visits[k].id) != AsId(id)
  {
    match AsId(id)
    case None => None
    case Some(vid) => FindVisit(db, vid)
  }

  /** `handleUpdateVisit` (lines 247-311). */
  function UpdateVisit(db: Db, caller: Caller, input: Body): (o: Outcome)
    ensures !MayWrite(caller) ==> o == Reject(db, 403, "Only doctors can update visits")
    ensures MayWrite(caller) && !IsSet(input, "visit_id") ==> o == Reject(db, 400, "Missing visit_id")
    ensures MayWrite(caller) && IsSet(input, "visit_id") ==>
              var v := VisitById(db, Field(input, "visit_id"));
              && (v.None? ==> o == Reject(db, 404, "Visit not found"))
              && (v.Some? && caller.role == DoctorAsha && v.value.doctorId != caller.id ==>
                    o == Reject(db, 403, "You can only update your own visits"))
              && (v.Some? && (caller.role == DoctorAsha ==> v.value.doctorId == caller.id)
                  && (forall c :: !IsSet(input, ColumnName(c))) ==>
                    o == Reject(db, 400, "No fields to update"))
    ensures !o.reply.success ==> o.db == db
    ensures o.reply.success <==>
              && MayWrite(caller) && IsSet(input, "visit_id")
              && var v := VisitById(db, Field(input, "visit_id"));
                 && v.Some?
                 && (caller.role == DoctorAsha ==> v.value.doctorId == caller.id)
                 && exists c :: IsSet(input, ColumnName(c))
    ensures o.reply.success ==>
              && o.db == db.(visits := o.db.visits)
              && |o.db.visits| == |db.visits|
  {
    if !MayWrite(caller) then Reject(db, 403, "Only doctors can update visits")
    else if !IsSet(input, "visit_id") then Reject(db, 400, "Missing visit_id")
    else match VisitById(db, Field(input, "visit_id"))
      case None => Reject(db, 404, "Visit not found")
      case Some(v) =>
        if caller.role == DoctorAsha && v.doctorId != caller.id then
          Reject(db, 403, "You can only update your own visits")
        else
          var u := PlanUpdate(input);
          if |u.columns| == 0 then Reject(db, 400, "No fields to update")
          else
            assert IsSet(input, ColumnName(u.columns[0]));
            Outcome(Reply(200, true, "Visit updated successfully"),
                    db.(visits := UpdateRows(db.visits, v.id, u)))
  }

  /** An accepted update writes the request's value into every field it
      sets on the selected visit, leaves that visit's other fields and
      every other visit alone. */
  lemma UpdateWritesRequestedFields(db: Db, caller: Caller, input: Body, k: nat)
    requires UpdateVisit(db, caller, input).reply.success
    requires k < |db.visits|
    ensures var rows := UpdateVisit(db, caller, input).db.visits;
            var vid := AsId(Field(input, "visit_id"));
            && (Some(db.visits[k].id) != vid ==> rows[k] == db.visits[k])
            && (Some(db.visits[k].id) == vid ==>
                  && rows[k].pregnancyId == db.visits[k].pregnancyId
                  && rows[k].doctorId == db.visits[k].doctorId
                  && (forall c :: IsSet(input, ColumnName(c)) ==> rows[k].columns[c] == input.fields[ColumnName(c)])
                  && (forall c :: c in db.visits[k].columns && !IsSet(input, ColumnName(c))
                        ==> rows[k].columns[c] == db.visits[k].columns[c]))
  {
    var u := PlanUpdate(input);
    forall c | IsSet(input, ColumnName(c))
      ensures ApplyUpdate(db.visits[k], u).columns[c] == input.fields[ColumnName(c)]
    {
      var i := PositionIn(u.columns, c);
      assert u.params[i] == input.fields[ColumnName(u.columns[i])];
    }
  }

  /** `handleDeleteVisit` (lines 313-351). */
  function DeleteVisit(db: Db, caller: Caller, input: Body): (o: Outcome)
    ensures !MayWrite(caller) ==> o == Reject(db, 403, "Only doctors can delete visits")
    ensures MayWrite(caller) && !IsSet(input, "visit_id") ==> o == Reject(db, 400, "Missing visit_id")
    ensures MayWrite(caller) && IsSet(input, "visit_id") ==>
              var v := VisitById(db, Field(input, "visit_id"));
              && (v.None? ==> o == Reject(db, 404, "Visit not found"))
              && (v.Some? && caller.role == DoctorAsha && v.value.doctorId != caller.id ==>
                    o == Reject(db, 403, "You can only delete your own visits"))
    ensures !o.reply.success ==> o.db == db
    ensures o.reply.success <==>
              && MayWrite(caller) && IsSet(input, "visit_id")
              && var v := VisitById(db, Field(input, "visit_id"));
                 && v.Some?
                 && (caller.role == DoctorAsha ==> v.value.doctorId == caller.id)
    ensures o.reply.success ==>
              && var v := VisitById(db, Field(input, "visit_id"));
                 && o.db == db.(visits := o.db.visits)
                 && (forall w :: w in o.db.visits <==> w in db.visits && w.id != v.value.id)
  {
    if !MayWrite(caller) then Reject(db, 403, "Only doctors can delete visits")
    else if !IsSet(input, "visit_id") then Reject(db, 400, "Missing visit_id")
    else match VisitById(db, Field(input, "visit_id"))
      case None => Reject(db, 404, "Visit not found")
      case Some(v) =>
        if caller.role == DoctorAsha && v.doctorId != caller.id then
          Reject(db, 403, "You can only delete your own visits")
        else
          Outcome(Reply(200, true, "Visit deleted successfully"),
                  db.(visits := RemoveId(db.visits, v.id)))
  }

  /** `DELETE FROM visits WHERE id = ?`. */
  function RemoveId(rows: seq<Visit>, id: nat): (rows': seq<Visit>)
    ensures forall w :: w in rows' <==> w in rows && w.id != id
    ensures |rows'| <= |rows|
  {
    if |rows| == 0 then []
    else (if rows[0].id == id then [] else [rows[0]]) + RemoveId(rows[1..], id)
  }

  /** The three write handlers turn away every role but `doctor_asha` and
      `admin` with 403 before reading the request, and change nothing. */
  lemma WritesNeedDoctorOrAdmin(db: Db, caller: Caller, input: Body)
    requires !MayWrite(caller)
    ensures var c := CreateVisit(db, caller, input);
            var u := UpdateVisit(db, caller, input);
            var d := DeleteVisit(db, caller, input);
            && c.reply.status == u.reply.status == d.reply.status == 403
            && c.db == u.db == d.db == db
  {
  }

  /** The result of a read. */
  datatype Listing = Denied(reply: Reply) | One(visit: Visit) | Many(visits: seq<Visit>)

  /** The inner joins of the single-visit query: the visit's pregnancy, its
      patient and its doctor all exist. */
  predicate Joined(db: Db, v: Visit) {
    var p := FindPregnancy(db, v.pregnancyId);
    p.Some? && FindUser(db, p.value.userId).Some? && FindUser(db, v.doctorId).Some?
  }

  /** Who may read one visit (lines 68-78): a pregnant woman only a visit
      of her own pregnancy, a doctor only a visit they recorded; every other
      role, admin included, any visit. */
  predicate CanView(db: Db, caller: Caller, v: Visit) {
    match caller.role
    case PregnantWoman =>
      var p := FindPregnancy(db, v.pregnancyId);
      p.Some? && p.value.userId == caller.id
    case DoctorAsha => v.doctorId == caller.id
    case _ => true
  }

  /** `handleGetVisits` (lines 44-159): by `visit_id`, by `pregnancy_id`, or
      everything the caller's role lists. Each parameter counts only when
      it is not empty. */
  function GetVisits(db: Db, caller: Caller, visitId: Value, pregnancyId: Value): (l: Listing)
    ensures !IsEmptyValue(visitId) ==>
              (l.One? <==> exists v :: VisitById(db, visitId) == Some(v) && Joined(db, v) && CanView(db, caller, v))
    ensures l.One? ==> l.visit in db.visits && CanView(db, caller, l.visit)
    ensures l.Denied? ==> !l.reply.success && l.reply.status in {403, 404}
  {
    if !IsEmptyValue(visitId) then
      match VisitById(db, visitId)
      case None => Denied(Reply(404, false, "Visit not found"))
      case Some(v) =>
        if !Joined(db, v) then Denied(Reply(404, false, "Visit not found"))
        else if !CanView(db, caller, v) then Denied(Reply(403, false, "Access denied"))
        else One(v)
    else if !IsEmptyValue(pregnancyId) then
      var pid := AsId(pregnancyId);
      var owner := if pid.Some? then FindPregnancy(db, pid.value) else None;
      if caller.role == PregnantWoman && (owner.None? || owner.value.userId != caller.id) then
        Denied(Reply(403, false, "Access denied"))
      else
        Many(Filter(db.visits, (v: Visit) => InPregnancyListing(db, caller, pid, v)))
    else
      Many(Filter(db.visits, (v: Visit) => InRoleListing(db, caller, v)))
  }

  /** The rows of the listing by pregnancy (lines 84-114): visits of that
      pregnancy whose doctor exists, and for a doctor only their own. */
  predicate InPregnancyListing(db: Db, caller: Caller, pid: Option<nat>, v: Visit) {
    && Some(v.pregnancyId) == pid
    && FindUser(db, v.doctorId).Some?
    && (caller.role == DoctorAsha ==> v.doctorId == caller.id)
  }

  /** The rows of the listing by role (lines 120-154): a pregnant woman's
      visits with their doctor, a doctor's own visits with their patient,
      and for every other role all fully joined visits. */
  predicate InRoleListing(db: Db, caller: Caller, v: Visit) {
    var p := FindPregnancy(db, v.pregnancyId);
    match caller.role
    case PregnantWoman => p.Some? && p.value.userId == caller.id && FindUser(db, v.doctorId).Some?
    case DoctorAsha => v.doctorId == caller.id && p.Some? && FindUser(db, p.value.userId).Some?
    case _ => Joined(db, v)
  }

  /** Every visit a listing returns is one the caller may read on its own:
      the listings never show more than the single-visit check allows. */
  lemma ListedVisitsViewable(db: Db, caller: Caller, pregnancyId: Value, v: Visit)
    requires GetVisits(db, caller, Null, pregnancyId).Many?
    requires v in GetVisits(db, caller, Null, pregnancyId).visits
    ensures v in db.visits && CanView(db, caller, v)
  {
    if !IsEmptyValue(pregnancyId) && caller.role == PregnantWoman {
      var pid := AsId(pregnancyId);
      assert Some(v.pregnancyId) == pid;
    }
  }

  /** Conversely, the listings leave nothing out: every visit the caller
      may read on its own, with its pregnancy, patient and doctor present,
      is in the listing by role and in the listing of its pregnancy. */
  lemma ViewableVisitsListed(db: Db, caller: Caller, pregnancyId: Value, v: Visit)
    requires v in db.visits && Joined(db, v) && CanView(db, caller, v)
    requires IsEmptyValue(pregnancyId) || Some(v.pregnancyId) == AsId(pregnancyId)
    ensures GetVisits(db, caller, Null, pregnancyId).Many?
    ensures v in GetVisits(db, caller, Null, pregnancyId).visits
  {
    if !IsEmptyValue(pregnancyId) {
      assert InPregnancyListing(db, caller, AsId(pregnancyId), v);
    } else {
      assert InRoleListing(db, caller, v);
    }
  }
}
