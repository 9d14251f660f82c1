/** The registration form (register.php, lines 7-45): which fields must
    be filled in, the error listing the empty ones, and the record handed to
    `Auth::register`, whose behaviour is a parameter. */
module Registration {
  import opened Wrappers
  import opened Text
  import opened Requests

  /** `$_POST`: field name to submitted text. */
  type Form = map<string, string>

  /** `$required_fields`, in the order they are checked. */
  const FormRequired: seq<string> :=
    ["username", "email", "password", "full_name", "phone", "age", "lmp_date"]

  /** `empty($_POST[$field])`: absent, "" or "0". */
  predicate Blank(form: Form, f: string) {
    f !in form || form[f] == "" || form[f] == "0"
  }

  /** Lines 14-18: the fields of `fields` that are blank, in the order of
      `fields`. */
  function MissingAmong(fields: seq<string>, form: Form): (missing: seq<string>)
    ensures forall f :: f in missing <==> f in fields && Blank(form, f)
    ensures |missing| <= |fields|
  {
    if |fields| == 0 then []
    else (if Blank(form, fields[0]) then [fields[0]] else []) + MissingAmong(fields[1..], form)
  }

  /** Collecting over two lists one after the other gives the two
      collections one after the other: together with the one-field case
      this fixes the result entry by entry and in order. */
  lemma {:induction false} MissingAmongAppend(a: seq<string>, b: seq<string>, form: Form)
    ensures MissingAmong(a + b, form) == MissingAmong(a, form) + MissingAmong(b, form)
  {
    if |a| == 0 {
      assert a + b == b;
    } else {
      assert (a + b)[1..] == a[1..] + b;
      MissingAmongAppend(a[1..], b, form);
    }
  }

  /** One field is listed exactly when it is blank. */
  lemma MissingAmongSingle(f: string, form: Form)
    ensures MissingAmong([f], form) == if Blank(form, f) then [f] else []
  {
    assert [f][1..] == [];
  }

  /** A form without any of the required fields lists all seven, in
      declared order. */
  lemma {:induction false} NothingFilledListsAll(form: Form)
    requires forall k :: 0 <= k < |FormRequired| ==> FormRequired[k] !in form
    ensures MissingAmong(FormRequired, form) == FormRequired
  {
    var fs := FormRequired;
    forall k | 0 <= k < |fs| ensures MissingAmong([fs[k]], form) == [fs[k]] {
      MissingAmongSingle(fs[k], form);
    }
    AllBlankListsAll(fs, form);
  }

  /** When every field of `fields` is blank, all of them are listed. */
  lemma {:induction false} AllBlankListsAll(fields: seq<string>, form: Form)
    requires forall k :: 0 <= k < |fields| ==> Blank(form, fields[k])
    ensures MissingAmong(fields, form) == fields
  {
    if |fields| > 0 {
      AllBlankListsAll(fields[1..], form);
    }
  }

  /** When no field of `fields` is blank, none is listed. */
  lemma {:induction false} NoneBlankListsNone(fields: seq<string>, form: Form)
    requires forall k :: 0 <= k < |fields| ==> !Blank(form, fields[k])
    ensures MissingAmong(fields, form) == []
  {
    if |fields| > 0 {
      NoneBlankListsNone(fields[1..], form);
    }
  }

  /** What `trim($_POST[$f])` gives: an absent field reads as "". */
  function FieldText(form: Form, f: string): string {
    if f in form then form[f] else ""
  }

  /** `$userData`, the record passed to `Auth::register`. */
  datatype UserData = UserData(
    username: string,
    email: string,
    password: string,
    role: Role,
    fullName: string,
    phone: string,
    age: int,
    lmpDate: string,
    address: string,
    emergencyContactName: string,
    emergencyContactPhone: string)

  /** The texts of the form's fields that `$userData` reads, "" for an
      absent one. */
  datatype Submitted = Submitted(
    username: string,
    email: string,
    password: string,
    fullName: string,
    phone: string,
    age: string,
    lmpDate: string,
    address: string,
    emergencyContactName: string,
    emergencyContactPhone: string)

  function Read(form: Form): Submitted {
    Submitted(
      FieldText(form, "username"), FieldText(form, "email"), FieldText(form, "password"),
      FieldText(form, "full_name"), FieldText(form, "phone"), FieldText(form, "age"),
      FieldText(form, "lmp_date"), FieldText(form, "address"),
      FieldText(form, "emergency_contact_name"), FieldText(form, "emergency_contact_phone"))
  }

  /** Lines 23-35: text fields trimmed, the password and the LMP date
      passed as typed, the age cast to an integer and the role fixed. */
  function Normalize(t: Submitted): (u: UserData)
    ensures u.role == PregnantWoman
    ensures u.password == t.password && u.lmpDate == t.lmpDate
    ensures u.age == IntCast(t.age)
    ensures IsTrimmed(u.username) && IsTrimmed(u.email) && IsTrimmed(u.fullName) && IsTrimmed(u.phone)
    ensures IsTrimmed(u.address) && IsTrimmed(u.emergencyContactName) && IsTrimmed(u.emergencyContactPhone)
    ensures TrimmedFrom(t.username, u.username) && TrimmedFrom(t.email, u.email)
    ensures TrimmedFrom(t.fullName, u.fullName) && TrimmedFrom(t.phone, u.phone)
    ensures TrimmedFrom(t.address, u.address) && TrimmedFrom(t.emergencyContactName, u.emergencyContactName)
    ensures TrimmedFrom(t.emergencyContactPhone, u.emergencyContactPhone)
  {
    UserData(
      Trim(t.username), Trim(t.email), t.password, PregnantWoman,
      Trim(t.fullName), Trim(t.phone), IntCast(t.age), t.lmpDate,
      Trim(t.address), Trim(t.emergencyContactName), Trim(t.emergencyContactPhone))
  }

  /** The texts that type the record `u` back into the form. */
  function Retype(u: UserData): Submitted {
    Submitted(u.username, u.email, u.password, u.fullName, u.phone, SignedDecimal(u.age),
              u.lmpDate, u.address, u.emergencyContactName, u.emergencyContactPhone)
  }

  /** Typing a normalised record back in yields the same record: the
      normalisation is idempotent. */
  lemma NormalizeIdempotent(t: Submitted)
    ensures Normalize(Retype(Normalize(t))) == Normalize(t)
  {
    var u := Normalize(t);
    TrimKeepsClean(u.username);
    TrimKeepsClean(u.email);
    TrimKeepsClean(u.fullName);
    TrimKeepsClean(u.phone);
    TrimKeepsClean(u.address);
    TrimKeepsClean(u.emergencyContactName);
    TrimKeepsClean(u.emergencyContactPhone);
    IntCastReadsSignedDecimal(u.age);
  }

  /** Whatever role the form names, the record asks for a pregnant woman:
      `user_role` is not read from the form. */
  lemma RoleIgnoresForm(form: Form, role: string)
    ensures Read(form["user_role" := role]) == Read(form)
  {
  }

  /** What `Auth::register` answers. */
  datatype RegisterResult = RegisterResult(success: bool, message: string)

  /** The page state after the request: `$error`, `$success`, and the
      record `register` was called with, if it was called. */
  datatype Page = Page(error: string, success: string, registered: Option<UserData>)

  const SuccessMessage := "Registration successful! Please login to continue."

  const MissingPrefix := "Please fill in all required fields: "

  /** Lines 7-45. An empty `$_POST` is no submission at all. */
  function Submit(form: Form, register: UserData -> RegisterResult): (p: Page)
    ensures |form| == 0 ==> p == Page("", "", None)
    ensures p.registered.Some? <==> |form| > 0 && |MissingAmong(FormRequired, form)| == 0
    ensures |form| > 0 && |MissingAmong(FormRequired, form)| > 0 ==>
              p == Page(MissingPrefix + Join(MissingAmong(FormRequired, form), ", "), "", None)
    ensures p.registered.Some? ==>
              && p.registered.value == Normalize(Read(form))
              && var result := register(Normalize(Read(form)));
                 && (result.success ==> p.error == "" && p.success == SuccessMessage)
                 && (!result.success ==> p.error == result.message && p.success == "")
  {
    if |form| == 0 then Page("", "", None)
    else
      var missing := MissingAmong(FormRequired, form);
      if |missing| > 0 then Page(MissingPrefix + Join(missing, ", "), "", None)
      else
        var u := Normalize(Read(form));
        var result := register(u);
        if result.success then Page("", SuccessMessage, Some(u))
        else Page(result.message, "", Some(u))
  }

  /** `empty("0")` holds, so an age of "0" is reported missing and nobody
      is registered. */
  lemma ZeroAgeIsMissing(form: Form, register: UserData -> RegisterResult)
    requires "age" in form && form["age"] == "0"
    ensures "age" in MissingAmong(FormRequired, form)
    ensures Submit(form, register).registered.None?
  {
  }

  /** An age that does not start like a number is not blank either, so it
      passes the check and is registered as 0. */
  lemma WordAgeRegistersZero(form: Form, register: UserData -> RegisterResult)
    requires forall k :: 0 <= k < |FormRequired| ==> !Blank(form, FormRequired[k])
    requires "age" in form && |form["age"]| > 0
    requires var c := form["age"][0]; !IsDigit(c) && !IsNumericSpace(c) && c != '-' && c != '+' && c != '.'
    ensures Submit(form, register).registered.Some?
    ensures Submit(form, register).registered.value.age == 0
  {
    NoneBlankListsNone(FormRequired, form);
    var age := form["age"];
    assert SkipSpace(age) == age && SkipSign(age) == age;
    assert ReadNumeral(age).None?;
  }

  /** A number field may submit its value in exponent form, and the cast
      reads the exponent: an age typed as "2e1" is registered as 20. */
  lemma ExponentAgeRegistered(form: Form, register: UserData -> RegisterResult, m: nat, k: nat)
    requires forall i :: 0 <= i < |FormRequired| ==> !Blank(form, FormRequired[i])
    requires "age" in form && form["age"] == Decimal(m) + "e" + Decimal(k)
    ensures Submit(form, register).registered.Some?
    ensures Submit(form, register).registered.value.age == m * Pow10(k)
  {
    NoneBlankListsNone(FormRequired, form);
    IntCastReadsExponent(m, k);
  }
}
