/** The PHP-level view of a request: decoded JSON bodies, `isset`, `empty`,
    the `??` operator, how a bound parameter matches an integer id column,
    and the logged-in caller. */
module Requests {
  import opened Wrappers
  import opened Text

  /** A scalar decoded by `json_decode($body, true)`; arrays and objects are
      kept only as their element count, which is all `empty` looks at. */
  datatype Value = Null | Bool(b: bool) | Int(i: int) | Str(s: string) | List(size: nat)

  /** A decoded request body: a JSON object, or anything else (invalid JSON,
      a bare scalar), on which every `$input['key']` is unset. */
  datatype Body = Object(fields: map<string, Value>) | NotAnObject

  /** PHP's `isset($input[$key])`: present and not null. */
  predicate IsSet(body: Body, key: string) {
    body.Object? && key in body.fields && body.fields[key] != Null
  }

  /** `$input[$key] ?? $default`. */
  function Coalesce(body: Body, key: string, default: Value): (v: Value)
    ensures IsSet(body, key) ==> v == body.fields[key]
    ensures !IsSet(body, key) ==> v == default
  {
    if IsSet(body, key) then body.fields[key] else default
  }

  /** `$input[$key]`: the value under `key`, null when the key is absent. */
  function Field(body: Body, key: string): (v: Value)
    ensures IsSet(body, key) ==> v == body.fields[key]
  {
    Coalesce(body, key, Null)
  }

  /** PHP's `empty()` on a value: null, false, 0, "", "0" and an empty array. */
  predicate IsEmptyValue(v: Value) {
    match v
    case Null => true
    case Bool(b) => !b
    case Int(i) => i == 0
    case Str(s) => s == "" || s == "0"
    case List(n) => n == 0
  }

  /** `!isset($input[$key]) || empty($input[$key])`. */
  predicate MissingOrEmpty(body: Body, key: string) {
    !IsSet(body, key) || IsEmptyValue(body.fields[key])
  }

  /** The id row a value bound to `WHERE id = ?` selects: a non-negative
      integer selects that id, `true` selects 1 and `false` selects 0, and a
      string of decimal digits selects their value, leading zeros included
      ("007" is 7, as MySQL compares it), with "-0" selecting 0. Negative
      values, other strings, null and arrays select no row. */
  function AsId(v: Value): (r: Option<nat>)
    ensures v.Int? && v.i >= 0 ==> r == Some(v.i)
    ensures v.Null? || v.List? ==> r.None?
  {
    match v
    case Int(i) => if i >= 0 then Some(i) else None
    case Str(s) =>
      (match ParseSigned(s)
       case Some(i) => if i >= 0 then Some(i) else None
       case None => None)
    case Bool(b) => Some(if b then 1 else 0)
    case _ => None
  }

  /** Leading zeros and a negative zero still select the row: "007" is 7
      and "-0" is 0. */
  lemma AsIdOfPaddedText()
    ensures AsId(Str("007")) == Some(7)
    ensures AsId(Str("-0")) == Some(0)
  {
    assert "007"[..2] == "00" && "00"[..1] == "0" && "0"[..0] == "";
    assert DigitsValue("00") == 0;
    assert DigitsValue("007") == 7;
    assert "-0"[1..] == "0";
  }

  /** A decimal id sent as a string selects the same row as the number. */
  lemma AsIdOfDecimalText(n: nat)
    ensures AsId(Str(SignedDecimal(n))) == Some(n)
  {
    SignedDecimalRoundTrip(n);
  }

  /** PHP's loose `==` between a nullable id column and an id: `null == 0`
      holds in PHP, so a missing id equals the id 0. */
  predicate LooseIdEq(column: Option<nat>, id: nat) {
    match column
    case None => id == 0
    case Some(c) => c == id
  }

  /** The `user_role` column. `OtherRole(name)` stands only for a `name`
      that is none of "pregnant_woman", "doctor_asha" and "admin", which
      have their own constructors. */
  datatype Role = PregnantWoman | DoctorAsha | Admin | OtherRole(name: string)

  /** The session's current user: `$user['id']` and `$user['user_role']`. */
  datatype Caller = Caller(id: nat, role: Role)

  /** The JSON reply: HTTP status, `success` flag and `message`. */
  datatype Reply = Reply(status: int, success: bool, message: string)
}
