/** String helpers shared by the model: decimal digits, PHP's `trim`,
    PHP's `(int)` cast of a string and `implode`. */
module Text {
  import opened Wrappers

  predicate IsDigit(c: char) {
    '0' <= c <= '9'
  }

  predicate AllDigits(s: string) {
    forall i :: 0 <= i < |s| ==> IsDigit(s[i])
  }

  function DigitChar(d: nat): (c: char)
    requires d < 10
    ensures IsDigit(c)
  {
    ('0' as int + d) as char
  }

  function DigitValue(c: char): (d: nat)
    requires IsDigit(c)
    ensures d < 10 && DigitChar(d) == c
  {
    c as int - '0' as int
  }

  function Pow10(k: nat): (p: nat)
    ensures p >= 1
  {
    if k == 0 then 1 else 10 * Pow10(k - 1)
  }

  /** The number a string of decimal digits denotes (most significant first). */
  function DigitsValue(s: string): nat
    requires AllDigits(s)
  {
    if |s| == 0 then 0 else DigitsValue(s[..|s| - 1]) * 10 + DigitValue(s[|s| - 1])
  }

  /** `n` written with exactly `width` digits, zero padded on the left
      (`sprintf('%0Nd')`, PHP's `m`/`d` date fields). */
  function FixedDigits(n: nat, width: nat): (s: string)
    ensures |s| == width && AllDigits(s)
  {
    if width == 0 then [] else FixedDigits(n / 10, width - 1) + [DigitChar(n % 10)]
  }

  lemma {:induction false} FixedDigitsRoundTrip(n: nat, width: nat)
    requires n < Pow10(width)
    ensures DigitsValue(FixedDigits(n, width)) == n
  {
    if width > 0 {
      FixedDigitsRoundTrip(n / 10, width - 1);
      var s := FixedDigits(n, width);
      assert s[..|s| - 1] == FixedDigits(n / 10, width - 1);
    }
  }

  /** `n` in decimal without leading zeros, as PHP prints an integer. */
  function Decimal(n: nat): (s: string)
    ensures 1 <= |s| && AllDigits(s)
    ensures s[0] == '0' ==> n == 0
  {
    if n < 10 then [DigitChar(n)] else Decimal(n / 10) + [DigitChar(n % 10)]
  }

  lemma {:induction false} DecimalRoundTrip(n: nat)
    ensures DigitsValue(Decimal(n)) == n
  {
    if n >= 10 {
      DecimalRoundTrip(n / 10);
      var s := Decimal(n);
      assert s[..|s| - 1] == Decimal(n / 10);
    }
  }

  /** An integer as PHP's string conversion writes it: a minus sign for
      negative values, then the decimal digits. */
  function SignedDecimal(i: int): string {
    if i < 0 then "-" + Decimal(-i) else Decimal(i)
  }

  /** A decimal integer: an optional `-` followed by at least one digit and
      nothing else; leading zeros are allowed. */
  function ParseSigned(s: string): (r: Option<int>)
    ensures r.Some? && 0 < |s| && s[0] != '-' ==> r.value >= 0
  {
    if 0 < |s| && s[0] == '-' then
      (if 1 < |s| && AllDigits(s[1..]) then Some(-(DigitsValue(s[1..]) as int)) else None)
    else if 0 < |s| && AllDigits(s) then Some(DigitsValue(s))
    else None
  }

  lemma SignedDecimalRoundTrip(i: int)
    ensures ParseSigned(SignedDecimal(i)) == Some(i)
  {
    if i < 0 {
      DecimalRoundTrip(-i);
      ParseNegative(Decimal(-i));
    } else {
      DecimalRoundTrip(i);
      ParseNonNegative(Decimal(i));
    }
  }

  lemma ParseNegative(d: string)
    requires 1 <= |d| && AllDigits(d)
    ensures ParseSigned("-" + d) == Some(-(DigitsValue(d) as int))
  {
    assert ("-" + d)[1..] == d;
  }

  lemma ParseNonNegative(d: string)
    requires 1 <= |d| && AllDigits(d)
    ensures ParseSigned(d) == Some(DigitsValue(d))
  {
    assert IsDigit(d[0]);
  }

  /** The characters PHP's `trim` removes by default. */
  predicate IsTrimChar(c: char) {
    c == ' ' || c == '\t' || c == '\n' || c == '\r' || c == '\0' || c == '\U{B}'
  }

  /** Number of trim characters at the start of `s`. */
  function LeadingTrimCount(s: string): (n: nat)
    ensures n <= |s|
    ensures forall i :: 0 <= i < n ==> IsTrimChar(s[i])
    ensures n < |s| ==> !IsTrimChar(s[n])
  {
    if |s| == 0 || !IsTrimChar(s[0]) then 0 else 1 + LeadingTrimCount(s[1..])
  }

  /** Number of trim characters at the end of `s`. */
  function TrailingTrimCount(s: string): (n: nat)
    ensures n <= |s|
    ensures forall i :: |s| - n <= i < |s| ==> IsTrimChar(s[i])
    ensures n < |s| ==> !IsTrimChar(s[|s| - 1 - n])
  {
    if |s| == 0 || !IsTrimChar(s[|s| - 1]) then 0 else 1 + TrailingTrimCount(s[..|s| - 1])
  }

  /** `r` is `s` with `a` trim characters removed in front and the rest of
      the removed characters at the end. */
  predicate TrimmedAt(s: string, r: string, a: int) {
    && 0 <= a <= |s| - |r|
    && s[a..a + |r|] == r
    && (forall i :: 0 <= i < a ==> IsTrimChar(s[i]))
    && (forall i :: a + |r| <= i < |s| ==> IsTrimChar(s[i]))
  }

  /** `s` neither starts nor ends with a trim character. */
  predicate IsTrimmed(s: string) {
    s == [] || (!IsTrimChar(s[0]) && !IsTrimChar(s[|s| - 1]))
  }

  /** `r` is `s` with some trim characters removed around it. */
  ghost predicate TrimmedFrom(s: string, r: string) {
    exists a :: TrimmedAt(s, r, a)
  }

  /** PHP's `trim($s)`: `s` without the trim characters around it; what is
      left neither starts nor ends with one. */
  function Trim(s: string): (r: string)
    ensures IsTrimmed(r)
    ensures TrimmedFrom(s, r)
  {
    var a := LeadingTrimCount(s);
    var rest := s[a..];
    var b := TrailingTrimCount(rest);
    var r := rest[..|rest| - b];
    assert s[a..a + |r|] == r;
    assert forall i :: a + |r| <= i < |s| ==> s[i] == rest[i - a];
    assert TrimmedAt(s, r, a);
    r
  }

  /** Trimming a string with no surrounding trim characters changes nothing. */
  lemma TrimKeepsClean(s: string)
    requires IsTrimmed(s)
    ensures Trim(s) == s
  {
    var r := Trim(s);
    var a :| TrimmedAt(s, r, a);
    if |s| > 0 {
      assert !IsTrimChar(s[0]) && !IsTrimChar(s[|s| - 1]);
      assert a == 0 && |r| == |s|;
    }
  }

  /** The white space PHP skips around a number written in a string. */
  predicate IsNumericSpace(c: char) {
    c == ' ' || c == '\t' || c == '\n' || c == '\r' || c == '\U{B}' || c == '\U{C}'
  }

  /** `s` without its leading white space. */
  function SkipSpace(s: string): (r: string)
    ensures |r| <= |s| && r == s[|s| - |r|..]
    ensures |r| > 0 ==> !IsNumericSpace(r[0])
  {
    if |s| > 0 && IsNumericSpace(s[0]) then SkipSpace(s[1..]) else s
  }

  /** `s` without one leading sign character. */
  function SkipSign(s: string): (r: string)
    ensures |r| <= |s| <= |r| + 1 && r == s[|s| - |r|..]
  {
    if |s| > 0 && (s[0] == '+' || s[0] == '-') then s[1..] else s
  }

  /** Length of the run of digits at the start of `s`. */
  function DigitRun(s: string): (n: nat)
    ensures n <= |s| && forall i :: 0 <= i < n ==> IsDigit(s[i])
    ensures n < |s| ==> !IsDigit(s[n])
  {
    if |s| == 0 || !IsDigit(s[0]) then 0
    else
      var n := 1 + DigitRun(s[1..]);
      assert forall i :: 1 <= i < n ==> s[i] == s[1..][i - 1];
      n
  }

  /** A run of digits ends where the first non-digit follows it. */
  lemma {:induction false} DigitRunOf(d: string, rest: string)
    requires AllDigits(d)
    requires |rest| > 0 ==> !IsDigit(rest[0])
    ensures DigitRun(d + rest) == |d|
  {
    if |d| > 0 {
      assert (d + rest)[1..] == d[1..] + rest;
      DigitRunOf(d[1..], rest);
    }
  }

  lemma DigitRunAll(s: string)
    requires AllDigits(s)
    ensures DigitRun(s) == |s|
  {
    DigitRunOf(s, []);
    assert s + [] == s;
  }

  /** A decimal numeral as PHP reads one at the start of a string: an
      optional sign, digits around an optional decimal point with at least
      one digit in all, then an optional exponent (`e` or `E`, an optional
      sign, at least one digit). `length` counts the characters it spans. */
  datatype Numeral = Numeral(negative: bool, whole: string, fraction: string, exponent: int, length: nat)

  /** The exponent starting at position `i` of `u`, if one does: its value
      and the position just after its last digit. */
  function ExponentAt(u: string, i: nat): (r: Option<(int, nat)>)
    requires i <= |u|
    ensures r.Some? ==> i < r.value.1 <= |u|
    ensures r.Some? && r.value.1 < |u| ==> !IsDigit(u[r.value.1])
  {
    if i < |u| && (u[i] == 'e' || u[i] == 'E') then
      var j := if i + 1 < |u| && (u[i + 1] == '+' || u[i + 1] == '-') then i + 2 else i + 1;
      var n := DigitRun(u[j..]);
      if n == 0 then None
      else
        var v := DigitsValue(u[j..][..n]) as int;
        Some((if j == i + 2 && u[i + 1] == '-' then -v else v, j + n))
    else None
  }

  /** The digits around an optional decimal point at the start of `v`:
      the whole part, the fraction, and the position after them. None when
      `v` starts with no digit, not even after a point. */
  function Mantissa(v: string): (r: Option<(string, string, nat)>)
    ensures r.Some? ==> && AllDigits(r.value.0) && AllDigits(r.value.1)
                        && 0 < |r.value.0| + |r.value.1| && 0 < r.value.2 <= |v|
    ensures r.Some? && r.value.2 < |v| ==> !IsDigit(v[r.value.2])
    ensures r.None? <==> !(0 < |v| && IsDigit(v[0])) && !(1 < |v| && v[0] == '.' && IsDigit(v[1]))
  {
    var w := DigitRun(v);
    var hasPoint := w < |v| && v[w] == '.';
    var f := if hasPoint then DigitRun(v[w + 1..]) else 0;
    if w + f == 0 then None
    else if hasPoint then Some((v[..w], v[w + 1..][..f], w + 1 + f))
    else Some((v[..w], [], w))
  }

  /** The numeral at the very start of `u`, read as far as it goes; None
      when `u` does not start with one. */
  function ReadNumeral(u: string): (r: Option<Numeral>)
    ensures r.Some? ==> && 0 < r.value.length <= |u|
                        && AllDigits(r.value.whole) && AllDigits(r.value.fraction)
                        && 0 < |r.value.whole| + |r.value.fraction|
    ensures r.Some? && r.value.length < |u| ==> !IsDigit(u[r.value.length])
  {
    var v := SkipSign(u);
    var sign := |u| - |v|;
    var m := Mantissa(v);
    if m.None? then None
    else
      var negative := sign == 1 && u[0] == '-';
      var e := ExponentAt(v, m.value.2);
      if e.None? then Some(Numeral(negative, m.value.0, m.value.1, 0, sign + m.value.2))
      else Some(Numeral(negative, m.value.0, m.value.1, e.value.0, sign + e.value.1))
  }

  /** A text starts with no numeral exactly when, after an optional sign,
      it starts with neither a digit nor a point followed by a digit. */
  lemma {:induction false} NoNumeral(u: string)
    ensures ReadNumeral(u).None? <==> var v := SkipSign(u);
              !(0 < |v| && IsDigit(v[0])) && !(1 < |v| && v[0] == '.' && IsDigit(v[1]))
  {
  }

  /** Nothing is skipped before a text that starts with no white space. */
  lemma StartsUnspaced(u: string)
    requires 0 < |u| && !IsNumericSpace(u[0])
    ensures SkipSpace(u) == u
  {
  }

  /** Reading a numeral without a sign and without an exponent: the
      mantissa alone. */
  lemma {:induction false} ReadUnsigned(u: string, whole: string, fraction: string, end: nat)
    requires 0 < |u| && IsDigit(u[0])
    requires Mantissa(u) == Some((whole, fraction, end))
    requires ExponentAt(u, end).None?
    ensures ReadNumeral(u) == Some(Numeral(false, whole, fraction, 0, end))
  {
    assert SkipSign(u) == u;
  }

  /** Digits followed by neither a digit nor a point form the whole
      mantissa. */
  lemma {:induction false} MantissaOfDigits(d: string, rest: string)
    requires 0 < |d| && AllDigits(d)
    requires |rest| > 0 ==> !IsDigit(rest[0]) && rest[0] != '.'
    ensures Mantissa(d + rest) == Some((d, [], |d|))
  {
    DigitRunOf(d, rest);
    assert (d + rest)[..|d|] == d;
  }

  /** Digits, a point and more digits form the whole mantissa. */
  lemma {:induction false} MantissaOfFraction(d: string, f: string)
    requires 0 < |d| && AllDigits(d) && AllDigits(f)
    ensures Mantissa(d + "." + f) == Some((d, f, |d| + 1 + |f|))
  {
    var v := d + "." + f;
    DigitRunOf(d, "." + f);
    assert v == d + ("." + f);
    assert v[..|d|] == d && v[|d|] == '.';
    assert v[|d| + 1..] == f;
    DigitRunAll(f);
    assert f[..|f|] == f;
  }

  /** An `e` followed by digits up to the end is an exponent of their
      value. */
  lemma {:induction false} ExponentOfDigits(s: string, i: nat, x: string)
    requires 0 < |x| && AllDigits(x)
    requires i < |s| && s[i] == 'e' && s[i + 1..] == x
    ensures ExponentAt(s, i) == Some((DigitsValue(x) as int, |s|))
  {
    assert s[i + 1] == x[0];
    DigitRunAll(x);
    assert x[..|x|] == x;
  }

  /** The numeral's value with any fractional part cut off toward zero: the
      float PHP reads, converted to an integer. */
  function NumeralValue(n: Numeral): int
    requires AllDigits(n.whole) && AllDigits(n.fraction)
  {
    var digits := n.whole + n.fraction;
    assert AllDigits(digits);
    var shift := n.exponent - |n.fraction|;
    var magnitude := if shift >= 0 then DigitsValue(digits) * Pow10(shift)
                     else DigitsValue(digits) / Pow10(-shift);
    if n.negative then -magnitude else magnitude
  }

  /** PHP's `(int)$s`: leading white space is skipped and the numeral there
      is read as far as it goes (PHP 7.1 and later read the fraction and
      the exponent too); 0 when no numeral starts the text. */
  function IntCast(s: string): int {
    match ReadNumeral(SkipSpace(s))
    case None => 0
    case Some(n) => NumeralValue(n)
  }

  /** PHP's `is_numeric($s)`: white space, one numeral, white space, and
      nothing else. */
  predicate IsNumeric(s: string) {
    var u := SkipSpace(s);
    match ReadNumeral(u)
    case None => false
    case Some(n) => forall i :: n.length <= i < |u| ==> IsNumericSpace(u[i])
  }

  /** An integer as PHP prints it is read as one whole numeral without
      fraction or exponent. */
  lemma {:induction false} ReadSignedDecimal(i: int)
    ensures SkipSpace(SignedDecimal(i)) == SignedDecimal(i)
    ensures ReadNumeral(SignedDecimal(i))
            == Some(Numeral(i < 0, Decimal(if i < 0 then -i else i), [], 0, |SignedDecimal(i)|))
  {
    var s := SignedDecimal(i);
    var d := Decimal(if i < 0 then -i else i);
    assert s[0] == '-' || IsDigit(s[0]) by {
      if i < 0 { assert s[0] == '-'; } else { assert s[0] == d[0]; }
    }
    StartsUnspaced(s);
    assert SkipSign(s) == d by {
      if i < 0 { assert s[1..] == d; }
    }
    MantissaOfDigits(d, []);
    assert d + [] == d;
    var n := ReadNumeral(s);
    assert Mantissa(d) == Some((d, [], |d|));
    assert ExponentAt(d, |d|).None?;
    assert n.value.negative == (i < 0);
  }

  /** The cast reads back every integer PHP prints. */
  lemma {:induction false} IntCastReadsSignedDecimal(i: int)
    ensures IntCast(SignedDecimal(i)) == i
  {
    var d := Decimal(if i < 0 then -i else i);
    ReadSignedDecimal(i);
    DecimalRoundTrip(if i < 0 then -i else i);
    assert d + [] == d;
  }

  /** `m` followed by a decimal point and the digits `f` is one numeral,
      whatever `f` holds. */
  lemma {:induction false} ReadDecimalFraction(m: nat, f: string)
    requires AllDigits(f)
    ensures var s := Decimal(m) + "." + f;
            SkipSpace(s) == s && ReadNumeral(s) == Some(Numeral(false, Decimal(m), f, 0, |s|))
  {
    var s := Decimal(m) + "." + f;
    assert s[0] == Decimal(m)[0];
    StartsUnspaced(s);
    MantissaOfFraction(Decimal(m), f);
    assert ExponentAt(s, |s|).None?;
    ReadUnsigned(s, Decimal(m), f, |s|);
  }

  /** PHP 7.1+ casts `"m.f"` to `m`: the fraction is cut off. */
  lemma {:induction false} IntCastCutsFraction(m: nat, f: string)
    requires AllDigits(f)
    ensures IntCast(Decimal(m) + "." + f) == m
  {
    var d := Decimal(m);
    ReadDecimalFraction(m, f);
    DigitsValueAppend(d, f);
    DigitsBound(f);
    DecimalRoundTrip(m);
    CutOff(m, DigitsValue(f), Pow10(|f|));
  }

  /** Digits followed by an `e` end the mantissa before the `e`. */
  lemma {:induction false} MantissaBeforeExponent(d: string, x: string)
    requires 0 < |d| && AllDigits(d)
    ensures Mantissa(d + "e" + x) == Some((d, [], |d|))
    ensures IsDigit((d + "e" + x)[0]) && SkipSign(d + "e" + x) == d + "e" + x
  {
    assert (d + "e" + x)[0] == d[0];
    assert d + "e" + x == d + ("e" + x);
    MantissaOfDigits(d, "e" + x);
  }

  /** An `e` after the digits of `d`, followed by the digits `x` up to the
      end, is an exponent of their value. */
  lemma {:induction false} ExponentAfterDigits(d: string, x: string)
    requires 0 < |x| && AllDigits(x)
    ensures ExponentAt(d + "e" + x, |d|) == Some((DigitsValue(x) as int, |d| + 1 + |x|))
  {
    var s := d + "e" + x;
    assert s[|d|] == 'e';
    assert s[|d| + 1..] == x;
    ExponentOfDigits(s, |d|, x);
  }

  /** Digits, an `e` and digits again form one numeral whose exponent is
      the second run of digits. */
  lemma {:induction false} ReadDigitsExponent(d: string, x: string)
    requires 0 < |d| && AllDigits(d) && 0 < |x| && AllDigits(x)
    ensures ReadNumeral(d + "e" + x) == Some(Numeral(false, d, [], DigitsValue(x) as int, |d| + 1 + |x|))
  {
    MantissaBeforeExponent(d, x);
    ExponentAfterDigits(d, x);
  }

  /** A numeral of whole digits and a non-negative exponent is worth the
      digits shifted left by the exponent. */
  lemma {:induction false} ScaledWhole(n: Numeral)
    requires AllDigits(n.whole) && n.fraction == [] && n.exponent >= 0 && !n.negative
    ensures NumeralValue(n) == DigitsValue(n.whole) * Pow10(n.exponent)
  {
    assert n.whole + n.fraction == n.whole;
  }

  /** The cast reads digits, an `e` and digits as the first run of digits
      times ten to the second. */
  lemma {:induction false} IntCastDigitsExponent(d: string, x: string)
    requires 0 < |d| && AllDigits(d) && 0 < |x| && AllDigits(x)
    ensures IntCast(d + "e" + x) == DigitsValue(d) * Pow10(DigitsValue(x))
  {
    var s := d + "e" + x;
    assert s[0] == d[0];
    StartsUnspaced(s);
    ReadDigitsExponent(d, x);
    ScaledWhole(Numeral(false, d, [], DigitsValue(x) as int, |d| + 1 + |x|));
  }

  /** PHP 7.1+ casts `"me k"` to `m` times ten to the `k`: `(int)"2e1"` is 20. */
  lemma {:induction false} IntCastReadsExponent(m: nat, k: nat)
    ensures IntCast(Decimal(m) + "e" + Decimal(k)) == m * Pow10(k)
  {
    IntCastDigitsExponent(Decimal(m), Decimal(k));
    DecimalRoundTrip(m);
    DecimalRoundTrip(k);
  }

  /** The digits of `a` then `b` denote `a` shifted left by `|b|` digits,
      plus `b`. */
  lemma {:induction false} DigitsValueAppend(a: string, b: string)
    requires AllDigits(a) && AllDigits(b)
    ensures AllDigits(a + b)
    ensures DigitsValue(a + b) == DigitsValue(a) * Pow10(|b|) + DigitsValue(b)
  {
    if |b| > 0 {
      var b' := b[..|b| - 1];
      var last := DigitValue(b[|b| - 1]);
      assert (a + b)[..|a + b| - 1] == a + b';
      assert (a + b)[|a + b| - 1] == b[|b| - 1];
      DigitsValueAppend(a, b');
      ShiftDigit(DigitsValue(a), DigitsValue(b'), Pow10(|b'|), last);
    } else {
      assert a + b == a;
    }
  }

  /** Appending one digit to both numbers: the shift grows tenfold. */
  lemma ShiftDigit(a: nat, b: nat, p: nat, d: nat)
    ensures (a * p + b) * 10 + d == a * (10 * p) + (b * 10 + d)
  {
  }

  lemma {:induction false} DigitsBound(s: string)
    requires AllDigits(s)
    ensures DigitsValue(s) < Pow10(|s|)
  {
    if |s| > 0 {
      DigitsBound(s[..|s| - 1]);
    }
  }

  lemma MulLeft(a: nat, b: nat, p: nat)
    requires a <= b
    ensures a * p <= b * p
  {
  }

  /** Cutting the low digits off `m * p + r` leaves `m`. */
  lemma CutOff(m: nat, r: nat, p: nat)
    requires r < p
    ensures (m * p + r) / p == m
  {
    var x := m * p + r;
    var q := x / p;
    assert x == q * p + x % p;
    if q < m {
      assert (q + 1) * p == q * p + p;
      MulLeft(q + 1, m, p);
    } else if q > m {
      assert (m + 1) * p == m * p + p;
      MulLeft(m + 1, q, p);
    }
  }

  /** PHP's `implode(sep, parts)`. */
  function Join(parts: seq<string>, sep: string): (r: string)
    ensures |parts| == 1 ==> r == parts[0]
  {
    if |parts| == 0 then ""
    else if |parts| == 1 then parts[0]
    else parts[0] + sep + Join(parts[1..], sep)
  }
}
