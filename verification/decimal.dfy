/** Decimal integers as text: Go's `strconv.Itoa` / `fmt.Sprintf("%d", …)` on
    the writing side and `strconv.Atoi` / `strconv.ParseInt(s, 10, 64)` on the
    reading side. Both readers accept an optional `+` or `-` sign followed by
    at least one ASCII digit and reject values outside the int64 range. */
module Decimal {
  import opened Common

  predicate IsDigit(c: char) { '0' <= c <= '9' }

  predicate AllDigits(s: string) {
    forall k | 0 <= k < |s| :: IsDigit(s[k])
  }

  function DigitValue(c: char): nat
    requires IsDigit(c)
  {
    (c as int) - ('0' as int)
  }

  function DigitChar(d: nat): (c: char)
    requires d < 10
    ensures IsDigit(c) && DigitValue(c) == d
  {
    ('0' as int + d) as char
  }

  /** The number a run of digits spells, most significant digit first. */
  function DigitsValue(s: string): nat
    requires AllDigits(s)
    decreases |s|
  {
    if |s| == 0 then 0 else DigitsValue(s[..|s| - 1]) * 10 + DigitValue(s[|s| - 1])
  }

  /** The shortest decimal spelling of `n`, read back as `n`. */
  function NatToString(n: nat): (r: string)
    ensures |r| >= 1 && AllDigits(r)
    ensures DigitsValue(r) == n
    ensures |r| > 1 ==> r[0] != '0'
    decreases n
  {
    if n < 10 then [DigitChar(n)]
    else
      var p := NatToString(n / 10);
      var r := p + [DigitChar(n % 10)];
      assert r[..|r| - 1] == p;
      r
  }

  /** Go's `strconv.Itoa` / `FormatInt(x, 10)`: a `-` exactly for a negative
      value, then the shortest digit run spelling its magnitude. */
  function FormatInt(x: int): (r: string)
    ensures |r| >= 1
    ensures r[0] == '-' <==> x < 0
    ensures var digits := if x < 0 then r[1..] else r;
            && |digits| >= 1
            && AllDigits(digits)
            && DigitsValue(digits) == (if x < 0 then -x else x)
            && (|digits| > 1 ==> digits[0] != '0')
  {
    if x < 0 then "-" + NatToString(-x) else NatToString(x)
  }

  /** The text after an optional leading `+` or `-`. */
  function Unsigned(s: string): (u: string)
    ensures |u| <= |s|
  {
    if |s| > 0 && (s[0] == '+' || s[0] == '-') then s[1..] else s
  }

  /** A sign (or none) followed by at least one digit: the shape both Go readers accept. */
  predicate WellFormedDecimal(s: string) {
    |Unsigned(s)| > 0 && AllDigits(Unsigned(s))
  }

  /** The number a well-formed text spells, negated after a `-`. */
  function SignedValue(s: string): int
    requires WellFormedDecimal(s)
  {
    if s[0] == '-' then -(DigitsValue(Unsigned(s)) as int) else DigitsValue(Unsigned(s))
  }

  /** Go's `strconv.ParseInt(s, 10, 64)` (and `Atoi` on a 64-bit platform):
      `None` stands for the returned error. Leading zeros and a `+` sign are
      accepted; anything but a sign and digits, and any value outside the
      int64 range, is an error. */
  function ParseInt64(s: string): (r: Option<Int64>)
    ensures r.Some? ==> WellFormedDecimal(s) && r.value == SignedValue(s)
    ensures WellFormedDecimal(s) && IsInt64(SignedValue(s)) ==> r.Some?
    ensures WellFormedDecimal(s) && !IsInt64(SignedValue(s)) ==> r.None?
    ensures r.Some? ==> (r.value < 0 ==> s[0] == '-')
  {
    if |s| == 0 then None
    else
      var body := if s[0] == '+' || s[0] == '-' then s[1..] else s;
      if |body| == 0 || !AllDigits(body) then None
      else
        var v: int := if s[0] == '-' then -(DigitsValue(body) as int) else DigitsValue(body);
        if IsInt64(v) then Some(v) else None
  }

  /** What `strconv` does with texts no formatter writes: a `+` sign, leading
      zeros and `-0` parse; a trailing letter and a bare sign do not. */
  lemma ParseNonCanonical()
    ensures ParseInt64("+5") == Some(5)
    ensures ParseInt64("007") == Some(7)
    ensures ParseInt64("-0") == Some(0)
    ensures ParseInt64("5a") == None
    ensures ParseInt64("-") == None
  {
    assert "+5"[1..] == "5";
    assert "-0"[1..] == "0";
    assert "007"[..2] == "00" && "00"[..1] == "0";
    assert DigitsValue("007") == 7;
  }

  /** Every int64 survives being written and read back. */
  lemma ParseFormat(x: Int64)
    ensures ParseInt64(FormatInt(x)) == Some(x)
  {
    var s := FormatInt(x);
    if x < 0 {
      var n: nat := -(x as int);
      assert s[1..] == NatToString(n);
    } else {
      assert IsDigit(s[0]);
    }
  }

  /** The text Go's map lookup yields for a missing key never parses. */
  lemma ParseEmpty()
    ensures ParseInt64("") == None
  {
  }
}
