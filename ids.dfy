/** `checkId`: the path segment that names a player, turned into a `Long`
    the way `Long.parseLong` does it with radix 10. */
module Ids {
  import opened Common

  const LongMin := -0x8000_0000_0000_0000
  const LongMax := 0x7fff_ffff_ffff_ffff

  predicate IsDigit(c: char) { '0' <= c <= '9' }

  predicate AllDigits(s: string) {
    forall i :: 0 <= i < |s| ==> IsDigit(s[i])
  }

  /** The number a string of decimal digits denotes, read left to right. */
  function DigitsValue(ds: string): nat
    requires AllDigits(ds)
  {
    if |ds| == 0 then 0
    else DigitsValue(ds[..|ds| - 1]) * 10 + (ds[|ds| - 1] as int - '0' as int)
  }

  /** `s` without its leading sign character, if it has one. */
  function Unsigned(s: string): string {
    if |s| > 0 && (s[0] == '-' || s[0] == '+') then s[1..] else s
  }

  /** `Long.parseLong(s)`: an optional sign `+` or `-` followed by at least
      one decimal digit (leading zeros allowed), whose value lies in the
      range of a `long`; anything else is a `NumberFormatException`, here
      `None`. */
  function ParseLong(s: string): (r: Option<int>)
    ensures r.Some? ==> LongMin <= r.value <= LongMax
    ensures r.Some? ==> |s| > 0
  {
    if |s| == 0 then None
    else
      var digits := Unsigned(s);
      if |digits| == 0 || !AllDigits(digits) then None
      else
        var v: int := if s[0] == '-' then -(DigitsValue(digits) as int) else DigitsValue(digits);
        if LongMin <= v <= LongMax then Some(v) else None
  }

  /** `checkId`: null, the empty string and `"0"` are refused outright,
      anything `Long.parseLong` refuses is refused too, and every other
      string yields its parsed value. */
  function CheckId(id: Option<string>): (r: Result<int>)
    ensures r.Err? ==> r.error == RequestError(IdIncorrect)
    ensures r.Ok? <==> id.Some? && id.value != "" && id.value != "0" && ParseLong(id.value).Some?
    ensures r.Ok? ==> Some(r.value) == ParseLong(id.value)
  {
    if id.None? || id.value == "" || id.value == "0" then Err(RequestError(IdIncorrect))
    else
      match ParseLong(id.value)
      case Some(v) => Ok(v)
      case None => Err(RequestError(IdIncorrect))
  }

  /** The digit character of `d`. */
  function DigitChar(d: nat): (c: char)
    requires d < 10
    ensures IsDigit(c) && c as int - '0' as int == d
  {
    ('0' as int + d) as char
  }

  /** The canonical decimal form of `n`: no sign and no leading zero. */
  function ToDecimal(n: nat): (s: string)
    decreases n
  {
    if n < 10 then [DigitChar(n)] else ToDecimal(n / 10) + [DigitChar(n % 10)]
  }

  /** Reading back the decimal form of `n` gives `n`; the form is nonempty,
      made of digits, and starts with a digit other than `0` unless `n` is 0. */
  lemma {:induction false} ToDecimalRoundTrip(n: nat)
    ensures AllDigits(ToDecimal(n)) && |ToDecimal(n)| >= 1
    ensures DigitsValue(ToDecimal(n)) == n
    ensures n > 0 ==> ToDecimal(n)[0] != '0'
    decreases n
  {
    if n >= 10 {
      var prefix := ToDecimal(n / 10);
      ToDecimalRoundTrip(n / 10);
      var s := prefix + [DigitChar(n % 10)];
      assert s[..|s| - 1] == prefix;
      assert s[0] == prefix[0];
    }
  }

  /** `ds` without its leading zeros. */
  function StripZeros(ds: string): string
    decreases |ds|
  {
    if |ds| > 0 && ds[0] == '0' then StripZeros(ds[1..]) else ds
  }

  /** A leading zero does not change the value of a digit string. */
  lemma {:induction false} LeadingZeroValue(t: string)
    requires AllDigits(t)
    ensures AllDigits("0" + t) && DigitsValue("0" + t) == DigitsValue(t)
    decreases |t|
  {
    var z := "0" + t;
    if |t| > 0 {
      var init := t[..|t| - 1];
      assert z[..|z| - 1] == "0" + init;
      LeadingZeroValue(init);
    } else {
      assert z[..|z| - 1] == "";
    }
  }

  /** Stripping leading zeros keeps the digits and their value and leaves
      no leading zero. */
  lemma {:induction false} StripZerosValue(ds: string)
    requires AllDigits(ds)
    ensures AllDigits(StripZeros(ds))
    ensures DigitsValue(StripZeros(ds)) == DigitsValue(ds)
    ensures |StripZeros(ds)| > 0 ==> StripZeros(ds)[0] != '0'
    decreases |ds|
  {
    if |ds| > 0 && ds[0] == '0' {
      var rest := ds[1..];
      assert ds == "0" + rest;
      LeadingZeroValue(rest);
      StripZerosValue(rest);
    }
  }

  /** A nonempty digit string without a leading zero is the canonical
      decimal form of its positive value. */
  lemma {:induction false} CanonicalDecimal(t: string)
    requires AllDigits(t) && |t| > 0 && t[0] != '0'
    ensures DigitsValue(t) >= 1 && t == ToDecimal(DigitsValue(t))
    decreases |t|
  {
    var init := t[..|t| - 1];
    var c := t[|t| - 1];
    var d := c as int - '0' as int;
    var n := DigitsValue(t);
    assert n == DigitsValue(init) * 10 + d;
    if |t| == 1 {
      assert init == "";
      assert ToDecimal(n) == [DigitChar(d)];
      assert [DigitChar(d)] == t;
    } else {
      assert init[0] == t[0];
      CanonicalDecimal(init);
      var m := DigitsValue(init);
      assert n / 10 == m && n % 10 == d;
      assert ToDecimal(n) == ToDecimal(m) + [DigitChar(d)];
      assert t == init + [c];
    }
  }

  /** What `Long.parseLong` read: an accepted string is an optional sign
      followed by at least one digit; a `-` gives a value at most 0 and
      anything else a value at least 0; and the digits, once leading zeros
      are dropped, spell the magnitude of the value in canonical decimal
      (nothing at all for 0). */
  lemma ParseLongSpelling(s: string, v: int)
    requires ParseLong(s) == Some(v)
    ensures AllDigits(Unsigned(s)) && |Unsigned(s)| >= 1
    ensures s[0] == '-' ==> v <= 0
    ensures s[0] != '-' ==> v >= 0
    ensures StripZeros(Unsigned(s)) == if v == 0 then "" else ToDecimal(if v < 0 then -v else v)
  {
    var digits := Unsigned(s);
    StripZerosValue(digits);
    var t := StripZeros(digits);
    if |t| > 0 {
      CanonicalDecimal(t);
    }
  }

  /** A sign `+`, leading zeros and a negative zero are all read, while a
      lone sign and a doubled sign are not. */
  lemma ParseLongSpellings()
    ensures ParseLong("+5") == Some(5)
    ensures ParseLong("007") == Some(7)
    ensures ParseLong("-0") == Some(0)
    ensures ParseLong("-") == None
    ensures ParseLong("+-5") == None
  {
    assert "+5"[1..] == "5" && "5"[..0] == "";
    assert "007"[..2] == "00" && "00"[..1] == "0" && "0"[..0] == "";
    assert "-0"[1..] == "0";
    assert "-"[1..] == "";
    assert "+-5"[1..] == "-5" && !IsDigit("-5"[0]);
  }

  /** Every positive `long` is accepted in its decimal form and yields itself. */
  lemma CheckIdPositiveRoundTrip(n: int)
    requires 1 <= n <= LongMax
    ensures CheckId(Some(ToDecimal(n))) == Ok(n)
  {
    ToDecimalRoundTrip(n);
  }

  /** Every negative `long` is accepted in its signed decimal form too. */
  lemma CheckIdNegativeRoundTrip(n: int)
    requires LongMin <= n <= -1
    ensures CheckId(Some("-" + ToDecimal(-n))) == Ok(n)
  {
    ToDecimalRoundTrip(-n);
    var s := "-" + ToDecimal(-n);
    assert s[1..] == ToDecimal(-n);
  }

  /** Null, `""`, `"0"` and a non-numeric string are refused. */
  lemma CheckIdRefusals()
    ensures CheckId(None) == Err(RequestError(IdIncorrect))
    ensures CheckId(Some("")) == Err(RequestError(IdIncorrect))
    ensures CheckId(Some("0")) == Err(RequestError(IdIncorrect))
    ensures CheckId(Some("abc")) == Err(RequestError(IdIncorrect))
  {
    assert !IsDigit("abc"[0]);
  }

  /** As written, `checkId` lets non-positive ids through: `"-5"` yields -5
      and `"00"` yields 0. */
  lemma CheckIdAcceptsNonPositive()
    ensures CheckId(Some("-5")) == Ok(-5)
    ensures CheckId(Some("00")) == Ok(0)
  {
    assert "-5"[1..] == "5";
    assert "5"[..0] == "";
    assert DigitsValue("5") == 5;
    assert "00"[..1] == "0";
    assert "0"[..0] == "";
    assert DigitsValue("0") == 0;
    assert DigitsValue("00") == 0;
  }

  /** `checkId` as evidently intended: only a positive identifier is
      accepted; every other answer agrees with `CheckId`. */
  function CheckPositiveId(id: Option<string>): (r: Result<int>)
    ensures r.Ok? ==> r.value >= 1 && CheckId(id) == r
    ensures CheckId(id).Ok? && CheckId(id).value >= 1 ==> r == CheckId(id)
    ensures r.Err? ==> r.error == RequestError(IdIncorrect)
  {
    match CheckId(id)
    case Ok(v) => if v >= 1 then Ok(v) else Err(RequestError(IdIncorrect))
    case Err(e) => Err(e)
  }

  /** The corrected check refuses `"-5"` and `"00"` and still accepts every
      positive `long` in decimal form. */
  lemma CheckPositiveIdRefusesNonPositive(n: int)
    requires 1 <= n <= LongMax
    ensures CheckPositiveId(Some("-5")).Err? && CheckPositiveId(Some("00")).Err?
    ensures CheckPositiveId(Some(ToDecimal(n))) == Ok(n)
  {
    CheckIdAcceptsNonPositive();
    CheckIdPositiveRoundTrip(n);
  }
}
