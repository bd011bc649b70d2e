/**
 * Decimal integer parsing as `std::stoi` does it with base 10: the configuration
 * dispatch turns its numeric tokens into `int` this way. Leading white space is
 * skipped, one optional sign is read, then the longest run of digits; anything
 * after the digits is ignored. No digits is `std::invalid_argument`; a value
 * outside the 32-bit `int` range is `std::out_of_range`.
 */
module Decimal {
  import opened Wrappers

  const IntMin: int := -0x8000_0000
  const IntMax: int := 0x7FFF_FFFF

  /** The characters `isspace` accepts in the "C" locale. */
  predicate IsSpace(c: char) {
    c == ' ' || c == '\t' || c == '\n' || c == '\r' || c as int == 11 || c as int == 12
  }

  predicate IsDigit(c: char) {
    '0' <= c <= '9'
  }

  function DigitValue(c: char): (d: nat)
    requires IsDigit(c)
    ensures d < 10
  {
    (c as int) - ('0' as int)
  }

  function DigitChar(d: nat): (c: char)
    requires d < 10
    ensures IsDigit(c) && DigitValue(c) == d
  {
    (('0' as int) + d) as char
  }

  predicate AllDigits(s: string) {
    forall i :: 0 <= i < |s| ==> IsDigit(s[i])
  }

  /** `s` without its leading white space. */
  function SkipSpaces(s: string): (r: string)
    ensures |r| <= |s|
    ensures |r| > 0 ==> !IsSpace(r[0])
  {
    if |s| > 0 && IsSpace(s[0]) then SkipSpaces(s[1..]) else s
  }

  /** Length of the run of digits that starts `s`. */
  function DigitRun(s: string): (n: nat)
    ensures n <= |s| && AllDigits(s[..n])
    ensures n < |s| ==> !IsDigit(s[n])
  {
    if |s| > 0 && IsDigit(s[0]) then 1 + DigitRun(s[1..]) else 0
  }

  /** The number a string of decimal digits denotes, most significant digit first. */
  function ValueOf(ds: string): nat
    requires AllDigits(ds)
  {
    if |ds| == 0 then 0 else ValueOf(ds[..|ds| - 1]) * 10 + DigitValue(ds[|ds| - 1])
  }

  /** `std::stoi(s)`. */
  function ParseInt(s: string): (r: Result<int>)
    ensures r.Ok? ==> IntMin <= r.value <= IntMax
  {
    ParseSigned(SkipSpaces(s))
  }

  /** What `std::stoi` does once white space is skipped: an optional sign, then digits. */
  function ParseSigned(t: string): (r: Result<int>)
    ensures r.Ok? ==> IntMin <= r.value <= IntMax
  {
    if |t| > 0 && t[0] == '-' then
      match ReadMagnitude(t[1..])
      case None => Err("stoi: no conversion")
      case Some(m) => InIntRange(-(m as int))
    else
      var body := if |t| > 0 && t[0] == '+' then t[1..] else t;
      match ReadMagnitude(body)
      case None => Err("stoi: no conversion")
      case Some(m) => InIntRange(m)
  }

  /** The value of the leading run of digits, if there is at least one digit. */
  function ReadMagnitude(body: string): (r: Option<nat>)
    ensures r.None? <==> DigitRun(body) == 0
  {
    var n := DigitRun(body);
    if n == 0 then None else Some(ValueOf(body[..n]))
  }

  /** A value that fits in a 32-bit `int`, or `std::out_of_range`. */
  function InIntRange(v: int): (r: Result<int>)
    ensures r.Ok? <==> IntMin <= v <= IntMax
    ensures r.Ok? ==> r.value == v
  {
    if v < IntMin || IntMax < v then Err("stoi: out of range") else Ok(v)
  }

  /** Decimal rendering of a natural number, without leading zeros. */
  function ShowNat(n: nat): (s: string)
    ensures |s| > 0 && AllDigits(s)
  {
    if n < 10 then [DigitChar(n)] else ShowNat(n / 10) + [DigitChar(n % 10)]
  }

  /** Decimal rendering of an integer, as `std::to_string` writes it. */
  function ShowInt(n: int): (s: string)
    ensures |s| > 0
  {
    if n < 0 then "-" + ShowNat(-n) else ShowNat(n)
  }

  lemma {:induction false} ValueOfShowNat(n: nat)
    ensures ValueOf(ShowNat(n)) == n
  {
    var s := ShowNat(n);
    if n >= 10 {
      assert s[..|s| - 1] == ShowNat(n / 10);
      ValueOfShowNat(n / 10);
    }
  }

  lemma {:induction false} DigitRunStopsAtNonDigit(ds: string, rest: string)
    requires AllDigits(ds)
    requires |rest| == 0 || !IsDigit(rest[0])
    ensures DigitRun(ds + rest) == |ds|
  {
    if |ds| > 0 {
      assert (ds + rest)[1..] == ds[1..] + rest;
      DigitRunStopsAtNonDigit(ds[1..], rest);
    }
  }

  /**
   * Reading back a rendered `int`, followed by anything that does not continue
   * the digits, gives the number back: `stoi(to_string(n) + rest) == n`.
   */
  lemma ParseShowInt(n: int, rest: string)
    requires IntMin <= n <= IntMax
    requires |rest| == 0 || !IsDigit(rest[0])
    ensures ParseInt(ShowInt(n) + rest) == Ok(n)
  {
    if n < 0 {
      ParseShowNegative(n, rest);
    } else {
      ParseShowNatural(n, rest);
    }
  }

  lemma ParseShowNegative(n: int, rest: string)
    requires IntMin <= n < 0
    requires |rest| == 0 || !IsDigit(rest[0])
    ensures ParseInt(ShowInt(n) + rest) == Ok(n)
  {
    var digits := ShowNat(-n);
    ValueOfShowNat(-n);
    var s := "-" + (digits + rest);
    assert ShowInt(n) + rest == s;
    assert SkipSpaces(s) == s;
    ParseNegativeDigits(s, digits, rest);
  }

  lemma ParseShowNatural(n: nat, rest: string)
    requires n <= IntMax
    requires |rest| == 0 || !IsDigit(rest[0])
    ensures ParseInt(ShowInt(n) + rest) == Ok(n)
  {
    var digits := ShowNat(n);
    ValueOfShowNat(n);
    var s := digits + rest;
    assert SkipSpaces(s) == s by { assert IsDigit(s[0]); }
    ParseUnsignedDigits(s, digits, rest);
  }

  lemma ParseUnsignedDigits(s: string, ds: string, rest: string)
    requires |ds| > 0 && AllDigits(ds) && s == ds + rest && ValueOf(ds) <= IntMax
    requires |rest| == 0 || !IsDigit(rest[0])
    ensures ParseSigned(s) == Ok(ValueOf(ds))
  {
    assert IsDigit(s[0]);
    ReadDigitsOf(ds, rest);
  }

  lemma ParseNegativeDigits(s: string, ds: string, rest: string)
    requires |ds| > 0 && AllDigits(ds) && s == "-" + (ds + rest) && ValueOf(ds) <= -IntMin
    requires |rest| == 0 || !IsDigit(rest[0])
    ensures ParseSigned(s) == Ok(-(ValueOf(ds) as int))
  {
    assert s[0] == '-' && s[1..] == ds + rest;
    ReadDigitsOf(ds, rest);
    ParseMinus(s, ValueOf(ds));
  }

  lemma ParseMinus(t: string, m: nat)
    requires |t| > 0 && t[0] == '-' && ReadMagnitude(t[1..]) == Some(m) && m <= -IntMin
    ensures ParseSigned(t) == Ok(-(m as int))
  {
  }

  /** The magnitude read from `ds + rest` is the value of `ds` when `rest` does not continue its digits. */
  lemma ReadDigitsOf(ds: string, rest: string)
    requires |ds| > 0 && AllDigits(ds)
    requires |rest| == 0 || !IsDigit(rest[0])
    ensures ReadMagnitude(ds + rest) == Some(ValueOf(ds))
  {
    DigitRunStopsAtNonDigit(ds, rest);
    assert (ds + rest)[..|ds|] == ds;
  }

  /** White space in front of a number does not change what `stoi` reads. */
  lemma {:induction false} ParseSkipsLeadingSpace(ws: string, s: string)
    requires forall i :: 0 <= i < |ws| ==> IsSpace(ws[i])
    ensures ParseInt(ws + s) == ParseInt(s)
  {
    SkipSpacesPrefix(ws, s);
  }

  lemma {:induction false} SkipSpacesPrefix(ws: string, s: string)
    requires forall i :: 0 <= i < |ws| ==> IsSpace(ws[i])
    ensures SkipSpaces(ws + s) == SkipSpaces(s)
  {
    if |ws| > 0 {
      assert (ws + s)[1..] == ws[1..] + s;
      SkipSpacesPrefix(ws[1..], s);
    } else {
      assert ws + s == s;
    }
  }
}
