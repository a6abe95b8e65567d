/** Parsing of text supplied for simple-typed members: signed decimal text
    for 32-bit integers and the two boolean literals. */
module Parsing {
  import opened Results

  const Int32Min: int := -0x8000_0000
  const Int32Max: int := 0x7FFF_FFFF

  predicate InInt32Range(n: int) {
    Int32Min <= n <= Int32Max
  }

  predicate IsDigit(c: char) {
    '0' <= c <= '9'
  }

  predicate AllDigits(s: string) {
    forall i :: 0 <= i < |s| ==> IsDigit(s[i])
  }

  function DigitValue(c: char): (d: nat)
    requires IsDigit(c)
    ensures d < 10
  {
    c as int - '0' as int
  }

  function DigitChar(d: nat): (c: char)
    requires d < 10
    ensures IsDigit(c) && DigitValue(c) == d
  {
    ('0' as int + d) as char
  }

  /** The number a run of decimal digits denotes, most significant digit first. */
  function DigitsValue(s: string): nat
    requires AllDigits(s)
  {
    if |s| == 0 then 0 else DigitsValue(s[..|s| - 1]) * 10 + DigitValue(s[|s| - 1])
  }

  /** The shortest decimal spelling of `n`; it denotes `n` again. */
  function Digits(n: nat): (s: string)
    ensures |s| > 0 && AllDigits(s)
    ensures DigitsValue(s) == n
  {
    if n < 10 then [DigitChar(n)]
    else
      var prefix := Digits(n / 10);
      var s := prefix + [DigitChar(n % 10)];
      assert s[..|s| - 1] == prefix;
      s
  }

  /** Decimal text of an integer, with a leading '-' when negative. */
  function FormatInt(n: int): string {
    if n < 0 then "-" + Digits(-n) else Digits(n)
  }

  /** An optional sign followed by at least one decimal digit. */
  predicate SignedDigitRun(s: string) {
    if |s| > 0 && (s[0] == '-' || s[0] == '+') then |s| > 1 && AllDigits(s[1..])
    else |s| > 0 && AllDigits(s)
  }

  /** The number a signed digit run denotes. */
  function SignedValue(s: string): int
    requires SignedDigitRun(s)
  {
    if s[0] == '-' then 0 - DigitsValue(s[1..]) as int
    else if s[0] == '+' then DigitsValue(s[1..])
    else DigitsValue(s)
  }

  /** Integer parsing: an optional sign followed by at least one decimal digit,
      rejected when the number falls outside the 32-bit signed range. */
  function ParseInt(s: string): (r: Option<int>)
    ensures r.Some? ==> InInt32Range(r.value)
    ensures r.Some? ==> |s| > 0 && (IsDigit(s[0]) || s[0] == '-' || s[0] == '+')
    ensures r.Some? ==> AllDigits(s[1..])
    ensures !AllDigits(s) && (|s| == 0 || (s[0] != '-' && s[0] != '+')) ==> r.None?
    ensures r.Some? <==> SignedDigitRun(s) && InInt32Range(SignedValue(s))
    ensures r.Some? ==> r.value == SignedValue(s)
  {
    var signed := |s| > 0 && (s[0] == '-' || s[0] == '+');
    var body := if signed then s[1..] else s;
    if |body| == 0 || !AllDigits(body) then None
    else
      var magnitude: int := DigitsValue(body);
      var n: int := if signed && s[0] == '-' then -magnitude else magnitude;
      if InInt32Range(n) then Some(n) else None
  }

  /** Parsing the decimal text of any 32-bit integer gives that integer back. */
  lemma ParseFormatInt(n: int)
    requires InInt32Range(n)
    ensures ParseInt(FormatInt(n)) == Some(n)
  {
  }

  function LowerChar(c: char): char {
    if 'A' <= c <= 'Z' then (c as int + 32) as char else c
  }

  predicate EqualsIgnoringCase(a: string, b: string) {
    |a| == |b| && forall i :: 0 <= i < |a| ==> LowerChar(a[i]) == LowerChar(b[i])
  }

  /** Boolean parsing: "true" or "false" in any letter case. */
  function ParseBool(s: string): (r: Option<bool>)
    ensures r == Some(true) <==> EqualsIgnoringCase(s, "true")
    ensures r == Some(false) <==> EqualsIgnoringCase(s, "false")
  {
    if EqualsIgnoringCase(s, "true") then Some(true)
    else if EqualsIgnoringCase(s, "false") then Some(false)
    else None
  }

  /** The text a boolean renders to. */
  function FormatBool(b: bool): string {
    if b then "True" else "False"
  }

  lemma ParseFormatBool(b: bool)
    ensures ParseBool(FormatBool(b)) == Some(b)
  {
  }
}
