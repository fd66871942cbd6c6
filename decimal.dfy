/** Base-10 conversion between integers and strings as Go's `strconv`
    package does it: FormatInt(n, 10) / Itoa for writing, Atoi for reading
    (an optional sign, at least one digit, nothing else, and a result that
    fits a 64-bit int). */
module Decimal {
  import opened Wrappers

  const MinInt64: int := -0x8000_0000_0000_0000
  const MaxInt64: int := 0x7FFF_FFFF_FFFF_FFFF

  predicate IsDigit(c: char) {
    '0' <= c <= '9'
  }

  predicate AllDigits(s: string) {
    forall i :: 0 <= i < |s| ==> IsDigit(s[i])
  }

  function DigitChar(d: nat): (c: char)
    requires d < 10
    ensures IsDigit(c)
  {
    ('0' as int + d) as char
  }

  function DigitValue(c: char): nat
    requires IsDigit(c)
  {
    c as int - '0' as int
  }

  /** The decimal digits of n, without leading zeros. */
  function Digits(n: nat): (s: string)
    ensures |s| >= 1 && AllDigits(s)
    ensures s[0] == '0' ==> n == 0 && s == "0"
  {
    if n < 10 then [DigitChar(n)] else Digits(n / 10) + [DigitChar(n % 10)]
  }

  /** The number a string of digits denotes. */
  function ValueOf(s: string): nat
    requires AllDigits(s)
  {
    if s == [] then 0 else ValueOf(s[..|s| - 1]) * 10 + DigitValue(s[|s| - 1])
  }

  /** strconv.FormatInt(n, 10), which strconv.Itoa also is. */
  function FormatInt(n: int): (s: string)
    ensures |s| >= 1
    ensures n >= 0 <==> AllDigits(s)
  {
    if n < 0 then
      var s := "-" + Digits(-n);
      assert s[0] == '-';
      s
    else Digits(n)
  }

  /** strconv.Atoi: None stands for the error result (a syntax error or a
      value out of the 64-bit range). */
  function Atoi(s: string): (r: Option<int>)
    ensures r.Some? ==> MinInt64 <= r.value <= MaxInt64
    ensures r.Some? ==> |s| >= 1
  {
    if s == [] then None
    else
      var negative := s[0] == '-';
      var body := if s[0] == '-' || s[0] == '+' then s[1..] else s;
      if body == [] || !AllDigits(body) then None
      else
        var magnitude: int := ValueOf(body);
        var v := if negative then -magnitude else magnitude;
        if v < MinInt64 || v > MaxInt64 then None else Some(v)
  }

  /** Reading back the digits of n gives n. */
  lemma {:induction false} ValueOfDigits(n: nat)
    ensures ValueOf(Digits(n)) == n
  {
    if n >= 10 {
      ValueOfDigits(n / 10);
      var s := Digits(n);
      assert s[..|s| - 1] == Digits(n / 10);
    }
  }

  /** Atoi is the inverse of FormatInt on every 64-bit integer. */
  lemma AtoiFormatInt(n: int)
    requires MinInt64 <= n <= MaxInt64
    ensures Atoi(FormatInt(n)) == Some(n)
  {
    if n < 0 {
      AtoiNegative(-n);
    } else {
      ValueOfDigits(n);
      var s := Digits(n);
      assert IsDigit(s[0]);
    }
  }

  /** Reading back a minus sign and the digits of m gives -m. */
  lemma AtoiNegative(m: nat)
    requires 0 < m <= -MinInt64
    ensures Atoi("-" + Digits(m)) == Some(-(m as int))
  {
    ValueOfDigits(m);
    var s := "-" + Digits(m);
    assert s[0] == '-';
    assert s[1..] == Digits(m);
  }

  /** Atoi accepts exactly the strings of a sign followed by digits. */
  lemma AtoiRejectsNonDigits(s: string, i: nat)
    requires 0 < i < |s| && !IsDigit(s[i])
    ensures Atoi(s) == None
  {
    if s[0] == '-' || s[0] == '+' {
      assert s[1..][i - 1] == s[i];
    }
  }
}
