/** Decimal text of 64-bit integers: printed, and read back as the portal reads a stored integer. */
module Decimal {
  import opened Options

  const MIN_INT64 := -0x8000_0000_0000_0000
  const MAX_INT64 := 0x7fff_ffff_ffff_ffff

  predicate InInt64(n: int) { MIN_INT64 <= n <= MAX_INT64 }

  predicate IsDigit(c: char) { '0' <= c <= '9' }

  function DigitValue(c: char): (d: nat)
    requires IsDigit(c)
    ensures d < 10
  {
    c as int - '0' as int
  }

  function Digit(d: nat): (c: char)
    requires d < 10
    ensures IsDigit(c) && DigitValue(c) == d
  {
    ('0' as int + d) as char
  }

  function NatText(n: nat): string {
    if n < 10 then [Digit(n)] else NatText(n / 10) + [Digit(n % 10)]
  }

  function IntText(n: int): string {
    if n < 0 then "-" + NatText(-n) else NatText(n)
  }

  /** The value of a possibly empty run of digits. */
  function Digits(s: string): Option<nat> {
    if s == "" then Some(0)
    else
      var last := |s| - 1;
      var high := Digits(s[..last]);
      if high.Some? && IsDigit(s[last]) then Some(10 * high.value + DigitValue(s[last])) else None
  }

  /** An optional sign and at least one digit, within 64 bits. */
  function ParseInt(s: string): Option<int> {
    if s == "" then None
    else
      var signed := s[0] == '-' || s[0] == '+';
      var digits := if signed then s[1..] else s;
      var v := Digits(digits);
      if digits == "" || v.None? then None
      else
        var m: int := v.value;
        var n := if s[0] == '-' then -m else m;
        if InInt64(n) then Some(n) else None
  }

  /** Two digits of a number below a hundred. */
  function TwoDigits(n: nat): string
    requires n < 100
  {
    [Digit(n / 10), Digit(n % 10)]
  }

  lemma TwoDigitsRead(n: nat)
    requires n < 100
    ensures Digits(TwoDigits(n)) == Some(n) && ParseInt(TwoDigits(n)) == Some(n)
  {
    var t := TwoDigits(n);
    assert t[..1] == [t[0]] && t[..1][..0] == "";
    assert Digits(t[..1]) == Some(n / 10);
  }

  /** The last character is the units digit, and what stands before it is the text of the tens. */
  lemma NatTextDigits(n: nat)
    ensures var t := NatText(n); var last := |t| - 1;
      && last >= 0 && t[last] as int == '0' as int + n % 10
      && t[..last] == if n < 10 then "" else NatText(n / 10)
  {
  }

  lemma {:induction false} DigitsOfNatText(n: nat)
    ensures |NatText(n)| > 0 && Digits(NatText(n)) == Some(n)
    ensures forall i :: 0 <= i < |NatText(n)| ==> IsDigit(NatText(n)[i])
    ensures n > 0 ==> NatText(n)[0] != '0'
  {
    if n < 10 {
      assert Digits([Digit(n)][..0]) == Some(0);
    } else {
      DigitsOfNatText(n / 10);
      var t := NatText(n);
      assert t[..|t| - 1] == NatText(n / 10);
    }
  }

  /** Every 64-bit integer survives being printed and read back. */
  lemma PrintParse(n: int)
    requires InInt64(n)
    ensures ParseInt(IntText(n)) == Some(n)
  {
    DigitsOfNatText(if n < 0 then -n else n);
    if n < 0 { assert IntText(n)[1..] == NatText(-n); }
  }
}
