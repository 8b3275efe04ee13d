/** Decimal text: `strconv.FormatInt`, and `strconv.ParseInt` and `Atoi` on 64-bit integers. */
module Decimal {
  import opened Options

  const INT64_MAX := 0x7fff_ffff_ffff_ffff

  function Digit(d: nat): (c: char)
    requires d < 10
    ensures IsDigit(c) && DigitValue(c) == d
  {
    '0' + d as char
  }

  predicate IsDigit(c: char)
  {
    '0' <= c <= '9'
  }

  function DigitValue(c: char): nat
    requires IsDigit(c)
  {
    (c as int) - ('0' as int)
  }

  function Format(n: nat): (s: string)
    ensures s != [] && forall i :: 0 <= i < |s| ==> IsDigit(s[i])
  {
    if n < 10 then [Digit(n)] else Format(n / 10) + [Digit(n % 10)]
  }

  function Value(s: string): (v: Option<nat>)
  {
    if s == [] then Some(0)
    else
      var init := Value(s[..|s| - 1]);
      var c := s[|s| - 1];
      if init.Some? && IsDigit(c) then Some(10 * init.value + DigitValue(c)) else None
  }

  /** An optional sign and at least one digit, within 64 bits. */
  function Parse(s: string): (v: Option<int>)
    ensures v.Some? ==> -INT64_MAX - 1 <= v.value <= INT64_MAX
  {
    var negative := s != [] && s[0] == '-';
    var digits := if s != [] && (s[0] == '-' || s[0] == '+') then s[1..] else s;
    var n := if digits == [] then None else Value(digits);
    if n.None? then None
    else if negative then (if n.value <= INT64_MAX + 1 then Some(-n.value) else None)
    else if n.value <= INT64_MAX then Some(n.value) else None
  }

  /** A digit more is ten times as much and the digit. */
  lemma ValueNext(s: string, c: char)
    requires '0' <= c <= '9'
    ensures Value([]) == Some(0)
    ensures Value(s + [c]) == if Value(s).Some? then Some(10 * Value(s).value + ((c as int) - ('0' as int))) else None
  {
    assert (s + [c])[..|s|] == s;
  }

  lemma {:induction false} ValueOfFormat(n: nat)
    ensures Value(Format(n)) == Some(n)
  {
    if n < 10 {
      assert Format(n)[..0] == [];
    } else {
      ValueOfFormat(n / 10);
      assert Format(n)[..|Format(n)| - 1] == Format(n / 10);
    }
  }

  /** Reading back what was written. */
  lemma ParseOfFormat(n: nat)
    requires n <= INT64_MAX
    ensures Parse(Format(n)) == Some(n)
  {
    ValueOfFormat(n);
  }
}
