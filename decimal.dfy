/** Python's `str()` of an integer: its decimal digits, with a leading '-'
    when it is negative. Table keys and grid state names are built from it. */
module Decimal {

  /** The character of a decimal digit. */
  function Digit(d: nat): (c: char)
    requires d < 10
  {
    ('0' as int + d) as char
  }

  predicate IsDigit(c: char) {
    '0' <= c <= '9'
  }

  /** `str(n)` for n >= 0: no leading zeros, most significant digit first. */
  function NatToString(n: nat): (s: string)
    ensures |s| >= 1
    ensures (|s| == 1) == (n < 10)
    ensures forall i :: 0 <= i < |s| ==> IsDigit(s[i])
  {
    if n < 10 then [Digit(n)] else NatToString(n / 10) + [Digit(n % 10)]
  }

  /** `str(n)` for any integer. */
  function IntToString(n: int): (s: string)
    ensures |s| >= 1
    ensures (n < 0) == (s[0] == '-')
    ensures forall i :: 0 < i < |s| ==> IsDigit(s[i])
    ensures '_' !in s
  {
    if n < 0 then "-" + NatToString(-n) else NatToString(n)
  }

  /** Two naturals with the same decimal string are equal. */
  lemma {:induction false} NatToStringInjective(a: nat, b: nat)
    requires NatToString(a) == NatToString(b)
    ensures a == b
  {
    var sa, sb := NatToString(a), NatToString(b);
    if a >= 10 && b >= 10 {
      assert sa == NatToString(a / 10) + [Digit(a % 10)];
      assert sb == NatToString(b / 10) + [Digit(b % 10)];
      assert sa[..|sa| - 1] == NatToString(a / 10);
      assert sb[..|sb| - 1] == NatToString(b / 10);
      NatToStringInjective(a / 10, b / 10);
      assert Digit(a % 10) == sa[|sa| - 1] == Digit(b % 10);
      assert Digit(a % 10) as int == '0' as int + a % 10;
    } else if a < 10 && b < 10 {
      assert Digit(a) == sa[0] == Digit(b);
      assert Digit(a) as int == '0' as int + a;
    }
  }

  /** `str` is injective on all integers: distinct integers get distinct names. */
  lemma IntToStringInjective(a: int, b: int)
    requires IntToString(a) == IntToString(b)
    ensures a == b
  {
    var sa := IntToString(a);
    if a < 0 {
      assert sa[1..] == NatToString(-a);
      assert IntToString(b)[1..] == NatToString(-b);
      NatToStringInjective(-a, -b);
    } else {
      NatToStringInjective(a, b);
    }
  }
}
