/** Natural numbers in decimal, as JavaScript prints them: the text of an id, and the name of an array index. */
module Decimals {
  function Digit(d: nat): char
    requires d < 10
  {
    '0' + d as char
  }

  function Decimal(n: nat): (r: string)
    ensures |r| >= 1 && (n >= 10 ==> |r| >= 2)
  {
    if n < 10 then [Digit(n)] else Decimal(n / 10) + [Digit(n % 10)]
  }

  predicate IsDigit(c: char) {
    '0' <= c <= '9'
  }

  /** Digits, without leading zeros. */
  predicate IsDecimal(s: string) {
    s != "" && (forall i :: 0 <= i < |s| ==> IsDigit(s[i])) && (|s| > 1 ==> s[0] != '0')
  }

  function ReadDecimal(s: string): nat
    requires forall i :: 0 <= i < |s| ==> IsDigit(s[i])
  {
    if s == "" then 0
    else
      assert IsDigit(s[|s| - 1]);
      10 * ReadDecimal(s[..|s| - 1]) + (s[|s| - 1] as int - '0' as int)
  }

  lemma OneDigit(s: string)
    requires |s| == 1 && IsDigit(s[0])
    ensures ReadDecimal(s) < 10 && Decimal(ReadDecimal(s)) == s && (s[0] != '0' ==> ReadDecimal(s) >= 1)
  {
    assert s[..0] == "";
  }

  /** One digit more behind a number that is not zero. */
  lemma DigitBehind(n: nat, d: nat)
    requires n >= 1 && d < 10
    ensures Decimal(10 * n + d) == Decimal(n) + [Digit(d)]
  {
    assert (10 * n + d) / 10 == n && (10 * n + d) % 10 == d;
  }

  lemma {:induction false} DecimalOfRead(s: string)
    requires IsDecimal(s)
    ensures Decimal(ReadDecimal(s)) == s
    ensures |s| > 1 || s[0] != '0' ==> ReadDecimal(s) >= 1
  {
    if |s| == 1 {
      assert IsDigit(s[0]);
      OneDigit(s);
    } else {
      var front, last := s[..|s| - 1], s[|s| - 1];
      DecimalOfRead(front);
      assert IsDigit(last) && front[0] == s[0];
      DigitBehind(ReadDecimal(front), last as int - '0' as int);
      assert s == front + [last];
    }
  }

  lemma {:induction false} DecimalIsDecimal(n: nat)
    ensures IsDecimal(Decimal(n)) && (n > 0 ==> Decimal(n)[0] != '0')
  {
    if n >= 10 { DecimalIsDecimal(n / 10); }
  }

  lemma {:induction false} DecimalDigits(n: nat)
    ensures forall c :: c in Decimal(n) ==> '0' <= c <= '9'
  {
    if n >= 10 { DecimalDigits(n / 10); }
  }

  lemma {:induction false} DecimalInjective(m: nat, n: nat)
    requires Decimal(m) == Decimal(n)
    ensures m == n
  {
    var a, b := Decimal(m), Decimal(n);
    assert a[|a| - 1] == b[|b| - 1];
    if m >= 10 && n >= 10 {
      assert a[..|a| - 1] == Decimal(m / 10) && b[..|b| - 1] == Decimal(n / 10);
      DecimalInjective(m / 10, n / 10);
    }
  }
}
