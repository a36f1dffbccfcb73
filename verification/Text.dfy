/** Decimal numerals, as the client puts them into toast ids and the server into upload names. */
module Text {
  import opened Prelude

  function Digit(d: nat): (c: char)
    requires d < 10
    ensures '0' <= c <= '9' && (c - '0') as int == d
  {
    '0' + d as char
  }

  function Decimal(n: nat): (s: string)
    ensures s != []
  {
    if n < 10 then [Digit(n)] else Decimal(n / 10) + [Digit(n % 10)]
  }

  lemma {:induction false} DecimalDigits(n: nat)
    ensures forall i | 0 <= i < |Decimal(n)| :: '0' <= Decimal(n)[i] <= '9'
  {
    if n >= 10 {
      DecimalDigits(n / 10);
    }
  }

  lemma {:induction false} DecimalInjective(m: nat, n: nat)
    requires Decimal(m) == Decimal(n)
    ensures m == n
  {
    var s, t := Decimal(m), Decimal(n);
    assert Last(s) == Digit(m % 10) && Last(t) == Digit(n % 10);
    if m >= 10 && n >= 10 {
      assert Front(s) == Decimal(m / 10) && Front(t) == Decimal(n / 10);
      DecimalInjective(m / 10, n / 10);
    }
  }

  lemma LastSeparator(a: string, sep: char, n: nat)
    requires !('0' <= sep <= '9')
    ensures var s := a + [sep] + Decimal(n);
            s[|a|] == sep && forall i | |a| < i < |s| :: s[i] != sep
  {
    DecimalDigits(n);
  }

  /** A numeral after a separator that is not a digit can be read back. */
  lemma SuffixInjective(a: string, b: string, sep: char, m: nat, n: nat)
    requires !('0' <= sep <= '9')
    requires a + [sep] + Decimal(m) == b + [sep] + Decimal(n)
    ensures a == b && m == n
  {
    var s := a + [sep] + Decimal(m);
    LastSeparator(a, sep, m);
    LastSeparator(b, sep, n);
    assert |a| == |b|;
    assert a == s[..|a|] == b;
    assert Decimal(m) == s[|a| + 1..] == Decimal(n);
    DecimalInjective(m, n);
  }

  /** The number that a string of digits stands for. */
  function Value(s: string): int {
    if s == "" then 0 else 10 * Value(Front(s)) + (Last(s) as int - '0' as int)
  }

  /** A numeral stands for its number, without leading zeros. */
  lemma {:induction false} DecimalReads(n: nat)
    ensures Value(Decimal(n)) == n && (n > 0 ==> Decimal(n)[0] != '0')
  {
    var s := Decimal(n);
    assert Last(s) == Digit(n % 10);
    if n < 10 {
      assert Front(s) == "";
    } else {
      DecimalReads(n / 10);
      assert Front(s) == Decimal(n / 10) && s[0] == Decimal(n / 10)[0];
    }
  }
}
