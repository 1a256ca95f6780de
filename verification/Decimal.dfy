/** Decimal output of an unsigned number, as operator<< prints it, and its reading back. */
module Decimal {

  function Digit(d: nat): char
    requires d < 10
  {
    ('0' as int + d) as char
  }

  predicate IsDigit(c: char) { '0' <= c <= '9' }

  function DigitValue(c: char): nat
    requires IsDigit(c)
  {
    c as int - '0' as int
  }

  function Dec(n: nat): string {
    if n < 10 then [Digit(n)] else Dec(n / 10) + [Digit(n % 10)]
  }

  /** The value of a string of digits. */
  function Value(s: string): nat
    requires forall c <- s :: IsDigit(c)
  {
    if s == "" then 0
    else
      assert s[|s| - 1] in s;
      10 * Value(s[..|s| - 1]) + DigitValue(s[|s| - 1])
  }

  function Pow10(k: nat): nat { if k == 0 then 1 else 10 * Pow10(k - 1) }

  /** What is printed reads back as the number printed. */
  lemma {:induction false} DecReadsBack(n: nat)
    ensures Dec(n) != "" && (forall c <- Dec(n) :: IsDigit(c)) && Value(Dec(n)) == n
  {
    if n < 10 {
      assert Dec(n)[..0] == "";
    } else {
      DecReadsBack(n / 10);
      assert Dec(n)[..|Dec(n)| - 1] == Dec(n / 10);
    }
  }

  lemma ValueSnoc(s: string, c: char)
    requires IsDigit(c) && forall d <- s :: IsDigit(d)
    ensures forall d <- s + [c] :: IsDigit(d)
    ensures Value(s + [c]) == 10 * Value(s) + DigitValue(c)
  {
    assert (s + [c])[..|s|] == s;
  }

  /** A further digit in front counts by its place. */
  lemma {:induction false} ValueCons(c: char, s: string)
    requires IsDigit(c) && forall d <- s :: IsDigit(d)
    ensures forall d <- [c] + s :: IsDigit(d)
    ensures Value([c] + s) == DigitValue(c) * Pow10(|s|) + Value(s)
  {
    if s == "" {
      ValueSnoc("", c);
      assert [c] + s == "" + [c];
    } else {
      var init, last := s[..|s| - 1], s[|s| - 1];
      assert last in s && forall d <- init :: d in s;
      ValueCons(c, init);
      ValueSnoc(init, last);
      ValueSnoc([c] + init, last);
      assert s == init + [last] && [c] + s == [c] + init + [last];
      TenTimes(DigitValue(c), Pow10(|init|));
    }
  }

  lemma TenTimes(d: nat, p: nat)
    ensures d * (10 * p) == 10 * (d * p)
  {
  }

  /** A positive number is printed without leading zeros. */
  lemma {:induction false} DecLeads(n: nat)
    requires n > 0
    ensures Dec(n) != "" && '1' <= Dec(n)[0] <= '9'
  {
    if n < 10 {
    } else {
      DecLeads(n / 10);
    }
  }

  /** The number of digits, by powers of ten. */
  lemma {:induction false} DecLength(n: nat, k: nat)
    requires k > 0
    ensures |Dec(n)| <= k <==> n < Pow10(k)
  {
    if k == 1 {
      assert Pow10(1) == 10 * Pow10(0);
      if n >= 10 { DecReadsBack(n / 10); }
    } else {
      DecLength(n / 10, k - 1);
      assert n / 10 < Pow10(k - 1) <==> n < 10 * Pow10(k - 1);
      PowPositive(k - 1);
    }
  }

  lemma {:induction false} PowPositive(k: nat)
    ensures Pow10(k) > k
  {
    if k == 0 {
    } else {
      PowPositive(k - 1);
    }
  }

  lemma {:induction false} PowGrows(j: nat, k: nat)
    requires j <= k
    ensures Pow10(j) <= Pow10(k)
  {
    if j == k {
    } else {
      PowGrows(j, k - 1);
    }
  }

  lemma DecLengthIs(n: nat, k: nat)
    requires k > 1 && Pow10(k - 1) <= n < Pow10(k)
    ensures |Dec(n)| == k
  {
    DecLength(n, k);
    DecLength(n, k - 1);
  }

  lemma {:induction false} DecLengthGrows(m: nat, n: nat)
    requires m <= n
    ensures |Dec(m)| <= |Dec(n)|
  {
    if n < 10 {
    } else {
      if m >= 10 { DecLengthGrows(m / 10, n / 10); } else { DecReadsBack(n); }
    }
  }
}
