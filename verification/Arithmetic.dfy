/** Small facts about products, quotients and remainders. */
module Arithmetic {

  lemma Scale(m: nat, x: int, y: int)
    requires x <= y
    ensures m * x <= m * y
  {
    assert m * (y - x) >= 0;
  }

  lemma Cancel(m: nat, x: int, y: int)
    requires m * x < m * y
    ensures x < y
  {
    if y <= x { Scale(m, y, x); }
  }

  lemma ModOfSum(m: nat, k: nat, r: nat)
    requires r < m
    ensures (m * k + r) % m == r
  {
    var q := (m * k + r) / m;
    assert m * q + (m * k + r) % m == m * k + r;
    assert m * (k + 1) == m * k + m && m * (q + 1) == m * q + m;
    Cancel(m, q, k + 1);
    Cancel(m, k, q + 1);
  }

  lemma CeilingDivision(gap: nat, m: nat)
    requires gap > 0 && m > 0
    ensures var k := (gap + m - 1) / m;
            k > 0 && m * (k - 1) < gap <= m * k
  {
    var k := (gap + m - 1) / m;
    assert gap + m - 1 == m * k + (gap + m - 1) % m;
    assert m * (k - 1) == m * k - m;
    Cancel(m, 0, k);
  }

  /** A quotient is not negative and not above its numerator. */
  lemma QuotientBelow(x: nat, y: nat)
    requires y > 0
    ensures 0 <= x / y <= x
  {
    var q := x / y;
    assert y * q + x % y == x;
    Cancel(y, -1, q);
    Scale(q, 1, y);
  }

  /** A mean is not above an upper bound of the values. */
  lemma MeanAtMost(sum: int, n: nat, m: int)
    requires n > 0 && sum <= n * m
    ensures sum / n <= m
  {
    var q := sum / n;
    assert n * q + sum % n == sum;
    assert n * (m + 1) == n * m + n;
    Cancel(n, q, m + 1);
  }

  /** Counting in tens. */
  lemma NextOfTen(c: nat)
    ensures (c + 1) % 10 == 0 ==> (c + 1) / 10 == c / 10 + 1 && c % 10 == 9 && c + 1 == 10 * (c / 10 + 1)
    ensures (c + 1) % 10 != 0 ==> (c + 1) / 10 == c / 10 && (c + 1) % 10 == c % 10 + 1
  {
  }

  /** Conversion to an unsigned 64-bit type. */
  function UInt64(x: int): nat { x % 0x1_0000_0000_0000_0000 }

  /** Cutting to 64 bits does not change the lower 32. */
  lemma ModOfMod(x: int)
    ensures UInt64(x) % 0x1_0000_0000 == x % 0x1_0000_0000
  {
    var q := x / 0x1_0000_0000_0000_0000;
    assert x == UInt64(x) + 0x1_0000_0000 * (0x1_0000_0000 * q);
  }

  /** Values that fit stay, negative ones come round from the top. */
  lemma UInt64Is(x: int)
    requires -0x1_0000_0000_0000_0000 <= x < 0x1_0000_0000_0000_0000
    ensures UInt64(x) == if x >= 0 then x else x + 0x1_0000_0000_0000_0000
  {
  }

  lemma FitsUInt64(x: nat)
    requires x < 0x8000_0000_0000_0000
    ensures UInt64(x) == x
  {
  }
}
