/** test_str: a string of a given length that shows its own positions. */
module TestStr {
  import opened Arithmetic
  import opened Decimal

  /** The digit written at the 1-based position i. */
  function PosDigit(i: nat): (c: char)
    ensures c as int == 0x30 + i % 10
  {
    Digit(i % 10)
  }

  /** The digits for the positions after `from` up to `to`. */
  function Ruler(from: nat, to: nat): (r: string)
    ensures |r| == if from <= to then to - from else 0
    ensures forall j :: 0 <= j < |r| ==> r[j] == PosDigit(from + j + 1)
  {
    if from >= to then "" else seq(to - from, j requires 0 <= j => PosDigit(from + j + 1))
  }

  function Label(size: nat): string { "(" + Dec(size + 10) + "_" }

  /** What is appended to a string of `size` characters to show position size + 10. */
  function Block(size: nat): (r: string)
    ensures |r| == if |Dec(size + 10)| <= 7 then 10 else |Dec(size + 10)| + 3
  {
    Label(size) + Ruler(size + |Label(size)|, size + 9) + ")"
  }

  /** std::string::resize(10, '='). */
  function Resize10(s: string): (r: string)
    ensures |r| == 10
  {
    if |s| >= 10 then s[..10] else s + seq(10 - |s|, _ => '=')
  }

  /** Blocks while a whole one fits, then single digits. */
  function Grow(s: string, n: nat): string
    decreases n - |s|
  {
    if |s| + 10 <= n then Grow(s + Block(|s|), n) else s + Ruler(|s|, n)
  }

  function Make(prefix: string, n: nat): string {
    var head := prefix + ":";
    if |head| >= n then head[..n]
    else if n < 20 then head + Ruler(|head|, n)
    else Grow(Resize10(head), n)
  }

  lemma BlockIsAppended(s: string)
    ensures var t := s + "(" + Dec(|s| + 10) + "_";
            t + Ruler(|t|, |s| + 9) + ")" == s + Block(|s|)
  {
    var t, number := s + "(" + Dec(|s| + 10) + "_", Dec(|s| + 10);
    Assoc(s, "(", number, "_");
    Assoc(s, Label(|s|), Ruler(|t|, |s| + 9), ")");
  }

  lemma Assoc(s: string, a: string, b: string, c: string)
    ensures s + a + b + c == s + (a + b + c)
  {
  }

  method TestStr(strPrefix: string, strLen: nat) returns (str: string)
    ensures str == Make(strPrefix, strLen)
  {
    str := strPrefix + ":";
    if |str| >= strLen {
      str := str[..strLen];
      return;
    }
    if strLen < 20 {
      str := Extend(str, strLen);
      return;
    }
    str := Resize10(str);
    ghost var goal := Grow(str, strLen);
    assert goal == Make(strPrefix, strLen);
    while |str| + 10 <= strLen
      invariant Grow(str, strLen) == goal
      decreases strLen - |str|
    {
      BlockIsAppended(str);
      assert Grow(str, strLen) == Grow(str + Block(|str|), strLen);
      var newLen := |str| + 10;
      str := str + "(" + Dec(newLen) + "_";
      str := Extend(str, newLen - 1);
      str := str + ")";
    }
    str := Extend(str, strLen);
  }

  /** The inner loops: one digit per position. */
  method Extend(s: string, to: nat) returns (str: string)
    ensures str == s + Ruler(|s|, to)
  {
    str := s;
    var i := |str| + 1;
    while i <= to
      invariant i == |str| + 1 && |s| <= |str| && (|str| <= to || str == s)
      invariant str == s + Ruler(|s|, |str|)
    {
      str := str + [PosDigit(i)];
      i := i + 1;
    }
  }

  /** The label outgrows its block from 10^7 on. */
  function Overshoot(n: nat): nat { if |Dec(n)| <= 7 then 0 else |Dec(n)| - 7 }

  lemma {:induction false} GrowLength(s: string, n: nat)
    requires |s| <= n + Overshoot(n)
    ensures n <= |Grow(s, n)| <= n + Overshoot(n)
    decreases n - |s|
  {
    if n < |s| + 10 {
    } else {
      DecLengthGrows(|s| + 10, n);
      GrowLength(s + Block(|s|), n);
    }
  }

  lemma Pow10Of7()
    ensures Pow10(7) == 10_000_000
  {
    assert Pow10(2) == 100 && Pow10(4) == 10_000 && Pow10(6) == 1_000_000;
  }

  /** The length is never too short, and too long by at most the number of
      digits beyond seven; below 10^7 it is exact. */
  lemma LengthLaw(prefix: string, n: nat)
    ensures n <= |Make(prefix, n)| <= n + Overshoot(n)
    ensures n < 10_000_000 ==> |Make(prefix, n)| == n
  {
    if n >= 20 && |prefix| + 1 < n { GrowLength(Resize10(prefix + ":"), n); }
    DecLength(n, 7);
    Pow10Of7();
  }

  // ----- When the length is exact, for every n -----

  /** The size at which the labels get more than d digits, if blocks of length
      d + 3 are appended from size a on. */
  function NextAnchor(a: nat, d: nat): (r: nat)
    requires a + 10 < Pow10(d)
    ensures a < r
  {
    a + (d + 3) * BlocksTo(a, d)
  }

  function BlocksTo(a: nat, d: nat): (k: nat)
    requires a + 10 < Pow10(d)
    ensures k > 0
    ensures a + (d + 3) * (k - 1) + 10 < Pow10(d) <= a + (d + 3) * k + 10
  {
    var gap := Pow10(d) - 10 - a;
    CeilingDivision(gap, d + 3);
    (gap + d + 2) / (d + 3)
  }

  /** n is met exactly, for n at or after the size a from which the labels have
      d digits: no block may run past n. */
  predicate Fits(n: nat, a: nat, d: nat)
    requires d >= 8 && Pow10(d - 1) <= a + 10 < Pow10(d - 1) + d + 3
    decreases n - a
  {
    AnchorsAdvance(a, d);
    n < a ||
    if n < NextAnchor(a, d) then (n - a) % (d + 3) < 10 else Fits(n, NextAnchor(a, d), d + 1)
  }

  lemma AnchorsAdvance(a: nat, d: nat)
    requires d >= 8 && Pow10(d - 1) <= a + 10 < Pow10(d - 1) + d + 3
    ensures a + 10 < Pow10(d)
    ensures Pow10(d) <= NextAnchor(a, d) + 10 < Pow10(d) + d + 4
  {
    PowPositive(d - 1);
    var k := BlocksTo(a, d);
    assert a + (d + 3) * (k - 1) + 10 < Pow10(d);
    assert (d + 3) * k == (d + 3) * (k - 1) + (d + 3);
  }

  /** Neighbouring sizes on the d-digit grid. */
  lemma GridStep(a: nat, d: nat, k: nat)
    requires a + 10 < Pow10(d) && k < BlocksTo(a, d)
    ensures a + (d + 3) * k + 10 < Pow10(d)
    ensures a + (d + 3) * (k + 1) == a + (d + 3) * k + d + 3 <= NextAnchor(a, d)
    ensures 0 <= (d + 3) * k
  {
    Scale(d + 3, 0, k);
    Scale(d + 3, k, BlocksTo(a, d) - 1);
    Scale(d + 3, k + 1, BlocksTo(a, d));
  }

  /** Between two neighbouring sizes on the grid, n is met exactly when it lies
      within ten of the lower one. */
  lemma GridLast(s: string, n: nat, a: nat, d: nat, k: nat)
    requires d >= 8 && Pow10(d - 1) <= a + 10 < Pow10(d - 1) + d + 3 && a + 10 < Pow10(d)
    requires |s| == a + (d + 3) * k && k < BlocksTo(a, d) && |s| <= n < |s| + d + 3
    requires |Block(|s|)| == d + 3
    ensures |Grow(s, n)| == n <==> Fits(n, a, d)
  {
    GridStep(a, d, k);
    ModOfSum(d + 3, k, n - |s|);
    GrowOnce(s, n);
    assert n < NextAnchor(a, d) && (n - a) % (d + 3) == n - |s|;
  }

  lemma GridBlock(size: nat, a: nat, d: nat, k: nat)
    requires d >= 8 && Pow10(d - 1) <= a + 10 < Pow10(d)
    requires size == a + (d + 3) * k && k < BlocksTo(a, d)
    ensures |Block(size)| == d + 3 && size + d + 3 == a + (d + 3) * (k + 1)
  {
    GridStep(a, d, k);
    DecLengthIs(size + 10, d);
  }

  /** From a size on the d-digit grid, the exact length is decided by Fits. */
  lemma {:induction false} GridExact(s: string, n: nat, a: nat, d: nat, k: nat)
    requires d >= 8 && Pow10(d - 1) <= a + 10 < Pow10(d - 1) + d + 3 && a + 10 < Pow10(d)
    requires |s| == a + (d + 3) * k && k <= BlocksTo(a, d) && |s| <= n
    ensures |Grow(s, n)| == n <==> Fits(n, a, d)
    decreases n - |s|, k == BlocksTo(a, d)
  {
    if k == BlocksTo(a, d) {
      FitsLater(n, a, d);
      NextGrid(a, d);
      GridExact(s, n, NextAnchor(a, d), d + 1, 0);
    } else {
      GridBlock(|s|, a, d, k);
      if n < |s| + d + 3 {
        GridLast(s, n, a, d, k);
      } else {
        var t := s + Block(|s|);
        assert |t| == a + (d + 3) * (k + 1);
        GridExact(t, n, a, d, k + 1);
        assert Grow(s, n) == Grow(t, n);
      }
    }
  }

  lemma NextGrid(a: nat, d: nat)
    requires d >= 8 && Pow10(d - 1) <= a + 10 < Pow10(d - 1) + d + 3 && a + 10 < Pow10(d)
    ensures var next := NextAnchor(a, d);
            Pow10(d) <= next + 10 < Pow10(d) + d + 4 && next + 10 < Pow10(d + 1)
  {
    AnchorsAdvance(a, d);
    AnchorsAdvance(NextAnchor(a, d), d + 1);
  }

  lemma FitsLater(n: nat, a: nat, d: nat)
    requires d >= 8 && Pow10(d - 1) <= a + 10 < Pow10(d - 1) + d + 3 && a + 10 < Pow10(d)
    requires n >= NextAnchor(a, d)
    ensures Pow10(d) <= NextAnchor(a, d) + 10 < Pow10(d) + d + 4
    ensures Fits(n, a, d) == Fits(n, NextAnchor(a, d), d + 1)
  {
    AnchorsAdvance(a, d);
  }

  /** At the last size before n: a block that fits, if any, ends the growth. */
  lemma GrowOnce(s: string, n: nat)
    requires |s| <= n < |s| + |Block(|s|)|
    ensures |Grow(s, n)| == n <==> n < |s| + 10
  {
    if |s| + 10 <= n {
      var t := s + Block(|s|);
      assert Grow(s, n) == Grow(t, n) == t + Ruler(|t|, n);
    }
  }

  /** Up to 10^7 - 10 every block has ten characters. */
  lemma {:induction false} TensExact(s: string, n: nat)
    requires |s| % 10 == 0 && |s| <= 9_999_990 && |s| <= n
    requires Pow10(7) == 10_000_000
    ensures |Grow(s, n)| == n <==> (n < 10_000_000 || Fits(n, 9_999_990, 8))
    decreases 9_999_990 - |s|
  {
    if |s| == 9_999_990 {
      AnchorsAdvance(9_999_990, 8);
      GridExact(s, n, 9_999_990, 8, 0);
      if n < 10_000_000 { GrowLength(s, n); DecLength(n, 7); }
    } else if |s| + 10 <= n {
      DecLength(|s| + 10, 7);
      TensExact(s + Block(|s|), n);
    } else {
    }
  }

  /** For every n: the string has exactly n characters if and only if the prefix
      fills it, or n is below 10^7, or n lies within ten of a block boundary. */
  lemma ExactLengthIff(prefix: string, n: nat)
    ensures Pow10(7) == 10_000_000
    ensures |Make(prefix, n)| == n <==> (|prefix| + 1 >= n || n < 10_000_000 || Fits(n, 9_999_990, 8))
  {
    Pow10Of7();
    if n >= 20 && |prefix| + 1 < n { TensExact(Resize10(prefix + ":"), n); }
  }

  /** In particular 10^7 itself is missed, by one. */
  lemma TenMillionIsMissed(prefix: string)
    requires |prefix| + 1 < 10_000_000
    ensures |Make(prefix, 10_000_000)| == 10_000_001
  {
    ExactLengthIff(prefix, 10_000_000);
    AnchorsAdvance(9_999_990, 8);
    assert NextAnchor(9_999_990, 8) + 10 >= Pow10(8) == 10 * Pow10(7);
    LengthLaw(prefix, 10_000_000);
    DecLengthIs(10_000_000, 8);
  }

  // ----- The string shows its positions -----

  /** The length of a block whose label has d digits. */
  function Width(d: nat): nat { if d <= 7 then 10 else d + 3 }

  /** A block that follows position p and shows position p + 10 in len decimal digits. */
  ghost predicate Reads(b: string, p: nat, len: nat) {
    && 0 < len && |b| == Width(len)
    && b[0] == '(' && b[|b| - 1] == ')' && b[1] != '0'
    && (forall c <- b[1..1 + len] :: IsDigit(c))
    && Value(b[1..1 + len]) == p + 10
    && b[1 + len] == '_'
    && (forall j :: 2 + len <= j < |b| - 1 ==> b[j] as int == 0x30 + (p + j + 1) % 10)
  }

  ghost predicate ShowsPosition(s: string, p: nat)
    requires p + 10 <= |s|
  {
    Legible(s[p..p + 10], p)
  }

  ghost predicate Legible(b: string, p: nat)
    requires |b| == 10
  {
    exists len: nat :: Reads(b, p, len)
  }

  /** Every block so far. */
  ghost predicate Shows(s: string) {
    forall k: nat :: 1 <= k && 10 * k + 10 <= |s| ==> ShowsPosition(s, 10 * k)
  }

  /** The characters of a block by their places. */
  lemma SplicedAt(number: string, digits: string)
    requires number != ""
    ensures var b, k := "(" + number + "_" + digits + ")", 2 + |number|;
            && |b| == k + |digits| + 1
            && b[0] == '(' && b[1] == number[0] && b[k - 1] == '_' && b[|b| - 1] == ')'
            && b[1..k - 1] == number
            && forall j :: k <= j < |b| - 1 ==> b[j] == digits[j - k]
  {
  }

  lemma SplicedReads(number: string, digits: string, p: nat)
    requires 0 < |number| && |digits| + |number| + 3 == Width(|number|)
    requires (forall c <- number :: IsDigit(c)) && Value(number) == p + 10 && number[0] != '0'
    requires forall j :: 0 <= j < |digits| ==> digits[j] as int == 0x30 + (p + |number| + j + 3) % 10
    ensures Reads("(" + number + "_" + digits + ")", p, |number|)
  {
    SplicedAt(number, digits);
  }

  lemma BlockReads(size: nat)
    ensures Reads(Block(size), size, |Dec(size + 10)|)
  {
    DecReadsBack(size + 10);
    DecLeads(size + 10);
    var number := Dec(size + 10);
    var digits := Ruler(size + |Label(size)|, size + 9);
    SplicedReads(number, digits, size);
    assert Block(size) == "(" + number + "_" + digits + ")";
  }

  lemma BlockShows(s: string)
    requires |s| + 10 < 10_000_000
    ensures |s + Block(|s|)| == |s| + 10 && ShowsPosition(s + Block(|s|), |s|)
  {
    Pow10Of7();
    DecLength(|s| + 10, 7);
    BlockReads(|s|);
    assert (s + Block(|s|))[|s|..|s| + 10] == Block(|s|);
  }

  lemma ShowsStays(s: string, t: string, p: nat)
    requires s <= t && p + 10 <= |s| && ShowsPosition(s, p)
    ensures ShowsPosition(t, p)
  {
    assert t[p..p + 10] == s[p..p + 10];
  }

  lemma {:induction false} GrowShows(s: string, n: nat)
    requires |s| % 10 == 0 && 10 <= |s| <= n < 10_000_000 && Shows(s)
    ensures s <= Grow(s, n) && |Grow(s, n)| == n && Shows(Grow(s, n))
    ensures forall i :: 10 * (n / 10) <= i < n ==> Grow(s, n)[i] as int == 0x30 + (i + 1) % 10
    decreases n - |s|
  {
    var t := if |s| + 10 <= n then s + Block(|s|) else s + Ruler(|s|, n);
    if |s| + 10 <= n { BlockShows(s); }
    forall k: nat | 1 <= k && 10 * k + 10 <= |t| ensures ShowsPosition(t, 10 * k) {
      if 10 * k + 10 <= |s| { ShowsStays(s, t, 10 * k); }
    }
    if n < |s| + 10 {
    } else {
      GrowShows(t, n);
    }
  }

  lemma {:induction false} GrowExtends(s: string, n: nat)
    ensures s <= Grow(s, n)
    decreases n - |s|
  {
    if |s| + 10 <= n { GrowExtends(s + Block(|s|), n); } else { }
  }

  /** The label of the block after 9999990 characters has eight digits, so its
      underscore stands where the block should end. */
  lemma {:induction false} LongLabel(s: string, n: nat)
    requires |s| % 10 == 0 && |s| <= 9_999_990 && n >= 10_000_000
    ensures |Grow(s, n)| >= 10_000_000 && Grow(s, n)[9_999_999] == '_'
    decreases 9_999_990 - |s|
  {
    Pow10Of7();
    if |s| == 9_999_990 {
      DecLengthIs(10_000_000, 8);
      GrowExtends(s + Block(|s|), n);
      assert Block(|s|)[9] == Label(|s|)[9] == '_';
    } else {
      DecLength(|s| + 10, 7);
      LongLabel(s + Block(|s|), n);
    }
  }

  lemma ShowsNoMore(s: string)
    requires |s| >= 10_000_000 && s[9_999_999] == '_'
    ensures !Shows(s)
  {
    var k: nat := 999_999;
    assert s[10 * k..10 * k + 10][9] == '_';
    assert !ShowsPosition(s, 10 * k);
  }

  /** test_str is a ruler: after the first ten characters, every full block of ten
      is "(", a decimal number, "_", digits of positions, ")", where the number
      is the 1-based position of the ")"; and the characters after the last full
      block are the last digits of their positions. */
  lemma IsRuler(prefix: string, n: nat)
    requires 20 <= n < 10_000_000 && |prefix| + 1 < n
    ensures |Make(prefix, n)| == n
    ensures forall i :: 0 <= i < 10 ==>
              Make(prefix, n)[i] == if i < |prefix| then prefix[i] else if i == |prefix| then ':' else '='
    ensures Shows(Make(prefix, n))
    ensures forall i :: 10 * (n / 10) <= i < n ==> Make(prefix, n)[i] as int == 0x30 + (i + 1) % 10
  {
    var head := Resize10(prefix + ":");
    GrowShows(head, n);
    assert forall i :: 0 <= i < 10 ==> Grow(head, n)[i] == head[i];
  }

  /** The string from position p on: blocks while ten characters fit, each right
      after the last, and then single digits. */
  ghost predicate Tiled(t: string, p: nat, n: nat)
    decreases n - p
  {
    if p + 10 <= n then
      var d := |Dec(p + 10)|;
      p + Width(d) <= |t| && Reads(t[p..p + Width(d)], p, d) && Tiled(t, p + Width(d), n)
    else
      |t| == (if p <= n then n else p) && forall i :: p <= i < |t| ==> t[i] as int == 0x30 + (i + 1) % 10
  }

  lemma SliceOfPrefix(t: string, a: string, b: string)
    requires a + b <= t
    ensures t[|a|..|a| + |b|] == b
  {
    assert t[..|a + b|] == a + b;
  }

  lemma TileOne(t: string, s: string, n: nat)
    requires |s| + 10 <= n && s + Block(|s|) <= t && Tiled(t, |s + Block(|s|)|, n)
    ensures Tiled(t, |s|, n)
  {
    BlockReads(|s|);
    SliceOfPrefix(t, s, Block(|s|));
  }

  lemma {:induction false} GrowTiles(s: string, n: nat)
    ensures Tiled(Grow(s, n), |s|, n)
    decreases n - |s|
  {
    if n < |s| + 10 {
    } else {
      var t := s + Block(|s|);
      GrowTiles(t, n);
      GrowExtends(t, n);
      TileOne(Grow(t, n), s, n);
    }
  }

  /** Of every length, also where labels outgrow ten characters: after the first ten
      characters, blocks and then digits. */
  lemma IsTiled(prefix: string, n: nat)
    requires 20 <= n && |prefix| + 1 < n
    ensures |Make(prefix, n)| >= 10 && Tiled(Make(prefix, n), 10, n)
    ensures forall i :: 0 <= i < 10 ==>
              Make(prefix, n)[i] == if i < |prefix| then prefix[i] else if i == |prefix| then ':' else '='
  {
    var head := Resize10(prefix + ":");
    GrowTiles(head, n);
    GrowExtends(head, n);
    assert forall i :: 0 <= i < 10 ==> Grow(head, n)[i] == head[i];
  }

  /** It is one exactly up to there. */
  lemma IsRulerIff(prefix: string, n: nat)
    requires 20 <= n && |prefix| + 1 < n
    ensures Shows(Make(prefix, n)) <==> n < 10_000_000
  {
    if n < 10_000_000 {
      IsRuler(prefix, n);
    } else {
      LongLabel(Resize10(prefix + ":"), n);
      ShowsNoMore(Make(prefix, n));
    }
  }

  /** Short strings, and those that the prefix fills: the prefix, a colon, and the
      last digits of the positions, cut to length. */
  lemma ShortStrings(prefix: string, n: nat)
    requires n < 20 || n <= |prefix| + 1
    ensures |Make(prefix, n)| == n
    ensures forall i :: 0 <= i < n && i < |prefix| ==> Make(prefix, n)[i] == prefix[i]
    ensures |prefix| < n ==> Make(prefix, n)[|prefix|] == ':'
    ensures forall i :: |prefix| < i < n ==> Make(prefix, n)[i] as int == 0x30 + (i + 1) % 10
  {
  }
}
