/** make_test_str and get_time_from_msg: a message that starts with the clock
    at which it was made, and reading that clock back. */
module Timestamp {
  import opened Arithmetic
  import opened Decimal
  import TestStr

  /** std::string::find for one character: its first position, or the length. */
  function Find(s: string, c: char): (pos: nat)
    ensures pos <= |s| && c !in s[..pos] && (pos < |s| ==> s[pos] == c)
  {
    if s == "" || s[0] == c then 0
    else
      var p := Find(s[1..], c);
      assert s[..1 + p] == [s[0]] + s[1..][..p];
      1 + p
  }

  lemma {:induction false} FindIs(s: string, c: char, pos: nat)
    requires pos <= |s| && c !in s[..pos] && (pos == |s| || s[pos] == c)
    ensures Find(s, c) == pos
  {
    if pos == 0 {
    } else {
      assert s[..pos] == [s[0]] + s[1..][..pos - 1];
      FindIs(s[1..], c, pos - 1);
    }
  }

  const LLONG_MAX := 0x7FFF_FFFF_FFFF_FFFF

  /** isspace in the C locale: the blank, and tab to carriage return. */
  predicate IsSpace(c: char) { c as int == 32 || 9 <= c as int <= 13 }

  /** The digits that a number at the start of the string consists of. */
  function LeadingDigits(s: string): (r: string)
    ensures r <= s && forall c <- r :: IsDigit(c)
    ensures r == s || !IsDigit(s[|r|])
  {
    if s == "" || !IsDigit(s[0]) then "" else [s[0]] + LeadingDigits(s[1..])
  }

  /** std::atoll: optional spaces and sign, then digits; a value that does not
      fit saturates, as the common C library does it. */
  function Atoll(s: string): (r: int)
    ensures -LLONG_MAX - 1 <= r <= LLONG_MAX
  {
    if s == "" then 0
    else if IsSpace(s[0]) then Atoll(s[1..])
    else if s[0] == '-' then
      var v: int := Value(LeadingDigits(s[1..])); if v <= LLONG_MAX + 1 then -v else -LLONG_MAX - 1
    else
      var v := Value(LeadingDigits(if s[0] == '+' then s[1..] else s)); if v <= LLONG_MAX then v else LLONG_MAX
  }

  /** get_time_from_msg: the number before the first underscore, as uint64_t. */
  function GetTimeFromMsg(msg: string): nat {
    var pos := Find(msg, '_');
    if pos == |msg| then 0 else UInt64(Atoll(msg[..pos]))
  }

  /** make_test_str; the size includes the printed clock. */
  function MakeTestStr(clock: nat, size: nat): string
    requires |Dec(clock)| <= size
  {
    Dec(clock) + TestStr.Make("_", size - |Dec(clock)|)
  }

  lemma {:induction false} AllDigits(s: string)
    requires forall c <- s :: IsDigit(c)
    ensures LeadingDigits(s) == s
  {
    if s == "" {
    } else {
      assert s[0] in s && forall c <- s[1..] :: c in s;
      AllDigits(s[1..]);
    }
  }

  predicate EndsNumber(rest: string) { rest == "" || !IsDigit(rest[0]) }

  lemma {:induction false} DigitsThen(digits: string, rest: string)
    requires (forall c <- digits :: IsDigit(c)) && EndsNumber(rest)
    ensures LeadingDigits(digits + rest) == digits
  {
    if digits == "" {
      assert digits + rest == rest;
    } else {
      assert digits[0] in digits && forall c <- digits[1..] :: c in digits;
      assert (digits + rest)[1..] == digits[1..] + rest;
      DigitsThen(digits[1..], rest);
    }
  }

  /** The nearest value of a long long. */
  function Saturated(v: int): int {
    if v > 0x7FFF_FFFF_FFFF_FFFF then 0x7FFF_FFFF_FFFF_FFFF
    else if v < -0x8000_0000_0000_0000 then -0x8000_0000_0000_0000 else v
  }

  function Signed(sign: string, v: int): int { if sign == "-" then -v else v }

  lemma {:induction false} AtollSkips(spaces: string, s: string)
    requires forall c <- spaces :: c as int == 32 || 9 <= c as int <= 13
    ensures Atoll(spaces + s) == Atoll(s)
  {
    if spaces == "" {
      assert spaces + s == s;
    } else {
      assert spaces[0] in spaces && forall c <- spaces[1..] :: c in spaces;
      assert (spaces + s)[1..] == spaces[1..] + s;
      AtollSkips(spaces[1..], s);
    }
  }

  lemma AtollPlain(number: string)
    requires number != "" && IsDigit(number[0])
    ensures Atoll(number) == Saturated(Value(LeadingDigits(number)))
  {
  }

  lemma AtollAfterSign(sign: char, number: string)
    requires sign == '-' || sign == '+'
    ensures Atoll([sign] + number) == Saturated(Signed([sign], Value(LeadingDigits(number))))
  {
    var s := [sign] + number;
    assert s[0] == sign && s[1..] == number && [sign][0] == sign;
  }

  lemma AtollSigned(sign: string, digits: string, rest: string)
    requires sign == "" || sign == "-" || sign == "+"
    requires digits != "" && (forall c <- digits :: IsDigit(c)) && EndsNumber(rest)
    ensures Atoll(sign + digits + rest) == Saturated(Signed(sign, Value(digits)))
  {
    var number := digits + rest;
    assert digits[0] in digits && number[0] == digits[0];
    DigitsThen(digits, rest);
    assert sign + digits + rest == sign + number;
    if sign == "" {
      assert sign + number == number;
      AtollPlain(number);
    } else {
      AtollAfterSign(sign[0], number);
      assert [sign[0]] == sign;
    }
  }

  /** White space, a sign or none, digits, and anything that is not a digit: the
      number read is that of the digits with the sign. */
  lemma AtollIs(spaces: string, sign: string, digits: string, rest: string)
    requires forall c <- spaces :: c as int == 32 || 9 <= c as int <= 13
    requires sign == "" || sign == "-" || sign == "+"
    requires digits != "" && (forall c <- digits :: IsDigit(c)) && EndsNumber(rest)
    ensures Atoll(spaces + (sign + digits + rest)) == Saturated(Signed(sign, Value(digits)))
  {
    AtollSkips(spaces, sign + digits + rest);
    AtollSigned(sign, digits, rest);
  }

  /** Without a digit at that place it is 0. */
  lemma AtollOfNothing(spaces: string, sign: string, rest: string)
    requires forall c <- spaces :: c as int == 32 || 9 <= c as int <= 13
    requires sign == "" || sign == "-" || sign == "+"
    requires EndsNumber(rest)
    requires sign == "" && rest != "" ==> !IsSpace(rest[0]) && rest[0] != '-' && rest[0] != '+'
    ensures Atoll(spaces + (sign + rest)) == 0
  {
    AtollSkips(spaces, sign + rest);
    DigitsThen("", rest);
    assert "" + rest == rest;
    if sign == "" {
      assert sign + rest == rest;
    } else {
      AtollAfterSign(sign[0], rest);
      assert [sign[0]] == sign;
    }
  }

  /** A printed number is read back up to the largest long long. */
  lemma AtollReads(n: nat)
    ensures Atoll(Dec(n)) == if n <= LLONG_MAX then n else LLONG_MAX
  {
    DecReadsBack(n);
    AllDigits(Dec(n));
    assert Dec(n)[0] in Dec(n);
  }

  /** The digits are followed by the prefix of the test string, so the first
      underscore comes right after them. */
  lemma UnderscoreFollows(clock: nat, size: nat)
    requires |Dec(clock)| < size
    ensures Find(MakeTestStr(clock, size), '_') == |Dec(clock)| < |MakeTestStr(clock, size)|
  {
    var msg := MakeTestStr(clock, size);
    DecReadsBack(clock);
    StartsWithUnderscore(size - |Dec(clock)|);
    assert msg[..|Dec(clock)|] == Dec(clock) && msg[|Dec(clock)|] == '_';
    FindIs(msg, '_', |Dec(clock)|);
  }

  lemma StartsWithUnderscore(n: nat)
    requires n > 0
    ensures |TestStr.Make("_", n)| > 0 && TestStr.Make("_", n)[0] == '_'
  {
    var head := "_" + ":";
    if n >= 20 {
      GrowKeepsStart(TestStr.Resize10(head), n);
    }
  }

  lemma {:induction false} GrowKeepsStart(s: string, n: nat)
    requires s != ""
    ensures |TestStr.Grow(s, n)| > 0 && TestStr.Grow(s, n)[0] == s[0]
    decreases n - |s|
  {
    if n < |s| + 10 {
    } else {
      GrowKeepsStart(s + TestStr.Block(|s|), n);
    }
  }

  /** The round trip: the clock is recovered exactly when it fits a long long. */
  lemma RoundTrip(clock: nat, size: nat)
    requires |Dec(clock)| < size && clock < 0x1_0000_0000_0000_0000
    ensures GetTimeFromMsg(MakeTestStr(clock, size)) == clock <==> clock <= 0x7FFF_FFFF_FFFF_FFFF
  {
    UnderscoreFollows(clock, size);
    ReadsDigits(MakeTestStr(clock, size), Dec(clock));
    AtollReads(clock);
    FitsUInt64(if clock <= LLONG_MAX then clock else LLONG_MAX);
  }

  lemma ReadsDigits(msg: string, digits: string)
    requires digits <= msg && Find(msg, '_') == |digits| < |msg|
    ensures GetTimeFromMsg(msg) == UInt64(Atoll(digits))
  {
    assert msg[..|digits|] == digits;
  }

  /** In any message, what counts is what stands before the first underscore. */
  lemma TimeIsBeforeUnderscore(before: string, after: string)
    requires '_' !in before
    ensures GetTimeFromMsg(before + "_" + after) == Atoll(before) % 0x1_0000_0000_0000_0000
    ensures GetTimeFromMsg(before) == 0
  {
    var msg := before + "_" + after;
    assert msg[..|before|] == before == before[..|before|] && msg[|before|] == '_';
    FindIs(msg, '_', |before|);
    FindIs(before, '_', |before|);
  }

  /** A message with no room for an underscore reads as time 0. */
  lemma NoRoomForClock(clock: nat)
    ensures GetTimeFromMsg(MakeTestStr(clock, |Dec(clock)|)) == 0
  {
    DecReadsBack(clock);
    var msg := MakeTestStr(clock, |Dec(clock)|);
    assert msg == Dec(clock) == msg[..|msg|];
    FindIs(msg, '_', |msg|);
  }

  /** The message has the requested size exactly when the test string has. */
  lemma MessageSize(clock: nat, size: nat)
    requires |Dec(clock)| <= size
    ensures var n := size - |Dec(clock)|;
            && size <= |MakeTestStr(clock, size)| <= size + TestStr.Overshoot(n)
            && Pow10(7) == 10_000_000
            && (|MakeTestStr(clock, size)| == size <==> (n <= 2 || n < 10_000_000 || TestStr.Fits(n, 9_999_990, 8)))
  {
    TestStr.LengthLaw("_", size - |Dec(clock)|);
    TestStr.ExactLengthIff("_", size - |Dec(clock)|);
  }

  /** The whole text of a message below 10^7: the clock, and then the ruler that
      starts with an underscore and a colon. */
  lemma MessageText(clock: nat, size: nat)
    requires |Dec(clock)| <= size < 10_000_000
    ensures |MakeTestStr(clock, size)| == size && Dec(clock) <= MakeTestStr(clock, size)
    ensures var tail, n := MakeTestStr(clock, size)[|Dec(clock)|..], size - |Dec(clock)|;
            && (n > 0 ==> tail[0] == '_')
            && (n > 1 ==> tail[1] == ':')
            && (n >= 20 ==> TestStr.Shows(tail) && forall i :: 2 <= i < 10 ==> tail[i] == '=')
            && (forall i :: (if n < 20 then 2 else 10 * (n / 10)) <= i < n ==> tail[i] as int == 0x30 + (i + 1) % 10)
  {
    var tail, n := MakeTestStr(clock, size)[|Dec(clock)|..], size - |Dec(clock)|;
    MessageSize(clock, size);
    assert tail == TestStr.Make("_", n);
    if n < 20 { TestStr.ShortStrings("_", n); } else { TestStr.IsRuler("_", n); }
  }
}
