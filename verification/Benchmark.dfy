/** What the benchmark measures, end to end: both clients read from every message
    they get back the very clock at which that message was made. */
module Benchmark {
  import opened Arithmetic
  import opened Decimal
  import opened Timestamp
  import opened LatencyStats
  import Corruption = StreamCorruption
  import Stream = StreamPipeline
  import Server = StreamServer
  import Dgram = DgramPipeline

  /** The messages of the producer: message i is made at clocks[i]. */
  ghost predicate MadeAt(msgs: seq<string>, clocks: seq<nat>, size: nat) {
    && |msgs| == |clocks|
    && (forall i :: 0 <= i < |msgs| ==>
          clocks[i] <= LLONG_MAX && |Dec(clocks[i])| < size && msgs[i] == MakeTestStr(clocks[i], size))
  }

  lemma SizesExact(msgs: seq<string>, clocks: seq<nat>, size: nat)
    requires MadeAt(msgs, clocks, size) && size < 10_000_000
    ensures forall m <- msgs :: |m| == size
  {
    forall i | 0 <= i < |msgs| ensures |msgs[i]| == size {
      MessageSize(clocks[i], size);
    }
  }

  lemma ClocksRead(msgs: seq<string>, clocks: seq<nat>, size: nat, k: nat)
    requires MadeAt(msgs, clocks, size) && k < |msgs|
    ensures GetTimeFromMsg(msgs[k]) == clocks[k]
  {
    RoundTrip(clocks[k], size);
  }

  /** Byte stream: whatever the chunking, interleaving and partial client sends,
      the k-th message handled carries the k-th clock, provided the server's
      sends are accepted as a whole. */
  lemma StreamClocks(size: nat, clocks: seq<nat>, steps: seq<Stream.Step>, k: nat)
    requires 0 < size < 10_000_000
    requires var s := Stream.Exec(size, Stream.INIT, steps);
             MadeAt(s.submitted, clocks, size) && Server.AllWhole(s.server.log) && k < |s.frame.emitted|
    ensures k < |clocks|
    ensures GetTimeFromMsg(Stream.Exec(size, Stream.INIT, steps).frame.emitted[k]) == clocks[k]
  {
    var s := Stream.Exec(size, Stream.INIT, steps);
    SizesExact(s.submitted, clocks, size);
    Stream.EmittedMessages(size, steps);
    ClocksRead(s.submitted, clocks, size, k);
  }

  /** Datagrams: the k-th message delivered carries the k-th clock, provided no
      send was accepted in part. */
  lemma DgramClocks(size: nat, clocks: seq<nat>, steps: seq<Dgram.Step>, k: nat)
    requires 0 < size <= 102_400
    requires var s := Dgram.Exec(Dgram.INIT, steps);
             MadeAt(s.submitted, clocks, size) && s.truncated == 0 && k < |s.delivered|
    ensures k < |clocks|
    ensures GetTimeFromMsg(Dgram.Exec(Dgram.INIT, steps).delivered[k]) == clocks[k]
  {
    var s := Dgram.Exec(Dgram.INIT, steps);
    SizesExact(s.submitted, clocks, size);
    Dgram.DeliversSubmitted(steps);
    ClocksRead(s.submitted, clocks, size, k);
  }

  /** Handling a list of messages, the k-th one at time now[k]. */
  function Arrivals(msgs: seq<string>, now: seq<nat>): seq<Arrival>
    requires |msgs| <= |now|
  {
    seq(|msgs|, k requires 0 <= k < |msgs| => ArrivalOf(msgs[k], now[k]))
  }

  lemma {:induction false} BytesOfEqualSizes(arrivals: seq<Arrival>, size: nat)
    requires forall k :: 0 <= k < |arrivals| ==> arrivals[k].size == size
    ensures Bytes(arrivals) == |arrivals| * size
  {
    if arrivals == [] {
    } else {
      BytesOfEqualSizes(arrivals[..|arrivals| - 1], size);
      assert |arrivals| * size == (|arrivals| - 1) * size + size;
    }
  }

  /** The k-th logged interval is the time from making to handling the k-th
      message exactly when that time fits an int, and is that time modulo 2^32 in
      any case; the byte counters account for all messages. */
  ghost predicate Measured(stats: Stats, clocks: seq<nat>, now: seq<nat>, count: nat, size: nat)
    requires count <= |clocks| && count <= |now|
  {
    && |stats.intervals| == count
    && (forall k :: 0 <= k < count ==> Wraps(stats.intervals[k], Delay(clocks[k], now[k])))
    && (forall k :: 0 <= k < count ==>
          (stats.intervals[k] == Delay(clocks[k], now[k]) <==> FitsInt(Delay(clocks[k], now[k]))))
    && stats.flushed + stats.recvedBytes == count * size
  }

  lemma HandledIsMeasured(msgs: seq<string>, clocks: seq<nat>, size: nat, now: seq<nat>)
    requires |msgs| <= |now| && MadeAt(msgs, clocks, size) && size < 10_000_000
    ensures Measured(HandleAll(Arrivals(msgs, now)), clocks, now, |msgs|, size)
  {
    var arrivals := Arrivals(msgs, now);
    forall k | 0 <= k < |msgs|
      ensures arrivals[k].size == size && Interval(arrivals[k]) == Latency(clocks[k], now[k])
    {
      ArrivalMeasured(msgs, clocks, size, k, now[k]);
    }
    LogAndWindowsAgree(arrivals);
    BytesOfEqualSizes(arrivals, size);
    forall k | 0 <= k < |msgs|
      ensures Wraps(Latency(clocks[k], now[k]), Delay(clocks[k], now[k]))
      ensures Latency(clocks[k], now[k]) == Delay(clocks[k], now[k]) <==> FitsInt(Delay(clocks[k], now[k]))
    {
      LatencyIsDelay(clocks[k], now[k]);
    }
  }

  lemma ArrivalMeasured(msgs: seq<string>, clocks: seq<nat>, size: nat, k: nat, curTime: nat)
    requires MadeAt(msgs, clocks, size) && size < 10_000_000 && k < |msgs|
    ensures ArrivalOf(msgs[k], curTime) == Arrival(size, clocks[k], curTime)
  {
    SizesExact(msgs, clocks, size);
    assert msgs[k] in msgs;
    ClocksRead(msgs, clocks, size, k);
  }

  lemma PrefixIsMeasured(msgs: seq<string>, clocks: seq<nat>, size: nat, now: seq<nat>, handled: seq<string>)
    requires MadeAt(msgs, clocks, size) && size < 10_000_000 && handled <= msgs && |handled| <= |now|
    ensures |handled| <= |clocks| && Measured(HandleAll(Arrivals(handled, now)), clocks, now, |handled|, size)
  {
    HandledIsMeasured(handled, clocks[..|handled|], size, now);
  }

  /** The benchmark measures what it means to measure, over the byte stream: */
  lemma StreamLatencies(size: nat, clocks: seq<nat>, now: seq<nat>, steps: seq<Stream.Step>)
    requires 0 < size < 10_000_000
    requires var s := Stream.Exec(size, Stream.INIT, steps);
             MadeAt(s.submitted, clocks, size) && Server.AllWhole(s.server.log) && |s.frame.emitted| <= |now|
    ensures var handled := Stream.Exec(size, Stream.INIT, steps).frame.emitted;
            |handled| <= |clocks| && Measured(HandleAll(Arrivals(handled, now)), clocks, now, |handled|, size)
  {
    var s := Stream.Exec(size, Stream.INIT, steps);
    SizesExact(s.submitted, clocks, size);
    Stream.EmittedMessages(size, steps);
    PrefixIsMeasured(s.submitted, clocks, size, now, s.frame.emitted);
  }

  /** and over datagrams. */
  lemma DgramLatencies(size: nat, clocks: seq<nat>, now: seq<nat>, steps: seq<Dgram.Step>)
    requires 0 < size <= 102_400
    requires var s := Dgram.Exec(Dgram.INIT, steps);
             MadeAt(s.submitted, clocks, size) && s.truncated == 0 && |s.delivered| <= |now|
    ensures var handled := Dgram.Exec(Dgram.INIT, steps).delivered;
            |handled| <= |clocks| && Measured(HandleAll(Arrivals(handled, now)), clocks, now, |handled|, size)
  {
    var s := Dgram.Exec(Dgram.INIT, steps);
    SizesExact(s.submitted, clocks, size);
    Dgram.DeliversSubmitted(steps);
    PrefixIsMeasured(s.submitted, clocks, size, now, s.delivered);
  }

  /** The true times from making to handling, for the first count messages. */
  function Delays(clocks: seq<nat>, now: seq<nat>, count: nat): seq<int>
    requires count <= |clocks| && count <= |now|
  {
    seq(count, k requires 0 <= k < count => Delay(clocks[k], now[k]))
  }

  /** No message is handled before it is made, and the times sum up to an int. */
  predicate Sane(delays: seq<int>) { NonNegative(delays) && Sum(delays) < 0x8000_0000 }

  /** One line for every ten messages. Line i gives the maximum and the floor mean
      of times 10 i to 10 i + 9, and the floor mean of all times up to there. */
  ghost predicate Prints(stats: Stats, delays: seq<int>) {
    && stats.intervals == delays
    && |stats.reports| == |delays| / 10
    && (forall i :: 0 <= i < |stats.reports| ==>
          Truthful(stats.reports[i], delays[10 * i..10 * (i + 1)], delays[..10 * (i + 1)]))
  }

  lemma {:induction false} SaneFits(xs: seq<int>, k: nat)
    requires Sane(xs) && k < |xs|
    ensures FitsInt(xs[k])
  {
    var init, last := xs[..|xs| - 1], xs[|xs| - 1];
    SumNonNegative(init);
    if k < |init| { SaneFits(init, k); } else { }
  }

  lemma LogIsDelays(stats: Stats, clocks: seq<nat>, now: seq<nat>, count: nat, size: nat)
    requires count <= |clocks| && count <= |now|
    requires Measured(stats, clocks, now, count, size) && Sane(Delays(clocks, now, count))
    ensures stats.intervals == Delays(clocks, now, count)
  {
    forall k | 0 <= k < count ensures stats.intervals[k] == Delays(clocks, now, count)[k] {
      SaneFits(Delays(clocks, now, count), k);
    }
  }

  lemma MeasuredPrints(arrivals: seq<Arrival>, clocks: seq<nat>, now: seq<nat>, size: nat)
    requires |arrivals| <= |clocks| && |arrivals| <= |now|
    requires Measured(HandleAll(arrivals), clocks, now, |arrivals|, size) && Sane(Delays(clocks, now, |arrivals|))
    ensures Prints(HandleAll(arrivals), Delays(clocks, now, |arrivals|))
  {
    var s := HandleAll(arrivals);
    LogIsDelays(s, clocks, now, |arrivals|, size);
    LogAndWindowsAgree(arrivals);
    forall i | 0 <= i < |s.reports|
      ensures Truthful(s.reports[i], s.intervals[10 * i..10 * (i + 1)], s.intervals[..10 * (i + 1)])
    {
      ReportsTruthful(arrivals, i);
    }
  }

  /** Line i has a rate exactly when more than ten seconds have passed since the
      last line with one; then it is the floor of ten times the bytes of the
      messages handled since, divided by the milliseconds passed. */
  ghost predicate PrintsRates(stats: Stats, now: seq<nat>, size: nat) {
    forall i :: 0 <= i < |stats.reports| ==> PrintsRate(stats.reports, now, size, i)
  }

  ghost predicate PrintsRate(reports: seq<Report>, now: seq<nat>, size: nat, i: nat)
    requires i < |reports|
  {
    10 * (i + 1) <= |now| &&
    var j := RatedBefore(reports, i);
    var passed := Delay(if j == 0 then 0 else now[10 * j - 1], now[10 * i + 9]) % 0x1_0000_0000_0000_0000;
    var tenfold := (100 * (i + 1 - j) * size) % 0x1_0000_0000_0000_0000;
    && (reports[i].rate.Some? <==> passed > 10_000)
    && (passed > 10_000 ==>
          var x := reports[i].rate.value; x * passed <= tenfold < (x + 1) * passed)
  }

  lemma TenfoldBytes(arrivals: seq<Arrival>, size: nat, j: nat, i: nat)
    requires j <= i && 10 * (i + 1) <= |arrivals|
    requires forall k :: 0 <= k < |arrivals| ==> arrivals[k].size == size
    ensures 10 * Bytes(arrivals[10 * j..10 * (i + 1)]) == 100 * (i + 1 - j) * size
  {
    var slice, tens := arrivals[10 * j..10 * (i + 1)], i + 1 - j;
    BytesOfEqualSizes(slice, size);
    assert |slice| == 10 * tens;
    HundredTimes(tens, size);
  }

  lemma HundredTimes(k: nat, size: nat)
    ensures 10 * ((10 * k) * size) == (100 * k) * size
  {
  }

  lemma EqualSizesRate(arrivals: seq<Arrival>, reports: seq<Report>, now: seq<nat>, size: nat, i: nat)
    requires |arrivals| <= |now| && i < |reports| && 10 * (i + 1) <= |arrivals| && RateTold(arrivals, reports, i)
    requires forall k :: 0 <= k < |arrivals| ==> arrivals[k].size == size && arrivals[k].curTime == now[k]
    ensures PrintsRate(reports, now, size, i)
  {
    TenfoldBytes(arrivals, size, RatedBefore(reports, i), i);
  }

  lemma HandledRates(msgs: seq<string>, now: seq<nat>, size: nat)
    requires |msgs| <= |now| && forall m <- msgs :: |m| == size
    ensures PrintsRates(HandleAll(Arrivals(msgs, now)), now, size)
  {
    var arrivals := Arrivals(msgs, now);
    assert forall k :: 0 <= k < |msgs| ==> arrivals[k].size == |msgs[k]| == size && arrivals[k].curTime == now[k];
    forall i | 0 <= i < |HandleAll(arrivals).reports| ensures PrintsRate(HandleAll(arrivals).reports, now, size, i) {
      RatesTold(arrivals, i);
      EqualSizesRate(arrivals, HandleAll(arrivals).reports, now, size, i);
    }
  }

  /** What the stream client prints is the truth about the submitted messages, */
  lemma StreamPrints(size: nat, clocks: seq<nat>, now: seq<nat>, steps: seq<Stream.Step>)
    requires 0 < size < 10_000_000
    requires var s := Stream.Exec(size, Stream.INIT, steps);
             MadeAt(s.submitted, clocks, size) && Server.AllWhole(s.server.log) && |s.frame.emitted| <= |now|
    ensures |Stream.Exec(size, Stream.INIT, steps).frame.emitted| <= |clocks|
    ensures var handled := Stream.Exec(size, Stream.INIT, steps).frame.emitted;
            var stats, delays := HandleAll(Arrivals(handled, now)), Delays(clocks, now, |handled|);
            PrintsRates(stats, now, size) && (Sane(delays) ==> Prints(stats, delays))
  {
    var handled := Stream.Exec(size, Stream.INIT, steps).frame.emitted;
    StreamLatencies(size, clocks, now, steps);
    SizesExact(Stream.Exec(size, Stream.INIT, steps).submitted, clocks, size);
    Stream.EmittedMessages(size, steps);
    HandledRates(handled, now, size);
    if Sane(Delays(clocks, now, |handled|)) { MeasuredPrints(Arrivals(handled, now), clocks, now, size); }
  }

  /** and what the datagram client prints likewise. */
  lemma DgramPrints(size: nat, clocks: seq<nat>, now: seq<nat>, steps: seq<Dgram.Step>)
    requires 0 < size <= 102_400
    requires var s := Dgram.Exec(Dgram.INIT, steps);
             MadeAt(s.submitted, clocks, size) && s.truncated == 0 && |s.delivered| <= |now|
    ensures |Dgram.Exec(Dgram.INIT, steps).delivered| <= |clocks|
    ensures var handled := Dgram.Exec(Dgram.INIT, steps).delivered;
            var stats, delays := HandleAll(Arrivals(handled, now)), Delays(clocks, now, |handled|);
            PrintsRates(stats, now, size) && (Sane(delays) ==> Prints(stats, delays))
  {
    var handled := Dgram.Exec(Dgram.INIT, steps).delivered;
    DgramLatencies(size, clocks, now, steps);
    SizesExact(Dgram.Exec(Dgram.INIT, steps).submitted, clocks, size);
    Dgram.DeliversSubmitted(steps);
    HandledRates(handled, now, size);
    if Sane(Delays(clocks, now, |handled|)) { MeasuredPrints(Arrivals(handled, now), clocks, now, size); }
  }

  // ----- What a partial send of the server does to a measurement -----

  /** The underscore after the clock differs from the digits before it. */
  lemma ShiftShows(clock: nat, size: nat)
    requires |Dec(clock)| < size
    ensures var m := MakeTestStr(clock, size); m != "" && Corruption.Shifted(m) != m
  {
    var m := MakeTestStr(clock, size);
    UnderscoreFollows(clock, size);
    DecReadsBack(clock);
    assert m[..|Dec(clock)|] == Dec(clock) && m[0] == Dec(clock)[0] && m[|Dec(clock)|] == '_';
    assert IsDigit(m[0]) by { assert Dec(clock)[0] in Dec(clock); }
    Corruption.ShiftedIsSame(m);
  }

  lemma ShiftedMsgReads(m: string, digits: string)
    requires digits != "" && digits <= m && |digits| + 1 < |m| && m[|digits|] == '_' && '_' !in [digits[0]] + digits
    ensures GetTimeFromMsg(Corruption.Shifted(m)) == UInt64(Atoll([digits[0]] + digits))
  {
    var doubled := [digits[0]] + digits;
    assert doubled <= Corruption.Shifted(m) && Corruption.Shifted(m)[|doubled|] == m[|digits|];
    FindIs(Corruption.Shifted(m), '_', |doubled|);
    ReadsDigits(Corruption.Shifted(m), doubled);
  }

  lemma FirstDigitTimes(d: nat, k: nat)
    requires 1 <= d <= 9 && k <= 17
    ensures Pow10(k) <= d * Pow10(k) && d * Pow10(k) + Pow10(k) <= 1_000_000_000_000_000_000
  {
    PowGrows(k, 17);
    assert Pow10(3) == 1_000 && Pow10(6) == 1_000_000 && Pow10(9) == 1_000_000_000;
    assert Pow10(12) == 1_000_000_000_000 && Pow10(15) == 1_000_000_000_000_000;
    Scale(Pow10(k), 1, d);
    Scale(Pow10(k), d, 9);
  }

  lemma DigitsRead(s: string)
    requires s != "" && (forall c <- s :: IsDigit(c)) && Value(s) <= LLONG_MAX
    ensures '_' !in s && UInt64(Atoll(s)) == Value(s)
  {
    AllDigits(s);
    assert s[0] in s;
    FitsUInt64(Value(s));
  }

  lemma DoubledReads(clock: nat)
    requires clock > 0 && |Dec(clock)| <= 17
    ensures var digits := [Dec(clock)[0]] + Dec(clock);
            '_' !in digits && UInt64(Atoll(digits)) >= clock + Pow10(|Dec(clock)|)
  {
    var first := Dec(clock)[0];
    DecReadsBack(clock);
    DecLeads(clock);
    ValueCons(first, Dec(clock));
    FirstDigitTimes(DigitValue(first), |Dec(clock)|);
    DecLength(clock, |Dec(clock)|);
    DigitsRead([first] + Dec(clock));
  }

  /** The time in a shifted message: the clock with its first digit doubled. */
  lemma ShiftedReads(clock: nat, size: nat)
    requires clock > 0 && |Dec(clock)| <= 17 && |Dec(clock)| + 1 < size
    ensures MakeTestStr(clock, size) != ""
    ensures GetTimeFromMsg(Corruption.Shifted(MakeTestStr(clock, size))) >= clock + Pow10(|Dec(clock)|)
  {
    UnderscoreFollows(clock, size);
    MessageSize(clock, size);
    DoubledReads(clock);
    ShiftedMsgReads(MakeTestStr(clock, size), Dec(clock));
  }

  /** A run for every real message, framed by the message size as main() does:
      one partial send of the server is enough for the client to handle a message
      that was not submitted, */
  lemma PartialSendCorrupts(clock: nat, size: nat) returns (steps: seq<Stream.Step>)
    requires |Dec(clock)| < size <= 102_400
    ensures var s := Stream.Exec(size, Stream.INIT, steps);
            && s.submitted == [MakeTestStr(clock, size)]
            && |s.frame.emitted| == 1 && s.frame.emitted[0] != s.submitted[0]
  {
    var m := MakeTestStr(clock, size);
    MessageSize(clock, size);
    DecReadsBack(clock);
    ShiftShows(clock, size);
    steps := Corruption.PartialSendCorrupts(m);
  }

  /** and to read from it a clock of more than twice the real one. */
  lemma PartialSendFakesClock(clock: nat, size: nat) returns (steps: seq<Stream.Step>)
    requires clock > 0 && |Dec(clock)| <= 17 && |Dec(clock)| + 1 < size <= 102_400
    ensures var s := Stream.Exec(size, Stream.INIT, steps);
            && s.submitted == [MakeTestStr(clock, size)]
            && |s.frame.emitted| == 1 && GetTimeFromMsg(s.frame.emitted[0]) > 2 * clock
  {
    var m := MakeTestStr(clock, size);
    MessageSize(clock, size);
    ShiftedReads(clock, size);
    DecReadsBack(clock);
    DecLength(clock, |Dec(clock)|);
    steps := Corruption.PartialSendCorrupts(m);
  }
}
