/** The statistics that both clients keep about round-trip times: a log of all
    intervals, a window of the last ones, and a byte counter. */
module LatencyStats {
  import opened Arithmetic
  import opened Seqs
  import opened Timestamp
  import opened Wrappers

  /** Conversion to a 32-bit int. */
  function Int32(x: int): int {
    var m := x % 0x1_0000_0000;
    if m >= 0x8000_0000 then m - 0x1_0000_0000 else m
  }

  /** Integer division of C, which truncates. */
  function Quotient(x: int, y: int): int
    requires y > 0
  {
    if x >= 0 then x / y else -((-x) / y)
  }

  /** The sum in an int, wrapping around when it does not fit. */
  function IntSum(xs: seq<int>): int {
    if xs == [] then 0 else Int32(IntSum(xs[..|xs| - 1]) + xs[|xs| - 1])
  }

  function Sum(xs: seq<int>): int {
    if xs == [] then 0 else Sum(xs[..|xs| - 1]) + xs[|xs| - 1]
  }

  function Max(xs: seq<int>): int
    requires xs != []
  {
    if |xs| == 1 then xs[0]
    else
      var m := Max(xs[..|xs| - 1]);
      if m < xs[|xs| - 1] then xs[|xs| - 1] else m
  }

  /** One line of output: the rate is in tenths of a kilobyte per second. */
  datatype Report = Report(max: int, average10: int, averageTotal: int, rate: Option<nat>)

  datatype Stats = Stats(
    intervals: seq<int>,     // recv_package_interval_
    window: seq<int>,        // recv_package_interval10_
    count: nat,              // static_good_recv_count
    lastRefresh: nat,        // static_last_refresh_time
    recvedBytes: nat,        // static_recved_bytes
    windows: seq<seq<int>>,  // history: the windows reported so far
    reports: seq<Report>,    // history: what was reported about them
    flushed: nat)            // history: the bytes already counted in a rate

  const FRESH := Stats([], [], 0, 0, 0, [], [], 0)

  /** One received message. */
  datatype Arrival = Arrival(size: nat, sendTime: nat, curTime: nat)

  /** What handle_one_msg sees of a message that it handles at curTime. */
  function ArrivalOf(msg: string, curTime: nat): Arrival { Arrival(|msg|, GetTimeFromMsg(msg), curTime) }

  /** The difference of two uint64_t clocks, stored as an int. */
  function Latency(sendTime: int, curTime: int): int { Int32(UInt64(curTime - sendTime)) }

  /** The time that really passed. */
  function Delay(sendTime: int, curTime: int): int { curTime - sendTime }

  predicate FitsInt(x: int) { -0x8000_0000 <= x < 0x8000_0000 }

  /** w is what an int holds of x. */
  predicate Wraps(w: int, x: int) { FitsInt(w) && (w - x) % 0x1_0000_0000 == 0 }

  lemma Int32Wraps(x: int)
    ensures Wraps(Int32(x), x)
  {
  }

  /** What is stored is what an int holds of the time that passed, so it is that
      time exactly when it fits. */
  lemma LatencyIsDelay(sendTime: int, curTime: int)
    ensures Wraps(Latency(sendTime, curTime), Delay(sendTime, curTime))
    ensures Latency(sendTime, curTime) == Delay(sendTime, curTime) <==> FitsInt(Delay(sendTime, curTime))
  {
    var x := Delay(sendTime, curTime);
    ModOfMod(x);
    Int32Wraps(x);
    assert Latency(sendTime, curTime) == Int32(x) && (FitsInt(x) ==> Int32(x) == x);
  }

  function Interval(a: Arrival): int { Latency(a.sendTime, a.curTime) }

  function Elapsed(s: Stats, a: Arrival): nat { UInt64(a.curTime - s.lastRefresh) }

  /** Pushing the interval onto both vectors. */
  function Recorded(s: Stats, a: Arrival): Stats {
    s.(intervals := s.intervals + [Interval(a)], window := s.window + [Interval(a)],
       count := s.count + 1, recvedBytes := s.recvedBytes + a.size)
  }

  function AverageTotal(xs: seq<int>): int
    requires xs != []
  {
    Int32(UInt64(IntSum(xs)) / |xs|)  // the int is converted to size_t before the division
  }

  /** The line printed at every tenth message. */
  function Line(s: Stats, a: Arrival): Report
    requires s.window != [] && s.intervals != []
  {
    Report(Max(s.window), Quotient(IntSum(s.window), 10), AverageTotal(s.intervals),
           if Elapsed(s, a) > 10_000 then Some(Rate(s.recvedBytes, Elapsed(s, a))) else None)
  }

  function Rate(bytes: nat, elapsed: nat): nat
    requires elapsed > 0
  {
    UInt64(bytes * 10) / elapsed
  }

  function Reported(s: Stats, a: Arrival): Stats
    requires s.window != [] && s.intervals != []
  {
    var t := s.(windows := s.windows + [s.window], reports := s.reports + [Line(s, a)], window := []);
    if Elapsed(s, a) > 10_000
    then t.(lastRefresh := a.curTime, flushed := s.flushed + s.recvedBytes, recvedBytes := 0)
    else t
  }

  /** handle_one_msg. */
  function Handle(s: Stats, a: Arrival): Stats {
    var t := Recorded(s, a);
    if t.count % 10 == 0 then Reported(t, a) else t
  }

  function HandleAll(arrivals: seq<Arrival>): Stats {
    if arrivals == [] then FRESH else Handle(HandleAll(arrivals[..|arrivals| - 1]), arrivals[|arrivals| - 1])
  }

  function Bytes(arrivals: seq<Arrival>): nat {
    if arrivals == [] then 0 else Bytes(arrivals[..|arrivals| - 1]) + arrivals[|arrivals| - 1].size
  }

  /** The windows tile the log in tens, and no byte is lost or counted twice. */
  ghost predicate Consistent(s: Stats) {
    && s.intervals == Flatten(s.windows) + s.window
    && |s.intervals| == s.count
    && |s.window| == s.count % 10
    && |s.windows| == |s.reports| == s.count / 10
    && (forall i :: 0 <= i < |s.windows| ==> |s.windows[i]| == 10)
  }

  /** The same before a full window is reported. */
  ghost predicate Pending(s: Stats) {
    && s.intervals == Flatten(s.windows) + s.window
    && |s.intervals| == s.count && s.count % 10 == 0 && |s.window| == 10
    && |s.windows| == |s.reports| == s.count / 10 - 1
    && (forall i :: 0 <= i < |s.windows| ==> |s.windows[i]| == 10)
  }

  lemma RecordedKeeps(s: Stats, a: Arrival)
    requires Consistent(s)
    ensures if (s.count + 1) % 10 == 0 then Pending(Recorded(s, a)) else Consistent(Recorded(s, a))
  {
    NextOfTen(s.count);
    assert Flatten(s.windows) + (s.window + [Interval(a)]) == s.intervals + [Interval(a)];
  }

  lemma ReportedKeeps(s: Stats, a: Arrival)
    requires Pending(s)
    ensures Consistent(Reported(s, a))
  {
    var t := Reported(s, a);
    FlattenSnoc(s.windows, s.window);
    assert t.windows == s.windows + [s.window] && t.window == [];
    assert Flatten(t.windows) + [] == s.intervals;
  }

  lemma HandleKeeps(s: Stats, a: Arrival)
    requires Consistent(s)
    ensures Consistent(Handle(s, a))
  {
    RecordedKeeps(s, a);
    if (s.count + 1) % 10 == 0 { ReportedKeeps(Recorded(s, a), a); }
  }

  lemma HandleCounts(s: Stats, a: Arrival)
    ensures var t := Handle(s, a);
            && t.intervals == s.intervals + [Interval(a)]
            && t.count == s.count + 1
            && t.flushed + t.recvedBytes == s.flushed + s.recvedBytes + a.size
  {
  }

  lemma LogNext(init: seq<Arrival>, a: Arrival, log: seq<int>)
    requires |log| == |init| && forall i :: 0 <= i < |init| ==> log[i] == Interval(init[i])
    ensures forall i :: 0 <= i < |init| + 1 ==> (log + [Interval(a)])[i] == Interval((init + [a])[i])
  {
  }

  /** Over any run: the reported windows and the current one are the log, the
      current one holds the last count mod 10 intervals, every report is about
      ten of them, and the bytes flushed and pending are the bytes handled. */
  lemma {:induction false} LogAndWindowsAgree(arrivals: seq<Arrival>)
    ensures var s := HandleAll(arrivals);
            && Consistent(s)
            && s.count == |arrivals|
            && s.flushed + s.recvedBytes == Bytes(arrivals)
            && |s.intervals| == |arrivals|
            && (forall i :: 0 <= i < |arrivals| ==> s.intervals[i] == Interval(arrivals[i]))
  {
    if arrivals == [] {
    } else {
      var init, a := arrivals[..|arrivals| - 1], arrivals[|arrivals| - 1];
      LogAndWindowsAgree(init);
      HandleKeeps(HandleAll(init), a);
      HandleCounts(HandleAll(init), a);
      LogNext(init, a, HandleAll(init).intervals);
      assert arrivals == init + [a];
    }
  }

  // ----- The printed numbers -----

  predicate NonNegative(xs: seq<int>) { forall i :: 0 <= i < |xs| ==> xs[i] >= 0 }

  predicate AtMost(xs: seq<int>, m: int) { forall i :: 0 <= i < |xs| ==> xs[i] <= m }

  lemma {:induction false} MaxIsMaximum(xs: seq<int>)
    requires xs != []
    ensures Max(xs) in xs && AtMost(xs, Max(xs))
  {
    if |xs| == 1 {
    } else {
      MaxIsMaximum(xs[..|xs| - 1]);
    }
  }

  lemma WrapsOnce(v: int, w: int, x: int)
    requires Wraps(v, x) && Wraps(w, x)
    ensures v == w
  {
    assert ((v - x) - (w - x)) % 0x1_0000_0000 == 0;
  }

  /** The int sum of any values is the true sum as far as an int can hold it. */
  lemma {:induction false} IntSumWraps(xs: seq<int>)
    ensures Wraps(IntSum(xs), Sum(xs))
  {
    if xs == [] {
    } else {
      var init, last := xs[..|xs| - 1], xs[|xs| - 1];
      IntSumWraps(init);
      Int32Wraps(IntSum(init) + last);
      WrapsAdd(IntSum(init), Sum(init), last, IntSum(xs));
    }
  }

  lemma WrapsAdd(v: int, x: int, d: int, w: int)
    requires Wraps(v, x) && Wraps(w, v + d)
    ensures Wraps(w, x + d)
  {
    assert ((w - (v + d)) + (v - x)) % 0x1_0000_0000 == 0;
  }

  /** Of non-negative values it is the true sum exactly when that fits. */
  lemma IntSumIsSum(xs: seq<int>)
    requires NonNegative(xs)
    ensures 0 <= Sum(xs) && FitsInt(IntSum(xs))
    ensures IntSum(xs) == Sum(xs) <==> Sum(xs) < 0x8000_0000
  {
    SumNonNegative(xs);
    IntSumWraps(xs);
    if Sum(xs) < 0x8000_0000 { WrapsOnce(IntSum(xs), Sum(xs), Sum(xs)); }
  }

  lemma {:induction false} SumNonNegative(xs: seq<int>)
    requires NonNegative(xs)
    ensures Sum(xs) >= 0
  {
    if xs == [] {
    } else {
      SumNonNegative(xs[..|xs| - 1]);
    }
  }

  lemma {:induction false} SumAppend(xs: seq<int>, ys: seq<int>)
    ensures Sum(xs + ys) == Sum(xs) + Sum(ys)
  {
    if ys == [] {
      assert xs + ys == xs;
    } else {
      assert (xs + ys)[..|xs + ys| - 1] == xs + ys[..|ys| - 1];
      SumAppend(xs, ys[..|ys| - 1]);
    }
  }

  lemma {:induction false} SumAtMost(xs: seq<int>, m: int)
    requires AtMost(xs, m)
    ensures Sum(xs) <= |xs| * m
  {
    if xs == [] {
    } else {
      SumAtMost(xs[..|xs| - 1], m);
      assert |xs| * m == (|xs| - 1) * m + m;
    }
  }

  /** q is the quotient of x and y as C rounds it, towards zero. */
  predicate Truncated(q: int, x: int, y: int) {
    if x >= 0 then y * q <= x < y * q + y else y * q - y < x <= y * q
  }

  lemma QuotientTruncates(x: int, y: int)
    requires y > 0
    ensures Truncated(Quotient(x, y), x, y)
  {
    var z: int := if x >= 0 then x else -x;
    assert z == y * (z / y) + z % y;
    if x < 0 { assert y * -(z / y) == -(y * (z / y)); }
  }

  /** What is printed of the int w as the mean of n values: a negative w becomes a
      huge size_t before the division. */
  predicate MeanOfSize(mean: int, w: int, n: nat)
    requires n > 0
  {
    var u := if w >= 0 then w else w + 0x1_0000_0000_0000_0000;
    Wraps(mean, u / n)
  }

  /** A line about a window and the log at that moment: the maximum of the window,
      and the means that C computes from int sums. */
  ghost predicate Printed(r: Report, window: seq<int>, log: seq<int>) {
    && |window| == 10 && log != []
    && r.max in window && AtMost(window, r.max)
    && (forall w :: Wraps(w, Sum(window)) ==> Truncated(r.average10, w, 10))
    && (forall w :: Wraps(w, Sum(log)) ==> MeanOfSize(r.averageTotal, w, |log|))
  }

  lemma LineIsPrinted(s: Stats, a: Arrival)
    requires |s.window| == 10 && s.intervals != []
    ensures Printed(Line(s, a), s.window, s.intervals)
  {
    MaxIsMaximum(s.window);
    forall w | Wraps(w, Sum(s.window)) ensures Truncated(Line(s, a).average10, w, 10) {
      IntSumWraps(s.window);
      WrapsOnce(w, IntSum(s.window), Sum(s.window));
      QuotientTruncates(w, 10);
    }
    forall w | Wraps(w, Sum(s.intervals)) ensures MeanOfSize(Line(s, a).averageTotal, w, |s.intervals|) {
      IntSumWraps(s.intervals);
      WrapsOnce(w, IntSum(s.intervals), Sum(s.intervals));
      TotalIsMean(s.intervals);
    }
  }

  lemma TotalIsMean(log: seq<int>)
    requires log != []
    ensures MeanOfSize(AverageTotal(log), IntSum(log), |log|)
  {
    IntSumWraps(log);
    SizeOfInt(IntSum(log));
    Int32Wraps(UInt64(IntSum(log)) / |log|);
  }

  lemma SizeOfInt(w: int)
    requires FitsInt(w)
    ensures UInt64(w) == if w >= 0 then w else w + 0x1_0000_0000_0000_0000
  {
  }

  /** The line as its reader takes it: floor means, neither of them above the
      maximum of its list. */
  ghost predicate Truthful(r: Report, window: seq<int>, log: seq<int>) {
    && |window| == 10 && log != []
    && r.max in window && AtMost(window, r.max)
    && r.average10 == Sum(window) / 10 <= r.max
    && r.averageTotal == Sum(log) / |log| <= Max(log)
  }

  /** It may be taken like that while the values are non-negative and the sum of
      the log fits an int. */
  lemma PrintedIsTruthful(r: Report, window: seq<int>, log: seq<int>, before: seq<int>)
    requires Printed(r, window, log) && log == before + window
    requires NonNegative(log) && Sum(log) < 0x8000_0000
    ensures Truthful(r, window, log)
  {
    PartsNonNegative(before, window);
    SumAppend(before, window);
    SumNonNegative(before);
    SumNonNegative(window);
    assert Wraps(Sum(window), Sum(window)) && Wraps(Sum(log), Sum(log));
    SumAtMost(window, r.max);
    MeanIsTrue(r.averageTotal, log);
  }

  lemma PartsNonNegative(xs: seq<int>, ys: seq<int>)
    requires NonNegative(xs + ys)
    ensures NonNegative(xs) && NonNegative(ys)
  {
    assert forall i :: 0 <= i < |xs| ==> xs[i] == (xs + ys)[i];
    assert forall i :: 0 <= i < |ys| ==> ys[i] == (xs + ys)[|xs| + i];
  }

  lemma MeanIsTrue(mean: int, log: seq<int>)
    requires log != [] && 0 <= Sum(log) < 0x8000_0000 && MeanOfSize(mean, Sum(log), |log|)
    ensures mean == Sum(log) / |log| <= Max(log)
  {
    QuotientBelow(Sum(log), |log|);
    WrapsOnce(mean, Sum(log) / |log|, Sum(log) / |log|);
    MaxIsMaximum(log);
    SumAtMost(log, Max(log));
    MeanAtMost(Sum(log), |log|, Max(log));
  }

  /** One more arrival: the log grows by one interval, what was said stays said. */
  lemma LogGrows(s: Stats, a: Arrival)
    ensures Handle(s, a).intervals == s.intervals + [Interval(a)] == Recorded(s, a).intervals
    ensures s.windows <= Handle(s, a).windows && s.reports <= Handle(s, a).reports
  {
  }

  /** Line i is about intervals 10 i to 10 i + 9 and about the log up to there. */
  ghost predicate Said(s: Stats, i: nat) {
    && i < |s.reports| && i < |s.windows| && 10 * (i + 1) <= |s.intervals|
    && s.windows[i] == s.intervals[10 * i..10 * (i + 1)]
    && Printed(s.reports[i], s.windows[i], s.intervals[..10 * (i + 1)])
  }

  lemma SaidStays(s: Stats, t: Stats, i: nat)
    requires Said(s, i) && s.windows <= t.windows && s.reports <= t.reports && s.intervals <= t.intervals
    ensures Said(t, i)
  {
    assert t.intervals[10 * i..10 * (i + 1)] == s.intervals[10 * i..10 * (i + 1)];
    assert t.intervals[..10 * (i + 1)] == s.intervals[..10 * (i + 1)];
  }

  /** The window about to be reported is the last ten of the log. */
  lemma WindowIsFull(s: Stats, a: Arrival)
    requires Consistent(s) && (s.count + 1) % 10 == 0
    ensures var u, i := Recorded(s, a), |s.reports|;
            && |u.window| == 10 && |u.intervals| == 10 * (i + 1) && |s.windows| == i
            && u.intervals == u.intervals[..10 * i] + u.window
            && u.window == u.intervals[10 * i..10 * (i + 1)]
  {
    var u, i, tens := Recorded(s, a), |s.reports|, Flatten(s.windows);
    NextOfTen(s.count);
    assert u.intervals == tens + u.window;
    assert |tens| == 10 * i;
    assert (tens + u.window)[..10 * i] == tens && (tens + u.window)[10 * i..10 * (i + 1)] == u.window;
  }

  lemma SaidNow(t: Stats, i: nat)
    requires i < |t.reports| && i < |t.windows| && 10 * (i + 1) == |t.intervals|
    requires t.windows[i] == t.intervals[10 * i..10 * (i + 1)]
    requires Printed(t.reports[i], t.windows[i], t.intervals)
    ensures Said(t, i)
  {
    assert t.intervals[..10 * (i + 1)] == t.intervals;
  }

  lemma LastLineSaid(s: Stats, a: Arrival)
    requires Consistent(s) && (s.count + 1) % 10 == 0
    ensures Said(Reported(Recorded(s, a), a), |s.reports|)
  {
    var u, i := Recorded(s, a), |s.reports|;
    WindowIsFull(s, a);
    LineIsPrinted(u, a);
    ReportedAppends(u, a);
    SaidNow(Reported(u, a), i);
  }

  lemma ReportedAppends(u: Stats, a: Arrival)
    requires u.window != [] && u.intervals != []
    ensures var t := Reported(u, a);
            t.intervals == u.intervals && t.windows == u.windows + [u.window] && t.reports == u.reports + [Line(u, a)]
  {
  }

  lemma SaidAfter(s: Stats, a: Arrival, i: nat)
    requires Consistent(s) && i < |Handle(s, a).reports|
    requires i < |s.reports| ==> Said(s, i)
    ensures Said(Handle(s, a), i)
  {
    LogGrows(s, a);
    if i < |s.reports| {
      SaidStays(s, Handle(s, a), i);
    } else {
      assert (s.count + 1) % 10 == 0 && i == |s.reports|;
      LastLineSaid(s, a);
      assert Handle(s, a) == Reported(Recorded(s, a), a);
    }
  }

  /** Over any run, every line ever printed is about its ten messages and its log. */
  lemma {:induction false} ReportsSaid(arrivals: seq<Arrival>, i: nat)
    requires i < |HandleAll(arrivals).reports|
    ensures Said(HandleAll(arrivals), i)
    decreases |arrivals|
  {
    var init, a := arrivals[..|arrivals| - 1], arrivals[|arrivals| - 1];
    LogAndWindowsAgree(init);
    if i < |HandleAll(init).reports| { ReportsSaid(init, i); } else { }
    SaidAfter(HandleAll(init), a, i);
  }

  lemma PrefixSum(xs: seq<int>, k: nat)
    requires NonNegative(xs) && k <= |xs|
    ensures NonNegative(xs[..k]) && Sum(xs[..k]) <= Sum(xs)
  {
    assert xs == xs[..k] + xs[k..];
    PartsNonNegative(xs[..k], xs[k..]);
    SumAppend(xs[..k], xs[k..]);
    SumNonNegative(xs[k..]);
  }

  lemma SaidIsTruthful(s: Stats, i: nat)
    requires Said(s, i) && NonNegative(s.intervals) && Sum(s.intervals) < 0x8000_0000
    ensures Truthful(s.reports[i], s.intervals[10 * i..10 * (i + 1)], s.intervals[..10 * (i + 1)])
  {
    var log, before := s.intervals[..10 * (i + 1)], s.intervals[..10 * i];
    PrefixSum(s.intervals, 10 * (i + 1));
    assert log == before + s.windows[i];
    PrintedIsTruthful(s.reports[i], s.windows[i], log, before);
  }

  /** While the intervals are non-negative and their sum fits an int, it gives the
      true maximum and the true floor means. */
  lemma ReportsTruthful(arrivals: seq<Arrival>, i: nat)
    requires i < |HandleAll(arrivals).reports|
    requires NonNegative(HandleAll(arrivals).intervals) && Sum(HandleAll(arrivals).intervals) < 0x8000_0000
    ensures var s := HandleAll(arrivals);
            && 10 * (i + 1) <= |s.intervals|
            && Truthful(s.reports[i], s.intervals[10 * i..10 * (i + 1)], s.intervals[..10 * (i + 1)])
  {
    ReportsSaid(arrivals, i);
    SaidIsTruthful(HandleAll(arrivals), i);
  }

  // ----- The rate -----

  /** How many lines there are up to the last one before line i that had a rate. */
  function RatedBefore(reports: seq<Report>, i: nat): (j: nat)
    requires i <= |reports|
    ensures j <= i && (j > 0 ==> reports[j - 1].rate.Some?)
    ensures forall k :: j <= k < i ==> reports[k].rate.None?
  {
    if i == 0 then 0 else if reports[i - 1].rate.Some? then i else RatedBefore(reports, i - 1)
  }

  /** The time at which line j - 1 was printed, or 0 for the start. */
  function PrintedAt(arrivals: seq<Arrival>, j: nat): nat
    requires 10 * j <= |arrivals|
  {
    if j == 0 then 0 else arrivals[10 * j - 1].curTime
  }

  /** Line i has a rate exactly when more than ten seconds have passed since the
      last line with one, in uint64_t arithmetic. It is the floor of ten times the
      bytes handled since then, divided by the milliseconds passed. */
  ghost predicate RateTold(arrivals: seq<Arrival>, reports: seq<Report>, i: nat)
    requires i < |reports| && 10 * (i + 1) <= |arrivals|
  {
    var j := RatedBefore(reports, i);
    var passed := (arrivals[10 * i + 9].curTime - PrintedAt(arrivals, j)) % 0x1_0000_0000_0000_0000;
    var tenfold := (10 * Bytes(arrivals[10 * j..10 * (i + 1)])) % 0x1_0000_0000_0000_0000;
    && (reports[i].rate.Some? <==> passed > 10_000)
    && (passed > 10_000 ==>
          var x := reports[i].rate.value; x * passed <= tenfold < (x + 1) * passed)
  }

  /** The two counters behind it: the time of the last line with a rate, and the
      bytes handled since. */
  ghost predicate Counting(s: Stats, arrivals: seq<Arrival>) {
    && s.count == |arrivals| && |s.reports| == |arrivals| / 10
    && var j := RatedBefore(s.reports, |s.reports|);
       s.lastRefresh == PrintedAt(arrivals, j) && s.recvedBytes == Bytes(arrivals[10 * j..])
  }

  lemma BytesSnoc(arrivals: seq<Arrival>, a: Arrival)
    ensures Bytes(arrivals + [a]) == Bytes(arrivals) + a.size
  {
    assert (arrivals + [a])[..|arrivals|] == arrivals;
  }

  /** Lines and arrivals that come later do not change what an earlier line says. */
  lemma {:induction false} RatedBeforeStays(reports: seq<Report>, more: seq<Report>, i: nat)
    requires i <= |reports| && reports <= more
    ensures RatedBefore(more, i) == RatedBefore(reports, i)
    decreases i
  {
    if i == 0 {
    } else {
      RatedBeforeStays(reports, more, i - 1);
    }
  }

  lemma RateStays(arrivals: seq<Arrival>, a: Arrival, reports: seq<Report>, more: seq<Report>, i: nat)
    requires i < |reports| && 10 * (i + 1) <= |arrivals| && reports <= more
    requires RateTold(arrivals, reports, i)
    ensures RateTold(arrivals + [a], more, i)
  {
    RatedBeforeStays(reports, more, i);
    var j := RatedBefore(reports, i);
    assert (arrivals + [a])[10 * j..10 * (i + 1)] == arrivals[10 * j..10 * (i + 1)];
  }

  /** The counters after a message has been recorded. */
  lemma RecordedCounts(s: Stats, init: seq<Arrival>, a: Arrival)
    requires Counting(s, init)
    ensures var j := RatedBefore(s.reports, |s.reports|);
            && Recorded(s, a).recvedBytes == Bytes((init + [a])[10 * j..])
            && Recorded(s, a).lastRefresh == PrintedAt(init + [a], j)
  {
    var j := RatedBefore(s.reports, |s.reports|);
    assert (init + [a])[10 * j..] == init[10 * j..] + [a];
    BytesSnoc(init[10 * j..], a);
  }

  lemma RateIsFloor(bytes: nat, elapsed: nat)
    requires elapsed > 0
    ensures var x, tenfold := Rate(bytes, elapsed), (10 * bytes) % 0x1_0000_0000_0000_0000;
            x * elapsed <= tenfold < (x + 1) * elapsed
  {
    var tenfold := (10 * bytes) % 0x1_0000_0000_0000_0000;
    var x := tenfold / elapsed;
    assert tenfold == elapsed * x + tenfold % elapsed;
    assert (x + 1) * elapsed == elapsed * x + elapsed;
  }

  /** The line that is printed at a tenth message. */
  lemma RateTellsNow(u: Stats, arrivals: seq<Arrival>, a: Arrival)
    requires u.window != [] && u.intervals != []
    requires u.count == |arrivals| == 10 * (|u.reports| + 1) && arrivals[|arrivals| - 1] == a
    requires var j := RatedBefore(u.reports, |u.reports|);
             u.recvedBytes == Bytes(arrivals[10 * j..]) && u.lastRefresh == PrintedAt(arrivals, j)
    ensures RateTold(arrivals, Reported(u, a).reports, |u.reports|)
    ensures Counting(Reported(u, a), arrivals)
  {
    var t, i, j := Reported(u, a), |u.reports|, RatedBefore(u.reports, |u.reports|);
    RatedBeforeStays(u.reports, t.reports, i);
    assert arrivals[10 * j..10 * (i + 1)] == arrivals[10 * j..];
    if Elapsed(u, a) > 10_000 {
      RateIsFloor(u.recvedBytes, Elapsed(u, a));
      assert arrivals[10 * (i + 1)..] == [];
    }
  }

  lemma CountingAtTen(s: Stats, init: seq<Arrival>, a: Arrival)
    requires Counting(s, init) && (s.count + 1) % 10 == 0
    ensures Counting(Reported(Recorded(s, a), a), init + [a])
    ensures 10 * (|s.reports| + 1) == |init + [a]|
    ensures RateTold(init + [a], Reported(Recorded(s, a), a).reports, |s.reports|)
  {
    RecordedCounts(s, init, a);
    NextOfTen(s.count);
    RateTellsNow(Recorded(s, a), init + [a], a);
  }

  lemma CountingBetween(s: Stats, init: seq<Arrival>, a: Arrival)
    requires Counting(s, init) && (s.count + 1) % 10 != 0
    ensures Counting(Recorded(s, a), init + [a])
  {
    RecordedCounts(s, init, a);
    NextOfTen(s.count);
  }

  lemma CountingKept(s: Stats, init: seq<Arrival>, a: Arrival)
    requires Counting(s, init)
    ensures Counting(Handle(s, a), init + [a])
  {
    if (s.count + 1) % 10 == 0 { CountingAtTen(s, init, a); } else { CountingBetween(s, init, a); }
  }

  lemma {:induction false} CountersAgree(arrivals: seq<Arrival>)
    ensures Counting(HandleAll(arrivals), arrivals)
  {
    if arrivals == [] {
    } else {
      var init, a := arrivals[..|arrivals| - 1], arrivals[|arrivals| - 1];
      assert arrivals == init + [a];
      CountersAgree(init);
      CountingKept(HandleAll(init), init, a);
    }
  }

  /** The rates after one message more. */
  lemma RateAfter(s: Stats, init: seq<Arrival>, a: Arrival, i: nat)
    requires Counting(s, init) && i < |Handle(s, a).reports|
    requires i < |s.reports| ==> 10 * (i + 1) <= |init| && RateTold(init, s.reports, i)
    ensures 10 * (i + 1) <= |init + [a]| && RateTold(init + [a], Handle(s, a).reports, i)
  {
    if i < |s.reports| {
      LogGrows(s, a);
      RateStays(init, a, s.reports, Handle(s, a).reports, i);
    } else {
      CountingAtTen(s, init, a);
    }
  }

  /** Over any run, the rate of every line ever printed is right. */
  lemma {:induction false} RatesTold(arrivals: seq<Arrival>, i: nat)
    requires i < |HandleAll(arrivals).reports|
    ensures 10 * (i + 1) <= |arrivals| && RateTold(arrivals, HandleAll(arrivals).reports, i)
    decreases |arrivals|
  {
    var init, a := arrivals[..|arrivals| - 1], arrivals[|arrivals| - 1];
    assert arrivals == init + [a];
    CountersAgree(init);
    if i < |HandleAll(init).reports| { RatesTold(init, i); } else { }
    RateAfter(HandleAll(init), init, a, i);
  }

  /** The statistics of a client, updated in place. */
  class Recorder {
    var intervals: seq<int>
    var window: seq<int>
    var count: nat
    var lastRefresh: nat
    var recvedBytes: nat
    var reports: seq<Report>
    ghost var windows: seq<seq<int>>
    ghost var flushed: nat

    ghost function Abs(): Stats reads this {
      Stats(intervals, window, count, lastRefresh, recvedBytes, windows, reports, flushed)
    }

    constructor ()
      ensures Abs() == FRESH
    {
      intervals, window, count, lastRefresh, recvedBytes := [], [], 0, 0, 0;
      reports, windows, flushed := [], [], 0;
    }

    static method Accumulate(xs: seq<int>) returns (sum: int)
      ensures sum == IntSum(xs)
    {
      sum := 0;
      for i := 0 to |xs|
        invariant sum == IntSum(xs[..i])
      {
        assert xs[..i + 1][..i] == xs[..i];
        sum := Int32(sum + xs[i]);
      }
      assert xs[..|xs|] == xs;
    }

    static method MaxElement(xs: seq<int>) returns (max: int)
      requires xs != []
      ensures max == Max(xs)
    {
      max := xs[0];
      for i := 1 to |xs|
        invariant max == Max(xs[..i])
      {
        assert xs[..i + 1][..i] == xs[..i];
        if max < xs[i] {
          max := xs[i];
        }
      }
      assert xs[..|xs|] == xs;
    }

    method HandleOneMsg(msg: string, curTime: nat)
      modifies this
      ensures Abs() == Handle(old(Abs()), ArrivalOf(msg, curTime))
    {
      var a := ArrivalOf(msg, curTime);
      recvedBytes := recvedBytes + a.size;
      count := count + 1;
      var interval := Latency(a.sendTime, a.curTime);
      intervals := intervals + [interval];
      window := window + [interval];
      if count % 10 == 0 {
        PrintLine(a);
      }
    }

    /** The branch taken at every tenth message. */
    method PrintLine(a: Arrival)
      requires window != [] && intervals != []
      modifies this
      ensures Abs() == Reported(old(Abs()), a)
    {
      var sum10 := Accumulate(window);
      var average10 := Quotient(sum10, 10);
      var sumTotal := Accumulate(intervals);
      var averageTotal := Int32(UInt64(sumTotal) / |intervals|);
      assert averageTotal == AverageTotal(intervals);
      var max := MaxElement(window);
      var elapsed := UInt64(a.curTime - lastRefresh);
      var rate := None;
      if elapsed > 10 * 1000 {
        rate := Some(Rate(recvedBytes, elapsed));
        lastRefresh := a.curTime;
        flushed := flushed + recvedBytes;
        recvedBytes := 0;
      }
      reports := reports + [Report(max, average10, averageTotal, rate)];
      windows := windows + [window];
      window := [];
    }
  }
}
