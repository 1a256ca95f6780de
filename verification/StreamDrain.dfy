/** Termination of the byte-stream pipeline: every byte moves exactly four
    times, and from every state in which the client still runs there is a
    schedule that delivers everything. */
module StreamDrain {
  import opened Seqs
  import opened Udt
  import opened Framing
  import opened StreamClient
  import opened StreamPipeline
  import Corruption = StreamCorruption
  import Server = StreamServer

  /** The moves still ahead of the bytes in transit. */
  function Measure(s: State): nat {
    4 * |Unaccepted(s)| + 3 * |s.fwd| + 2 * |s.server.buf| + |s.ret|
  }

  /** The bytes that a step moves one stage further. */
  function Moved(s: State, step: Step): nat {
    if !Enabled(s, step) then 0
    else match step
      case ClientSend(r) => |Taken(s.pc.offer, r)|
      case ClientRecv(d) => if d.Data? then |d.bytes| else 0
      case ServerRecv(d) => if d.Data? then |d.bytes| else 0
      case ServerSend(r) => Server.SendReturn(s.server.buf, r)
      case _ => 0
  }

  function AllMoved(n: nat, s: State, steps: seq<Step>): nat
    requires n > 0
    decreases |steps|
  {
    if steps == [] then 0 else Moved(s, steps[0]) + AllMoved(n, Next(n, s, steps[0]), steps[1..])
  }

  /** One step: what it moves is what the measure loses; a submission adds four
      moves per byte; a partial send of the server adds its duplicated bytes. */
  ghost predicate Accounted(n: nat, s: State, step: Step)
    requires n > 0
  {
    var t := Next(n, s, step);
    Measure(t) + Moved(s, step) + 4 * |Flatten(s.submitted)| + Server.Partial(s.server.log)
    == Measure(s) + 4 * |Flatten(t.submitted)| + Server.Partial(t.server.log)
  }

  lemma SubmitMeasure(n: nat, s: State, msg: string)
    requires n > 0 && RaceInv(s)
    ensures Accounted(n, s, Submit(msg))
  {
    FlattenSnoc(s.submitted, msg);
  }

  lemma ServerSendMeasure(n: nat, s: State, r: SendResult)
    requires n > 0
    ensures Accounted(n, s, ServerSend(r))
  {
    if Enabled(s, ServerSend(r)) && s.server.buf != "" {
      Server.LogSnoc(s.server.log, Server.Echo(Taken(s.server.buf, r), r.Accepted? && r.count == |s.server.buf|));
    }
  }

  lemma ClientSendMeasure(n: nat, s: State, r: SendResult)
    requires n > 0 && RaceInv(s)
    ensures Accounted(n, s, ClientSend(r))
  {
    if Enabled(s, ClientSend(r)) {
      var k := |Taken(s.pc.offer, r)|;
      var t := Next(n, s, ClientSend(r));
      assert Pending(t) == k && t.buf == s.buf && |t.fwd| == |s.fwd| + k;
      assert |Unaccepted(t)| == |Unaccepted(s)| - k;
    }
  }

  lemma DropLength(channel: string, d: RecvResult)
    requires Deliverable(channel, d)
    ensures |Drop(channel, d)| == |channel| - if d.Data? then |d.bytes| else 0
  {
  }

  lemma ClientRecvMeasure(n: nat, s: State, d: RecvResult)
    requires n > 0
    ensures Accounted(n, s, ClientRecv(d))
  {
    var t := Next(n, s, ClientRecv(d));
    assert t.submitted == s.submitted && t.server == s.server && t.fwd == s.fwd && t.buf == s.buf;
    assert Pending(t) == Pending(s);
    if Enabled(s, ClientRecv(d)) { DropLength(s.ret, d); }
  }

  lemma ServerRecvMeasure(n: nat, s: State, d: RecvResult)
    requires n > 0
    ensures Accounted(n, s, ServerRecv(d))
  {
    var t := Next(n, s, ServerRecv(d));
    assert t.submitted == s.submitted && t.server.log == s.server.log && t.ret == s.ret && t.buf == s.buf;
    assert t.pc == s.pc;
    if Enabled(s, ServerRecv(d)) { DropLength(s.fwd, d); }
  }

  lemma IdleMeasure(n: nat, s: State, step: Step)
    requires n > 0 && RaceInv(s)
    requires step.CheckBacklog? || step.TestRunning? || step.TestBuffer? || step.ClientErase?
    ensures Accounted(n, s, step)
  {
    var t := Next(n, s, step);
    assert t.submitted == s.submitted && t.server == s.server && t.fwd == s.fwd && t.ret == s.ret;
    assert Unaccepted(t) == Unaccepted(s);
  }

  lemma StepMeasure(n: nat, s: State, step: Step)
    requires n > 0 && RaceInv(s)
    ensures Accounted(n, s, step)
  {
    match step {
      case Submit(msg) => SubmitMeasure(n, s, msg);
      case ServerSend(r) => ServerSendMeasure(n, s, r);
      case ClientSend(r) => ClientSendMeasure(n, s, r);
      case ClientRecv(d) => ClientRecvMeasure(n, s, d);
      case ServerRecv(d) => ServerRecvMeasure(n, s, d);
      case _ => IdleMeasure(n, s, step);
    }
  }

  /** The moves of a whole run, exactly. */
  lemma {:induction false} RunMeasure(n: nat, s: State, steps: seq<Step>)
    requires n > 0 && RaceInv(s)
    ensures var t := Exec(n, s, steps);
            Measure(t) + AllMoved(n, s, steps) + 4 * |Flatten(s.submitted)| + Server.Partial(s.server.log)
            == Measure(s) + 4 * |Flatten(t.submitted)| + Server.Partial(t.server.log)
    decreases |steps|
  {
    if steps == [] {
    } else {
      StepMeasure(n, s, steps[0]);
      RaceInvKept(n, s, steps[0]);
      RunMeasure(n, Next(n, s, steps[0]), steps[1..]);
    }
  }

  predicate NoSubmit(steps: seq<Step>) { forall step <- steps :: !step.Submit? }

  lemma {:induction false} SubmittedStays(n: nat, s: State, steps: seq<Step>)
    requires n > 0 && NoSubmit(steps)
    ensures Exec(n, s, steps).submitted == s.submitted
    decreases |steps|
  {
    if steps == [] {
    } else {
      assert steps[0] in steps && forall step <- steps[1..] :: step in steps;
      SubmittedStays(n, Next(n, s, steps[0]), steps[1..]);
    }
  }

  /** Once the producer stops, the successful transfers of any further run move
      no more than Measure(s) bytes in all, however many refusals it contains. */
  lemma TransfersAreBounded(n: nat, s: State, steps: seq<Step>)
    requires n > 0 && Inv(n, s) && NoSubmit(steps)
    requires Server.AllWhole(Exec(n, s, steps).server.log)
    ensures Measure(Exec(n, s, steps)) + AllMoved(n, s, steps) + Server.Partial(s.server.log) == Measure(s)
    ensures AllMoved(n, s, steps) <= Measure(s)
  {
    InvAlways(n, s, steps);
    Server.LogLaw(Exec(n, s, steps).server.log);
    RunMeasure(n, s, steps);
    SubmittedStays(n, s, steps);
  }

  /** With nothing left to move, what was sent back is what was consumed, and
      what was submitted is what the server erased. */
  lemma DrainedEnds(n: nat, s: State)
    requires n > 0 && Inv(n, s) && Measure(s) == 0
    ensures s.consumed == Server.Sent(s.server.log) && Flatten(s.submitted) == Server.Erased(s.server.log)
  {
    InTransitAs(n, s);
    assert s.fwd == s.ret == s.server.buf == Unaccepted(s) == "";
    assert s.consumed + "" == s.consumed && Server.Erased(s.server.log) + "" == Server.Erased(s.server.log);
  }

  /** Nothing left to move: the consumed bytes are the submitted ones exactly when
      no server send was partial. For messages of the expected size, each of them
      has then been handled, in order, and no byte waits to be framed, exactly
      under that condition. */
  lemma NothingLeft(n: nat, s: State)
    requires n > 0 && Inv(n, s) && Measure(s) == 0
    ensures s.consumed == Flatten(s.submitted) <==> Server.AllWhole(s.server.log)
    ensures (forall m <- s.submitted :: |m| == n) ==>
              (s.frame == Frame("", s.submitted) <==> Server.AllWhole(s.server.log))
  {
    DrainedEnds(n, s);
    Server.LogLaw(s.server.log);
    if forall m <- s.submitted :: |m| == n {
      BlocksOfMessages(s.submitted, n);
      FrameTellsConsumed(n, s);
    }
  }

  lemma FrameTellsConsumed(n: nat, s: State)
    requires n > 0 && FrameInv(n, s)
    ensures s.frame == Frame("", s.submitted) ==> s.consumed == Flatten(s.submitted)
  {
    BlocksReassemble(s.consumed, n);
    assert Flatten(s.frame.emitted) + "" == Flatten(s.frame.emitted);
  }

  /** The client's loop has not ended and will not end by itself. */
  predicate Live(s: State) { s.running && !s.pc.Closed? }

  /** The states agree on everything but the position of the client's thread. */
  predicate SamePayload(s: State, t: State) {
    && Unaccepted(s) == Unaccepted(t) && s.fwd == t.fwd && s.server == t.server && s.ret == t.ret
    && s.sending == t.sending && s.running == t.running && s.submitted == t.submitted
  }

  /** A step of the client's thread that moves no byte. */
  function Advance(pc: Pc): Step {
    match pc
    case LoopTest => TestRunning
    case SendTest(_) => TestBuffer
    case Offering(_, _) => ClientSend(WouldBlock)
    case Erasing(_, _) => ClientErase
    case Receiving(_) => ClientRecv(NoData)
    case Closed => TestRunning
  }

  /** Where Advance leads from each position, counted in steps to the target. */
  function StepsToReceiving(pc: Pc): nat {
    match pc
    case Receiving(_) => 0
    case Offering(_, _) => 1
    case Erasing(_, _) => 1
    case SendTest(_) => 2
    case LoopTest => 3
    case Closed => 0
  }

  function StepsToOffering(pc: Pc): nat {
    match pc
    case Offering(_, _) => 0
    case SendTest(_) => 1
    case LoopTest => 2
    case Receiving(second) => if second then 3 else 2
    case Erasing(_, _) => 4
    case Closed => 0
  }

  lemma OfferingAdvances(n: nat, s: State)
    requires n > 0 && RaceInv(s) && s.pc.Offering?
    ensures Next(n, s, ClientSend(WouldBlock)) == s.(pc := Receiving(s.pc.second))
  {
    assert s.accepted + "" == s.accepted && s.fwd + "" == s.fwd;
  }

  lemma AdvanceKeeps(n: nat, s: State) returns (t: State)
    requires n > 0 && RaceInv(s) && Live(s)
    ensures t == Next(n, s, Advance(s.pc))
    ensures RaceInv(t) && Live(t) && SamePayload(s, t)
    ensures !s.pc.Receiving? ==> StepsToReceiving(t.pc) < StepsToReceiving(s.pc)
    ensures !s.pc.Offering? && Unaccepted(s) != "" ==> StepsToOffering(t.pc) < StepsToOffering(s.pc)
  {
    t := Next(n, s, Advance(s.pc));
    RaceInvKept(n, s, Advance(s.pc));
    match s.pc {
      case LoopTest => assert t == s.(pc := SendTest(false));
      case SendTest(second) => assert t == s.(pc := if s.buf == "" then Receiving(second) else Offering(second, s.buf));
      case Offering(second, offer) => OfferingAdvances(n, s);
      case Erasing(second, count) => assert t == s.(pc := Receiving(second), buf := Erase(s.buf, count));
      case Receiving(second) => assert t == s.(pc := AfterRecv(second));
    }
  }

  lemma {:induction false} ReachReceiving(n: nat, s: State) returns (steps: seq<Step>)
    requires n > 0 && RaceInv(s) && Live(s)
    ensures var t := Exec(n, s, steps);
            RaceInv(t) && Live(t) && SamePayload(s, t) && t.pc.Receiving? && NoSubmit(steps)
    decreases StepsToReceiving(s.pc)
  {
    if s.pc.Receiving? {
      steps := [];
    } else {
      var t := AdvanceKeeps(n, s);
      var rest := ReachReceiving(n, t);
      steps := [Advance(s.pc)] + rest;
      assert steps[1..] == rest && NoSubmit(steps);
      assert Exec(n, s, steps) == Exec(n, t, rest);
    }
  }

  lemma {:induction false} ReachOffering(n: nat, s: State) returns (steps: seq<Step>)
    requires n > 0 && RaceInv(s) && Live(s) && Unaccepted(s) != ""
    ensures var t := Exec(n, s, steps);
            RaceInv(t) && Live(t) && SamePayload(s, t) && t.pc.Offering? && NoSubmit(steps)
    decreases StepsToOffering(s.pc)
  {
    if s.pc.Offering? {
      steps := [];
    } else {
      var t := AdvanceKeeps(n, s);
      var rest := ReachOffering(n, t);
      steps := [Advance(s.pc)] + rest;
      assert steps[1..] == rest && NoSubmit(steps);
      assert Exec(n, s, steps) == Exec(n, t, rest);
    }
  }

  /** A short schedule whose last step moves a byte. */
  lemma Progress(n: nat, s: State) returns (steps: seq<Step>, last: Step)
    requires n > 0 && RaceInv(s) && Live(s) && Measure(s) > 0
    ensures NoSubmit(steps + [last])
    ensures Moved(Exec(n, s, steps), last) > 0
    ensures var t := Next(n, Exec(n, s, steps), last);
            Live(t) && (Server.AllWhole(s.server.log) ==> Server.AllWhole(t.server.log))
  {
    if s.ret != "" {
      steps := ReachReceiving(n, s);
      last := ClientRecv(Data(s.ret[..1]));
    } else if s.server.buf != "" {
      steps := if s.sending then [] else [ServerRecv(NoData)];
      assert Exec(n, s, steps) == s.(sending := true);
      last := ServerSend(Accepted(|s.server.buf|));
    } else if s.fwd != "" {
      steps := if s.sending then [ServerSend(WouldBlock)] else [];
      assert Exec(n, s, steps) == s.(sending := false);
      last := ServerRecv(Data(s.fwd[..1]));
    } else {
      steps := ReachOffering(n, s);
      last := ClientSend(Accepted(1));
    }
  }

  lemma {:induction false} MovesAppend(n: nat, s: State, a: seq<Step>, b: seq<Step>)
    requires n > 0
    ensures AllMoved(n, s, a + b) == AllMoved(n, s, a) + AllMoved(n, Exec(n, s, a), b)
    decreases |a|
  {
    if a == [] {
      assert a + b == b;
    } else {
      assert (a + b)[1..] == a[1..] + b;
      MovesAppend(n, Next(n, s, a[0]), a[1..], b);
    }
  }

  lemma MovesOne(n: nat, s: State, step: Step)
    requires n > 0
    ensures AllMoved(n, s, [step]) == Moved(s, step) && Exec(n, s, [step]) == Next(n, s, step)
  {
    assert AllMoved(n, s, [step]) == Moved(s, step) + AllMoved(n, Next(n, s, step), []);
    assert Exec(n, s, [step]) == Exec(n, Next(n, s, step), []);
  }

  /** From every live state all bytes can be brought to the callback. */
  lemma {:induction false} Drain(n: nat, s: State) returns (steps: seq<Step>)
    requires n > 0 && Inv(n, s) && Live(s) && Server.AllWhole(s.server.log)
    ensures NoSubmit(steps)
    ensures var t := Exec(n, s, steps);
            Inv(n, t) && Live(t) && Server.AllWhole(t.server.log) && Measure(t) == 0
    decreases Measure(s)
  {
    if Measure(s) == 0 {
      steps := [];
    } else {
      var before, last := Progress(n, s);
      InvAlways(n, s, before + [last]);
      ExecAppend(n, s, before, [last]);
      var t := Exec(n, s, before + [last]);
      MovesOne(n, Exec(n, s, before), last);
      MovesAppend(n, s, before, [last]);
      TransfersAreBounded(n, s, before + [last]);
      var rest := Drain(n, t);
      steps := before + [last] + rest;
      ExecAppend(n, s, before + [last], rest);
    }
  }

  /** Liveness of the benchmark: after any run of the client with whole sends on
      the server there is a continuation, without new messages, in which exactly
      the submitted messages have been handled. */
  lemma EverythingCanArrive(n: nat, steps: seq<Step>) returns (more: seq<Step>)
    requires n > 0 && Live(Exec(n, INIT, steps)) && Server.AllWhole(Exec(n, INIT, steps).server.log)
    requires forall m <- Exec(n, INIT, steps).submitted :: |m| == n
    ensures NoSubmit(more)
    ensures Exec(n, INIT, steps + more).frame == Frame("", Exec(n, INIT, steps).submitted)
  {
    InitInv(n);
    InvAlways(n, INIT, steps);
    var s := Exec(n, INIT, steps);
    more := Drain(n, s);
    ExecAppend(n, INIT, steps, more);
    SubmittedStays(n, s, more);
    NothingLeft(n, Exec(n, s, more));
  }

  // ----- Without whole sends there is no bound -----

  /** What one turn of the server and the client keeps when the server's sends
      are accepted one byte at a time. */
  predicate Stuck(s: State) { RaceInv(s) && Live(s) && |s.server.buf| >= 2 }

  lemma OneByteSent(n: nat, s: State) returns (steps: seq<Step>)
    requires n > 0 && Stuck(s)
    ensures NoSubmit(steps) && Stuck(Exec(n, s, steps)) && Exec(n, s, steps).ret != ""
  {
    var t := s.(sending := true);
    steps := if s.sending then [] else [ServerRecv(NoData)];
    assert Exec(n, s, steps) == t by {
      if !s.sending { MovesOne(n, s, ServerRecv(NoData)); }
    }
    steps := Then(n, s, steps, ServerSend(Accepted(1)), Next(n, t, ServerSend(Accepted(1))));
  }

  lemma OneByteWaits(n: nat, s: State) returns (steps: seq<Step>)
    requires n > 0 && Stuck(s)
    ensures NoSubmit(steps) && Stuck(Exec(n, s, steps))
    ensures Exec(n, s, steps).pc.Receiving? && Exec(n, s, steps).ret != ""
  {
    var send := OneByteSent(n, s);
    var reach := ReachReceiving(n, Exec(n, s, send));
    steps := send + reach;
    ExecAppend(n, s, send, reach);
  }

  /** The client takes one byte more, and the server still has all it had. */
  lemma OneByteMore(n: nat, s: State) returns (steps: seq<Step>)
    requires n > 0 && Stuck(s)
    ensures NoSubmit(steps) && Stuck(Exec(n, s, steps)) && AllMoved(n, s, steps) > 0
  {
    var wait := OneByteWaits(n, s);
    var t := Exec(n, s, wait);
    var last := ClientRecv(Data(t.ret[..1]));
    steps := Then(n, s, wait, last, Next(n, t, last));
    MovesAppend(n, s, wait, [last]);
    MovesOne(n, t, last);
    RecvStaysStuck(n, t, last);
  }

  lemma RecvStaysStuck(n: nat, s: State, step: Step)
    requires n > 0 && Stuck(s) && step.ClientRecv? && step.d.Data?
    ensures Stuck(Next(n, s, step))
  {
  }

  /** So the bound of TransfersAreBounded is lost: with two bytes in the server's
      buffer and partial sends, runs without new messages move any number of bytes. */
  lemma {:induction false} PartialSendsHaveNoBound(n: nat, s: State, bound: nat) returns (steps: seq<Step>)
    requires n > 0 && Stuck(s)
    ensures NoSubmit(steps) && Stuck(Exec(n, s, steps)) && AllMoved(n, s, steps) > bound
    decreases bound
  {
    var first := OneByteMore(n, s);
    if bound == 0 {
      steps := first;
    } else {
      var more := PartialSendsHaveNoBound(n, Exec(n, s, first), bound - 1);
      steps := first + more;
      MovesAppend(n, s, first, more);
      ExecAppend(n, s, first, more);
    }
  }

  /** Every message of two bytes or more can bring this about. */
  lemma OneMessageHasNoBound(m: string, bound: nat) returns (first: seq<Step>, more: seq<Step>)
    requires 1 < |m| <= 102_400
    ensures Exec(|m|, INIT, first).submitted == [m] && NoSubmit(more)
    ensures AllMoved(|m|, Exec(|m|, INIT, first), more) > bound
  {
    first := Corruption.ServerSendsOne(m);
    more := PartialSendsHaveNoBound(|m|, Corruption.AfterPartialSend(m), bound);
  }
}
