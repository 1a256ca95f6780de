/**
 * The whole byte-stream benchmark as one transition system: the throttled
 * producer, the client's I/O thread, two reliable FIFO byte channels and the
 * echoing server, one atomic access to shared state per step. A step that is
 * not enabled leaves the state as it is, so every sequence of steps is a run.
 */
module StreamPipeline {
  import opened Seqs
  import opened Udt
  import opened Framing
  import opened StreamClient
  import Server = StreamServer

  /** The throttle of main(): no new message while more bytes are waiting. */
  const BACKLOG: nat := 500 * 50

  /** Where the I/O thread stands in Run; `second` is the second half of a round. */
  datatype Pc =
    | LoopTest
    | SendTest(second: bool)
    | Offering(second: bool, offer: string)  // inside UDT::send
    | Erasing(second: bool, count: nat)      // accepted, not yet erased
    | Receiving(second: bool)
    | Closed

  datatype State = State(
    throttled: bool,          // main() has appended and is watching the buffer
    submitted: seq<string>,   // every message given to SendMsg
    buf: string,              // send_msg_buf_
    running: bool,
    pc: Pc,
    accepted: string,         // every byte UDT::send took from the client
    fwd: string,              // channel to the server
    server: Server.Server,
    sending: bool,            // WorkThread has left TryRecvMsg
    ret: string,              // channel back to the client
    consumed: string,         // every byte given to recv_func
    frame: Frame)

  const INIT := State(false, [], "", true, LoopTest, "", "", Server.FRESH, false, "", "", Frame("", []))

  datatype Step =
    | Submit(msg: string)
    | CheckBacklog
    | TestRunning
    | TestBuffer
    | ClientSend(r: SendResult)
    | ClientErase
    | ClientRecv(d: RecvResult)
    | ServerRecv(d: RecvResult)
    | ServerSend(r: SendResult)

  /** A recv delivers a prefix of what the channel holds, no more than fits. */
  predicate Deliverable(channel: string, d: RecvResult) {
    d.Data? ==> d.bytes <= channel && |d.bytes| <= RECV_BUFFER
  }

  function Drop(channel: string, d: RecvResult): string
    requires Deliverable(channel, d)
  {
    if d.Data? then channel[|d.bytes|..] else channel
  }

  function AfterRecv(second: bool): Pc { if second then LoopTest else SendTest(true) }

  predicate Enabled(s: State, step: Step) {
    match step
    case Submit(_) => !s.throttled
    case CheckBacklog => s.throttled && |s.buf| <= BACKLOG
    case TestRunning => s.pc.LoopTest?
    case TestBuffer => s.pc.SendTest?
    case ClientSend(r) => s.pc.Offering? && Possible(s.pc.offer, r)
    case ClientErase => s.pc.Erasing?
    case ClientRecv(d) => s.pc.Receiving? && Deliverable(s.ret, d)
    case ServerRecv(d) => !s.sending && Deliverable(s.fwd, d)
    case ServerSend(r) => s.sending && Possible(s.server.buf, r)
  }

  function Next(n: nat, s: State, step: Step): State
    requires n > 0
  {
    if !Enabled(s, step) then s
    else match step
      case Submit(msg) => s.(throttled := true, submitted := s.submitted + [msg], buf := s.buf + msg)
      case CheckBacklog => s.(throttled := false)
      case TestRunning => s.(pc := if s.running then SendTest(false) else Closed)
      case TestBuffer => s.(pc := if s.buf == "" then Receiving(s.pc.second) else Offering(s.pc.second, s.buf))
      case ClientSend(r) =>
        s.(running := RunningAfterSend(s.running, r),
           accepted := s.accepted + Taken(s.pc.offer, r),
           fwd := s.fwd + Taken(s.pc.offer, r),
           pc := if SendReturn(r) > 0 then Erasing(s.pc.second, SendReturn(r)) else Receiving(s.pc.second))
      case ClientErase => s.(buf := Erase(s.buf, s.pc.count), pc := Receiving(s.pc.second))
      case ClientRecv(d) =>
        s.(running := RunningAfterRecv(s.running, d),
           ret := Drop(s.ret, d),
           consumed := if d.Data? then s.consumed + d.bytes else s.consumed,
           frame := FrameAfterRecv(s.frame, n, d),
           pc := AfterRecv(s.pc.second))
      case ServerRecv(d) =>
        if d.Data? && d.bytes != ""
        then s.(fwd := Drop(s.fwd, d), server := Server.OnRecv(s.server, d.bytes))
        else s.(sending := true)
      case ServerSend(r) =>
        if s.server.buf == "" then s.(sending := false)
        else s.(sending := false, server := Server.OnSend(s.server, r), ret := s.ret + Taken(s.server.buf, r))
  }

  function Exec(n: nat, s: State, steps: seq<Step>): State
    requires n > 0
    decreases |steps|
  {
    if steps == [] then s else Exec(n, Next(n, s, steps[0]), steps[1..])
  }

  /** The bytes accepted by a send whose erase is still to come. */
  function Pending(s: State): nat { if s.pc.Erasing? then s.pc.count else 0 }

  /** The bytes of the client's buffer that the channel does not hold. */
  function Unaccepted(s: State): string { Erase(s.buf, Pending(s)) }

  /** Everything the pipeline holds, from the handled end to the submitted end. */
  function InTransit(s: State): string {
    Flatten(s.frame.emitted) + s.frame.residue + s.ret + s.server.buf + s.fwd + Unaccepted(s)
  }

  /** The send/erase race: the bytes to erase are in the buffer, they are the
      ones already accepted, and an offer in progress is a prefix of the buffer. */
  predicate RaceInv(s: State) {
    && Pending(s) <= |s.buf|
    && (s.pc.Offering? ==> s.pc.offer != "" && s.pc.offer <= s.buf)
  }

  ghost predicate ClientInv(s: State) {
    && RaceInv(s)
    && Flatten(s.submitted) == s.accepted + s.buf[Pending(s)..]
  }

  ghost predicate ServerInv(s: State) {
    && Server.EchoInv(s.server)
    && s.accepted == s.server.received + s.fwd
    && Server.Sent(s.server.log) == s.consumed + s.ret
  }

  ghost predicate FrameInv(n: nat, s: State)
    requires n > 0
  {
    s.frame == Frame(Residue(s.consumed, n), Blocks(s.consumed, n))
  }

  ghost predicate Inv(n: nat, s: State)
    requires n > 0
  {
    ClientInv(s) && ServerInv(s) && FrameInv(n, s)
  }

  lemma InitInv(n: nat)
    requires n > 0
    ensures Inv(n, INIT)
  {
  }

  lemma RaceInvKept(n: nat, s: State, step: Step)
    requires n > 0 && RaceInv(s)
    ensures RaceInv(Next(n, s, step))
  {
  }

  lemma SubmitKeeps(n: nat, s: State, msg: string)
    requires n > 0 && ClientInv(s)
    ensures ClientInv(Next(n, s, Submit(msg)))
  {
    FlattenSnoc(s.submitted, msg);
    assert (s.buf + msg)[Pending(s)..] == s.buf[Pending(s)..] + msg;
  }

  lemma PrefixMoves(done: string, todo: string, k: nat)
    requires k <= |todo|
    ensures done + todo[0..] == (done + todo[..k]) + todo[k..]
  {
  }

  lemma ClientSendKeeps(n: nat, s: State, r: SendResult)
    requires n > 0 && ClientInv(s)
    ensures ClientInv(Next(n, s, ClientSend(r)))
  {
    if Enabled(s, ClientSend(r)) {
      var k := SendReturn(r);
      var t := Next(n, s, ClientSend(r));
      assert t.submitted == s.submitted && t.buf == s.buf && Pending(t) == k && t.accepted == s.accepted + s.buf[..k];
      PrefixMoves(s.accepted, s.buf, k);
    }
  }

  lemma ClientEraseKeeps(n: nat, s: State)
    requires n > 0 && ClientInv(s)
    ensures ClientInv(Next(n, s, ClientErase))
  {
    if Enabled(s, ClientErase) {
      var t := Next(n, s, ClientErase);
      assert t.buf == s.buf[Pending(s)..] && Pending(t) == 0 && t.buf[0..] == t.buf;
    }
  }

  /** A step that leaves the client's bytes where they are. */
  lemma OthersKeepClient(n: nat, s: State, step: Step)
    requires n > 0 && ClientInv(s) && !step.Submit? && !step.ClientSend? && !step.ClientErase?
    ensures ClientInv(Next(n, s, step))
  {
    RaceInvKept(n, s, step);
    var t := Next(n, s, step);
    assert t.submitted == s.submitted && t.accepted == s.accepted && t.buf == s.buf && Pending(t) == Pending(s);
  }

  lemma ClientInvKept(n: nat, s: State, step: Step)
    requires n > 0 && ClientInv(s)
    ensures ClientInv(Next(n, s, step))
  {
    match step {
      case Submit(msg) => SubmitKeeps(n, s, msg);
      case ClientSend(r) => ClientSendKeeps(n, s, r);
      case ClientErase => ClientEraseKeeps(n, s);
      case _ => OthersKeepClient(n, s, step);
    }
  }

  lemma ClientRecvKeeps(n: nat, s: State, d: RecvResult)
    requires n > 0 && ServerInv(s)
    ensures ServerInv(Next(n, s, ClientRecv(d)))
  {
    if Enabled(s, ClientRecv(d)) && d.Data? {
      assert s.ret == d.bytes + Drop(s.ret, d);
      assert s.consumed + s.ret == (s.consumed + d.bytes) + Drop(s.ret, d);
    }
  }

  lemma ServerRecvKeeps(n: nat, s: State, d: RecvResult)
    requires n > 0 && ServerInv(s)
    ensures ServerInv(Next(n, s, ServerRecv(d)))
  {
    if Enabled(s, ServerRecv(d)) && d.Data? {
      Server.OnRecvKeeps(s.server, d.bytes);
      assert s.fwd == d.bytes + Drop(s.fwd, d);
      assert s.server.received + s.fwd == (s.server.received + d.bytes) + Drop(s.fwd, d);
    }
  }

  lemma ServerSendKeeps(n: nat, s: State, r: SendResult)
    requires n > 0 && ServerInv(s)
    ensures ServerInv(Next(n, s, ServerSend(r)))
  {
    if Enabled(s, ServerSend(r)) && s.server.buf != "" {
      Server.OnSendKeeps(s.server, r);
      assert s.consumed + (s.ret + Taken(s.server.buf, r)) == (s.consumed + s.ret) + Taken(s.server.buf, r);
    }
  }

  lemma ServerInvKept(n: nat, s: State, step: Step)
    requires n > 0 && ServerInv(s)
    ensures ServerInv(Next(n, s, step))
  {
    match step {
      case ClientSend(r) =>
        if Enabled(s, step) {
          var taken := Taken(s.pc.offer, r);
          assert s.server.received + (s.fwd + taken) == (s.server.received + s.fwd) + taken;
        }
      case ClientRecv(d) => ClientRecvKeeps(n, s, d);
      case ServerRecv(d) => ServerRecvKeeps(n, s, d);
      case ServerSend(r) => ServerSendKeeps(n, s, r);
      case _ =>
    }
  }

  lemma FrameInvKept(n: nat, s: State, step: Step)
    requires n > 0 && FrameInv(n, s)
    ensures FrameInv(n, Next(n, s, step))
  {
    if Enabled(s, step) && step.ClientRecv? && step.d.Data? {
      BlocksAppend(s.consumed, step.d.bytes, n);
      if step.d.bytes == "" { assert s.consumed + "" == s.consumed; }
    }
  }

  lemma {:induction false} InvAlways(n: nat, s: State, steps: seq<Step>)
    requires n > 0 && Inv(n, s)
    ensures Inv(n, Exec(n, s, steps))
    decreases |steps|
  {
    if steps == [] {
    } else {
      ClientInvKept(n, s, steps[0]);
      ServerInvKept(n, s, steps[0]);
      FrameInvKept(n, s, steps[0]);
      InvAlways(n, Next(n, s, steps[0]), steps[1..]);
    }
  }

  /** The race between append and erase is harmless: in every reachable state
      the accepted bytes followed by the buffer without its first k bytes are
      the submitted bytes, where k counts what is accepted but not yet erased. */
  lemma EraseRemovesOnlyAccepted(n: nat, steps: seq<Step>)
    requires n > 0
    ensures var s := Exec(n, INIT, steps);
            && Pending(s) <= |s.buf|
            && Flatten(s.submitted) == s.accepted + s.buf[Pending(s)..]
            && (s.pc.Erasing? ==> Next(n, s, ClientErase).buf == s.buf[Pending(s)..])
  {
    InitInv(n);
    InvAlways(n, INIT, steps);
  }

  /** What is in transit, written as the server's input and output. */
  lemma InTransitAs(n: nat, s: State)
    requires n > 0 && Inv(n, s)
    ensures InTransit(s) == Server.Sent(s.server.log) + s.server.buf + s.fwd + Unaccepted(s)
    ensures Flatten(s.submitted) == s.server.received + s.fwd + Unaccepted(s)
  {
    BlocksReassemble(s.consumed, n);
  }

  /** Conservation, end to end: the submitted bytes are exactly what the
      pipeline holds, in order, if and only if the server never had a send
      accepted in part. */
  lemma EndToEnd(n: nat, steps: seq<Step>)
    requires n > 0
    ensures var s := Exec(n, INIT, steps);
            Flatten(s.submitted) == InTransit(s) <==> Server.AllWhole(s.server.log)
  {
    InitInv(n);
    InvAlways(n, INIT, steps);
    var s := Exec(n, INIT, steps);
    InTransitAs(n, s);
    Server.LogLaw(s.server.log);
    if !Server.AllWhole(s.server.log) {
      assert |s.server.received| == |Server.Erased(s.server.log)| + |s.server.buf|;
      assert |InTransit(s)| > |Flatten(s.submitted)|;
    }
  }

  /** Exactly how many bytes too many there are otherwise. */
  lemma Surplus(n: nat, steps: seq<Step>)
    requires n > 0
    ensures var s := Exec(n, INIT, steps);
            |InTransit(s)| == |Flatten(s.submitted)| + Server.Partial(s.server.log)
  {
    InitInv(n);
    InvAlways(n, INIT, steps);
    var s := Exec(n, INIT, steps);
    InTransitAs(n, s);
    Server.LogLaw(s.server.log);
    assert |s.server.received| == |Server.Erased(s.server.log)| + |s.server.buf|;
  }

  /** What was consumed is then a prefix of what was submitted, so the handled
      messages are the first blocks of the submitted bytes. */
  lemma EmittedBlocks(n: nat, s: State)
    requires n > 0 && Inv(n, s) && Server.AllWhole(s.server.log)
    ensures s.frame.emitted <= Blocks(Flatten(s.submitted), n)
  {
    Server.LogLaw(s.server.log);
    InTransitAs(n, s);
    var rest := s.ret + s.server.buf + s.fwd + Unaccepted(s);
    assert Flatten(s.submitted) == s.consumed + rest;
    BlocksAppend(s.consumed, rest, n);
  }

  /** Messages of the expected size come back whole, in order, and none is made up. */
  lemma EmittedMessages(n: nat, steps: seq<Step>)
    requires n > 0
    requires forall m <- Exec(n, INIT, steps).submitted :: |m| == n
    requires Server.AllWhole(Exec(n, INIT, steps).server.log)
    ensures Exec(n, INIT, steps).frame.emitted <= Exec(n, INIT, steps).submitted
  {
    InitInv(n);
    InvAlways(n, INIT, steps);
    EmittedBlocks(n, Exec(n, INIT, steps));
    BlocksOfMessages(Exec(n, INIT, steps).submitted, n);
  }

  lemma {:induction false} ExecAppend(n: nat, s: State, a: seq<Step>, b: seq<Step>)
    requires n > 0
    ensures Exec(n, s, a + b) == Exec(n, Exec(n, s, a), b)
    decreases |a|
  {
    if a == [] {
      assert a + b == b;
    } else {
      assert (a + b)[1..] == a[1..] + b;
      ExecAppend(n, Next(n, s, a[0]), a[1..], b);
    }
  }

  /** One step more. */
  lemma Then(n: nat, from: State, steps: seq<Step>, step: Step, to: State) returns (longer: seq<Step>)
    requires n > 0 && Next(n, Exec(n, from, steps), step) == to
    ensures Exec(n, from, longer) == to && longer == steps + [step]
  {
    longer := steps + [step];
    ExecAppend(n, from, steps, [step]);
    assert Exec(n, Exec(n, from, steps), [step]) == Next(n, Exec(n, from, steps), step);
  }

  /** The producer's bound: it appends only after it has seen a short buffer. */
  ghost predicate BacklogInv(limit: nat, s: State) {
    |s.buf| <= BACKLOG + (if s.throttled then limit else 0)
  }

  lemma {:induction false} BacklogAlways(n: nat, limit: nat, s: State, steps: seq<Step>)
    requires n > 0 && BacklogInv(limit, s)
    requires forall step <- steps :: step.Submit? ==> |step.msg| <= limit
    ensures BacklogInv(limit, Exec(n, s, steps))
    decreases |steps|
  {
    if steps == [] {
    } else {
      assert steps[0] in steps && forall step <- steps[1..] :: step in steps;
      BacklogAlways(n, limit, Next(n, s, steps[0]), steps[1..]);
    }
  }

  /** At most 25000 bytes and one message wait in the client, under every schedule. */
  lemma BacklogBound(n: nat, limit: nat, steps: seq<Step>)
    requires n > 0
    requires forall step <- steps :: step.Submit? ==> |step.msg| <= limit
    ensures |Exec(n, INIT, steps).buf| <= 25000 + limit
  {
    BacklogAlways(n, limit, INIT, steps);
  }

  predicate OnlySubmits(msg: string, steps: seq<Step>) { forall step <- steps :: step.Submit? ==> step.msg == msg }

  /** The producer alone fills the buffer up to the throttle. */
  lemma {:induction false} FillBuffer(n: nat, s: State, msg: string) returns (steps: seq<Step>)
    requires n > 0 && msg != "" && s.throttled
    ensures OnlySubmits(msg, steps)
    ensures var t := Exec(n, s, steps);
            t.throttled && |t.buf| >= BACKLOG && t.pc == s.pc && t.running == s.running
    decreases BACKLOG - |s.buf|
  {
    if |s.buf| >= BACKLOG {
      steps := [];
    } else {
      var t := Next(n, Next(n, s, CheckBacklog), Submit(msg));
      var more := FillBuffer(n, t, msg);
      steps := [CheckBacklog, Submit(msg)] + more;
      assert steps[1..] == [Submit(msg)] + more && steps[1..][1..] == more;
      assert Exec(n, Next(n, s, CheckBacklog), steps[1..]) == Exec(n, t, more);
    }
  }

  /** Then the channel takes what is above the throttle. */
  lemma SendDownTo(n: nat, s: State, k: nat) returns (steps: seq<Step>)
    requires n > 0 && s.pc == LoopTest && s.running && 0 < k <= |s.buf|
    ensures forall step <- steps :: !step.Submit?
    ensures Exec(n, s, steps).buf == s.buf[k..] && Exec(n, s, steps).throttled == s.throttled
  {
    var s1 := s.(pc := Offering(false, s.buf));
    assert Exec(n, s, []) == s;
    steps := Then(n, s, [], TestRunning, s.(pc := SendTest(false)));
    steps := Then(n, s, steps, TestBuffer, s1);
    var s2 := Next(n, s1, ClientSend(Accepted(k)));
    steps := Then(n, s, steps, ClientSend(Accepted(k)), s2);
    steps := Then(n, s, steps, ClientErase, Next(n, s2, ClientErase));
  }

  /** The bound is met, whatever the message: a buffer of exactly 25000 bytes
      still lets the producer go on. */
  lemma BacklogIsTight(n: nat, msg: string) returns (steps: seq<Step>)
    requires n > 0 && msg != ""
    ensures OnlySubmits(msg, steps) && |Exec(n, INIT, steps).buf| == 25000 + |msg|
  {
    var s1 := INIT.(throttled := true, submitted := [msg], buf := msg);
    assert [] + [msg] == [msg] && "" + msg == msg;
    var first := Then(n, INIT, [], Submit(msg), s1);
    var fill := FillBuffer(n, s1, msg);
    var s2 := Exec(n, s1, fill);
    var send := [];
    if |s2.buf| > BACKLOG { send := SendDownTo(n, s2, |s2.buf| - BACKLOG); }
    var s3 := Exec(n, s2, send);
    ExecAppend(n, INIT, first, fill);
    ExecAppend(n, INIT, first + fill, send);
    var last := [CheckBacklog, Submit(msg)];
    ExecAppend(n, INIT, first + fill + send, last);
    steps := first + fill + send + last;
    TwoSteps(n, s3, CheckBacklog, Submit(msg));
  }

  lemma TwoSteps(n: nat, s: State, a: Step, b: Step)
    requires n > 0
    ensures Exec(n, s, [a, b]) == Next(n, Next(n, s, a), b)
  {
    assert [a, b][1..] == [b] && Exec(n, Next(n, s, a), [b]) == Exec(n, Next(n, Next(n, s, a), b), []);
  }
}
