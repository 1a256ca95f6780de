/**
 * The whole datagram benchmark as one transition system: the throttled
 * producer, the locked queue, the client's private buffer, two reliable FIFO
 * message channels and the echoing server. A step that is not enabled leaves
 * the state as it is, so every sequence of steps is a run.
 */
module DgramPipeline {
  import opened Udt
  import opened DgramSend
  import Server = DgramServer

  /** Where the I/O thread stands in Run. */
  datatype Pc = LoopTest | GrabTest | SendLoop | RecvLoop | Closed

  datatype State = State(
    throttled: bool,         // main() has pushed and is watching the queue
    submitted: seq<string>,  // every message given to SendMsg
    queue: seq<string>,      // send_msg_queue_
    buff: seq<string>,       // send_msg_buff_
    running: bool,
    pc: Pc,
    fwd: seq<string>,        // channel to the server
    echo: seq<string>,       // msg_queue_need_send
    sending: bool,           // WorkThread has left TryRecvMsg
    ret: seq<string>,        // channel back to the client
    delivered: seq<string>,  // every message given to the callback
    truncated: nat)          // sends accepted in part, on either side

  const INIT := State(false, [], [], [], true, LoopTest, [], [], false, [], [], 0)

  datatype Step =
    | Submit(msg: string)
    | CheckQueue
    | TestRunning
    | Grab
    | ClientSend(r: SendResult)
    | ClientRecv(d: RecvResult)
    | ServerRecv(d: RecvResult)
    | ServerSend(r: SendResult)

  /** recvmsg delivers what fits of the oldest message. */
  predicate Deliverable(channel: seq<string>, d: RecvResult) {
    d.Data? ==> channel != [] && d.bytes == Clip(channel[0])
  }

  predicate Enabled(s: State, step: Step) {
    match step
    case Submit(_) => !s.throttled
    case CheckQueue => s.throttled && |s.queue| <= 2
    case TestRunning => s.pc.LoopTest?
    case Grab => s.pc.GrabTest?
    case ClientSend(r) => s.pc.SendLoop? && (s.buff != [] ==> Possible(s.buff[0], r))
    case ClientRecv(d) => s.pc.RecvLoop? && Deliverable(s.ret, d)
    case ServerRecv(d) => !s.sending && Deliverable(s.fwd, d)
    case ServerSend(r) => s.sending && (s.echo != [] ==> Possible(s.echo[0], r))
  }

  /** 1 if the channel took a proper, non-empty part of the message. */
  function Truncates(msg: string, r: SendResult): nat {
    if r.Accepted? && 0 < r.count < |msg| then 1 else 0
  }

  function Arrived(d: RecvResult): seq<string> {
    if d.Data? && d.bytes != "" then [d.bytes] else []
  }

  function Drop(channel: seq<string>, d: RecvResult): seq<string>
    requires Deliverable(channel, d)
  {
    if d.Data? then channel[1..] else channel
  }

  function Next(s: State, step: Step): State {
    if !Enabled(s, step) then s
    else match step
      case Submit(msg) => s.(throttled := true, submitted := s.submitted + [msg], queue := s.queue + [msg])
      case CheckQueue => s.(throttled := false)
      case TestRunning => s.(pc := if s.running then GrabTest else Closed)
      case Grab =>
        if s.buff == [] then s.(buff := s.queue, queue := [], pc := SendLoop)  // the buffer is overwritten
        else s.(pc := SendLoop)
      case ClientSend(r) =>
        if s.buff == [] then s.(pc := RecvLoop)
        else
          var code := SendCode(s.buff[0], r);
          s.(buff := if code == 1 then s.buff[1..] else s.buff,
             running := s.running && code != -1,
             pc := if code == 1 then SendLoop else RecvLoop,
             fwd := s.fwd + TakenMsgs(s.buff[0], r),
             truncated := s.truncated + Truncates(s.buff[0], r))
      case ClientRecv(d) =>
        s.(ret := Drop(s.ret, d),
           delivered := s.delivered + Arrived(d),
           running := s.running && !(d.RecvError? && d.fatal),
           pc := if d.Data? then RecvLoop else LoopTest)
      case ServerRecv(d) =>
        s.(fwd := Drop(s.fwd, d), echo := s.echo + Arrived(d), sending := !Server.GoesOn(d))
      case ServerSend(r) =>
        if s.echo == [] then s.(sending := false)
        else
          var code := SendCode(s.echo[0], r);
          s.(echo := if code == 1 then s.echo[1..] else s.echo,
             sending := code == 1,
             ret := s.ret + TakenMsgs(s.echo[0], r),
             truncated := s.truncated + Truncates(s.echo[0], r))
  }

  function Exec(s: State, steps: seq<Step>): State
    decreases |steps|
  {
    if steps == [] then s else Exec(Next(s, steps[0]), steps[1..])
  }

  /** The messages still to be delivered, oldest first. */
  function InTransit(s: State): seq<string> {
    Arriving(s.ret) + Arriving(s.echo) + Arriving(s.fwd) + Arriving(s.buff) + Arriving(s.queue)
  }

  /** What a step adds to the messages in transit. */
  function Entering(s: State, step: Step): seq<string> {
    if Enabled(s, step) && step.Submit? then Arriving([step.msg]) else []
  }

  /** What a step delivers. */
  function Leaving(s: State, step: Step): seq<string> {
    if Enabled(s, step) && step.ClientRecv? then Arrived(step.d) else []
  }

  /** A step moves messages through the pipeline in order, unless it is a send
      that the channel accepts in part; then it adds one message. */
  predicate Moves(s: State, step: Step) {
    var t := Next(s, step);
    && t.delivered == s.delivered + Leaving(s, step)
    && |Leaving(s, step) + InTransit(t)| == |InTransit(s) + Entering(s, step)| + (t.truncated - s.truncated)
    && (t.truncated == s.truncated ==> Leaving(s, step) + InTransit(t) == InTransit(s) + Entering(s, step))
  }

  lemma Snoc<T>(a: seq<T>, b: seq<T>, c: seq<T>, d: seq<T>, e: seq<T>, x: seq<T>)
    ensures [] + (a + b + c + d + (e + x)) == (a + b + c + d + e) + x
  {
  }

  lemma SubmitMoves(s: State, msg: string)
    ensures Moves(s, Submit(msg))
  {
    var t := Next(s, Submit(msg));
    Snoc(Arriving(s.ret), Arriving(s.echo), Arriving(s.fwd), Arriving(s.buff), Arriving(s.queue),
         Entering(s, Submit(msg)));
    assert Arriving(t.queue) == Arriving(s.queue) + Entering(s, Submit(msg)) by {
      if Enabled(s, Submit(msg)) { ArrivingAppend(s.queue, [msg]); }
    }
    assert t.ret == s.ret && t.echo == s.echo && t.fwd == s.fwd && t.buff == s.buff && t.delivered == s.delivered;
  }

  /** A step by which the same messages stay in transit. */
  lemma KeepsInTransit(s: State, step: Step)
    requires InTransit(Next(s, step)) == InTransit(s)
    requires Leaving(s, step) == [] == Entering(s, step)
    requires Next(s, step).delivered == s.delivered && Next(s, step).truncated == s.truncated
    ensures Moves(s, step)
  {
  }

  lemma GrabMoves(s: State)
    ensures Moves(s, Grab)
  {
    var t := Next(s, Grab);
    var before := Arriving(s.ret) + Arriving(s.echo) + Arriving(s.fwd);
    assert InTransit(t) == InTransit(s) by {
      if Enabled(s, Grab) && s.buff == [] {
        assert Arriving(t.queue) == [] == Arriving(s.buff);
        assert before + Arriving(s.queue) + [] == before + [] + Arriving(s.queue);
      }
    }
    KeepsInTransit(s, Grab);
  }

  /** Moving a message from the head of one queue to the tail of the next. */
  lemma SendShifts(from: seq<string>, to: seq<string>, r: SendResult)
    requires from != [] && Possible(from[0], r)
    ensures var code := SendCode(from[0], r);
            var from', to' := if code == 1 then from[1..] else from, to + TakenMsgs(from[0], r);
            && |Arriving(to') + Arriving(from')| == |Arriving(to) + Arriving(from)| + Truncates(from[0], r)
            && (Truncates(from[0], r) == 0 ==> Arriving(to') + Arriving(from') == Arriving(to) + Arriving(from))
  {
    var msg := from[0];
    if SendCode(msg, r) == 1 {
      TakenWhole(msg, r);
      ArrivingHead(from);
      ArrivingSnoc(to, msg);
    } else if TakenMsgs(msg, r) != [] {
      ArrivingSnoc(to, msg[..r.count]);
    } else {
      assert to + [] == to;
    }
  }

  lemma Regroup<T>(a: seq<T>, b: seq<T>, c: seq<T>, d: seq<T>, e: seq<T>)
    ensures a + b + c + d + e == a + b + (c + d) + e
    ensures a + b + c + d + e == a + (b + c) + d + e
    ensures a + b + c + d + e == a + (b + c + d + e)
    ensures a + b + c + d + e == [] + (a + b) + (c + d + e)
    ensures [] + (a + b + c + d + e) == a + b + c + d + e == (a + b + c + d + e) + []
  {
  }

  /** InTransit with some neighbouring stages read together. */
  lemma InTransitGroups(s: State)
    ensures var a, b, c := Arriving(s.ret), Arriving(s.echo), Arriving(s.fwd);
            var d, e := Arriving(s.buff), Arriving(s.queue);
            && InTransit(s) == a + b + (c + d) + e
            && InTransit(s) == a + (b + c) + d + e
            && InTransit(s) == a + (b + c + d + e)
            && InTransit(s) == [] + (a + b) + (c + d + e)
            && InTransit(s) == [] + InTransit(s) == InTransit(s) + []
  {
    Regroup(Arriving(s.ret), Arriving(s.echo), Arriving(s.fwd), Arriving(s.buff), Arriving(s.queue));
  }

  /** A step that replaces two neighbouring stages, x, by stages y with k
      messages more. */
  lemma Replaces(s: State, step: Step, a: seq<string>, x: seq<string>, y: seq<string>, b: seq<string>, k: nat)
    requires InTransit(s) == a + x + b && InTransit(Next(s, step)) == a + y + b
    requires |y| == |x| + k && (k == 0 ==> y == x)
    requires Leaving(s, step) == [] == Entering(s, step)
    requires Next(s, step).delivered == s.delivered && Next(s, step).truncated == s.truncated + k
    ensures Moves(s, step)
  {
  }

  lemma ClientSendMoves(s: State, r: SendResult)
    ensures Moves(s, ClientSend(r))
  {
    if Enabled(s, ClientSend(r)) && s.buff != [] {
      var t := Next(s, ClientSend(r));
      SendShifts(s.buff, s.fwd, r);
      InTransitGroups(s);
      InTransitGroups(t);
      Replaces(s, ClientSend(r), Arriving(s.ret) + Arriving(s.echo), Arriving(s.fwd) + Arriving(s.buff),
               Arriving(t.fwd) + Arriving(t.buff), Arriving(s.queue), Truncates(s.buff[0], r));
    } else {
      KeepsInTransit(s, ClientSend(r));
    }
  }

  lemma ServerSendMoves(s: State, r: SendResult)
    ensures Moves(s, ServerSend(r))
  {
    if Enabled(s, ServerSend(r)) && s.echo != [] {
      var t := Next(s, ServerSend(r));
      SendShifts(s.echo, s.ret, r);
      InTransitGroups(s);
      InTransitGroups(t);
      Replaces(s, ServerSend(r), [], Arriving(s.ret) + Arriving(s.echo), Arriving(t.ret) + Arriving(t.echo),
               Arriving(s.fwd) + Arriving(s.buff) + Arriving(s.queue), Truncates(s.echo[0], r));
    } else {
      KeepsInTransit(s, ServerSend(r));
    }
  }

  lemma TakesHead(channel: seq<string>, d: RecvResult, rest: seq<string>)
    requires Deliverable(channel, d)
    ensures Arrived(d) + (Arriving(Drop(channel, d)) + rest) == Arriving(channel) + rest
  {
    if d.Data? {
      ArrivingHead(channel);
      assert Arriving(channel) == Arrived(d) + Arriving(channel[1..]);
    }
  }

  lemma ClientRecvMoves(s: State, d: RecvResult)
    ensures Moves(s, ClientRecv(d))
  {
    var t := Next(s, ClientRecv(d));
    InTransitGroups(s);
    InTransitGroups(t);
    if Enabled(s, ClientRecv(d)) {
      TakesHead(s.ret, d, Arriving(s.echo) + Arriving(s.fwd) + Arriving(s.buff) + Arriving(s.queue));
      assert t.ret == Drop(s.ret, d) && t.echo == s.echo && t.fwd == s.fwd && t.buff == s.buff && t.queue == s.queue;
    }
  }

  lemma ServerRecvMoves(s: State, d: RecvResult)
    ensures Moves(s, ServerRecv(d))
  {
    var t := Next(s, ServerRecv(d));
    assert InTransit(t) == InTransit(s) by {
      InTransitGroups(s);
      InTransitGroups(t);
      if Enabled(s, ServerRecv(d)) {
        RecvShifts(s.fwd, s.echo, d);
        assert Arriving(t.echo) + Arriving(t.fwd) == Arriving(s.echo) + Arriving(s.fwd);
      }
    }
    KeepsInTransit(s, ServerRecv(d));
  }

  /** A received message arrives unchanged at the next receiver. */
  lemma ArrivesAgain(d: RecvResult)
    requires d.Data? ==> |d.bytes| <= 102_400
    ensures Arriving(Arrived(d)) == Arrived(d)
  {
    if Arrived(d) != [] { ArrivingOne(d.bytes); }
  }

  lemma Assoc<T>(a: seq<T>, b: seq<T>, c: seq<T>, e: seq<T>)
    requires b + (c + []) == e + []
    ensures (a + b) + c == a + e
  {
    assert (a + b) + c == a + (b + c) && c + [] == c && e + [] == e;
  }

  lemma RecvShifts(from: seq<string>, to: seq<string>, d: RecvResult)
    requires Deliverable(from, d)
    ensures Arriving(to + Arrived(d)) + Arriving(Drop(from, d)) == Arriving(to) + Arriving(from)
  {
    TakesHead(from, d, []);
    ArrivingAppend(to, Arrived(d));
    ArrivesAgain(d);
    Assoc(Arriving(to), Arrived(d), Arriving(Drop(from, d)), Arriving(from));
  }

  lemma EveryStepMoves(s: State, step: Step)
    ensures Moves(s, step)
  {
    match step {
      case Submit(msg) => SubmitMoves(s, msg);
      case CheckQueue => KeepsInTransit(s, step);
      case TestRunning => KeepsInTransit(s, step);
      case Grab => GrabMoves(s);
      case ClientSend(r) => ClientSendMoves(s, r);
      case ClientRecv(d) => ClientRecvMoves(s, d);
      case ServerRecv(d) => ServerRecvMoves(s, d);
      case ServerSend(r) => ServerSendMoves(s, r);
    }
  }

  /** Conservation: what was submitted, as it arrives, is what was delivered and
      what is in transit; the surplus is the number of truncated copies. */
  ghost predicate Conserved(s: State) {
    && |s.delivered + InTransit(s)| == |Arriving(s.submitted)| + s.truncated
    && (s.truncated == 0 ==> s.delivered + InTransit(s) == Arriving(s.submitted))
  }

  lemma SubmittedGrows(s: State, step: Step)
    ensures Arriving(Next(s, step).submitted) == Arriving(s.submitted) + Entering(s, step)
    ensures Next(s, step).truncated >= s.truncated
  {
    if Enabled(s, step) && step.Submit? { ArrivingAppend(s.submitted, [step.msg]); }
  }

  lemma {:induction false} TruncatedGrows(s: State, steps: seq<Step>)
    ensures s.truncated <= Exec(s, steps).truncated
    decreases |steps|
  {
    if steps == [] {
    } else {
      TruncatedGrows(Next(s, steps[0]), steps[1..]);
      SubmittedGrows(s, steps[0]);
    }
  }

  /** The bookkeeping of one step: d delivered, t in transit, l leaving, e
      entering, a submitted, k truncated. */
  lemma Bookkeeping<T>(d: seq<T>, t: seq<T>, l: seq<T>, t': seq<T>, e: seq<T>, a: seq<T>, k: nat, k': nat)
    requires |d + t| == |a| + k && (k == 0 ==> d + t == a) && k <= k'
    requires |l + t'| == |t + e| + (k' - k) && (k' == k ==> l + t' == t + e)
    ensures |(d + l) + t'| == |a + e| + k' && (k' == 0 ==> (d + l) + t' == a + e)
  {
    assert (d + l) + t' == d + (l + t') && d + (t + e) == (d + t) + e;
  }

  lemma ConservedKept(s: State, step: Step)
    requires Conserved(s)
    ensures Conserved(Next(s, step))
  {
    EveryStepMoves(s, step);
    SubmittedGrows(s, step);
    var t := Next(s, step);
    Bookkeeping(s.delivered, InTransit(s), Leaving(s, step), InTransit(t), Entering(s, step), Arriving(s.submitted),
                s.truncated, t.truncated);
  }

  lemma {:induction false} ConservedAlways(s: State, steps: seq<Step>)
    requires Conserved(s)
    ensures Conserved(Exec(s, steps))
    decreases |steps|
  {
    if steps == [] {
    } else {
      ConservedKept(s, steps[0]);
      ConservedAlways(Next(s, steps[0]), steps[1..]);
    }
  }

  /** End to end, under every schedule and through every exit of the client: the
      delivered messages followed by those in transit are the submitted ones as
      they arrive, if and only if no send was accepted in part. */
  lemma EndToEnd(steps: seq<Step>)
    ensures var s := Exec(INIT, steps);
            s.delivered + InTransit(s) == Arriving(s.submitted) <==> s.truncated == 0
  {
    ConservedAlways(INIT, steps);
  }

  /** Surplus messages are exactly the truncated copies. */
  lemma Surplus(steps: seq<Step>)
    ensures var s := Exec(INIT, steps);
            |s.delivered| + |InTransit(s)| == |Arriving(s.submitted)| + s.truncated
  {
    ConservedAlways(INIT, steps);
  }

  /** For non-empty messages that fit the receive buffer, the delivered ones are
      the submitted ones, in order, and all the others are still under way. */
  lemma DeliversSubmitted(steps: seq<Step>)
    requires var s := Exec(INIT, steps);
             s.truncated == 0 && forall m <- s.submitted :: 0 < |m| <= 102_400
    ensures var s := Exec(INIT, steps);
            s.submitted == s.delivered + InTransit(s)
  {
    ConservedAlways(INIT, steps);
    ArrivingUnchanged(Exec(INIT, steps).submitted);
  }

  /** Once everything has left the pipeline, delivered is submitted exactly when
      no message was empty or too long. */
  lemma DeliveredIsSubmittedIff(steps: seq<Step>)
    requires var s := Exec(INIT, steps); s.truncated == 0 && InTransit(s) == []
    ensures var s := Exec(INIT, steps);
            s.delivered == s.submitted <==> forall m <- s.submitted :: 0 < |m| <= 102_400
  {
    ConservedAlways(INIT, steps);
    ArrivingUnchanged(Exec(INIT, steps).submitted);
  }

  /** The producer pushes only after it has seen at most two queued messages, and
      the buffer is filled only by grabbing the queue when it is empty. */
  ghost predicate BacklogInv(s: State) {
    && |s.queue| <= (if s.throttled then 3 else 2)
    && |s.buff| <= 3
  }

  lemma {:induction false} BacklogAlways(s: State, steps: seq<Step>)
    requires BacklogInv(s)
    ensures BacklogInv(Exec(s, steps))
    decreases |steps|
  {
    if steps == [] {
    } else {
      BacklogAlways(Next(s, steps[0]), steps[1..]);
    }
  }

  /** Under every schedule at most six messages wait in the client. */
  lemma BacklogBound(steps: seq<Step>)
    ensures var s := Exec(INIT, steps);
            |s.queue| <= 3 && |s.buff| <= 3 && |s.queue| + |s.buff| <= 6
  {
    BacklogAlways(INIT, steps);
  }

  lemma {:induction false} ExecAppend(s: State, a: seq<Step>, b: seq<Step>)
    ensures Exec(s, a + b) == Exec(Exec(s, a), b)
    decreases |a|
  {
    if a == [] {
      assert a + b == b;
    } else {
      assert (a + b)[1..] == a[1..] + b;
      ExecAppend(Next(s, a[0]), a[1..], b);
    }
  }

  /** The producer can fill the queue while the I/O thread does nothing. */
  lemma {:induction false} FillQueue(s: State, k: nat) returns (steps: seq<Step>)
    requires |s.queue| + k <= 3
    ensures var t := Exec(s, steps);
            |t.queue| == |s.queue| + k && t.buff == s.buff && t.pc == s.pc && t.running == s.running
    decreases k
  {
    if k == 0 {
      steps := [];
    } else {
      var t := Next(Next(s, CheckQueue), Submit("m"));
      var more := FillQueue(t, k - 1);
      steps := [CheckQueue, Submit("m")] + more;
      assert steps[1..] == [Submit("m")] + more && steps[1..][1..] == more;
      assert Exec(Next(s, CheckQueue), steps[1..]) == Exec(t, more);
    }
  }

  /** Six is reached: the throttle does not see the private buffer. */
  lemma BacklogIsTight() returns (steps: seq<Step>)
    ensures |Exec(INIT, steps).queue| == 3 && |Exec(INIT, steps).buff| == 3
  {
    var first := FillQueue(INIT, 3);
    var s := Exec(INIT, first);
    var grab := [TestRunning, Grab];
    var t := Next(Next(s, TestRunning), Grab);
    assert grab[1..] == [Grab] && Exec(Next(s, TestRunning), [Grab]) == Exec(t, []);
    var second := FillQueue(t, 3);
    steps := first + grab + second;
    ExecAppend(INIT, first, grab);
    ExecAppend(INIT, first + grab, second);
  }
}
