/** The loops and rounds of the byte-stream programs are runs of the transition
    system: for every script of channel results, what a method computes is the
    state that its steps reach with nothing in between. */
module StreamRounds {
  import opened Udt
  import opened StreamClient
  import opened StreamPipeline
  import Server = StreamServer

  lemma ExecOne(n: nat, s: State, step: Step)
    requires n > 0
    ensures Exec(n, s, [step]) == Next(n, s, step)
  {
    assert Exec(n, s, [step]) == Exec(n, Next(n, s, step), []);
  }

  lemma ExecCons(n: nat, s: State, step: Step, more: seq<Step>)
    requires n > 0
    ensures Exec(n, s, [step] + more) == Exec(n, Next(n, s, step), more)
  {
    assert ([step] + more)[1..] == more;
  }

  /** TrySendMsg of the client is up to three steps of its thread. */
  lemma ClientTrySend(n: nat, s: State, script: seq<SendResult>) returns (steps: seq<Step>)
    requires n > 0 && s.pc.SendTest?
    ensures var o := TrySend(Outgoing(s.buf, s.running, script, s.fwd));
            && s.fwd <= o.wire
            && Exec(n, s, steps) == s.(pc := Receiving(s.pc.second), buf := o.buf, running := o.running,
                                       fwd := o.wire, accepted := s.accepted + o.wire[|s.fwd|..])
  {
    if s.buf == "" {
      steps := [TestBuffer];
      ExecOne(n, s, TestBuffer);
      assert s.accepted + "" == s.accepted && s.fwd[|s.fwd|..] == "";
    } else {
      var r := NextSend(script, s.buf).0;
      var offered := s.(pc := Offering(s.pc.second, s.buf));
      var sent := Next(n, offered, ClientSend(r));
      ExecOne(n, s, TestBuffer);
      steps := Then(n, s, [TestBuffer], ClientSend(r), sent);
      assert (s.fwd + Taken(s.buf, r))[|s.fwd|..] == Taken(s.buf, r);
      if sent.pc.Erasing? {
        steps := Then(n, s, steps, ClientErase, Next(n, sent, ClientErase));
      }
    }
  }

  function Given(r: RecvResult): string { if r.Data? then r.bytes else "" }

  /** One call to DoRecvMsg of the client. */
  function ClientReceived(n: nat, s: State, r: RecvResult): State
    requires n > 0 && s.pc.Receiving? && Deliverable(s.ret, r)
  {
    s.(pc := AfterRecv(s.pc.second), running := RunningAfterRecv(s.running, r), ret := s.ret[|Given(r)|..],
       consumed := s.consumed + Given(r), frame := FrameAfterRecv(s.frame, n, r))
  }

  lemma ClientRecvIsStep(n: nat, s: State, r: RecvResult)
    requires n > 0 && s.pc.Receiving? && Deliverable(s.ret, r)
    ensures Next(n, s, ClientRecv(r)) == ClientReceived(n, s, r)
  {
    assert s.consumed + "" == s.consumed && s.ret[0..] == s.ret;
  }

  /** Half a round of the client's loop in Run: send, receive. */
  lemma ClientHalf(n: nat, s: State, sends: seq<SendResult>, r: RecvResult) returns (steps: seq<Step>)
    requires n > 0 && s.pc.SendTest? && Deliverable(s.ret, r)
    ensures var o := TrySend(Outgoing(s.buf, s.running, sends, s.fwd));
            && s.fwd <= o.wire
            && Exec(n, s, steps) == s.(pc := AfterRecv(s.pc.second), buf := o.buf,
                                       running := RunningAfterRecv(o.running, r),
                                       fwd := o.wire, accepted := s.accepted + o.wire[|s.fwd|..],
                                       ret := s.ret[|Given(r)|..], consumed := s.consumed + Given(r),
                                       frame := FrameAfterRecv(s.frame, n, r))
  {
    var send := ClientTrySend(n, s, sends);
    var t := Exec(n, s, send);
    ClientRecvIsStep(n, t, r);
    steps := Then(n, s, send, ClientRecv(r), ClientReceived(n, t, r));
  }

  /** A round of the client's loop in Run: RunOnce, with the results that its
      contract gives. */
  lemma ClientRound(n: nat, s: State, sends: seq<SendResult>, recvs: seq<RecvResult>) returns (steps: seq<Step>)
    requires n > 0 && s.pc.LoopTest? && s.running
    requires var (r1, rest1) := NextRecv(recvs);
             Deliverable(s.ret, r1) && Deliverable(s.ret[|Given(r1)|..], NextRecv(rest1).0)
    ensures var (r1, rest1) := NextRecv(recvs);
            var r2 := NextRecv(rest1).0;
            var o1 := TrySend(Outgoing(s.buf, s.running, sends, s.fwd));
            var o2 := TrySend(o1.(running := RunningAfterRecv(o1.running, r1)));
            && s.fwd <= o1.wire <= o2.wire
            && Exec(n, s, steps) == s.(buf := o2.buf, running := RunningAfterRecv(o2.running, r2),
                                       fwd := o2.wire, accepted := s.accepted + o2.wire[|s.fwd|..],
                                       ret := s.ret[|Given(r1)|..][|Given(r2)|..],
                                       consumed := s.consumed + Given(r1) + Given(r2),
                                       frame := FrameAfterRecv(FrameAfterRecv(s.frame, n, r1), n, r2))
  {
    var (r1, rest1) := NextRecv(recvs);
    var r2 := NextRecv(rest1).0;
    var s1 := s.(pc := SendTest(false));
    var o1 := TrySend(Outgoing(s.buf, s.running, sends, s.fwd));
    var first := ClientHalf(n, s1, sends, r1);
    var t := Exec(n, s1, first);
    var o2 := TrySend(o1.(running := RunningAfterRecv(o1.running, r1)));
    var second := ClientHalf(n, t, o1.script, r2);
    steps := [TestRunning] + (first + second);
    ExecCons(n, s, TestRunning, first + second);
    ExecAppend(n, s1, first, second);
    AcceptedTwice(s.accepted, s.fwd, o1.wire, o2.wire);
  }

  lemma AcceptedTwice(accepted: string, w0: string, w1: string, w2: string)
    requires w0 <= w1 <= w2
    ensures (accepted + w1[|w0|..]) + w2[|w1|..] == accepted + w2[|w0|..]
  {
    assert w1[|w0|..] + w2[|w1|..] == w2[|w0|..];
  }

  /** The loop of the server's TryRecvMsg, with any script that the channel can follow. */
  lemma {:induction false} ServerRecvLoop(n: nat, s: State, recvs: seq<RecvResult>) returns (steps: seq<Step>)
    requires n > 0 && !s.sending && Server.Inbound(recvs) <= s.fwd
    ensures forall step <- steps :: step.ServerRecv?
    ensures Exec(n, s, steps) == ServerReceived(s, Server.Inbound(recvs)).(sending := true)
    decreases Server.ScriptSize(recvs)
  {
    var (r, rest) := NextRecv(recvs);
    Server.NextRecvInbound(recvs);
    if r.Data? && r.bytes != "" {
      var inbound := Server.Inbound(rest);
      ServerTakes(n, s, r.bytes, inbound);
      var more := ServerRecvLoop(n, ServerReceived(s, r.bytes), rest);
      steps := [ServerRecv(r)] + more;
      ExecCons(n, s, ServerRecv(r), more);
      ReceivedTwice(s, r.bytes, inbound);
    } else {
      steps := [ServerRecv(r)];
      ExecOne(n, s, ServerRecv(r));
      ReceivedNothing(s);
    }
  }

  function ServerReceived(s: State, bytes: string): State
    requires bytes <= s.fwd
  {
    s.(fwd := s.fwd[|bytes|..], server := Server.OnRecv(s.server, bytes))
  }

  lemma ServerTakes(n: nat, s: State, a: string, b: string)
    requires n > 0 && !s.sending && a + b <= s.fwd && 0 < |a| <= 102_400
    ensures a <= s.fwd && b <= s.fwd[|a|..]
    ensures Next(n, s, ServerRecv(Data(a))) == ServerReceived(s, a)
  {
    assert a <= a + b && (a + b)[|a|..] == b;
  }

  lemma ReceivedTwice(s: State, a: string, b: string)
    requires a + b <= s.fwd && a <= s.fwd && b <= s.fwd[|a|..]
    ensures ServerReceived(ServerReceived(s, a), b) == ServerReceived(s, a + b)
  {
    Server.OnRecvTwice(s.server, a, b);
    assert s.fwd[|a|..][|b|..] == s.fwd[|a + b|..];
  }

  lemma ReceivedNothing(s: State)
    ensures ServerReceived(s, "") == s
  {
    Server.OnRecvTwice(s.server, "", "");
    assert s.fwd[0..] == s.fwd;
  }

  /** A round of the server's worker: WorkOnce. */
  lemma ServerRound(n: nat, s: State, sends: seq<SendResult>, recvs: seq<RecvResult>) returns (steps: seq<Step>)
    requires n > 0 && !s.sending && Server.Inbound(recvs) <= s.fwd
    ensures var got := Server.OnRecv(s.server, Server.Inbound(recvs));
            var r := NextSend(sends, got.buf).0;
            Exec(n, s, steps) == s.(fwd := s.fwd[|Server.Inbound(recvs)|..],
                                    server := if got.buf == "" then got else Server.OnSend(got, r),
                                    ret := s.ret + if got.buf == "" then "" else Taken(got.buf, r))
  {
    var recv := ServerRecvLoop(n, s, recvs);
    var t := Exec(n, s, recv);
    var step := ServerSend(NextSend(sends, t.server.buf).0);
    steps := Then(n, s, recv, step, Next(n, t, step));
    assert s.ret + "" == s.ret;
  }
}
