/** The loops and rounds of the datagram programs are runs of the transition
    system: for every script of channel results, what a method computes is the
    state that its steps reach with nothing in between. */
module DgramRounds {
  import opened Seqs
  import opened Udt
  import opened DgramSend
  import opened DgramPipeline
  import Client = DgramClient
  import Server = DgramServer

  lemma ExecOne(s: State, step: Step)
    ensures Exec(s, [step]) == Next(s, step)
  {
    assert Exec(s, [step]) == Exec(Next(s, step), []);
  }

  lemma ExecCons(s: State, step: Step, more: seq<Step>)
    ensures Exec(s, [step] + more) == Exec(Next(s, step), more)
  {
    assert ([step] + more)[1..] == more;
  }

  lemma HeadTaken<T>(channel: seq<T>, head: T, tail: seq<T>)
    requires [head] + tail <= channel
    ensures channel != [] && channel[0] == head && tail <= channel[1..]
    ensures channel[1..][|tail|..] == channel[|[head] + tail|..]
  {
    assert channel[0] == ([head] + tail)[0];
    assert ([head] + tail)[1..] == tail;
  }

  /** One call in the client's send loop. */
  lemma ClientSendsOne(s: State, r: SendResult)
    requires s.pc.SendLoop? && s.buff != [] && Possible(s.buff[0], r)
    ensures var code, t := SendCode(s.buff[0], r), Next(s, ClientSend(r));
            t == s.(buff := if code == 1 then s.buff[1..] else s.buff, fwd := s.fwd + TakenMsgs(s.buff[0], r),
                    running := s.running && code != -1, pc := if code == 1 then SendLoop else RecvLoop,
                    truncated := s.truncated + |TakenMsgs(s.buff[0], r)| - if code == 1 then 1 else 0)
  {
  }

  /** The loop of the client's TrySendMsg, for every script. */
  lemma {:induction false} ClientSendLoop(s: State, script: seq<SendResult>) returns (steps: seq<Step>)
    requires s.pc.SendLoop?
    ensures forall step <- steps :: step.ClientSend?
    ensures var d, t := Drain(s.buff, script), Exec(s, steps);
            && t == s.(pc := RecvLoop, buff := d.queue, fwd := s.fwd + d.wire, running := s.running && d.code != -1,
                       truncated := t.truncated)
            && t.truncated + |s.buff| == s.truncated + |d.wire| + |d.queue|
    decreases |s.buff|
  {
    if s.buff == [] {
      steps := [ClientSend(WouldBlock)];
      ExecOne(s, ClientSend(WouldBlock));
      assert s.fwd + [] == s.fwd;
    } else {
      var (r, rest) := NextSend(script, s.buff[0]);
      ClientSendsOne(s, r);
      if SendCode(s.buff[0], r) == 1 {
        var t := Next(s, ClientSend(r));
        var more := ClientSendLoop(t, rest);
        steps := [ClientSend(r)] + more;
        ExecCons(s, ClientSend(r), more);
        AppendTwice(s.fwd, TakenMsgs(s.buff[0], r), Drain(t.buff, rest).wire);
      } else {
        steps := [ClientSend(r)];
        ExecOne(s, ClientSend(r));
      }
    }
  }

  /** One call in the server's send loop. */
  lemma ServerSendsOne(s: State, r: SendResult)
    requires s.sending && s.echo != [] && Possible(s.echo[0], r)
    ensures var code, t := SendCode(s.echo[0], r), Next(s, ServerSend(r));
            t == s.(echo := if code == 1 then s.echo[1..] else s.echo, ret := s.ret + TakenMsgs(s.echo[0], r),
                    sending := code == 1,
                    truncated := s.truncated + |TakenMsgs(s.echo[0], r)| - if code == 1 then 1 else 0)
  {
  }

  /** The loop of the server's TrySendMsg likewise. */
  lemma {:induction false} ServerSendLoop(s: State, script: seq<SendResult>) returns (steps: seq<Step>)
    requires s.sending
    ensures forall step <- steps :: step.ServerSend?
    ensures var d, t := Drain(s.echo, script), Exec(s, steps);
            && t == s.(sending := false, echo := d.queue, ret := s.ret + d.wire, truncated := t.truncated)
            && t.truncated + |s.echo| == s.truncated + |d.wire| + |d.queue|
    decreases |s.echo|
  {
    if s.echo == [] {
      steps := [ServerSend(WouldBlock)];
      ExecOne(s, ServerSend(WouldBlock));
      assert s.ret + [] == s.ret;
    } else {
      var (r, rest) := NextSend(script, s.echo[0]);
      ServerSendsOne(s, r);
      if SendCode(s.echo[0], r) == 1 {
        var t := Next(s, ServerSend(r));
        var more := ServerSendLoop(t, rest);
        steps := [ServerSend(r)] + more;
        ExecCons(s, ServerSend(r), more);
        AppendTwice(s.ret, TakenMsgs(s.echo[0], r), Drain(t.echo, rest).wire);
      } else {
        steps := [ServerSend(r)];
        ExecOne(s, ServerSend(r));
      }
    }
  }

  /** The messages that the client's receive loop takes out of the channel. */
  function ClientTakes(recvs: seq<RecvResult>): seq<string> {
    if recvs == [] || !recvs[0].Data? then [] else [recvs[0].bytes] + ClientTakes(recvs[1..])
  }

  function ClientReceived(s: State, recvs: seq<RecvResult>): State
    requires ClientTakes(recvs) <= s.ret
  {
    s.(pc := LoopTest, ret := s.ret[|ClientTakes(recvs)|..], delivered := s.delivered + Client.Delivered(recvs),
       running := s.running && !Client.EndsFatally(recvs))
  }

  /** The last call in the client's receive loop. */
  lemma ClientRecvsLast(s: State, recvs: seq<RecvResult>) returns (step: Step)
    requires s.pc.RecvLoop? && (recvs == [] || !recvs[0].Data?)
    ensures step.ClientRecv? && ClientTakes(recvs) == [] && Next(s, step) == ClientReceived(s, recvs)
  {
    step := ClientRecv(if recvs == [] then NoData else recvs[0]);
    assert s.delivered + [] == s.delivered && s.ret[0..] == s.ret;
  }

  /** Any earlier call. */
  lemma ClientRecvsOne(s: State, recvs: seq<RecvResult>) returns (step: Step)
    requires s.pc.RecvLoop? && recvs != [] && recvs[0].Data? && ClientTakes(recvs) <= s.ret
    ensures step.ClientRecv? && Next(s, step).pc.RecvLoop? && ClientTakes(recvs[1..]) <= Next(s, step).ret
    ensures ClientReceived(Next(s, step), recvs[1..]) == ClientReceived(s, recvs)
  {
    var d, tail := Data(Clip(recvs[0].bytes)), recvs[1..];
    step := ClientRecv(d);
    HeadTaken(s.ret, recvs[0].bytes, ClientTakes(tail));
    assert Next(s, step) == s.(ret := s.ret[1..], delivered := s.delivered + Arrived(d));
    AppendTwice(s.delivered, Arrived(d), Client.Delivered(tail));
  }

  /** The loop of the client's TryRecvMsg, with any script that the channel can
      follow: it delivers what the method delivers and stops for the same reason. */
  lemma {:induction false} ClientRecvLoop(s: State, recvs: seq<RecvResult>) returns (steps: seq<Step>)
    requires s.pc.RecvLoop? && ClientTakes(recvs) <= s.ret
    ensures forall step <- steps :: step.ClientRecv?
    ensures Exec(s, steps) == ClientReceived(s, recvs)
    decreases |recvs|
  {
    if recvs == [] || !recvs[0].Data? {
      var step := ClientRecvsLast(s, recvs);
      steps := [step];
      ExecOne(s, step);
    } else {
      var step := ClientRecvsOne(s, recvs);
      var more := ClientRecvLoop(Next(s, step), recvs[1..]);
      steps := [step] + more;
      ExecCons(s, step, more);
    }
  }

  /** The messages that the server's receive loop takes out of the channel: an
      empty one too, at which it stops. */
  function ServerTakes(recvs: seq<RecvResult>): seq<string> {
    if recvs == [] then []
    else match recvs[0]
      case Data(bytes) => if bytes == "" then [bytes] else [bytes] + ServerTakes(recvs[1..])
      case NoData => []
      case RecvError(fatal) => if fatal then [] else ServerTakes(recvs[1..])
  }

  function ServerReceived(s: State, recvs: seq<RecvResult>): State
    requires ServerTakes(recvs) <= s.fwd
  {
    s.(sending := true, fwd := s.fwd[|ServerTakes(recvs)|..], echo := s.echo + Server.Collected(recvs))
  }

  /** The step of one call in the server's receive loop. */
  function ServerCall(recvs: seq<RecvResult>): Step {
    ServerRecv(if recvs == [] then NoData else if recvs[0].Data? then Data(Clip(recvs[0].bytes)) else recvs[0])
  }

  /** The last call. */
  lemma ServerRecvsLast(s: State, recvs: seq<RecvResult>)
    requires !s.sending && (recvs == [] || !Server.GoesOn(recvs[0])) && ServerTakes(recvs) <= s.fwd
    ensures Next(s, ServerCall(recvs)) == ServerReceived(s, recvs)
  {
    assert s.echo + [] == s.echo && s.fwd[0..] == s.fwd;
    if recvs != [] && recvs[0].Data? { assert ServerTakes(recvs) == [recvs[0].bytes] && s.fwd[0] == recvs[0].bytes; }
  }

  /** An earlier call: a message, */
  lemma ServerRecvsMsg(s: State, recvs: seq<RecvResult>)
    requires !s.sending && recvs != [] && recvs[0].Data? && recvs[0].bytes != "" && ServerTakes(recvs) <= s.fwd
    ensures var t := Next(s, ServerCall(recvs));
            !t.sending && ServerTakes(recvs[1..]) <= t.fwd && ServerReceived(t, recvs[1..]) == ServerReceived(s, recvs)
  {
    var tail, now := recvs[1..], [Clip(recvs[0].bytes)];
    assert ServerTakes(recvs) == [recvs[0].bytes] + ServerTakes(tail);
    HeadTaken(s.fwd, recvs[0].bytes, ServerTakes(tail));
    assert Next(s, ServerCall(recvs)) == s.(fwd := s.fwd[1..], echo := s.echo + now);
    AppendTwice(s.echo, now, Server.Collected(tail));
  }

  lemma ErrorCollectsNothing(recvs: seq<RecvResult>)
    requires recvs != [] && recvs[0].RecvError? && !recvs[0].fatal
    ensures Server.Collected(recvs) == Server.Collected(recvs[1..]) && ServerTakes(recvs) == ServerTakes(recvs[1..])
  {
    assert Server.Collected(recvs) == [] + Server.Collected(recvs[1..]);
  }

  /** or an error after which the loop goes on. */
  lemma ServerRecvsError(s: State, recvs: seq<RecvResult>)
    requires !s.sending && recvs != [] && recvs[0].RecvError? && !recvs[0].fatal && ServerTakes(recvs) <= s.fwd
    ensures Next(s, ServerCall(recvs)) == s
    ensures ServerTakes(recvs[1..]) <= s.fwd && ServerReceived(s, recvs[1..]) == ServerReceived(s, recvs)
  {
    ErrorCollectsNothing(recvs);
    assert s.echo + [] == s.echo;
  }

  /** The loop of the server's TryRecvMsg likewise. */
  lemma {:induction false} ServerRecvLoop(s: State, recvs: seq<RecvResult>) returns (steps: seq<Step>)
    requires !s.sending && ServerTakes(recvs) <= s.fwd
    ensures forall step <- steps :: step.ServerRecv?
    ensures Exec(s, steps) == ServerReceived(s, recvs)
    decreases |recvs|
  {
    if recvs == [] || !Server.GoesOn(recvs[0]) {
      ServerRecvsLast(s, recvs);
      steps := [ServerCall(recvs)];
      ExecOne(s, ServerCall(recvs));
    } else {
      if recvs[0].Data? { ServerRecvsMsg(s, recvs); } else { ServerRecvsError(s, recvs); }
      var more := ServerRecvLoop(Next(s, ServerCall(recvs)), recvs[1..]);
      steps := [ServerCall(recvs)] + more;
      ExecCons(s, ServerCall(recvs), more);
    }
  }

  /** A round of the client's loop in Run: RunOnce, with the results that its
      contract gives. */
  lemma ClientRound(s: State, sends: seq<SendResult>, recvs: seq<RecvResult>) returns (steps: seq<Step>)
    requires s.pc.LoopTest? && s.running && ClientTakes(recvs) <= s.ret
    ensures var buff := if s.buff == [] then s.queue else s.buff;
            var d, t := Drain(buff, sends), Exec(s, steps);
            && t == s.(queue := if s.buff == [] then [] else s.queue,
                       buff := d.queue,
                       fwd := s.fwd + d.wire,
                       ret := s.ret[|ClientTakes(recvs)|..],
                       delivered := s.delivered + Client.Delivered(recvs),
                       running := d.code != -1 && !Client.EndsFatally(recvs),
                       truncated := t.truncated)
            && t.truncated + |buff| == s.truncated + |d.wire| + |d.queue|
  {
    var s1 := s.(pc := GrabTest);
    var s2 := if s.buff == [] then s.(buff := s.queue, queue := [], pc := SendLoop) else s.(pc := SendLoop);
    assert Next(s, TestRunning) == s1 && Next(s1, Grab) == s2;
    var send := ClientSendLoop(s2, sends);
    var s3 := Exec(s2, send);
    var recv := ClientRecvLoop(s3, recvs);
    steps := [TestRunning] + ([Grab] + (send + recv));
    ExecCons(s, TestRunning, [Grab] + (send + recv));
    ExecCons(s1, Grab, send + recv);
    ExecAppend(s2, send, recv);
  }

  /** A round of the server's worker: WorkOnce. */
  lemma ServerRound(s: State, sends: seq<SendResult>, recvs: seq<RecvResult>) returns (steps: seq<Step>)
    requires !s.sending && ServerTakes(recvs) <= s.fwd
    ensures var echo := s.echo + Server.Collected(recvs);
            var d, t := Drain(echo, sends), Exec(s, steps);
            && t == s.(fwd := s.fwd[|ServerTakes(recvs)|..], echo := d.queue, ret := s.ret + d.wire,
                       truncated := t.truncated)
            && t.truncated + |echo| == s.truncated + |d.wire| + |d.queue|
  {
    var recv := ServerRecvLoop(s, recvs);
    var send := ServerSendLoop(Exec(s, recv), sends);
    steps := recv + send;
    ExecAppend(s, recv, send);
  }

  /** In particular the receive loop can empty the channel; it has then delivered
      exactly the arriving messages. */
  lemma ClientEmptiesChannel(s: State) returns (steps: seq<Step>)
    requires s.pc.RecvLoop?
    ensures forall step <- steps :: step.ClientRecv?
    ensures Exec(s, steps) == s.(pc := LoopTest, ret := [], delivered := s.delivered + Arriving(s.ret))
  {
    Client.DeliversEverything(s.ret);
    TakesAll(s.ret);
    steps := ClientRecvLoop(s, AllData(s.ret));
  }

  lemma {:induction false} TakesAll(msgs: seq<string>)
    ensures ClientTakes(AllData(msgs)) == msgs
  {
    if msgs == [] {
    } else {
      AllDataTail(msgs);
      TakesAll(msgs[1..]);
    }
  }
}
