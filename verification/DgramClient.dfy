/** The client of the datagram benchmark: the locked queue, the private buffer
    of the I/O thread, and the loops that drain buffer and socket. */
module DgramClient {
  import opened Udt
  import opened DgramSend
  import opened ThreadsafeQueue

  /** What TryRecvMsg gives to the callback: every non-empty message up to the
      first "no data" or error. Empty messages do not end the loop. */
  function Delivered(recvs: seq<RecvResult>): seq<string> {
    if recvs == [] || !recvs[0].Data? then []
    else (if recvs[0].bytes == "" then [] else [Clip(recvs[0].bytes)]) + Delivered(recvs[1..])
  }

  /** Whether that loop ends with one of the errors that stop the client. */
  function EndsFatally(recvs: seq<RecvResult>): bool {
    if recvs == [] then false
    else match recvs[0]
      case Data(_) => EndsFatally(recvs[1..])
      case NoData => false
      case RecvError(fatal) => fatal
  }

  /** What the loop leaves in the socket. */
  function Remaining(recvs: seq<RecvResult>): seq<RecvResult> {
    if recvs == [] then [] else if recvs[0].Data? then Remaining(recvs[1..]) else recvs[1..]
  }

  /** With only messages in the socket, exactly the arriving ones are delivered. */
  lemma {:induction false} DeliversEverything(msgs: seq<string>)
    ensures var recvs := AllData(msgs);
            && Delivered(recvs) == Arriving(msgs)
            && Remaining(recvs) == []
            && !EndsFatally(recvs)
  {
    if msgs == [] {
    } else {
      AllDataTail(msgs);
      DeliversEverything(msgs[1..]);
      ArrivingHead(msgs);
    }
  }

  /** In general, those before the first "no data" or error; the results after it
      are left, and only a fatal error stops the client. */
  lemma {:induction false} DeliveryStops(msgs: seq<string>, stop: RecvResult, rest: seq<RecvResult>)
    requires !stop.Data?
    ensures var recvs := AllData(msgs) + [stop] + rest;
            && Delivered(recvs) == Arriving(msgs)
            && Remaining(recvs) == rest
            && (EndsFatally(recvs) <==> stop == RecvError(true))
  {
    var recvs := AllData(msgs) + [stop] + rest;
    if msgs == [] {
      assert recvs[1..] == rest;
    } else {
      AllDataTail(msgs);
      assert recvs[1..] == AllData(msgs[1..]) + [stop] + rest;
      DeliveryStops(msgs[1..], stop, rest);
      ArrivingHead(msgs);
    }
  }

  class Client {
    const sock: Socket
    const sendMsgQueue: Queue<string>
    var sendMsgBuff: seq<string>
    var running: bool
    var delivered: seq<string>  // the arguments of the callback, in order

    ghost predicate Valid() reads this, sendMsgQueue { sendMsgQueue.Valid() }

    constructor (sock: Socket)
      ensures Valid() && fresh(sendMsgQueue) && this.sock == sock
      ensures sendMsgQueue.data == [] && sendMsgBuff == [] && !running && delivered == []
    {
      this.sock := sock;
      sendMsgQueue := new Queue<string>();
      sendMsgBuff, running, delivered := [], false, [];
    }

    method SendMsg(msg: string)
      requires Valid()
      modifies sendMsgQueue
      ensures Valid() && sendMsgQueue.data == old(sendMsgQueue.data) + [msg]
    {
      sendMsgQueue.Push(msg);
    }

    method SendMsgQueueSize() returns (n: nat)
      ensures n == |sendMsgQueue.data|
    {
      n := sendMsgQueue.Size();
    }

    method TryGrabMsg()
      requires Valid()
      modifies this`sendMsgBuff, sendMsgQueue
      ensures Valid() && sendMsgBuff == old(sendMsgQueue.data) && sendMsgQueue.data == []
    {
      sendMsgBuff := sendMsgQueue.GrabAll();
    }

    method DoSendOneMsg(msg: string) returns (code: int)
      modifies this`running, sock`sends, sock`messages
      ensures var (r, rest) := NextSend(old(sock.sends), msg);
              && sock.sends == rest
              && sock.messages == old(sock.messages) + TakenMsgs(msg, r)
              && code == SendCode(msg, r)
              && running == (old(running) && code != -1)
    {
      var r := sock.SendMsg(msg);
      match r {
        case WouldBlock => return 0;
        case SendError =>
          running := false;
          return -1;
        case Accepted(count) =>
          if count != |msg| {
            running := false;
            return -1;
          }
          return 1;
      }
    }

    method TrySendMsg()
      modifies this`running, this`sendMsgBuff, sock`sends, sock`messages
      ensures var d := Drain(old(sendMsgBuff), old(sock.sends));
              && sendMsgBuff == d.queue
              && sock.sends == d.script
              && sock.messages == old(sock.messages) + d.wire
              && running == (old(running) && d.code != -1)
    {
      ghost var d, sent := Drain(sendMsgBuff, sock.sends), [];
      while |sendMsgBuff| > 0
        invariant running == old(running)
        invariant sock.messages == old(sock.messages) + sent
        invariant d == Then(sent, Drain(sendMsgBuff, sock.sends))
        decreases |sendMsgBuff|
      {
        var msg := sendMsgBuff[0];
        DrainUnfolds(sendMsgBuff, sock.sends, sent);
        sent := sent + TakenMsgs(msg, NextSend(sock.sends, msg).0);
        var sendRet := DoSendOneMsg(msg);
        if sendRet != 1 {
          return;
        }
        sendMsgBuff := sendMsgBuff[1..];
      }
    }

    method DoRecvMsg() returns (haveMsgStill: bool)
      modifies this`running, this`delivered, sock`recvs
      ensures var (r, rest) := NextRecvMsg(old(sock.recvs));
              && sock.recvs == rest
              && haveMsgStill == r.Data?
              && running == (old(running) && !(r.RecvError? && r.fatal))
              && delivered == old(delivered) + if r.Data? && r.bytes != "" then [r.bytes] else []
    {
      haveMsgStill := true;
      var r := sock.RecvMsg();
      match r {
        case NoData => haveMsgStill := false;
        case RecvError(fatal) =>
          if fatal {
            running := false;
          }
          haveMsgStill := false;
        case Data(bytes) =>
          if |bytes| > 0 {
            delivered := delivered + [bytes];
            haveMsgStill := true;
          }
      }
    }

    method TryRecvMsg()
      modifies this`running, this`delivered, sock`recvs
      ensures delivered == old(delivered) + Delivered(old(sock.recvs))
      ensures running == (old(running) && !EndsFatally(old(sock.recvs)))
      ensures sock.recvs == Remaining(old(sock.recvs))
    {
      ghost var recvs := sock.recvs;
      var haveMsgStill := true;
      while haveMsgStill
        invariant haveMsgStill ==>
                    && delivered + Delivered(sock.recvs) == old(delivered) + Delivered(recvs)
                    && running == old(running)
                    && EndsFatally(sock.recvs) == EndsFatally(recvs)
                    && Remaining(sock.recvs) == Remaining(recvs)
        invariant !haveMsgStill ==>
                    && delivered == old(delivered) + Delivered(recvs)
                    && running == (old(running) && !EndsFatally(recvs))
                    && sock.recvs == Remaining(recvs)
        decreases haveMsgStill, |sock.recvs|
      {
        haveMsgStill := DoRecvMsg();
      }
    }

    /** One round of the loop in Run. The queue is grabbed only into an empty
        buffer, so no message is lost by the assignment. */
    method RunOnce()
      requires Valid()
      modifies this, sendMsgQueue, sock
      ensures Valid()
      ensures var grabbed := old(sendMsgBuff) == [];
              var buff := if grabbed then old(sendMsgQueue.data) else old(sendMsgBuff);
              var d := Drain(buff, old(sock.sends));
              && sendMsgQueue.data == (if grabbed then [] else old(sendMsgQueue.data))
              && sendMsgBuff == d.queue
              && sock.messages == old(sock.messages) + d.wire
              && sock.sends == d.script
              && sock.recvs == Remaining(old(sock.recvs))
              && delivered == old(delivered) + Delivered(old(sock.recvs))
              && running == (old(running) && d.code != -1 && !EndsFatally(old(sock.recvs)))
    {
      if |sendMsgBuff| == 0 {
        TryGrabMsg();
      }
      TrySendMsg();
      TryRecvMsg();
    }
  }
}
